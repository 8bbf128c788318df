/** Address-space affinity: one detour to the burner control per drain of the read lane. */
module HubAffinity {
  import opened Basics
  import opened AddressSpaces
  import opened BitFields
  import opened RingBuffers
  import opened HubModel

  predicate IsGfa(c: Config, e: nat) {
    Of(c, e).space == GFA
  }

  function Gfa(c: Config): nat -> bool {
    (e: nat) => IsGfa(c, e)
  }

  function NotGfa(c: Config): nat -> bool {
    (e: nat) => !IsGfa(c, e)
  }

  /** The state a drain of reads runs in: no write, no raw operation, no identification in the way. */
  predicate ReadsOnly(h: Hub) {
    && SlotFree(h) && h.rmwPending.None? && (h.ident.IdentIdle? || h.ident.IdentDone?)
    && h.rawLane == [] && h.writeLane == []
  }

  /** Reads before the first GFA read keep their place; then come all GFA reads, then the rest. */
  function DrainOrder(c: Config, lane: seq<nat>, last: Space): seq<nat> {
    if !HasSwitchCost(c.protocol, GFA) then lane
    else
      var k := if last == GFA then 0 else FirstIndex(lane, Gfa(c));
      lane[..k] + Filter(lane[k..], Gfa(c)) + Filter(lane[k..], NotGfa(c))
  }

  // --- filters --------------------------------------------------------------------------------

  lemma {:induction false} FilterAll<T>(s: seq<T>, p: T -> bool)
    requires forall k :: 0 <= k < |s| ==> p(s[k])
    ensures Filter(s, p) == s
  {
    if s != [] {
      assert forall k :: 0 <= k < |s[1..]| ==> s[1..][k] == s[k + 1];
      FilterAll(s[1..], p);
    }
  }

  lemma MovedKeepsFilters(c: Config, lane: seq<nat>)
    ensures Filter(MoveFirstIf(lane, Gfa(c)), Gfa(c)) == Filter(lane, Gfa(c))
    ensures Filter(MoveFirstIf(lane, Gfa(c)), NotGfa(c)) == Filter(lane, NotGfa(c))
  {
    MoveFirstIfKeepsOrder(lane, Gfa(c), NotGfa(c));
  }

  // --- one dispatch follows the order ----------------------------------------------------------

  /** The affine lane picks the element the order names first. */
  lemma AffineLaneIs(c: Config, h: Hub)
    ensures HasSwitchCost(c.protocol, h.lastSpace) ==> AffineLane(c, h) == MoveFirstIf(h.readLane, Gfa(c))
    ensures !HasSwitchCost(c.protocol, h.lastSpace) ==> AffineLane(c, h) == h.readLane
  {
    if HasSwitchCost(c.protocol, h.lastSpace) {
      var p := (e: nat) => Of(c, e).space == h.lastSpace;
      FirstIndexAgree(h.readLane, p, Gfa(c));
    }
  }

  /**
   Only over P300, and only after a GFA telegram, is a read moved up: the first GFA read that
   waits, and it is then the next.
   */
  lemma MovesOnlyGfa(c: Config, h: Hub)
    ensures var lane := AffineLane(c, h);
            if c.protocol == P300 && h.lastSpace == GFA && exists e :: e in h.readLane && Of(c, e).space == GFA
            then lane != [] && lane[0] in h.readLane && Of(c, lane[0]).space == GFA
            else lane == h.readLane
  {
    AffineLaneIs(c, h);
    MoveFirstIfKeepsMembers(h.readLane, Gfa(c));
    if c.protocol == P300 && h.lastSpace == GFA {
      GfaHead(c, h.readLane);
    }
  }

  lemma {:induction false} GfaHead(c: Config, lane: seq<nat>)
    ensures if exists e :: e in lane && Of(c, e).space == GFA
            then MoveFirstIf(lane, Gfa(c)) != [] && IsGfa(c, MoveFirstIf(lane, Gfa(c))[0])
            else MoveFirstIf(lane, Gfa(c)) == lane
  {
    if e :| e in lane && Of(c, e).space == GFA {
      var i :| 0 <= i < |lane| && lane[i] == e;
      assert Gfa(c)(lane[i]);
    } else {
      forall k | 0 <= k < |lane|
        ensures !Gfa(c)(lane[k])
      {
        assert lane[k] in lane;
      }
    }
  }

  lemma {:induction false} FirstIndexAgree(s: seq<nat>, p: nat -> bool, q: nat -> bool)
    requires forall x :: p(x) == q(x)
    ensures FirstIndex(s, p) == FirstIndex(s, q)
  {
    if s != [] { FirstIndexAgree(s[1..], p, q); }
  }

  /** With GFA last used, the order is the two classes one after the other. */
  lemma OrderIs(c: Config, lane: seq<nat>)
    requires HasSwitchCost(c.protocol, GFA)
    ensures DrainOrder(c, lane, GFA) == Filter(lane, Gfa(c)) + Filter(lane, NotGfa(c))
  {
    assert lane[0..] == lane;
  }

  /** Moving a GFA read up does not change the order; nor does taking the head. */
  lemma OrderFromGfa(c: Config, lane: seq<nat>)
    requires HasSwitchCost(c.protocol, GFA) && lane != []
    ensures var m := MoveFirstIf(lane, Gfa(c));
            && m != []
            && DrainOrder(c, m, GFA) == DrainOrder(c, lane, GFA)
            && DrainOrder(c, lane, GFA) == [m[0]] + DrainOrder(c, m[1..], Of(c, m[0]).space)
  {
    var m := MoveFirstIf(lane, Gfa(c));
    MovedKeepsFilters(c, lane);
    MoveFirstIfKeepsMembers(lane, Gfa(c));
    OrderIs(c, lane);
    OrderIs(c, m);
    if IsGfa(c, m[0]) {
      OrderIs(c, m[1..]);
    } else {
      NoGfaLeft(c, lane);
      OrderWithoutGfa(c, lane);
    }
  }

  lemma OrderWithoutGfa(c: Config, lane: seq<nat>)
    requires HasSwitchCost(c.protocol, GFA) && lane != [] && forall k :: 0 <= k < |lane| ==> !Gfa(c)(lane[k])
    ensures DrainOrder(c, lane, GFA) == [lane[0]] + DrainOrder(c, lane[1..], Of(c, lane[0]).space)
  {
    OrderIs(c, lane);
    FilterNone(lane, Gfa(c));
    FilterAll(lane, NotGfa(c));
    NoneInTail(c, lane);
    assert !Gfa(c)(lane[0]);
  }

  lemma NoGfaLeft(c: Config, lane: seq<nat>)
    requires lane != [] && !IsGfa(c, MoveFirstIf(lane, Gfa(c))[0])
    ensures MoveFirstIf(lane, Gfa(c)) == lane
    ensures forall k :: 0 <= k < |lane| ==> !Gfa(c)(lane[k])
  {}

  /** Without GFA reads the order is the lane itself. */
  lemma NoneInTail(c: Config, lane: seq<nat>)
    requires lane != [] && forall k :: 0 <= k < |lane| ==> !Gfa(c)(lane[k])
    ensures FirstIndex(lane[1..], Gfa(c)) == |lane[1..]|
    ensures forall last :: last != GFA ==> DrainOrder(c, lane[1..], last) == lane[1..]
  {
    var tail := lane[1..];
    assert forall k :: 0 <= k < |tail| ==> tail[k] == lane[k + 1];
    assert tail[..|tail|] == tail && tail[|tail|..] == [];
  }

  lemma OrderElsewhere(c: Config, lane: seq<nat>, last: Space)
    requires HasSwitchCost(c.protocol, GFA) && lane != [] && last != GFA
    ensures DrainOrder(c, lane, last) == [lane[0]] + DrainOrder(c, lane[1..], Of(c, lane[0]).space)
  {
    var k := FirstIndex(lane, Gfa(c));
    if k == 0 {
      assert lane[0..] == lane && lane[1..][0..] == lane[1..];
    } else {
      assert lane[k..] == lane[1..][k - 1..];
      assert lane[..k] == [lane[0]] + lane[1..][..k - 1];
    }
  }

  /**
   Each read dispatched from a state with only reads left is the next of the order, and
   what is left is ordered as before; a transient refusal, however often repeated, leaves
   the order as it was.
   */
  lemma DispatchFollowsOrder(c: Config, h: Hub, now: u32, v: Verdict)
    requires ReadsOnly(h) && h.readLane != []
    ensures var s := Dispatch(c, h, now, v, []);
            var order := DrainOrder(c, h.readLane, h.lastSpace);
            && order != []
            && (v.Busy? ==> s.telegram.None? && DrainOrder(c, s.hub.readLane, s.hub.lastSpace) == order)
            && (s.telegram.Some? ==>
                  && s.telegram.value.kind == PollRead(order[0])
                  && DrainOrder(c, s.hub.readLane, s.hub.lastSpace) == order[1..])
  {
    AffineLaneIs(c, h);
    if HasSwitchCost(c.protocol, GFA) {
      if h.lastSpace == GFA {
        OrderFromGfa(c, h.readLane);
      } else {
        OrderElsewhere(c, h.readLane, h.lastSpace);
      }
    }
  }

  // --- a whole drain ------------------------------------------------------------------------------

  /** How a read ends: with an answer, rightly addressed or not, or with an error. */
  datatype Ending = Answered(addr: nat, data: seq<byte>, source: TimeSource) | Errored

  datatype Turn = Turn(busy: nat, ending: Ending)

  /** One turn: the engine first refuses `busy` times, then takes what it is offered, which then ends. */
  function TakeTurn(c: Config, h: Hub, turn: Turn): Hub {
    EndedRead(c, Dispatch(c, Refused(c, h, turn.busy), 0, Taken, []).hub, turn.ending)
  }

  /** Turns are taken until the reads are all sent, or a write overtakes them. */
  predicate DrainOver(h: Hub, turns: seq<Turn>) {
    turns == [] || h.readLane == [] || h.writeLane != []
  }

  function DrainReads(c: Config, h: Hub, turns: seq<Turn>): seq<nat>
    decreases |turns|
  {
    if DrainOver(h, turns) then []
    else
      match Dispatch(c, Refused(c, h, turns[0].busy), 0, Taken, []).telegram
      case None => []
      case Some(t) =>
        (if t.kind.PollRead? then [t.kind.e] else []) + DrainReads(c, TakeTurn(c, h, turns[0]), turns[1..])
  }

  function DrainEnd(c: Config, h: Hub, turns: seq<Turn>): Hub
    decreases |turns|
  {
    if DrainOver(h, turns) then h else DrainEnd(c, TakeTurn(c, h, turns[0]), turns[1..])
  }

  function Refused(c: Config, h: Hub, times: nat): Hub
    decreases times
  {
    if times == 0 then h else Refused(c, Dispatch(c, h, 0, Busy, []).hub, times - 1)
  }

  function EndedRead(c: Config, h: Hub, ending: Ending): Hub {
    match ending
    case Answered(addr, data, source) => Respond(c, h, addr, data, false, source, [])
    case Errored => Fail(c, h, [])
  }

  /** Every entity the lane holds can be read. */
  predicate Readable(c: Config, lane: seq<nat>) {
    forall e :: e in lane ==> Available(c.protocol, Of(c, e).space)
  }

  lemma {:induction false} RefusedKeepsOrder(c: Config, h: Hub, times: nat)
    requires ReadsOnly(h) && h.readLane != []
    ensures var r := Refused(c, h, times);
            && ReadsOnly(r) && |r.readLane| == |h.readLane| && (forall e :: e in r.readLane <==> e in h.readLane)
            && DrainOrder(c, r.readLane, r.lastSpace) == DrainOrder(c, h.readLane, h.lastSpace)
    decreases times
  {
    if times > 0 {
      var once := Dispatch(c, h, 0, Busy, []).hub;
      DispatchFollowsOrder(c, h, 0, Busy);
      MoveFirstIfKeepsMembers(h.readLane, e => Of(c, e).space == h.lastSpace);
      RefusedKeepsOrder(c, once, times - 1);
    }
  }

  lemma OrderLength(c: Config, lane: seq<nat>, last: Space)
    ensures |DrainOrder(c, lane, last)| == |lane|
  {
    var k := if last == GFA then 0 else FirstIndex(lane, Gfa(c));
    FilterLengths(c, lane[k..]);
  }

  lemma {:induction false} FilterLengths(c: Config, s: seq<nat>)
    ensures |Filter(s, Gfa(c))| + |Filter(s, NotGfa(c))| == |s|
  {
    if s != [] { FilterLengths(c, s[1..]); }
  }

  /** A drain is overtaken when the read sent last was the clock's and its answer queued the clock's write. */
  predicate OvertakenByClock(c: Config, sent: seq<nat>, end: Hub) {
    sent != [] && IsClock(c, sent[|sent| - 1]) && end.writeLane == [sent[|sent| - 1]]
  }

  /**
   The reads a drain puts on the bus are the order, read for read, as far as the drain
   goes: all GFA reads in one contiguous run, both classes in their own relative order,
   whatever transient refusals come in between and however each read ends. It goes all the
   way, or as far as its turns, unless the clock's read is answered and leads to a write.
   */
  lemma {:induction false} DrainIsOrder(c: Config, h: Hub, turns: seq<Turn>)
    requires ReadsOnly(h) && Readable(c, h.readLane)
    ensures DrainsInOrder(c, h, turns)
    decreases |turns|
  {
    OrderLength(c, h.readLane, h.lastSpace);
    if !DrainOver(h, turns) {
      var next := TurnDrains(c, h, turns);
      if next.writeLane == [] { DrainIsOrder(c, next, turns[1..]); }
    }
  }

  predicate DrainsInOrder(c: Config, h: Hub, turns: seq<Turn>) {
    var sent, order, end := DrainReads(c, h, turns), DrainOrder(c, h.readLane, h.lastSpace), DrainEnd(c, h, turns);
    && sent <= order
    && (if end.writeLane == [] then |sent| == |turns| || sent == order else OvertakenByClock(c, sent, end))
  }

  lemma TurnDrains(c: Config, h: Hub, turns: seq<Turn>) returns (next: Hub)
    requires ReadsOnly(h) && Readable(c, h.readLane) && !DrainOver(h, turns)
    ensures if next.writeLane == []
            then ReadsOnly(next) && Readable(c, next.readLane)
                 && (DrainsInOrder(c, next, turns[1..]) ==> DrainsInOrder(c, h, turns))
            else DrainsInOrder(c, h, turns)
  {
    OneTurn(c, h, turns[0]);
    next := TakeTurn(c, h, turns[0]);
  }

  /** A turn sends the first read of the order; what waits then is the rest of it, or the clock's write as well. */
  lemma OneTurn(c: Config, h: Hub, turn: Turn)
    requires ReadsOnly(h) && Readable(c, h.readLane) && h.readLane != []
    ensures var order := DrainOrder(c, h.readLane, h.lastSpace);
            var t, next := Dispatch(c, Refused(c, h, turn.busy), 0, Taken, []).telegram, TakeTurn(c, h, turn);
            && order != [] && t.Some? && t.value.kind == PollRead(order[0])
            && (if next.writeLane == []
                then ReadsOnly(next) && Readable(c, next.readLane)
                     && DrainOrder(c, next.readLane, next.lastSpace) == order[1..]
                else IsClock(c, order[0]) && next.writeLane == [order[0]])
  {
    var asked := Refused(c, h, turn.busy);
    RefusedKeepsOrder(c, h, turn.busy);
    DispatchFollowsOrder(c, asked, 0, Taken);
    TakenRead(c, asked);
    ReadEnds(c, Dispatch(c, asked, 0, Taken, []).hub, turn.ending);
  }

  /** A read in flight, and nothing but reads waiting. */
  predicate ReadInFlight(c: Config, h: Hub) {
    h.inFlight.Some? && h.op == ReadOp && !h.identInFlight && !h.rawInFlight && ReadsOnly(FreeSlot(h))
  }

  lemma TakenRead(c: Config, h: Hub)
    requires ReadsOnly(h) && h.readLane != [] && Readable(c, h.readLane)
    ensures var s := Dispatch(c, h, 0, Taken, []);
            && s.telegram.Some? && ReadInFlight(c, s.hub)
            && s.telegram.value.kind == PollRead(s.hub.inFlight.value)
            && Readable(c, s.hub.readLane) && |s.hub.readLane| == |h.readLane| - 1
  {
    MoveFirstIfKeepsMembers(h.readLane, e => Of(c, e).space == h.lastSpace);
    var lane := AffineLane(c, h);
    assert lane[0] in lane;
    assert forall e :: e in lane[1..] ==> e in lane;
  }

  /** Only reads wait, as before, or the write of clock `e` besides them. */
  predicate Leaves(c: Config, h: Hub, e: nat, r: Hub) {
    && r.readLane == h.readLane && r.lastSpace == h.lastSpace
    && (if r.writeLane == [] then ReadsOnly(r) else IsClock(c, e) && r.writeLane == [e])
  }

  lemma ReadEnds(c: Config, h: Hub, ending: Ending)
    requires ReadInFlight(c, h)
    ensures Leaves(c, h, h.inFlight.value, EndedRead(c, h, ending))
  {
    var e := h.inFlight.value;
    ReadFails(c, h);
    if ending.Answered? && ending.addr == Of(c, e).readAddr {
      ReadAnswered(c, h, e, DropVerify(EndRead(FreeSlot(h), e), e), ending.data, ending.source);
    }
  }

  lemma ReadFails(c: Config, h: Hub)
    requires ReadInFlight(c, h)
    ensures Leaves(c, h, h.inFlight.value, FailOp(c, FreeSlot(h), h.inFlight.value, ReadOp, []))
  {}

  lemma ReadAnswered(c: Config, h: Hub, e: nat, ended: Hub, data: seq<byte>, source: TimeSource)
    requires ReadsOnly(ended) && ended.readLane == h.readLane && ended.lastSpace == h.lastSpace
    ensures Leaves(c, h, e, HandleResponse(c, ended, e, data, source, []))
  {
    ClockReadLeaves(c, ended, data, source);
  }

  lemma ClockReadLeaves(c: Config, h: Hub, data: seq<byte>, source: TimeSource)
    requires ReadsOnly(h)
    ensures var r := ClockRead(c, h, data, source);
            && r.readLane == h.readLane && r.lastSpace == h.lastSpace
            && (if r.writeLane == [] then ReadsOnly(r) else c.clock.Some? && r.writeLane == [c.clock.value.id])
            && ReadsOnly(r.(writeLane := []))
  {
    if c.clock.Some? && source.Source? {
      var k := c.clock.value.id;
      var d := DeviceClock.Decide(c.clock.value.config, h.clock.learned, ToInts(data), source.now);
      var idle := h.(clock := h.clock.(phase := Idle, learned := d.learned));
      if d.payload.Some? { WriteRequestLeaves(c, Stage(idle, k, ToBytes(d.payload.value)), k); }
    }
  }

  lemma WriteRequestLeaves(c: Config, h: Hub, e: nat)
    requires ReadsOnly(h)
    ensures var r := RequestWrite(c, h, e).hub;
            && r.readLane == h.readLane && r.lastSpace == h.lastSpace
            && (r.writeLane == [] || r.writeLane == [e]) && ReadsOnly(r.(writeLane := []))
  {}
}
