/**
 Draining: without new requests and with quiet handlers, the hub reaches idle, although
 acknowledgements add read-backs and sibling reads and a clock read may add a write.
 The bound on the number of steps is explicit.
 */
module HubDrain {
  import opened Basics
  import opened BitFields
  import opened RingBuffers
  import opened HubModel
  import opened HubInvariants
  import opened HubBus
  import opened HubClock

  // --- what is left to do --------------------------------------------------------------------

  function IdentLeft(s: IdentState): nat {
    match s
    case Read4 => 7
    case ReadF8 => 6
    case ReadF9 => 5
    case ReadFA => 4
    case ReadFB => 3
    case ReadGFA => 2
    case ReadF0 => 1
    case _ => 0
  }

  function WriteStage(h: Hub): nat {
    if h.rmwPending.Some? then 2
    else if h.inFlight.None? then 0
    else match h.op
      case RmwReadOp => 3
      case WriteOp => 1
      case _ => 0
  }

  function ClockMayWrite(c: Config, h: Hub): nat {
    if c.clock.Some? && h.clock.phase == Reading then 5 else 0
  }

  /** Identification and raw steps, write stages (a clock still reading may add a write), reads. */
  datatype Load = Load(first: int, writeWork: nat, readWork: nat)

  function LoadOf(c: Config, h: Hub): Load {
    Load(2 * IdentLeft(h.ident) - (if h.identInFlight then 1 else 0)
           + 2 * |h.rawLane| + (if h.rawInFlight then 1 else 0),
         4 * |h.writeLane| + WriteStage(h) + ClockMayWrite(c, h),
         2 * |h.readLane| + (if h.inFlight.Some? && h.op == ReadOp then 1 else 0))
  }

  /** Writes weigh more than all the reads one of them can cause. */
  function Weight(n: nat, l: Load): int {
    l.first + l.writeWork * (2 * n + 2) + l.readWork
  }

  predicate Lighter(n: nat, a: Load, b: Load) {
    || (b.first < a.first && b.writeWork == a.writeWork && b.readWork == a.readWork)
    || (b.first == a.first && b.writeWork < a.writeWork && b.readWork <= 2 * n)
    || (b.first == a.first && b.writeWork == a.writeWork && b.readWork < a.readWork)
  }

  lemma LighterWeighsLess(n: nat, a: Load, b: Load)
    requires Lighter(n, a, b)
    ensures Weight(n, b) < Weight(n, a)
  {
    if b.writeWork < a.writeWork {
      AtLeastOnce(a.writeWork, b.writeWork, 2 * n + 2);
    }
  }

  lemma AtLeastOnce(x: nat, y: nat, k: nat)
    requires y < x
    ensures x * k >= y * k + k
  {
    var d := x - y;
    assert x * k == y * k + d * k;
    assert d * k == k + (d - 1) * k;
  }

  lemma ReadsBounded(c: Config, h: Hub)
    requires Inv(c, h)
    ensures LoadOf(c, h).readWork <= 2 * |c.entities|
    ensures LoadOf(c, h).first >= 0
  {
    if h.inFlight.Some? && h.op == ReadOp {
      assert FlagsOk(h, h.inFlight.value);
      MissingOneIsShorter(h.readLane, |c.entities|, h.inFlight.value);
    } else {
      NotLonger(h.readLane, |c.entities|);
    }
  }

  lemma NotLonger(s: seq<nat>, n: nat)
    requires LaneOk(s, n)
    ensures |s| <= n
  {
    SubsetCardinality(Members(s), Below(n));
  }

  // --- the steps of a drain ---------------------------------------------------------------------

  predicate Drained(h: Hub) {
    && SlotFree(h) && h.rmwPending.None? && (h.ident.IdentIdle? || h.ident.IdentDone?)
    && h.rawLane == [] && h.writeLane == [] && h.readLane == []
  }

  /**
   The engine decides about what it is offered; an answer lands, rightly addressed or not; an
   operation fails or is lost.
   */
  datatype Move =
    | Decide(now: u32, v: Verdict)
    | Land(addr: nat, data: seq<byte>, unserved: bool, source: TimeSource)
    | Break

  predicate Productive(h: Hub, m: Move) {
    if m.Decide? then SlotFree(h) && !Drained(h) && !m.v.Busy? else !SlotFree(h)
  }

  function MoveOn(c: Config, h: Hub, m: Move): Hub {
    match m
    case Decide(now, v) => Dispatch(c, h, now, v, []).hub
    case Land(addr, data, unserved, source) => Respond(c, h, addr, data, unserved, source, [])
    case Break => Fail(c, h, [])
  }

  lemma MoveInv(c: Config, h: Hub, m: Move)
    requires ValidConfig(c) && Inv(c, h)
    ensures Inv(c, MoveOn(c, h, m))
  {
    match m
    case Decide(now, v) => DispatchInv(c, h, now, v, []);
    case Land(addr, data, unserved, source) => RespondInv(c, h, addr, data, unserved, source, []);
    case Break => FailInv(c, h, []);
  }

  lemma DecideWriteLightens(c: Config, h: Hub, now: u32, v: Verdict)
    requires ValidConfig(c) && Inv(c, h) && SlotFree(h) && h.rmwPending.None? && h.writeLane != [] && !v.Busy?
    ensures Lighter(|c.entities|, LoadOf(c, h), LoadOf(c, DispatchWrite(c, h, now, v, []).hub))
  {
    ReadsBounded(c, h);
  }

  lemma DecideReadLightens(c: Config, h: Hub, now: u32, v: Verdict)
    requires ValidConfig(c) && Inv(c, h) && SlotFree(h) && h.rmwPending.None? && h.readLane != [] && !v.Busy?
    ensures Lighter(|c.entities|, LoadOf(c, h), LoadOf(c, DispatchRead(c, h, now, v).hub))
  {
    MoveFirstIfKeepsMembers(h.readLane, e => Of(c, e).space == h.lastSpace);
  }

  lemma DecideLightens(c: Config, h: Hub, now: u32, v: Verdict)
    requires ValidConfig(c) && Inv(c, h) && SlotFree(h) && !Drained(h) && !v.Busy?
    ensures Lighter(|c.entities|, LoadOf(c, h), LoadOf(c, Dispatch(c, h, now, v, []).hub))
  {
    ReadsBounded(c, h);
    if h.rmwPending.Some? {
      DecideMergedLightens(c, h, now, v);
    } else if !h.ident.IdentIdle? && !h.ident.IdentDone? {
    } else if h.rawLane != [] {
    } else if h.writeLane != [] {
      DecideWriteLightens(c, h, now, v);
    } else {
      DecideReadLightens(c, h, now, v);
    }
  }

  lemma DecideMergedLightens(c: Config, h: Hub, now: u32, v: Verdict)
    requires ValidConfig(c) && Inv(c, h) && h.rmwPending.Some? && !v.Busy?
    ensures Lighter(|c.entities|, LoadOf(c, h), LoadOf(c, DispatchMerged(c, h, now, v, []).hub))
  {
    ReadsBounded(c, h);
  }

  lemma FailOpLightens(c: Config, h: Hub)
    requires ValidConfig(c) && Inv(c, h) && h.inFlight.Some?
    ensures Lighter(|c.entities|, LoadOf(c, h), LoadOf(c, FailOp(c, FreeSlot(h), h.inFlight.value, h.op, [])))
  {
    ReadsBounded(c, h);
  }

  lemma MergeLightens(c: Config, h: Hub, data: seq<byte>, unserved: bool)
    requires ValidConfig(c) && Inv(c, h) && h.inFlight.Some? && h.op == RmwReadOp
    ensures Lighter(|c.entities|, LoadOf(c, h),
                    LoadOf(c, RmwHandleRead(c, FreeSlot(h), h.inFlight.value, data, unserved, [])))
  {
    ReadsBounded(c, h);
    FailOpLightens(c, h);
  }

  /** Read-backs add reads only. */
  lemma {:induction false} RefreshAddsReads(c: Config, h: Hub, writer: nat, n: nat)
    ensures var r := RefreshBelow(c, h, writer, n);
            && r.writeLane == h.writeLane && r.rawLane == h.rawLane && r.ident == h.ident && r.clock == h.clock
            && SlotSame(h, r)
  {
    if n > 0 { RefreshAddsReads(c, h, writer, n - 1); }
  }

  lemma AcknowledgeLightens(c: Config, h: Hub)
    requires ValidConfig(c) && Inv(c, h) && h.inFlight.Some? && h.op == WriteOp
    ensures Lighter(|c.entities|, LoadOf(c, h), LoadOf(c, Acknowledge(c, FreeSlot(h), h.inFlight.value, [])))
  {
    var e := h.inFlight.value;
    var ended := EndWrite(FreeSlot(h), e);
    AcknowledgeInv(c, h, []);
    ReadsBounded(c, h);
    ReadsBounded(c, Acknowledge(c, FreeSlot(h), e, []));
    if !Get(ended, e).writeQueued {
      var handled := HandleWriteResponse(c, ended, e, []);
      RefreshAddsReads(c, if !Of(c, e).readBack then DropVerify(handled, e) else handled, e, |c.entities|);
    }
  }

  lemma ReadDoneLightens(c: Config, h: Hub, data: seq<byte>, source: TimeSource)
    requires ValidConfig(c) && Inv(c, h) && h.inFlight.Some? && h.op == ReadOp
    ensures Lighter(|c.entities|, LoadOf(c, h), LoadOf(c, ReadDone(c, FreeSlot(h), h.inFlight.value, data, source, [])))
  {
    var e := h.inFlight.value;
    var ended := DropVerify(EndRead(FreeSlot(h), e), e);
    ReadsBounded(c, h);
    if IsClock(c, e) && h.clock.phase == Reading {
      ClockReadAddsAtMostOneWrite(c, ended, data, source);
      ClockReadSlot(c, ended, data, source);
    }
  }

  lemma ClockReadAddsAtMostOneWrite(c: Config, h: Hub, data: seq<byte>, source: TimeSource)
    ensures var r := ClockRead(c, h, data, source);
            && r.clock.phase != Reading && |r.writeLane| <= |h.writeLane| + 1
            && r.readLane == h.readLane && r.rawLane == h.rawLane && r.ident == h.ident
  {
    if c.clock.Some? && source.Source? {
      var k := c.clock.value.id;
      var d := DeviceClock.Decide(c.clock.value.config, h.clock.learned, ToInts(data), source.now);
      var idle := h.(clock := h.clock.(phase := Idle, learned := d.learned));
      if d.payload.Some? {
        var a := RequestWrite(c, Stage(idle, k, ToBytes(d.payload.value)), k);
        assert a.hub.clock == idle.clock && |a.hub.writeLane| <= |h.writeLane| + 1;
      }
    }
  }

  lemma LandLightens(c: Config, h: Hub, addr: nat, data: seq<byte>, unserved: bool, source: TimeSource)
    requires ValidConfig(c) && Inv(c, h) && !SlotFree(h)
    ensures Lighter(|c.entities|, LoadOf(c, h), LoadOf(c, Respond(c, h, addr, data, unserved, source, [])))
  {
    if h.inFlight.Some? {
      if addr != ExpectedAddr(c, h.inFlight.value, h.op) {
        FailOpLightens(c, h);
      } else {
        match h.op
        case RmwReadOp => MergeLightens(c, h, data, unserved);
        case WriteOp => AcknowledgeLightens(c, h);
        case ReadOp => ReadDoneLightens(c, h, data, source);
      }
    }
  }

  /** Every productive move makes the load lighter. */
  lemma MoveLightens(c: Config, h: Hub, m: Move)
    requires ValidConfig(c) && Inv(c, h) && Productive(h, m)
    ensures Lighter(|c.entities|, LoadOf(c, h), LoadOf(c, MoveOn(c, h, m)))
  {
    match m
    case Decide(now, v) => DecideLightens(c, h, now, v);
    case Land(addr, data, unserved, source) => LandLightens(c, h, addr, data, unserved, source);
    case Break => if h.inFlight.Some? { FailOpLightens(c, h); }
  }

  // --- whole drains --------------------------------------------------------------------------------

  predicate ProductiveRun(c: Config, h: Hub, moves: seq<Move>)
    decreases |moves|
  {
    moves == [] || (Productive(h, moves[0]) && ProductiveRun(c, MoveOn(c, h, moves[0]), moves[1..]))
  }

  function After(c: Config, h: Hub, moves: seq<Move>): Hub
    decreases |moves|
  {
    if moves == [] then h else After(c, MoveOn(c, h, moves[0]), moves[1..])
  }

  /** A drain is no longer than the weight it starts with. */
  lemma {:induction false} DrainIsBounded(c: Config, h: Hub, moves: seq<Move>)
    requires ValidConfig(c) && Inv(c, h) && ProductiveRun(c, h, moves)
    ensures Inv(c, After(c, h, moves))
    ensures |moves| + Weight(|c.entities|, LoadOf(c, After(c, h, moves))) <= Weight(|c.entities|, LoadOf(c, h))
    decreases |moves|
  {
    if moves != [] {
      var next := MoveOn(c, h, moves[0]);
      MoveInv(c, h, moves[0]);
      MoveLightens(c, h, moves[0]);
      LighterWeighsLess(|c.entities|, LoadOf(c, h), LoadOf(c, next));
      DrainIsBounded(c, next, moves[1..]);
    }
  }

  /** A hub that is not drained always has a productive move: an offer from a free slot, an end of what is in flight. */
  predicate CanMove(h: Hub) {
    if SlotFree(h) then Productive(h, Decide(0, Taken)) else Productive(h, Break)
  }

  /**
   The drain terminates. With no new requests, quiet handlers, and every telegram
   eventually taken or refused and then answered, failed or lost, a run of productive
   moves from any reachable hub is at most as long as the hub's weight; it can be extended
   until the hub is drained, and only until then.
   */
  lemma DrainTerminates(c: Config, h: Hub, moves: seq<Move>)
    requires ValidConfig(c) && Inv(c, h) && ProductiveRun(c, h, moves)
    ensures |moves| <= Weight(|c.entities|, LoadOf(c, h))
    ensures CanMove(After(c, h, moves)) <==> !Drained(After(c, h, moves))
    ensures |moves| == Weight(|c.entities|, LoadOf(c, h)) ==> Drained(After(c, h, moves))
  {
    DrainIsBounded(c, h, moves);
    var r := After(c, h, moves);
    ReadsBounded(c, r);
    NonNegativeWeight(|c.entities|, LoadOf(c, r));
    if |moves| == Weight(|c.entities|, LoadOf(c, h)) && !Drained(r) {
      var m := if SlotFree(r) then Decide(0, Taken) else Break;
      MoveInv(c, r, m);
      MoveLightens(c, r, m);
      LighterWeighsLess(|c.entities|, LoadOf(c, r), LoadOf(c, MoveOn(c, r, m)));
      ReadsBounded(c, MoveOn(c, r, m));
      NonNegativeWeight(|c.entities|, LoadOf(c, MoveOn(c, r, m)));
    }
  }

  lemma NonNegativeWeight(n: nat, l: Load)
    requires l.first >= 0
    ensures Weight(n, l) >= 0
  {
    assert l.writeWork * (2 * n + 2) >= 0;
  }

  /** A drained hub has an idle clock, so the next due tick starts a sync. */
  lemma DrainedClockIsIdle(c: Config, h: Hub)
    requires ValidConfig(c) && c.clock.Some? && Inv(c, h) && ClockOk(c, h) && Drained(h)
    ensures h.clock.phase == Idle
  {
    assert FlagsOk(h, c.clock.value.id);
  }
}
