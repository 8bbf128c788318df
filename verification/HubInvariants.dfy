/** The lane/flag invariant: every flag says where its entity is, in every reachable hub state. */
module HubInvariants {
  import opened Basics
  import opened BitFields
  import opened RingBuffers
  import opened HubModel

  predicate ReadFlying(h: Hub, e: nat) {
    h.inFlight == Some(e) && h.op == ReadOp
  }

  predicate WriteFlying(h: Hub, e: nat) {
    (h.inFlight == Some(e) && (h.op == WriteOp || h.op == RmwReadOp)) || h.rmwPending == Some(e)
  }

  /** The three flags of one entity against the lanes, the slot and the read-modify-write stage. */
  predicate FlagsOk(h: Hub, e: nat) {
    && (Get(h, e).readQueued <==> e in h.readLane || ReadFlying(h, e))
    && !(e in h.readLane && ReadFlying(h, e))
    && (Get(h, e).writeQueued <==> e in h.writeLane)
    && (Get(h, e).writeInFlight <==> WriteFlying(h, e))
  }

  ghost predicate LaneOk(lane: seq<nat>, n: nat) {
    NoDup(lane) && forall e :: e in lane ==> e < n
  }

  predicate SlotOk(h: Hub, n: nat) {
    && (h.inFlight.Some? <==> !h.op.NoOp?)
    && (h.inFlight.Some? ==> h.inFlight.value < n && !h.identInFlight && !h.rawInFlight)
    && !(h.identInFlight && h.rawInFlight)
    && (h.identInFlight ==> !h.ident.IdentIdle? && !h.ident.IdentDone?)
    && (h.rmwPending.Some? ==> h.rmwPending.value < n && SlotFree(h))
  }

  ghost predicate Inv(c: Config, h: Hub) {
    && |h.ent| == |c.entities|
    && LaneOk(h.readLane, |c.entities|)
    && LaneOk(h.writeLane, |c.entities|)
    && SlotOk(h, |c.entities|)
    && (forall e :: 0 <= e < |c.entities| ==> FlagsOk(h, e))
  }

  // --- lanes can take what their flags allow ---------------------------------------------------

  /** No push to an entity lane is ever rejected: an unflagged entity always finds room. */
  lemma LanesHaveRoom(c: Config, h: Hub, e: nat)
    requires Inv(c, h) && e < |c.entities|
    ensures !Get(h, e).readQueued ==> |h.readLane| < |c.entities|
    ensures !Get(h, e).writeQueued ==> |h.writeLane| < |c.entities|
  {
    assert FlagsOk(h, e);
    if !Get(h, e).readQueued { MissingOneIsShorter(h.readLane, |c.entities|, e); }
    if !Get(h, e).writeQueued { MissingOneIsShorter(h.writeLane, |c.entities|, e); }
  }

  // --- requests ----------------------------------------------------------------------------------

  lemma RequestWriteInv(c: Config, h: Hub, e: nat)
    requires Inv(c, h) && e < |c.entities|
    ensures Inv(c, RequestWrite(c, h, e).hub)
    ensures RequestWrite(c, h, e).ok <==> |Get(h, e).staged| != 0 || Of(c, e).space.RPC?
  {
    LanesHaveRoom(c, h, e);
    assert FlagsOk(h, e);
    var r := RequestWrite(c, h, e).hub;
    forall f | 0 <= f < |c.entities|
      ensures FlagsOk(r, f)
    {
      assert FlagsOk(h, f);
    }
  }

  lemma RequestPriorityReadInv(c: Config, h: Hub, e: nat)
    requires Inv(c, h) && e < |c.entities|
    ensures Inv(c, RequestPriorityRead(c, h, e).hub) && RequestPriorityRead(c, h, e).ok
  {
    LanesHaveRoom(c, h, e);
    assert FlagsOk(h, e);
    MoveFirstIfKeepsMembers(h.readLane, Is(e));
    var r := RequestPriorityRead(c, h, e).hub;
    forall f | 0 <= f < |c.entities|
      ensures FlagsOk(r, f)
    {
      assert FlagsOk(h, f);
    }
  }

  lemma ScheduleOneInv(c: Config, h: Hub, now: u32, e: nat)
    requires Inv(c, h) && e < |c.entities|
    ensures Inv(c, ScheduleOne(c, h, now, e))
  {
    LanesHaveRoom(c, h, e);
    assert FlagsOk(h, e);
    var r := ScheduleOne(c, h, now, e);
    forall f | 0 <= f < |c.entities|
      ensures FlagsOk(r, f)
    {
      assert FlagsOk(h, f);
    }
  }

  lemma {:induction false} ScheduleBelowInv(c: Config, h: Hub, now: u32, n: nat)
    requires Inv(c, h) && n <= |c.entities|
    ensures Inv(c, ScheduleBelow(c, h, now, n))
  {
    if n > 0 {
      ScheduleBelowInv(c, h, now, n - 1);
      ScheduleOneInv(c, ScheduleBelow(c, h, now, n - 1), now, n - 1);
    }
  }

  /** The invariant looks at the lanes, the flags and the slot only. */
  lemma InvFrame(c: Config, h: Hub, r: Hub)
    requires Inv(c, h)
    requires |r.ent| == |h.ent|
    requires r.readLane == h.readLane && r.writeLane == h.writeLane
    requires r.inFlight == h.inFlight && r.op == h.op && r.rmwPending == h.rmwPending
    requires r.identInFlight == h.identInFlight && r.rawInFlight == h.rawInFlight && r.ident == h.ident
    requires forall e :: 0 <= e < |h.ent| ==>
      && Get(r, e).readQueued == Get(h, e).readQueued
      && Get(r, e).writeQueued == Get(h, e).writeQueued
      && Get(r, e).writeInFlight == Get(h, e).writeInFlight
    ensures Inv(c, r)
  {
    forall e | 0 <= e < |c.entities|
      ensures FlagsOk(r, e)
    {
      assert FlagsOk(h, e);
    }
  }

  lemma StartSyncInv(c: Config, h: Hub, source: TimeSource)
    requires ValidConfig(c) && Inv(c, h) && source.Source?
    ensures Inv(c, StartSync(c, h, source))
  {
    if c.clock.Some? && source.now.Some? {
      RequestPriorityReadInv(c, h, c.clock.value.id);
      InvFrame(c, RequestPriorityRead(c, h, c.clock.value.id).hub, StartSync(c, h, source));
    }
  }

  lemma TickInv(c: Config, h: Hub, now: u32, source: TimeSource)
    requires ValidConfig(c) && Inv(c, h)
    ensures Inv(c, Tick(c, h, now, source))
  {
    if c.clock.Some? && source.Source? {
      var armed := h.(clock := h.clock.(didBoot := true, nextSync := Wrap32(now + c.clock.value.config.interval)));
      InvFrame(c, h, armed);
      StartSyncInv(c, armed, source);
    }
  }

  lemma StageInv(c: Config, h: Hub, e: nat, payload: seq<byte>)
    requires Inv(c, h)
    ensures Inv(c, Stage(h, e, payload))
  {
    InvFrame(c, h, Stage(h, e, payload));
  }

  lemma ExternalInv(c: Config, h: Hub, r: Request)
    requires ValidConfig(c) && Inv(c, h) && ValidRequest(c, r)
    ensures Inv(c, External(c, h, r))
  {
    match r
    case Control(e, payload) =>
      StageInv(c, h, e, payload);
      RequestWriteInv(c, Stage(h, e, payload), e);
    case Press(e) => RequestWriteInv(c, h, e);
    case QueueRaw(_) => InvFrame(c, h, External(c, h, r));
    case RefreshAll(_) => InvFrame(c, h, External(c, h, r));
    case Update(now, source) =>
      TickInv(c, h, now, source);
      ScheduleBelowInv(c, Tick(c, h, now, source), now, |c.entities|);
  }

  ghost predicate ValidRequests(c: Config, reqs: seq<Request>) {
    forall i :: 0 <= i < |reqs| ==> ValidRequest(c, reqs[i])
  }

  lemma {:induction false} HandlersInv(c: Config, h: Hub, reqs: seq<Request>)
    requires ValidConfig(c) && Inv(c, h) && ValidRequests(c, reqs)
    ensures Inv(c, Handlers(c, h, reqs))
  {
    if reqs != [] {
      HandlersInv(c, h, reqs[..|reqs| - 1]);
      ExternalInv(c, Handlers(c, h, reqs[..|reqs| - 1]), reqs[|reqs| - 1]);
    }
  }

  // --- entity callbacks ----------------------------------------------------------------------------

  lemma SetPhaseInv(c: Config, h: Hub, phase: Phase)
    requires Inv(c, h)
    ensures Inv(c, SetPhase(h, phase))
  {
    InvFrame(c, h, SetPhase(h, phase));
  }

  lemma ClockReadInv(c: Config, h: Hub, data: seq<byte>, source: TimeSource)
    requires ValidConfig(c) && Inv(c, h)
    ensures Inv(c, ClockRead(c, h, data, source))
  {
    SetPhaseInv(c, h, Idle);
    if c.clock.Some? && source.Source? {
      var k := c.clock.value.id;
      var d := DeviceClock.Decide(c.clock.value.config, h.clock.learned, ToInts(data), source.now);
      var idle := h.(clock := h.clock.(phase := Idle, learned := d.learned));
      InvFrame(c, h, idle);
      if d.payload.Some? {
        var staged := Stage(idle, k, ToBytes(d.payload.value));
        StageInv(c, idle, k, ToBytes(d.payload.value));
        RequestWriteInv(c, staged, k);
        SetPhaseInv(c, RequestWrite(c, staged, k).hub, Writing);
      }
    }
  }

  lemma HandleResponseInv(c: Config, h: Hub, e: nat, data: seq<byte>, source: TimeSource, reqs: seq<Request>)
    requires ValidConfig(c) && Inv(c, h) && ValidRequests(c, reqs)
    ensures Inv(c, HandleResponse(c, h, e, data, source, reqs))
  {
    HandlersInv(c, h, reqs);
    ClockReadInv(c, h, data, source);
    SetPhaseInv(c, h, Idle);
  }

  lemma HandleFailureInv(c: Config, h: Hub, e: nat, reqs: seq<Request>)
    requires ValidConfig(c) && Inv(c, h) && ValidRequests(c, reqs)
    ensures Inv(c, HandleFailure(c, h, e, reqs))
  {
    HandlersInv(c, h, reqs);
    SetPhaseInv(c, h, Idle);
  }

  lemma HandleWriteResponseInv(c: Config, h: Hub, e: nat, reqs: seq<Request>)
    requires ValidConfig(c) && Inv(c, h) && ValidRequests(c, reqs)
    ensures Inv(c, HandleWriteResponse(c, h, e, reqs))
  {
    HandlersInv(c, h, reqs);
    SetPhaseInv(c, h, Verifying);
  }

  lemma IdentAdvanceInv(c: Config, h: Hub, full: bool, reqs: seq<Request>)
    requires ValidConfig(c) && Inv(c, h) && ValidRequests(c, reqs) && !h.identInFlight
    ensures Inv(c, IdentAdvance(c, h, full, reqs))
  {
    var moved := h.(ident := IdentNext(c.protocol, h.ident, full));
    assert Inv(c, moved) by {
      forall e | 0 <= e < |c.entities|
        ensures FlagsOk(moved, e)
      {
        assert FlagsOk(h, e);
      }
    }
    HandlersInv(c, moved, reqs);
  }

  // --- dispatch --------------------------------------------------------------------------------------

  /** Entity `e` as the flags and lanes of `r` show it, everyone else as in `h`. */
  lemma InvFromParts(c: Config, h: Hub, r: Hub, e: nat)
    requires Inv(c, h) && e < |c.entities| && |r.ent| == |h.ent|
    requires LaneOk(r.readLane, |c.entities|) && LaneOk(r.writeLane, |c.entities|) && SlotOk(r, |c.entities|)
    requires FlagsOk(r, e)
    requires forall f :: 0 <= f < |c.entities| && f != e ==>
      && Get(r, f) == Get(h, f)
      && (f in r.readLane <==> f in h.readLane) && (f in r.writeLane <==> f in h.writeLane)
      && (ReadFlying(r, f) <==> ReadFlying(h, f)) && (WriteFlying(r, f) <==> WriteFlying(h, f))
    ensures Inv(c, r)
  {
    forall f | 0 <= f < |c.entities|
      ensures FlagsOk(r, f)
    {
      assert FlagsOk(h, f);
    }
  }

  /** Taking the head off a lane. */
  lemma LaneTail(lane: seq<nat>, n: nat)
    requires LaneOk(lane, n) && lane != []
    ensures LaneOk(lane[1..], n) && lane[0] !in lane[1..] && lane[0] < n
    ensures forall f :: f != lane[0] ==> (f in lane[1..] <==> f in lane)
  {
    assert lane[0] in lane;
    forall f | f != lane[0]
      ensures f in lane[1..] <==> f in lane
    {
      assert lane == [lane[0]] + lane[1..];
    }
  }

  lemma DropWriteInv(c: Config, h: Hub)
    requires Inv(c, h) && h.writeLane != []
    ensures Inv(c, DropWrite(h, h.writeLane[0]))
  {
    LaneTail(h.writeLane, |c.entities|);
    assert FlagsOk(h, h.writeLane[0]);
    InvFromParts(c, h, DropWrite(h, h.writeLane[0]), h.writeLane[0]);
  }

  lemma LaunchWriteInv(c: Config, h: Hub, op: OpType)
    requires Inv(c, h) && h.writeLane != [] && SlotFree(h) && h.rmwPending.None?
    requires op == WriteOp || op == RmwReadOp
    ensures Inv(c, LaunchWrite(h, h.writeLane[0], op))
  {
    LaneTail(h.writeLane, |c.entities|);
    assert FlagsOk(h, h.writeLane[0]);
    InvFromParts(c, h, LaunchWrite(h, h.writeLane[0], op), h.writeLane[0]);
  }

  lemma EndWriteInv(c: Config, h: Hub, r: Hub, e: nat)
    requires Inv(c, h) && WriteFlying(h, e) && e < |c.entities|
    requires r == h.(inFlight := None, op := NoOp, rmwPending := None)
    ensures Inv(c, EndWrite(r, e))
  {
    assert FlagsOk(h, e);
    InvFromParts(c, h, EndWrite(r, e), e);
  }

  lemma DispatchMergedInv(c: Config, h: Hub, now: u32, v: Verdict, reqs: seq<Request>)
    requires ValidConfig(c) && Inv(c, h) && ValidRequests(c, reqs) && h.rmwPending.Some?
    ensures Inv(c, DispatchMerged(c, h, now, v, reqs).hub)
  {
    var e := h.rmwPending.value;
    var dropped := h.(rmwPending := None);
    assert dropped == h.(inFlight := None, op := NoOp, rmwPending := None);
    EndWriteInv(c, h, dropped, e);
    HandleFailureInv(c, EndWrite(dropped, e), e, reqs);
    if Offer(WriteAvailable(c.protocol, Of(c, e).space), v).Taken? {
      assert FlagsOk(h, e);
      InvFromParts(c, h, DispatchMerged(c, h, now, v, reqs).hub, e);
    }
  }

  lemma DispatchIdentInv(c: Config, h: Hub, now: u32, v: Verdict, reqs: seq<Request>)
    requires ValidConfig(c) && Inv(c, h) && ValidRequests(c, reqs)
    requires SlotFree(h) && h.rmwPending.None? && !h.ident.IdentIdle? && !h.ident.IdentDone?
    ensures Inv(c, DispatchIdent(c, h, now, v, reqs).hub)
  {
    IdentAdvanceInv(c, h, false, reqs);
    var r := Arm(h.(identInFlight := true), now, 1);
    forall e | 0 <= e < |c.entities|
      ensures FlagsOk(r, e)
    {
      assert FlagsOk(h, e);
    }
  }

  lemma DispatchRawInv(c: Config, h: Hub, now: u32, v: Verdict, reqs: seq<Request>)
    requires ValidConfig(c) && Inv(c, h) && ValidRequests(c, reqs)
    requires SlotFree(h) && h.rmwPending.None? && h.rawLane != []
    ensures Inv(c, DispatchRaw(c, h, now, v, reqs).hub)
  {
    var noted := h.(rawAddr := h.rawLane[0].addr);
    var rest := noted.(rawLane := h.rawLane[1..]);
    InvFrame(c, h, noted);
    InvFrame(c, h, rest);
    HandlersInv(c, rest, reqs);
    var r := DispatchRaw(c, h, now, v, reqs).hub;
    if r.rawInFlight {
      forall e | 0 <= e < |c.entities|
        ensures FlagsOk(r, e)
      {
        assert FlagsOk(h, e);
      }
    }
  }

  lemma DispatchWriteInv(c: Config, h: Hub, now: u32, v: Verdict, reqs: seq<Request>)
    requires ValidConfig(c) && Inv(c, h) && ValidRequests(c, reqs)
    requires SlotFree(h) && h.rmwPending.None? && h.writeLane != []
    ensures Inv(c, DispatchWrite(c, h, now, v, reqs).hub)
  {
    var e := h.writeLane[0];
    DropWriteInv(c, h);
    HandleFailureInv(c, DropWrite(h, e), e, reqs);
    LaunchWriteInv(c, h, WriteOp);
    LaunchWriteInv(c, h, RmwReadOp);
    var r := DispatchWrite(c, h, now, v, reqs);
    if r.telegram.Some? {
      InvFrame(c, LaunchWrite(h, e, r.hub.op), r.hub);
    }
  }

  lemma DispatchReadInv(c: Config, h: Hub, now: u32, v: Verdict)
    requires ValidConfig(c) && Inv(c, h) && SlotFree(h) && h.rmwPending.None?
    ensures Inv(c, DispatchRead(c, h, now, v).hub)
  {
    var lane := AffineLane(c, h);
    var moved := h.(readLane := lane);
    MoveFirstIfKeepsMembers(h.readLane, e => Of(c, e).space == h.lastSpace);
    assert Inv(c, moved) by {
      forall e | 0 <= e < |c.entities|
        ensures FlagsOk(moved, e)
      {
        assert FlagsOk(h, e);
      }
    }
    if lane != [] {
      LaneTail(lane, |c.entities|);
      assert FlagsOk(moved, lane[0]);
      var r := DispatchRead(c, h, now, v).hub;
      if r != moved {
        InvFromParts(c, moved, r, lane[0]);
      }
    }
  }

  lemma DispatchInv(c: Config, h: Hub, now: u32, v: Verdict, reqs: seq<Request>)
    requires ValidConfig(c) && Inv(c, h) && ValidRequests(c, reqs)
    ensures Inv(c, Dispatch(c, h, now, v, reqs).hub)
  {
    if !SlotFree(h) {
    } else if h.rmwPending.Some? {
      DispatchMergedInv(c, h, now, v, reqs);
    } else if !h.ident.IdentIdle? && !h.ident.IdentDone? {
      DispatchIdentInv(c, h, now, v, reqs);
    } else if h.rawLane != [] {
      DispatchRawInv(c, h, now, v, reqs);
    } else if h.writeLane != [] {
      DispatchWriteInv(c, h, now, v, reqs);
    } else {
      DispatchReadInv(c, h, now, v);
    }
  }

  // --- completion ----------------------------------------------------------------------------------------

  lemma DropVerifyInv(c: Config, h: Hub, e: nat)
    requires Inv(c, h)
    ensures Inv(c, DropVerify(h, e))
  {
    InvFrame(c, h, DropVerify(h, e));
  }

  lemma EndReadInv(c: Config, h: Hub)
    requires Inv(c, h) && h.inFlight.Some? && h.op == ReadOp
    ensures Inv(c, EndRead(FreeSlot(h), h.inFlight.value))
  {
    var e := h.inFlight.value;
    assert FlagsOk(h, e);
    InvFromParts(c, h, EndRead(FreeSlot(h), e), e);
  }

  lemma FlownWriteInv(c: Config, h: Hub)
    requires Inv(c, h) && h.inFlight.Some? && (h.op == WriteOp || h.op == RmwReadOp)
    ensures Inv(c, EndWrite(FreeSlot(h), h.inFlight.value))
  {
    EndWriteInv(c, h, FreeSlot(h), h.inFlight.value);
  }

  lemma FailOpInv(c: Config, h: Hub, reqs: seq<Request>)
    requires ValidConfig(c) && Inv(c, h) && ValidRequests(c, reqs) && h.inFlight.Some?
    ensures Inv(c, FailOp(c, FreeSlot(h), h.inFlight.value, h.op, reqs))
  {
    var e, free := h.inFlight.value, FreeSlot(h);
    match h.op
    case ReadOp =>
      EndReadInv(c, h);
      DropVerifyInv(c, EndRead(free, e), e);
      assert DropVerify(EndRead(free, e), e) == EndRead(DropVerify(free, e), e);
      HandleFailureInv(c, EndRead(DropVerify(free, e), e), e, reqs);
    case WriteOp =>
      FlownWriteInv(c, h);
      DropVerifyInv(c, EndWrite(free, e), e);
      assert DropVerify(EndWrite(free, e), e) == EndWrite(DropVerify(free, e), e);
      HandleFailureInv(c, EndWrite(DropVerify(free, e), e), e, reqs);
    case RmwReadOp =>
      FlownWriteInv(c, h);
      HandleFailureInv(c, EndWrite(free, e), e, reqs);
  }

  lemma RmwHandleReadInv(c: Config, h: Hub, data: seq<byte>, unserved: bool, reqs: seq<Request>)
    requires ValidConfig(c) && Inv(c, h) && ValidRequests(c, reqs) && h.inFlight.Some? && h.op == RmwReadOp
    ensures Inv(c, RmwHandleRead(c, FreeSlot(h), h.inFlight.value, data, unserved, reqs))
  {
    var e, free := h.inFlight.value, FreeSlot(h);
    FlownWriteInv(c, h);
    HandleFailureInv(c, EndWrite(free, e), e, reqs);
    var r := RmwHandleRead(c, free, e, data, unserved, reqs);
    if r != RmwAbort(c, free, e, reqs) {
      assert FlagsOk(h, e);
      InvFromParts(c, h, r, e);
    }
  }

  lemma {:induction false} RefreshBelowInv(c: Config, h: Hub, writer: nat, n: nat)
    requires Inv(c, h) && n <= |c.entities|
    ensures Inv(c, RefreshBelow(c, h, writer, n))
  {
    if n > 0 {
      RefreshBelowInv(c, h, writer, n - 1);
      RequestPriorityReadInv(c, RefreshBelow(c, h, writer, n - 1), n - 1);
    }
  }

  lemma ReadBacksInv(c: Config, h: Hub, e: nat)
    requires Inv(c, h) && e < |c.entities|
    ensures Inv(c, ReadBacks(c, h, e))
  {
    DropVerifyInv(c, h, e);
    var checked := if !Of(c, e).readBack then DropVerify(h, e) else h;
    RefreshBelowInv(c, checked, e, |c.entities|);
    RequestPriorityReadInv(c, RefreshBelow(c, checked, e, |c.entities|), e);
  }

  lemma AcknowledgeInv(c: Config, h: Hub, reqs: seq<Request>)
    requires ValidConfig(c) && Inv(c, h) && ValidRequests(c, reqs) && h.inFlight.Some? && h.op == WriteOp
    ensures Inv(c, Acknowledge(c, FreeSlot(h), h.inFlight.value, reqs))
  {
    var e := h.inFlight.value;
    var ended := EndWrite(FreeSlot(h), e);
    FlownWriteInv(c, h);
    DropVerifyInv(c, ended, e);
    HandleWriteResponseInv(c, ended, e, reqs);
    ReadBacksInv(c, HandleWriteResponse(c, ended, e, reqs), e);
  }

  lemma ReadDoneInv(c: Config, h: Hub, data: seq<byte>, source: TimeSource, reqs: seq<Request>)
    requires ValidConfig(c) && Inv(c, h) && ValidRequests(c, reqs) && h.inFlight.Some? && h.op == ReadOp
    ensures Inv(c, ReadDone(c, FreeSlot(h), h.inFlight.value, data, source, reqs))
  {
    var e := h.inFlight.value;
    EndReadInv(c, h);
    DropVerifyInv(c, EndRead(FreeSlot(h), e), e);
    HandleResponseInv(c, DropVerify(EndRead(FreeSlot(h), e), e), e, data, source, reqs);
  }

  lemma LandedInv(c: Config, h: Hub)
    requires Inv(c, h)
    ensures h.identInFlight ==> Inv(c, h.(identInFlight := false))
    ensures h.rawInFlight ==> Inv(c, h.(rawInFlight := false))
    ensures h.inFlight.None? ==> FreeSlot(h) == h
  {
    forall e | 0 <= e < |c.entities|
      ensures FlagsOk(h.(identInFlight := false), e) && FlagsOk(h.(rawInFlight := false), e)
    {
      assert FlagsOk(h, e);
    }
  }

  lemma RespondInv(c: Config, h: Hub, addr: nat, data: seq<byte>, unserved: bool, source: TimeSource,
                   reqs: seq<Request>)
    requires ValidConfig(c) && Inv(c, h) && ValidRequests(c, reqs)
    ensures Inv(c, Respond(c, h, addr, data, unserved, source, reqs))
  {
    LandedInv(c, h);
    if h.identInFlight {
      IdentAdvanceInv(c, h.(identInFlight := false), addr == IdentAddr(h.ident) && |data| >= 4, reqs);
    } else if h.rawInFlight {
      HandlersInv(c, h.(rawInFlight := false), reqs);
    } else if h.inFlight.Some? {
      var e := h.inFlight.value;
      if addr != ExpectedAddr(c, e, h.op) {
        FailOpInv(c, h, reqs);
      } else {
        match h.op
        case RmwReadOp => RmwHandleReadInv(c, h, data, unserved, reqs);
        case WriteOp => AcknowledgeInv(c, h, reqs);
        case ReadOp => ReadDoneInv(c, h, data, source, reqs);
      }
    }
  }

  lemma FailInv(c: Config, h: Hub, reqs: seq<Request>)
    requires ValidConfig(c) && Inv(c, h) && ValidRequests(c, reqs)
    ensures Inv(c, Fail(c, h, reqs))
  {
    LandedInv(c, h);
    if h.identInFlight {
      IdentAdvanceInv(c, h.(identInFlight := false), false, reqs);
    } else if h.rawInFlight {
      HandlersInv(c, h.(rawInFlight := false), reqs);
    } else if h.inFlight.Some? {
      FailOpInv(c, h, reqs);
    }
  }

  /** The watchdog never meets an operation without a type: it is exactly a failed operation. */
  lemma WatchdogInv(c: Config, h: Hub, now: u32, reqs: seq<Request>)
    requires ValidConfig(c) && Inv(c, h) && ValidRequests(c, reqs)
    ensures Inv(c, Watchdog(c, h, now, reqs))
    ensures Watchdog(c, h, now, reqs) == if Expired(h, now) then Fail(c, h, reqs) else h
  {
    FailInv(c, h, reqs);
  }

  lemma StartInv(c: Config, identify: bool)
    ensures Inv(c, Start(c, identify))
  {}
}
