/** The clock chain as a client of the lanes: its phase always says where its one operation is. */
module HubClock {
  import opened Basics
  import opened BitFields
  import opened RingBuffers
  import opened HubModel
  import opened HubInvariants
  import opened HubWorld

  /** The phase against the clock's own flags, which say where it is queued or in flight (FlagsOk). */
  predicate PhaseOk(phase: Phase, x: Entity) {
    match phase
    case Idle => !x.readQueued && !x.writeQueued && !x.writeInFlight
    case Reading => x.readQueued && !x.writeQueued && !x.writeInFlight
    case Writing => !x.readQueued && x.writeQueued != x.writeInFlight
    case Verifying => x.readQueued && !x.writeQueued && !x.writeInFlight
  }

  predicate ClockOk(c: Config, h: Hub) {
    c.clock.Some? ==> PhaseOk(h.clock.phase, Get(h, c.clock.value.id))
  }

  /** Neither the phase nor the clock's flags move. */
  predicate ClockSame(c: Config, h: Hub, r: Hub) {
    c.clock.Some? ==>
      var k := c.clock.value.id;
      && r.clock.phase == h.clock.phase
      && Get(r, k).readQueued == Get(h, k).readQueued && Get(r, k).writeQueued == Get(h, k).writeQueued
      && Get(r, k).writeInFlight == Get(h, k).writeInFlight
  }

  /** Requests from outside move the clock only by starting a chain. */
  predicate StartsAtMost(c: Config, h: Hub, r: Hub) {
    ClockSame(c, h, r) ||
    (c.clock.Some? && h.clock.phase == Idle && r.clock.phase == Reading && ClockOk(c, r))
  }

  // --- requests ---------------------------------------------------------------------------------

  lemma ScheduleOneClock(c: Config, h: Hub, now: u32, e: nat)
    ensures ClockSame(c, h, ScheduleOne(c, h, now, e))
  {}

  lemma {:induction false} ScheduleClock(c: Config, h: Hub, now: u32, n: nat)
    ensures ClockSame(c, h, ScheduleBelow(c, h, now, n))
  {
    if n > 0 {
      ScheduleClock(c, h, now, n - 1);
      ScheduleOneClock(c, ScheduleBelow(c, h, now, n - 1), now, n - 1);
    }
  }

  lemma StartSyncClock(c: Config, h: Hub, source: TimeSource)
    requires ValidConfig(c) && Inv(c, h) && ClockOk(c, h) && source.Source? && h.clock.phase == Idle
    ensures StartsAtMost(c, h, StartSync(c, h, source))
  {
    if c.clock.Some? {
      LanesHaveRoom(c, h, c.clock.value.id);
    }
  }

  lemma TickClock(c: Config, h: Hub, now: u32, source: TimeSource)
    requires ValidConfig(c) && Inv(c, h) && ClockOk(c, h)
    ensures StartsAtMost(c, h, Tick(c, h, now, source))
  {
    if c.clock.Some? && source.Source? && h.clock.phase == Idle {
      var armed := h.(clock := h.clock.(didBoot := true, nextSync := Wrap32(now + c.clock.value.config.interval)));
      InvFrame(c, h, armed);
      StartSyncClock(c, armed, source);
      var r := Tick(c, h, now, source);
      assert r == h || r == armed || r == StartSync(c, armed, source);
    }
  }

  lemma ExternalClock(c: Config, h: Hub, r: Request)
    requires ValidConfig(c) && Inv(c, h) && ClockOk(c, h) && ValidRequest(c, r)
    ensures StartsAtMost(c, h, External(c, h, r)) && ClockOk(c, External(c, h, r))
  {
    match r
    case Control(_, _) => EntityClock(c, h, r);
    case Press(_) => EntityClock(c, h, r);
    case QueueRaw(_) =>
    case RefreshAll(_) =>
    case Update(now, source) => UpdateClock(c, h, now, source);
  }

  /** A write of another entity does not concern the clock. */
  lemma EntityClock(c: Config, h: Hub, r: Request)
    requires ValidRequest(c, r) && (r.Control? || r.Press?)
    ensures ClockSame(c, h, External(c, h, r))
  {}

  lemma UpdateClock(c: Config, h: Hub, now: u32, source: TimeSource)
    requires ValidConfig(c) && Inv(c, h) && ClockOk(c, h)
    ensures var r := External(c, h, Update(now, source)); StartsAtMost(c, h, r) && ClockOk(c, r)
  {
    TickClock(c, h, now, source);
    ScheduleClock(c, Tick(c, h, now, source), now, |c.entities|);
  }

  lemma {:induction false} HandlersClock(c: Config, h: Hub, reqs: seq<Request>)
    requires ValidConfig(c) && Inv(c, h) && ClockOk(c, h) && ValidRequests(c, reqs)
    ensures StartsAtMost(c, h, Handlers(c, h, reqs)) && ClockOk(c, Handlers(c, h, reqs))
  {
    if reqs != [] {
      var before := reqs[..|reqs| - 1];
      HandlersInv(c, h, before);
      HandlersClock(c, h, before);
      ExternalClock(c, Handlers(c, h, before), reqs[|reqs| - 1]);
    }
  }

  // --- dispatch ----------------------------------------------------------------------------------

  /** The engine refuses the clock's own telegram for good; the lane drops it without telling the clock. */
  predicate ClockRefused(c: Config, h: Hub, v: Verdict) {
    && v.Never? && SlotFree(h) && h.rmwPending.None? && (h.ident.IdentIdle? || h.ident.IdentDone?) && h.rawLane == []
    && (if h.writeLane != [] then IsClock(c, h.writeLane[0])
        else AffineLane(c, h) != [] && IsClock(c, AffineLane(c, h)[0]))
  }

  lemma DispatchWriteClock(c: Config, h: Hub, now: u32, v: Verdict, reqs: seq<Request>)
    requires ValidConfig(c) && Inv(c, h) && ClockOk(c, h) && ValidRequests(c, reqs) && WriteTurn(h)
    ensures var s := DispatchWrite(c, h, now, v, reqs);
            && (ClockOk(c, s.hub) <==> !ClockRefused(c, h, v))
            && (s.telegram.Some? ==> s.hub.clock.phase == h.clock.phase)
            && (if IsClock(c, h.writeLane[0]) && s.telegram.Some?
                then s.telegram.value.kind == PlainWrite(h.writeLane[0]) && h.clock.phase == Writing
                     && !Get(h, h.writeLane[0]).writeInFlight && Get(s.hub, h.writeLane[0]).writeInFlight
                else ClockRefused(c, h, v) || StartsAtMost(c, h, s.hub))
  {
    var e := h.writeLane[0];
    assert e in h.writeLane && FlagsOk(h, e);
    if HeadDropped(c, h, v) && !IsClock(c, e) {
      DropWriteInv(c, h);
      HandlersClock(c, DropWrite(h, e), reqs);
    }
  }

  lemma DispatchReadClock(c: Config, h: Hub, now: u32, v: Verdict)
    requires ValidConfig(c) && Inv(c, h) && ClockOk(c, h) && SlotFree(h) && h.rmwPending.None?
    requires (h.ident.IdentIdle? || h.ident.IdentDone?) && h.rawLane == [] && h.writeLane == []
    ensures var s := DispatchRead(c, h, now, v);
            && (ClockOk(c, s.hub) <==> !ClockRefused(c, h, v)) && s.hub.clock == h.clock
            && (ClockRefused(c, h, v) || ClockSame(c, h, s.hub))
  {
    var lane := AffineLane(c, h);
    MoveFirstIfKeepsMembers(h.readLane, e => Of(c, e).space == h.lastSpace);
    if lane != [] {
      assert lane[0] in lane;
      assert lane[0] in h.readLane && FlagsOk(h, lane[0]);
    }
  }

  /**
   An offer keeps the phase in step with the lanes exactly when it does not refuse the
   clock's own telegram for good.
   */
  lemma DispatchClock(c: Config, h: Hub, now: u32, v: Verdict, reqs: seq<Request>)
    requires ValidConfig(c) && Inv(c, h) && ClockOk(c, h) && ValidRequests(c, reqs)
    ensures ClockOk(c, Dispatch(c, h, now, v, reqs).hub) <==> !ClockRefused(c, h, v)
  {
    if !SlotFree(h) {
    } else if h.rmwPending.Some? {
      MergedClock(c, h, now, v, reqs);
    } else if !h.ident.IdentIdle? && !h.ident.IdentDone? {
      IdentAdvanceClock(c, h, false, reqs);
    } else if h.rawLane != [] {
      var rest := h.(rawAddr := h.rawLane[0].addr, rawLane := h.rawLane[1..]);
      InvFrame(c, h, rest);
      HandlersClock(c, rest, reqs);
    } else if h.writeLane != [] {
      DispatchWriteClock(c, h, now, v, reqs);
    } else {
      DispatchReadClock(c, h, now, v);
    }
  }

  lemma MergedClock(c: Config, h: Hub, now: u32, v: Verdict, reqs: seq<Request>)
    requires ValidConfig(c) && Inv(c, h) && ClockOk(c, h) && ValidRequests(c, reqs) && h.rmwPending.Some?
    ensures ClockOk(c, DispatchMerged(c, h, now, v, reqs).hub)
    ensures IsClock(c, h.rmwPending.value) || StartsAtMost(c, h, DispatchMerged(c, h, now, v, reqs).hub)
  {
    var e := h.rmwPending.value;
    var dropped := h.(rmwPending := None);
    EndWriteInv(c, h, dropped, e);
    assert FlagsOk(h, e);
    var ended := EndWrite(dropped, e);
    if IsClock(c, e) {
      assert HandleFailure(c, ended, e, reqs) == SetPhase(ended, Idle);
    } else {
      HandlersClock(c, ended, reqs);
    }
  }

  lemma IdentAdvanceClock(c: Config, h: Hub, full: bool, reqs: seq<Request>)
    requires ValidConfig(c) && Inv(c, h) && ClockOk(c, h) && ValidRequests(c, reqs) && !h.identInFlight
    ensures StartsAtMost(c, h, IdentAdvance(c, h, full, reqs)) && ClockOk(c, IdentAdvance(c, h, full, reqs))
  {
    IdentAdvanceInv(c, h, full, []);
    HandlersClock(c, h.(ident := IdentNext(c.protocol, h.ident, full)), reqs);
  }

  // --- completion -----------------------------------------------------------------------------------

  /** How the clock's own operation may move its phase when it ends. */
  predicate ClockEnds(h: Hub, r: Hub, k: nat) {
    var x := Get(r, k);
    || r.clock.phase == Idle
    || (h.clock.phase == Reading && r.clock.phase == Writing && x.writeQueued && !x.writeInFlight)
    || (h.clock.phase == Writing && Get(h, k).writeInFlight && r.clock.phase == Verifying)
  }

  /** The slot empties: either the clock's own operation ended, or the clock did not move except to start a chain. */
  predicate EndsWell(c: Config, h: Hub, r: Hub) {
    && ClockOk(c, r)
    && (StartsAtMost(c, h, r) || (c.clock.Some? && ClockEnds(h, r, c.clock.value.id)))
  }

  lemma FailureClock(c: Config, h: Hub, ended: Hub, e: nat, reqs: seq<Request>)
    requires ValidConfig(c) && Inv(c, ended) && ValidRequests(c, reqs) && e < |c.entities|
    requires if IsClock(c, e)
             then PhaseOk(Idle, Get(ended, e))
             else ClockOk(c, h) && ClockSame(c, h, ended)
    ensures EndsWell(c, h, HandleFailure(c, ended, e, reqs))
  {
    if !IsClock(c, e) {
      HandlersClock(c, ended, reqs);
    }
  }

  lemma FailOpClock(c: Config, h: Hub, reqs: seq<Request>)
    requires ValidConfig(c) && Inv(c, h) && ClockOk(c, h) && ValidRequests(c, reqs) && h.inFlight.Some?
    ensures EndsWell(c, h, FailOp(c, FreeSlot(h), h.inFlight.value, h.op, reqs))
  {
    var e, free := h.inFlight.value, FreeSlot(h);
    assert FlagsOk(h, e);
    match h.op
    case ReadOp =>
      EndReadInv(c, h);
      DropVerifyInv(c, EndRead(free, e), e);
      assert DropVerify(EndRead(free, e), e) == EndRead(DropVerify(free, e), e);
      FailureClock(c, h, EndRead(DropVerify(free, e), e), e, reqs);
    case WriteOp =>
      FlownWriteInv(c, h);
      DropVerifyInv(c, EndWrite(free, e), e);
      assert DropVerify(EndWrite(free, e), e) == EndWrite(DropVerify(free, e), e);
      FailureClock(c, h, EndWrite(DropVerify(free, e), e), e, reqs);
    case RmwReadOp =>
      FlownWriteInv(c, h);
      FailureClock(c, h, EndWrite(free, e), e, reqs);
  }

  lemma RmwHandleReadClock(c: Config, h: Hub, data: seq<byte>, unserved: bool, reqs: seq<Request>)
    requires ValidConfig(c) && Inv(c, h) && ClockOk(c, h) && ValidRequests(c, reqs) && h.inFlight.Some?
    requires h.op == RmwReadOp
    ensures EndsWell(c, h, RmwHandleRead(c, FreeSlot(h), h.inFlight.value, data, unserved, reqs))
  {
    FailOpClock(c, h, reqs);
    var r := RmwHandleRead(c, FreeSlot(h), h.inFlight.value, data, unserved, reqs);
    if r != RmwAbort(c, FreeSlot(h), h.inFlight.value, reqs) {
      assert ClockSame(c, h, r);
    }
  }

  lemma {:induction false} RefreshClock(c: Config, h: Hub, writer: nat, n: nat)
    ensures ClockSame(c, h, RefreshBelow(c, h, writer, n))
  {
    if n > 0 { RefreshClock(c, h, writer, n - 1); }
  }

  /** Siblings never include the clock; the writer does when the clock wrote. */
  lemma ReadBacksClock(c: Config, h: Hub, e: nat)
    requires ValidConfig(c) && Inv(c, h) && e < |c.entities|
    ensures !IsClock(c, e) ==> ClockSame(c, h, ReadBacks(c, h, e))
    ensures IsClock(c, e) ==>
      var r := ReadBacks(c, h, e);
      && r.clock == h.clock && Get(r, e).readQueued
      && Get(r, e).writeQueued == Get(h, e).writeQueued && Get(r, e).writeInFlight == Get(h, e).writeInFlight
  {
    var checked := if !Of(c, e).readBack then DropVerify(h, e) else h;
    DropVerifyInv(c, h, e);
    RefreshBelowInv(c, checked, e, |c.entities|);
    RefreshClock(c, checked, e, |c.entities|);
    RefreshKeepsClock(c, checked, e, |c.entities|);
    RequestPriorityReadInv(c, RefreshBelow(c, checked, e, |c.entities|), e);
    LanesHaveRoom(c, RefreshBelow(c, checked, e, |c.entities|), e);
  }

  lemma {:induction false} RefreshKeepsClock(c: Config, h: Hub, writer: nat, n: nat)
    ensures RefreshBelow(c, h, writer, n).clock == h.clock
  {
    if n > 0 { RefreshKeepsClock(c, h, writer, n - 1); }
  }

  lemma AcknowledgeClock(c: Config, h: Hub, reqs: seq<Request>)
    requires ValidConfig(c) && Inv(c, h) && ClockOk(c, h) && ValidRequests(c, reqs) && h.inFlight.Some?
    requires h.op == WriteOp
    ensures EndsWell(c, h, Acknowledge(c, FreeSlot(h), h.inFlight.value, reqs))
  {
    var e := h.inFlight.value;
    var ended := EndWrite(FreeSlot(h), e);
    assert FlagsOk(h, e);
    FlownWriteInv(c, h);
    if IsClock(c, e) {
      SetPhaseInv(c, ended, Verifying);
      ReadBacksClock(c, SetPhase(ended, Verifying), e);
    } else if Get(ended, e).writeQueued {
      assert ClockSame(c, h, DropVerify(ended, e));
    } else {
      HandlersClock(c, ended, reqs);
      HandlersInv(c, ended, reqs);
      ReadBacksClock(c, Handlers(c, ended, reqs), e);
    }
  }

  lemma ReadDoneClock(c: Config, h: Hub, data: seq<byte>, source: TimeSource, reqs: seq<Request>)
    requires ValidConfig(c) && Inv(c, h) && ClockOk(c, h) && ValidRequests(c, reqs) && h.inFlight.Some?
    requires h.op == ReadOp
    ensures EndsWell(c, h, ReadDone(c, FreeSlot(h), h.inFlight.value, data, source, reqs))
  {
    var e := h.inFlight.value;
    var ended := DropVerify(EndRead(FreeSlot(h), e), e);
    assert FlagsOk(h, e);
    EndReadInv(c, h);
    DropVerifyInv(c, EndRead(FreeSlot(h), e), e);
    if IsClock(c, e) {
      if h.clock.phase == Reading {
        ClockReadClock(c, ended, data, source);
      }
    } else {
      HandlersClock(c, ended, reqs);
    }
  }

  /** The read that opens a chain ends in Idle with nothing pending, or in Writing with the write queued. */
  lemma ClockReadClock(c: Config, h: Hub, data: seq<byte>, source: TimeSource)
    requires ValidConfig(c) && Inv(c, h) && c.clock.Some? && PhaseOk(Idle, Get(h, c.clock.value.id))
    ensures var r := ClockRead(c, h, data, source);
            && ClockOk(c, r)
            && (r.clock.phase == Idle || (r.clock.phase == Writing && !Get(r, c.clock.value.id).writeInFlight))
  {
    var k := c.clock.value.id;
    if source.Source? {
      var d := DeviceClock.Decide(c.clock.value.config, h.clock.learned, ToInts(data), source.now);
      var idle := h.(clock := h.clock.(phase := Idle, learned := d.learned));
      if d.payload.Some? {
        var staged := Stage(idle, k, ToBytes(d.payload.value));
        InvFrame(c, h, staged);
        LanesHaveRoom(c, staged, k);
        assert RequestWrite(c, staged, k).ok;
      }
    }
  }

  lemma RespondClock(c: Config, h: Hub, addr: nat, data: seq<byte>, unserved: bool, source: TimeSource,
                     reqs: seq<Request>)
    requires ValidConfig(c) && Inv(c, h) && ClockOk(c, h) && ValidRequests(c, reqs)
    ensures EndsWell(c, h, Respond(c, h, addr, data, unserved, source, reqs))
  {
    LandedInv(c, h);
    if h.identInFlight {
      IdentAdvanceClock(c, h.(identInFlight := false), addr == IdentAddr(h.ident) && |data| >= 4, reqs);
    } else if h.rawInFlight {
      HandlersClock(c, h.(rawInFlight := false), reqs);
    } else if h.inFlight.Some? {
      if addr != ExpectedAddr(c, h.inFlight.value, h.op) {
        FailOpClock(c, h, reqs);
      } else {
        match h.op
        case RmwReadOp => RmwHandleReadClock(c, h, data, unserved, reqs);
        case WriteOp => AcknowledgeClock(c, h, reqs);
        case ReadOp => ReadDoneClock(c, h, data, source, reqs);
      }
    }
  }

  lemma FailClock(c: Config, h: Hub, reqs: seq<Request>)
    requires ValidConfig(c) && Inv(c, h) && ClockOk(c, h) && ValidRequests(c, reqs)
    ensures EndsWell(c, h, Fail(c, h, reqs))
  {
    LandedInv(c, h);
    if h.identInFlight {
      IdentAdvanceClock(c, h.(identInFlight := false), false, reqs);
    } else if h.rawInFlight {
      HandlersClock(c, h.(rawInFlight := false), reqs);
    } else if h.inFlight.Some? {
      FailOpClock(c, h, reqs);
    }
  }

  // --- one write per chain -----------------------------------------------------------------------------

  /** Clock writes of the present chain, by phase. */
  predicate ChainOk(c: Config, w: World) {
    && w.chainWrites <= 1
    && (c.clock.Some? ==>
          && (w.hub.clock.phase == Reading ==> w.chainWrites == 0)
          && (w.hub.clock.phase == Writing ==>
                w.chainWrites == if Get(w.hub, c.clock.value.id).writeInFlight then 1 else 0)
          && (w.hub.clock.phase == Verifying ==> w.chainWrites == 1))
  }

  ghost predicate ClockInv(c: Config, w: World) {
    Inv(c, w.hub) && ClockOk(c, w.hub) && ChainOk(c, w)
  }

  lemma EndKeepsChain(c: Config, w: World, n: World)
    requires ClockInv(c, w) && Inv(c, n.hub) && EndsWell(c, w.hub, n.hub)
    requires n.chainWrites == ChainAfter(c, w, n.hub, None)
    ensures ClockInv(c, n)
  {}

  /** The event refuses the clock's own telegram for good. */
  predicate RefusesClock(c: Config, w: World, ev: Event) {
    ev.Offering? && ClockRefused(c, w.hub, ev.v)
  }

  lemma OfferKeepsChain(c: Config, w: World, ev: Event)
    requires ValidConfig(c) && ClockInv(c, w) && ev.Offering? && Enabled(c, w, ev) && !RefusesClock(c, w, ev)
    ensures ClockInv(c, Step(c, w, ev))
  {
    var h := w.hub;
    DispatchInv(c, h, ev.now, ev.v, ev.reqs);
    DispatchClock(c, h, ev.now, ev.v, ev.reqs);
    if !SlotFree(h) {
    } else if h.rmwPending.Some? {
      MergedKeepsChain(c, w, ev);
    } else if !h.ident.IdentIdle? && !h.ident.IdentDone? {
      IdentAdvanceClock(c, h, false, ev.reqs);
    } else if h.rawLane != [] {
      RawKeepsChain(c, w, ev);
    } else if h.writeLane != [] {
      WriteKeepsChain(c, w, ev);
    } else {
      DispatchReadClock(c, h, ev.now, ev.v);
    }
  }

  lemma RawKeepsChain(c: Config, w: World, ev: Event)
    requires ValidConfig(c) && ClockInv(c, w) && ev.Offering? && Enabled(c, w, ev)
    requires SlotFree(w.hub) && w.hub.rmwPending.None? && (w.hub.ident.IdentIdle? || w.hub.ident.IdentDone?)
    requires w.hub.rawLane != []
    requires Inv(c, Step(c, w, ev).hub) && ClockOk(c, Step(c, w, ev).hub)
    ensures ClockInv(c, Step(c, w, ev))
  {
    var h := w.hub;
    var rest := h.(rawAddr := h.rawLane[0].addr, rawLane := h.rawLane[1..]);
    InvFrame(c, h, rest);
    HandlersClock(c, rest, ev.reqs);
  }

  lemma MergedKeepsChain(c: Config, w: World, ev: Event)
    requires ValidConfig(c) && ClockInv(c, w) && ev.Offering? && Enabled(c, w, ev)
    requires SlotFree(w.hub) && w.hub.rmwPending.Some?
    requires Inv(c, Step(c, w, ev).hub) && ClockOk(c, Step(c, w, ev).hub)
    ensures ClockInv(c, Step(c, w, ev))
  {
    MergedClock(c, w.hub, ev.now, ev.v, ev.reqs);
    PendingIsNotClock(c, w.hub, ev);
  }

  lemma WriteKeepsChain(c: Config, w: World, ev: Event)
    requires ValidConfig(c) && ClockInv(c, w) && ev.Offering? && Enabled(c, w, ev) && !RefusesClock(c, w, ev)
    requires WriteTurn(w.hub) && Inv(c, Step(c, w, ev).hub) && ClockOk(c, Step(c, w, ev).hub)
    ensures ClockInv(c, Step(c, w, ev))
  {
    DispatchWriteClock(c, w.hub, ev.now, ev.v, ev.reqs);
    DispatchWriteKinds(c, w.hub, ev.now, ev.v, ev.reqs);
  }

  lemma DispatchWriteKinds(c: Config, h: Hub, now: u32, v: Verdict, reqs: seq<Request>)
    requires WriteTurn(h)
    ensures var s := DispatchWrite(c, h, now, v, reqs);
            s.telegram.Some? ==>
              s.telegram.value.kind == PlainWrite(h.writeLane[0]) || s.telegram.value.kind == RmwRead(h.writeLane[0])
  {}

  /** Should a merge ever be the clock's, giving it up still ends in Idle. */
  lemma PendingIsNotClock(c: Config, h: Hub, ev: Event)
    requires ValidConfig(c) && Inv(c, h) && ClockOk(c, h) && h.rmwPending.Some? && ev.Offering?
    ensures IsClock(c, h.rmwPending.value) ==>
      var r := DispatchMerged(c, h, ev.now, ev.v, ev.reqs).hub;
      r.clock.phase == Idle || ClockSame(c, h, r)
  {
    assert FlagsOk(h, h.rmwPending.value);
  }

  lemma StepClock(c: Config, w: World, ev: Event)
    requires ValidConfig(c) && ClockInv(c, w) && Enabled(c, w, ev) && !RefusesClock(c, w, ev)
    ensures ClockInv(c, Step(c, w, ev))
  {
    match ev
    case Ask(r) =>
      ExternalInv(c, w.hub, r);
      ExternalClock(c, w.hub, r);
    case Offering(_, _, _) => OfferKeepsChain(c, w, ev);
    case Guard(now, reqs) =>
      WatchdogInv(c, w.hub, now, reqs);
      FailInv(c, w.hub, reqs);
      FailClock(c, w.hub, reqs);
      if Expired(w.hub, now) { EndKeepsChain(c, w, Step(c, w, ev)); }
    case Answer(addr, data, _, _, unserved, source, reqs) =>
      RespondInv(c, w.hub, addr, data, unserved, source, reqs);
      RespondClock(c, w.hub, addr, data, unserved, source, reqs);
      EndKeepsChain(c, w, Step(c, w, ev));
    case Error(_, _, reqs) =>
      FailInv(c, w.hub, reqs);
      FailClock(c, w.hub, reqs);
      EndKeepsChain(c, w, Step(c, w, ev));
    case Silence(_, _) => EndKeepsChain(c, w, Step(c, w, ev));
  }
}
