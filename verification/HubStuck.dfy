/** A clock chain that lost its operation: nothing that can happen later brings it back. */
module HubStuck {
  import opened Basics
  import opened BitFields
  import opened RingBuffers
  import opened HubModel
  import opened HubInvariants
  import opened HubWorld
  import opened HubClock

  /** The chain waits, and nothing it could be waiting for is queued or in flight. */
  predicate Stuck(c: Config, h: Hub) {
    c.clock.Some? && h.clock.phase != Idle && PhaseOk(Idle, Get(h, c.clock.value.id))
  }

  lemma StuckIsNowhere(c: Config, h: Hub)
    requires ValidConfig(c) && Inv(c, h) && Stuck(c, h)
    ensures var k := c.clock.value.id;
            k !in h.readLane && k !in h.writeLane && !ReadFlying(h, k) && !WriteFlying(h, k)
  {
    assert FlagsOk(h, c.clock.value.id);
  }

  lemma StuckExternal(c: Config, h: Hub, r: Request)
    requires ValidConfig(c) && Stuck(c, h) && ValidRequest(c, r)
    ensures Stuck(c, External(c, h, r))
  {
    if r.Update? {
      assert Tick(c, h, r.now, r.source) == h;
      ScheduleClock(c, h, r.now, |c.entities|);
    }
  }

  lemma {:induction false} StuckHandlers(c: Config, h: Hub, reqs: seq<Request>)
    requires ValidConfig(c) && Stuck(c, h) && ValidRequests(c, reqs)
    ensures Stuck(c, Handlers(c, h, reqs))
  {
    if reqs != [] {
      StuckHandlers(c, h, reqs[..|reqs| - 1]);
      StuckExternal(c, Handlers(c, h, reqs[..|reqs| - 1]), reqs[|reqs| - 1]);
    }
  }

  lemma StuckIdent(c: Config, h: Hub, full: bool, reqs: seq<Request>)
    requires ValidConfig(c) && Stuck(c, h) && ValidRequests(c, reqs)
    ensures Stuck(c, IdentAdvance(c, h, full, reqs))
  {
    StuckHandlers(c, h.(ident := IdentNext(c.protocol, h.ident, full)), reqs);
  }

  /** What other entities' flags become does not concern the clock. */
  lemma StuckFailure(c: Config, h: Hub, r: Hub, e: nat, reqs: seq<Request>)
    requires ValidConfig(c) && Stuck(c, h) && ValidRequests(c, reqs) && !IsClock(c, e) && ClockSame(c, h, r)
    ensures Stuck(c, HandleFailure(c, r, e, reqs)) && Stuck(c, HandleWriteResponse(c, r, e, reqs))
    ensures forall data, source :: Stuck(c, HandleResponse(c, r, e, data, source, reqs))
  {
    StuckHandlers(c, r, reqs);
  }

  lemma StuckMerged(c: Config, h: Hub, now: u32, v: Verdict, reqs: seq<Request>)
    requires ValidConfig(c) && Inv(c, h) && Stuck(c, h) && ValidRequests(c, reqs) && h.rmwPending.Some?
    ensures Stuck(c, DispatchMerged(c, h, now, v, reqs).hub)
  {
    StuckIsNowhere(c, h);
    var e := h.rmwPending.value;
    StuckFailure(c, h, EndWrite(h.(rmwPending := None), e), e, reqs);
  }

  lemma StuckWrite(c: Config, h: Hub, now: u32, v: Verdict, reqs: seq<Request>)
    requires ValidConfig(c) && Inv(c, h) && Stuck(c, h) && ValidRequests(c, reqs) && h.writeLane != []
    ensures Stuck(c, DispatchWrite(c, h, now, v, reqs).hub)
  {
    StuckIsNowhere(c, h);
    var e := h.writeLane[0];
    assert e in h.writeLane;
    StuckFailure(c, h, DropWrite(h, e), e, reqs);
  }

  lemma StuckRead(c: Config, h: Hub, now: u32, v: Verdict)
    requires ValidConfig(c) && Inv(c, h) && Stuck(c, h)
    ensures Stuck(c, DispatchRead(c, h, now, v).hub)
  {
    StuckIsNowhere(c, h);
    MoveFirstIfKeepsMembers(h.readLane, e => Of(c, e).space == h.lastSpace);
    var lane := AffineLane(c, h);
    if lane != [] {
      assert lane[0] in lane;
      assert lane[0] in h.readLane;
    }
  }

  lemma StuckDispatch(c: Config, h: Hub, now: u32, v: Verdict, reqs: seq<Request>)
    requires ValidConfig(c) && Inv(c, h) && Stuck(c, h) && ValidRequests(c, reqs)
    ensures Stuck(c, Dispatch(c, h, now, v, reqs).hub)
  {
    if SlotFree(h) {
      if h.rmwPending.Some? {
        StuckMerged(c, h, now, v, reqs);
      } else if !h.ident.IdentIdle? && !h.ident.IdentDone? {
        StuckIdent(c, h, false, reqs);
      } else if h.rawLane != [] {
        StuckHandlers(c, h.(rawAddr := h.rawLane[0].addr, rawLane := h.rawLane[1..]), reqs);
      } else if h.writeLane != [] {
        StuckWrite(c, h, now, v, reqs);
      } else {
        StuckRead(c, h, now, v);
      }
    }
  }

  lemma StuckFailOp(c: Config, h: Hub, reqs: seq<Request>)
    requires ValidConfig(c) && Inv(c, h) && Stuck(c, h) && ValidRequests(c, reqs) && h.inFlight.Some?
    ensures Stuck(c, FailOp(c, FreeSlot(h), h.inFlight.value, h.op, reqs))
  {
    StuckIsNowhere(c, h);
    var e, free := h.inFlight.value, FreeSlot(h);
    match h.op
    case ReadOp => StuckFailure(c, h, EndRead(DropVerify(free, e), e), e, reqs);
    case WriteOp => StuckFailure(c, h, EndWrite(DropVerify(free, e), e), e, reqs);
    case RmwReadOp => StuckFailure(c, h, EndWrite(free, e), e, reqs);
  }

  lemma StuckFail(c: Config, h: Hub, reqs: seq<Request>)
    requires ValidConfig(c) && Inv(c, h) && Stuck(c, h) && ValidRequests(c, reqs)
    ensures Stuck(c, Fail(c, h, reqs))
  {
    if h.identInFlight {
      StuckIdent(c, h.(identInFlight := false), false, reqs);
    } else if h.rawInFlight {
      StuckHandlers(c, h.(rawInFlight := false), reqs);
    } else if h.inFlight.Some? {
      StuckFailOp(c, h, reqs);
    }
  }

  lemma StuckAcknowledge(c: Config, h: Hub, reqs: seq<Request>)
    requires ValidConfig(c) && Inv(c, h) && Stuck(c, h) && ValidRequests(c, reqs) && h.inFlight.Some? && h.op == WriteOp
    ensures Stuck(c, Acknowledge(c, FreeSlot(h), h.inFlight.value, reqs))
  {
    StuckIsNowhere(c, h);
    var e := h.inFlight.value;
    var ended := EndWrite(FreeSlot(h), e);
    StuckFailure(c, h, ended, e, reqs);
    FlownWriteInv(c, h);
    HandleWriteResponseInv(c, ended, e, reqs);
    ReadBacksClock(c, HandleWriteResponse(c, ended, e, reqs), e);
  }

  lemma StuckRespond(c: Config, h: Hub, addr: nat, data: seq<byte>, unserved: bool, source: TimeSource,
                     reqs: seq<Request>)
    requires ValidConfig(c) && Inv(c, h) && Stuck(c, h) && ValidRequests(c, reqs)
    ensures Stuck(c, Respond(c, h, addr, data, unserved, source, reqs))
  {
    if h.identInFlight {
      StuckIdent(c, h.(identInFlight := false), addr == IdentAddr(h.ident) && |data| >= 4, reqs);
    } else if h.rawInFlight {
      StuckHandlers(c, h.(rawInFlight := false), reqs);
    } else if h.inFlight.Some? {
      StuckIsNowhere(c, h);
      var e := h.inFlight.value;
      if addr != ExpectedAddr(c, e, h.op) {
        StuckFailOp(c, h, reqs);
      } else {
        match h.op
        case RmwReadOp => StuckFailOp(c, h, reqs);
        case WriteOp => StuckAcknowledge(c, h, reqs);
        case ReadOp => StuckFailure(c, h, DropVerify(EndRead(FreeSlot(h), e), e), e, reqs);
      }
    }
  }

  lemma StuckStep(c: Config, w: World, ev: Event)
    requires ValidConfig(c) && Inv(c, w.hub) && Stuck(c, w.hub) && Enabled(c, w, ev)
    ensures Stuck(c, Step(c, w, ev).hub)
  {
    match ev
    case Ask(r) => StuckExternal(c, w.hub, r);
    case Offering(now, v, reqs) => StuckDispatch(c, w.hub, now, v, reqs);
    case Guard(now, reqs) =>
      WatchdogInv(c, w.hub, now, reqs);
      StuckFail(c, w.hub, reqs);
    case Answer(addr, data, _, _, unserved, source, reqs) =>
      StuckRespond(c, w.hub, addr, data, unserved, source, reqs);
    case Error(_, _, reqs) => StuckFail(c, w.hub, reqs);
    case Silence(_, _) =>
  }

  /** Once stuck, always stuck: no request, offer, answer, error, lost callback or watchdog pass frees the chain. */
  lemma {:induction false} StuckForEver(c: Config, w: World, evs: seq<Event>)
    requires ValidConfig(c) && Inv(c, w.hub) && Stuck(c, w.hub) && ValidRun(c, w, evs)
    ensures Inv(c, Run(c, w, evs).hub) && Stuck(c, Run(c, w, evs).hub)
    decreases |evs|
  {
    if evs != [] {
      StepInv(c, w, evs[0]);
      StuckStep(c, w, evs[0]);
      StuckForEver(c, Step(c, w, evs[0]), evs[1..]);
    }
  }

  /** The one way in: a refusal for good drops the clock's operation from its lane but not from its phase. */
  lemma RefusedClockIsStuck(c: Config, h: Hub, now: u32, v: Verdict, reqs: seq<Request>)
    requires ValidConfig(c) && Inv(c, h) && ClockOk(c, h) && ValidRequests(c, reqs)
    ensures ClockRefused(c, h, v) <==> Stuck(c, Dispatch(c, h, now, v, reqs).hub)
  {
    DispatchClock(c, h, now, v, reqs);
    if ClockRefused(c, h, v) {
      RefusalSticks(c, h, now, v, reqs);
    }
  }

  lemma RefusalSticks(c: Config, h: Hub, now: u32, v: Verdict, reqs: seq<Request>)
    requires ValidConfig(c) && Inv(c, h) && ClockOk(c, h) && ClockRefused(c, h, v)
    ensures Stuck(c, Dispatch(c, h, now, v, reqs).hub)
  {
    var k := c.clock.value.id;
    assert FlagsOk(h, k);
    if h.writeLane != [] {
      assert k in h.writeLane;
    } else {
      MoveFirstIfKeepsMembers(h.readLane, e => Of(c, e).space == h.lastSpace);
      assert k in AffineLane(c, h);
      assert k in h.readLane;
    }
  }
}
