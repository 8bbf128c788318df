/**
 The clock chain over whole runs: where its one operation is, what its read-back follows,
 and exactly when it stays alive.
 */
module HubChain {
  import opened Basics
  import opened BitFields
  import opened HubModel
  import opened HubInvariants
  import opened HubWorld
  import opened HubBus
  import opened HubSerial
  import opened HubVerify
  import opened HubOrder
  import opened HubClock
  import opened HubStuck

  // --- phases -------------------------------------------------------------------------------------

  lemma {:induction false} HandlersPhase(c: Config, h: Hub, reqs: seq<Request>)
    ensures Handlers(c, h, reqs).clock.phase == h.clock.phase || Handlers(c, h, reqs).clock.phase == Reading
  {
    if reqs != [] {
      HandlersPhase(c, h, reqs[..|reqs| - 1]);
      ExternalPhase(c, Handlers(c, h, reqs[..|reqs| - 1]), reqs[|reqs| - 1]);
    }
  }

  lemma ExternalPhase(c: Config, h: Hub, r: Request)
    ensures External(c, h, r).clock.phase == h.clock.phase || External(c, h, r).clock.phase == Reading
  {
    if r.Update? {
      SchedulePhase(c, Tick(c, h, r.now, r.source), r.now, |c.entities|);
    }
  }

  lemma {:induction false} SchedulePhase(c: Config, h: Hub, now: u32, n: nat)
    ensures ScheduleBelow(c, h, now, n).clock == h.clock
  {
    if n > 0 { SchedulePhase(c, h, now, n - 1); }
  }

  /** An offer never starts a verification. */
  lemma DispatchPhase(c: Config, h: Hub, now: u32, v: Verdict, reqs: seq<Request>)
    ensures Dispatch(c, h, now, v, reqs).hub.clock.phase == Verifying ==> h.clock.phase == Verifying
  {
    if SlotFree(h) {
      if h.rmwPending.Some? {
        FailurePhase(c, EndWrite(h.(rmwPending := None), h.rmwPending.value), h.rmwPending.value, reqs);
      } else if Identifying(h) {
        HandlersPhase(c, h.(ident := IdentNext(c.protocol, h.ident, false)), reqs);
      } else if h.rawLane != [] {
        HandlersPhase(c, h.(rawAddr := h.rawLane[0].addr, rawLane := h.rawLane[1..]), reqs);
      } else if h.writeLane != [] {
        FailurePhase(c, DropWrite(h, h.writeLane[0]), h.writeLane[0], reqs);
      }
    }
  }

  lemma FailurePhase(c: Config, h: Hub, e: nat, reqs: seq<Request>)
    ensures HandleFailure(c, h, e, reqs).clock.phase == Verifying ==> !IsClock(c, e) && h.clock.phase == Verifying
  {
    HandlersPhase(c, h, reqs);
  }

  /** A failure never starts a verification, and a failed read of the clock ends it. */
  lemma FailPhase(c: Config, h: Hub, reqs: seq<Request>)
    requires Inv(c, h)
    ensures Fail(c, h, reqs).clock.phase == Verifying ==>
              h.clock.phase == Verifying && !(c.clock.Some? && ReadFlying(h, c.clock.value.id))
  {
    if h.identInFlight {
      HandlersPhase(c, h.(identInFlight := false, ident := IdentNext(c.protocol, h.ident, false)), reqs);
    } else if h.rawInFlight {
      HandlersPhase(c, h.(rawInFlight := false), reqs);
    } else if h.inFlight.Some? {
      FailOpPhase(c, FreeSlot(h), h.inFlight.value, h.op, reqs);
    }
  }

  lemma FailOpPhase(c: Config, h: Hub, e: nat, op: OpType, reqs: seq<Request>)
    requires !op.NoOp?
    ensures FailOp(c, h, e, op, reqs).clock.phase == Verifying ==> !IsClock(c, e) && h.clock.phase == Verifying
  {
    match op
    case ReadOp => FailurePhase(c, EndRead(DropVerify(h, e), e), e, reqs);
    case WriteOp => FailurePhase(c, EndWrite(DropVerify(h, e), e), e, reqs);
    case RmwReadOp => FailurePhase(c, EndWrite(h, e), e, reqs);
  }

  lemma AcknowledgePhase(c: Config, h: Hub, e: nat, reqs: seq<Request>)
    ensures Acknowledge(c, h, e, reqs).clock.phase == Verifying ==> IsClock(c, e) || h.clock.phase == Verifying
  {
    HandlersPhase(c, EndWrite(h, e), reqs);
    var handled := HandleWriteResponse(c, EndWrite(h, e), e, reqs);
    RefreshKeepsClock(c, if !Of(c, e).readBack then DropVerify(handled, e) else handled, e, |c.entities|);
  }

  /** Only the acknowledgement of the clock's own write starts a verification, and an answer to its read ends it. */
  lemma RespondPhase(c: Config, h: Hub, addr: nat, data: seq<byte>, unserved: bool, source: TimeSource,
                     reqs: seq<Request>)
    requires Inv(c, h)
    ensures Respond(c, h, addr, data, unserved, source, reqs).clock.phase == Verifying ==>
              || (h.clock.phase == Verifying && !(c.clock.Some? && ReadFlying(h, c.clock.value.id)))
              || (h.op == WriteOp && h.inFlight.Some? && IsClock(c, h.inFlight.value)
                  && addr == Of(c, h.inFlight.value).writeAddr)
  {
    if h.identInFlight {
      HandlersPhase(c, h.(identInFlight := false,
                          ident := IdentNext(c.protocol, h.ident, addr == IdentAddr(h.ident) && |data| >= 4)), reqs);
    } else if h.rawInFlight {
      HandlersPhase(c, h.(rawInFlight := false), reqs);
    } else if h.inFlight.Some? {
      var e := h.inFlight.value;
      FailOpPhase(c, FreeSlot(h), e, h.op, reqs);
      AcknowledgePhase(c, FreeSlot(h), e, reqs);
      ReadDonePhase(c, FreeSlot(h), e, data, source, reqs);
    }
  }

  lemma ReadDonePhase(c: Config, h: Hub, e: nat, data: seq<byte>, source: TimeSource, reqs: seq<Request>)
    ensures ReadDone(c, h, e, data, source, reqs).clock.phase == Verifying ==>
              !IsClock(c, e) && h.clock.phase == Verifying
  {
    HandlersPhase(c, DropVerify(EndRead(h, e), e), reqs);
  }

  // --- what a read-back follows ------------------------------------------------------------------------

  /** Index of the most recent write of `k` in the trace; -1 when there is none. */
  function LastWrite(trace: seq<Entry>, k: nat): (i: int)
    ensures -1 <= i < |trace|
    ensures i >= 0 ==> trace[i].telegram.kind == PlainWrite(k)
    ensures forall j :: i < j < |trace| ==> trace[j].telegram.kind != PlainWrite(k)
  {
    if trace == [] then -1
    else if trace[|trace| - 1].telegram.kind == PlainWrite(k) then |trace| - 1
    else LastWrite(trace[..|trace| - 1], k)
  }

  /** The most recent write of the clock was acknowledged, and its one read since, if any, is the one in flight. */
  ghost predicate ReadBackFollows(w: World, k: nat) {
    var i := LastWrite(w.trace, k);
    && i >= 0 && Acked(w.trace[i])
    && forall j :: i < j < |w.trace| && w.trace[j].telegram.kind == PollRead(k) ==>
         j == |w.trace| - 1 && ReadFlying(w.hub, k)
  }

  predicate LastIsAddressed(c: Config, w: World) {
    w.trace != [] && Last(w).telegram.kind.PlainWrite? ==>
      Last(w).telegram.addr == Of(c, Last(w).telegram.kind.e).writeAddr
  }

  ghost predicate ChainTrace(c: Config, w: World)
    requires c.clock.Some?
  {
    LastIsAddressed(c, w) && (w.hub.clock.phase == Verifying ==> ReadBackFollows(w, c.clock.value.id))
  }

  lemma SameWrites(a: seq<Entry>, b: seq<Entry>, k: nat)
    requires |a| == |b| && forall i :: 0 <= i < |a| ==> a[i].telegram == b[i].telegram
    ensures LastWrite(a, k) == LastWrite(b, k)
  {}

  lemma LongerTrace(a: seq<Entry>, x: Entry, k: nat)
    requires x.telegram.kind != PlainWrite(k)
    ensures LastWrite(a + [x], k) == LastWrite(a, k)
  {
    assert (a + [x])[..|a|] == a;
  }

  lemma AskTraces(c: Config, w: World, r: Request)
    requires c.clock.Some? && ChainTrace(c, w) && ValidRequest(c, r)
    ensures ChainTrace(c, Step(c, w, Ask(r)))
  {
    ExternalPhase(c, w.hub, r);
    ExternalSlot(c, w.hub, r);
  }

  /** What an offer sends while the clock verifies is no write of the clock, and a read of it is in flight. */
  lemma SentWhileVerifying(c: Config, h: Hub, now: u32, v: Verdict, reqs: seq<Request>, k: nat)
    requires Inv(c, h) && ClockOk(c, h) && IsClock(c, k) && h.clock.phase == Verifying && k < |c.entities|
    requires Dispatch(c, h, now, v, reqs).telegram.Some?
    ensures var s := Dispatch(c, h, now, v, reqs);
            && SlotFree(h) && s.telegram.value.kind != PlainWrite(k)
            && (s.telegram.value.kind == PollRead(k) ==> ReadFlying(s.hub, k))
  {
    DispatchPriority(c, h, now, v, reqs);
    DispatchSlot(c, h, now, v, reqs);
    assert FlagsOk(h, k);
  }

  lemma OfferAddressed(c: Config, w: World, ev: Event)
    requires ev.Offering? && Enabled(c, w, ev) && LastIsAddressed(c, w)
    ensures LastIsAddressed(c, Step(c, w, ev))
  {}

  /** A telegram sent while the clock verifies is not its write, and is its read only as the one in flight. */
  lemma OneMoreSent(w: World, n: World, x: Entry, k: nat)
    requires ReadBackFollows(w, k) && SlotFree(w.hub) && n.trace == w.trace + [x]
    requires x.telegram.kind != PlainWrite(k) && (x.telegram.kind == PollRead(k) ==> ReadFlying(n.hub, k))
    ensures ReadBackFollows(n, k)
  {
    LongerTrace(w.trace, x, k);
  }

  lemma OfferTraces(c: Config, w: World, ev: Event)
    requires ValidConfig(c) && c.clock.Some? && ev.Offering? && Enabled(c, w, ev) && ClockInv(c, w) && ChainTrace(c, w)
    ensures ChainTrace(c, Step(c, w, ev))
  {
    OfferAddressed(c, w, ev);
    DispatchPhase(c, w.hub, ev.now, ev.v, ev.reqs);
    if Step(c, w, ev).hub.clock.phase == Verifying {
      OfferVerifying(c, w, ev);
    }
  }

  lemma OfferVerifying(c: Config, w: World, ev: Event)
    requires ValidConfig(c) && c.clock.Some? && ev.Offering? && Enabled(c, w, ev) && ClockInv(c, w)
    requires w.hub.clock.phase == Verifying && ReadBackFollows(w, c.clock.value.id)
    ensures ReadBackFollows(Step(c, w, ev), c.clock.value.id)
  {
    var n, k := Step(c, w, ev), c.clock.value.id;
    if Dispatch(c, w.hub, ev.now, ev.v, ev.reqs).telegram.Some? {
      SentWhileVerifying(c, w.hub, ev.now, ev.v, ev.reqs, k);
      OneMoreSent(w, n, n.trace[|w.trace|], k);
    } else {
      DispatchSlot(c, w.hub, ev.now, ev.v, ev.reqs);
      assert n.trace == w.trace;
    }
  }

  /** The telegram on the bus ends with the chain still verifying: it was not the read-back. */
  lemma EndedTraces(c: Config, w: World, n: World, x: Entry)
    requires c.clock.Some? && ChainTrace(c, w) && EndsAs(w, n, x)
    requires n.hub.clock.phase == Verifying ==> w.hub.clock.phase == Verifying && !ReadFlying(w.hub, c.clock.value.id)
    ensures ChainTrace(c, n)
  {
    SameWrites(w.trace, n.trace, c.clock.value.id);
  }

  /** The acknowledgement that starts the verification is of the clock's own write, which is the last telegram. */
  lemma OwnWriteAcknowledged(c: Config, w: World, n: World, x: Entry, addr: nat, start: Memory)
    requires ValidConfig(c) && c.clock.Some? && SerialInv(c, w, start) && LastIsAddressed(c, w) && EndsAs(w, n, x)
    requires w.hub.inFlight == Some(c.clock.value.id) && w.hub.op == WriteOp
    requires x.outcome.Answered? && x.outcome.addr == addr == Of(c, c.clock.value.id).writeAddr
    ensures ChainTrace(c, n)
  {
    var k := c.clock.value.id;
    assert DirectlyAfterRead(c, w.trace, |w.trace| - 1);
    assert Last(w).telegram.kind == PlainWrite(k);
    assert n.trace[|n.trace| - 1] == x;
  }

  lemma AnswerTraces(c: Config, w: World, ev: Event, start: Memory)
    requires ValidConfig(c) && c.clock.Some? && SerialInv(c, w, start) && ChainTrace(c, w)
    requires ev.Answer? && Enabled(c, w, ev)
    ensures ChainTrace(c, Step(c, w, ev))
  {
    var n, x := Step(c, w, ev), Ended(w, Answered(ev.addr, ev.data), ev.took, ev.effect);
    RespondPhase(c, w.hub, ev.addr, ev.data, ev.unserved, ev.source, ev.reqs);
    if w.hub.op == WriteOp && w.hub.inFlight == Some(c.clock.value.id) && ev.addr == Of(c, c.clock.value.id).writeAddr {
      OwnWriteAcknowledged(c, w, n, x, ev.addr, start);
    } else {
      EndedTraces(c, w, n, x);
    }
  }

  lemma GuardTraces(c: Config, w: World, ev: Event)
    requires ValidConfig(c) && c.clock.Some? && Inv(c, w.hub) && ChainTrace(c, w) && ev.Guard? && Enabled(c, w, ev)
    ensures ChainTrace(c, Step(c, w, ev))
  {
    WatchdogInv(c, w.hub, ev.now, ev.reqs);
    FailPhase(c, w.hub, ev.reqs);
  }

  lemma StepTraces(c: Config, w: World, ev: Event, start: Memory)
    requires ValidConfig(c) && c.clock.Some? && SerialInv(c, w, start) && ClockInv(c, w) && ChainTrace(c, w)
    requires Enabled(c, w, ev)
    ensures ChainTrace(c, Step(c, w, ev))
  {
    match ev
    case Ask(r) => AskTraces(c, w, r);
    case Offering(_, _, _) => OfferTraces(c, w, ev);
    case Guard(_, _) => GuardTraces(c, w, ev);
    case Answer(_, _, _, _, _, _, _) => AnswerTraces(c, w, ev, start);
    case Error(took, effect, reqs) =>
      FailPhase(c, w.hub, reqs);
      EndedTraces(c, w, Step(c, w, ev), Ended(w, Failed, took, effect));
    case Silence(took, effect) => SilenceTraces(c, w, ev);
  }

  lemma SilenceTraces(c: Config, w: World, ev: Event)
    requires c.clock.Some? && ChainTrace(c, w) && ev.Silence? && Enabled(c, w, ev)
    ensures ChainTrace(c, Step(c, w, ev))
  {
    SameWrites(w.trace, Step(c, w, ev).trace, c.clock.value.id);
  }

  // --- over whole runs ------------------------------------------------------------------------------------

  /** No event of the run refuses the clock's own telegram for good. */
  ghost predicate NeverRefused(c: Config, w: World, evs: seq<Event>)
    requires ValidRun(c, w, evs)
    decreases |evs|
  {
    evs == [] || (!RefusesClock(c, w, evs[0]) && NeverRefused(c, Step(c, w, evs[0]), evs[1..]))
  }

  ghost predicate Alive(c: Config, w: World, start: Memory)
    requires c.clock.Some?
  {
    SerialInv(c, w, start) && ClockInv(c, w) && ChainTrace(c, w)
  }

  /** A run without such a refusal keeps the chain alive; one with it ends stuck. */
  lemma {:induction false} AliveOrStuck(c: Config, w: World, evs: seq<Event>, start: Memory)
    requires ValidConfig(c) && c.clock.Some? && Alive(c, w, start) && ValidRun(c, w, evs)
    ensures if NeverRefused(c, w, evs) then Alive(c, Run(c, w, evs), start)
            else Inv(c, Run(c, w, evs).hub) && Stuck(c, Run(c, w, evs).hub)
    decreases |evs|
  {
    if evs != [] {
      var n := Step(c, w, evs[0]);
      StepSerial(c, w, evs[0], start);
      if RefusesClock(c, w, evs[0]) {
        RefusedClockIsStuck(c, w.hub, evs[0].now, evs[0].v, evs[0].reqs);
        StuckForEver(c, n, evs[1..]);
      } else {
        StepClock(c, w, evs[0]);
        StepTraces(c, w, evs[0], start);
        AliveOrStuck(c, n, evs[1..], start);
      }
    }
  }

  predicate ReadPending(h: Hub, k: nat) {
    k in h.readLane || ReadFlying(h, k)
  }

  predicate WritePending(h: Hub, k: nat) {
    k in h.writeLane || WriteFlying(h, k)
  }

  /** Where the clock's one operation is; a pending read opens the chain or reads its write back. */
  ghost predicate ClockWhere(w: World, k: nat) {
    var h := w.hub;
    && (h.clock.phase == Reading <==> ReadPending(h, k) && w.chainWrites == 0)
    && (h.clock.phase == Verifying <==> ReadPending(h, k) && w.chainWrites == 1)
    && (h.clock.phase == Writing <==> WritePending(h, k))
    && (h.clock.phase == Idle <==> !ReadPending(h, k) && !WritePending(h, k))
    && w.chainWrites <= 1
    && (h.clock.phase == Verifying ==> ReadBackFollows(w, k))
  }

  /**
   The clock never wedges. Through every response, error, mis-addressed answer, lost
   callback and watchdog, and any requests in between, the phase says exactly where the
   clock's operation is queued or in flight: reading its opening read, writing its write,
   verifying a read-back that was sent, or will be, after the acknowledgement of its write,
   idle exactly when nothing is pending; and a chain sends at most one write. It holds at
   the end of a run if and only if the engine refused none of the clock's telegrams for
   good on the way.
   */
  lemma ClockNeverWedges(c: Config, identify: bool, mem: Memory, evs: seq<Event>)
    requires ValidConfig(c) && c.clock.Some? && ValidRun(c, Boot(c, identify, mem), evs)
    ensures NeverRefused(c, Boot(c, identify, mem), evs)
            <==> ClockWhere(Run(c, Boot(c, identify, mem), evs), c.clock.value.id)
  {
    var w := Boot(c, identify, mem);
    BootSerial(c, identify, mem);
    AliveOrStuck(c, w, evs, mem);
    var n := Run(c, w, evs);
    if NeverRefused(c, w, evs) {
      AliveIsSomewhere(c, n, mem);
    } else {
      StuckIsNowhere(c, n.hub);
    }
  }

  lemma AliveIsSomewhere(c: Config, w: World, start: Memory)
    requires ValidConfig(c) && c.clock.Some? && Alive(c, w, start)
    ensures ClockWhere(w, c.clock.value.id)
  {
    assert FlagsOk(w.hub, c.clock.value.id);
  }
}
