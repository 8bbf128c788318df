/**
 Entities that must not be read: an action button's read telegram would run its procedure
 again, so over no run is one ever sent.
 */
module HubUnread {
  import opened Basics
  import opened BitFields
  import opened RingBuffers
  import opened HubModel
  import opened HubInvariants
  import opened HubWorld
  import opened HubBus
  import opened HubOrder

  /** Outside the poll rotation and without a read-back. */
  predicate NeverRead(c: Config, e: nat) {
    !Of(c, e).polled && !Of(c, e).readBack && !IsClock(c, e)
  }

  predicate Unread(h: Hub, e: nat) {
    !Get(h, e).readQueued
  }

  lemma {:induction false} ScheduleUnread(c: Config, h: Hub, now: u32, n: nat, e: nat)
    requires NeverRead(c, e) && Unread(h, e)
    ensures Unread(ScheduleBelow(c, h, now, n), e)
  {
    if n > 0 { ScheduleUnread(c, h, now, n - 1, e); }
  }

  lemma ExternalUnread(c: Config, h: Hub, r: Request, e: nat)
    requires NeverRead(c, e) && Unread(h, e)
    ensures Unread(External(c, h, r), e)
  {
    if r.Update? {
      assert Unread(Tick(c, h, r.now, r.source), e);
      ScheduleUnread(c, Tick(c, h, r.now, r.source), r.now, |c.entities|, e);
    }
  }

  lemma {:induction false} HandlersUnread(c: Config, h: Hub, reqs: seq<Request>, e: nat)
    requires NeverRead(c, e) && Unread(h, e)
    ensures Unread(Handlers(c, h, reqs), e)
  {
    if reqs != [] {
      HandlersUnread(c, h, reqs[..|reqs| - 1], e);
      ExternalUnread(c, Handlers(c, h, reqs[..|reqs| - 1]), reqs[|reqs| - 1], e);
    }
  }

  lemma CallbacksUnread(c: Config, h: Hub, f: nat, data: seq<byte>, source: TimeSource, reqs: seq<Request>, e: nat)
    requires NeverRead(c, e) && Unread(h, e)
    ensures Unread(HandleResponse(c, h, f, data, source, reqs), e)
    ensures Unread(HandleFailure(c, h, f, reqs), e)
    ensures Unread(HandleWriteResponse(c, h, f, reqs), e)
  {
    HandlersUnread(c, h, reqs, e);
    ClockReadUnread(c, h, data, source, e);
  }

  lemma ClockReadUnread(c: Config, h: Hub, data: seq<byte>, source: TimeSource, e: nat)
    requires NeverRead(c, e) && Unread(h, e)
    ensures Unread(ClockRead(c, h, data, source), e)
  {}

  lemma IdentUnread(c: Config, h: Hub, full: bool, reqs: seq<Request>, e: nat)
    requires NeverRead(c, e) && Unread(h, e)
    ensures Unread(IdentAdvance(c, h, full, reqs), e)
  {
    HandlersUnread(c, h.(ident := IdentNext(c.protocol, h.ident, full)), reqs, e);
  }

  lemma WriteUnread(c: Config, h: Hub, now: u32, v: Verdict, reqs: seq<Request>, e: nat)
    requires NeverRead(c, e) && Unread(h, e) && h.writeLane != []
    ensures Unread(DispatchWrite(c, h, now, v, reqs).hub, e)
  {
    var f := h.writeLane[0];
    LeavesUnread(h, f, e);
    CallbacksUnread(c, DropWrite(h, f), f, [], NoSource, reqs, e);
  }

  /** A write that leaves its lane, sent or not, changes no entity's read flag. */
  lemma LeavesUnread(h: Hub, f: nat, e: nat)
    requires h.writeLane != []
    ensures Get(DropWrite(h, f), e).readQueued == Get(h, e).readQueued
    ensures forall op :: Get(LaunchWrite(h, f, op), e).readQueued == Get(h, e).readQueued
  {}

  lemma DispatchUnread(c: Config, h: Hub, now: u32, v: Verdict, reqs: seq<Request>, e: nat)
    requires NeverRead(c, e) && Unread(h, e)
    ensures Unread(Dispatch(c, h, now, v, reqs).hub, e)
  {
    if SlotFree(h) {
      if h.rmwPending.Some? {
        var f := h.rmwPending.value;
        CallbacksUnread(c, EndWrite(h.(rmwPending := None), f), f, [], NoSource, reqs, e);
      } else if Identifying(h) {
        IdentUnread(c, h, false, reqs, e);
      } else if h.rawLane != [] {
        HandlersUnread(c, h.(rawAddr := h.rawLane[0].addr, rawLane := h.rawLane[1..]), reqs, e);
      } else if h.writeLane != [] {
        WriteUnread(c, h, now, v, reqs, e);
      }
    }
  }

  lemma FailOpUnread(c: Config, h: Hub, f: nat, op: OpType, reqs: seq<Request>, e: nat)
    requires NeverRead(c, e) && Unread(h, e)
    ensures Unread(FailOp(c, h, f, op, reqs), e)
  {
    match op
    case ReadOp => CallbacksUnread(c, EndRead(DropVerify(h, f), f), f, [], NoSource, reqs, e);
    case WriteOp => CallbacksUnread(c, EndWrite(DropVerify(h, f), f), f, [], NoSource, reqs, e);
    case RmwReadOp => CallbacksUnread(c, EndWrite(h, f), f, [], NoSource, reqs, e);
    case NoOp =>
  }

  lemma FailUnread(c: Config, h: Hub, reqs: seq<Request>, e: nat)
    requires NeverRead(c, e) && Unread(h, e)
    ensures Unread(Fail(c, h, reqs), e)
  {
    if h.identInFlight {
      IdentUnread(c, h.(identInFlight := false), false, reqs, e);
    } else if h.rawInFlight {
      HandlersUnread(c, h.(rawInFlight := false), reqs, e);
    } else if h.inFlight.Some? {
      FailOpUnread(c, FreeSlot(h), h.inFlight.value, h.op, reqs, e);
    }
  }

  lemma {:induction false} RefreshUnread(c: Config, h: Hub, writer: nat, n: nat, e: nat)
    requires NeverRead(c, e) && Unread(h, e)
    ensures Unread(RefreshBelow(c, h, writer, n), e)
  {
    if n > 0 { RefreshUnread(c, h, writer, n - 1, e); }
  }

  lemma AcknowledgeUnread(c: Config, h: Hub, f: nat, reqs: seq<Request>, e: nat)
    requires NeverRead(c, e) && Unread(h, e)
    ensures Unread(Acknowledge(c, h, f, reqs), e)
  {
    CallbacksUnread(c, EndWrite(h, f), f, [], NoSource, reqs, e);
    var handled := HandleWriteResponse(c, EndWrite(h, f), f, reqs);
    RefreshUnread(c, if !Of(c, f).readBack then DropVerify(handled, f) else handled, f, |c.entities|, e);
  }

  lemma RespondUnread(c: Config, h: Hub, addr: nat, data: seq<byte>, unserved: bool, source: TimeSource,
                      reqs: seq<Request>, e: nat)
    requires NeverRead(c, e) && Unread(h, e)
    ensures Unread(Respond(c, h, addr, data, unserved, source, reqs), e)
  {
    if h.identInFlight {
      IdentUnread(c, h.(identInFlight := false), addr == IdentAddr(h.ident) && |data| >= 4, reqs, e);
    } else if h.rawInFlight {
      HandlersUnread(c, h.(rawInFlight := false), reqs, e);
    } else if h.inFlight.Some? {
      var f, free := h.inFlight.value, FreeSlot(h);
      FailOpUnread(c, free, f, h.op, reqs, e);
      AcknowledgeUnread(c, free, f, reqs, e);
      CallbacksUnread(c, DropVerify(EndRead(free, f), f), f, data, source, reqs, e);
    }
  }

  lemma WatchdogUnread(c: Config, h: Hub, now: u32, reqs: seq<Request>, e: nat)
    requires NeverRead(c, e) && Unread(h, e)
    ensures Unread(Watchdog(c, h, now, reqs), e)
  {
    FailUnread(c, h, reqs, e);
  }

  ghost predicate UnreadInv(c: Config, w: World, e: nat) {
    Inv(c, w.hub) && Unread(w.hub, e) && forall i :: 0 <= i < |w.trace| ==> w.trace[i].telegram.kind != PollRead(e)
  }

  /** What an offer sends as a poll was at the head of the read lane, so it is flagged as queued. */
  lemma SentIsQueued(c: Config, h: Hub, now: u32, v: Verdict, reqs: seq<Request>, e: nat)
    requires Inv(c, h) && Unread(h, e) && e < |c.entities| && Dispatch(c, h, now, v, reqs).telegram.Some?
    ensures Dispatch(c, h, now, v, reqs).telegram.value.kind != PollRead(e)
  {
    DispatchSlot(c, h, now, v, reqs);
    DispatchPriority(c, h, now, v, reqs);
    MoveFirstIfKeepsMembers(h.readLane, x => Of(c, x).space == h.lastSpace);
    assert FlagsOk(h, e);
  }

  lemma StepUnread(c: Config, w: World, ev: Event, e: nat)
    requires ValidConfig(c) && NeverRead(c, e) && e < |c.entities| && UnreadInv(c, w, e) && Enabled(c, w, ev)
    ensures UnreadInv(c, Step(c, w, ev), e)
  {
    StepInv(c, w, ev);
    match ev
    case Ask(r) => ExternalUnread(c, w.hub, r, e);
    case Offering(now, v, reqs) => OfferUnread(c, w, ev, e);
    case Guard(now, reqs) => WatchdogUnread(c, w.hub, now, reqs, e);
    case Answer(addr, data, _, _, unserved, source, reqs) =>
      RespondUnread(c, w.hub, addr, data, unserved, source, reqs, e);
    case Error(_, _, reqs) => FailUnread(c, w.hub, reqs, e);
    case Silence(_, _) =>
  }

  lemma OfferUnread(c: Config, w: World, ev: Event, e: nat)
    requires ValidConfig(c) && NeverRead(c, e) && e < |c.entities| && UnreadInv(c, w, e)
    requires ev.Offering? && Enabled(c, w, ev) && Inv(c, Step(c, w, ev).hub)
    ensures UnreadInv(c, Step(c, w, ev), e)
  {
    DispatchUnread(c, w.hub, ev.now, ev.v, ev.reqs, e);
    if Dispatch(c, w.hub, ev.now, ev.v, ev.reqs).telegram.Some? {
      SentIsQueued(c, w.hub, ev.now, ev.v, ev.reqs, e);
    }
  }

  lemma {:induction false} RunUnread(c: Config, w: World, evs: seq<Event>, e: nat)
    requires ValidConfig(c) && NeverRead(c, e) && e < |c.entities| && UnreadInv(c, w, e) && ValidRun(c, w, evs)
    ensures UnreadInv(c, Run(c, w, evs), e)
    decreases |evs|
  {
    if evs != [] {
      StepUnread(c, w, evs[0], e);
      RunUnread(c, Step(c, w, evs[0]), evs[1..], e);
    }
  }

  /** Over every run, no read of such an entity is queued or was ever sent. */
  lemma ActionIsNeverRead(c: Config, identify: bool, mem: Memory, evs: seq<Event>, e: nat)
    requires ValidConfig(c) && NeverRead(c, e) && e < |c.entities| && ValidRun(c, Boot(c, identify, mem), evs)
    ensures var w := Run(c, Boot(c, identify, mem), evs);
            && e !in w.hub.readLane && !ReadFlying(w.hub, e)
            && forall i :: 0 <= i < |w.trace| ==> w.trace[i].telegram.kind != PollRead(e)
  {
    StartInv(c, identify);
    RunUnread(c, Boot(c, identify, mem), evs, e);
    assert FlagsOk(Run(c, Boot(c, identify, mem), evs).hub, e);
  }
}
