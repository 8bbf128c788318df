/**
 The read an armed check waits for: asked for at the acknowledgement, it stays queued or in
 flight until it is compared, exactly as long as the engine does not refuse it for good.
 */
module HubAwait {
  import opened Basics
  import opened AddressSpaces
  import opened BitFields
  import opened RingBuffers
  import opened HubModel
  import opened HubInvariants
  import opened HubWorld
  import opened HubBus
  import opened HubSerial
  import opened HubVerify
  import opened HubOrder

  /** An armed check's read-back is queued or in flight, or its write still waits for the acknowledgement. */
  predicate Awaits(h: Hub) {
    h.verify.Some? ==> Get(h, h.verify.value).readQueued || (h.inFlight == h.verify && h.op == WriteOp)
  }

  /** The read an offer would send is the read-back an armed check waits for, and it is refused for good. */
  predicate RefusesReadBack(c: Config, h: Hub, v: Verdict) {
    && SlotFree(h) && h.rmwPending.None? && !Identifying(h) && h.rawLane == [] && h.writeLane == []
    && var lane := AffineLane(c, h);
       lane != [] && h.verify == Some(lane[0]) && Offer(Available(c.protocol, Of(c, lane[0]).space), v).Never?
  }

  predicate Refuses(c: Config, w: World, ev: Event) {
    ev.Offering? && RefusesReadBack(c, w.hub, ev.v)
  }

  // --- a queued read stays queued ------------------------------------------------------------------

  predicate StaysQueued(h: Hub, r: Hub, e: nat) {
    Get(h, e).readQueued ==> Get(r, e).readQueued
  }

  lemma {:induction false} ScheduleQueued(c: Config, h: Hub, now: u32, n: nat, e: nat)
    ensures StaysQueued(h, ScheduleBelow(c, h, now, n), e)
  {
    if n > 0 { ScheduleQueued(c, h, now, n - 1, e); }
  }

  lemma ExternalQueued(c: Config, h: Hub, r: Request, e: nat)
    ensures StaysQueued(h, External(c, h, r), e)
  {
    match r
    case Control(f, payload) => WriteRequestQueued(c, Stage(h, f, payload), f, e);
    case Press(f) => WriteRequestQueued(c, h, f, e);
    case QueueRaw(_) =>
    case RefreshAll(_) =>
    case Update(now, source) =>
      TickQueued(c, h, now, source, e);
      ScheduleQueued(c, Tick(c, h, now, source), now, |c.entities|, e);
  }

  lemma WriteRequestQueued(c: Config, h: Hub, f: nat, e: nat)
    ensures Get(RequestWrite(c, h, f).hub, e).readQueued == Get(h, e).readQueued
  {}

  lemma TickQueued(c: Config, h: Hub, now: u32, source: TimeSource, e: nat)
    ensures StaysQueued(h, Tick(c, h, now, source), e)
  {}

  lemma {:induction false} HandlersQueued(c: Config, h: Hub, reqs: seq<Request>, e: nat)
    ensures StaysQueued(h, Handlers(c, h, reqs), e)
  {
    if reqs != [] {
      HandlersQueued(c, h, reqs[..|reqs| - 1], e);
      ExternalQueued(c, Handlers(c, h, reqs[..|reqs| - 1]), reqs[|reqs| - 1], e);
    }
  }

  lemma ClockReadQueued(c: Config, h: Hub, data: seq<byte>, source: TimeSource, e: nat)
    ensures StaysQueued(h, ClockRead(c, h, data, source), e)
  {
    if c.clock.Some? && source.Source? {
      var k := c.clock.value.id;
      var d := DeviceClock.Decide(c.clock.value.config, h.clock.learned, ToInts(data), source.now);
      var idle := h.(clock := h.clock.(phase := Idle, learned := d.learned));
      if d.payload.Some? { WriteRequestQueued(c, Stage(idle, k, ToBytes(d.payload.value)), k, e); }
    }
  }

  lemma CallbacksQueued(c: Config, h: Hub, f: nat, data: seq<byte>, source: TimeSource, reqs: seq<Request>, e: nat)
    ensures StaysQueued(h, HandleResponse(c, h, f, data, source, reqs), e)
    ensures StaysQueued(h, HandleFailure(c, h, f, reqs), e)
    ensures StaysQueued(h, HandleWriteResponse(c, h, f, reqs), e)
  {
    HandlersQueued(c, h, reqs, e);
    ClockReadQueued(c, h, data, source, e);
  }

  lemma {:induction false} RefreshQueued(c: Config, h: Hub, writer: nat, n: nat, e: nat)
    ensures StaysQueued(h, RefreshBelow(c, h, writer, n), e)
  {
    if n > 0 { RefreshQueued(c, h, writer, n - 1, e); }
  }

  lemma ReadBacksQueued(c: Config, h: Hub, f: nat, e: nat)
    ensures StaysQueued(h, ReadBacks(c, h, f), e)
  {
    RefreshQueued(c, if !Of(c, f).readBack then DropVerify(h, f) else h, f, |c.entities|, e);
  }

  // --- one step -----------------------------------------------------------------------------------------

  lemma AskAwaits(c: Config, h: Hub, r: Request)
    requires Awaits(h)
    ensures Awaits(External(c, h, r))
  {
    ExternalSlot(c, h, r);
    if h.verify.Some? { ExternalQueued(c, h, r, h.verify.value); }
  }

  lemma HandlersAwait(c: Config, h: Hub, reqs: seq<Request>)
    requires Awaits(h)
    ensures Awaits(Handlers(c, h, reqs))
  {
    HandlersSlot(c, h, reqs);
    if h.verify.Some? { HandlersQueued(c, h, reqs, h.verify.value); }
  }

  lemma FailureAwaits(c: Config, h: Hub, f: nat, reqs: seq<Request>)
    requires Awaits(h)
    ensures Awaits(HandleFailure(c, h, f, reqs))
  {
    CallbacksSlot(c, h, f, [], NoSource, reqs);
    if h.verify.Some? { CallbacksQueued(c, h, f, [], NoSource, reqs, h.verify.value); }
  }

  lemma IdentAwaits(c: Config, h: Hub, full: bool, reqs: seq<Request>)
    requires Awaits(h)
    ensures Awaits(IdentAdvance(c, h, full, reqs))
  {
    HandlersAwait(c, h.(ident := IdentNext(c.protocol, h.ident, full)), reqs);
  }

  lemma MergedAwaits(c: Config, h: Hub, now: u32, v: Verdict, reqs: seq<Request>)
    requires Inv(c, h) && Awaits(h) && h.rmwPending.Some?
    ensures Awaits(DispatchMerged(c, h, now, v, reqs).hub)
  {
    var e := h.rmwPending.value;
    FailureAwaits(c, EndWrite(h.(rmwPending := None), e), e, reqs);
  }

  lemma WriteAwaits(c: Config, h: Hub, now: u32, v: Verdict, reqs: seq<Request>)
    requires Inv(c, h) && Awaits(h) && SlotFree(h) && h.writeLane != []
    ensures Awaits(DispatchWrite(c, h, now, v, reqs).hub)
  {
    var e := h.writeLane[0];
    LaunchAwaits(h);
    FailureAwaits(c, DropWrite(h, e), e, reqs);
  }

  /** A write that leaves its lane, sent or not, moves no read. */
  lemma LaunchAwaits(h: Hub)
    requires Awaits(h) && SlotFree(h) && h.writeLane != []
    ensures Awaits(DropWrite(h, h.writeLane[0]))
    ensures forall op :: Awaits(LaunchWrite(h, h.writeLane[0], op))
  {}

  /** The read lane loses the awaited read in one way only: refused for good. */
  lemma ReadAwaits(c: Config, h: Hub, now: u32, v: Verdict)
    requires Inv(c, h) && Awaits(h) && SlotFree(h)
    ensures var lane := AffineLane(c, h);
            Awaits(DispatchRead(c, h, now, v).hub) <==>
            !(lane != [] && h.verify == Some(lane[0]) && Offer(Available(c.protocol, Of(c, lane[0]).space), v).Never?)
  {
    MoveFirstIfKeepsMembers(h.readLane, e => Of(c, e).space == h.lastSpace);
    var lane := AffineLane(c, h);
    if lane != [] {
      assert lane[0] in lane;
      assert lane[0] in h.readLane && lane[0] < |h.ent|;
    }
  }

  lemma OfferAwaits(c: Config, h: Hub, now: u32, v: Verdict, reqs: seq<Request>)
    requires Inv(c, h) && Awaits(h)
    ensures Awaits(Dispatch(c, h, now, v, reqs).hub) <==> !RefusesReadBack(c, h, v)
  {
    if SlotFree(h) {
      if h.rmwPending.Some? {
        MergedAwaits(c, h, now, v, reqs);
      } else if Identifying(h) {
        IdentAwaits(c, h, false, reqs);
      } else if h.rawLane != [] {
        HandlersAwait(c, h.(rawAddr := h.rawLane[0].addr, rawLane := h.rawLane[1..]), reqs);
      } else if h.writeLane != [] {
        WriteAwaits(c, h, now, v, reqs);
      } else {
        ReadAwaits(c, h, now, v);
      }
    }
  }

  /** A read or write that did not succeed takes its own check with it. */
  lemma FailOpAwaits(c: Config, h: Hub, reqs: seq<Request>)
    requires Inv(c, h) && Awaits(h) && h.inFlight.Some?
    ensures Awaits(FailOp(c, FreeSlot(h), h.inFlight.value, h.op, reqs))
  {
    var e, free := h.inFlight.value, FreeSlot(h);
    match h.op
    case ReadOp => FailureAwaits(c, EndRead(DropVerify(free, e), e), e, reqs);
    case WriteOp => FailureAwaits(c, EndWrite(DropVerify(free, e), e), e, reqs);
    case RmwReadOp => FailureAwaits(c, EndWrite(free, e), e, reqs);
  }

  lemma FailAwaits(c: Config, h: Hub, reqs: seq<Request>)
    requires Inv(c, h) && Awaits(h)
    ensures Awaits(Fail(c, h, reqs))
  {
    if h.identInFlight {
      IdentAwaits(c, h.(identInFlight := false), false, reqs);
    } else if h.rawInFlight {
      HandlersAwait(c, h.(rawInFlight := false), reqs);
    } else if h.inFlight.Some? {
      FailOpAwaits(c, h, reqs);
    }
  }

  /** An acknowledgement that keeps its check has just asked for the read-back. */
  lemma AcknowledgedAwaits(c: Config, h: Hub, reqs: seq<Request>)
    requires ValidConfig(c) && Inv(c, h) && ValidRequests(c, reqs) && Awaits(h) && h.inFlight.Some? && h.op == WriteOp
    ensures Awaits(Acknowledge(c, FreeSlot(h), h.inFlight.value, reqs))
  {
    var e := h.inFlight.value;
    var ended, r := EndWrite(FreeSlot(h), e), Acknowledge(c, FreeSlot(h), e, reqs);
    if !Get(h, e).writeQueued && r.verify.Some? {
      var f := r.verify.value;
      AcknowledgeSlot(c, h, reqs);
      CallbacksQueued(c, ended, e, [], NoSource, reqs, f);
      ReadBacksQueued(c, HandleWriteResponse(c, ended, e, reqs), e, f);
      CallbacksSlot(c, ended, e, [], NoSource, reqs);
      ReadBacksSlot(c, HandleWriteResponse(c, ended, e, reqs), e);
      AcknowledgeInv(c, h, reqs);
      AcknowledgedWriteReadsBack(c, h, reqs, e);
      assert FlagsOk(r, e);
    }
  }

  lemma ReadDoneAwaits(c: Config, h: Hub, data: seq<byte>, source: TimeSource, reqs: seq<Request>)
    requires Inv(c, h) && Awaits(h) && h.inFlight.Some? && h.op == ReadOp
    ensures Awaits(ReadDone(c, FreeSlot(h), h.inFlight.value, data, source, reqs))
  {
    var e := h.inFlight.value;
    var ended := DropVerify(EndRead(FreeSlot(h), e), e);
    CallbacksSlot(c, ended, e, data, source, reqs);
    if ended.verify.Some? { CallbacksQueued(c, ended, e, data, source, reqs, ended.verify.value); }
  }

  lemma RmwReadAwaits(c: Config, h: Hub, data: seq<byte>, unserved: bool, reqs: seq<Request>)
    requires Inv(c, h) && Awaits(h) && h.inFlight.Some? && h.op == RmwReadOp
    ensures Awaits(RmwHandleRead(c, FreeSlot(h), h.inFlight.value, data, unserved, reqs))
  {
    FailOpAwaits(c, h, reqs);
  }

  lemma RespondAwaits(c: Config, h: Hub, addr: nat, data: seq<byte>, unserved: bool, source: TimeSource,
                      reqs: seq<Request>)
    requires ValidConfig(c) && Inv(c, h) && ValidRequests(c, reqs) && Awaits(h)
    ensures Awaits(Respond(c, h, addr, data, unserved, source, reqs))
  {
    if h.identInFlight {
      IdentAwaits(c, h.(identInFlight := false), addr == IdentAddr(h.ident) && |data| >= 4, reqs);
    } else if h.rawInFlight {
      HandlersAwait(c, h.(rawInFlight := false), reqs);
    } else if h.inFlight.Some? {
      if addr != ExpectedAddr(c, h.inFlight.value, h.op) {
        FailOpAwaits(c, h, reqs);
      } else {
        match h.op
        case RmwReadOp => RmwReadAwaits(c, h, data, unserved, reqs);
        case WriteOp => AcknowledgedAwaits(c, h, reqs);
        case ReadOp => ReadDoneAwaits(c, h, data, source, reqs);
      }
    }
  }

  /** Every event keeps the awaited read in place, except the offer that refuses it for good. */
  lemma StepAwaits(c: Config, w: World, ev: Event)
    requires ValidConfig(c) && Inv(c, w.hub) && Awaits(w.hub) && Enabled(c, w, ev)
    ensures Awaits(Step(c, w, ev).hub) <==> !Refuses(c, w, ev)
  {
    match ev
    case Ask(r) => AskAwaits(c, w.hub, r);
    case Offering(now, v, reqs) => OfferAwaits(c, w.hub, now, v, reqs);
    case Guard(now, reqs) =>
      WatchdogInv(c, w.hub, now, reqs);
      FailAwaits(c, w.hub, reqs);
    case Answer(addr, data, _, _, unserved, source, reqs) =>
      RespondAwaits(c, w.hub, addr, data, unserved, source, reqs);
    case Error(_, _, reqs) => FailAwaits(c, w.hub, reqs);
    case Silence(_, _) =>
  }

  // --- over whole runs ------------------------------------------------------------------------------------

  /** No offer of the run refuses, for good, the read-back an armed check waits for. */
  ghost predicate NoReadBackRefused(c: Config, w: World, evs: seq<Event>)
    requires ValidRun(c, w, evs)
    decreases |evs|
  {
    evs == [] || (!Refuses(c, w, evs[0]) && NoReadBackRefused(c, Step(c, w, evs[0]), evs[1..]))
  }

  /** No offer of the run sends a merged write, so every check armed in it is the one armed at its start. */
  ghost predicate SendsNoMerge(c: Config, w: World, evs: seq<Event>)
    requires ValidRun(c, w, evs)
    decreases |evs|
  {
    evs == [] || (!(evs[0].Offering? && w.hub.rmwPending.Some? && SentBy(c, w, evs[0]).Some?)
                  && SendsNoMerge(c, Step(c, w, evs[0]), evs[1..]))
  }

  function SentBy(c: Config, w: World, ev: Event): Option<Telegram>
    requires ev.Offering?
  {
    Dispatch(c, w.hub, ev.now, ev.v, ev.reqs).telegram
  }

  /** The check on `e` is armed, and its write waits for the acknowledgement or its read-back is queued or in flight. */
  predicate WaitsFor(h: Hub, e: nat) {
    h.verify == Some(e) && (e in h.readLane || ReadFlying(h, e) || (h.inFlight == Some(e) && h.op == WriteOp))
  }

  ghost predicate WaitsThroughout(c: Config, w: World, evs: seq<Event>, e: nat)
    requires ValidRun(c, w, evs)
    decreases |evs|
  {
    WaitsFor(w.hub, e) && (evs != [] ==> WaitsThroughout(c, Step(c, w, evs[0]), evs[1..], e))
  }

  lemma AwaitsIsWaiting(c: Config, h: Hub, e: nat)
    requires Inv(c, h) && h.verify == Some(e)
    ensures Awaits(h) <==> WaitsFor(h, e)
  {
    if e < |c.entities| { assert FlagsOk(h, e); }
  }

  /** Only a merged write that is sent arms a check. */
  lemma CheckOnlyGoes(c: Config, w: World, ev: Event)
    requires ValidConfig(c) && Inv(c, w.hub) && Enabled(c, w, ev)
    requires ev.Offering? && w.hub.rmwPending.Some? ==> SentBy(c, w, ev).None?
    ensures Step(c, w, ev).hub.verify == w.hub.verify || Step(c, w, ev).hub.verify.None?
  {
    match ev
    case Ask(r) => ExternalSlot(c, w.hub, r);
    case Offering(now, v, reqs) => DispatchSlot(c, w.hub, now, v, reqs);
    case Guard(now, reqs) =>
      WatchdogInv(c, w.hub, now, reqs);
      FailSlot(c, w.hub, reqs);
    case Answer(addr, data, _, _, unserved, source, reqs) =>
      RespondSlot(c, w.hub, addr, data, unserved, source, reqs);
    case Error(_, _, reqs) => FailSlot(c, w.hub, reqs);
    case Silence(_, _) =>
  }

  lemma {:induction false} DisarmedStays(c: Config, w: World, evs: seq<Event>)
    requires ValidConfig(c) && Inv(c, w.hub) && ValidRun(c, w, evs) && SendsNoMerge(c, w, evs) && w.hub.verify.None?
    ensures Run(c, w, evs).hub.verify.None?
    decreases |evs|
  {
    if evs != [] {
      StepInv(c, w, evs[0]);
      CheckOnlyGoes(c, w, evs[0]);
      DisarmedStays(c, Step(c, w, evs[0]), evs[1..]);
    }
  }

  /**
   The life of one check. From any world in which it is armed and its read in place, such as
   the one its merged write was sent in, to any later one in which the same check is still
   armed: its write waited for the acknowledgement, and from then on the read-back it asked
   for was queued or in flight, all the way, if and only if no offer on the way refused
   that read for good.
   */
  lemma {:induction false} WaitsUnlessRefused(c: Config, w: World, evs: seq<Event>, e: nat)
    requires ValidConfig(c) && Inv(c, w.hub) && WaitsFor(w.hub, e) && ValidRun(c, w, evs) && SendsNoMerge(c, w, evs)
    requires Run(c, w, evs).hub.verify.Some?
    ensures WaitsThroughout(c, w, evs, e) <==> NoReadBackRefused(c, w, evs)
    decreases |evs|
  {
    if evs != [] {
      var n := Step(c, w, evs[0]);
      StepInv(c, w, evs[0]);
      CheckOnlyGoes(c, w, evs[0]);
      if n.hub.verify.None? { DisarmedStays(c, n, evs[1..]); }
      AwaitsIsWaiting(c, w.hub, e);
      AwaitsIsWaiting(c, n.hub, e);
      StepAwaits(c, w, evs[0]);
      if WaitsFor(n.hub, e) { WaitsUnlessRefused(c, n, evs[1..], e); }
    }
  }

  ghost predicate AwaitsThroughout(c: Config, w: World, evs: seq<Event>)
    requires ValidRun(c, w, evs)
    decreases |evs|
  {
    Awaits(w.hub) && (evs != [] ==> AwaitsThroughout(c, Step(c, w, evs[0]), evs[1..]))
  }

  lemma {:induction false} RunAwaits(c: Config, w: World, evs: seq<Event>)
    requires ValidConfig(c) && Inv(c, w.hub) && Awaits(w.hub) && ValidRun(c, w, evs)
    ensures AwaitsThroughout(c, w, evs) <==> NoReadBackRefused(c, w, evs)
    decreases |evs|
  {
    if evs != [] {
      StepInv(c, w, evs[0]);
      StepAwaits(c, w, evs[0]);
      if Awaits(Step(c, w, evs[0]).hub) { RunAwaits(c, Step(c, w, evs[0]), evs[1..]); }
    }
  }

  /** Over every run, in every world on the way, every armed check has its read in place, or some offer refused one. */
  lemma EveryCheckAwaitsItsRead(c: Config, identify: bool, mem: Memory, evs: seq<Event>)
    requires ValidConfig(c) && ValidRun(c, Boot(c, identify, mem), evs)
    ensures AwaitsThroughout(c, Boot(c, identify, mem), evs) <==> NoReadBackRefused(c, Boot(c, identify, mem), evs)
  {
    StartInv(c, identify);
    RunAwaits(c, Boot(c, identify, mem), evs);
  }

  /**
   The answer that is compared. `w` is the world the merged write was sent in, `evs` what
   happened up to the answer: the read compared is the read-back itself, waiting or in
   flight ever since the acknowledgement, if and only if no offer refused it for good.
   */
  lemma ComparedReadIsTheReadBack(c: Config, identify: bool, mem: Memory, before: seq<Event>, evs: seq<Event>,
                                  addr: nat)
    requires ValidConfig(c) && ValidRun(c, Boot(c, identify, mem), before)
    requires var w := Run(c, Boot(c, identify, mem), before);
             && w.hub.verify.Some? && w.hub.inFlight == w.hub.verify && w.hub.op == WriteOp
             && ValidRun(c, w, evs) && SendsNoMerge(c, w, evs) && Compares(c, Run(c, w, evs), addr)
    ensures var w := Run(c, Boot(c, identify, mem), before);
            WaitsThroughout(c, w, evs, w.hub.verify.value) <==> NoReadBackRefused(c, w, evs)
  {
    BootSerial(c, identify, mem);
    RunVerify(c, Boot(c, identify, mem), before, mem);
    var w := Run(c, Boot(c, identify, mem), before);
    WaitsUnlessRefused(c, w, evs, w.hub.verify.value);
  }

  // --- a run in which a later poll is compared ----------------------------------------------------------

  /** One entity, a one-byte block at 0x20 that is its own field, due at every update. */
  const ONE := Config(KW, [EntityConfig(0x20, 1, 0x20, 1, OWN, 0, 0, 1, true, true, 0)], 0, 0, None)

  function OneHub(x: Entity, waiting: seq<nat>, writes: seq<nat>, slot: Option<nat>, op: OpType,
                  merge: Option<nat>, verify: Option<nat>): Hub
  {
    Hub([x], waiting, writes, [], slot, op, false, false, 0, WatchdogBudget(1), merge,
        if merge.Some? || verify.Some? then [1] else [], verify, if verify.Some? then [1] else [],
        IdentIdle, 0, OWN, ClockState(Idle, false, 0, None), 0)
  }

  function Flags(read: bool, write: bool, flying: bool): Entity {
    Entity([1], 0, read, write, flying)
  }

  lemma WriteStarts()
    ensures External(ONE, Start(ONE, false), Control(0, [1]))
            == OneHub(Flags(false, true, false), [], [0], None, NoOp, None, None)
    ensures var s := Dispatch(ONE, OneHub(Flags(false, true, false), [], [0], None, NoOp, None, None), 0, Taken, []);
            && s.hub == OneHub(Flags(false, false, true), [], [], Some(0), RmwReadOp, None, None)
            && s.telegram == Some(Telegram(RmwRead(0), OWN, 0x20, 1, []))
  {}

  lemma WriteMerges(data: seq<byte>)
    requires |data| == 1
    ensures Respond(ONE, OneHub(Flags(false, false, true), [], [], Some(0), RmwReadOp, None, None),
                    0x20, data, false, NoSource, [])
            == OneHub(Flags(false, false, true), [], [], None, NoOp, Some(0), None)
    ensures var s := Dispatch(ONE, OneHub(Flags(false, false, true), [], [], None, NoOp, Some(0), None), 0, Taken, []);
            && s.hub == OneHub(Flags(false, false, true), [], [], Some(0), WriteOp, None, Some(0))
            && s.telegram == Some(Telegram(MergedWrite(0), OWN, 0x20, 1, [1]))
  {
    var field: seq<byte> := [1];
    assert data[..1][..0] + field[..1] + data[..1][1..] == field;
    assert MergeBlock(data[..1], 0, 1, 0, field) == Some(field);
  }

  lemma ReadBackIsRefused()
    ensures Respond(ONE, OneHub(Flags(false, false, true), [], [], Some(0), WriteOp, None, Some(0)),
                    0x20, [], false, NoSource, [])
            == OneHub(Flags(true, false, false), [0], [], None, NoOp, None, Some(0))
    ensures var s := Dispatch(ONE, OneHub(Flags(true, false, false), [0], [], None, NoOp, None, Some(0)), 0, Never, []);
            && s.hub == OneHub(Flags(false, false, false), [], [], None, NoOp, None, Some(0))
            && s.telegram == None
    ensures RefusesReadBack(ONE, OneHub(Flags(true, false, false), [0], [], None, NoOp, None, Some(0)), Never)
  {}

  lemma PollFollows()
    ensures External(ONE, OneHub(Flags(false, false, false), [], [], None, NoOp, None, Some(0)), Update(0, NoSource))
            == OneHub(Flags(true, false, false), [0], [], None, NoOp, None, Some(0))
    ensures var s := Dispatch(ONE, OneHub(Flags(true, false, false), [0], [], None, NoOp, None, Some(0)), 0, Taken, []);
            && s.hub == OneHub(Flags(true, false, false), [], [], Some(0), ReadOp, None, Some(0))
            && s.telegram == Some(Telegram(PollRead(0), OWN, 0x20, 1, []))
  {}

  // The four parts of the run, each from the world the one before it leaves.

  ghost function Staged(): seq<Event> {
    [Ask(Control(0, [1])), Offering(0, Taken, [])]
  }

  ghost function Merged(mem: Memory): seq<Event> {
    [Answer(0x20, ReadBlock(mem, OWN, 0x20, 1), false, imap[], false, NoSource, []), Offering(0, Taken, [])]
  }

  ghost function Refused(): seq<Event> {
    [Answer(0x20, [], true, imap[], false, NoSource, []), Offering(0, Never, [])]
  }

  ghost function Polled(): seq<Event> {
    [Ask(Update(0, NoSource)), Offering(0, Taken, [])]
  }

  ghost predicate Both(w: World, evs: seq<Event>)
    requires |evs| == 2
  {
    Enabled(ONE, w, evs[0]) && Enabled(ONE, Step(ONE, w, evs[0]), evs[1])
  }

  ghost function After(w: World, evs: seq<Event>): World
    requires |evs| == 2 && Both(w, evs)
  {
    Step(ONE, Step(ONE, w, evs[0]), evs[1])
  }

  /** Two events in front of a run. */
  lemma TwoMore(w: World, evs: seq<Event>, rest: seq<Event>)
    requires |evs| == 2 && Both(w, evs) && ValidRun(ONE, After(w, evs), rest)
    ensures ValidRun(ONE, w, evs + rest) && Run(ONE, w, evs + rest) == Run(ONE, After(w, evs), rest)
  {
    assert (evs + rest)[1..] == [evs[1]] + rest && ([evs[1]] + rest)[1..] == rest;
    assert ValidRun(ONE, Step(ONE, w, evs[0]), [evs[1]] + rest);
  }

  lemma TwoSendNoMerge(w: World, evs: seq<Event>, rest: seq<Event>)
    requires |evs| == 2 && Both(w, evs) && ValidRun(ONE, After(w, evs), rest) && ValidRun(ONE, w, evs + rest)
    requires !evs[0].Offering? && Step(ONE, w, evs[0]).hub.rmwPending.None? && SendsNoMerge(ONE, After(w, evs), rest)
    ensures SendsNoMerge(ONE, w, evs + rest)
  {
    assert (evs + rest)[1..] == [evs[1]] + rest && ([evs[1]] + rest)[1..] == rest;
    assert SendsNoMerge(ONE, Step(ONE, w, evs[0]), [evs[1]] + rest);
  }

  predicate Flies(w: World, t: Telegram) {
    BusBusy(w) && Last(w).telegram == t
  }

  lemma StagedRuns(mem: Memory)
    ensures var w := Boot(ONE, false, mem);
            Both(w, Staged()) &&
            var n := After(w, Staged());
            && n.hub == OneHub(Flags(false, false, true), [], [], Some(0), RmwReadOp, None, None)
            && n.mem == mem && Flies(n, Telegram(RmwRead(0), OWN, 0x20, 1, []))
  {
    WriteStarts();
  }

  lemma MergedRuns(w: World, mem: Memory)
    requires w.hub == OneHub(Flags(false, false, true), [], [], Some(0), RmwReadOp, None, None)
    requires w.mem == mem && Flies(w, Telegram(RmwRead(0), OWN, 0x20, 1, []))
    ensures Both(w, Merged(mem)) &&
            var n := After(w, Merged(mem));
            && n.hub == OneHub(Flags(false, false, true), [], [], Some(0), WriteOp, None, Some(0))
            && Flies(n, Telegram(MergedWrite(0), OWN, 0x20, 1, [1]))
  {
    WriteMerges(ReadBlock(mem, OWN, 0x20, 1));
  }

  lemma RefusedRuns(w: World)
    requires w.hub == OneHub(Flags(false, false, true), [], [], Some(0), WriteOp, None, Some(0))
    requires Flies(w, Telegram(MergedWrite(0), OWN, 0x20, 1, [1]))
    ensures Both(w, Refused()) &&
            var n := After(w, Refused());
            && n.hub == OneHub(Flags(false, false, false), [], [], None, NoOp, None, Some(0))
            && !BusBusy(n)
    ensures Both(w, Refused()) && Refuses(ONE, Step(ONE, w, Refused()[0]), Refused()[1])
    ensures Both(w, Refused()) && Step(ONE, w, Refused()[0]).hub.rmwPending.None?
  {
    ReadBackIsRefused();
  }

  lemma PolledRuns(w: World)
    requires w.hub == OneHub(Flags(false, false, false), [], [], None, NoOp, None, Some(0)) && !BusBusy(w)
    ensures Both(w, Polled()) && Compares(ONE, After(w, Polled()), 0x20)
    ensures Both(w, Polled()) && Step(ONE, w, Polled()[0]).hub.rmwPending.None?
  {
    PollFollows();
  }

  /** The first half: a merged write is in flight and its check armed. */
  lemma CheckIsArmed(mem: Memory)
    ensures ValidConfig(ONE) && ValidRun(ONE, Boot(ONE, false, mem), Staged() + Merged(mem))
    ensures var w := Run(ONE, Boot(ONE, false, mem), Staged() + Merged(mem));
            && w.hub == OneHub(Flags(false, false, true), [], [], Some(0), WriteOp, None, Some(0))
            && Flies(w, Telegram(MergedWrite(0), OWN, 0x20, 1, [1]))
  {
    var w := Boot(ONE, false, mem);
    StagedRuns(mem);
    MergedRuns(After(w, Staged()), mem);
    TwoMore(After(w, Staged()), Merged(mem), []);
    assert Merged(mem) + [] == Merged(mem);
    TwoMore(w, Staged(), Merged(mem));
  }

  /** The second half: the acknowledgement, the refused read-back, an update, a poll. */
  lemma PollIsCompared(w: World)
    requires w.hub == OneHub(Flags(false, false, true), [], [], Some(0), WriteOp, None, Some(0))
    requires Flies(w, Telegram(MergedWrite(0), OWN, 0x20, 1, [1]))
    ensures ValidRun(ONE, w, Refused() + Polled())
    ensures Compares(ONE, Run(ONE, w, Refused() + Polled()), 0x20)
    ensures SendsNoMerge(ONE, w, Refused() + Polled()) && !NoReadBackRefused(ONE, w, Refused() + Polled())
  {
    RefusedRuns(w);
    PolledRuns(After(w, Refused()));
    TwoMore(After(w, Refused()), Polled(), []);
    assert Polled() + [] == Polled();
    TwoMore(w, Refused(), Polled());
    TwoSendNoMerge(After(w, Refused()), Polled(), []);
    TwoSendNoMerge(w, Refused(), Polled());
    SecondRefuses(w, Refused() + Polled());
  }

  lemma SecondRefuses(w: World, evs: seq<Event>)
    requires |evs| >= 2 && ValidRun(ONE, w, evs) && Refuses(ONE, Step(ONE, w, evs[0]), evs[1])
    ensures !NoReadBackRefused(ONE, w, evs)
  {
    assert evs[1..][0] == evs[1];
    assert !NoReadBackRefused(ONE, Step(ONE, w, evs[0]), evs[1..]);
  }

  /**
   A later poll that is compared, whatever the device holds at boot: write, merge,
   acknowledge; the read-back is refused for good, the next update queues a poll, and that
   poll's answer is compared.
   */
  lemma LaterPollIsCompared(mem: Memory)
    ensures ValidConfig(ONE) && ValidRun(ONE, Boot(ONE, false, mem), Staged() + Merged(mem))
    ensures var w := Run(ONE, Boot(ONE, false, mem), Staged() + Merged(mem));
            && w.hub.verify == Some(0) == w.hub.inFlight && w.hub.op == WriteOp
            && ValidRun(ONE, w, Refused() + Polled()) && Compares(ONE, Run(ONE, w, Refused() + Polled()), 0x20)
            && SendsNoMerge(ONE, w, Refused() + Polled()) && !NoReadBackRefused(ONE, w, Refused() + Polled())
  {
    CheckIsArmed(mem);
    PollIsCompared(Run(ONE, Boot(ONE, false, mem), Staged() + Merged(mem)));
  }
}
