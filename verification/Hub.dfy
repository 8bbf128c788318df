/**
 The hub as an object: fields updated in place, lanes in ring buffers. Every method is
 shown to do what the step function of the same name says, so what is proved about the
 step functions holds of the object.
 */
module HubObject {
  import opened Basics
  import opened AddressSpaces
  import opened BitFields
  import opened RingBuffers
  import opened PollSchedule
  import opened HubModel

  datatype LanesServed = LanesServed(read: bool, write: bool, raw: bool)

  class VitoHome {
    const c: Config

    var entities: seq<Entity>
    const readQueue: RingBuffer<nat>
    const writeQueue: RingBuffer<nat>
    const rawQueue: RingBuffer<RawOp>

    var inFlight: Option<nat>
    var op: OpType
    var identInFlight: bool
    var rawInFlight: bool
    var startedMs: u32
    var watchdogMs: u32

    var rmwPending: Option<nat>
    var rmwBuf: seq<byte>
    var verify: Option<nat>
    var verifyBuf: seq<byte>

    var ident: IdentState
    var rawAddr: nat
    var lastSpace: Space
    var clock: ClockState
    var lastRefreshMs: u32

    ghost function Repr(): set<object>
      reads this, readQueue, writeQueue, rawQueue
    {
      {this, readQueue, writeQueue, rawQueue, readQueue.slots, writeQueue.slots, rawQueue.slots}
    }

    /** The lanes keep the storage setup gave them. */
    twostate predicate SameStores()
      reads this, readQueue, writeQueue, rawQueue
    {
      && readQueue.slots == old(readQueue.slots) && writeQueue.slots == old(writeQueue.slots)
      && rawQueue.slots == old(rawQueue.slots)
    }

    ghost predicate Valid()
      reads Repr()
    {
      && readQueue != writeQueue && readQueue.slots != writeQueue.slots
      && readQueue.Valid() && writeQueue.Valid() && rawQueue.Valid()
      && readQueue.capacity == |c.entities| && writeQueue.capacity == |c.entities|
      && rawQueue.capacity == c.rawCapacity
    }

    /** The object's state as the step functions see it. */
    ghost function State(): Hub
      requires Valid()
      reads Repr()
    {
      Hub(entities, readQueue.Contents(), writeQueue.Contents(), rawQueue.Contents(),
          inFlight, op, identInFlight, rawInFlight, startedMs, watchdogMs,
          rmwPending, rmwBuf, verify, verifyBuf, ident, rawAddr, lastSpace, clock, lastRefreshMs)
    }

    /** Registration is done, the lanes have no storage yet. */
    ghost predicate Registered()
      reads Repr()
    {
      && readQueue != writeQueue && readQueue.slots != writeQueue.slots
      && readQueue.Valid() && !readQueue.initialized
      && writeQueue.Valid() && !writeQueue.initialized
      && rawQueue.Valid() && !rawQueue.initialized
    }

    constructor (config: Config, read: RingBuffer<nat>, write: RingBuffer<nat>, raw: RingBuffer<RawOp>)
      requires read.Valid() && write.Valid() && raw.Valid() && read != write && read.slots != write.slots
      requires !read.initialized && !write.initialized && !raw.initialized
      ensures c == config && readQueue == read && writeQueue == write && rawQueue == raw
      ensures Registered() && AtRest() && ident == IdentIdle
    {
      c, readQueue, writeQueue, rawQueue := config, read, write, raw;
      entities := [];
      inFlight, op, identInFlight, rawInFlight := None, NoOp, false, false;
      startedMs, watchdogMs := 0, WatchdogBudget(1);
      rmwPending, rmwBuf, verify, verifyBuf := None, [], None, [];
      ident, rawAddr, lastSpace := IdentIdle, 0, OWN;
      clock, lastRefreshMs := ClockState(Idle, false, 0, None), 0;
    }

    /** Whether the allocator serves each of the lanes' one allocation; a lane of no slots needs none. */
    predicate AllServed(served: LanesServed) {
      && (|c.entities| == 0 || (served.read && served.write))
      && (c.rawCapacity == 0 || served.raw)
    }

    /** The lanes are sized once, to the entities that registered; the first that cannot be ends the attempt. */
    method SizeLanes(served: LanesServed) returns (ok: bool)
      requires Registered()
      modifies readQueue, writeQueue, rawQueue
      ensures ok == AllServed(served)
      ensures ok ==>
        && Valid() && fresh(readQueue.slots) && fresh(writeQueue.slots) && fresh(rawQueue.slots)
        && readQueue.Contents() == [] && writeQueue.Contents() == [] && rawQueue.Contents() == []
    {
      ok := readQueue.Reserve(|c.entities|, served.read);
      if !ok {
        return;
      }
      ok := writeQueue.Reserve(|c.entities|, served.write);
      if !ok {
        return;
      }
      ok := rawQueue.Reserve(c.rawCapacity, served.raw);
    }

    /** Nothing in flight, nothing armed: the fields as the constructor leaves them. */
    predicate AtRest()
      reads this
    {
      && inFlight == None && op == NoOp && !identInFlight && !rawInFlight
      && startedMs == 0 && watchdogMs == WatchdogBudget(1)
      && rmwPending == None && rmwBuf == [] && verify == None && verifyBuf == []
      && rawAddr == 0 && lastSpace == OWN && clock == ClockState(Idle, false, 0, None) && lastRefreshMs == 0
    }

    /** Boot: a lane that cannot be allocated fails it, and identification does not begin. */
    method Setup(identify: bool, served: LanesServed) returns (ok: bool)
      requires Registered() && AtRest() && ident == IdentIdle
      modifies this`entities, this`ident, readQueue, writeQueue, rawQueue
      ensures ok == AllServed(served)
      ensures ok ==> Valid() && State() == Start(c, identify)
      ensures !ok ==> AtRest() && ident == IdentIdle
    {
      entities := seq(|c.entities|, _ => BLANK);
      ok := SizeLanes(served);
      if ok && identify {
        ident := Read4;
      }
    }

    // --- requests ------------------------------------------------------------------------------

    method SetEntity(e: nat, x: Entity)
      requires Valid()
      modifies this`entities
      ensures Valid() && State() == Put(old(State()), e, x)
    {
      if e < |entities| {
        entities := entities[e := x];
      }
    }

    function EntityAt(e: nat): Entity
      reads this
    {
      if e < |entities| then entities[e] else BLANK
    }

    method RequestWrite(e: nat) returns (ok: bool)
      requires Valid()
      modifies Repr()
      ensures Valid() && SameStores()
      ensures Asked(State(), ok) == HubModel.RequestWrite(c, old(State()), e)
    {
      var x := EntityAt(e);
      if |x.staged| == 0 && !Of(c, e).space.RPC? {
        return false;
      }
      if x.writeQueued {
        return true;
      }
      // The flag goes up before the push and comes down again if the lane rejects it.
      SetEntity(e, x.(writeQueued := true));
      ok := writeQueue.PushBack(e);
      if !ok {
        SetEntity(e, x);
      }
    }

    method RaiseReadFlag(e: nat)
      requires Valid()
      modifies this`entities
      ensures Valid() && State() == Put(old(State()), e, Get(old(State()), e).(readQueued := true))
    {
      SetEntity(e, EntityAt(e).(readQueued := true));
    }

    /** Flag the entity and push it to one end of the read lane: the flag comes down again if the lane is full. */
    method PushReadFront(e: nat) returns (ok: bool)
      requires Valid()
      modifies Repr()
      ensures Valid() && SameStores()
      ensures ok <==> |old(State()).readLane| != |c.entities|
      ensures !ok ==> State() == old(State())
      ensures ok ==> State() == Put(old(State()), e, Get(old(State()), e).(readQueued := true))
                                  .(readLane := [e] + old(State()).readLane)
    {
      var x := EntityAt(e);
      RaiseReadFlag(e);
      ok := readQueue.PushFront(e);
      if !ok {
        SetEntity(e, x);
      }
    }

    method PushReadBack(e: nat) returns (ok: bool)
      requires Valid()
      modifies Repr()
      ensures Valid() && SameStores()
      ensures ok <==> |old(State()).readLane| != |c.entities|
      ensures !ok ==> State() == old(State())
      ensures ok ==> State() == Put(old(State()), e, Get(old(State()), e).(readQueued := true))
                                  .(readLane := old(State()).readLane + [e])
    {
      var x := EntityAt(e);
      RaiseReadFlag(e);
      ok := readQueue.PushBack(e);
      if !ok {
        SetEntity(e, x);
      }
    }

    /** An already queued read moves to the head of its lane. */
    method PromoteRead(e: nat)
      requires Valid()
      modifies readQueue.slots
      ensures Valid() && SameStores()
      ensures State() == old(State()).(readLane := MoveFirst(old(State()).readLane, e))
    {
      var found := readQueue.MoveToFront(e);
    }

    method RequestPriorityRead(e: nat) returns (ok: bool)
      requires Valid()
      modifies Repr()
      ensures Valid() && SameStores()
      ensures Asked(State(), ok) == HubModel.RequestPriorityRead(c, old(State()), e)
    {
      if EntityAt(e).readQueued {
        PromoteRead(e);
        return true;
      }
      ok := PushReadFront(e);
    }

    method Control(e: nat, payload: seq<byte>)
      requires Valid()
      modifies Repr()
      ensures Valid() && SameStores()
      ensures State() == External(c, old(State()), HubModel.Control(e, payload))
    {
      if Stageable(payload) {
        SetEntity(e, EntityAt(e).(staged := payload));
        var ok := RequestWrite(e);
      }
    }

    method QueueRaw(r: RawOp)
      requires Valid()
      modifies Repr()
      ensures Valid() && SameStores()
      ensures State() == External(c, old(State()), HubModel.QueueRaw(r))
    {
      if RawAccepted(c, r) {
        var ok := rawQueue.PushBack(r);
      }
    }

    method RefreshAll(now: u32)
      requires Valid()
      modifies this`entities, this`lastRefreshMs
      ensures Valid()
      ensures State() == External(c, old(State()), HubModel.RefreshAll(now))
    {
      if lastRefreshMs != 0 && Wrap32(now - lastRefreshMs) < REFRESH_ALL_MIN_INTERVAL_MS {
        return;
      }
      lastRefreshMs := now;
      ghost var was := entities;
      var i := 0;
      while i < |entities|
        invariant 0 <= i <= |entities| == |was| && lastRefreshMs == now && Valid()
        invariant forall j :: 0 <= j < |was| ==>
          entities[j] == if j < i && WantsPolling(c, j) then was[j].(nextDue := 0) else was[j]
      {
        if WantsPolling(c, i) {
          entities := entities[i := entities[i].(nextDue := 0)];
        }
        i := i + 1;
      }
      assert entities == MarkDue(c, old(State())).ent;
    }

    method ScheduleOne(now: u32, e: nat)
      requires Valid()
      modifies Repr()
      ensures Valid() && SameStores()
      ensures State() == HubModel.ScheduleOne(c, old(State()), now, e)
    {
      var x := EntityAt(e);
      if !WantsPolling(c, e) || x.readQueued {
        return;
      }
      var decision := PollStep(now, x.nextDue, Of(c, e).pollInterval, c.hubInterval / 2);
      if !decision.due {
        return;
      }
      var ok := PushReadBack(e);
      // The deadline advances only after the push went through.
      if ok && Of(c, e).pollInterval != 0 {
        SetEntity(e, EntityAt(e).(nextDue := decision.nextDue));
      }
    }

    method ScheduleDueEntities(now: u32)
      requires Valid()
      modifies Repr()
      ensures Valid() && SameStores()
      ensures State() == ScheduleBelow(c, old(State()), now, |c.entities|)
    {
      var e := 0;
      while e < |c.entities|
        invariant 0 <= e <= |c.entities| && Valid() && SameStores()
        invariant State() == ScheduleBelow(c, old(State()), now, e)
      {
        ScheduleOne(now, e);
        e := e + 1;
      }
    }

    method StartSync(source: TimeSource)
      requires Valid() && source.Source?
      modifies Repr()
      ensures Valid() && SameStores()
      ensures State() == HubModel.StartSync(c, old(State()), source)
    {
      if c.clock.None? || source.now.None? {
        return;
      }
      var ok := RequestPriorityRead(c.clock.value.id);
      if ok {
        clock := clock.(phase := Reading);
      }
    }

    method ArmSync(now: u32)
      requires Valid() && c.clock.Some?
      modifies this`clock
      ensures Valid()
      ensures State() == old(State()).(clock := old(clock).(didBoot := true,
                                                           nextSync := Wrap32(now + c.clock.value.config.interval)))
    {
      clock := clock.(didBoot := true, nextSync := Wrap32(now + c.clock.value.config.interval));
    }

    /** Whether a tick at `now` is due: the first synced one, and then one per interval. */
    predicate SyncDue(now: u32, source: TimeSource)
      requires c.clock.Some? && source.Source?
      reads this
    {
      if !clock.didBoot then source.synced && source.now.Some?
      else c.clock.value.config.interval != 0 && Signed32(now - clock.nextSync) >= 0
    }

    method Tick(now: u32, source: TimeSource)
      requires Valid()
      modifies Repr()
      ensures Valid() && SameStores()
      ensures State() == HubModel.Tick(c, old(State()), now, source)
    {
      if c.clock.None? || source.NoSource? || clock.phase != Idle {
        return;
      }
      if !SyncDue(now, source) {
        return;
      }
      var start := clock.didBoot || c.clock.value.config.syncOnBoot;
      ArmSync(now);
      if start {
        StartSync(source);
      }
    }

    method Update(now: u32, source: TimeSource)
      requires Valid()
      modifies Repr()
      ensures Valid() && SameStores()
      ensures State() == External(c, old(State()), HubModel.Update(now, source))
    {
      Tick(now, source);
      ScheduleDueEntities(now);
    }

    method Serve(r: Request)
      requires Valid()
      modifies Repr()
      ensures Valid() && SameStores()
      ensures State() == External(c, old(State()), r)
    {
      match r
      case Control(e, payload) => Control(e, payload);
      case Press(e) => var ok := RequestWrite(e);
      case QueueRaw(op) => QueueRaw(op);
      case RefreshAll(now) => RefreshAll(now);
      case Update(now, source) => Update(now, source);
    }

    /** The automations a publish triggers, one after the other. */
    method RunHandlers(reqs: seq<Request>)
      requires Valid()
      modifies Repr()
      ensures Valid() && SameStores()
      ensures State() == Handlers(c, old(State()), reqs)
    {
      var i := 0;
      while i < |reqs|
        invariant 0 <= i <= |reqs| && Valid() && SameStores()
        invariant State() == Handlers(c, old(State()), reqs[..i])
      {
        Serve(reqs[i]);
        assert reqs[..i + 1][..i] == reqs[..i];
        i := i + 1;
      }
      assert reqs[..|reqs|] == reqs;
    }

    // --- entity callbacks ------------------------------------------------------------------------

    method SetPhase(phase: Phase)
      requires Valid()
      modifies this`clock
      ensures Valid() && State() == HubModel.SetPhase(old(State()), phase)
    {
      clock := clock.(phase := phase);
    }

    /** Stage the clock's block and queue it; the chain goes on only when it was queued. */
    method ClockWrite(k: nat, payload: seq<byte>)
      requires Valid()
      modifies Repr()
      ensures Valid() && SameStores()
      ensures var a := HubModel.RequestWrite(c, Stage(old(State()), k, payload), k);
              State() == if a.ok then HubModel.SetPhase(a.hub, Writing) else a.hub
    {
      SetEntity(k, EntityAt(k).(staged := payload));
      var ok := RequestWrite(k);
      if ok {
        SetPhase(Writing);
      }
    }

    method EndChain(learned: Option<DeviceClock.WeekdayBase>)
      requires Valid()
      modifies this`clock
      ensures Valid() && State() == old(State()).(clock := old(clock).(phase := Idle, learned := learned))
    {
      clock := clock.(phase := Idle, learned := learned);
    }

    /** Idle on every path but the one that queues the write. */
    method ClockRead(data: seq<byte>, source: TimeSource)
      requires Valid()
      modifies Repr()
      ensures Valid() && SameStores()
      ensures State() == HubModel.ClockRead(c, old(State()), data, source)
    {
      if c.clock.None? || source.NoSource? {
        SetPhase(Idle);
        return;
      }
      var d := DeviceClock.Decide(c.clock.value.config, clock.learned, ToInts(data), source.now);
      EndChain(d.learned);
      if d.payload.Some? {
        ClockWrite(c.clock.value.id, ToBytes(d.payload.value));
      }
    }

    method HandleResponse(e: nat, data: seq<byte>, source: TimeSource, reqs: seq<Request>)
      requires Valid()
      modifies Repr()
      ensures Valid() && SameStores()
      ensures State() == HubModel.HandleResponse(c, old(State()), e, data, source, reqs)
    {
      if !IsClock(c, e) {
        RunHandlers(reqs);
      } else {
        match clock.phase
        case Reading => ClockRead(data, source);
        case Verifying => clock := clock.(phase := Idle);
        case _ =>
      }
    }

    method HandleFailure(e: nat, reqs: seq<Request>)
      requires Valid()
      modifies Repr()
      ensures Valid() && SameStores()
      ensures State() == HubModel.HandleFailure(c, old(State()), e, reqs)
    {
      if IsClock(c, e) {
        clock := clock.(phase := Idle);
      } else {
        RunHandlers(reqs);
      }
    }

    method HandleWriteResponse(e: nat, reqs: seq<Request>)
      requires Valid()
      modifies Repr()
      ensures Valid() && SameStores()
      ensures State() == HubModel.HandleWriteResponse(c, old(State()), e, reqs)
    {
      if IsClock(c, e) {
        clock := clock.(phase := Verifying);
      } else {
        RunHandlers(reqs);
      }
    }

    method IdentAdvance(full: bool, reqs: seq<Request>)
      requires Valid()
      modifies Repr()
      ensures Valid() && SameStores()
      ensures State() == HubModel.IdentAdvance(c, old(State()), full, reqs)
    {
      var was := ident;
      ident := IdentNext(c.protocol, ident, full);
      if ident.IdentDone? && !was.IdentDone? {
        RunHandlers(reqs);
      }
    }

    // --- dispatch --------------------------------------------------------------------------------

    method ArmWatchdog(now: u32, telegrams: nat)
      requires Valid()
      modifies this`startedMs, this`watchdogMs
      ensures Valid() && State() == Arm(old(State()), now, telegrams)
    {
      startedMs, watchdogMs := now, WatchdogBudget(telegrams);
    }

    method RmwAbort(e: nat, reqs: seq<Request>)
      requires Valid()
      modifies Repr()
      ensures Valid() && SameStores()
      ensures State() == HubModel.RmwAbort(c, old(State()), e, reqs)
    {
      SetEntity(e, EntityAt(e).(writeInFlight := false));
      HandleFailure(e, reqs);
    }

    method TakeOff(e: nat, was: OpType, now: u32, telegrams: nat)
      requires Valid()
      modifies this`inFlight, this`op, this`startedMs, this`watchdogMs
      ensures Valid() && State() == Arm(Fly(old(State()), e, was), now, telegrams)
    {
      inFlight, op := Some(e), was;
      ArmWatchdog(now, telegrams);
    }

    method LaunchMerged(e: nat, now: u32)
      requires Valid() && rmwPending == Some(e)
      modifies this
      ensures Valid()
      ensures State() == Arm(Fly(old(State()), e, WriteOp), now, 1)
                           .(rmwPending := None, verify := Some(e), verifyBuf := old(rmwBuf))
    {
      TakeOff(e, WriteOp, now, 1);
      rmwPending, verify, verifyBuf := None, Some(e), rmwBuf;
    }

    method DropMerged(e: nat, reqs: seq<Request>)
      requires Valid()
      modifies Repr()
      ensures Valid() && SameStores()
      ensures State() == HubModel.RmwAbort(c, old(State()).(rmwPending := None), e, reqs)
    {
      rmwPending := None;
      RmwAbort(e, reqs);
    }

    method DispatchMerged(now: u32, v: Verdict, reqs: seq<Request>) returns (sent: Option<Telegram>)
      requires Valid() && rmwPending.Some?
      modifies Repr()
      ensures Valid() && SameStores()
      ensures Sent(State(), sent) == HubModel.DispatchMerged(c, old(State()), now, v, reqs)
    {
      var e := rmwPending.value;
      var w := Of(c, e);
      match Offer(WriteAvailable(c.protocol, w.space), v)
      case Busy =>
        // Stay armed: nothing else reaches the bus until the merged write is out.
        return None;
      case Never =>
        DropMerged(e, reqs);
        return None;
      case Taken =>
        LaunchMerged(e, now);
        return Some(Telegram(MergedWrite(e), w.space, w.writeAddr, |rmwBuf|, rmwBuf));
    }

    method DispatchIdent(now: u32, v: Verdict, reqs: seq<Request>) returns (sent: Option<Telegram>)
      requires Valid()
      modifies Repr()
      ensures Valid() && SameStores()
      ensures Sent(State(), sent) == HubModel.DispatchIdent(c, old(State()), now, v, reqs)
    {
      match v
      case Busy => return None;
      case Never =>
        IdentAdvance(false, reqs);
        return None;
      case Taken =>
        identInFlight := true;
        ArmWatchdog(now, 1);
        var space := if c.protocol == GWG then GWG_VIRTUAL else OWN;
        return Some(Telegram(IdentRead, space, IdentAddr(ident), IdentLen(ident), []));
    }

    /** Look at the head raw operation, and take it off the lane unless it stays for a retry. */
    method NoteRaw(keep: bool) returns (r: RawOp)
      requires Valid() && rawQueue.Contents() != []
      modifies this`rawAddr, rawQueue
      ensures Valid() && SameStores() && r == old(State()).rawLane[0]
      ensures State() == old(State()).(rawAddr := r.addr,
                                       rawLane := if keep then old(State()).rawLane else old(State()).rawLane[1..])
    {
      var front := rawQueue.TryFront();
      r := front.value;
      rawAddr := r.addr;
      var result := rawQueue.ConsumeFrontIf(_ => !keep);
    }

    method LaunchRaw(r: RawOp, now: u32)
      requires Valid()
      modifies this
      ensures Valid()
      ensures State() == Arm(old(State()).(rawInFlight := true, lastSpace := RawSpace(c, r)), now, RawTelegrams(c, r))
    {
      rawInFlight, lastSpace := true, RawSpace(c, r);
      ArmWatchdog(now, RawTelegrams(c, r));
    }

    method DispatchRaw(now: u32, v: Verdict, reqs: seq<Request>) returns (sent: Option<Telegram>)
      requires Valid() && rawQueue.Contents() != []
      modifies Repr()
      ensures Valid() && SameStores()
      ensures Sent(State(), sent) == HubModel.DispatchRaw(c, old(State()), now, v, reqs)
    {
      var front := rawQueue.TryFront();
      var answer := Offer(RawAvailable(c, front.value), v);
      var r := NoteRaw(answer.Busy?);
      match answer
      case Busy => return None;
      case Never =>
        // Reported only here, after the lane's lock is released.
        RunHandlers(reqs);
        return None;
      case Taken =>
        LaunchRaw(r, now);
        return Some(Telegram(RawTelegram(r.layer, r.isWrite), r.space, r.addr, r.length, r.bytes));
    }

    /** Take the head write off the lane, flying or dropped. */
    method LeaveWriteLane(e: nat, flying: bool)
      requires Valid() && writeQueue.Contents() != [] && e == writeQueue.Contents()[0]
      modifies this`entities, writeQueue
      ensures Valid() && SameStores()
      ensures !flying ==> State() == DropWrite(old(State()), e)
      ensures flying ==>
        State() == Put(old(State()), e, Get(old(State()), e).(writeQueued := false, writeInFlight := true))
                                    .(writeLane := old(State()).writeLane[1..])
    {
      var x := EntityAt(e);
      SetEntity(e, x.(writeQueued := false, writeInFlight := x.writeInFlight || flying));
      var result := writeQueue.ConsumeFrontIf(_ => true);
    }

    method LaunchWrite(e: nat, was: OpType, now: u32, telegrams: nat)
      requires Valid() && writeQueue.Contents() != [] && e == writeQueue.Contents()[0]
      modifies this, writeQueue
      ensures Valid() && SameStores()
      ensures State() == Arm(HubModel.LaunchWrite(old(State()), e, was), now, telegrams)
    {
      LeaveWriteLane(e, true);
      TakeOff(e, was, now, telegrams);
    }

    /** A write that is given up, with the entity told. */
    method GiveUpWrite(e: nat, reqs: seq<Request>)
      requires Valid() && writeQueue.Contents() != [] && e == writeQueue.Contents()[0]
      modifies Repr()
      ensures Valid() && SameStores()
      ensures State() == HubModel.HandleFailure(c, DropWrite(old(State()), e), e, reqs)
    {
      LeaveWriteLane(e, false);
      HandleFailure(e, reqs);
    }

    method DispatchRmwRead(e: nat, now: u32, v: Verdict, reqs: seq<Request>) returns (sent: Option<Telegram>)
      requires Valid() && writeQueue.Contents() != [] && e == writeQueue.Contents()[0] && NeedsRmw(c, e)
      modifies Repr()
      ensures Valid() && SameStores()
      ensures Sent(State(), sent) == HubModel.DispatchWrite(c, old(State()), now, v, reqs)
    {
      var w := Of(c, e);
      if w.writeLen == 0 || w.writeLen > MAX_RMW_BLOCK {
        GiveUpWrite(e, reqs);
        return None;
      }
      match Offer(Available(c.protocol, w.space), v)
      case Busy => return None;
      case Never =>
        LeaveWriteLane(e, false);
        return None;
      case Taken =>
        LaunchWrite(e, RmwReadOp, now, ReadTelegramCount(c.protocol, w.space, w.writeLen));
        return Some(Telegram(RmwRead(e), w.space, w.writeAddr, w.writeLen, []));
    }

    method DispatchPlainWrite(e: nat, now: u32, v: Verdict, reqs: seq<Request>) returns (sent: Option<Telegram>)
      requires Valid() && writeQueue.Contents() != [] && e == writeQueue.Contents()[0] && !NeedsRmw(c, e)
      modifies Repr()
      ensures Valid() && SameStores()
      ensures Sent(State(), sent) == HubModel.DispatchWrite(c, old(State()), now, v, reqs)
    {
      var w, staged := Of(c, e), EntityAt(e).staged;
      match Offer(WriteAvailable(c.protocol, w.space), v)
      case Busy => return None;
      case Never =>
        LeaveWriteLane(e, false);
        return None;
      case Taken =>
        LaunchWrite(e, WriteOp, now, 1);
        lastSpace := w.space;
        return Some(Telegram(PlainWrite(e), w.space, w.writeAddr, |staged|, staged));
    }

    method DispatchWrite(now: u32, v: Verdict, reqs: seq<Request>) returns (sent: Option<Telegram>)
      requires Valid() && writeQueue.Contents() != []
      modifies Repr()
      ensures Valid() && SameStores()
      ensures Sent(State(), sent) == HubModel.DispatchWrite(c, old(State()), now, v, reqs)
    {
      var front := writeQueue.TryFront();
      if NeedsRmw(c, front.value) {
        sent := DispatchRmwRead(front.value, now, v, reqs);
      } else {
        sent := DispatchPlainWrite(front.value, now, v, reqs);
      }
    }

    /** Where reaching a space costs a switch, the next read in the same space goes first. */
    method FavourLastSpace()
      requires Valid()
      modifies readQueue.slots
      ensures Valid() && SameStores()
      ensures State() == old(State()).(readLane := AffineLane(c, old(State())))
    {
      if HasSwitchCost(c.protocol, lastSpace) {
        var space, config := lastSpace, c;
        var found := readQueue.MoveFirstToFrontIf((e: nat) => Of(config, e).space == space);
      }
    }

    /** Take the head read off the lane; its flag stays up while it flies. */
    method LeaveReadLane(e: nat, flying: bool)
      requires Valid() && readQueue.Contents() != [] && e == readQueue.Contents()[0]
      modifies this`entities, readQueue
      ensures Valid() && SameStores()
      ensures var rest := old(State()).(readLane := old(State()).readLane[1..]);
              State() == if flying then rest else Put(rest, e, Get(rest, e).(readQueued := false))
    {
      var result := readQueue.ConsumeFrontIf(_ => true);
      if !flying {
        SetEntity(e, EntityAt(e).(readQueued := false));
      }
    }

    method LaunchRead(e: nat, now: u32)
      requires Valid() && readQueue.Contents() != [] && e == readQueue.Contents()[0]
      modifies this, readQueue
      ensures Valid() && SameStores()
      ensures State() == Arm(Fly(old(State()).(readLane := old(State()).readLane[1..]), e, ReadOp), now,
                             ReadTelegramCount(c.protocol, Of(c, e).space, Of(c, e).readLen))
                           .(lastSpace := Of(c, e).space)
    {
      LeaveReadLane(e, true);
      TakeOff(e, ReadOp, now, ReadTelegramCount(c.protocol, Of(c, e).space, Of(c, e).readLen));
      lastSpace := Of(c, e).space;
    }

    method DispatchRead(now: u32, v: Verdict) returns (sent: Option<Telegram>)
      requires Valid()
      modifies Repr()
      ensures Valid() && SameStores()
      ensures Sent(State(), sent) == HubModel.DispatchRead(c, old(State()), now, v)
    {
      FavourLastSpace();
      var front := readQueue.TryFront();
      if front.None? {
        return None;
      }
      var e := front.value;
      match Offer(Available(c.protocol, Of(c, e).space), v)
      case Busy => return None;
      case Never =>
        LeaveReadLane(e, false);
        return None;
      case Taken =>
        LaunchRead(e, now);
        return Some(Telegram(PollRead(e), Of(c, e).space, Of(c, e).readAddr, Of(c, e).readLen, []));
    }

    method DispatchLanes(now: u32, v: Verdict, reqs: seq<Request>) returns (sent: Option<Telegram>)
      requires Valid()
      modifies Repr()
      ensures Valid() && SameStores()
      ensures Sent(State(), sent) == HubModel.DispatchLanes(c, old(State()), now, v, reqs)
    {
      var raw := rawQueue.TryFront();
      if raw.Some? {
        sent := DispatchRaw(now, v, reqs);
        return;
      }
      var write := writeQueue.TryFront();
      if write.Some? {
        sent := DispatchWrite(now, v, reqs);
        return;
      }
      sent := DispatchRead(now, v);
    }

    method DispatchNext(now: u32, v: Verdict, reqs: seq<Request>) returns (sent: Option<Telegram>)
      requires Valid()
      modifies Repr()
      ensures Valid() && SameStores()
      ensures Sent(State(), sent) == Dispatch(c, old(State()), now, v, reqs)
    {
      if inFlight.Some? || identInFlight || rawInFlight {
        return None;
      }
      if rmwPending.Some? {
        sent := DispatchMerged(now, v, reqs);
      } else if !ident.IdentIdle? && !ident.IdentDone? {
        sent := DispatchIdent(now, v, reqs);
      } else {
        sent := DispatchLanes(now, v, reqs);
      }
    }

    // --- completion --------------------------------------------------------------------------------

    method DropVerify(e: nat)
      requires Valid()
      modifies this`verify
      ensures Valid() && State() == HubModel.DropVerify(old(State()), e)
    {
      if verify == Some(e) {
        verify := None;
      }
    }

    method FailOp(e: nat, was: OpType, reqs: seq<Request>)
      requires Valid()
      modifies Repr()
      ensures Valid() && SameStores()
      ensures State() == HubModel.FailOp(c, old(State()), e, was, reqs)
    {
      match was
      case ReadOp =>
        DropVerify(e);
        SetEntity(e, EntityAt(e).(readQueued := false));
        HandleFailure(e, reqs);
      case WriteOp =>
        DropVerify(e);
        SetEntity(e, EntityAt(e).(writeInFlight := false));
        HandleFailure(e, reqs);
      case RmwReadOp => RmwAbort(e, reqs);
      case NoOp =>
    }

    method RmwHandleRead(e: nat, data: seq<byte>, unserved: bool, reqs: seq<Request>)
      requires Valid()
      modifies Repr()
      ensures Valid() && SameStores()
      ensures State() == HubModel.RmwHandleRead(c, old(State()), e, data, unserved, reqs)
    {
      var len, width, staged := Of(c, e).writeLen, FieldWidth(c, e), EntityAt(e).staged;
      if |data| < len || len > MAX_RMW_BLOCK || |staged| < width || (c.protocol == GWG && unserved) {
        RmwAbort(e, reqs);
      } else {
        RmwMerge(e, MergeBlock(data[..len], FieldOffset(c, e), width, Of(c, e).mask, staged), reqs);
      }
    }

    method RmwMerge(e: nat, merged: Option<seq<byte>>, reqs: seq<Request>)
      requires Valid()
      modifies Repr()
      ensures Valid() && SameStores()
      ensures merged.None? ==> State() == HubModel.RmwAbort(c, old(State()), e, reqs)
      ensures merged.Some? ==> State() == old(State()).(rmwPending := Some(e), rmwBuf := merged.value)
    {
      if merged.None? {
        RmwAbort(e, reqs);
      } else {
        rmwBuf, rmwPending := merged.value, Some(e);
      }
    }

    method RefreshSiblings(writer: nat)
      requires Valid()
      modifies Repr()
      ensures Valid() && SameStores()
      ensures State() == RefreshBelow(c, old(State()), writer, |c.entities|)
    {
      var e := 0;
      while e < |c.entities|
        invariant 0 <= e <= |c.entities| && Valid() && SameStores()
        invariant State() == RefreshBelow(c, old(State()), writer, e)
      {
        if Sibling(c, writer, e) {
          var ok := RequestPriorityRead(e);
        }
        e := e + 1;
      }
    }

    method ReadBacks(e: nat)
      requires Valid()
      modifies Repr()
      ensures Valid() && SameStores()
      ensures State() == HubModel.ReadBacks(c, old(State()), e)
    {
      if !Of(c, e).readBack {
        DropVerify(e);
      }
      RefreshSiblings(e);
      if Of(c, e).readBack {
        var ok := RequestPriorityRead(e);
      }
    }

    method Acknowledge(e: nat, reqs: seq<Request>)
      requires Valid()
      modifies Repr()
      ensures Valid() && SameStores()
      ensures State() == HubModel.Acknowledge(c, old(State()), e, reqs)
    {
      SetEntity(e, EntityAt(e).(writeInFlight := false));
      if EntityAt(e).writeQueued {
        // This acknowledgement belongs to an older payload than the one staged now.
        DropVerify(e);
        return;
      }
      HandleWriteResponse(e, reqs);
      ReadBacks(e);
    }

    method ReadDone(e: nat, data: seq<byte>, source: TimeSource, reqs: seq<Request>)
      requires Valid()
      modifies Repr()
      ensures Valid() && SameStores()
      ensures State() == HubModel.ReadDone(c, old(State()), e, data, source, reqs)
    {
      SetEntity(e, EntityAt(e).(readQueued := false));
      DropVerify(e);
      HandleResponse(e, data, source, reqs);
    }

    method IdentLanded(full: bool, reqs: seq<Request>)
      requires Valid()
      modifies Repr()
      ensures Valid() && SameStores()
      ensures State() == HubModel.IdentAdvance(c, old(State()).(identInFlight := false), full, reqs)
    {
      identInFlight := false;
      IdentAdvance(full, reqs);
    }

    method RawLanded(reqs: seq<Request>)
      requires Valid()
      modifies Repr()
      ensures Valid() && SameStores()
      ensures State() == Handlers(c, old(State()).(rawInFlight := false), reqs)
    {
      rawInFlight := false;
      RunHandlers(reqs);
    }

    method ClearSlot()
      requires Valid()
      modifies this`inFlight, this`op
      ensures Valid() && State() == FreeSlot(old(State()))
    {
      inFlight, op := None, NoOp;
    }

    method EntityAnswered(e: nat, was: OpType, addr: nat, data: seq<byte>, unserved: bool,
                          source: TimeSource, reqs: seq<Request>)
      requires Valid()
      modifies Repr()
      ensures Valid() && SameStores()
      ensures State() == HubModel.EntityAnswered(c, old(State()), e, was, addr, data, unserved, source, reqs)
    {
      if addr != ExpectedAddr(c, e, was) {
        FailOp(e, was, reqs);
        return;
      }
      match was
      case RmwReadOp => RmwHandleRead(e, data, unserved, reqs);
      case WriteOp => Acknowledge(e, reqs);
      case ReadOp => ReadDone(e, data, source, reqs);
      case NoOp =>
    }

    method OnResponse(addr: nat, data: seq<byte>, unserved: bool, source: TimeSource, reqs: seq<Request>)
      requires Valid()
      modifies Repr()
      ensures Valid() && SameStores()
      ensures State() == Respond(c, old(State()), addr, data, unserved, source, reqs)
    {
      if identInFlight {
        IdentLanded(addr == IdentAddr(ident) && |data| >= 4, reqs);
      } else if rawInFlight {
        RawLanded(reqs);
      } else {
        var owner, was := inFlight, op;
        ClearSlot();
        if owner.Some? {
          EntityAnswered(owner.value, was, addr, data, unserved, source, reqs);
        }
      }
    }

    method OnError(reqs: seq<Request>)
      requires Valid()
      modifies Repr()
      ensures Valid() && SameStores()
      ensures State() == Fail(c, old(State()), reqs)
    {
      if identInFlight {
        IdentLanded(false, reqs);
      } else if rawInFlight {
        RawLanded(reqs);
      } else {
        var owner, was := inFlight, op;
        ClearSlot();
        if owner.Some? {
          FailOp(owner.value, was, reqs);
        }
      }
    }

    /** Both flags of an entity found in flight without an operation type. */
    method ClearFlags(e: nat)
      requires Valid()
      modifies this
      ensures Valid() && State() == EndWrite(EndRead(FreeSlot(old(State())), e), e)
    {
      ClearSlot();
      SetEntity(e, EntityAt(e).(readQueued := false, writeInFlight := false));
    }

    method CheckWatchdog(now: u32, reqs: seq<Request>)
      requires Valid()
      modifies Repr()
      ensures Valid() && SameStores()
      ensures State() == Watchdog(c, old(State()), now, reqs)
    {
      if inFlight.None? && !identInFlight && !rawInFlight {
        return;
      }
      if Wrap32(now - startedMs) <= watchdogMs {
        return;
      }
      if inFlight.Some? && !identInFlight && !rawInFlight && op.NoOp? {
        ClearFlags(inFlight.value);
      } else {
        OnError(reqs);
      }
    }

    /** One pass of the main loop: the watchdog, then one offer to the engine. */
    method Loop(now: u32, lost: seq<Request>, v: Verdict, reqs: seq<Request>) returns (sent: Option<Telegram>)
      requires Valid()
      modifies Repr()
      ensures Valid() && SameStores()
      ensures Sent(State(), sent) == Dispatch(c, Watchdog(c, old(State()), now, lost), now, v, reqs)
    {
      CheckWatchdog(now, lost);
      sent := DispatchNext(now, v, reqs);
    }
  }
}
