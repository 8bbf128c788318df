/**
 The hub as a step function: three lanes, identification, one in-flight slot, the
 read-modify-write stage, the watchdog, and the clock that rides the entity lanes.
 The class in Hub.dfy refines these functions; the invariants are proved about them.
 */
module HubModel {
  import opened Basics
  import opened AddressSpaces
  import opened BitFields
  import opened RingBuffers
  import opened PollSchedule
  import DeviceClock

  const WRITE_BUF_LEN: nat := 8
  const REFRESH_ALL_MIN_INTERVAL_MS: nat := 5000

  // --- configuration -------------------------------------------------------------------

  datatype EntityConfig = EntityConfig(
    readAddr: nat, readLen: nat, writeAddr: nat, writeLen: nat, space: Space,
    mask: byte, blockOffset: nat, blockWidth: nat, readBack: bool, polled: bool, pollInterval: u32)

  datatype ClockSetup = ClockSetup(id: nat, config: DeviceClock.ClockConfig)

  datatype Config = Config(protocol: Protocol, entities: seq<EntityConfig>, hubInterval: u32,
                           rawCapacity: nat, clock: Option<ClockSetup>)

  const NO_ENTITY := EntityConfig(0, 1, 0, 1, OWN, 0, 0, 0, false, false, POLL_NEVER)

  function Of(c: Config, e: nat): EntityConfig {
    if e < |c.entities| then c.entities[e] else NO_ENTITY
  }

  predicate IsClock(c: Config, e: nat) {
    c.clock.Some? && c.clock.value.id == e
  }

  /** Whether the poll rotation includes the entity: the clock drives itself, an action button is never read. */
  predicate WantsPolling(c: Config, e: nat) {
    Of(c, e).polled && !IsClock(c, e)
  }

  predicate NeedsRmw(c: Config, e: nat) {
    Of(c, e).mask != 0 || Of(c, e).blockWidth != 0
  }

  function FieldOffset(c: Config, e: nat): nat {
    if Of(c, e).blockWidth != 0 then Of(c, e).blockOffset else 0
  }

  function FieldWidth(c: Config, e: nat): nat {
    if Of(c, e).blockWidth != 0 then Of(c, e).blockWidth else 1
  }

  /**
   What registration and the configuration guarantee: the clock is a registered entity
   with one 8-byte register in the protocol's own space, and a read-modify-write entity
   lives in a space that has a write telegram.
   */
  predicate ValidConfig(c: Config) {
    && (c.clock.Some? ==>
          var k := c.clock.value.id;
          && k < |c.entities|
          && Of(c, k).mask == 0 && Of(c, k).blockWidth == 0 && Of(c, k).readBack && Of(c, k).space == OWN)
    && (forall e :: 0 <= e < |c.entities| && NeedsRmw(c, e) ==> !Of(c, e).space.RPC?)
  }

  // --- state ---------------------------------------------------------------------------

  /** The hub's bookkeeping and the staging buffer of one entity. */
  datatype Entity = Entity(staged: seq<byte>, nextDue: u32, readQueued: bool, writeQueued: bool, writeInFlight: bool)

  const BLANK := Entity([], 0, false, false, false)

  datatype OpType = NoOp | ReadOp | WriteOp | RmwReadOp

  datatype IdentState = IdentIdle | Read4 | ReadF8 | ReadF9 | ReadFA | ReadFB | ReadGFA | ReadF0 | IdentDone

  datatype Layer = NoLayer | LayerP300 | LayerKW | LayerGWG

  datatype RawOp = RawOp(addr: nat, length: nat, isWrite: bool, bytes: seq<byte>, space: Space, layer: Layer, code: u8)

  datatype Phase = Idle | Reading | Writing | Verifying

  datatype ClockState = ClockState(phase: Phase, didBoot: bool, nextSync: u32, learned: Option<DeviceClock.WeekdayBase>)

  datatype Hub = Hub(
    ent: seq<Entity>,
    readLane: seq<nat>, writeLane: seq<nat>, rawLane: seq<RawOp>,
    inFlight: Option<nat>, op: OpType, identInFlight: bool, rawInFlight: bool,
    startedMs: u32, watchdogMs: u32,
    rmwPending: Option<nat>, rmwBuf: seq<byte>,
    verify: Option<nat>, verifyBuf: seq<byte>,
    ident: IdentState, rawAddr: nat, lastSpace: Space,
    clock: ClockState, lastRefreshMs: u32)

  function Get(h: Hub, e: nat): Entity {
    if e < |h.ent| then h.ent[e] else BLANK
  }

  function Put(h: Hub, e: nat, x: Entity): Hub {
    if e < |h.ent| then h.(ent := h.ent[e := x]) else h
  }

  predicate SlotFree(h: Hub) {
    h.inFlight.None? && !h.identInFlight && !h.rawInFlight
  }

  // --- requests --------------------------------------------------------------------------

  datatype TimeSource = NoSource | Source(synced: bool, now: Option<DeviceClock.EspTime>)

  /** Everything that reaches the hub from outside the bus, from automations included. */
  datatype Request =
    | Control(e: nat, payload: seq<byte>)
    | Press(e: nat)
    | QueueRaw(op: RawOp)
    | RefreshAll(now: u32)
    | Update(now: u32, source: TimeSource)

  /** Nobody but the clock itself stages or writes the clock. */
  predicate ValidRequest(c: Config, r: Request) {
    match r
    case Control(e, _) => e < |c.entities| && !IsClock(c, e)
    case Press(e) => e < |c.entities| && !IsClock(c, e)
    case _ => true
  }

  datatype Asked = Asked(hub: Hub, ok: bool)

  function RequestWrite(c: Config, h: Hub, e: nat): Asked {
    var x := Get(h, e);
    if |x.staged| == 0 && !Of(c, e).space.RPC? then Asked(h, false)
    else if x.writeQueued then Asked(h, true)
    else if |h.writeLane| == |c.entities| then Asked(h, false)
    else Asked(Put(h, e, x.(writeQueued := true)).(writeLane := h.writeLane + [e]), true)
  }

  function RequestPriorityRead(c: Config, h: Hub, e: nat): Asked {
    var x := Get(h, e);
    if x.readQueued then Asked(h.(readLane := MoveFirst(h.readLane, e)), true)
    else if |h.readLane| == |c.entities| then Asked(h, false)
    else Asked(Put(h, e, x.(readQueued := true)).(readLane := [e] + h.readLane), true)
  }

  predicate Stageable(payload: seq<byte>) {
    0 < |payload| <= WRITE_BUF_LEN
  }

  function Stage(h: Hub, e: nat, payload: seq<byte>): Hub {
    Put(h, e, Get(h, e).(staged := payload))
  }

  function ScheduleOne(c: Config, h: Hub, now: u32, e: nat): Hub {
    var x := Get(h, e);
    if !WantsPolling(c, e) || x.readQueued then h
    else
      var decision := PollStep(now, x.nextDue, Of(c, e).pollInterval, c.hubInterval / 2);
      if !decision.due || |h.readLane| == |c.entities| then h
      else
        var due := if Of(c, e).pollInterval != 0 then decision.nextDue else x.nextDue;
        Put(h, e, x.(readQueued := true, nextDue := due)).(readLane := h.readLane + [e])
  }

  /** The scheduler's pass over the entities below `n`. */
  function ScheduleBelow(c: Config, h: Hub, now: u32, n: nat): Hub {
    if n == 0 then h else ScheduleOne(c, ScheduleBelow(c, h, now, n - 1), now, n - 1)
  }

  function StartSync(c: Config, h: Hub, source: TimeSource): Hub
    requires source.Source?
  {
    if c.clock.None? || source.now.None? then h
    else
      var a := RequestPriorityRead(c, h, c.clock.value.id);
      if a.ok then a.hub.(clock := a.hub.clock.(phase := Reading)) else a.hub
  }

  function Tick(c: Config, h: Hub, now: u32, source: TimeSource): Hub {
    if c.clock.None? || source.NoSource? || h.clock.phase != Idle then h
    else
      var interval := c.clock.value.config.interval;
      var armed := h.(clock := h.clock.(didBoot := true, nextSync := Wrap32(now + interval)));
      if !h.clock.didBoot then
        if !source.synced || source.now.None? then h
        else if !c.clock.value.config.syncOnBoot then armed
        else StartSync(c, armed, source)
      else if interval == 0 || Signed32(now - h.clock.nextSync) < 0 then h
      else StartSync(c, armed, source)
  }

  function MarkDue(c: Config, h: Hub): Hub {
    h.(ent := seq(|h.ent|, i requires 0 <= i < |h.ent| =>
      if WantsPolling(c, i) then h.ent[i].(nextDue := 0) else h.ent[i]))
  }

  predicate IsCall(r: RawOp) {
    r.space.RPC? || (r.layer.LayerP300? && r.code == 7)
  }

  predicate LayerAvailable(p: Protocol, l: Layer) {
    match l
    case NoLayer => false
    case LayerP300 => p == P300
    case LayerKW => p != GWG
    case LayerGWG => p == GWG
  }

  const RAW_WRITE_MAX: nat := 32

  predicate RawAccepted(c: Config, r: RawOp) {
    && (r.length != 0 || IsCall(r))
    && |r.bytes| <= RAW_WRITE_MAX
    && (r.layer.NoLayer? ==> Available(c.protocol, r.space) && (r.isWrite ==> Writable(c.protocol, r.space)))
    && (if IsCall(r) && !r.isWrite then |r.bytes| == r.length
        else if r.isWrite then |r.bytes| == r.length && r.length != 0
        else |r.bytes| == 0)
  }

  function External(c: Config, h: Hub, r: Request): Hub {
    match r
    case Control(e, payload) => if Stageable(payload) then RequestWrite(c, Stage(h, e, payload), e).hub else h
    case Press(e) => RequestWrite(c, h, e).hub
    case QueueRaw(op) =>
      if !RawAccepted(c, op) || |h.rawLane| == c.rawCapacity then h else h.(rawLane := h.rawLane + [op])
    case RefreshAll(now) =>
      if h.lastRefreshMs != 0 && Wrap32(now - h.lastRefreshMs) < REFRESH_ALL_MIN_INTERVAL_MS then h
      else MarkDue(c, h).(lastRefreshMs := now)
    case Update(now, source) => ScheduleBelow(c, Tick(c, h, now, source), now, |c.entities|)
  }

  /** What automations triggered by a publish ask for, in order. */
  function Handlers(c: Config, h: Hub, reqs: seq<Request>): Hub {
    if reqs == [] then h else External(c, Handlers(c, h, reqs[..|reqs| - 1]), reqs[|reqs| - 1])
  }

  // --- entity callbacks --------------------------------------------------------------------

  function SetPhase(h: Hub, phase: Phase): Hub {
    h.(clock := h.clock.(phase := phase))
  }

  /** The read that opens a sync: idle on every path but the one that queues the write. */
  function ClockRead(c: Config, h: Hub, data: seq<byte>, source: TimeSource): Hub {
    if c.clock.None? || source.NoSource? then SetPhase(h, Idle)
    else
      var k := c.clock.value.id;
      var d := DeviceClock.Decide(c.clock.value.config, h.clock.learned, ToInts(data), source.now);
      var idle := h.(clock := h.clock.(phase := Idle, learned := d.learned));
      if d.payload.None? then idle
      else
        var a := RequestWrite(c, Stage(idle, k, ToBytes(d.payload.value)), k);
        if a.ok then SetPhase(a.hub, Writing) else a.hub
  }

  function HandleResponse(c: Config, h: Hub, e: nat, data: seq<byte>, source: TimeSource, reqs: seq<Request>): Hub {
    if !IsClock(c, e) then Handlers(c, h, reqs)
    else if h.clock.phase == Reading then ClockRead(c, h, data, source)
    else if h.clock.phase == Verifying then SetPhase(h, Idle)
    else h
  }

  /** A failed read or a failed write: the clock gives its chain up. */
  function HandleFailure(c: Config, h: Hub, e: nat, reqs: seq<Request>): Hub {
    if IsClock(c, e) then SetPhase(h, Idle) else Handlers(c, h, reqs)
  }

  function HandleWriteResponse(c: Config, h: Hub, e: nat, reqs: seq<Request>): Hub {
    if IsClock(c, e) then SetPhase(h, Verifying) else Handlers(c, h, reqs)
  }

  // --- identification ------------------------------------------------------------------------

  function IdentAddr(s: IdentState): nat {
    match s
    case ReadF9 => 0xF9
    case ReadFA => 0xFA
    case ReadFB => 0xFB
    case ReadGFA => 0x7650
    case ReadF0 => 0xF0
    case _ => 0xF8
  }

  function IdentLen(s: IdentState): nat {
    match s
    case Read4 => 4
    case ReadF0 => 2
    case _ => 1
  }

  /** The step after this one; `full` when the 4-byte read answered all four bytes. */
  function IdentNext(p: Protocol, s: IdentState, full: bool): IdentState {
    var afterSw := if p == GWG then IdentDone else ReadGFA;
    match s
    case Read4 => if full then afterSw else ReadF8
    case ReadF8 => ReadF9
    case ReadF9 => ReadFA
    case ReadFA => ReadFB
    case ReadFB => afterSw
    case ReadGFA => ReadF0
    case ReadF0 => IdentDone
    case _ => s
  }

  /** Finishing publishes the result, and so may run automations. */
  function IdentAdvance(c: Config, h: Hub, full: bool, reqs: seq<Request>): Hub {
    var next := IdentNext(c.protocol, h.ident, full);
    var moved := h.(ident := next);
    if next.IdentDone? && !h.ident.IdentDone? then Handlers(c, moved, reqs) else moved
  }

  // --- dispatch ----------------------------------------------------------------------------

  /** The engine's answer to a telegram: taken, busy now, or never. */
  datatype Verdict = Taken | Busy | Never

  datatype Kind = IdentRead | RawTelegram(layer: Layer, isWrite: bool) | PollRead(e: nat) | RmwRead(e: nat)
                | PlainWrite(e: nat) | MergedWrite(e: nat)

  datatype Telegram = Telegram(kind: Kind, space: Space, addr: nat, len: nat, bytes: seq<byte>)

  datatype Sent = Sent(hub: Hub, telegram: Option<Telegram>)

  /** A space the protocol lacks is refused while the engine is idle, so permanently. */
  function Offer(available: bool, v: Verdict): Verdict {
    if available || v.Busy? then v else Never
  }

  predicate WriteAvailable(p: Protocol, s: Space) {
    Available(p, s) && (s.RPC? || Writable(p, s))
  }

  predicate RawAvailable(c: Config, r: RawOp) {
    if !r.layer.NoLayer? then LayerAvailable(c.protocol, r.layer)
    else if r.isWrite then WriteAvailable(c.protocol, r.space)
    else Available(c.protocol, r.space)
  }

  function Arm(h: Hub, now: u32, telegrams: nat): Hub {
    h.(startedMs := now, watchdogMs := WatchdogBudget(telegrams))
  }

  function Fly(h: Hub, e: nat, op: OpType): Hub {
    h.(inFlight := Some(e), op := op)
  }

  function EndWrite(h: Hub, e: nat): Hub {
    Put(h, e, Get(h, e).(writeInFlight := false))
  }

  function RmwAbort(c: Config, h: Hub, e: nat, reqs: seq<Request>): Hub {
    HandleFailure(c, EndWrite(h, e), e, reqs)
  }

  function DispatchMerged(c: Config, h: Hub, now: u32, v: Verdict, reqs: seq<Request>): Sent
    requires h.rmwPending.Some?
  {
    var e := h.rmwPending.value;
    var w := Of(c, e);
    match Offer(WriteAvailable(c.protocol, w.space), v)
    case Busy => Sent(h, None)
    case Never => Sent(RmwAbort(c, h.(rmwPending := None), e, reqs), None)
    case Taken =>
      Sent(Arm(Fly(h, e, WriteOp), now, 1).(rmwPending := None, verify := Some(e), verifyBuf := h.rmwBuf),
           Some(Telegram(MergedWrite(e), w.space, w.writeAddr, |h.rmwBuf|, h.rmwBuf)))
  }

  function DispatchIdent(c: Config, h: Hub, now: u32, v: Verdict, reqs: seq<Request>): Sent {
    var space := if c.protocol == GWG then GWG_VIRTUAL else OWN;
    match v
    case Busy => Sent(h, None)
    case Never => Sent(IdentAdvance(c, h, false, reqs), None)
    case Taken =>
      Sent(Arm(h.(identInFlight := true), now, 1),
           Some(Telegram(IdentRead, space, IdentAddr(h.ident), IdentLen(h.ident), [])))
  }

  /** A KW telegram over P300 rides the same detour as a GFA read. */
  function RawSpace(c: Config, r: RawOp): Space {
    if r.layer.LayerKW? && HasSwitchCost(c.protocol, GFA) then GFA else r.space
  }

  function RawTelegrams(c: Config, r: RawOp): nat {
    if r.isWrite then 1
    else ReadTelegramCount(c.protocol, if r.layer.LayerGWG? && r.code == 0xAE then GWG_EEPROM else r.space, r.length)
  }

  function DispatchRaw(c: Config, h: Hub, now: u32, v: Verdict, reqs: seq<Request>): Sent
    requires h.rawLane != []
  {
    var r := h.rawLane[0];
    var noted := h.(rawAddr := r.addr);
    var rest := noted.(rawLane := h.rawLane[1..]);
    match Offer(RawAvailable(c, r), v)
    case Busy => Sent(noted, None)
    case Never => Sent(Handlers(c, rest, reqs), None)
    case Taken =>
      Sent(Arm(rest.(rawInFlight := true, lastSpace := RawSpace(c, r)), now, RawTelegrams(c, r)),
           Some(Telegram(RawTelegram(r.layer, r.isWrite), r.space, r.addr, r.length, r.bytes)))
  }

  /** The write left the lane without being sent. */
  function DropWrite(h: Hub, e: nat): Hub
    requires h.writeLane != []
  {
    Put(h, e, Get(h, e).(writeQueued := false)).(writeLane := h.writeLane[1..])
  }

  function LaunchWrite(h: Hub, e: nat, op: OpType): Hub
    requires h.writeLane != []
  {
    Fly(Put(h, e, Get(h, e).(writeQueued := false, writeInFlight := true)).(writeLane := h.writeLane[1..]), e, op)
  }

  function DispatchWrite(c: Config, h: Hub, now: u32, v: Verdict, reqs: seq<Request>): Sent
    requires h.writeLane != []
  {
    var e := h.writeLane[0];
    var w := Of(c, e);
    if NeedsRmw(c, e) then
      if w.writeLen == 0 || w.writeLen > MAX_RMW_BLOCK then
        Sent(HandleFailure(c, DropWrite(h, e), e, reqs), None)
      else
        match Offer(Available(c.protocol, w.space), v)
        case Busy => Sent(h, None)
        case Never => Sent(DropWrite(h, e), None)
        case Taken =>
          Sent(Arm(LaunchWrite(h, e, RmwReadOp), now, ReadTelegramCount(c.protocol, w.space, w.writeLen)),
               Some(Telegram(RmwRead(e), w.space, w.writeAddr, w.writeLen, [])))
    else
      match Offer(WriteAvailable(c.protocol, w.space), v)
      case Busy => Sent(h, None)
      case Never => Sent(DropWrite(h, e), None)
      case Taken =>
        Sent(Arm(LaunchWrite(h, e, WriteOp).(lastSpace := w.space), now, 1),
             Some(Telegram(PlainWrite(e), w.space, w.writeAddr, |Get(h, e).staged|, Get(h, e).staged)))
  }

  /** The read lane with the first read of the space last used moved up, where switching costs. */
  function AffineLane(c: Config, h: Hub): seq<nat> {
    if HasSwitchCost(c.protocol, h.lastSpace)
    then MoveFirstIf(h.readLane, e => Of(c, e).space == h.lastSpace)
    else h.readLane
  }

  function DispatchRead(c: Config, h: Hub, now: u32, v: Verdict): Sent {
    var lane := AffineLane(c, h);
    var moved := h.(readLane := lane);
    if lane == [] then Sent(moved, None)
    else
      var e := lane[0];
      var r := Of(c, e);
      var rest := h.(readLane := lane[1..]);
      match Offer(Available(c.protocol, r.space), v)
      case Busy => Sent(moved, None)
      case Never => Sent(Put(rest, e, Get(h, e).(readQueued := false)), None)
      case Taken =>
        Sent(Arm(Fly(rest, e, ReadOp), now, ReadTelegramCount(c.protocol, r.space, r.readLen)).(lastSpace := r.space),
             Some(Telegram(PollRead(e), r.space, r.readAddr, r.readLen, [])))
  }

  function Dispatch(c: Config, h: Hub, now: u32, v: Verdict, reqs: seq<Request>): Sent {
    if !SlotFree(h) then Sent(h, None)
    else if h.rmwPending.Some? then DispatchMerged(c, h, now, v, reqs)
    else if !h.ident.IdentIdle? && !h.ident.IdentDone? then DispatchIdent(c, h, now, v, reqs)
    else DispatchLanes(c, h, now, v, reqs)
  }

  /** Raw operations first, then writes, then reads. */
  function DispatchLanes(c: Config, h: Hub, now: u32, v: Verdict, reqs: seq<Request>): Sent {
    if h.rawLane != [] then DispatchRaw(c, h, now, v, reqs)
    else if h.writeLane != [] then DispatchWrite(c, h, now, v, reqs)
    else DispatchRead(c, h, now, v)
  }

  // --- completion ----------------------------------------------------------------------------

  /** A read-back that is lost or refused must never be checked against a later poll. */
  function DropVerify(h: Hub, e: nat): Hub {
    if h.verify == Some(e) then h.(verify := None) else h
  }

  function EndRead(h: Hub, e: nat): Hub {
    Put(h, e, Get(h, e).(readQueued := false))
  }

  /** An entity operation that did not succeed; the slot is already free. */
  function FailOp(c: Config, h: Hub, e: nat, op: OpType, reqs: seq<Request>): Hub {
    match op
    case ReadOp => HandleFailure(c, EndRead(DropVerify(h, e), e), e, reqs)
    case WriteOp => HandleFailure(c, EndWrite(DropVerify(h, e), e), e, reqs)
    case RmwReadOp => RmwAbort(c, h, e, reqs)
    case NoOp => h
  }

  function RmwHandleRead(c: Config, h: Hub, e: nat, data: seq<byte>, unserved: bool, reqs: seq<Request>): Hub {
    var len, width := Of(c, e).writeLen, FieldWidth(c, e);
    if |data| < len || len > MAX_RMW_BLOCK || |Get(h, e).staged| < width then RmwAbort(c, h, e, reqs)
    else if c.protocol == GWG && unserved then RmwAbort(c, h, e, reqs)
    else
      var merged := MergeBlock(data[..len], FieldOffset(c, e), width, Of(c, e).mask, Get(h, e).staged);
      if merged.None? then RmwAbort(c, h, e, reqs)
      else h.(rmwPending := Some(e), rmwBuf := merged.value)
  }

  predicate Sibling(c: Config, writer: nat, e: nat) {
    && e != writer && WantsPolling(c, e)
    && Of(c, e).readAddr == Of(c, writer).writeAddr
    && Of(c, e).space == Of(c, writer).space && !Of(c, e).space.RPC?
  }

  function RefreshBelow(c: Config, h: Hub, writer: nat, n: nat): Hub {
    if n == 0 then h
    else
      var before := RefreshBelow(c, h, writer, n - 1);
      if Sibling(c, writer, n - 1) then RequestPriorityRead(c, before, n - 1).hub else before
  }

  /** The read-backs an acknowledged write asks for: siblings first, the writer in front of them. */
  function ReadBacks(c: Config, h: Hub, e: nat): Hub {
    var checked := if !Of(c, e).readBack then DropVerify(h, e) else h;
    var siblings := RefreshBelow(c, checked, e, |c.entities|);
    if Of(c, e).readBack then RequestPriorityRead(c, siblings, e).hub else siblings
  }

  function Acknowledge(c: Config, h: Hub, e: nat, reqs: seq<Request>): Hub {
    var ended := EndWrite(h, e);
    if Get(ended, e).writeQueued then DropVerify(ended, e)
    else ReadBacks(c, HandleWriteResponse(c, ended, e, reqs), e)
  }

  function ReadDone(c: Config, h: Hub, e: nat, data: seq<byte>, source: TimeSource, reqs: seq<Request>): Hub {
    HandleResponse(c, DropVerify(EndRead(h, e), e), e, data, source, reqs)
  }

  function ExpectedAddr(c: Config, e: nat, op: OpType): nat {
    if op.WriteOp? || op.RmwReadOp? then Of(c, e).writeAddr else Of(c, e).readAddr
  }

  function FreeSlot(h: Hub): Hub {
    h.(inFlight := None, op := NoOp)
  }

  /** A null payload and an empty one are treated alike everywhere, so both are []. */
  function Respond(c: Config, h: Hub, addr: nat, data: seq<byte>, unserved: bool,
                   source: TimeSource, reqs: seq<Request>): Hub
  {
    if h.identInFlight then
      IdentAdvance(c, h.(identInFlight := false), addr == IdentAddr(h.ident) && |data| >= 4, reqs)
    else if h.rawInFlight then Handlers(c, h.(rawInFlight := false), reqs)
    else if h.inFlight.None? then FreeSlot(h)
    else
      var e, op, free := h.inFlight.value, h.op, FreeSlot(h);
      EntityAnswered(c, free, e, op, addr, data, unserved, source, reqs)
  }

  /** An answer for an entity operation, matched against the address that operation used. */
  function EntityAnswered(c: Config, h: Hub, e: nat, op: OpType, addr: nat, data: seq<byte>, unserved: bool,
                          source: TimeSource, reqs: seq<Request>): Hub
  {
    if addr != ExpectedAddr(c, e, op) then FailOp(c, h, e, op, reqs)
    else match op
      case RmwReadOp => RmwHandleRead(c, h, e, data, unserved, reqs)
      case WriteOp => Acknowledge(c, h, e, reqs)
      case ReadOp => ReadDone(c, h, e, data, source, reqs)
      case NoOp => h
  }

  function Fail(c: Config, h: Hub, reqs: seq<Request>): Hub {
    if h.identInFlight then IdentAdvance(c, h.(identInFlight := false), false, reqs)
    else if h.rawInFlight then Handlers(c, h.(rawInFlight := false), reqs)
    else if h.inFlight.None? then FreeSlot(h)
    else FailOp(c, FreeSlot(h), h.inFlight.value, h.op, reqs)
  }

  predicate Expired(h: Hub, now: u32) {
    !SlotFree(h) && Wrap32(now - h.startedMs) > h.watchdogMs
  }

  /** The last-resort guard: like an error, and it also clears the flags of an operation without a type. */
  function Watchdog(c: Config, h: Hub, now: u32, reqs: seq<Request>): Hub {
    if !Expired(h, now) then h
    else if h.inFlight.Some? && !h.identInFlight && !h.rawInFlight && h.op.NoOp? then
      EndWrite(EndRead(FreeSlot(h), h.inFlight.value), h.inFlight.value)
    else Fail(c, h, reqs)
  }

  // --- start -----------------------------------------------------------------------------------

  function Start(c: Config, identify: bool): Hub {
    Hub(seq(|c.entities|, _ => BLANK), [], [], [], None, NoOp, false, false, 0, WatchdogBudget(1),
        None, [], None, [], if identify then Read4 else IdentIdle, 0, OWN,
        ClockState(Idle, false, 0, None), 0)
  }
}
