/**
 The hub together with what it talks to: the telegrams the engine accepted, in order, and
 the memory of the device. A run is a sequence of events; the engine and the device choose
 freely within what `Enabled` allows.
 */
module HubWorld {
  import opened Basics
  import opened AddressSpaces
  import opened BitFields
  import opened HubModel
  import opened HubInvariants

  // --- device memory --------------------------------------------------------------------------

  datatype Loc = Loc(space: Space, addr: nat)

  type Memory = m: imap<Loc, byte> | forall l: Loc :: l in m
    ghost witness imap l: Loc :: 0

  ghost function ReadBlock(m: Memory, space: Space, addr: nat, len: nat): (r: seq<byte>)
    ensures |r| == len
  {
    seq(len, i requires 0 <= i < len => m[Loc(space, addr + i)])
  }

  ghost predicate Covers(l: Loc, space: Space, addr: nat, len: nat) {
    l.space == space && addr <= l.addr < addr + len
  }

  ghost function WriteBlock(m: Memory, space: Space, addr: nat, data: seq<byte>): Memory {
    imap l: Loc :: if Covers(l, space, addr, |data|) then data[l.addr - addr] else m[l]
  }

  ghost function WriteBits(m: Memory, at: Loc, mask: byte, field: byte): Memory {
    imap l: Loc :: if l == at then (m[l] & !mask) | (Unshifted(field, mask) & mask) else m[l]
  }

  /** The pure update of one entity's field: no other byte, and no other bit of a masked byte, moves. */
  ghost function FieldUpdate(c: Config, m: Memory, e: nat, field: seq<byte>): Memory
    requires |field| >= FieldWidth(c, e) > 0
  {
    var w, at := Of(c, e), Of(c, e).writeAddr + FieldOffset(c, e);
    if w.mask == 0 then WriteBlock(m, w.space, at, field[..FieldWidth(c, e)])
    else WriteBits(m, Loc(w.space, at), w.mask, field[0])
  }

  // --- the bus --------------------------------------------------------------------------------------

  datatype Outcome = Pending | Answered(addr: nat, data: seq<byte>) | Failed | Lost

  /**
   One accepted telegram: the payload it was merged from, how it ended, whether the device
   took it, and what a telegram with unknown semantics did to memory.
   */
  datatype Entry = Entry(telegram: Telegram, field: seq<byte>, outcome: Outcome, took: bool, effect: imap<Loc, byte>)

  /** Procedure calls and generic raw telegrams may do anything to memory. */
  predicate OpaqueTelegram(t: Telegram) {
    t.space.RPC? || (t.kind.RawTelegram? && !t.kind.layer.NoLayer?)
  }

  predicate IsWrite(t: Telegram) {
    t.kind.PlainWrite? || t.kind.MergedWrite? || (t.kind.RawTelegram? && t.kind.isWrite)
  }

  /** What the device does with a finished telegram: it stores the bytes it was sent. */
  ghost function Apply(m: Memory, x: Entry): Memory {
    if !x.took then m
    else if OpaqueTelegram(x.telegram) then imap l: Loc :: if l in x.effect then x.effect[l] else m[l]
    else if IsWrite(x.telegram) then WriteBlock(m, x.telegram.space, x.telegram.addr, x.telegram.bytes)
    else m
  }

  // --- the world --------------------------------------------------------------------------------------

  /**
   `field` is the payload the armed merge took, `owed` the entities whose newest staged
   payload has neither been sent, merged, nor dropped, `chainWrites` the clock writes of
   the present sync chain.
   */
  datatype World = World(hub: Hub, trace: seq<Entry>, mem: Memory, field: seq<byte>, owed: set<nat>, chainWrites: nat)

  predicate BusBusy(w: World) {
    w.trace != [] && w.trace[|w.trace| - 1].outcome.Pending?
  }

  datatype Event =
    | Ask(r: Request)
    | Offering(now: u32, v: Verdict, reqs: seq<Request>)
    | Guard(now: u32, reqs: seq<Request>)
    | Answer(addr: nat, data: seq<byte>, took: bool, effect: imap<Loc, byte>, unserved: bool,
             source: TimeSource, reqs: seq<Request>)
    | Error(took: bool, effect: imap<Loc, byte>, reqs: seq<Request>)
    | Silence(took: bool, effect: imap<Loc, byte>)

  /**
   The engine takes a telegram only while idle and calls back at most once for it, about
   the latest one. A read before a write is answered with what the device holds, and an
   acknowledged write has been taken.
   */
  ghost predicate Enabled(c: Config, w: World, ev: Event) {
    match ev
    case Ask(r) => ValidRequest(c, r)
    case Offering(_, v, reqs) => ValidRequests(c, reqs) && (BusBusy(w) ==> v.Busy?)
    case Guard(_, reqs) => ValidRequests(c, reqs)
    case Answer(addr, data, took, _, _, _, reqs) =>
      && ValidRequests(c, reqs) && BusBusy(w)
      && var t := w.trace[|w.trace| - 1].telegram;
         (addr == t.addr ==>
            && (t.kind.RmwRead? && |data| >= t.len ==> data[..t.len] == ReadBlock(w.mem, t.space, t.addr, t.len))
            && (IsWrite(t) ==> took))
    case Error(_, _, reqs) => ValidRequests(c, reqs) && BusBusy(w)
    case Silence(_, _) => BusBusy(w)
  }

  /** The entities a list of requests stages a new payload for. */
  function Owing(reqs: seq<Request>): set<nat> {
    set r | r in reqs && r.Control? && Stageable(r.payload) :: r.e
  }

  predicate WriteTurn(h: Hub) {
    && SlotFree(h) && h.rmwPending.None? && (h.ident.IdentIdle? || h.ident.IdentDone?)
    && h.rawLane == [] && h.writeLane != []
  }

  /** The write at the head of the lane is given up: no usable block length, or no telegram for it. */
  predicate HeadDropped(c: Config, h: Hub, v: Verdict) {
    WriteTurn(h) &&
    var w := Of(c, h.writeLane[0]);
    if NeedsRmw(c, h.writeLane[0])
    then w.writeLen == 0 || w.writeLen > MAX_RMW_BLOCK || Offer(Available(c.protocol, w.space), v).Never?
    else Offer(WriteAvailable(c.protocol, w.space), v).Never?
  }

  predicate HeadSentPlain(c: Config, h: Hub, v: Verdict) {
    WriteTurn(h) && !NeedsRmw(c, h.writeLane[0])
    && Offer(WriteAvailable(c.protocol, Of(c, h.writeLane[0]).space), v).Taken?
  }

  /** Who stops owing when the engine is offered a write: a plain one that was sent, or one that was dropped. */
  function Released(c: Config, h: Hub, v: Verdict): set<nat> {
    if HeadDropped(c, h, v) || HeadSentPlain(c, h, v) then {h.writeLane[0]} else {}
  }

  /**
   The automations an offer ran: those of a refused merge, raw operation or block, or of a
   finished identification.
   */
  function RanOffer(c: Config, h: Hub, v: Verdict, reqs: seq<Request>): seq<Request> {
    var ran :=
      if !SlotFree(h) then false
      else if h.rmwPending.Some? then Offer(WriteAvailable(c.protocol, Of(c, h.rmwPending.value).space), v).Never?
                                      && !IsClock(c, h.rmwPending.value)
      else if !h.ident.IdentIdle? && !h.ident.IdentDone? then
        v.Never? && IdentNext(c.protocol, h.ident, false).IdentDone?
      else if h.rawLane != [] then Offer(RawAvailable(c, h.rawLane[0]), v).Never?
      else
        h.writeLane != [] && NeedsRmw(c, h.writeLane[0]) && !IsClock(c, h.writeLane[0])
        && (Of(c, h.writeLane[0]).writeLen == 0 || Of(c, h.writeLane[0]).writeLen > MAX_RMW_BLOCK);
    if ran then reqs else []
  }

  /** The automations the end of an operation ran; `r` is the hub after it, `answered` for an answer about it. */
  function RanEnd(c: Config, h: Hub, r: Hub, answered: bool, reqs: seq<Request>): seq<Request> {
    var ran :=
      if h.identInFlight then r.ident.IdentDone?
      else if h.rawInFlight then true
      else if h.inFlight.None? || IsClock(c, h.inFlight.value) then false
      else match h.op
        case RmwReadOp => r.rmwPending.None?
        case WriteOp => !(answered && Get(h, h.inFlight.value).writeQueued)
        case ReadOp => true
        case NoOp => false;
    if ran then reqs else []
  }

  /** Who stops owing when the slot is freed: a payload merged, or dropped with no newer one queued. */
  function Settled(h: Hub, r: Hub): set<nat> {
    if h.inFlight.Some? && h.op == RmwReadOp && (r.rmwPending == h.inFlight || !Get(h, h.inFlight.value).writeQueued)
    then {h.inFlight.value} else {}
  }

  /** The payload of an armed merge is the staging buffer as the merge found it. */
  function MergedFrom(w: World, r: Hub): seq<byte> {
    if w.hub.inFlight.Some? && w.hub.op == RmwReadOp && r.rmwPending == w.hub.inFlight
    then Get(w.hub, w.hub.inFlight.value).staged else w.field
  }

  function ChainAfter(c: Config, w: World, r: Hub, sent: Option<Telegram>): nat {
    (if r.clock.phase == Reading && w.hub.clock.phase != Reading then 0 else w.chainWrites)
    + (if c.clock.Some? && sent.Some? && sent.value.kind == PlainWrite(c.clock.value.id) then 1 else 0)
  }

  ghost function Ended(w: World, outcome: Outcome, took: bool, effect: imap<Loc, byte>): Entry
    requires BusBusy(w)
  {
    w.trace[|w.trace| - 1].(outcome := outcome, took := took, effect := effect)
  }

  /** The telegram on the bus ends; the hub moves to `r`. */
  ghost function Finish(c: Config, w: World, x: Entry, r: Hub, owed: set<nat>): World
    requires BusBusy(w)
  {
    World(r, w.trace[..|w.trace| - 1] + [x], Apply(w.mem, x), MergedFrom(w, r), owed, ChainAfter(c, w, r, None))
  }

  ghost function Step(c: Config, w: World, ev: Event): World
    requires Enabled(c, w, ev)
  {
    match ev
    case Ask(r) =>
      var h := External(c, w.hub, r);
      w.(hub := h, owed := w.owed + Owing([r]), chainWrites := ChainAfter(c, w, h, None))
    case Offering(now, v, reqs) =>
      var s := Dispatch(c, w.hub, now, v, reqs);
      var added := if s.telegram.None? then []
                   else [Entry(s.telegram.value, if s.telegram.value.kind.MergedWrite? then w.field else [],
                               Pending, false, imap[])];
      w.(hub := s.hub, trace := w.trace + added,
         owed := w.owed - Released(c, w.hub, v) + Owing(RanOffer(c, w.hub, v, reqs)),
         chainWrites := ChainAfter(c, w, s.hub, s.telegram))
    case Guard(now, reqs) =>
      var h := Watchdog(c, w.hub, now, reqs);
      if !Expired(w.hub, now) then w
      else w.(hub := h, owed := w.owed - Settled(w.hub, h) + Owing(RanEnd(c, w.hub, h, false, reqs)),
              chainWrites := ChainAfter(c, w, h, None))
    case Answer(addr, data, took, effect, unserved, source, reqs) =>
      var h := Respond(c, w.hub, addr, data, unserved, source, reqs);
      var answered := w.hub.inFlight.Some? && addr == ExpectedAddr(c, w.hub.inFlight.value, w.hub.op);
      Finish(c, w, Ended(w, Answered(addr, data), took, effect), h,
             w.owed - Settled(w.hub, h) + Owing(RanEnd(c, w.hub, h, answered, reqs)))
    case Error(took, effect, reqs) =>
      var h := Fail(c, w.hub, reqs);
      Finish(c, w, Ended(w, Failed, took, effect), h,
             w.owed - Settled(w.hub, h) + Owing(RanEnd(c, w.hub, h, false, reqs)))
    case Silence(took, effect) =>
      Finish(c, w, Ended(w, Lost, took, effect), w.hub, w.owed)
  }

  ghost function Boot(c: Config, identify: bool, mem: Memory): World {
    World(Start(c, identify), [], mem, [], {}, 0)
  }

  // --- runs ----------------------------------------------------------------------------------------------

  /** Each event is enabled in the world the events before it lead to. */
  ghost predicate ValidRun(c: Config, w: World, evs: seq<Event>)
    decreases |evs|
  {
    evs == [] || (Enabled(c, w, evs[0]) && ValidRun(c, Step(c, w, evs[0]), evs[1..]))
  }

  ghost function Run(c: Config, w: World, evs: seq<Event>): World
    requires ValidRun(c, w, evs)
    decreases |evs|
  {
    if evs == [] then w else Run(c, Step(c, w, evs[0]), evs[1..])
  }

  /** Every event keeps lanes, flags and slot in agreement. */
  lemma StepInv(c: Config, w: World, ev: Event)
    requires ValidConfig(c) && Inv(c, w.hub) && Enabled(c, w, ev)
    ensures Inv(c, Step(c, w, ev).hub)
  {
    match ev
    case Ask(r) => ExternalInv(c, w.hub, r);
    case Offering(now, v, reqs) => DispatchInv(c, w.hub, now, v, reqs);
    case Guard(now, reqs) => WatchdogInv(c, w.hub, now, reqs);
    case Answer(addr, data, _, _, unserved, source, reqs) =>
      RespondInv(c, w.hub, addr, data, unserved, source, reqs);
    case Error(_, _, reqs) => FailInv(c, w.hub, reqs);
    case Silence(_, _) =>
  }
}
