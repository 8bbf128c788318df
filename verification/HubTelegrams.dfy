/**
 What goes over the bus: where each telegram goes and what it carries, which are sent, the
 space last used, and how long a lost one is waited for.
 */
module HubTelegrams {
  import opened Basics
  import opened AddressSpaces
  import opened BitFields
  import opened RingBuffers
  import opened HubModel
  import opened HubInvariants
  import opened HubWorld
  import opened HubBus
  import opened HubOrder
  import opened HubMerge

  // --- where a telegram goes -----------------------------------------------------------------------

  predicate HasReadTelegram(p: Protocol, s: Space) {
    match p
    case P300 => s in {OWN, GFA, RPC}
    case KW => s in {OWN, GFA}
    case GWG => s !in {GFA, RPC}
  }

  /** The register and space its entity is configured with, read at one address, written at the other. */
  predicate Addressed(c: Config, t: Telegram) {
    match t.kind
    case PollRead(e) =>
      && e < |c.entities| && t.space == c.entities[e].space && t.addr == c.entities[e].readAddr
      && t.len == c.entities[e].readLen && t.bytes == []
    case RmwRead(e) =>
      && e < |c.entities| && t.space == c.entities[e].space && t.addr == c.entities[e].writeAddr
      && t.len == c.entities[e].writeLen <= 16 && t.bytes == []
      && (c.entities[e].mask != 0 || c.entities[e].blockWidth != 0)
    case PlainWrite(e) =>
      && e < |c.entities| && t.space == c.entities[e].space && t.addr == c.entities[e].writeAddr
      && t.len == |t.bytes| && c.entities[e].mask == 0 && c.entities[e].blockWidth == 0
    case MergedWrite(e) =>
      && e < |c.entities| && t.space == c.entities[e].space && t.addr == c.entities[e].writeAddr && t.len == |t.bytes|
    case IdentRead => t.space == (if c.protocol == GWG then GWG_VIRTUAL else OWN) && t.bytes == []
    case RawTelegram(_, _) => true
  }

  predicate RawPossible(p: Protocol, r: RawOp) {
    match r.layer
    case LayerP300 => p == P300
    case LayerKW => p == P300 || p == KW
    case LayerGWG => p == GWG
    case NoLayer => if r.isWrite then HasWriteTelegram(p, r.space) else HasReadTelegram(p, r.space)
  }

  /**
   Which raw operations join the lane: at most 32 bytes; a write carries its bytes, a call its
   parameter or none, a read nothing but a length; and a plain one only where there is a
   telegram for it, so that it is not refused for good later.
   */
  lemma RawAcceptance(c: Config, r: RawOp)
    ensures RawAccepted(c, r) <==>
            && |r.bytes| <= 32
            && (r.layer == NoLayer ==> RawPossible(c.protocol, r) && !(r.isWrite && r.space == RPC))
            && (if r.isWrite then 1 <= |r.bytes| == r.length
                else if r.space == RPC || (r.layer == LayerP300 && r.code == 7) then |r.bytes| == r.length
                else r.bytes == [] && r.length >= 1)
  {}

  /** A raw operation as it was asked for. */
  function RawSent(r: RawOp): Telegram {
    Telegram(RawTelegram(r.layer, r.isWrite), r.space, r.addr, r.length, r.bytes)
  }

  // --- what is sent -------------------------------------------------------------------------------------

  /**
   What an engine that takes telegrams gets from a free slot: the first of the armed merge,
   identification, the raw lane, the write lane and the read lane that has something, and it
   gets nothing just when the protocol has no telegram for that.
   */
  predicate SendsFirst(c: Config, h: Hub, sent: Option<Telegram>) {
    if h.rmwPending.Some? then
      var e := h.rmwPending.value;
      && (sent.Some? <==> HasWriteTelegram(c.protocol, Of(c, e).space))
      && (sent.Some? ==> sent.value.kind == MergedWrite(e) && sent.value.bytes == h.rmwBuf)
    else if Identifying(h) then sent.Some? && sent.value.kind.IdentRead?
    else if h.rawLane != [] then
      sent == if RawPossible(c.protocol, h.rawLane[0]) then Some(RawSent(h.rawLane[0])) else None
    else if h.writeLane != [] then
      var e := h.writeLane[0];
      var w := Of(c, e);
      if w.mask != 0 || w.blockWidth != 0 then
        && (sent.Some? <==> 1 <= w.writeLen <= 16 && HasReadTelegram(c.protocol, w.space))
        && (sent.Some? ==> sent.value.kind == RmwRead(e))
      else
        && (sent.Some? <==> HasWriteTelegram(c.protocol, w.space))
        && (sent.Some? ==> sent.value.kind == PlainWrite(e) && sent.value.bytes == Get(h, e).staged)
    else if h.readLane != [] then
      var e := AffineLane(c, h)[0];
      && (sent.Some? <==> HasReadTelegram(c.protocol, Of(c, e).space))
      && (sent.Some? ==> sent.value.kind == PollRead(e))
    else sent.None?
  }

  lemma TakenIsSent(c: Config, h: Hub, now: u32, reqs: seq<Request>)
    requires Inv(c, h) && SlotFree(h)
    ensures h.readLane != [] ==> AffineLane(c, h) != []
    ensures SendsFirst(c, h, Dispatch(c, h, now, Taken, reqs).telegram)
  {
    MoveFirstIfKeepsMembers(h.readLane, e => Of(c, e).space == h.lastSpace);
  }

  lemma SentIsAddressed(c: Config, h: Hub, now: u32, v: Verdict, reqs: seq<Request>)
    requires Inv(c, h) && Dispatch(c, h, now, v, reqs).telegram.Some?
    ensures Addressed(c, Dispatch(c, h, now, v, reqs).telegram.value)
  {
    MoveFirstIfKeepsMembers(h.readLane, e => Of(c, e).space == h.lastSpace);
    if h.rmwPending.None? && !Identifying(h) && h.rawLane == [] {
      if h.writeLane != [] {
        assert h.writeLane[0] in h.writeLane;
      } else {
        assert AffineLane(c, h)[0] in AffineLane(c, h);
        assert AffineLane(c, h)[0] in h.readLane;
      }
    }
  }

  // --- the space last used ----------------------------------------------------------------------------------

  /** The space a telegram leaves the link in; a KW telegram over P300 counts as the detour it takes. */
  function Uses(c: Config, t: Telegram): Option<Space> {
    match t.kind
    case PollRead(_) => Some(t.space)
    case PlainWrite(_) => Some(t.space)
    case RawTelegram(layer, _) => Some(if layer == LayerKW && c.protocol == P300 then GFA else t.space)
    case _ => None
  }

  /** The space of the last poll, plain write or raw telegram. */
  function LastUsed(c: Config, trace: seq<Entry>): Space {
    if trace == [] then OWN
    else
      match Uses(c, trace[|trace| - 1].telegram)
      case Some(space) => space
      case None => LastUsed(c, trace[..|trace| - 1])
  }

  lemma {:induction false} ScheduleSpace(c: Config, h: Hub, now: u32, n: nat)
    ensures SameSlotData(h, ScheduleBelow(c, h, now, n))
  {
    if n > 0 { ScheduleSpace(c, h, now, n - 1); }
  }

  /** The space last used, and the time and budget of what is in flight. */
  predicate SameSlotData(h: Hub, r: Hub) {
    r.lastSpace == h.lastSpace && r.startedMs == h.startedMs && r.watchdogMs == h.watchdogMs
  }

  lemma ExternalSpace(c: Config, h: Hub, r: Request)
    ensures SameSlotData(h, External(c, h, r))
  {
    if r.Update? {
      TickSpace(c, h, r.now, r.source);
      ScheduleSpace(c, Tick(c, h, r.now, r.source), r.now, |c.entities|);
    }
  }

  lemma TickSpace(c: Config, h: Hub, now: u32, source: TimeSource)
    ensures SameSlotData(h, Tick(c, h, now, source))
  {}

  lemma {:induction false} HandlersSpace(c: Config, h: Hub, reqs: seq<Request>)
    ensures SameSlotData(h, Handlers(c, h, reqs))
  {
    if reqs != [] {
      HandlersSpace(c, h, reqs[..|reqs| - 1]);
      ExternalSpace(c, Handlers(c, h, reqs[..|reqs| - 1]), reqs[|reqs| - 1]);
    }
  }

  lemma CallbacksSpace(c: Config, h: Hub, e: nat, data: seq<byte>, source: TimeSource, reqs: seq<Request>)
    ensures SameSlotData(h, HandleResponse(c, h, e, data, source, reqs))
    ensures SameSlotData(h, HandleFailure(c, h, e, reqs))
    ensures SameSlotData(h, HandleWriteResponse(c, h, e, reqs))
  {
    HandlersSpace(c, h, reqs);
  }

  lemma {:induction false} RefreshSpace(c: Config, h: Hub, writer: nat, n: nat)
    ensures SameSlotData(h, RefreshBelow(c, h, writer, n))
  {
    if n > 0 { RefreshSpace(c, h, writer, n - 1); }
  }

  lemma ReadBacksSpace(c: Config, h: Hub, e: nat)
    ensures SameSlotData(h, ReadBacks(c, h, e))
  {
    RefreshSpace(c, if !Of(c, e).readBack then DropVerify(h, e) else h, e, |c.entities|);
  }

  lemma AcknowledgeSpace(c: Config, h: Hub, e: nat, reqs: seq<Request>)
    ensures SameSlotData(h, Acknowledge(c, h, e, reqs))
  {
    CallbacksSpace(c, EndWrite(h, e), e, [], NoSource, reqs);
    ReadBacksSpace(c, HandleWriteResponse(c, EndWrite(h, e), e, reqs), e);
  }

  lemma FailOpSpace(c: Config, h: Hub, e: nat, op: OpType, reqs: seq<Request>)
    ensures SameSlotData(h, FailOp(c, h, e, op, reqs))
  {
    match op
    case ReadOp => CallbacksSpace(c, EndRead(DropVerify(h, e), e), e, [], NoSource, reqs);
    case WriteOp => CallbacksSpace(c, EndWrite(DropVerify(h, e), e), e, [], NoSource, reqs);
    case RmwReadOp => CallbacksSpace(c, EndWrite(h, e), e, [], NoSource, reqs);
    case NoOp =>
  }

  lemma FailSpace(c: Config, h: Hub, reqs: seq<Request>)
    ensures SameSlotData(h, Fail(c, h, reqs))
  {
    HandlersSpace(c, h.(identInFlight := false, ident := IdentNext(c.protocol, h.ident, false)), reqs);
    HandlersSpace(c, h.(rawInFlight := false), reqs);
    if h.inFlight.Some? { FailOpSpace(c, FreeSlot(h), h.inFlight.value, h.op, reqs); }
  }

  lemma RespondSpace(c: Config, h: Hub, addr: nat, data: seq<byte>, unserved: bool, source: TimeSource,
                     reqs: seq<Request>)
    ensures SameSlotData(h, Respond(c, h, addr, data, unserved, source, reqs))
  {
    if h.identInFlight {
      var full := addr == IdentAddr(h.ident) && |data| >= 4;
      HandlersSpace(c, h.(identInFlight := false, ident := IdentNext(c.protocol, h.ident, full)), reqs);
    } else if h.rawInFlight {
      HandlersSpace(c, h.(rawInFlight := false), reqs);
    } else if h.inFlight.Some? {
      var e, free := h.inFlight.value, FreeSlot(h);
      FailOpSpace(c, free, e, h.op, reqs);
      if addr == ExpectedAddr(c, e, h.op) {
        match h.op
        case RmwReadOp => CallbacksSpace(c, EndWrite(free, e), e, [], NoSource, reqs);
        case WriteOp => AcknowledgeSpace(c, free, e, reqs);
        case ReadOp => CallbacksSpace(c, DropVerify(EndRead(free, e), e), e, data, source, reqs);
        case NoOp =>
      }
    }
  }

  // --- how long it is waited for ---------------------------------------------------------------------------

  /** Ten seconds a telegram; only a GWG EEPROM read of several bytes is more than one. */
  function Patience(c: Config, h: Hub, t: Telegram): u32 {
    var byCode := t.kind.RawTelegram? && h.rawLane != [] && h.rawLane[0].layer == LayerGWG && h.rawLane[0].code == 0xAE;
    var space := if byCode then GWG_EEPROM else t.space;
    var reads_ := t.kind.PollRead? || t.kind.RmwRead? || (t.kind.RawTelegram? && !t.kind.isWrite);
    if reads_ && c.protocol == GWG && space == GWG_EEPROM && t.len > 1 then Wrap32(10000 * t.len) else 10000
  }

  /** What the hub notes of a telegram it sends: when, how long to wait, and the space. */
  predicate Noted(c: Config, h: Hub, s: Sent, now: u32) {
    match s.telegram
    case None => SameSlotData(h, s.hub)
    case Some(t) =>
      && s.hub.startedMs == now && s.hub.watchdogMs == Patience(c, h, t)
      && s.hub.lastSpace == if Uses(c, t).Some? then Uses(c, t).value else h.lastSpace
  }

  lemma OfferNotes(c: Config, h: Hub, now: u32, v: Verdict, reqs: seq<Request>)
    requires Inv(c, h)
    ensures Noted(c, h, Dispatch(c, h, now, v, reqs), now)
  {
    if SlotFree(h) {
      if h.rmwPending.Some? {
        CallbacksSpace(c, EndWrite(h.(rmwPending := None), h.rmwPending.value), h.rmwPending.value, [], NoSource, reqs);
      } else if Identifying(h) {
        HandlersSpace(c, h.(ident := IdentNext(c.protocol, h.ident, false)), reqs);
      } else if h.rawLane != [] {
        RawNotes(c, h, now, v, reqs);
      } else if h.writeLane != [] {
        WriteNotes(c, h, now, v, reqs);
      }
    }
  }

  lemma RawNotes(c: Config, h: Hub, now: u32, v: Verdict, reqs: seq<Request>)
    requires h.rawLane != []
    ensures Noted(c, h, DispatchRaw(c, h, now, v, reqs), now)
  {
    HandlersSpace(c, h.(rawAddr := h.rawLane[0].addr, rawLane := h.rawLane[1..]), reqs);
  }

  lemma WriteNotes(c: Config, h: Hub, now: u32, v: Verdict, reqs: seq<Request>)
    requires Inv(c, h) && SlotFree(h) && h.rmwPending.None? && !Identifying(h) && h.rawLane == [] && h.writeLane != []
    ensures Noted(c, h, DispatchWrite(c, h, now, v, reqs), now)
  {
    CallbacksSpace(c, DropWrite(h, h.writeLane[0]), h.writeLane[0], [], NoSource, reqs);
  }

  // --- over runs -------------------------------------------------------------------------------------------

  ghost predicate BusInv(c: Config, w: World) {
    && Inv(c, w.hub) && w.hub.lastSpace == LastUsed(c, w.trace)
    && forall i :: 0 <= i < |w.trace| ==> Addressed(c, w.trace[i].telegram)
  }

  lemma OneMoreUsed(c: Config, trace: seq<Entry>, x: Entry)
    ensures LastUsed(c, trace + [x])
            == if Uses(c, x.telegram).Some? then Uses(c, x.telegram).value else LastUsed(c, trace)
  {
    assert (trace + [x])[..|trace|] == trace;
  }

  lemma SameUsed(c: Config, trace: seq<Entry>, x: Entry)
    requires trace != [] && x.telegram == trace[|trace| - 1].telegram
    ensures LastUsed(c, trace[..|trace| - 1] + [x]) == LastUsed(c, trace)
  {
    OneMoreUsed(c, trace[..|trace| - 1], x);
  }

  lemma EndedBus(c: Config, w: World, n: World, x: Entry)
    requires BusInv(c, w) && BusBusy(w) && Inv(c, n.hub) && SameSlotData(w.hub, n.hub)
    requires n.trace == w.trace[..|w.trace| - 1] + [x] && x.telegram == w.trace[|w.trace| - 1].telegram
    ensures BusInv(c, n)
  {
    SameUsed(c, w.trace, x);
    forall i | 0 <= i < |n.trace|
      ensures Addressed(c, n.trace[i].telegram)
    {
      assert n.trace[i].telegram == w.trace[i].telegram;
    }
  }

  lemma OfferedBus(c: Config, w: World, ev: Event)
    requires BusInv(c, w) && ev.Offering? && Enabled(c, w, ev) && Inv(c, Step(c, w, ev).hub)
    ensures BusInv(c, Step(c, w, ev))
  {
    var n, s := Step(c, w, ev), Dispatch(c, w.hub, ev.now, ev.v, ev.reqs);
    OfferNotes(c, w.hub, ev.now, ev.v, ev.reqs);
    if s.telegram.Some? {
      SentIsAddressed(c, w.hub, ev.now, ev.v, ev.reqs);
      OneMoreUsed(c, w.trace, n.trace[|w.trace|]);
    } else {
      assert n.trace == w.trace;
    }
  }

  lemma StepBus(c: Config, w: World, ev: Event)
    requires ValidConfig(c) && BusInv(c, w) && Enabled(c, w, ev)
    ensures BusInv(c, Step(c, w, ev))
  {
    StepInv(c, w, ev);
    match ev
    case Ask(r) => ExternalSpace(c, w.hub, r);
    case Offering(_, _, _) => OfferedBus(c, w, ev);
    case Guard(now, reqs) =>
      WatchdogInv(c, w.hub, now, reqs);
      FailSpace(c, w.hub, reqs);
    case Answer(addr, data, took, effect, unserved, source, reqs) =>
      RespondSpace(c, w.hub, addr, data, unserved, source, reqs);
      EndedBus(c, w, Step(c, w, ev), Ended(w, Answered(addr, data), took, effect));
    case Error(took, effect, reqs) =>
      FailSpace(c, w.hub, reqs);
      EndedBus(c, w, Step(c, w, ev), Ended(w, Failed, took, effect));
    case Silence(took, effect) => EndedBus(c, w, Step(c, w, ev), Ended(w, Lost, took, effect));
  }

  lemma {:induction false} RunBus(c: Config, w: World, evs: seq<Event>)
    requires ValidConfig(c) && BusInv(c, w) && ValidRun(c, w, evs)
    ensures BusInv(c, Run(c, w, evs))
    decreases |evs|
  {
    if evs != [] {
      StepBus(c, w, evs[0]);
      RunBus(c, Step(c, w, evs[0]), evs[1..]);
    }
  }

  /**
   Over every run from boot, every telegram went to the register, space and length its entity
   is configured with, and the space the lanes think the link is in is that of the last
   telegram which decides it.
   */
  lemma EveryTelegramIsAddressed(c: Config, identify: bool, mem: Memory, evs: seq<Event>)
    requires ValidConfig(c) && ValidRun(c, Boot(c, identify, mem), evs)
    ensures var n := Run(c, Boot(c, identify, mem), evs);
            && (forall i :: 0 <= i < |n.trace| ==> Addressed(c, n.trace[i].telegram))
            && n.hub.lastSpace == LastUsed(c, n.trace)
  {
    StartInv(c, identify);
    RunBus(c, Boot(c, identify, mem), evs);
  }

  // --- the watchdog -------------------------------------------------------------------------------------------

  /** Something is in flight in every world of the run. */
  ghost predicate TakenThroughout(c: Config, w: World, evs: seq<Event>)
    requires ValidRun(c, w, evs)
    decreases |evs|
  {
    !SlotFree(w.hub) && (evs != [] ==> TakenThroughout(c, Step(c, w, evs[0]), evs[1..]))
  }

  lemma StillWaiting(c: Config, w: World, ev: Event)
    requires ValidConfig(c) && Inv(c, w.hub) && Enabled(c, w, ev) && !SlotFree(w.hub) && !SlotFree(Step(c, w, ev).hub)
    ensures SameSlotData(w.hub, Step(c, w, ev).hub)
  {
    match ev
    case Ask(r) => ExternalSpace(c, w.hub, r);
    case Offering(_, _, _) =>
    case Guard(now, reqs) =>
      WatchdogInv(c, w.hub, now, reqs);
      FailSlot(c, w.hub, reqs);
    case Answer(addr, data, _, _, unserved, source, reqs) =>
      RespondSlot(c, w.hub, addr, data, unserved, source, reqs);
    case Error(_, _, reqs) => FailSlot(c, w.hub, reqs);
    case Silence(_, _) =>
  }

  lemma {:induction false} WaitsOn(c: Config, w: World, evs: seq<Event>)
    requires ValidConfig(c) && Inv(c, w.hub) && ValidRun(c, w, evs) && TakenThroughout(c, w, evs)
    ensures var n := Run(c, w, evs); Inv(c, n.hub) && !SlotFree(n.hub) && SameSlotData(w.hub, n.hub)
    decreases |evs|
  {
    if evs != [] {
      StepInv(c, w, evs[0]);
      StillWaiting(c, w, evs[0]);
      WaitsOn(c, Step(c, w, evs[0]), evs[1..]);
    }
  }

  /**
   A lost telegram. Sent at `sent` ms and in flight ever since, whatever is asked, offered or
   guarded meanwhile, it is given up by a watchdog pass exactly when more than ten seconds a
   telegram have gone by, in wrapping time.
   */
  lemma LostIsGivenUp(c: Config, w: World, sent: u32, v: Verdict, asked: seq<Request>, after: World, t: Telegram,
                      evs: seq<Event>, now: u32, reqs: seq<Request>)
    requires ValidConfig(c) && Inv(c, w.hub) && ValidRequests(c, reqs) && OnTheBus(c, w, sent, v, asked, after, t)
    requires ValidRun(c, after, evs) && TakenThroughout(c, after, evs)
    ensures SlotFree(Step(c, Run(c, after, evs), Guard(now, reqs)).hub)
            <==> Wrap32(now - sent) > Patience(c, w.hub, t)
  {
    SentAt(c, w, sent, v, asked, after, t);
    WaitedGuard(c, after, evs, now, reqs);
  }

  lemma WaitedGuard(c: Config, w: World, evs: seq<Event>, now: u32, reqs: seq<Request>)
    requires ValidConfig(c) && Inv(c, w.hub) && ValidRun(c, w, evs) && TakenThroughout(c, w, evs)
    requires ValidRequests(c, reqs)
    ensures SlotFree(Step(c, Run(c, w, evs), Guard(now, reqs)).hub)
            <==> Wrap32(now - w.hub.startedMs) > w.hub.watchdogMs
  {
    WaitsOn(c, w, evs);
    GuardFrees(c, Run(c, w, evs), now, reqs);
  }

  /** `after` is the world the telegram `t` was put on the bus in. */
  ghost predicate OnTheBus(c: Config, w: World, sent: u32, v: Verdict, asked: seq<Request>, after: World, t: Telegram) {
    && Enabled(c, w, Offering(sent, v, asked)) && after == Step(c, w, Offering(sent, v, asked))
    && Dispatch(c, w.hub, sent, v, asked).telegram == Some(t)
  }

  lemma SentAt(c: Config, w: World, sent: u32, v: Verdict, asked: seq<Request>, after: World, t: Telegram)
    requires ValidConfig(c) && Inv(c, w.hub) && OnTheBus(c, w, sent, v, asked, after, t)
    ensures Inv(c, after.hub) && after.hub.startedMs == sent && after.hub.watchdogMs == Patience(c, w.hub, t)
  {
    OfferNotes(c, w.hub, sent, v, asked);
    StepInv(c, w, Offering(sent, v, asked));
  }

  lemma GuardFrees(c: Config, w: World, now: u32, reqs: seq<Request>)
    requires ValidConfig(c) && Inv(c, w.hub) && !SlotFree(w.hub) && ValidRequests(c, reqs)
    ensures SlotFree(Step(c, w, Guard(now, reqs)).hub) <==> Wrap32(now - w.hub.startedMs) > w.hub.watchdogMs
  {
    WatchdogInv(c, w.hub, now, reqs);
    FailSlot(c, w.hub, reqs);
  }
}
