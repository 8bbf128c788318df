/** Which registers a unit is identified by: the reads made over a whole run, against the plan. */
module HubIdent {
  import opened Basics
  import opened AddressSpaces
  import opened BitFields
  import opened HubModel
  import opened HubInvariants
  import opened HubWorld
  import opened HubBus
  import opened HubOrder

  // --- the plan -----------------------------------------------------------------------------------

  datatype Read = Read(addr: nat, len: nat)

  /** One read over four registers, or, failing that, each by itself; then burner control and F0, which GWG lacks. */
  function Plan(p: Protocol, full: bool): seq<Read> {
    [Read(0xF8, 4)]
    + (if full then [] else [Read(0xF8, 1), Read(0xF9, 1), Read(0xFA, 1), Read(0xFB, 1)])
    + (if p == GWG then [] else [Read(0x7650, 1), Read(0xF0, 2)])
  }

  // --- what a run did about it ------------------------------------------------------------------------

  datatype Try = Made(read: Read) | Refused

  predicate IdentTurn(h: Hub) {
    SlotFree(h) && h.rmwPending.None? && Identifying(h)
  }

  /** An offer that sends an identification read, or has one refused for good. */
  function TriesOf(c: Config, w: World, ev: Event): seq<Try> {
    if !ev.Offering? then []
    else
      match Dispatch(c, w.hub, ev.now, ev.v, ev.reqs).telegram
      case Some(t) => if t.kind.IdentRead? then [Made(Read(t.addr, t.len))] else []
      case None => if IdentTurn(w.hub) && ev.v.Never? then [Refused] else []
  }

  ghost function Tries(c: Config, w: World, evs: seq<Event>): seq<Try>
    requires ValidRun(c, w, evs)
    decreases |evs|
  {
    if evs == [] then [] else TriesOf(c, w, evs[0]) + Tries(c, Step(c, w, evs[0]), evs[1..])
  }

  /** The four-register read lands whole while it is waited for. */
  predicate LandsFull(w: World, ev: Event) {
    && ev.Answer? && w.hub.identInFlight && BusBusy(w) && w.trace[|w.trace| - 1].telegram.len == 4
    && ev.addr == 0xF8 && |ev.data| >= 4
  }

  ghost predicate WasFull(c: Config, w: World, evs: seq<Event>)
    requires ValidRun(c, w, evs)
    decreases |evs|
  {
    evs != [] && (LandsFull(w, evs[0]) || WasFull(c, Step(c, w, evs[0]), evs[1..]))
  }

  // --- where the state machine is ----------------------------------------------------------------------

  function PlanLength(p: Protocol, full: bool): nat {
    (if full then 1 else 5) + (if p == GWG then 0 else 2)
  }

  /** How many reads are over in a state. */
  function Over(p: Protocol, full: bool, s: IdentState): nat {
    match s
    case IdentIdle => 0
    case Read4 => 0
    case ReadF8 => 1
    case ReadF9 => 2
    case ReadFA => 3
    case ReadFB => 4
    case ReadGFA => if full then 1 else 5
    case ReadF0 => if full then 2 else 6
    case IdentDone => PlanLength(p, full)
  }

  /** A state on the way of the plan. */
  predicate OnTheWay(p: Protocol, full: bool, s: IdentState) {
    !s.IdentIdle? && (full ==> s.ReadGFA? || s.ReadF0? || s.IdentDone?) && (p == GWG ==> !s.ReadGFA? && !s.ReadF0?)
  }

  lemma StatesAlongPlan(p: Protocol, full: bool, s: IdentState)
    requires OnTheWay(p, full, s) && !s.IdentDone?
    ensures Over(p, full, s) < |Plan(p, full)| == PlanLength(p, full)
    ensures Plan(p, full)[Over(p, full, s)] == Read(IdentAddr(s), IdentLen(s))
  {}

  /** A read that is over leads one on; it decides about the plan only where it is the first. */
  lemma OneMoreOver(p: Protocol, full: bool, s: IdentState, whole: bool)
    requires OnTheWay(p, full, s) && !s.IdentDone?
    ensures var now, next := full || (s.Read4? && whole), IdentNext(p, s, whole);
            OnTheWay(p, now, next) && Over(p, now, next) == Over(p, full, s) + 1
  {}

  /** `k` reads were tried, the last of them in flight or not; `full` when the first landed whole. */
  ghost predicate IdentAt(p: Protocol, w: World, k: nat, full: bool) {
    var h := w.hub;
    && OnTheWay(p, full, h.ident) && k == Over(p, full, h.ident) + (if h.identInFlight then 1 else 0)
    && (h.identInFlight ==> LastReads(w, h.ident))
  }

  /** The last telegram is the identification read of this state. */
  predicate LastReads(w: World, s: IdentState) {
    w.trace != [] && !s.IdentDone? &&
    var t := w.trace[|w.trace| - 1].telegram;
    t.kind.IdentRead? && t.addr == IdentAddr(s) && t.len == IdentLen(s)
  }

  // --- nothing else moves it ---------------------------------------------------------------------------

  lemma CallbacksIdent(c: Config, h: Hub, e: nat, data: seq<byte>, source: TimeSource, reqs: seq<Request>)
    ensures HandleResponse(c, h, e, data, source, reqs).ident == h.ident
    ensures HandleFailure(c, h, e, reqs).ident == h.ident
    ensures HandleWriteResponse(c, h, e, reqs).ident == h.ident
  {
    HandlersIdent(c, h, reqs);
  }

  lemma {:induction false} RefreshIdent(c: Config, h: Hub, writer: nat, n: nat)
    ensures RefreshBelow(c, h, writer, n).ident == h.ident
  {
    if n > 0 { RefreshIdent(c, h, writer, n - 1); }
  }

  lemma AcknowledgeIdent(c: Config, h: Hub, e: nat, reqs: seq<Request>)
    ensures Acknowledge(c, h, e, reqs).ident == h.ident
  {
    CallbacksIdent(c, EndWrite(h, e), e, [], NoSource, reqs);
    var handled := HandleWriteResponse(c, EndWrite(h, e), e, reqs);
    RefreshIdent(c, if !Of(c, e).readBack then DropVerify(handled, e) else handled, e, |c.entities|);
  }

  lemma FailOpIdent(c: Config, h: Hub, e: nat, op: OpType, reqs: seq<Request>)
    ensures FailOp(c, h, e, op, reqs).ident == h.ident
  {
    CallbacksIdent(c, EndRead(DropVerify(h, e), e), e, [], NoSource, reqs);
    CallbacksIdent(c, EndWrite(DropVerify(h, e), e), e, [], NoSource, reqs);
    CallbacksIdent(c, EndWrite(h, e), e, [], NoSource, reqs);
  }

  /** A read that ended moves one state on; nothing else that ends moves any. */
  lemma RespondIdent(c: Config, h: Hub, addr: nat, data: seq<byte>, unserved: bool, source: TimeSource,
                     reqs: seq<Request>)
    ensures var r := Respond(c, h, addr, data, unserved, source, reqs);
            r.ident == if h.identInFlight
                       then IdentNext(c.protocol, h.ident, addr == IdentAddr(h.ident) && |data| >= 4) else h.ident
  {
    if h.identInFlight {
      var full := addr == IdentAddr(h.ident) && |data| >= 4;
      HandlersIdent(c, h.(identInFlight := false, ident := IdentNext(c.protocol, h.ident, full)), reqs);
    } else if h.rawInFlight {
      HandlersIdent(c, h.(rawInFlight := false), reqs);
    } else if h.inFlight.Some? {
      var e, free := h.inFlight.value, FreeSlot(h);
      FailOpIdent(c, free, e, h.op, reqs);
      AcknowledgeIdent(c, free, e, reqs);
      CallbacksIdent(c, DropVerify(EndRead(free, e), e), e, data, source, reqs);
      CallbacksIdent(c, EndWrite(free, e), e, [], NoSource, reqs);
    }
  }

  lemma FailIdent(c: Config, h: Hub, reqs: seq<Request>)
    ensures Fail(c, h, reqs).ident == if h.identInFlight then IdentNext(c.protocol, h.ident, false) else h.ident
  {
    if h.identInFlight {
      HandlersIdent(c, h.(identInFlight := false, ident := IdentNext(c.protocol, h.ident, false)), reqs);
    } else if h.rawInFlight {
      HandlersIdent(c, h.(rawInFlight := false), reqs);
    } else if h.inFlight.Some? {
      FailOpIdent(c, FreeSlot(h), h.inFlight.value, h.op, reqs);
    }
  }

  /** What an offer does to the identification: nothing, unless it is its turn. */
  lemma OfferIdent(c: Config, h: Hub, now: u32, v: Verdict, reqs: seq<Request>)
    ensures var s := Dispatch(c, h, now, v, reqs);
            if IdentTurn(h) then
              match v
              case Busy => s == HubModel.Sent(h, None)
              case Never =>
                s.telegram.None? && s.hub.ident == IdentNext(c.protocol, h.ident, false) && !s.hub.identInFlight
              case Taken =>
                && s.hub.ident == h.ident && s.hub.identInFlight
                && s.telegram.Some? && s.telegram.value.kind.IdentRead?
                && s.telegram.value.addr == IdentAddr(h.ident) && s.telegram.value.len == IdentLen(h.ident)
            else s.hub.ident == h.ident && (s.telegram.Some? ==> !s.telegram.value.kind.IdentRead?)
  {
    if SlotFree(h) {
      if h.rmwPending.Some? {
        var e := h.rmwPending.value;
        CallbacksIdent(c, EndWrite(h.(rmwPending := None), e), e, [], NoSource, reqs);
      } else if Identifying(h) {
        var next := h.(ident := IdentNext(c.protocol, h.ident, false));
        HandlersIdent(c, next, reqs);
        HandlersSlot(c, next, reqs);
      } else if h.rawLane != [] {
        HandlersIdent(c, h.(rawAddr := h.rawLane[0].addr, rawLane := h.rawLane[1..]), reqs);
      } else if h.writeLane != [] {
        CallbacksIdent(c, DropWrite(h, h.writeLane[0]), h.writeLane[0], [], NoSource, reqs);
      }
    }
  }

  // --- one step ----------------------------------------------------------------------------------------------

  /** The try of a step, if any, is the plan's `k`-th. */
  predicate TryAt(tries: seq<Try>, p: Protocol, full: bool, k: nat) {
    tries == [] || (|tries| == 1 && k < |Plan(p, full)| && (tries[0] == Refused || tries[0] == Made(Plan(p, full)[k])))
  }

  ghost predicate StepsOn(c: Config, w: World, ev: Event, k: nat, full: bool)
    requires Enabled(c, w, ev)
  {
    var tries, now := TriesOf(c, w, ev), full || LandsFull(w, ev);
    && TryAt(tries, c.protocol, now, k) && IdentAt(c.protocol, Step(c, w, ev), k + |tries|, now)
    && (LandsFull(w, ev) ==> k == 1 && !full)
  }

  lemma OfferSteps(c: Config, w: World, ev: Event, k: nat, full: bool)
    requires Inv(c, w.hub) && IdentAt(c.protocol, w, k, full) && Enabled(c, w, ev) && ev.Offering?
    ensures StepsOn(c, w, ev, k, full)
  {
    if IdentTurn(w.hub) {
      TurnSteps(c, w, ev, k, full);
    } else {
      OfferIdent(c, w.hub, ev.now, ev.v, ev.reqs);
      DispatchSlot(c, w.hub, ev.now, ev.v, ev.reqs);
    }
  }

  lemma TurnSteps(c: Config, w: World, ev: Event, k: nat, full: bool)
    requires IdentAt(c.protocol, w, k, full) && Enabled(c, w, ev) && ev.Offering? && IdentTurn(w.hub)
    ensures StepsOn(c, w, ev, k, full)
  {
    OfferIdent(c, w.hub, ev.now, ev.v, ev.reqs);
    StatesAlongPlan(c.protocol, full, w.hub.ident);
  }

  lemma AnswerSteps(c: Config, w: World, ev: Event, k: nat, full: bool)
    requires Inv(c, w.hub) && IdentAt(c.protocol, w, k, full) && Enabled(c, w, ev) && ev.Answer?
    ensures StepsOn(c, w, ev, k, full)
  {
    RespondIdent(c, w.hub, ev.addr, ev.data, ev.unserved, ev.source, ev.reqs);
    RespondSlot(c, w.hub, ev.addr, ev.data, ev.unserved, ev.source, ev.reqs);
    if w.hub.identInFlight {
      OneMoreOver(c.protocol, full, w.hub.ident, ev.addr == IdentAddr(w.hub.ident) && |ev.data| >= 4);
    }
  }

  lemma FailSteps(c: Config, w: World, ev: Event, k: nat, full: bool, reqs: seq<Request>)
    requires Inv(c, w.hub) && IdentAt(c.protocol, w, k, full) && Enabled(c, w, ev) && (ev.Guard? || ev.Error?)
    requires Step(c, w, ev).hub == Fail(c, w.hub, reqs)
    ensures StepsOn(c, w, ev, k, full)
  {
    FailIdent(c, w.hub, reqs);
    FailSlot(c, w.hub, reqs);
    if w.hub.identInFlight { OneMoreOver(c.protocol, full, w.hub.ident, false); }
    assert IdentAt(c.protocol, Step(c, w, ev), k, full);
  }

  lemma AskSteps(c: Config, w: World, ev: Event, k: nat, full: bool)
    requires IdentAt(c.protocol, w, k, full) && Enabled(c, w, ev) && ev.Ask?
    ensures StepsOn(c, w, ev, k, full)
  {
    ExternalIdent(c, w.hub, ev.r);
    ExternalSlot(c, w.hub, ev.r);
  }

  lemma StepIdent(c: Config, w: World, ev: Event, k: nat, full: bool)
    requires ValidConfig(c) && Inv(c, w.hub) && IdentAt(c.protocol, w, k, full) && Enabled(c, w, ev)
    ensures StepsOn(c, w, ev, k, full)
  {
    match ev
    case Ask(_) => AskSteps(c, w, ev, k, full);
    case Offering(_, _, _) => OfferSteps(c, w, ev, k, full);
    case Guard(now, reqs) =>
      WatchdogInv(c, w.hub, now, reqs);
      if Expired(w.hub, now) { FailSteps(c, w, ev, k, full, reqs); }
    case Answer(_, _, _, _, _, _, _) => AnswerSteps(c, w, ev, k, full);
    case Error(_, _, reqs) => FailSteps(c, w, ev, k, full, reqs);
    case Silence(_, _) =>
  }

  // --- over runs -----------------------------------------------------------------------------------------------

  /** From the `k`-th on, the tries are the plan's. */
  predicate FollowsFrom(tries: seq<Try>, p: Protocol, full: bool, k: nat) {
    var plan := Plan(p, full);
    && k + |tries| <= |plan|
    && forall i :: 0 <= i < |tries| ==> tries[i] == Refused || tries[i] == Made(plan[k + i])
  }

  /** Only the first read is tried before it is known which plan it is. */
  lemma OneMoreTry(p: Protocol, first: seq<Try>, later: seq<Try>, soon: bool, now: bool, k: nat)
    requires TryAt(first, p, soon, k) && FollowsFrom(later, p, now, k + |first|)
    requires soon == now || (!soon && now && k + |first| <= 1)
    ensures FollowsFrom(first + later, p, now, k)
  {
    assert Plan(p, soon)[0] == Plan(p, now)[0];
    forall i | 0 <= i < |first + later|
      ensures (first + later)[i] == Refused || (first + later)[i] == Made(Plan(p, now)[k + i])
    {
      if i >= |first| { assert (first + later)[i] == later[i - |first|]; }
    }
  }

  /** What was tried from the `k`-th read on, whether the first landed whole on the way, and where it led. */
  ghost predicate LeadsOn(p: Protocol, tries: seq<Try>, lands: bool, n: World, k: nat, full: bool) {
    && FollowsFrom(tries, p, full || lands, k) && IdentAt(p, n, k + |tries|, full || lands)
    && (lands ==> k <= 1 && !full)
  }

  /** The first event of a run, and what it leaves for the rest of it: reads from the `m`-th on, of plan `on`. */
  lemma FirstSteps(c: Config, w: World, evs: seq<Event>, k: nat, full: bool)
    returns (n: World, first: seq<Try>, now: bool, m: nat, on: bool)
    requires ValidConfig(c) && Inv(c, w.hub) && IdentAt(c.protocol, w, k, full) && evs != [] && ValidRun(c, w, evs)
    ensures Inv(c, n.hub) && IdentAt(c.protocol, n, m, on) && ValidRun(c, n, evs[1..])
    ensures Tries(c, w, evs) == first + Tries(c, n, evs[1..]) && WasFull(c, w, evs) == (now || WasFull(c, n, evs[1..]))
    ensures Run(c, w, evs) == Run(c, n, evs[1..])
    ensures forall later, lands, end :: LeadsOn(c.protocol, later, lands, end, m, on) ==>
              LeadsOn(c.protocol, first + later, now || lands, end, k, full)
  {
    StepInv(c, w, evs[0]);
    StepIdent(c, w, evs[0], k, full);
    n, first, now := Step(c, w, evs[0]), TriesOf(c, w, evs[0]), LandsFull(w, evs[0]);
    m, on := k + |first|, full || now;
    forall later, lands, end | LeadsOn(c.protocol, later, lands, end, m, on)
      ensures LeadsOn(c.protocol, first + later, now || lands, end, k, full)
    {
      Compose(c.protocol, first, now, later, lands, end, k, full);
    }
  }

  lemma {:induction false} RunIdent(c: Config, w: World, evs: seq<Event>, k: nat, full: bool)
    requires ValidConfig(c) && Inv(c, w.hub) && IdentAt(c.protocol, w, k, full) && ValidRun(c, w, evs)
    ensures LeadsOn(c.protocol, Tries(c, w, evs), WasFull(c, w, evs), Run(c, w, evs), k, full)
    decreases |evs|
  {
    if evs == [] {
      OnPlan(c.protocol, w, k, full);
    } else {
      var n, first, now, m, on := FirstSteps(c, w, evs, k, full);
      RunIdent(c, n, evs[1..], m, on);
    }
  }

  lemma Compose(p: Protocol, first: seq<Try>, now: bool, later: seq<Try>, lands: bool, n: World, k: nat, full: bool)
    requires TryAt(first, p, full || now, k) && (now ==> k == 1 && !full)
    requires LeadsOn(p, later, lands, n, k + |first|, full || now)
    ensures LeadsOn(p, first + later, now || lands, n, k, full)
  {
    OneMoreTry(p, first, later, full || now, full || now || lands, k);
  }

  lemma OnPlan(p: Protocol, w: World, k: nat, full: bool)
    requires IdentAt(p, w, k, full)
    ensures FollowsFrom([], p, full, k)
  {
    if !w.hub.ident.IdentDone? { StatesAlongPlan(p, full, w.hub.ident); }
  }

  /**
   What identification reads, over every run from boot: the four registers in one read, each
   by itself only if that read did not land whole, then burner control and F0 where they
   exist; in that order, each at most once, and skipping only what the engine refused for
   good. It is done exactly when the plan is.
   */
  lemma IdentificationFollowsPlan(c: Config, mem: Memory, evs: seq<Event>)
    requires ValidConfig(c) && ValidRun(c, Boot(c, true, mem), evs)
    ensures var w, n := Boot(c, true, mem), Run(c, Boot(c, true, mem), evs);
            var tries, plan := Tries(c, w, evs), Plan(c.protocol, WasFull(c, w, evs));
            && |tries| <= |plan|
            && (forall k :: 0 <= k < |tries| ==> tries[k] == Refused || tries[k] == Made(plan[k]))
            && (n.hub.ident.IdentDone? <==> |tries| == |plan| && !n.hub.identInFlight)
  {
    var w := Boot(c, true, mem);
    StartInv(c, true);
    RunIdent(c, w, evs, 0, false);
    var n, full := Run(c, w, evs), WasFull(c, w, evs);
    if !n.hub.ident.IdentDone? { StatesAlongPlan(c.protocol, full, n.hub.ident); }
  }

  /** A unit that is not to be identified is not. */
  lemma {:induction false} NothingIsRead(c: Config, w: World, evs: seq<Event>)
    requires ValidConfig(c) && Inv(c, w.hub) && w.hub.ident.IdentIdle? && ValidRun(c, w, evs)
    ensures Tries(c, w, evs) == []
    decreases |evs|
  {
    if evs != [] {
      StepInv(c, w, evs[0]);
      StaysIdle(c, w, evs[0]);
      NothingIsRead(c, Step(c, w, evs[0]), evs[1..]);
    }
  }

  lemma StaysIdle(c: Config, w: World, ev: Event)
    requires ValidConfig(c) && Inv(c, w.hub) && w.hub.ident.IdentIdle? && Enabled(c, w, ev)
    ensures Step(c, w, ev).hub.ident.IdentIdle? && TriesOf(c, w, ev) == []
  {
    match ev
    case Ask(r) => ExternalIdent(c, w.hub, r);
    case Offering(now, v, reqs) => OfferIdent(c, w.hub, now, v, reqs);
    case Guard(now, reqs) =>
      WatchdogInv(c, w.hub, now, reqs);
      FailIdent(c, w.hub, reqs);
    case Answer(addr, data, _, _, unserved, source, reqs) =>
      RespondIdent(c, w.hub, addr, data, unserved, source, reqs);
    case Error(_, _, reqs) => FailIdent(c, w.hub, reqs);
    case Silence(_, _) =>
  }

  lemma UnidentifiedReadsNothing(c: Config, mem: Memory, evs: seq<Event>)
    requires ValidConfig(c) && ValidRun(c, Boot(c, false, mem), evs)
    ensures Tries(c, Boot(c, false, mem), evs) == []
  {
    StartInv(c, false);
    NothingIsRead(c, Boot(c, false, mem), evs);
  }
}
