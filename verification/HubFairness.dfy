/**
 How long the affinity move can hold a read back: every read that is sent left a place in
 the lane that was there or was taken since; reads that keep coming hold it back for good.
 */
module HubFairness {
  import opened Basics
  import opened AddressSpaces
  import opened BitFields
  import opened RingBuffers
  import opened HubModel
  import opened HubInvariants
  import opened HubWorld
  import opened HubBus
  import opened HubOrder
  import opened HubAffinity
  import opened HubAwait
  import HubUnread

  predicate SendsRead(c: Config, w: World, ev: Event, e: nat) {
    ev.Offering? && SentBy(c, w, ev).Some? && SentBy(c, w, ev).value.kind == PollRead(e)
  }

  /** The read lane's turn, its next read is that of `e`, and it is refused for good. */
  predicate RefusesRead(c: Config, w: World, ev: Event, e: nat) {
    && ev.Offering? && ReadsOnly(w.hub) && e in w.hub.readLane && AffineLane(c, w.hub)[0] == e
    && Offer(Available(c.protocol, Of(c, e).space), ev.v).Never?
  }

  // --- one step ------------------------------------------------------------------------------------

  /** A waiting read keeps its flag through the end of whatever is in flight. */
  lemma FailOpKeeps(c: Config, h: Hub, reqs: seq<Request>, e: nat)
    requires Inv(c, h) && h.inFlight.Some? && e in h.readLane
    ensures Get(FailOp(c, FreeSlot(h), h.inFlight.value, h.op, reqs), e).readQueued
  {
    var f, free := h.inFlight.value, FreeSlot(h);
    assert FlagsOk(h, e);
    match h.op
    case ReadOp => CallbacksQueued(c, EndRead(DropVerify(free, f), f), f, [], NoSource, reqs, e);
    case WriteOp => CallbacksQueued(c, EndWrite(DropVerify(free, f), f), f, [], NoSource, reqs, e);
    case RmwReadOp => CallbacksQueued(c, EndWrite(free, f), f, [], NoSource, reqs, e);
  }

  lemma FailKeeps(c: Config, h: Hub, reqs: seq<Request>, e: nat)
    requires Inv(c, h) && e in h.readLane
    ensures Get(Fail(c, h, reqs), e).readQueued
  {
    assert FlagsOk(h, e);
    if h.identInFlight {
      IdentKeeps(c, h.(identInFlight := false), false, reqs, e);
    } else if h.rawInFlight {
      HandlersQueued(c, h.(rawInFlight := false), reqs, e);
    } else if h.inFlight.Some? {
      FailOpKeeps(c, h, reqs, e);
    }
  }

  lemma IdentKeeps(c: Config, h: Hub, full: bool, reqs: seq<Request>, e: nat)
    requires Get(h, e).readQueued
    ensures Get(IdentAdvance(c, h, full, reqs), e).readQueued
  {
    HandlersQueued(c, h.(ident := IdentNext(c.protocol, h.ident, full)), reqs, e);
  }

  lemma AcknowledgeKeeps(c: Config, h: Hub, f: nat, reqs: seq<Request>, e: nat)
    requires Get(h, e).readQueued
    ensures Get(Acknowledge(c, h, f, reqs), e).readQueued
  {
    CallbacksQueued(c, EndWrite(h, f), f, [], NoSource, reqs, e);
    ReadBacksQueued(c, HandleWriteResponse(c, EndWrite(h, f), f, reqs), f, e);
  }

  lemma RespondKeeps(c: Config, h: Hub, addr: nat, data: seq<byte>, unserved: bool, source: TimeSource,
                     reqs: seq<Request>, e: nat)
    requires Inv(c, h) && e in h.readLane
    ensures Get(Respond(c, h, addr, data, unserved, source, reqs), e).readQueued
  {
    assert FlagsOk(h, e);
    if h.identInFlight {
      IdentKeeps(c, h.(identInFlight := false), addr == IdentAddr(h.ident) && |data| >= 4, reqs, e);
    } else if h.rawInFlight {
      HandlersQueued(c, h.(rawInFlight := false), reqs, e);
    } else if h.inFlight.Some? {
      var f, free := h.inFlight.value, FreeSlot(h);
      FailOpKeeps(c, h, reqs, e);
      if addr == ExpectedAddr(c, f, h.op) {
        match h.op
        case RmwReadOp =>
        case WriteOp => AcknowledgeKeeps(c, free, f, reqs, e);
        case ReadOp => CallbacksQueued(c, DropVerify(EndRead(free, f), f), f, data, source, reqs, e);
      }
    }
  }

  lemma WriteKeeps(c: Config, h: Hub, now: u32, v: Verdict, reqs: seq<Request>, e: nat)
    requires h.writeLane != [] && Get(h, e).readQueued
    ensures Get(DispatchWrite(c, h, now, v, reqs).hub, e).readQueued
  {
    var f := h.writeLane[0];
    HubUnread.LeavesUnread(h, f, e);
    CallbacksQueued(c, DropWrite(h, f), f, [], NoSource, reqs, e);
  }

  /** An offer that neither sends nor refuses the read leaves it queued. */
  lemma OfferKeeps(c: Config, w: World, ev: Event, e: nat)
    requires Inv(c, w.hub) && e in w.hub.readLane && ev.Offering? && !RefusesRead(c, w, ev, e)
    ensures Get(Dispatch(c, w.hub, ev.now, ev.v, ev.reqs).hub, e).readQueued
  {
    var h := w.hub;
    assert FlagsOk(h, e);
    if SlotFree(h) {
      if h.rmwPending.Some? {
        var f := h.rmwPending.value;
        CallbacksQueued(c, EndWrite(h.(rmwPending := None), f), f, [], NoSource, ev.reqs, e);
      } else if Identifying(h) {
        IdentKeeps(c, h, false, ev.reqs, e);
      } else if h.rawLane != [] {
        HandlersQueued(c, h.(rawAddr := h.rawLane[0].addr, rawLane := h.rawLane[1..]), ev.reqs, e);
      } else if h.writeLane != [] {
        WriteKeeps(c, h, ev.now, ev.v, ev.reqs, e);
      }
    }
  }

  lemma StepKeeps(c: Config, w: World, ev: Event, e: nat)
    requires ValidConfig(c) && Inv(c, w.hub) && Enabled(c, w, ev) && e in w.hub.readLane && !RefusesRead(c, w, ev, e)
    ensures Get(Step(c, w, ev).hub, e).readQueued
  {
    assert FlagsOk(w.hub, e);
    match ev
    case Ask(r) => ExternalQueued(c, w.hub, r, e);
    case Offering(_, _, _) => OfferKeeps(c, w, ev, e);
    case Guard(now, reqs) =>
      WatchdogInv(c, w.hub, now, reqs);
      FailKeeps(c, w.hub, reqs, e);
    case Answer(addr, data, _, _, unserved, source, reqs) =>
      RespondKeeps(c, w.hub, addr, data, unserved, source, reqs, e);
    case Error(_, _, reqs) => FailKeeps(c, w.hub, reqs, e);
    case Silence(_, _) =>
  }

  /** A read takes off only when it is sent. */
  lemma TakesOff(c: Config, w: World, ev: Event, e: nat)
    requires ValidConfig(c) && Inv(c, w.hub) && Enabled(c, w, ev) && !ReadFlying(w.hub, e)
    ensures ReadFlying(Step(c, w, ev).hub, e) <==> SendsRead(c, w, ev, e)
  {
    match ev
    case Ask(r) => ExternalSlot(c, w.hub, r);
    case Offering(now, v, reqs) => DispatchSlot(c, w.hub, now, v, reqs);
    case Guard(now, reqs) =>
      WatchdogInv(c, w.hub, now, reqs);
      FailSlot(c, w.hub, reqs);
    case Answer(addr, data, _, _, unserved, source, reqs) =>
      RespondSlot(c, w.hub, addr, data, unserved, source, reqs);
    case Error(_, _, reqs) => FailSlot(c, w.hub, reqs);
    case Silence(_, _) =>
  }

  /** What is sent or refused was waiting. */
  lemma WasWaiting(c: Config, w: World, ev: Event, e: nat)
    requires SendsRead(c, w, ev, e)
    ensures e in w.hub.readLane && !RefusesRead(c, w, ev, e)
  {
    DispatchPriority(c, w.hub, ev.now, ev.v, ev.reqs);
    MoveFirstIfKeepsMembers(w.hub.readLane, x => Of(c, x).space == w.hub.lastSpace);
    assert e in AffineLane(c, w.hub);
  }

  lemma RefusedIsGone(c: Config, w: World, ev: Event, e: nat)
    requires Inv(c, w.hub) && RefusesRead(c, w, ev, e) && Enabled(c, w, ev) && Inv(c, Step(c, w, ev).hub)
    ensures e !in Step(c, w, ev).hub.readLane
  {
    assert FlagsOk(Step(c, w, ev).hub, e);
  }

  /** A waiting read leaves its lane in two ways only: it is sent, or refused for good. */
  lemma LeavesLane(c: Config, w: World, ev: Event, e: nat)
    requires ValidConfig(c) && Inv(c, w.hub) && Enabled(c, w, ev)
    ensures e in w.hub.readLane && e !in Step(c, w, ev).hub.readLane
            <==> SendsRead(c, w, ev, e) || RefusesRead(c, w, ev, e)
  {
    var n := Step(c, w, ev);
    StepInv(c, w, ev);
    if e in w.hub.readLane {
      assert FlagsOk(w.hub, e) && FlagsOk(n.hub, e);
      TakesOff(c, w, ev, e);
      if RefusesRead(c, w, ev, e) { RefusedIsGone(c, w, ev, e); } else { StepKeeps(c, w, ev, e); }
    } else if SendsRead(c, w, ev, e) {
      WasWaiting(c, w, ev, e);
    }
  }

  // --- counting the reads of the costly space -----------------------------------------------------------

  function GfaWaiting(c: Config, h: Hub): set<nat> {
    set e | e in h.readLane && IsGfa(c, e)
  }

  function GfaSent(c: Config, w: World, ev: Event): set<nat> {
    set e | e in w.hub.readLane && IsGfa(c, e) && SendsRead(c, w, ev, e)
  }

  function GfaRefused(c: Config, w: World, ev: Event): set<nat> {
    set e | e in w.hub.readLane && IsGfa(c, e) && RefusesRead(c, w, ev, e)
  }

  /** How many reads of the space a step sends, refuses for good, and lets join the lane. */
  datatype Tally = Tally(sent: nat, refused: nat, joined: nat)

  ghost function StepTally(c: Config, w: World, ev: Event): Tally
    requires Enabled(c, w, ev)
  {
    Tally(|GfaSent(c, w, ev)|, |GfaRefused(c, w, ev)|,
          |GfaWaiting(c, Step(c, w, ev).hub) - GfaWaiting(c, w.hub)|)
  }

  ghost function RunTally(c: Config, w: World, evs: seq<Event>): Tally
    requires ValidRun(c, w, evs)
    decreases |evs|
  {
    if evs == [] then Tally(0, 0, 0)
    else
      var one, rest := StepTally(c, w, evs[0]), RunTally(c, Step(c, w, evs[0]), evs[1..]);
      Tally(one.sent + rest.sent, one.refused + rest.refused, one.joined + rest.joined)
  }

  lemma TwoWays<T>(a: set<T>, b: set<T>, sent: set<T>, refused: set<T>)
    requires a - b == sent + refused && sent !! refused
    ensures |b| + |sent| + |refused| == |a| + |b - a|
  {
    assert a == a * b + (a - b) && b == a * b + (b - a);
    assert |sent + refused| == |sent| + |refused|;
  }

  lemma GfaLeavesAt(c: Config, w: World, ev: Event, h: Hub, e: nat)
    requires ValidConfig(c) && Inv(c, w.hub) && Enabled(c, w, ev) && h == Step(c, w, ev).hub
    ensures e in GfaWaiting(c, w.hub) && e !in GfaWaiting(c, h) <==> e in GfaSent(c, w, ev) || e in GfaRefused(c, w, ev)
    ensures e in GfaSent(c, w, ev) ==> e !in GfaRefused(c, w, ev)
  {
    LeavesLane(c, w, ev, e);
    if SendsRead(c, w, ev, e) { WasWaiting(c, w, ev, e); }
  }

  lemma GfaLeaves(c: Config, w: World, ev: Event, h: Hub)
    requires ValidConfig(c) && Inv(c, w.hub) && Enabled(c, w, ev) && h == Step(c, w, ev).hub
    ensures GfaWaiting(c, w.hub) - GfaWaiting(c, h) == GfaSent(c, w, ev) + GfaRefused(c, w, ev)
    ensures GfaSent(c, w, ev) !! GfaRefused(c, w, ev)
  {
    var a, b, sent, refused := GfaWaiting(c, w.hub), GfaWaiting(c, h), GfaSent(c, w, ev), GfaRefused(c, w, ev);
    forall e: nat
      ensures e in a && e !in b <==> e in sent || e in refused
      ensures e in sent ==> e !in refused
    {
      GfaLeavesAt(c, w, ev, h, e);
    }
  }

  lemma StepBalance(c: Config, w: World, ev: Event)
    requires ValidConfig(c) && Inv(c, w.hub) && Enabled(c, w, ev)
    ensures var t := StepTally(c, w, ev);
            |GfaWaiting(c, Step(c, w, ev).hub)| + t.sent + t.refused == |GfaWaiting(c, w.hub)| + t.joined
  {
    var h := Step(c, w, ev).hub;
    GfaLeaves(c, w, ev, h);
    TwoWays(GfaWaiting(c, w.hub), GfaWaiting(c, h), GfaSent(c, w, ev), GfaRefused(c, w, ev));
  }

  /**
   Over every run, and so over any in which another read waits: the GFA reads sent are at
   most those waiting at its start and those that joined since. They are no more than one
   such run, the reads that waited at its start, if and only if those that joined are no
   more than those still waiting and those refused for good.
   */
  lemma {:induction false} OvertakingIsBounded(c: Config, w: World, evs: seq<Event>)
    requires ValidConfig(c) && Inv(c, w.hub) && ValidRun(c, w, evs)
    ensures var t, n := RunTally(c, w, evs), Run(c, w, evs);
            && |GfaWaiting(c, n.hub)| + t.sent + t.refused == |GfaWaiting(c, w.hub)| + t.joined
            && t.sent <= |GfaWaiting(c, w.hub)| + t.joined
            && (t.sent <= |GfaWaiting(c, w.hub)| <==> t.joined <= |GfaWaiting(c, n.hub)| + t.refused)
    decreases |evs|
  {
    if evs != [] {
      StepInv(c, w, evs[0]);
      StepBalance(c, w, evs[0]);
      OvertakingIsBounded(c, Step(c, w, evs[0]), evs[1..]);
    }
  }

  // --- a read that is held back for good --------------------------------------------------------------------

  /** Over P300: two entities of the burner control, one of the controller itself, each due at every update. */
  const THREE := Config(P300, [Plain(0x10, GFA), Plain(0x11, GFA), Plain(0x20, OWN)], 0, 0, None)

  function Plain(addr: nat, space: Space): EntityConfig {
    EntityConfig(addr, 1, addr, 1, space, 0, 0, 0, false, true, 0)
  }

  function Trio(q0: bool, q1: bool, lane: seq<nat>, slot: Option<nat>): Hub {
    Hub([Entity([], 0, q0, false, false), Entity([], 0, q1, false, false), Entity([], 0, true, false, false)],
        lane, [], [], slot, if slot.Some? then ReadOp else NoOp, false, false, 0, WatchdogBudget(1),
        None, [], None, [], IdentIdle, 0, GFA, ClockState(Idle, false, 0, None), 0)
  }

  /** Entity `f` of the burner control is being read, its sister is idle, and entity 2 waits. */
  predicate Held(w: World, f: nat) {
    f <= 1 && w.hub == Trio(f == 0, f == 1, [2], Some(f)) && Reading(w, f)
  }

  predicate Reading(w: World, f: nat) {
    BusBusy(w) && w.trace[|w.trace| - 1].telegram.kind == PollRead(f)
  }

  /** The sister fell due too. */
  predicate BothDue(w: World, f: nat) {
    f <= 1 && w.hub == Trio(true, true, [2, 1 - f], Some(f)) && Reading(w, f)
  }

  /** The answer for `f` came; entity 2 and the sister wait, in that order. */
  predicate Freed(w: World, f: nat) {
    f <= 1 && w.hub == Trio(f == 1, f == 0, [2, 1 - f], None) && !BusBusy(w)
  }

  lemma SisterFallsDue(f: nat)
    requires f <= 1
    ensures External(THREE, Trio(f == 0, f == 1, [2], Some(f)), Update(0, NoSource))
            == Trio(true, true, [2, 1 - f], Some(f))
  {
    var h := Trio(f == 0, f == 1, [2], Some(f));
    assert ScheduleBelow(THREE, h, 0, 1) == if f == 0 then h else Trio(true, true, [2, 0], Some(1));
    assert ScheduleBelow(THREE, h, 0, 2) == Trio(true, true, [2, 1 - f], Some(f));
  }

  lemma AnswerFrees(f: nat)
    requires f <= 1
    ensures Respond(THREE, Trio(true, true, [2, 1 - f], Some(f)), 0x10 + f, [0], false, NoSource, [])
            == Trio(f == 1, f == 0, [2, 1 - f], None)
  {}

  lemma SisterGoesFirst(f: nat)
    requires f <= 1
    ensures Dispatch(THREE, Trio(f == 1, f == 0, [2, 1 - f], None), 0, Taken, [])
            == Sent(Trio(f == 1, f == 0, [2], Some(1 - f)), Some(Telegram(PollRead(1 - f), GFA, 0x11 - f, 1, [])))
  {
    var h := Trio(f == 1, f == 0, [2, 1 - f], None);
    assert AffineLane(THREE, h) == [1 - f, 2];
  }

  // One round: the sister falls due while `f` is read; the answer comes; the next offer takes her.

  const DUE := Ask(Update(0, NoSource))
  const NEXT := Offering(0, Taken, [])

  ghost function Done(f: nat): Event {
    Answer(0x10 + f, [0], false, imap[], false, NoSource, [])
  }

  lemma FallsDue(w: World, f: nat)
    requires Held(w, f)
    ensures Enabled(THREE, w, DUE) && BothDue(Step(THREE, w, DUE), f)
  {
    SisterFallsDue(f);
  }

  lemma IsDone(w: World, f: nat)
    requires BothDue(w, f)
    ensures Enabled(THREE, w, Done(f)) && Freed(Step(THREE, w, Done(f)), f)
  {
    AnswerFrees(f);
  }

  lemma GoesNext(w: World, f: nat)
    requires Freed(w, f)
    ensures Enabled(THREE, w, NEXT) && Held(Step(THREE, w, NEXT), 1 - f) && |GfaSent(THREE, w, NEXT)| >= 1
  {
    SisterGoesFirst(f);
    assert 1 - f in w.hub.readLane;
    assert 1 - f in GfaSent(THREE, w, NEXT);
  }

  /** Entity `x` waits in every world of the run. */
  ghost predicate WaitsAllAlong(c: Config, w: World, evs: seq<Event>, x: nat)
    requires ValidRun(c, w, evs)
    decreases |evs|
  {
    x in w.hub.readLane && (evs != [] ==> WaitsAllAlong(c, Step(c, w, evs[0]), evs[1..], x))
  }

  /** The run sends at least `n` GFA reads while entity 2 waits all along. */
  ghost predicate HoldsBack(w: World, evs: seq<Event>, n: nat) {
    ValidRun(THREE, w, evs) && WaitsAllAlong(THREE, w, evs, 2) && RunTally(THREE, w, evs).sent >= n
  }

  lemma OneMore(w: World, ev: Event, rest: seq<Event>, m: nat, n: nat)
    requires Enabled(THREE, w, ev) && 2 in w.hub.readLane && HoldsBack(Step(THREE, w, ev), rest, m)
    requires n <= m + |GfaSent(THREE, w, ev)|
    ensures HoldsBack(w, [ev] + rest, n)
  {
    assert ([ev] + rest)[1..] == rest;
  }

  /** Some run from here sends at least `n` GFA reads while entity 2 waits all along. */
  ghost predicate Starves(w: World, n: nat) {
    exists evs :: HoldsBack(w, evs, n)
  }

  lemma StarvesBefore(w: World, ev: Event, m: nat, n: nat)
    requires Enabled(THREE, w, ev) && 2 in w.hub.readLane && Starves(Step(THREE, w, ev), m)
    requires n <= m + |GfaSent(THREE, w, ev)|
    ensures Starves(w, n)
  {
    var rest :| HoldsBack(Step(THREE, w, ev), rest, m);
    OneMore(w, ev, rest, m, n);
  }

  lemma StarvesNone(w: World, f: nat)
    requires Held(w, f)
    ensures Starves(w, 0)
  {
    var none: seq<Event> := [];
    assert HoldsBack(w, none, 0);
  }

  lemma DueStarves(w: World, f: nat) returns (r: World)
    requires Held(w, f)
    ensures BothDue(r, f) && forall m: nat :: Starves(r, m) ==> Starves(w, m)
  {
    FallsDue(w, f);
    r := Step(THREE, w, DUE);
    forall m: nat | Starves(r, m) ensures Starves(w, m) { StarvesBefore(w, DUE, m, m); }
  }

  lemma DoneStarves(w: World, f: nat) returns (r: World)
    requires BothDue(w, f)
    ensures Freed(r, f) && forall m: nat :: Starves(r, m) ==> Starves(w, m)
  {
    IsDone(w, f);
    r := Step(THREE, w, Done(f));
    forall m: nat | Starves(r, m) ensures Starves(w, m) { StarvesBefore(w, Done(f), m, m); }
  }

  lemma NextStarves(w: World, f: nat) returns (r: World)
    requires Freed(w, f)
    ensures Held(r, 1 - f) && forall m: nat :: Starves(r, m) ==> Starves(w, m + 1)
  {
    GoesNext(w, f);
    r := Step(THREE, w, NEXT);
    forall m: nat | Starves(r, m) ensures Starves(w, m + 1) { StarvesBefore(w, NEXT, m, m + 1); }
  }

  lemma RoundStarves(w: World, f: nat, n: nat) returns (r: World)
    requires Held(w, f) && n > 0
    ensures Held(r, 1 - f) && (Starves(r, n - 1) ==> Starves(w, n))
  {
    var a := DueStarves(w, f);
    var b := DoneStarves(a, f);
    r := NextStarves(b, f);
  }

  lemma {:induction false} RoundsStarve(w: World, f: nat, n: nat)
    requires Held(w, f)
    ensures Starves(w, n)
    decreases n
  {
    if n == 0 {
      StarvesNone(w, f);
    } else {
      var r := RoundStarves(w, f, n);
      RoundsStarve(r, 1 - f, n - 1);
    }
  }

  // The way there from boot: all three fall due, the two of the burner control go first.

  const FIRST := Hub([Entity([], 0, true, false, false), Entity([], 0, true, false, false),
                      Entity([], 0, true, false, false)],
                     [0, 1, 2], [], [], None, NoOp, false, false, 0, WatchdogBudget(1),
                     None, [], None, [], IdentIdle, 0, OWN, ClockState(Idle, false, 0, None), 0)

  lemma AllFallDue()
    ensures External(THREE, Start(THREE, false), Update(0, NoSource)) == FIRST
  {
    var h := Start(THREE, false);
    var q := Entity([], 0, true, false, false);
    assert ScheduleBelow(THREE, h, 0, 1) == h.(ent := [q, BLANK, BLANK], readLane := [0]);
    assert ScheduleBelow(THREE, h, 0, 2) == h.(ent := [q, q, BLANK], readLane := [0, 1]);
    assert ScheduleBelow(THREE, h, 0, 3) == h.(ent := [q, q, q], readLane := [0, 1, 2]);
  }

  lemma FirstIsRead()
    ensures Dispatch(THREE, FIRST, 0, Taken, [])
            == Sent(Trio(true, true, [1, 2], Some(0)), Some(Telegram(PollRead(0), GFA, 0x10, 1, [])))
    ensures Respond(THREE, Trio(true, true, [1, 2], Some(0)), 0x10, [0], false, NoSource, [])
            == Trio(false, true, [1, 2], None)
    ensures Dispatch(THREE, Trio(false, true, [1, 2], None), 0, Taken, [])
            == Sent(Trio(false, true, [2], Some(1)), Some(Telegram(PollRead(1), GFA, 0x11, 1, [])))
  {
    assert AffineLane(THREE, FIRST) == [0, 1, 2];
    assert AffineLane(THREE, Trio(false, true, [1, 2], None)) == [1, 2];
  }

  ghost predicate Leads(w: World, evs: seq<Event>, r: World) {
    ValidRun(THREE, w, evs) && Run(THREE, w, evs) == r
  }

  lemma LeadsOn(w: World, ev: Event, rest: seq<Event>, r: World)
    requires Enabled(THREE, w, ev) && Leads(Step(THREE, w, ev), rest, r)
    ensures Leads(w, [ev] + rest, r)
  {
    assert ([ev] + rest)[1..] == rest;
  }

  lemma FirstIsDone(w: World) returns (evs: seq<Event>, r: World)
    requires w.hub == Trio(true, true, [1, 2], Some(0)) && Reading(w, 0)
    ensures Leads(w, evs, r) && Held(r, 1)
  {
    FirstIsRead();
    var a := Step(THREE, w, Done(0));
    r := Step(THREE, a, NEXT);
    LeadsOn(a, NEXT, [], r);
    LeadsOn(w, Done(0), [NEXT] + [], r);
    evs := [Done(0)] + ([NEXT] + []);
  }

  lemma BootIsHeld(mem: Memory) returns (evs: seq<Event>, r: World)
    ensures Leads(Boot(THREE, false, mem), evs, r) && Held(r, 1)
  {
    AllFallDue();
    FirstIsRead();
    var w := Boot(THREE, false, mem);
    var a := Step(THREE, w, DUE);
    evs, r := FirstIsDone(Step(THREE, a, NEXT));
    LeadsOn(a, NEXT, evs, r);
    LeadsOn(w, DUE, [NEXT] + evs, r);
    evs := [DUE] + ([NEXT] + evs);
  }

  /** Entity 2 waits, and no read of the burner control. */
  predicate OnlyTwoWaits(h: Hub) {
    2 in h.readLane && GfaWaiting(THREE, h) == {}
  }

  lemma HeldStarves(w: World, f: nat, n: nat)
    requires Held(w, f)
    ensures OnlyTwoWaits(w.hub) && Starves(w, n)
  {
    RoundsStarve(w, f, n);
    assert forall e :: e in w.hub.readLane ==> e == 2;
  }

  /**
   There is no bound. From boot the hub gets where entity 2 waits and no GFA read does, and
   from there, for every n, some run sends n GFA reads while entity 2 waits all along: two
   entities of the burner control that fall due again while the other is read.
   */
  lemma AffinityStarves(mem: Memory, n: nat)
    ensures ValidConfig(THREE)
    ensures exists before, w ::
      Leads(Boot(THREE, false, mem), before, w) && OnlyTwoWaits(w.hub) && Starves(w, n)
  {
    var before, w := BootIsHeld(mem);
    HeldStarves(w, 1, n);
  }
}
