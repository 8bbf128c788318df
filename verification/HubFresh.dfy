/** The newest staged value is never lost: it is queued, about to be merged, sent, or was dropped by an error. */
module HubFresh {
  import opened Basics
  import opened BitFields
  import opened HubModel
  import opened HubInvariants
  import opened HubWorld
  import opened HubBus
  import opened HubSerial

  /** The entity payload a telegram carries: what was staged when it was sent or merged. */
  function Payload(x: Entry): seq<byte> {
    if x.telegram.kind.MergedWrite? then x.field else x.telegram.bytes
  }

  predicate Flying(h: Hub, e: nat, op: OpType) {
    h.inFlight == Some(e) && h.op == op
  }

  /**
   One entity: a payload staged since the last transmission or merge waits in the write
   lane or for its read; otherwise what is on its way is what is staged.
   */
  predicate FreshAt(h: Hub, owed: set<nat>, sent: seq<byte>, field: seq<byte>, e: nat) {
    && (e in owed ==> Get(h, e).writeQueued || Flying(h, e, RmwReadOp))
    && (Flying(h, e, WriteOp) ==> e in owed || Get(h, e).staged == sent)
    && (h.rmwPending == Some(e) ==> e in owed || Get(h, e).staged == field)
  }

  predicate Fresh(c: Config, h: Hub, owed: set<nat>, sent: seq<byte>, field: seq<byte>) {
    forall e :: 0 <= e < |c.entities| ==> FreshAt(h, owed, sent, field, e)
  }

  /** Staged bytes stay and queued writes stay queued. */
  predicate KeepsWrites(h: Hub, r: Hub, e: nat) {
    Get(r, e).staged == Get(h, e).staged && (Get(h, e).writeQueued ==> Get(r, e).writeQueued)
  }

  // --- requests -----------------------------------------------------------------------------------

  lemma ScheduleOneKeeps(c: Config, h: Hub, now: u32, n: nat, e: nat)
    ensures KeepsWrites(h, ScheduleOne(c, h, now, n), e)
  {}

  lemma {:induction false} ScheduleKeeps(c: Config, h: Hub, now: u32, n: nat, e: nat)
    ensures KeepsWrites(h, ScheduleBelow(c, h, now, n), e)
  {
    if n > 0 {
      ScheduleKeeps(c, h, now, n - 1, e);
      ScheduleOneKeeps(c, ScheduleBelow(c, h, now, n - 1), now, n - 1, e);
    }
  }

  lemma StartSyncKeeps(c: Config, h: Hub, source: TimeSource, e: nat)
    requires source.Source?
    ensures KeepsWrites(h, StartSync(c, h, source), e)
  {}

  lemma TickKeeps(c: Config, h: Hub, now: u32, source: TimeSource, e: nat)
    ensures KeepsWrites(h, Tick(c, h, now, source), e)
  {
    if c.clock.Some? && source.Source? && h.clock.phase == Idle {
      var armed := h.(clock := h.clock.(didBoot := true, nextSync := Wrap32(now + c.clock.value.config.interval)));
      StartSyncKeeps(c, armed, source, e);
      var r := Tick(c, h, now, source);
      assert r == h || r == armed || r == StartSync(c, armed, source);
    }
  }

  /** Only staging changes what is staged. */
  lemma OtherRequestsKeep(c: Config, h: Hub, r: Request, e: nat)
    requires !r.Control?
    ensures KeepsWrites(h, External(c, h, r), e)
  {
    match r
    case Press(_) =>
    case QueueRaw(_) =>
    case RefreshAll(_) =>
    case Update(now, source) =>
      TickKeeps(c, h, now, source, e);
      ScheduleKeeps(c, Tick(c, h, now, source), now, |c.entities|, e);
  }

  /** A staged payload is queued at once, and nobody else's write is touched. */
  lemma ControlQueues(c: Config, h: Hub, e: nat, payload: seq<byte>)
    requires Inv(c, h) && e < |c.entities|
    ensures var r := External(c, h, Control(e, payload));
            && (Stageable(payload) ==> Get(r, e).staged == payload && Get(r, e).writeQueued)
            && (!Stageable(payload) ==> r == h)
            && (forall f :: f != e ==> KeepsWrites(h, r, f))
  {
    StageInv(c, h, e, payload);
    RequestWriteInv(c, Stage(h, e, payload), e);
    LanesHaveRoom(c, Stage(h, e, payload), e);
  }

  lemma ExternalFresh(c: Config, h: Hub, r: Request, owed: set<nat>, sent: seq<byte>, field: seq<byte>)
    requires Inv(c, h) && ValidRequest(c, r) && Fresh(c, h, owed, sent, field)
    ensures Fresh(c, External(c, h, r), owed + Owing([r]), sent, field)
  {
    ExternalSlot(c, h, r);
    if r.Control? {
      ControlQueues(c, h, r.e, r.payload);
    }
    var n := External(c, h, r);
    forall e | 0 <= e < |c.entities|
      ensures FreshAt(n, owed + Owing([r]), sent, field, e)
    {
      assert FreshAt(h, owed, sent, field, e);
      if r.Control? {
        assert r in [r];
        assert Stageable(r.payload) ==> r.e in Owing([r]);
        assert e != r.e ==> KeepsWrites(h, n, e);
      } else {
        OtherRequestsKeep(c, h, r, e);
      }
    }
  }

  lemma OwingSplit(reqs: seq<Request>)
    requires reqs != []
    ensures Owing(reqs) == Owing(reqs[..|reqs| - 1]) + Owing([reqs[|reqs| - 1]])
  {
    assert reqs == reqs[..|reqs| - 1] + [reqs[|reqs| - 1]];
  }

  lemma {:induction false} HandlersFresh(c: Config, h: Hub, reqs: seq<Request>, owed: set<nat>, sent: seq<byte>,
                                         field: seq<byte>)
    requires ValidConfig(c) && Inv(c, h) && ValidRequests(c, reqs) && Fresh(c, h, owed, sent, field)
    ensures Fresh(c, Handlers(c, h, reqs), owed + Owing(reqs), sent, field)
  {
    if reqs == [] {
      assert owed + Owing(reqs) == owed;
    } else {
      var before := reqs[..|reqs| - 1];
      HandlersInv(c, h, before);
      HandlersFresh(c, h, before, owed, sent, field);
      ExternalFresh(c, Handlers(c, h, before), reqs[|reqs| - 1], owed + Owing(before), sent, field);
      OwingSplit(reqs);
      assert owed + Owing(reqs) == owed + Owing(before) + Owing([reqs[|reqs| - 1]]);
    }
  }

  lemma CallbackFresh(c: Config, h: Hub, e: nat, reqs: seq<Request>, owed: set<nat>, sent: seq<byte>, field: seq<byte>)
    requires ValidConfig(c) && Inv(c, h) && ValidRequests(c, reqs) && Fresh(c, h, owed, sent, field)
    ensures var ran := if IsClock(c, e) then [] else reqs;
            && Fresh(c, HandleFailure(c, h, e, reqs), owed + Owing(ran), sent, field)
            && Fresh(c, HandleWriteResponse(c, h, e, reqs), owed + Owing(ran), sent, field)
  {
    HandlersFresh(c, h, reqs, owed, sent, field);
    PhaseFresh(c, h, Idle, owed, sent, field);
    PhaseFresh(c, h, Verifying, owed, sent, field);
    assert owed + Owing([]) == owed;
  }

  lemma PhaseFresh(c: Config, h: Hub, p: Phase, owed: set<nat>, sent: seq<byte>, field: seq<byte>)
    requires Fresh(c, h, owed, sent, field)
    ensures Fresh(c, SetPhase(h, p), owed, sent, field)
  {
    forall e | 0 <= e < |c.entities|
      ensures FreshAt(SetPhase(h, p), owed, sent, field, e)
    {
      assert FreshAt(h, owed, sent, field, e);
    }
  }

  /** Freshness of a state in which nothing is on its way only speaks of the lanes. */
  lemma QuietFresh(c: Config, h: Hub, owed: set<nat>, sent: seq<byte>, field: seq<byte>)
    requires SlotFree(h) && h.rmwPending.None?
    requires forall e :: 0 <= e < |c.entities| && e in owed ==> Get(h, e).writeQueued
    ensures Fresh(c, h, owed, sent, field)
  {
    forall e | 0 <= e < |c.entities|
      ensures FreshAt(h, owed, sent, field, e)
    {}
  }

  // --- dispatch --------------------------------------------------------------------------------------

  /** What is on its way after an offer. */
  function SentAfter(s: Sent, sent: seq<byte>, field: seq<byte>): seq<byte> {
    match s.telegram
    case None => sent
    case Some(t) => if t.kind.MergedWrite? then field else t.bytes
  }

  lemma MergedFresh(c: Config, h: Hub, now: u32, v: Verdict, reqs: seq<Request>, owed: set<nat>, sent: seq<byte>,
                    field: seq<byte>)
    requires ValidConfig(c) && Inv(c, h) && ValidRequests(c, reqs) && Fresh(c, h, owed, sent, field)
    requires h.rmwPending.Some?
    ensures var s := DispatchMerged(c, h, now, v, reqs);
            Fresh(c, s.hub, owed + Owing(RanOffer(c, h, v, reqs)), SentAfter(s, sent, field), field)
  {
    var e := h.rmwPending.value;
    var s := DispatchMerged(c, h, now, v, reqs);
    assert owed + Owing([]) == owed;
    match Offer(WriteAvailable(c.protocol, Of(c, e).space), v)
    case Busy =>
    case Never =>
      var ended := EndWrite(h.(rmwPending := None), e);
      EndWriteInv(c, h, h.(rmwPending := None), e);
      OwedAreQueued(c, h, owed, sent, field);
      QuietFresh(c, ended, owed, sent, field);
      CallbackFresh(c, ended, e, reqs, owed, sent, field);
    case Taken =>
      forall f | 0 <= f < |c.entities|
        ensures FreshAt(s.hub, owed, SentAfter(s, sent, field), field, f)
      {
        assert FreshAt(h, owed, sent, field, f);
      }
  }

  /** With the slot free, whoever owes is queued. */
  lemma OwedAreQueued(c: Config, h: Hub, owed: set<nat>, sent: seq<byte>, field: seq<byte>)
    requires Fresh(c, h, owed, sent, field) && SlotFree(h)
    ensures forall e :: 0 <= e < |c.entities| && e in owed ==> Get(h, e).writeQueued
  {
    forall e | 0 <= e < |c.entities| && e in owed
      ensures Get(h, e).writeQueued
    {
      assert FreshAt(h, owed, sent, field, e);
    }
  }

  lemma IdentRawFresh(c: Config, h: Hub, now: u32, v: Verdict, reqs: seq<Request>, owed: set<nat>, sent: seq<byte>,
                      field: seq<byte>)
    requires ValidConfig(c) && Inv(c, h) && ValidRequests(c, reqs) && Fresh(c, h, owed, sent, field)
    requires SlotFree(h) && h.rmwPending.None?
    requires (!h.ident.IdentIdle? && !h.ident.IdentDone?) || h.rawLane != []
    ensures var s := Dispatch(c, h, now, v, reqs);
            Fresh(c, s.hub, owed + Owing(RanOffer(c, h, v, reqs)), SentAfter(s, sent, field), field)
  {
    var s := Dispatch(c, h, now, v, reqs);
    OwedAreQueued(c, h, owed, sent, field);
    assert owed + Owing([]) == owed;
    if !h.ident.IdentIdle? && !h.ident.IdentDone? {
      var moved := h.(ident := IdentNext(c.protocol, h.ident, false));
      IdentAdvanceInv(c, h, false, []);
      QuietFresh(c, moved, owed, sent, field);
      HandlersFresh(c, moved, reqs, owed, sent, field);
    } else {
      var rest := h.(rawAddr := h.rawLane[0].addr, rawLane := h.rawLane[1..]);
      InvFrame(c, h, rest);
      QuietFresh(c, h.(rawAddr := h.rawLane[0].addr), owed, sent, field);
      QuietFresh(c, rest, owed, sent, field);
      HandlersFresh(c, rest, reqs, owed, sent, field);
    }
    if s.telegram.Some? {
      forall f | 0 <= f < |c.entities|
        ensures FreshAt(s.hub, owed, SentAfter(s, sent, field), field, f)
      {
        assert FreshAt(h, owed, sent, field, f);
      }
    }
  }

  lemma WriteTurnFresh(c: Config, h: Hub, now: u32, v: Verdict, reqs: seq<Request>, owed: set<nat>, sent: seq<byte>,
                       field: seq<byte>)
    requires ValidConfig(c) && Inv(c, h) && ValidRequests(c, reqs) && Fresh(c, h, owed, sent, field)
    requires WriteTurn(h)
    ensures var s := DispatchWrite(c, h, now, v, reqs);
            Fresh(c, s.hub, owed - Released(c, h, v) + Owing(RanOffer(c, h, v, reqs)), SentAfter(s, sent, field), field)
  {
    var e := h.writeLane[0];
    var s := DispatchWrite(c, h, now, v, reqs);
    OwedAreQueued(c, h, owed, sent, field);
    assert e in h.writeLane;
    var kept := owed - Released(c, h, v);
    assert kept + Owing([]) == kept;
    if HeadDropped(c, h, v) {
      var dropped := DropWrite(h, e);
      DropWriteInv(c, h);
      QuietFresh(c, dropped, kept, sent, field);
      CallbackFresh(c, dropped, e, reqs, kept, sent, field);
    } else if s.telegram.Some? {
      forall f | 0 <= f < |c.entities|
        ensures FreshAt(s.hub, kept, SentAfter(s, sent, field), field, f)
      {
        assert FreshAt(h, owed, sent, field, f);
      }
    }
  }

  lemma ReadTurnFresh(c: Config, h: Hub, now: u32, v: Verdict, owed: set<nat>, sent: seq<byte>, field: seq<byte>)
    requires Inv(c, h) && Fresh(c, h, owed, sent, field) && SlotFree(h) && h.rmwPending.None?
    ensures var s := DispatchRead(c, h, now, v); Fresh(c, s.hub, owed, SentAfter(s, sent, field), field)
  {
    var s := DispatchRead(c, h, now, v);
    OwedAreQueued(c, h, owed, sent, field);
    forall f | 0 <= f < |c.entities|
      ensures FreshAt(s.hub, owed, SentAfter(s, sent, field), field, f)
    {
      assert FreshAt(h, owed, sent, field, f);
    }
  }

  lemma DispatchFresh(c: Config, h: Hub, now: u32, v: Verdict, reqs: seq<Request>, owed: set<nat>, sent: seq<byte>,
                      field: seq<byte>)
    requires ValidConfig(c) && Inv(c, h) && ValidRequests(c, reqs) && Fresh(c, h, owed, sent, field)
    ensures var s := Dispatch(c, h, now, v, reqs);
            Fresh(c, s.hub, owed - Released(c, h, v) + Owing(RanOffer(c, h, v, reqs)), SentAfter(s, sent, field), field)
  {
    if WriteTurn(h) {
      WriteTurnFresh(c, h, now, v, reqs, owed, sent, field);
    } else {
      assert owed - Released(c, h, v) == owed;
      if !SlotFree(h) {
        assert owed + Owing([]) == owed;
      } else if h.rmwPending.Some? {
        MergedFresh(c, h, now, v, reqs, owed, sent, field);
      } else if (!h.ident.IdentIdle? && !h.ident.IdentDone?) || h.rawLane != [] {
        IdentRawFresh(c, h, now, v, reqs, owed, sent, field);
      } else {
        assert owed + Owing([]) == owed;
        ReadTurnFresh(c, h, now, v, owed, sent, field);
      }
    }
  }

  // --- completion ---------------------------------------------------------------------------------------

  lemma {:induction false} RefreshKeeps(c: Config, h: Hub, writer: nat, n: nat, e: nat)
    ensures KeepsWrites(h, RefreshBelow(c, h, writer, n), e)
  {
    if n > 0 { RefreshKeeps(c, h, writer, n - 1, e); }
  }

  lemma ReadBacksKeep(c: Config, h: Hub, writer: nat, e: nat)
    ensures KeepsWrites(h, ReadBacks(c, h, writer), e)
  {
    RefreshKeeps(c, if !Of(c, writer).readBack then DropVerify(h, writer) else h, writer, |c.entities|, e);
  }

  lemma KeptFresh(c: Config, h: Hub, r: Hub, owed: set<nat>, sent: seq<byte>, field: seq<byte>)
    requires Fresh(c, h, owed, sent, field)
    requires h.inFlight == r.inFlight && h.op == r.op && h.rmwPending == r.rmwPending
    requires forall e :: 0 <= e < |c.entities| ==> KeepsWrites(h, r, e)
    ensures Fresh(c, r, owed, sent, field)
  {
    forall e | 0 <= e < |c.entities|
      ensures FreshAt(r, owed, sent, field, e)
    {
      assert FreshAt(h, owed, sent, field, e) && KeepsWrites(h, r, e);
    }
  }

  lemma FailOpFresh(c: Config, h: Hub, reqs: seq<Request>, owed: set<nat>, sent: seq<byte>, field: seq<byte>)
    requires ValidConfig(c) && Inv(c, h) && ValidRequests(c, reqs) && Fresh(c, h, owed, sent, field) && h.inFlight.Some?
    ensures var e := h.inFlight.value;
            var r := FailOp(c, FreeSlot(h), e, h.op, reqs);
            Fresh(c, r, owed - Settled(h, r) + Owing(if IsClock(c, e) then [] else reqs), sent, field)
  {
    var e, free := h.inFlight.value, FreeSlot(h);
    var r := FailOp(c, free, e, h.op, reqs);
    FailOpSlot(c, h, reqs);
    var kept := owed - Settled(h, r);
    var ended := if h.op == ReadOp then EndRead(DropVerify(free, e), e)
                 else if h.op == WriteOp then EndWrite(DropVerify(free, e), e) else EndWrite(free, e);
    FailedInv(c, h);
    forall f | 0 <= f < |c.entities| && f in kept
      ensures Get(ended, f).writeQueued
    {
      assert FreshAt(h, owed, sent, field, f);
    }
    QuietFresh(c, ended, kept, sent, field);
    CallbackFresh(c, ended, e, reqs, kept, sent, field);
  }

  lemma FailedInv(c: Config, h: Hub)
    requires Inv(c, h) && h.inFlight.Some?
    ensures var e, free := h.inFlight.value, FreeSlot(h);
            && (h.op == ReadOp ==> Inv(c, EndRead(DropVerify(free, e), e)))
            && (h.op == WriteOp ==> Inv(c, EndWrite(DropVerify(free, e), e)))
            && (h.op == RmwReadOp ==> Inv(c, EndWrite(free, e)))
  {
    var e, free := h.inFlight.value, FreeSlot(h);
    if h.op == ReadOp {
      EndReadInv(c, h);
      InvFrame(c, EndRead(free, e), EndRead(DropVerify(free, e), e));
    } else {
      FlownWriteInv(c, h);
      InvFrame(c, EndWrite(free, e), EndWrite(DropVerify(free, e), e));
    }
  }

  lemma FailFresh(c: Config, h: Hub, reqs: seq<Request>, owed: set<nat>, sent: seq<byte>, field: seq<byte>)
    requires ValidConfig(c) && Inv(c, h) && ValidRequests(c, reqs) && Fresh(c, h, owed, sent, field)
    ensures var r := Fail(c, h, reqs);
            Fresh(c, r, owed - Settled(h, r) + Owing(RanEnd(c, h, r, false, reqs)), sent, field)
  {
    var r := Fail(c, h, reqs);
    assert owed + Owing([]) == owed && owed - {} == owed;
    if h.inFlight.Some? {
      FailOpSlot(c, h, reqs);
      FailOpFresh(c, h, reqs, owed, sent, field);
    } else if h.identInFlight {
      IdentFresh(c, h, false, reqs, owed, sent, field);
    } else if h.rawInFlight {
      RawFresh(c, h, reqs, owed, sent, field);
    }
  }

  lemma RawFresh(c: Config, h: Hub, reqs: seq<Request>, owed: set<nat>, sent: seq<byte>, field: seq<byte>)
    requires ValidConfig(c) && Inv(c, h) && ValidRequests(c, reqs) && Fresh(c, h, owed, sent, field) && h.rawInFlight
    ensures Fresh(c, Handlers(c, h.(rawInFlight := false), reqs), owed + Owing(reqs), sent, field)
  {
    var landed := h.(rawInFlight := false);
    LandedInv(c, h);
    KeptFresh(c, h, landed, owed, sent, field);
    HandlersFresh(c, landed, reqs, owed, sent, field);
  }

  lemma IdentFresh(c: Config, h: Hub, full: bool, reqs: seq<Request>, owed: set<nat>, sent: seq<byte>, field: seq<byte>)
    requires ValidConfig(c) && Inv(c, h) && ValidRequests(c, reqs) && Fresh(c, h, owed, sent, field) && h.identInFlight
    ensures var r := IdentAdvance(c, h.(identInFlight := false), full, reqs);
            Fresh(c, r, owed + Owing(if r.ident.IdentDone? then reqs else []), sent, field)
  {
    var moved := h.(identInFlight := false, ident := IdentNext(c.protocol, h.ident, full));
    LandedInv(c, h);
    IdentAdvanceInv(c, h.(identInFlight := false), full, []);
    KeptFresh(c, h, moved, owed, sent, field);
    HandlersFresh(c, moved, reqs, owed, sent, field);
    HandlersIdent(c, moved, reqs);
    assert owed + Owing([]) == owed;
  }

  lemma MergeFresh(c: Config, h: Hub, data: seq<byte>, unserved: bool, reqs: seq<Request>,
                   owed: set<nat>, sent: seq<byte>, field: seq<byte>)
    requires ValidConfig(c) && Inv(c, h) && ValidRequests(c, reqs) && Fresh(c, h, owed, sent, field)
    requires h.inFlight.Some? && h.op == RmwReadOp
    ensures var e := h.inFlight.value;
            var r := RmwHandleRead(c, FreeSlot(h), e, data, unserved, reqs);
            var ran := if IsClock(c, e) || r.rmwPending.Some? then [] else reqs;
            Fresh(c, r, owed - Settled(h, r) + Owing(ran), sent,
                  if r.rmwPending == h.inFlight then Get(h, e).staged else field)
  {
    var e, free := h.inFlight.value, FreeSlot(h);
    var r := RmwHandleRead(c, free, e, data, unserved, reqs);
    FailOpSlot(c, h, reqs);
    if r.rmwPending.Some? {
      RmwHandleReadSlot(c, h, data, unserved, reqs);
      var kept := owed - Settled(h, r);
      assert kept + Owing([]) == kept;
      forall f | 0 <= f < |c.entities|
        ensures FreshAt(r, kept, sent, Get(h, e).staged, f)
      {
        assert FreshAt(h, owed, sent, field, f);
      }
    } else {
      assert r == RmwAbort(c, free, e, reqs);
      FailOpFresh(c, h, reqs, owed, sent, field);
    }
  }

  lemma AckFresh(c: Config, h: Hub, reqs: seq<Request>, owed: set<nat>, sent: seq<byte>, field: seq<byte>)
    requires ValidConfig(c) && Inv(c, h) && ValidRequests(c, reqs) && Fresh(c, h, owed, sent, field)
    requires h.inFlight.Some? && h.op == WriteOp
    ensures var e := h.inFlight.value;
            var r := Acknowledge(c, FreeSlot(h), e, reqs);
            var ran := if IsClock(c, e) || Get(h, e).writeQueued then [] else reqs;
            Fresh(c, r, owed + Owing(ran), sent, field)
  {
    var e := h.inFlight.value;
    var ended := EndWrite(FreeSlot(h), e);
    FlownWriteInv(c, h);
    forall f | 0 <= f < |c.entities| && f in owed
      ensures Get(ended, f).writeQueued
    {
      assert FreshAt(h, owed, sent, field, f);
    }
    QuietFresh(c, ended, owed, sent, field);
    assert owed + Owing([]) == owed;
    if Get(ended, e).writeQueued {
      KeptFresh(c, ended, DropVerify(ended, e), owed, sent, field);
    } else {
      var handled := HandleWriteResponse(c, ended, e, reqs);
      CallbackFresh(c, ended, e, reqs, owed, sent, field);
      ReadBacksSlot(c, handled, e);
      forall f | 0 <= f < |c.entities|
        ensures KeepsWrites(handled, ReadBacks(c, handled, e), f)
      {
        ReadBacksKeep(c, handled, e, f);
      }
      KeptFresh(c, handled, ReadBacks(c, handled, e), owed + Owing(if IsClock(c, e) then [] else reqs), sent, field);
    }
  }

  lemma ReadDoneFresh(c: Config, h: Hub, data: seq<byte>, source: TimeSource, reqs: seq<Request>,
                      owed: set<nat>, sent: seq<byte>, field: seq<byte>)
    requires ValidConfig(c) && Inv(c, h) && ValidRequests(c, reqs) && Fresh(c, h, owed, sent, field)
    requires h.inFlight.Some? && h.op == ReadOp
    ensures var e := h.inFlight.value;
            var r := ReadDone(c, FreeSlot(h), e, data, source, reqs);
            Fresh(c, r, owed + Owing(if IsClock(c, e) then [] else reqs), sent, field)
  {
    var e := h.inFlight.value;
    var ended := DropVerify(EndRead(FreeSlot(h), e), e);
    EndReadInv(c, h);
    DropVerifyInv(c, EndRead(FreeSlot(h), e), e);
    forall f | 0 <= f < |c.entities| && f in owed
      ensures Get(ended, f).writeQueued
    {
      assert FreshAt(h, owed, sent, field, f);
    }
    QuietFresh(c, ended, owed, sent, field);
    HandlersFresh(c, ended, reqs, owed, sent, field);
    assert owed + Owing([]) == owed;
    if IsClock(c, e) {
      var r := HandleResponse(c, ended, e, data, source, reqs);
      CallbacksSlot(c, ended, e, data, source, reqs);
      forall f | 0 <= f < |c.entities| && f in owed
        ensures Get(r, f).writeQueued
      {
        ClockReadQueues(c, ended, data, source, f);
      }
      QuietFresh(c, r, owed, sent, field);
    }
  }

  lemma ClockReadQueues(c: Config, h: Hub, data: seq<byte>, source: TimeSource, e: nat)
    requires Get(h, e).writeQueued
    ensures Get(ClockRead(c, h, data, source), e).writeQueued
  {
    if c.clock.Some? && source.Source? {
      var k := c.clock.value.id;
      var d := DeviceClock.Decide(c.clock.value.config, h.clock.learned, ToInts(data), source.now);
      var idle := h.(clock := h.clock.(phase := Idle, learned := d.learned));
      if d.payload.Some? {
        var a := RequestWrite(c, Stage(idle, k, ToBytes(d.payload.value)), k);
        assert Get(a.hub, e).writeQueued;
      }
    }
  }

  lemma RespondFresh(c: Config, h: Hub, addr: nat, data: seq<byte>, unserved: bool, source: TimeSource,
                     reqs: seq<Request>, owed: set<nat>, sent: seq<byte>, field: seq<byte>)
    requires ValidConfig(c) && Inv(c, h) && ValidRequests(c, reqs) && Fresh(c, h, owed, sent, field)
    ensures var r := Respond(c, h, addr, data, unserved, source, reqs);
            var answered := h.inFlight.Some? && addr == ExpectedAddr(c, h.inFlight.value, h.op);
            var field' := if h.inFlight.Some? && h.op == RmwReadOp && r.rmwPending == h.inFlight
                          then Get(h, h.inFlight.value).staged else field;
            Fresh(c, r, owed - Settled(h, r) + Owing(RanEnd(c, h, r, answered, reqs)), sent, field')
  {
    var r := Respond(c, h, addr, data, unserved, source, reqs);
    assert owed + Owing([]) == owed && owed - {} == owed;
    if h.identInFlight {
      IdentFresh(c, h, addr == IdentAddr(h.ident) && |data| >= 4, reqs, owed, sent, field);
    } else if h.rawInFlight {
      RawFresh(c, h, reqs, owed, sent, field);
    } else if h.inFlight.Some? {
      var e := h.inFlight.value;
      if addr != ExpectedAddr(c, e, h.op) {
        FailOpSlot(c, h, reqs);
        FailOpFresh(c, h, reqs, owed, sent, field);
      } else {
        match h.op
        case RmwReadOp =>
          MergeFresh(c, h, data, unserved, reqs, owed, sent, field);
          RmwHandleReadSlot(c, h, data, unserved, reqs);
        case WriteOp => AckFresh(c, h, reqs, owed, sent, field);
        case ReadOp => ReadDoneFresh(c, h, data, source, reqs, owed, sent, field);
      }
    }
  }

  // --- over whole runs ---------------------------------------------------------------------------------------

  function OnTheWay(w: World): seq<byte> {
    if w.trace == [] then [] else Payload(Last(w))
  }

  predicate FreshInv(c: Config, w: World) {
    Fresh(c, w.hub, w.owed, OnTheWay(w), w.field)
  }

  lemma OfferFreshInv(c: Config, w: World, ev: Event)
    requires ValidConfig(c) && Inv(c, w.hub) && FreshInv(c, w) && ev.Offering? && Enabled(c, w, ev)
    ensures FreshInv(c, Step(c, w, ev))
  {
    var s := Dispatch(c, w.hub, ev.now, ev.v, ev.reqs);
    var n := Step(c, w, ev);
    DispatchFresh(c, w.hub, ev.now, ev.v, ev.reqs, w.owed, OnTheWay(w), w.field);
    assert OnTheWay(n) == SentAfter(s, OnTheWay(w), w.field);
  }

  lemma StepFresh(c: Config, w: World, ev: Event)
    requires ValidConfig(c) && Inv(c, w.hub) && FreshInv(c, w) && Enabled(c, w, ev)
    ensures FreshInv(c, Step(c, w, ev))
  {
    match ev
    case Ask(r) => ExternalFresh(c, w.hub, r, w.owed, OnTheWay(w), w.field);
    case Offering(_, _, _) => OfferFreshInv(c, w, ev);
    case Guard(now, reqs) =>
      WatchdogInv(c, w.hub, now, reqs);
      FailSlot(c, w.hub, reqs);
      FailFresh(c, w.hub, reqs, w.owed, OnTheWay(w), w.field);
    case Answer(addr, data, took, effect, unserved, source, reqs) =>
      RespondFresh(c, w.hub, addr, data, unserved, source, reqs, w.owed, OnTheWay(w), w.field);
    case Error(_, _, reqs) =>
      FailSlot(c, w.hub, reqs);
      FailFresh(c, w.hub, reqs, w.owed, OnTheWay(w), w.field);
    case Silence(_, _) =>
  }

  lemma {:induction false} RunFresh(c: Config, w: World, evs: seq<Event>, start: Memory)
    requires ValidConfig(c) && SerialInv(c, w, start) && FreshInv(c, w) && ValidRun(c, w, evs)
    ensures SerialInv(c, Run(c, w, evs), start) && FreshInv(c, Run(c, w, evs))
    decreases |evs|
  {
    if evs != [] {
      StepSerial(c, w, evs[0], start);
      StepFresh(c, w, evs[0]);
      RunFresh(c, Step(c, w, evs[0]), evs[1..], start);
    }
  }

  lemma BootFresh(c: Config, identify: bool, mem: Memory)
    ensures FreshInv(c, Boot(c, identify, mem))
  {}

  /**
   The newest value is not lost. After any run, a payload staged since the entity's last
   transmission or merge, and not dropped by an error or a refusal, waits in the write
   lane or for its read before the write.
   */
  lemma NewestIsQueued(c: Config, identify: bool, mem: Memory, evs: seq<Event>, e: nat)
    requires ValidConfig(c) && ValidRun(c, Boot(c, identify, mem), evs) && e < |c.entities|
    requires e in Run(c, Boot(c, identify, mem), evs).owed
    ensures var w := Run(c, Boot(c, identify, mem), evs);
            e in w.hub.writeLane || (w.hub.inFlight == Some(e) && w.hub.op == RmwReadOp)
  {
    BootSerial(c, identify, mem);
    BootFresh(c, identify, mem);
    RunFresh(c, Boot(c, identify, mem), evs, mem);
    var w := Run(c, Boot(c, identify, mem), evs);
    assert FlagsOk(w.hub, e) && FreshAt(w.hub, w.owed, OnTheWay(w), w.field, e);
  }

  /** An acknowledgement that reaches the entity's own handler: nothing newer is queued behind it. */
  predicate ReachesHandler(c: Config, w: World, addr: nat) {
    && w.hub.inFlight.Some? && w.hub.op == WriteOp && addr == Of(c, w.hub.inFlight.value).writeAddr
    && !Get(w.hub, w.hub.inFlight.value).writeQueued
  }

  /**
   Whenever an entity hears of an acknowledgement, what it has staged is exactly what the
   acknowledged telegram carried: the bytes of a plain write, or the field a merged write
   replaced in the block its read returned.
   */
  lemma HandlerSeesAcknowledgedValue(c: Config, identify: bool, mem: Memory, evs: seq<Event>, addr: nat)
    requires ValidConfig(c) && ValidRun(c, Boot(c, identify, mem), evs)
    requires ReachesHandler(c, Run(c, Boot(c, identify, mem), evs), addr)
    ensures var w := Run(c, Boot(c, identify, mem), evs);
            var e := w.hub.inFlight.value;
            && w.trace != [] && (Last(w).telegram.kind == PlainWrite(e) || Last(w).telegram.kind == MergedWrite(e))
            && (Last(w).telegram.kind.PlainWrite? ==> Last(w).telegram.bytes == Get(w.hub, e).staged)
            && (Last(w).telegram.kind.MergedWrite? ==>
                  |w.trace| > 1 && AnsweredRead(c, w.trace[|w.trace| - 2], e)
                  && MergeOf(c, e, w.trace[|w.trace| - 2].outcome.data, Get(w.hub, e).staged, Last(w).telegram.bytes))
  {
    BootSerial(c, identify, mem);
    BootFresh(c, identify, mem);
    RunFresh(c, Boot(c, identify, mem), evs, mem);
    var w := Run(c, Boot(c, identify, mem), evs);
    var e := w.hub.inFlight.value;
    assert FlagsOk(w.hub, e) && FreshAt(w.hub, w.owed, OnTheWay(w), w.field, e);
    assert DirectlyAfterRead(c, w.trace, |w.trace| - 1);
  }
}
