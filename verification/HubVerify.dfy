/** The read-back check: what it compares, and against which write. */
module HubVerify {
  import opened Basics
  import opened BitFields
  import opened HubModel
  import opened HubInvariants
  import opened HubWorld
  import opened HubBus
  import opened HubSerial

  /** Index of the most recent merged write in the trace; -1 when there is none. */
  function LastMerged(trace: seq<Entry>): (i: int)
    ensures -1 <= i < |trace|
    ensures i >= 0 ==> trace[i].telegram.kind.MergedWrite?
    ensures forall j :: i < j < |trace| ==> !trace[j].telegram.kind.MergedWrite?
  {
    if trace == [] then -1
    else if trace[|trace| - 1].telegram.kind.MergedWrite? then |trace| - 1
    else LastMerged(trace[..|trace| - 1])
  }

  predicate Acked(x: Entry) {
    x.outcome.Answered? && x.outcome.addr == x.telegram.addr
  }

  predicate StillFlying(w: World, i: int, e: nat) {
    i == |w.trace| - 1 && w.hub.inFlight == Some(e) && w.hub.op == WriteOp
  }

  /** The armed check names the most recent merged write of all, by its entity and its bytes. */
  predicate CheckArmedFor(w: World, e: nat, i: int) {
    && i == LastMerged(w.trace) >= 0
    && w.trace[i].telegram.kind == MergedWrite(e) && w.trace[i].telegram.bytes == w.hub.verifyBuf
    && (Acked(w.trace[i]) || StillFlying(w, i, e))
    && (forall j :: i < j < |w.trace| && w.trace[j].telegram.kind == PollRead(e) ==>
          j == |w.trace| - 1 && ReadFlying(w.hub, e))
  }

  predicate VerifyInv(w: World) {
    w.hub.verify.Some? ==> CheckArmedFor(w, w.hub.verify.value, LastMerged(w.trace))
  }

  lemma OfferVerify(c: Config, w: World, ev: Event, start: Memory)
    requires ValidConfig(c) && SerialInv(c, w, start) && VerifyInv(w) && ev.Offering? && Enabled(c, w, ev)
    ensures VerifyInv(Step(c, w, ev))
  {
    var s := Dispatch(c, w.hub, ev.now, ev.v, ev.reqs);
    DispatchSlot(c, w.hub, ev.now, ev.v, ev.reqs);
    OfferedVerify(c, w, Step(c, w, ev), s);
  }

  lemma OfferedVerify(c: Config, w: World, n: World, s: Sent)
    requires VerifyInv(w) && SentWell(c, w.hub, s) && n.hub == s.hub
    requires s.telegram.None? ==> n.trace == w.trace
    requires s.telegram.Some? ==> |n.trace| == |w.trace| + 1 && n.trace[..|w.trace|] == w.trace
                                  && n.trace[|w.trace|].telegram == s.telegram.value
    ensures VerifyInv(n)
  {
    if s.telegram.Some? {
      assert n.trace[..|n.trace| - 1] == w.trace;
      if w.hub.verify.Some? {
        assert n.trace[LastMerged(w.trace)] == w.trace[LastMerged(w.trace)];
      }
    }
  }

  /** The last telegram's end moves no merged write and changes no earlier one. */
  lemma SameKinds(a: seq<Entry>, b: seq<Entry>)
    requires |a| == |b|
    requires forall i :: 0 <= i < |a| ==> a[i].telegram == b[i].telegram
    ensures LastMerged(a) == LastMerged(b)
  {}

  lemma EndedVerify(c: Config, w: World, n: World, x: Entry, start: Memory)
    requires SerialInv(c, w, start) && VerifyInv(w) && EndsAs(w, n, x)
    requires n.hub.verify.Some? ==> n.hub.verify == w.hub.verify && n.hub.verifyBuf == w.hub.verifyBuf
    requires n.hub.verify.Some? && StillFlying(w, LastMerged(w.trace), n.hub.verify.value) ==>
      Acked(x) || (n.hub.inFlight == w.hub.inFlight && n.hub.op == w.hub.op)
    requires n.hub.verify.Some? && ReadFlying(w.hub, n.hub.verify.value) ==> ReadFlying(n.hub, n.hub.verify.value)
    ensures VerifyInv(n)
  {
    SameKinds(w.trace, n.trace);
    if n.hub.verify.Some? {
      var i := LastMerged(w.trace);
      if i < |w.trace| - 1 { assert n.trace[i] == w.trace[i]; }
    }
  }

  lemma AnswerVerify(c: Config, w: World, ev: Event, start: Memory)
    requires ValidConfig(c) && SerialInv(c, w, start) && VerifyInv(w) && ev.Answer? && Enabled(c, w, ev)
    ensures VerifyInv(Step(c, w, ev))
  {
    RespondSlot(c, w.hub, ev.addr, ev.data, ev.unserved, ev.source, ev.reqs);
    assert DirectlyAfterRead(c, w.trace, |w.trace| - 1);
    EndedVerify(c, w, Step(c, w, ev), Ended(w, Answered(ev.addr, ev.data), ev.took, ev.effect), start);
  }

  lemma StepVerify(c: Config, w: World, ev: Event, start: Memory)
    requires ValidConfig(c) && SerialInv(c, w, start) && VerifyInv(w) && Enabled(c, w, ev)
    ensures VerifyInv(Step(c, w, ev))
  {
    match ev
    case Ask(r) => ExternalSlot(c, w.hub, r);
    case Offering(_, _, _) => OfferVerify(c, w, ev, start);
    case Guard(_, _) => GuardVerify(c, w, ev, start);
    case Answer(_, _, _, _, _, _, _) => AnswerVerify(c, w, ev, start);
    case Error(_, _, _) => ErrorVerify(c, w, ev, start);
    case Silence(took, effect) =>
      EndedVerify(c, w, Step(c, w, ev), Ended(w, Lost, took, effect), start);
  }

  lemma GuardVerify(c: Config, w: World, ev: Event, start: Memory)
    requires ValidConfig(c) && SerialInv(c, w, start) && VerifyInv(w) && ev.Guard? && Enabled(c, w, ev)
    ensures VerifyInv(Step(c, w, ev))
  {
    WatchdogInv(c, w.hub, ev.now, ev.reqs);
    FailSlot(c, w.hub, ev.reqs);
  }

  lemma ErrorVerify(c: Config, w: World, ev: Event, start: Memory)
    requires ValidConfig(c) && SerialInv(c, w, start) && VerifyInv(w) && ev.Error? && Enabled(c, w, ev)
    ensures VerifyInv(Step(c, w, ev))
  {
    FailSlot(c, w.hub, ev.reqs);
    EndedVerify(c, w, Step(c, w, ev), Ended(w, Failed, ev.took, ev.effect), start);
  }

  lemma {:induction false} RunVerify(c: Config, w: World, evs: seq<Event>, start: Memory)
    requires ValidConfig(c) && SerialInv(c, w, start) && VerifyInv(w) && ValidRun(c, w, evs)
    ensures SerialInv(c, Run(c, w, evs), start) && VerifyInv(Run(c, w, evs))
    decreases |evs|
  {
    if evs != [] {
      StepSerial(c, w, evs[0], start);
      StepVerify(c, w, evs[0], start);
      RunVerify(c, Step(c, w, evs[0]), evs[1..], start);
    }
  }

  /** The answer that lands now is one the check compares. */
  predicate Compares(c: Config, w: World, addr: nat) {
    w.hub.inFlight.Some? && w.hub.op == ReadOp && w.hub.verify == w.hub.inFlight
    && addr == Of(c, w.hub.inFlight.value).readAddr
  }

  /**
   Read-back soundness. Whenever an answer is compared, it answers the first read of the
   same entity dispatched after the acknowledgement of the most recent merged write of all,
   and the bytes it is compared with are the ones that write sent.
   */
  lemma ComparisonIsAboutTheLastMerge(c: Config, identify: bool, mem: Memory, evs: seq<Event>, addr: nat)
    requires ValidConfig(c) && ValidRun(c, Boot(c, identify, mem), evs)
    requires Compares(c, Run(c, Boot(c, identify, mem), evs), addr)
    ensures var w := Run(c, Boot(c, identify, mem), evs);
            var e, i := w.hub.inFlight.value, LastMerged(w.trace);
            && 0 <= i < |w.trace| - 1
            && Last(w).telegram.kind == PollRead(e)
            && w.trace[i].telegram.kind == MergedWrite(e) && Acked(w.trace[i])
            && w.trace[i].telegram.bytes == w.hub.verifyBuf
            && (forall j :: i < j < |w.trace| - 1 ==> w.trace[j].telegram.kind != PollRead(e))
  {
    BootSerial(c, identify, mem);
    RunVerify(c, Boot(c, identify, mem), evs, mem);
  }

  // --- what is reported ---------------------------------------------------------------------------

  datatype Report = NotCompared | Confirmed | FieldChanged | OutsideChanged

  /** The bits of byte `i` that belong to the field. */
  function FieldBits(c: Config, e: nat, i: nat): byte {
    if FieldOffset(c, e) <= i < FieldOffset(c, e) + FieldWidth(c, e)
    then (if Of(c, e).mask != 0 then Of(c, e).mask else 0xFF)
    else 0x00
  }

  /** Byte `i` reads back differently in a bit outside the field. */
  predicate OutsideAt(c: Config, e: nat, data: seq<byte>, written: seq<byte>, i: nat)
    requires i < |written| <= |data|
  {
    (data[i] ^ written[i]) & !FieldBits(c, e, i) != 0
  }

  predicate FieldAt(c: Config, e: nat, data: seq<byte>, written: seq<byte>, i: nat)
    requires i < |written| <= |data|
  {
    (data[i] ^ written[i]) & FieldBits(c, e, i) != 0
  }

  /** Equal bytes are exactly those that differ neither inside nor outside the field. */
  lemma DiffersSomewhere(c: Config, e: nat, data: seq<byte>, written: seq<byte>, i: nat)
    requires i < |written| <= |data|
    ensures data[i] == written[i] <==> !OutsideAt(c, e, data, written, i) && !FieldAt(c, e, data, written, i)
  {
    SplitDifference(data[i], written[i], FieldBits(c, e, i));
  }

  lemma SplitDifference(a: byte, b: byte, bits: byte)
    ensures (a ^ b) & !bits == 0 && (a ^ b) & bits == 0 <==> a == b
  {}

  predicate OutsideDiffers(c: Config, e: nat, data: seq<byte>, written: seq<byte>)
    requires |data| >= |written|
  {
    exists i :: 0 <= i < |written| && OutsideAt(c, e, data, written, i)
  }

  predicate FieldDiffers(c: Config, e: nat, data: seq<byte>, written: seq<byte>)
    requires |data| >= |written|
  {
    exists i :: 0 <= i < |written| && FieldAt(c, e, data, written, i)
  }

  /** The comparison as the hub runs it, byte by byte. */
  method CompareReadBack(c: Config, e: nat, data: seq<byte>, written: seq<byte>) returns (r: Report)
    ensures r == NotCompared <==> |data| < |written|
    ensures |data| >= |written| ==> (r == OutsideChanged <==> OutsideDiffers(c, e, data, written))
    ensures |data| >= |written| ==>
      (r == FieldChanged <==> !OutsideDiffers(c, e, data, written) && FieldDiffers(c, e, data, written))
    ensures |data| >= |written| ==> (r == Confirmed <==> forall i :: 0 <= i < |written| ==> data[i] == written[i])
  {
    if |data| < |written| {
      return NotCompared;
    }
    var outside, field := false, false;
    var i := 0;
    while i < |written|
      invariant 0 <= i <= |written|
      invariant outside <==> exists j :: 0 <= j < i && OutsideAt(c, e, data, written, j)
      invariant field <==> exists j :: 0 <= j < i && FieldAt(c, e, data, written, j)
    {
      if OutsideAt(c, e, data, written, i) {
        outside := true;
      }
      if FieldAt(c, e, data, written, i) {
        field := true;
      }
      i := i + 1;
    }
    forall j | 0 <= j < |written|
      ensures data[j] == written[j] <==> !OutsideAt(c, e, data, written, j) && !FieldAt(c, e, data, written, j)
    {
      DiffersSomewhere(c, e, data, written, j);
    }
    return if outside then OutsideChanged else if field then FieldChanged else Confirmed;
  }
}
