/**
 What the read-back check's report means: memory holds the merged block until another
 accepted telegram touches it, so a difference points at such a telegram.
 */
module HubConfirm {
  import opened AddressSpaces
  import opened BitFields
  import opened HubModel
  import opened HubWorld
  import opened HubSerial
  import opened HubVerify

  // --- memory as the telegrams left it ----------------------------------------------------------

  /** Memory after the telegrams of a trace, each doing what it says. */
  ghost function Replay(m: Memory, trace: seq<Entry>): Memory {
    if trace == [] then m else Apply(Replay(m, trace[..|trace| - 1]), trace[|trace| - 1])
  }

  lemma ReplayMore(m: Memory, trace: seq<Entry>, x: Entry)
    ensures Replay(m, trace + [x]) == Apply(Replay(m, trace), x)
  {
    assert (trace + [x])[..|trace|] == trace;
  }

  /** An acknowledged write was taken. */
  predicate AckedIsTaken(x: Entry) {
    Acked(x) && IsWrite(x.telegram) ==> x.took
  }

  ghost predicate ReplayInv(w: World, start: Memory) {
    && w.mem == Replay(start, w.trace)
    && (forall i :: 0 <= i < |w.trace| ==> AckedIsTaken(w.trace[i]))
    && (BusBusy(w) ==> !w.trace[|w.trace| - 1].took)
  }

  lemma SentReplays(w: World, n: World, x: Entry, start: Memory)
    requires ReplayInv(w, start) && n.trace == w.trace + [x] && n.mem == w.mem && x.outcome.Pending? && !x.took
    ensures ReplayInv(n, start)
  {
    ReplayMore(start, w.trace, x);
  }

  lemma OfferReplays(c: Config, w: World, ev: Event, start: Memory)
    requires ReplayInv(w, start) && ev.Offering? && Enabled(c, w, ev)
    ensures ReplayInv(Step(c, w, ev), start)
  {
    var n := Step(c, w, ev);
    if Dispatch(c, w.hub, ev.now, ev.v, ev.reqs).telegram.Some? {
      SentReplays(w, n, n.trace[|w.trace|], start);
    } else {
      assert n.trace == w.trace;
    }
  }

  lemma EndReplays(w: World, n: World, x: Entry, start: Memory)
    requires ReplayInv(w, start) && EndsAs(w, n, x) && AckedIsTaken(x)
    ensures ReplayInv(n, start)
  {
    var k := |w.trace| - 1;
    assert Replay(start, w.trace) == Apply(Replay(start, w.trace[..k]), w.trace[k]);
    ReplayMore(start, w.trace[..k], x);
  }

  lemma StepReplays(c: Config, w: World, ev: Event, start: Memory)
    requires ReplayInv(w, start) && Enabled(c, w, ev)
    ensures ReplayInv(Step(c, w, ev), start)
  {
    match ev
    case Ask(_) =>
    case Offering(_, _, _) => OfferReplays(c, w, ev, start);
    case Guard(_, _) =>
    case Answer(addr, data, took, effect, _, _, _) =>
      EndReplays(w, Step(c, w, ev), Ended(w, Answered(addr, data), took, effect), start);
    case Error(took, effect, _) => EndReplays(w, Step(c, w, ev), Ended(w, Failed, took, effect), start);
    case Silence(took, effect) => EndReplays(w, Step(c, w, ev), Ended(w, Lost, took, effect), start);
  }

  lemma {:induction false} RunReplays(c: Config, w: World, evs: seq<Event>, start: Memory)
    requires ReplayInv(w, start) && ValidRun(c, w, evs)
    ensures ReplayInv(Run(c, w, evs), start)
    decreases |evs|
  {
    if evs != [] {
      StepReplays(c, w, evs[0], start);
      RunReplays(c, Step(c, w, evs[0]), evs[1..], start);
    }
  }

  // --- a block nobody touched ---------------------------------------------------------------------

  /** The device took a telegram that may have changed the byte at `l`. */
  ghost predicate Touches(x: Entry, l: Loc) {
    x.took && (OpaqueTelegram(x.telegram)
               || (IsWrite(x.telegram) && Covers(l, x.telegram.space, x.telegram.addr, |x.telegram.bytes|)))
  }

  lemma UntouchedByteStays(m: Memory, x: Entry, l: Loc)
    requires !Touches(x, l)
    ensures Apply(m, x)[l] == m[l]
  {}

  /** A byte holds what telegram `i` made of it as long as nothing after `i` touches it. */
  lemma {:induction false} StandsSince(start: Memory, trace: seq<Entry>, i: nat, l: Loc)
    requires i < |trace| && forall j :: i < j < |trace| ==> !Touches(trace[j], l)
    ensures Replay(start, trace)[l] == Replay(start, trace[..i + 1])[l]
    decreases |trace|
  {
    if i + 1 < |trace| {
      var k := |trace| - 1;
      StandsSince(start, trace[..k], i, l);
      assert trace[..k][..i + 1] == trace[..i + 1];
      UntouchedByteStays(Replay(start, trace[..k]), trace[k], l);
    } else {
      assert trace[..i + 1] == trace;
    }
  }

  lemma WrittenByte(start: Memory, trace: seq<Entry>, i: nat, p: nat)
    requires i < |trace| && trace[i].took && IsWrite(trace[i].telegram) && !OpaqueTelegram(trace[i].telegram)
    requires p < |trace[i].telegram.bytes|
    ensures var t := trace[i].telegram;
            Replay(start, trace[..i + 1])[Loc(t.space, t.addr + p)] == t.bytes[p]
  {
    assert trace[..i + 1][..i] == trace[..i];
  }

  // --- the report --------------------------------------------------------------------------------------

  /** Some telegram taken after the merged write may have changed byte `p` of its block. */
  ghost predicate TouchedSince(w: World, space: Space, addr: nat, p: nat) {
    exists j :: LastMerged(w.trace) < j < |w.trace| && Touches(w.trace[j], Loc(space, addr + p))
  }

  /** The answer shows, for a byte of the block, what memory holds. */
  ghost predicate ShowsMemory(c: Config, w: World, e: nat, data: seq<byte>, p: nat)
    requires p < |data|
  {
    data[p] == w.mem[Loc(Of(c, e).space, Of(c, e).writeAddr + p)]
  }

  /** A byte of the compared block that nothing touched is still in memory as it was merged. */
  ghost predicate Stands(c: Config, w: World, p: nat) {
    w.hub.inFlight.Some? &&
    var o, written := Of(c, w.hub.inFlight.value), w.hub.verifyBuf;
    && |written| == o.writeLen
    && (p < |written| && !TouchedSince(w, o.space, o.writeAddr, p) ==>
          w.mem[Loc(o.space, o.writeAddr + p)] == written[p])
  }

  lemma BlockStands(c: Config, identify: bool, mem: Memory, evs: seq<Event>, addr: nat, p: nat)
    requires ValidConfig(c) && ValidRun(c, Boot(c, identify, mem), evs)
    requires Compares(c, Run(c, Boot(c, identify, mem), evs), addr)
    ensures Stands(c, Run(c, Boot(c, identify, mem), evs), p)
  {
    var w := Run(c, Boot(c, identify, mem), evs);
    ComparisonIsAboutTheLastMerge(c, identify, mem, evs, addr);
    LastMergeIsDirect(c, identify, mem, evs);
    BootReplays(c, identify, mem, evs);
    ComparedStands(c, w, LastMerged(w.trace), mem, p);
  }

  lemma ComparedStands(c: Config, w: World, i: int, start: Memory, p: nat)
    requires ValidConfig(c) && 0 <= i == LastMerged(w.trace) && ReplayInv(w, start) && DirectlyAfterRead(c, w.trace, i)
    requires w.hub.inFlight.Some? && w.trace[i].telegram.kind == MergedWrite(w.hub.inFlight.value)
    requires Acked(w.trace[i]) && w.trace[i].telegram.bytes == w.hub.verifyBuf
    ensures Stands(c, w, p)
  {
    MergedBlock(c, w, i, w.hub.inFlight.value, start, p);
  }

  lemma LastMergeIsDirect(c: Config, identify: bool, mem: Memory, evs: seq<Event>)
    requires ValidConfig(c) && ValidRun(c, Boot(c, identify, mem), evs)
    ensures var w := Run(c, Boot(c, identify, mem), evs);
            LastMerged(w.trace) >= 0 ==> DirectlyAfterRead(c, w.trace, LastMerged(w.trace))
  {
    Serializable(c, identify, mem, evs);
  }

  lemma BootReplays(c: Config, identify: bool, mem: Memory, evs: seq<Event>)
    requires ValidRun(c, Boot(c, identify, mem), evs)
    ensures ReplayInv(Run(c, Boot(c, identify, mem), evs), mem)
  {
    RunReplays(c, Boot(c, identify, mem), evs, mem);
  }

  lemma MergedShape(c: Config, trace: seq<Entry>, i: nat, e: nat)
    requires ValidConfig(c) && i < |trace| && DirectlyAfterRead(c, trace, i) && trace[i].telegram.kind == MergedWrite(e)
    ensures var o, t := Of(c, e), trace[i].telegram;
            && |t.bytes| == o.writeLen && t.space == o.space && t.addr == o.writeAddr
            && IsWrite(t) && !OpaqueTelegram(t)
  {
    MergedLength(c, e, trace[i - 1].outcome.data, trace[i].field, trace[i].telegram.bytes);
  }

  lemma MergedLength(c: Config, e: nat, data: seq<byte>, field: seq<byte>, bytes: seq<byte>)
    requires MergeOf(c, e, data, field, bytes)
    ensures |bytes| == Of(c, e).writeLen
  {}

  lemma MergedBlock(c: Config, w: World, i: nat, e: nat, start: Memory, p: nat)
    requires ValidConfig(c) && i == LastMerged(w.trace) && ReplayInv(w, start) && i < |w.trace|
    requires DirectlyAfterRead(c, w.trace, i) && w.trace[i].telegram.kind == MergedWrite(e) && Acked(w.trace[i])
    ensures var o, bytes := Of(c, e), w.trace[i].telegram.bytes;
            && |bytes| == o.writeLen
            && (p < o.writeLen && !TouchedSince(w, o.space, o.writeAddr, p) ==>
                  w.mem[Loc(o.space, o.writeAddr + p)] == bytes[p])
  {
    var o := Of(c, e);
    MergedShape(c, w.trace, i, e);
    assert AckedIsTaken(w.trace[i]);
    if p < o.writeLen && !TouchedSince(w, o.space, o.writeAddr, p) {
      WrittenStands(w, i, p, start);
    }
  }

  lemma WrittenStands(w: World, i: nat, p: nat, start: Memory)
    requires i == LastMerged(w.trace) && w.mem == Replay(start, w.trace) && i < |w.trace| && w.trace[i].took
    requires IsWrite(w.trace[i].telegram) && !OpaqueTelegram(w.trace[i].telegram)
    requires var t := w.trace[i].telegram; p < |t.bytes| && !TouchedSince(w, t.space, t.addr, p)
    ensures var t := w.trace[i].telegram; w.mem[Loc(t.space, t.addr + p)] == t.bytes[p]
  {
    WrittenByte(start, w.trace, i, p);
    StandsSince(start, w.trace, i, Loc(w.trace[i].telegram.space, w.trace[i].telegram.addr + p));
  }

  /**
   What a report points at. For an entity read where it is written, wherever the answer shows
   a byte of the block other than it was merged, either the answer is not what memory holds
   or the device took another telegram on that byte since the merged write. So an undisturbed
   block, truly answered, is confirmed; and a change outside the field is reported only for
   a false answer or for a telegram that touched a byte with bits outside the field.
   */
  lemma ReportPointsAtATelegram(c: Config, identify: bool, mem: Memory, evs: seq<Event>, addr: nat, data: seq<byte>)
    requires ValidConfig(c) && ValidRun(c, Boot(c, identify, mem), evs)
    requires Compares(c, Run(c, Boot(c, identify, mem), evs), addr)
    requires |data| >= |Run(c, Boot(c, identify, mem), evs).hub.verifyBuf|
    ensures var w := Run(c, Boot(c, identify, mem), evs);
            var e, written := w.hub.inFlight.value, w.hub.verifyBuf;
            var o := Of(c, e);
            && (forall p :: 0 <= p < |written| && data[p] != written[p] ==>
                  !ShowsMemory(c, w, e, data, p) || TouchedSince(w, o.space, o.writeAddr, p))
            && (OutsideDiffers(c, e, data, written) ==>
                  exists p :: 0 <= p < |written| && OutsideAt(c, e, data, written, p)
                              && (!ShowsMemory(c, w, e, data, p) || TouchedSince(w, o.space, o.writeAddr, p)))
  {
    var w := Run(c, Boot(c, identify, mem), evs);
    var e, written := w.hub.inFlight.value, w.hub.verifyBuf;
    var o := Of(c, e);
    forall p: nat | p < |written| && data[p] != written[p]
      ensures !ShowsMemory(c, w, e, data, p) || TouchedSince(w, o.space, o.writeAddr, p)
    {
      BlockStands(c, identify, mem, evs, addr, p);
    }
    if OutsideDiffers(c, e, data, written) {
      var p :| 0 <= p < |written| && OutsideAt(c, e, data, written, p);
      DiffersSomewhere(c, e, data, written, p);
    }
  }
}
