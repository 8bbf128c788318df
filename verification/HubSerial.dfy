/**
 Read-modify-write serializability over whole runs: a merged write follows its own
 answered read with nothing between, so device memory is the fold of pure field updates.
 */
module HubSerial {
  import opened Basics
  import opened AddressSpaces
  import opened BitFields
  import opened HubModel
  import opened HubInvariants
  import opened HubWorld
  import opened HubBus

  // --- a merged block against memory ---------------------------------------------------------

  ghost predicate MergeOf(c: Config, e: nat, data: seq<byte>, field: seq<byte>, bytes: seq<byte>) {
    && |field| >= FieldWidth(c, e) && |data| >= Of(c, e).writeLen
    && MergeBlock(data[..Of(c, e).writeLen], FieldOffset(c, e), FieldWidth(c, e), Of(c, e).mask, field) == Some(bytes)
  }

  /** `block` is what memory holds at this register. */
  ghost predicate Holds(m: Memory, space: Space, addr: nat, block: seq<byte>) {
    forall i :: 0 <= i < |block| ==> block[i] == m[Loc(space, addr + i)]
  }

  lemma WrittenBlock(m: Memory, space: Space, addr: nat, block: seq<byte>, off: nat, part: seq<byte>, after: seq<byte>)
    requires off + |part| <= |block| && Holds(m, space, addr, block)
    requires |after| == |block| && forall i :: 0 <= i < |block| ==>
      after[i] == if off <= i < off + |part| then part[i - off] else block[i]
    ensures WriteBlock(m, space, addr, after) == WriteBlock(m, space, addr + off, part)
  {
    var a, b := WriteBlock(m, space, addr, after), WriteBlock(m, space, addr + off, part);
    forall l: Loc
      ensures a[l] == b[l]
    {
      if Covers(l, space, addr, |block|) {
        assert block[l.addr - addr] == m[Loc(space, addr + (l.addr - addr))];
      }
    }
  }

  ghost function WriteByte(m: Memory, at: Loc, b: byte): Memory {
    imap l: Loc :: if l == at then b else m[l]
  }

  lemma WrittenByte(m: Memory, space: Space, addr: nat, block: seq<byte>, off: nat, b: byte)
    requires off < |block| && Holds(m, space, addr, block)
    ensures WriteBlock(m, space, addr, block[off := b]) == WriteByte(m, Loc(space, addr + off), b)
  {
    var x, y := WriteBlock(m, space, addr, block[off := b]), WriteByte(m, Loc(space, addr + off), b);
    forall l: Loc
      ensures x[l] == y[l]
    {
      if Covers(l, space, addr, |block|) {
        assert block[l.addr - addr] == m[Loc(space, addr + (l.addr - addr))];
      }
    }
  }

  lemma WrittenBits(m: Memory, at: Loc, mask: byte, field: byte, b: byte)
    requires b == (m[at] & !mask) | (Unshifted(field, mask) & mask)
    ensures WriteByte(m, at, b) == WriteBits(m, at, mask, field)
  {
    var x, y := WriteByte(m, at, b), WriteBits(m, at, mask, field);
    forall l: Loc
      ensures x[l] == y[l]
    {}
  }

  /** Writing back a block merged from present memory is the pure field update. */
  lemma MergedWriteIsFieldUpdate(c: Config, m: Memory, e: nat, data: seq<byte>, field: seq<byte>, bytes: seq<byte>)
    requires MergeOf(c, e, data, field, bytes)
    requires data[..Of(c, e).writeLen] == ReadBlock(m, Of(c, e).space, Of(c, e).writeAddr, Of(c, e).writeLen)
    ensures FieldWidth(c, e) > 0
    ensures WriteBlock(m, Of(c, e).space, Of(c, e).writeAddr, bytes) == FieldUpdate(c, m, e, field)
  {
    var w, off := Of(c, e), FieldOffset(c, e);
    var block := data[..w.writeLen];
    assert Holds(m, w.space, w.writeAddr, block);
    if w.mask == 0 {
      WrittenBlock(m, w.space, w.writeAddr, block, off, field[..FieldWidth(c, e)], bytes);
    } else {
      WrittenByte(m, w.space, w.writeAddr, block, off, bytes[off]);
      WrittenBits(m, Loc(w.space, w.writeAddr + off), w.mask, field[0], bytes[off]);
    }
  }

  // --- the claims ------------------------------------------------------------------------------

  function Last(w: World): Entry
    requires w.trace != []
  {
    w.trace[|w.trace| - 1]
  }

  /** The read before a write of `e`, answered for the right address and in full. */
  predicate AnsweredRead(c: Config, x: Entry, e: nat) {
    && x.telegram.kind == RmwRead(e) && NeedsRmw(c, e) && e < |c.entities|
    && x.telegram.space == Of(c, e).space
    && x.telegram.addr == Of(c, e).writeAddr && x.telegram.len == Of(c, e).writeLen
    && x.outcome.Answered? && x.outcome.addr == Of(c, e).writeAddr && |x.outcome.data| >= Of(c, e).writeLen
  }

  /** Only the last telegram can be pending, and it belongs to the operation in the slot. */
  ghost predicate BusInv(c: Config, w: World) {
    && (forall i :: 0 <= i < |w.trace| - 1 ==> !w.trace[i].outcome.Pending?)
    && (BusBusy(w) ==> !Last(w).took)
    && (!SlotFree(w.hub) ==>
          w.trace != [] && SlotIs(w.hub, Last(w).telegram.kind) && (Last(w).outcome.Pending? || Last(w).outcome.Lost?))
    && (w.trace != [] ==> RmwReadOfRegister(c, Last(w).telegram))
  }

  /** What an armed merge holds: its own answered read is the last thing on the bus. */
  ghost predicate ArmedInv(c: Config, w: World) {
    w.hub.rmwPending.Some? ==>
      var e := w.hub.rmwPending.value;
      && w.trace != [] && AnsweredRead(c, Last(w), e)
      && MergeOf(c, e, Last(w).outcome.data, w.field, w.hub.rmwBuf)
      && Last(w).outcome.data[..Of(c, e).writeLen]
         == ReadBlock(w.mem, Of(c, e).space, Of(c, e).writeAddr, Of(c, e).writeLen)
  }

  /** Telegram `i`, if it is a merged write, comes directly after its own answered read and merges that answer. */
  ghost predicate DirectlyAfterRead(c: Config, trace: seq<Entry>, i: nat)
    requires i < |trace|
  {
    trace[i].telegram.kind.MergedWrite? ==>
      var e := trace[i].telegram.kind.e;
      && i > 0 && AnsweredRead(c, trace[i - 1], e)
      && trace[i].telegram.space == Of(c, e).space && trace[i].telegram.addr == Of(c, e).writeAddr
      && MergeOf(c, e, trace[i - 1].outcome.data, trace[i].field, trace[i].telegram.bytes)
  }

  ghost predicate TraceInv(c: Config, w: World) {
    forall i :: 0 <= i < |w.trace| ==> DirectlyAfterRead(c, w.trace, i)
  }

  /** While a merged write is on the bus, memory is still what its read saw. */
  ghost predicate FlyingInv(c: Config, w: World) {
    BusBusy(w) && Last(w).telegram.kind.MergedWrite? && |w.trace| > 1 && w.trace[|w.trace| - 2].outcome.Answered? ==>
      var e := Last(w).telegram.kind.e;
      && |w.trace[|w.trace| - 2].outcome.data| >= Of(c, e).writeLen
      && w.trace[|w.trace| - 2].outcome.data[..Of(c, e).writeLen]
         == ReadBlock(w.mem, Of(c, e).space, Of(c, e).writeAddr, Of(c, e).writeLen)
  }

  /** The meaning of a finished telegram: a merged write is its field update, nothing more. */
  ghost function ApplyPure(c: Config, m: Memory, x: Entry): Memory {
    if x.took && x.telegram.kind.MergedWrite? && |x.field| >= FieldWidth(c, x.telegram.kind.e) > 0
    then FieldUpdate(c, m, x.telegram.kind.e, x.field)
    else Apply(m, x)
  }

  ghost function Fold(c: Config, m: Memory, trace: seq<Entry>): Memory {
    if trace == [] then m else ApplyPure(c, Fold(c, m, trace[..|trace| - 1]), trace[|trace| - 1])
  }

  ghost predicate SerialInv(c: Config, w: World, start: Memory) {
    && Inv(c, w.hub) && BusInv(c, w) && ArmedInv(c, w) && TraceInv(c, w) && FlyingInv(c, w)
    && w.mem == Fold(c, start, w.trace)
  }

  // --- every event keeps them ------------------------------------------------------------------------

  lemma AskSerial(c: Config, w: World, r: Request, start: Memory)
    requires ValidConfig(c) && SerialInv(c, w, start) && ValidRequest(c, r)
    ensures SerialInv(c, Step(c, w, Ask(r)), start)
  {
    ExternalInv(c, w.hub, r);
    ExternalSlot(c, w.hub, r);
  }

  /** The trace grows by one pending telegram. */
  lemma Appended(c: Config, w: World, n: World, x: Entry, start: Memory)
    requires SerialInv(c, w, start) && Inv(c, n.hub) && !BusBusy(w)
    requires n.trace == w.trace + [x] && n.mem == w.mem && x.outcome.Pending? && !x.took
    requires !SlotFree(n.hub) ==> SlotIs(n.hub, x.telegram.kind)
    requires n.hub.rmwPending.None? && RmwReadOfRegister(c, x.telegram)
    requires DirectlyAfterRead(c, n.trace, |n.trace| - 1)
    requires FlyingInv(c, n)
    ensures SerialInv(c, n, start)
  {
    forall i | 0 <= i < |n.trace|
      ensures DirectlyAfterRead(c, n.trace, i)
    {
      if i < |w.trace| { assert DirectlyAfterRead(c, w.trace, i); }
    }
    assert n.trace[..|n.trace| - 1] == w.trace;
  }

  lemma OfferSerial(c: Config, w: World, ev: Event, start: Memory)
    requires ValidConfig(c) && SerialInv(c, w, start) && ev.Offering? && Enabled(c, w, ev)
    ensures SerialInv(c, Step(c, w, ev), start)
  {
    var s := Dispatch(c, w.hub, ev.now, ev.v, ev.reqs);
    DispatchInv(c, w.hub, ev.now, ev.v, ev.reqs);
    DispatchSlot(c, w.hub, ev.now, ev.v, ev.reqs);
    if s.telegram.None? {
      NothingOffered(c, w, Step(c, w, ev), s, start);
    } else {
      TelegramOffered(c, w, Step(c, w, ev), s, start);
    }
  }

  lemma NothingOffered(c: Config, w: World, n: World, s: Sent, start: Memory)
    requires SerialInv(c, w, start) && SentWell(c, w.hub, s) && s.telegram.None? && Inv(c, s.hub)
    requires n.hub == s.hub && n.mem == w.mem && n.trace == w.trace && n.field == w.field
    ensures SerialInv(c, n, start)
  {}

  lemma TelegramOffered(c: Config, w: World, n: World, s: Sent, start: Memory)
    requires SerialInv(c, w, start) && !BusBusy(w) && SentWell(c, w.hub, s) && s.telegram.Some? && Inv(c, s.hub)
    requires n.hub == s.hub && n.mem == w.mem
    requires n.trace == w.trace + [Entry(s.telegram.value, if s.telegram.value.kind.MergedWrite? then w.field else [],
                                         Pending, false, imap[])]
    ensures SerialInv(c, n, start)
  {
    OfferedWell(c, w, n, s, start);
    Appended(c, w, n, n.trace[|w.trace|], start);
  }

  /** The telegram just accepted, if it is the armed merge, stands directly after its read. */
  lemma OfferedWell(c: Config, w: World, n: World, s: Sent, start: Memory)
    requires SerialInv(c, w, start) && !BusBusy(w) && SentWell(c, w.hub, s) && s.telegram.Some?
    requires n.mem == w.mem && |n.trace| == |w.trace| + 1 && n.trace[..|w.trace|] == w.trace
    requires n.trace[|w.trace|] == Entry(s.telegram.value, if s.telegram.value.kind.MergedWrite? then w.field else [],
                                         Pending, false, imap[])
    ensures DirectlyAfterRead(c, n.trace, |w.trace|) && FlyingInv(c, n)
  {
    if s.telegram.value.kind.MergedWrite? {
      assert n.trace[|w.trace| - 1] == Last(w);
    }
  }

  lemma TakenMerge(c: Config, w: World, x: Entry)
    requires ValidConfig(c) && BusBusy(w) && FlyingInv(c, w) && DirectlyAfterRead(c, w.trace, |w.trace| - 1)
    requires x.telegram == Last(w).telegram && x.field == Last(w).field
    ensures Apply(w.mem, x) == ApplyPure(c, w.mem, x)
  {
    if x.took && x.telegram.kind.MergedWrite? {
      var e := x.telegram.kind.e;
      assert !OpaqueTelegram(x.telegram);
      MergedWriteIsFieldUpdate(c, w.mem, e, w.trace[|w.trace| - 2].outcome.data, x.field, x.telegram.bytes);
    }
  }

  /** The trace with its pending last telegram replaced by what became of it. */
  ghost predicate EndsAs(w: World, n: World, x: Entry) {
    && BusBusy(w) && n.trace == w.trace[..|w.trace| - 1] + [x] && n.mem == Apply(w.mem, x)
    && x.telegram == Last(w).telegram && x.field == Last(w).field && !x.outcome.Pending?
  }

  lemma FinishedTrace(c: Config, w: World, n: World, x: Entry)
    requires TraceInv(c, w) && EndsAs(w, n, x)
    ensures TraceInv(c, n)
  {
    forall i | 0 <= i < |n.trace|
      ensures DirectlyAfterRead(c, n.trace, i)
    {
      assert DirectlyAfterRead(c, w.trace, i);
    }
  }

  lemma FinishedFold(c: Config, w: World, n: World, x: Entry, start: Memory)
    requires ValidConfig(c) && SerialInv(c, w, start) && EndsAs(w, n, x)
    ensures n.mem == Fold(c, start, n.trace)
  {
    var k := |w.trace| - 1;
    assert n.trace[..k] == w.trace[..k];
    assert w.mem == Fold(c, start, w.trace[..k]);
    assert DirectlyAfterRead(c, w.trace, k);
    TakenMerge(c, w, x);
  }

  /** The pending telegram ends; the hub frees its slot or stays as it was. */
  lemma Finished(c: Config, w: World, n: World, x: Entry, start: Memory)
    requires ValidConfig(c) && SerialInv(c, w, start) && Inv(c, n.hub) && EndsAs(w, n, x)
    requires !SlotFree(n.hub) ==> SlotIs(n.hub, x.telegram.kind) && x.outcome.Lost?
    requires ArmedInv(c, n)
    ensures SerialInv(c, n, start)
  {
    FinishedTrace(c, w, n, x);
    FinishedFold(c, w, n, x, start);
  }

  lemma AnswerSerial(c: Config, w: World, ev: Event, start: Memory)
    requires ValidConfig(c) && SerialInv(c, w, start) && ev.Answer? && Enabled(c, w, ev)
    ensures SerialInv(c, Step(c, w, ev), start)
  {
    var n := Step(c, w, ev);
    var x := Ended(w, Answered(ev.addr, ev.data), ev.took, ev.effect);
    RespondInv(c, w.hub, ev.addr, ev.data, ev.unserved, ev.source, ev.reqs);
    RespondSlot(c, w.hub, ev.addr, ev.data, ev.unserved, ev.source, ev.reqs);
    AnsweredArmed(c, w, ev, start);
    Finished(c, w, n, x, start);
  }

  /** A merge armed by an answer is armed from memory as it is. */
  lemma AnsweredArmed(c: Config, w: World, ev: Event, start: Memory)
    requires ValidConfig(c) && SerialInv(c, w, start) && ev.Answer? && Enabled(c, w, ev)
    ensures ArmedInv(c, Step(c, w, ev))
  {
    var n := Step(c, w, ev);
    RespondSlot(c, w.hub, ev.addr, ev.data, ev.unserved, ev.source, ev.reqs);
    if n.hub.rmwPending.Some? {
      var e := n.hub.rmwPending.value;
      assert w.hub.rmwPending.None?;
      assert w.hub.inFlight == Some(e) && w.hub.op == RmwReadOp;
      assert Last(w).telegram.kind == RmwRead(e);
      assert n.mem == w.mem;
    }
  }

  lemma ErrorSerial(c: Config, w: World, ev: Event, start: Memory)
    requires ValidConfig(c) && SerialInv(c, w, start) && ev.Error? && Enabled(c, w, ev)
    ensures SerialInv(c, Step(c, w, ev), start)
  {
    FailInv(c, w.hub, ev.reqs);
    FailSlot(c, w.hub, ev.reqs);
    Finished(c, w, Step(c, w, ev), Ended(w, Failed, ev.took, ev.effect), start);
  }

  lemma SilenceSerial(c: Config, w: World, ev: Event, start: Memory)
    requires ValidConfig(c) && SerialInv(c, w, start) && ev.Silence? && Enabled(c, w, ev)
    ensures SerialInv(c, Step(c, w, ev), start)
  {
    Finished(c, w, Step(c, w, ev), Ended(w, Lost, ev.took, ev.effect), start);
  }

  lemma GuardSerial(c: Config, w: World, ev: Event, start: Memory)
    requires ValidConfig(c) && SerialInv(c, w, start) && ev.Guard? && Enabled(c, w, ev)
    ensures SerialInv(c, Step(c, w, ev), start)
  {
    WatchdogInv(c, w.hub, ev.now, ev.reqs);
    FailSlot(c, w.hub, ev.reqs);
  }

  lemma StepSerial(c: Config, w: World, ev: Event, start: Memory)
    requires ValidConfig(c) && SerialInv(c, w, start) && Enabled(c, w, ev)
    ensures SerialInv(c, Step(c, w, ev), start)
  {
    match ev
    case Ask(r) => AskSerial(c, w, r, start);
    case Offering(_, _, _) => OfferSerial(c, w, ev, start);
    case Guard(_, _) => GuardSerial(c, w, ev, start);
    case Answer(_, _, _, _, _, _, _) => AnswerSerial(c, w, ev, start);
    case Error(_, _, _) => ErrorSerial(c, w, ev, start);
    case Silence(_, _) => SilenceSerial(c, w, ev, start);
  }

  lemma {:induction false} RunSerial(c: Config, w: World, evs: seq<Event>, start: Memory)
    requires ValidConfig(c) && SerialInv(c, w, start) && ValidRun(c, w, evs)
    ensures SerialInv(c, Run(c, w, evs), start)
    decreases |evs|
  {
    if evs != [] {
      StepSerial(c, w, evs[0], start);
      RunSerial(c, Step(c, w, evs[0]), evs[1..], start);
    }
  }

  // --- over whole runs ------------------------------------------------------------------------------

  lemma BootSerial(c: Config, identify: bool, mem: Memory)
    ensures SerialInv(c, Boot(c, identify, mem), mem)
  {
    StartInv(c, identify);
  }

  /**
   Serializability. After any run from boot, every merged write in the trace directly
   follows its own answered read, and memory is what the accepted telegrams make of the
   initial memory when each merged write counts as its field update alone.
   */
  lemma Serializable(c: Config, identify: bool, mem: Memory, evs: seq<Event>)
    requires ValidConfig(c) && ValidRun(c, Boot(c, identify, mem), evs)
    ensures var w := Run(c, Boot(c, identify, mem), evs);
            && Inv(c, w.hub)
            && (forall i :: 0 <= i < |w.trace| ==> DirectlyAfterRead(c, w.trace, i))
            && w.mem == Fold(c, mem, w.trace)
  {
    BootSerial(c, identify, mem);
    RunSerial(c, Boot(c, identify, mem), evs, mem);
  }

  /** A failed, lost, short or mis-addressed read before a write is never followed by a merged write. */
  lemma FailedReadWritesNothing(c: Config, identify: bool, mem: Memory, evs: seq<Event>, i: nat)
    requires ValidConfig(c) && ValidRun(c, Boot(c, identify, mem), evs)
    requires i + 1 < |Run(c, Boot(c, identify, mem), evs).trace|
    requires Run(c, Boot(c, identify, mem), evs).trace[i].telegram.kind.RmwRead?
    requires var x := Run(c, Boot(c, identify, mem), evs).trace[i];
             !AnsweredRead(c, x, x.telegram.kind.e)
    ensures !Run(c, Boot(c, identify, mem), evs).trace[i + 1].telegram.kind.MergedWrite?
  {
    Serializable(c, identify, mem, evs);
    assert DirectlyAfterRead(c, Run(c, Boot(c, identify, mem), evs).trace, i + 1);
  }

  // --- sibling bits -----------------------------------------------------------------------------------

  /** Whether a telegram, by its meaning, may change one of `bits` at `l`. */
  ghost predicate MayTouch(c: Config, x: Entry, l: Loc, bits: byte) {
    && x.took
    && (OpaqueTelegram(x.telegram)
        || (x.telegram.kind.MergedWrite? && InField(c, x.telegram.kind.e, l, bits))
        || (!x.telegram.kind.MergedWrite? && IsWrite(x.telegram)
            && Covers(l, x.telegram.space, x.telegram.addr, |x.telegram.bytes|)))
  }

  /** Some of `bits` at `l` belong to the entity's own field. */
  ghost predicate InField(c: Config, e: nat, l: Loc, bits: byte) {
    && Covers(l, Of(c, e).space, Of(c, e).writeAddr + FieldOffset(c, e), FieldWidth(c, e))
    && (Of(c, e).mask == 0 || bits & Of(c, e).mask != 0)
  }

  lemma MaskedBitsStay(before: byte, field: byte, mask: byte, bits: byte)
    requires bits & mask == 0
    ensures ((before & !mask) | (Unshifted(field, mask) & mask)) & bits == before & bits
  {
    NoSharedBits(before, Unshifted(field, mask), mask, bits);
  }

  lemma NoSharedBits(before: byte, x: byte, mask: byte, bits: byte)
    requires bits & mask == 0
    ensures ((before & !mask) | (x & mask)) & bits == before & bits
  {}

  /**
   Sibling survival. Whatever happens on the bus -- failed reads, crossed answers, lost
   callbacks, refusals, any interleaving of writes to the same block -- bits that no
   accepted telegram was meant to change hold their initial value.
   */
  lemma {:induction false} UntouchedBitsSurvive(c: Config, start: Memory, trace: seq<Entry>, l: Loc, bits: byte)
    requires forall i :: 0 <= i < |trace| ==> !MayTouch(c, trace[i], l, bits)
    requires forall i :: 0 <= i < |trace| ==> DirectlyAfterRead(c, trace, i)
    ensures Fold(c, start, trace)[l] & bits == start[l] & bits
  {
    if trace != [] {
      var k := |trace| - 1;
      PrefixStaysDirect(c, trace, k);
      UntouchedBitsSurvive(c, start, trace[..k], l, bits);
      assert DirectlyAfterRead(c, trace, k);
      OneTelegramKeeps(c, Fold(c, start, trace[..k]), trace[k], l, bits);
    }
  }

  lemma PrefixStaysDirect(c: Config, trace: seq<Entry>, k: nat)
    requires k <= |trace| && forall i :: 0 <= i < |trace| ==> DirectlyAfterRead(c, trace, i)
    ensures forall i :: 0 <= i < k ==> DirectlyAfterRead(c, trace[..k], i)
  {
    forall i | 0 <= i < k
      ensures DirectlyAfterRead(c, trace[..k], i)
    {
      assert DirectlyAfterRead(c, trace, i);
    }
  }

  lemma BitsUpdateKeeps(m: Memory, at: Loc, mask: byte, field: byte, l: Loc, bits: byte)
    requires l != at || bits & mask == 0
    ensures WriteBits(m, at, mask, field)[l] & bits == m[l] & bits
  {
    if l == at {
      MaskedBitsStay(m[l], field, mask, bits);
    }
  }

  lemma FieldUpdateKeeps(c: Config, m: Memory, e: nat, field: seq<byte>, l: Loc, bits: byte)
    requires |field| >= FieldWidth(c, e) > 0 && !InField(c, e, l, bits)
    ensures FieldUpdate(c, m, e, field)[l] & bits == m[l] & bits
  {
    if Of(c, e).mask != 0 {
      MaskedUpdateKeeps(c, m, e, field, l, bits);
    } else {
      BlockUpdateKeeps(m, Of(c, e).space, Of(c, e).writeAddr + FieldOffset(c, e), field[..FieldWidth(c, e)], l);
    }
  }

  lemma BlockUpdateKeeps(m: Memory, space: Space, addr: nat, data: seq<byte>, l: Loc)
    requires !Covers(l, space, addr, |data|)
    ensures WriteBlock(m, space, addr, data)[l] == m[l]
  {}

  function FieldLoc(c: Config, e: nat): Loc {
    Loc(Of(c, e).space, Of(c, e).writeAddr + FieldOffset(c, e))
  }

  lemma OutsideField(c: Config, e: nat, l: Loc, bits: byte)
    requires FieldWidth(c, e) > 0 && Of(c, e).mask != 0 && !InField(c, e, l, bits)
    ensures l != FieldLoc(c, e) || bits & Of(c, e).mask == 0
  {}

  lemma MaskedUpdateIs(c: Config, m: Memory, e: nat, field: seq<byte>, l: Loc)
    requires |field| >= FieldWidth(c, e) > 0 && Of(c, e).mask != 0
    ensures FieldUpdate(c, m, e, field)[l] == WriteBits(m, FieldLoc(c, e), Of(c, e).mask, field[0])[l]
  {}

  lemma SameKeeps(x: byte, y: byte, was: byte, bits: byte)
    requires x == y && y & bits == was & bits
    ensures x & bits == was & bits
  {}

  lemma MaskedUpdateKeeps(c: Config, m: Memory, e: nat, field: seq<byte>, l: Loc, bits: byte)
    requires |field| >= FieldWidth(c, e) > 0 && Of(c, e).mask != 0 && !InField(c, e, l, bits)
    ensures FieldUpdate(c, m, e, field)[l] & bits == m[l] & bits
  {
    var at, mask := FieldLoc(c, e), Of(c, e).mask;
    OutsideField(c, e, l, bits);
    MaskedUpdateIs(c, m, e, field, l);
    BitsUpdateKeeps(m, at, mask, field[0], l, bits);
    SameKeeps(FieldUpdate(c, m, e, field)[l], WriteBits(m, at, mask, field[0])[l], m[l], bits);
  }

  lemma OneTelegramKeeps(c: Config, m: Memory, x: Entry, l: Loc, bits: byte)
    requires !MayTouch(c, x, l, bits)
    requires x.telegram.kind.MergedWrite? ==> |x.field| >= FieldWidth(c, x.telegram.kind.e) > 0
    ensures ApplyPure(c, m, x)[l] & bits == m[l] & bits
  {
    if x.took && x.telegram.kind.MergedWrite? {
      FieldUpdateKeeps(c, m, x.telegram.kind.e, x.field, l, bits);
    }
  }

  lemma SiblingsSurvive(c: Config, identify: bool, mem: Memory, evs: seq<Event>, l: Loc, bits: byte)
    requires ValidConfig(c) && ValidRun(c, Boot(c, identify, mem), evs)
    requires forall i :: 0 <= i < |Run(c, Boot(c, identify, mem), evs).trace| ==>
      !MayTouch(c, Run(c, Boot(c, identify, mem), evs).trace[i], l, bits)
    ensures Run(c, Boot(c, identify, mem), evs).mem[l] & bits == mem[l] & bits
  {
    Serializable(c, identify, mem, evs);
    UntouchedBitsSurvive(c, mem, Run(c, Boot(c, identify, mem), evs).trace, l, bits);
  }
}
