/**
 A writable number: the range check made when the configuration is read, the value staged
 and published at run time, and what a write reads back as.
 */
module Numbers {
  import opened Basics
  import opened BitFields
  import opened Scaled

  const MAX_READ_LENGTH: nat := 48

  // --- configuration -------------------------------------------------------------------------

  datatype Converter = NoConv | Div2 | Div10 | Div100 | Div1000 | Mult2 | Mult5 | Mult10 | Mult100

  function ScaleOf(c: Converter): (s: real)
    ensures s > 0.0
  {
    match c
    case NoConv => 1.0
    case Div2 => 0.5
    case Div10 => 0.1
    case Div100 => 0.01
    case Div1000 => 0.001
    case Mult2 => 2.0
    case Mult5 => 5.0
    case Mult10 => 10.0
    case Mult100 => 100.0
  }

  /** `mask` is 0 without a bit field; `split` when the state is read at an address of its own. */
  datatype NumberConfig = NumberConfig(length: nat, byteOffset: Option<nat>, byteLength: Option<nat>, split: bool,
                                       mask: byte, signed: bool, converter: Converter, min: real, max: real,
                                       readBack: bool)

  function FieldWidth(k: NumberConfig): nat {
    if k.byteOffset.None? then k.length else if k.byteLength.None? then 1 else k.byteLength.value
  }

  /** The shape rules: a field inside a readable block, or a register of one to four bytes; a bit field in one byte. */
  predicate ShapeValid(k: NumberConfig) {
    && (k.byteLength.Some? ==> k.byteOffset.Some? && 1 <= k.byteLength.value <= 4)
    && (if k.byteOffset.Some?
        then 1 <= k.length <= MAX_READ_LENGTH && (!k.split ==> k.length <= MAX_RMW_BLOCK)
             && k.byteOffset.value + FieldWidth(k) <= k.length
        else 1 <= k.length <= 4)
    && (k.mask != 0 ==> Contiguous(k.mask) && FieldWidth(k) == 1 && !k.split)
  }

  predicate BoundFits(k: NumberConfig, bound: real)
    requires ShapeValid(k)
  {
    var raw := Llround(bound / ScaleOf(k.converter));
    if k.mask != 0 then 0 <= raw <= FieldMax(k.mask) as int else RawFits(raw, FieldWidth(k), k.signed)
  }

  predicate ConfigAccepts(k: NumberConfig)
    requires ShapeValid(k)
  {
    BoundFits(k, k.min) && BoundFits(k, k.max) && k.min <= k.max
  }

  // --- the entity the configuration emits ---------------------------------------------------------

  datatype Geometry = Geometry(readLen: nat, writeLen: Option<nat>, blockOffset: nat, blockWidth: nat,
                               extract: Option<nat>, extractLen: nat, mask: byte, signed: bool, scale: real,
                               readBack: bool)

  function Emit(k: NumberConfig): Geometry {
    var blank := Geometry(k.length, None, 0, 0, None, 1, k.mask, k.signed, ScaleOf(k.converter), k.readBack);
    if k.byteOffset.Some? then
      var field := blank.(extract := k.byteOffset, extractLen := FieldWidth(k));
      if k.split then field.(writeLen := Some(FieldWidth(k)))
      else field.(blockOffset := k.byteOffset.value, blockWidth := FieldWidth(k))
    else if k.split then blank.(writeLen := Some(k.length))
    else blank
  }

  function StagedWidth(g: Geometry): nat {
    if g.blockWidth != 0 then g.blockWidth else if g.writeLen.Some? then g.writeLen.value else g.readLen
  }

  /** The range check and the encoder measure the same width, whatever the shape. */
  lemma StagedIsField(k: NumberConfig)
    requires ShapeValid(k)
    ensures StagedWidth(Emit(k)) == FieldWidth(k)
    ensures 1 <= FieldWidth(k) <= 4 <==> 1 <= StagedWidth(Emit(k)) <= 4
  {}

  /** The bytes a value is staged as; None when it is refused. */
  function Payload(g: Geometry, v: real): Option<seq<byte>> {
    if g.mask != 0 then
      match EncodeScaled(v, g.scale, false, 1)
      case None => None
      case Some(b) => if b[0] > FieldMax(g.mask) as int then None else Some(ToBytes(b))
    else
      match EncodeScaled(v, g.scale, g.signed, StagedWidth(g))
      case None => None
      case Some(b) => Some(ToBytes(b))
  }

  /** The value shown for a response; None when it is too short or has no such field. */
  function Reading(g: Geometry, data: seq<byte>): Option<real> {
    if g.mask != 0 then
      var off := if g.extract.Some? then g.extract.value else 0;
      if off >= |data| then None
      else match ExtractField(data[off], g.mask)
        case None => None
        case Some(field) => DecodeScaled([field as int], 1, false, g.scale)
    else if g.extract.Some? then
      if g.extract.value + g.extractLen > |data| then None
      else DecodeScaled(ToInts(data[g.extract.value..]), g.extractLen, g.signed, g.scale)
    else DecodeScaled(ToInts(data), g.readLen, g.signed, g.scale)
  }

  /** What a raw integer means to a converter: `divN` is an N-th of it, `multN` N times it. */
  function Meaning(c: Converter, raw: int): real {
    var r := raw as real;
    match c
    case NoConv => r
    case Div2 => r / 2.0
    case Div10 => r / 10.0
    case Div100 => r / 100.0
    case Div1000 => r / 1000.0
    case Mult2 => r + r
    case Mult5 => r * 5.0
    case Mult10 => r * 10.0
    case Mult100 => r * 100.0
  }

  /** The raw integer of a response: what the same entity would show without a converter. */
  function RawShown(k: NumberConfig, data: seq<byte>): Option<real> {
    Reading(Emit(k.(converter := NoConv)), data)
  }

  lemma StepMeans(c: Converter, n: int)
    ensures Step(n, ScaleOf(c)) == Meaning(c, n) && Step(n, ScaleOf(NoConv)) == n as real
  {}

  /** `shown` is the meaning of the raw integer in `plain`, and there is one exactly when there is the other. */
  predicate Means(c: Converter, plain: Option<real>, shown: Option<real>) {
    match plain
    case None => shown.None?
    case Some(v) => v == v.Floor as real && shown == Some(Meaning(c, v.Floor))
  }

  lemma DecodedMeans(c: Converter, data: seq<u8>, len: nat, signed: bool)
    ensures Means(c, DecodeScaled(data, len, signed, ScaleOf(NoConv)), DecodeScaled(data, len, signed, ScaleOf(c)))
  {
    if 1 <= len <= 8 && |data| >= len {
      StepMeans(c, IntOf(ReadLe(data[..len]), len, signed));
    }
  }

  /** Whatever its shape, an entity shows what its converter makes of the raw integer of the same data. */
  lemma ConverterShows(k: NumberConfig, data: seq<byte>)
    requires ShapeValid(k)
    ensures Means(k.converter, RawShown(k, data), Reading(Emit(k), data))
  {
    assert Emit(k.(converter := NoConv)) == Emit(k).(scale := ScaleOf(NoConv));
    if Emit(k).mask != 0 {
      MaskedShows(Emit(k), k.converter, data);
    } else {
      PlainShows(Emit(k), k.converter, data);
    }
  }

  lemma MaskedShows(g: Geometry, c: Converter, data: seq<byte>)
    requires g.mask != 0 && g.scale == ScaleOf(c)
    ensures Means(c, Reading(g.(scale := ScaleOf(NoConv)), data), Reading(g, data))
  {
    var off := if g.extract.Some? then g.extract.value else 0;
    if off < |data| && ExtractField(data[off], g.mask).Some? {
      DecodedMeans(c, [ExtractField(data[off], g.mask).value as int], 1, false);
    }
  }

  lemma PlainShows(g: Geometry, c: Converter, data: seq<byte>)
    requires g.mask == 0 && g.scale == ScaleOf(c)
    ensures Means(c, Reading(g.(scale := ScaleOf(NoConv)), data), Reading(g, data))
  {
    if g.extract.None? {
      DecodedMeans(c, ToInts(data), g.readLen, g.signed);
    } else if g.extract.value + g.extractLen <= |data| {
      DecodedMeans(c, ToInts(data[g.extract.value..]), g.extractLen, g.signed);
    }
  }

  // --- configuration against run time ------------------------------------------------------------------

  lemma QuotientMonotone(a: real, b: real, s: real)
    requires s > 0.0 && a <= b
    ensures a / s <= b / s
  {}

  lemma StepsBetween(k: NumberConfig, v: real)
    requires k.min <= v <= k.max
    ensures var s := ScaleOf(k.converter); Llround(k.min / s) <= Llround(v / s) <= Llround(k.max / s)
  {
    var s := ScaleOf(k.converter);
    QuotientMonotone(k.min, v, s);
    QuotientMonotone(v, k.max, s);
    LlroundMonotone(k.min / s, v / s);
    LlroundMonotone(v / s, k.max / s);
  }

  lemma FirstOctet(raw: int)
    requires 0 <= raw < 256
    ensures LeBytes(Pattern64(raw), 1) == [raw]
  {
    assert Octet(raw, 0) == raw;
  }

  /** At run time a value is accepted exactly when the configuration would accept it as a bound. */
  lemma AcceptsAsBound(k: NumberConfig, v: real)
    requires ShapeValid(k)
    ensures Payload(Emit(k), v).Some? <==> BoundFits(k, v)
  {
    var g, s := Emit(k), ScaleOf(k.converter);
    var raw := Llround(v / s);
    StagedIsField(k);
    if k.mask != 0 {
      EncodesExactly(v, s, false, 1);
      if 0 <= raw < 256 { FirstOctet(raw); }
    } else {
      EncodesExactly(v, s, k.signed, FieldWidth(k));
    }
  }

  /** The configuration is accepted exactly when the entity will accept every value its control offers. */
  lemma ConfigMeansRuntime(k: NumberConfig)
    requires ShapeValid(k)
    ensures ConfigAccepts(k) <==> k.min <= k.max && forall v :: k.min <= v <= k.max ==> Payload(Emit(k), v).Some?
  {
    if ConfigAccepts(k) {
      forall v | k.min <= v <= k.max
        ensures Payload(Emit(k), v).Some?
      {
        StepsBetween(k, v);
        AcceptsAsBound(k, v);
      }
    } else if k.min <= k.max {
      AcceptsAsBound(k, k.min);
      AcceptsAsBound(k, k.max);
      assert k.min <= k.min <= k.max && k.min <= k.max <= k.max;
    }
  }

  // --- a write reads back as the value asked for --------------------------------------------------------

  predicate NeedsMerge(g: Geometry) {
    g.mask != 0 || g.blockWidth != 0
  }

  /** Bytes of the block the hub replaces. */
  function Span(g: Geometry): nat {
    if g.blockWidth != 0 then g.blockWidth else 1
  }

  /** What the register holds once the hub has written this payload into it. */
  function Written(g: Geometry, block: seq<byte>, payload: seq<byte>): Option<seq<byte>>
    requires NeedsMerge(g) ==> |payload| >= Span(g)
  {
    if NeedsMerge(g) then MergeBlock(block, g.blockOffset, Span(g), g.mask, payload) else Some(payload)
  }

  /** The raw step nearest to a value, as a value again. */
  function Nearest(g: Geometry, v: real): real
    requires g.scale != 0.0
  {
    Step(Llround(v / g.scale), g.scale)
  }

  lemma PayloadBytes(k: NumberConfig, v: real)
    requires ShapeValid(k) && Payload(Emit(k), v).Some?
    ensures var b, g := Payload(Emit(k), v).value, Emit(k);
            && |b| == FieldWidth(k)
            && DecodeScaled(ToInts(b), |b|, if g.mask != 0 then false else g.signed, g.scale) == Some(Nearest(g, v))
            && (g.mask != 0 ==> b[0] <= FieldMax(g.mask))
  {
    var g := Emit(k);
    StagedIsField(k);
    var signed := if g.mask != 0 then false else g.signed;
    DecodesNearest(v, g.scale, signed, FieldWidth(k));
    var e := EncodeScaled(v, g.scale, signed, FieldWidth(k)).value;
    OctetsSurvive(e);
    if g.mask != 0 {
      AtMost(e[0], FieldMax(g.mask));
    }
  }

  lemma MaskedReadsBack(g: Geometry, before: byte, field: byte, after: seq<byte>, off: nat)
    requires g.mask != 0 && Contiguous(g.mask) && field <= FieldMax(g.mask)
    requires off < |after| && MergeBits(before, g.mask, field) == Some(after[off])
    requires off == if g.extract.Some? then g.extract.value else 0
    ensures Reading(g, after) == DecodeScaled([field as int], 1, false, g.scale)
  {
    MergeBitsRoundTrip(before, g.mask, field);
  }

  lemma PlainReadsBack(g: Geometry, after: seq<byte>, payload: seq<byte>, off: nat)
    requires g.mask == 0 && g.extract == Some(off) && g.extractLen == |payload| && off + |payload| <= |after|
    requires after[off..off + |payload|] == payload
    ensures Reading(g, after) == DecodeScaled(ToInts(payload), |payload|, g.signed, g.scale)
  {
    assert ToInts(after[off..])[..|payload|] == ToInts(payload)[..|payload|];
  }

  /** Merging one bit field is reading, merging and storing one byte. */
  lemma MergesOneByte(block: seq<byte>, off: nat, mask: byte, b: seq<byte>) returns (merged: byte)
    requires off < |block| && |b| == 1 && mask != 0 && Contiguous(mask) && b[0] <= FieldMax(mask)
    ensures MergeBits(block[off], mask, b[0]) == Some(merged)
    ensures MergeBlock(block, off, 1, mask, b) == Some(block[off := merged])
  {
    MergeBitsRoundTrip(block[off], mask, b[0]);
    merged := MergeBits(block[off], mask, b[0]).value;
  }

  lemma BitFieldShape(k: NumberConfig)
    requires ShapeValid(k) && !k.split && k.mask != 0
    ensures var g := Emit(k);
            && NeedsMerge(g) && Span(g) == 1 && g.blockOffset < k.length && Contiguous(g.mask) && g.mask == k.mask
            && g.blockOffset == if g.extract.Some? then g.extract.value else 0
  {}

  lemma BitFieldPath(k: NumberConfig, block: seq<byte>, b: seq<byte>)
    requires ShapeValid(k) && !k.split && |block| == k.length && k.mask != 0
    requires |b| == 1 && b[0] <= FieldMax(k.mask)
    ensures var g := Emit(k);
            && Written(g, block, b).Some? && |Written(g, block, b).value| == k.length
            && Reading(g, Written(g, block, b).value) == DecodeScaled([b[0] as int], 1, false, g.scale)
  {
    BitFieldShape(k);
    MergedReads(Emit(k), block, b);
  }

  lemma MergedReads(g: Geometry, block: seq<byte>, b: seq<byte>)
    requires NeedsMerge(g) && Span(g) == 1 && g.blockOffset < |block| && g.mask != 0 && Contiguous(g.mask)
    requires g.blockOffset == if g.extract.Some? then g.extract.value else 0
    requires |b| == 1 && b[0] <= FieldMax(g.mask)
    ensures Written(g, block, b).Some? && |Written(g, block, b).value| == |block|
    ensures Reading(g, Written(g, block, b).value) == DecodeScaled([b[0] as int], 1, false, g.scale)
  {
    var merged := MergesOneByte(block, g.blockOffset, g.mask, b);
    MaskedReadsBack(g, block[g.blockOffset], b[0], block[g.blockOffset := merged], g.blockOffset);
  }

  lemma BlockPath(k: NumberConfig, block: seq<byte>, b: seq<byte>)
    requires ShapeValid(k) && !k.split && |block| == k.length && k.mask == 0 && k.byteOffset.Some?
    requires |b| == FieldWidth(k)
    ensures var g := Emit(k);
            && Written(g, block, b).Some? && |Written(g, block, b).value| == k.length
            && Reading(g, Written(g, block, b).value) == DecodeScaled(ToInts(b), |b|, g.signed, g.scale)
  {
    var g := Emit(k);
    var after := Written(g, block, b).value;
    PlainReadsBack(g, after, b, g.blockOffset);
  }

  /**
   The whole path of a write. Wherever the state is read at the register that was written,
   an accepted value merges into any block the device may hold, and reading the field back
   shows the step nearest to that value.
   */
  lemma WriteReadsBack(k: NumberConfig, v: real, block: seq<byte>)
    requires ShapeValid(k) && !k.split && |block| == k.length && Payload(Emit(k), v).Some?
    ensures var g, b := Emit(k), Payload(Emit(k), v).value;
            && |b| == FieldWidth(k)
            && Written(g, block, b).Some? && |Written(g, block, b).value| == k.length
            && Reading(g, Written(g, block, b).value) == Some(Nearest(g, v))
            && AbsReal(Nearest(g, v) - v) <= g.scale / 2.0
  {
    var b := Payload(Emit(k), v).value;
    PayloadBytes(k, v);
    NearestIsNear(Emit(k), v);
    if k.mask != 0 {
      assert ToInts(b) == [b[0] as int];
      BitFieldPath(k, block, b);
    } else if k.byteOffset.Some? {
      BlockPath(k, block, b);
    }
  }

  lemma NearestIsNear(g: Geometry, v: real)
    requires g.scale > 0.0
    ensures AbsReal(Nearest(g, v) - v) <= g.scale / 2.0
  {
    LlroundExact(v / g.scale, Llround(v / g.scale));
    WithinHalfStep(v, g.scale, Llround(v / g.scale));
  }

  // --- the entity ------------------------------------------------------------------------------------------

  const NAN_AFTER_READ_ERRORS: nat := 3

  datatype Shown = Value(v: real) | Unavailable

  class VitoNumber {
    const g: Geometry
    var staged: seq<byte>
    var pendingValue: real
    var readErrors: nat
    var published: seq<Shown>
    ghost var streak: nat

    /**
     What is staged is always the payload of the pending value, and the error count is the
     number of failed reads in a row, stopped at the limit.
     */
    ghost predicate Valid()
      reads this
    {
      && g.scale > 0.0
      && (staged != [] ==> Payload(g, pendingValue) == Some(staged))
      && readErrors == if streak < NAN_AFTER_READ_ERRORS then streak else NAN_AFTER_READ_ERRORS
    }

    constructor (geometry: Geometry)
      requires geometry.scale > 0.0
      ensures Valid() && g == geometry && staged == [] && published == [] && streak == 0
    {
      g := geometry;
      staged, pendingValue, readErrors, published, streak := [], 0.0, 0, [], 0;
    }

    /** Stages a value for the hub; a refused one changes nothing. */
    method Control(v: real) returns (ok: bool)
      requires Valid()
      modifies `staged, `pendingValue
      ensures Valid()
      ensures ok == (Payload(g, v).Some? && 0 < |Payload(g, v).value| <= 8)
      ensures ok ==> staged == Payload(g, v).value && pendingValue == v
      ensures !ok ==> staged == old(staged) && pendingValue == old(pendingValue)
    {
      var p := Payload(g, v);
      if p.None? || |p.value| == 0 || |p.value| > 8 {
        return false;
      }
      staged := p.value;
      pendingValue := v;
      return true;
    }

    /**
     A read shows its value and ends the streak; a short or foreign one counts as a failed
     read, and a response without a payload is ignored.
     */
    method HandleResponse(response: Option<seq<byte>>)
      requires Valid()
      modifies `readErrors, `published, `streak
      ensures Valid()
      ensures response.None? ==> published == old(published) && streak == old(streak)
      ensures response.Some? && Reading(g, response.value).Some? ==>
        published == old(published) + [Value(Reading(g, response.value).value)] && streak == 0
      ensures response.Some? && Reading(g, response.value).None? ==>
        && streak == old(streak) + 1
        && published == old(published) + if streak >= 3 then [Unavailable] else []
    {
      if response.None? {
        return;
      }
      var value := Reading(g, response.value);
      if value.None? {
        HandleError();
        return;
      }
      readErrors, streak := 0, 0;
      published := published + [Value(value.value)];
    }

    /** The value shown on the acknowledgement is the one whose payload is staged, unless a read-back will show it. */
    method HandleWriteResponse()
      requires Valid()
      modifies `published
      ensures Valid()
      ensures published == old(published) + if g.readBack then [] else [Value(pendingValue)]
      ensures staged != [] && !g.readBack ==>
        Payload(g, published[|published| - 1].v) == Some(staged)
    {
      if !g.readBack {
        published := published + [Value(pendingValue)];
      }
    }

    /** Unavailable from the third failed read in a row on. */
    method HandleError()
      requires Valid()
      modifies `readErrors, `published, `streak
      ensures Valid() && streak == old(streak) + 1
      ensures published == old(published) + if streak >= 3 then [Unavailable] else []
    {
      streak := streak + 1;
      if readErrors < NAN_AFTER_READ_ERRORS {
        readErrors := readErrors + 1;
      }
      if readErrors == NAN_AFTER_READ_ERRORS {
        published := published + [Unavailable];
      }
    }
  }
}
