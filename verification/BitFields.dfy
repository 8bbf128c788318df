/**
 Bit fields inside one byte, and the whole-block merge a read-modify-write sends.
 Bytes are 8-bit vectors here; the numeric codecs use integers instead.
 */
module BitFields {
  import opened Basics

  type byte = bv8

  /** Largest block a read-modify-write sends. */
  const MAX_RMW_BLOCK: nat := 16

  /** The same octets as numbers, for the numeric codecs. */
  function ToInts(data: seq<byte>): seq<u8> {
    seq(|data|, i requires 0 <= i < |data| => data[i] as int)
  }

  function ToBytes(data: seq<u8>): (r: seq<byte>)
    ensures |r| == |data|
  {
    seq(|data|, i requires 0 <= i < |data| => data[i] as byte)
  }

  lemma ByteSurvives(b: byte)
    ensures (b as int) as byte == b
  {}

  lemma NextByte(b: byte)
    requires b as int < 255
    ensures (b + 1) as int == b as int + 1
  {}

  lemma {:induction false} ByteOf(x: int) returns (b: byte)
    requires 0 <= x < 256
    ensures b as int == x
    decreases x
  {
    if x == 0 {
      b := 0;
    } else {
      var before := ByteOf(x - 1);
      NextByte(before);
      b := before + 1;
    }
  }

  lemma OctetSurvives(x: int)
    requires 0 <= x < 256
    ensures (x as byte) as int == x
  {
    var b := ByteOf(x);
    ByteSurvives(b);
  }

  lemma OctetsSurvive(x: seq<u8>)
    ensures ToInts(ToBytes(x)) == x
  {
    forall i | 0 <= i < |x|
      ensures ToInts(ToBytes(x))[i] == x[i]
    {
      OctetSurvives(x[i]);
    }
  }

  lemma SameOrder(a: byte, b: byte)
    ensures a <= b <==> a as int <= b as int
  {}

  lemma AtMost(x: int, top: byte)
    requires 0 <= x < 256 && x <= top as int
    ensures x as byte <= top
  {
    OctetSurvives(x);
    SameOrder(x as byte, top);
  }

  /** A non-zero mask whose set bits are adjacent; computed in 16 bits so the carry is kept. */
  predicate Contiguous(mask: byte) {
    var m := mask as bv16;
    mask != 0 && ((m + (m & (0 - m))) & m) == 0
  }

  /** The mask moved down so that its lowest set bit is bit 0. */
  function Shifted(x: byte, mask: byte): byte {
    if mask & 0x01 != 0 then x
    else if mask & 0x02 != 0 then x >> 1
    else if mask & 0x04 != 0 then x >> 2
    else if mask & 0x08 != 0 then x >> 3
    else if mask & 0x10 != 0 then x >> 4
    else if mask & 0x20 != 0 then x >> 5
    else if mask & 0x40 != 0 then x >> 6
    else x >> 7
  }

  function Unshifted(x: byte, mask: byte): byte {
    if mask & 0x01 != 0 then x
    else if mask & 0x02 != 0 then x << 1
    else if mask & 0x04 != 0 then x << 2
    else if mask & 0x08 != 0 then x << 3
    else if mask & 0x10 != 0 then x << 4
    else if mask & 0x20 != 0 then x << 5
    else if mask & 0x40 != 0 then x << 6
    else x << 7
  }

  /** Largest value the field can hold. */
  function FieldMax(mask: byte): byte {
    if mask == 0 then 0 else Shifted(mask, mask)
  }

  function ExtractField(b: byte, mask: byte): Option<byte> {
    if !Contiguous(mask) then None else Some(Shifted(b & mask, mask))
  }

  /** `old` with its masked bits replaced by `field`; None when the caller must not transmit. */
  function MergeBits(old_: byte, mask: byte, field: byte): Option<byte> {
    if !Contiguous(mask) || field > FieldMax(mask) then None
    else Some((old_ & !mask) | (Unshifted(field, mask) & mask))
  }

  /** A usable mask is a run of ones, wherever it stands in the byte. */
  lemma MaskIsARun(mask: byte)
    ensures Contiguous(mask) <==>
            mask != 0 && Shifted(mask, mask) in {0x01, 0x03, 0x07, 0x0F, 0x1F, 0x3F, 0x7F, 0xFF}
  {}

  /** A merged byte gives the field back, and keeps every bit outside the mask. */
  lemma MergeBitsRoundTrip(old_: byte, mask: byte, field: byte)
    ensures MergeBits(old_, mask, field).Some? <==> Contiguous(mask) && field <= FieldMax(mask)
    ensures MergeBits(old_, mask, field).Some? ==>
      && ExtractField(MergeBits(old_, mask, field).value, mask) == Some(field)
      && MergeBits(old_, mask, field).value & !mask == old_ & !mask
  {}

  /** Every byte is what merging its own extracted field into it gives: nothing is refused, nothing moves. */
  lemma ExtractedFieldFits(b: byte, mask: byte)
    requires Contiguous(mask)
    ensures MergeBits(b, mask, ExtractField(b, mask).value) == Some(b)
  {}

  /** `shift` is the index of the mask's lowest set bit (7 when bits 0..6 are clear). */
  method BitMaskShift(mask: byte) returns (shift: nat)
    ensures shift <= 7
    ensures mask >> shift == Shifted(mask, mask)
  {
    shift := 0;
    while shift < 7 && (mask >> shift) & 0x01 == 0
      invariant shift <= 7
      invariant shift >= 1 ==> mask & 0x01 == 0
      invariant shift >= 2 ==> mask & 0x02 == 0
      invariant shift >= 3 ==> mask & 0x04 == 0
      invariant shift >= 4 ==> mask & 0x08 == 0
      invariant shift >= 5 ==> mask & 0x10 == 0
      invariant shift >= 6 ==> mask & 0x20 == 0
      invariant shift >= 7 ==> mask & 0x40 == 0
    {
      shift := shift + 1;
    }
  }

  // --- whole blocks --------------------------------------------------------------

  /** Whether a field of this shape may be merged into a block of `blockLen` bytes at all. */
  predicate FieldFits(blockLen: nat, offset: nat, width: nat, mask: byte, field: seq<byte>)
    requires |field| >= width
  {
    && blockLen != 0
    && 0 < width <= 4
    && offset + width <= blockLen
    && (mask != 0 ==> width == 1 && Contiguous(mask) && field[0] <= FieldMax(mask))
  }

  /** The block to send back: `block` with only the field replaced; None when nothing may be sent. */
  function MergeBlock(block: seq<byte>, offset: nat, width: nat, mask: byte, field: seq<byte>): (r: Option<seq<byte>>)
    requires |field| >= width
    ensures r.Some? <==> FieldFits(|block|, offset, width, mask, field)
  {
    if |block| == 0 || width == 0 || width > 4 || offset + width > |block| then None
    else if mask != 0 && width != 1 then None
    else if mask != 0 then
      var merged := MergeBits(block[offset], mask, field[0]);
      if merged.None? then None else Some(block[offset := merged.value])
    else Some(block[..offset] + field[..width] + block[offset + width..])
  }

  /** `after` is `before` with the field, and nothing but the field, taken over from `field`. */
  ghost predicate OnlyFieldReplaced(before: seq<byte>, after: seq<byte>,
                                    offset: nat, width: nat, mask: byte, field: seq<byte>)
    requires |field| >= width && FieldFits(|before|, offset, width, mask, field)
  {
    && |after| == |before|
    && (forall i :: 0 <= i < |before| && !(offset <= i < offset + width) ==> after[i] == before[i])
    && (mask == 0 ==> forall i :: offset <= i < offset + width ==> after[i] == field[i - offset])
    && (mask != 0 ==>
          after[offset] & !mask == before[offset] & !mask && ExtractField(after[offset], mask) == Some(field[0]))
  }

  lemma MergedReplacesOnlyField(block: seq<byte>, offset: nat, width: nat, mask: byte, field: seq<byte>)
    requires |field| >= width && FieldFits(|block|, offset, width, mask, field)
    ensures OnlyFieldReplaced(block, MergeBlock(block, offset, width, mask, field).value, offset, width, mask, field)
  {
    if mask != 0 {
      MergeBitsRoundTrip(block[offset], mask, field[0]);
    }
  }

  lemma OnlyOneReplacement(block: seq<byte>, offset: nat, width: nat, mask: byte, field: seq<byte>,
                           a: seq<byte>, b: seq<byte>)
    requires |field| >= width && FieldFits(|block|, offset, width, mask, field)
    requires OnlyFieldReplaced(block, a, offset, width, mask, field)
    requires OnlyFieldReplaced(block, b, offset, width, mask, field)
    ensures a == b
  {
    if mask == 0 {
      forall i | 0 <= i < |block|
        ensures a[i] == b[i]
      {
        if offset <= i < offset + width {
          assert a[i] == field[i - offset] == b[i];
        }
      }
    } else {
      BytesAgree(block[offset], a[offset], b[offset], mask, field[0]);
      SameElsewhere(block, a, b, offset);
    }
  }

  lemma BytesAgree(before: byte, a: byte, b: byte, mask: byte, field: byte)
    requires Contiguous(mask) && field <= FieldMax(mask)
    requires a & !mask == before & !mask && ExtractField(a, mask) == Some(field)
    requires b & !mask == before & !mask && ExtractField(b, mask) == Some(field)
    ensures a == b
  {
    MergedByteUnique(before, a, mask, field);
    MergedByteUnique(before, b, mask, field);
  }

  lemma SameElsewhere(block: seq<byte>, a: seq<byte>, b: seq<byte>, k: nat)
    requires k < |block| == |a| == |b| && a[k] == b[k]
    requires forall i :: 0 <= i < |block| && i != k ==> a[i] == block[i]
    requires forall i :: 0 <= i < |block| && i != k ==> b[i] == block[i]
    ensures a == b
  {
    forall i | 0 <= i < |block|
      ensures a[i] == b[i]
    {}
  }

  /** The merge gives the one block in which only the field changed, and refuses exactly the bad shapes. */
  lemma MergeBlockExact(block: seq<byte>, offset: nat, width: nat, mask: byte, field: seq<byte>, after: seq<byte>)
    requires |field| >= width
    ensures MergeBlock(block, offset, width, mask, field) == Some(after) <==>
            && FieldFits(|block|, offset, width, mask, field)
            && OnlyFieldReplaced(block, after, offset, width, mask, field)
  {
    if FieldFits(|block|, offset, width, mask, field) {
      var merged := MergeBlock(block, offset, width, mask, field).value;
      MergedReplacesOnlyField(block, offset, width, mask, field);
      if OnlyFieldReplaced(block, after, offset, width, mask, field) {
        OnlyOneReplacement(block, offset, width, mask, field, after, merged);
      }
    }
  }

  lemma MergedByteUnique(before: byte, after: byte, mask: byte, field: byte)
    requires Contiguous(mask) && field <= FieldMax(mask)
    requires after & !mask == before & !mask && ExtractField(after, mask) == Some(field)
    ensures MergeBits(before, mask, field) == Some(after)
  {}

  /** The merge on buffers. `out` may be the buffer the block was read into. */
  method MergeBlockField(block: array<byte>, blockLen: nat, offset: nat, width: nat, mask: byte,
                         field: seq<byte>, out: array<byte>) returns (ok: bool)
    requires blockLen <= block.Length && blockLen <= out.Length && |field| >= width
    modifies out
    ensures ok == MergeBlock(old(block[..blockLen]), offset, width, mask, field).Some?
    ensures ok ==> out[..blockLen] == MergeBlock(old(block[..blockLen]), offset, width, mask, field).value
    ensures out[blockLen..] == old(out[blockLen..])
    ensures !ok ==> out[..] == old(out[..])
  {
    if blockLen == 0 || width == 0 || width > 4 || offset + width > blockLen {
      return false;
    }
    if mask != 0 && width != 1 {
      return false;
    }
    ghost var was := block[..blockLen];
    var merged: byte := 0;
    if mask != 0 {
      var m := MergeBits(block[offset], mask, field[0]);
      if m.None? {
        return false;
      }
      merged := m.value;
    }
    if out != block {
      forall i | 0 <= i < blockLen {
        out[i] := block[i];
      }
    }
    assert out[..blockLen] == was;
    if mask != 0 {
      out[offset] := merged;
    } else {
      forall i | 0 <= i < width {
        out[offset + i] := field[i];
      }
    }
    return true;
  }
}
