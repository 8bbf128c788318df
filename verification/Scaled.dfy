/**
 Scaled integers on the wire: a real value divided by its scale, rounded half away from
 zero and sent as up to four little-endian bytes. Scaling is over the reals; the integer
 parts are exact.
 */
module Scaled {
  import opened Basics

  const GUARD: real := 4294967296.0

  // --- rounding -------------------------------------------------------------------------------

  /** Nearest integer, halves away from zero. */
  function Llround(x: real): int {
    if x >= 0.0 then (x + 0.5).Floor else -((-x + 0.5).Floor)
  }

  /** `n` is nearest to `x`, and of two equally near the one farther from zero. */
  predicate NearestAway(x: real, n: int) {
    if x >= 0.0 then n as real - 0.5 <= x < n as real + 0.5 else n as real - 0.5 < x <= n as real + 0.5
  }

  lemma FloorIs(x: real, n: int)
    requires n as real <= x < n as real + 1.0
    ensures x.Floor == n
  {}

  lemma LlroundExact(x: real, n: int)
    ensures Llround(x) == n <==> NearestAway(x, n)
  {
    if NearestAway(x, n) {
      if x >= 0.0 { FloorIs(x + 0.5, n); } else { FloorIs(-x + 0.5, -n); }
    }
  }

  lemma LlroundMonotone(x: real, y: real)
    requires x <= y
    ensures Llround(x) <= Llround(y)
  {
    LlroundExact(x, Llround(x));
    LlroundExact(y, Llround(y));
  }

  // --- little-endian integers ----------------------------------------------------------------------

  /** 256 to the power `i`, for the widths a payload has. */
  function Pow256(i: nat): (p: nat)
    requires i <= 8
    ensures p > 0
  {
    match i
    case 0 => 1
    case 1 => 0x100
    case 2 => 0x1_0000
    case 3 => 0x100_0000
    case 4 => 0x1_0000_0000
    case 5 => 0x100_0000_0000
    case 6 => 0x1_0000_0000_0000
    case 7 => 0x100_0000_0000_0000
    case 8 => 0x1_0000_0000_0000_0000
  }

  function ReadLe(b: seq<u8>): (v: nat)
    requires |b| <= 8
    ensures v < Pow256(|b|)
  {
    if b == [] then 0
    else
      var k := |b| - 1;
      var low := ReadLe(b[..k]);
      assert b[k] as int * Pow256(k) <= 255 * Pow256(k);
      low + b[k] as int * Pow256(k)
  }

  /** The value of `raw` as an unsigned 64-bit pattern. */
  function Pattern64(raw: int): nat
    requires -0x8000_0000_0000_0000 <= raw < 0x8000_0000_0000_0000
  {
    if raw < 0 then raw + 0x1_0000_0000_0000_0000 else raw
  }

  function Octet(u: nat, i: nat): u8
    requires i < 8
  {
    u / Pow256(i) % 256
  }

  function LeBytes(u: nat, len: nat): (b: seq<u8>)
    requires len <= 8
    ensures |b| == len
  {
    seq(len, i requires 0 <= i < len => Octet(u, i))
  }

  lemma OctetSplits(u: nat, i: nat)
    requires i < 4
    ensures u / Pow256(i) == Octet(u, i) + 256 * (u / Pow256(i + 1))
  {}

  lemma {:induction false} LowOctets(u: nat, len: nat)
    requires len <= 4
    ensures u == ReadLe(LeBytes(u, len)) + Pow256(len) * (u / Pow256(len))
  {
    if len == 0 {
      assert LeBytes(u, 0) == [];
    } else {
      var k := len - 1;
      LowOctets(u, k);
      assert LeBytes(u, len)[..k] == LeBytes(u, k);
      OctetSplits(u, k);
      TopOctet(ReadLe(LeBytes(u, k)), u, k);
    }
  }

  lemma TopOctet(low: nat, u: nat, k: nat)
    requires k < 4 && u == low + Pow256(k) * (u / Pow256(k))
    requires u / Pow256(k) == Octet(u, k) + 256 * (u / Pow256(k + 1))
    ensures u == low + Octet(u, k) * Pow256(k) + Pow256(k + 1) * (u / Pow256(k + 1))
  {}

  /** Two's complement: a value with the top bit of its width set is negative. */
  function SignExtend(raw: nat, len: nat): int
    requires 1 <= len <= 8 && raw < Pow256(len)
  {
    if raw >= Pow256(len) / 2 then raw - Pow256(len) else raw
  }

  predicate RawFits(raw: int, len: nat, signed: bool)
    requires 1 <= len <= 4
  {
    if signed then -(Pow256(len) / 2) <= raw < Pow256(len) / 2 else 0 <= raw < Pow256(len)
  }

  /** A fitting integer is what its own bytes read as. */
  lemma BytesReadBack(raw: int, len: nat, signed: bool)
    requires 1 <= len <= 4 && RawFits(raw, len, signed)
    ensures IntOf(ReadLe(LeBytes(Pattern64(raw), len)), len, signed) == raw
  {
    var u := Pattern64(raw);
    var v := ReadLe(LeBytes(u, len));
    LowOctets(u, len);
    ResidueOf(raw, v, u / Pow256(len), len);
  }

  lemma ResidueOf(raw: int, v: nat, q: nat, len: nat)
    requires 1 <= len <= 4 && -(Pow256(len) / 2) <= raw < Pow256(len) && v < Pow256(len)
    requires Pattern64(raw) == v + Pow256(len) * q
    ensures v == if raw < 0 then raw + Pow256(len) else raw
  {}

  // --- scaling ------------------------------------------------------------------------------------------

  function EncodeScaled(value: real, scale: real, signed: bool, len: nat): Option<seq<u8>> {
    if len == 0 || len > 4 || scale == 0.0 then None
    else
      var q := value / scale;
      if q >= GUARD || q <= -GUARD then None
      else if !RawFits(Llround(q), len, signed) then None
      else Some(LeBytes(Pattern64(Llround(q)), len))
  }

  function DecodeScaled(data: seq<u8>, len: nat, signed: bool, scale: real): Option<real> {
    if len == 0 || len > 8 || |data| < len then None
    else
      Some(Step(IntOf(ReadLe(data[..len]), len, signed), scale))
  }

  /** The value of raw step `n`. */
  function Step(n: int, scale: real): real {
    n as real * scale
  }

  function IntOf(v: nat, len: nat, signed: bool): int
    requires 1 <= len <= 8 && v < Pow256(len)
  {
    if signed then SignExtend(v, len) else v
  }

  /** The guard against 2^32 refuses nothing the width would have taken. */
  lemma GuardMovesNoBoundary(q: real, len: nat, signed: bool)
    requires 1 <= len <= 4 && (q >= GUARD || q <= -GUARD)
    ensures !RawFits(Llround(q), len, signed)
  {
    LlroundExact(q, Llround(q));
  }

  /** A value is sent exactly when its rounded step fits the width, and then as that step's bytes. */
  lemma EncodesExactly(value: real, scale: real, signed: bool, len: nat)
    ensures EncodeScaled(value, scale, signed, len).Some? <==>
            1 <= len <= 4 && scale != 0.0 && RawFits(Llround(value / scale), len, signed)
  {
    if 1 <= len <= 4 && scale != 0.0 {
      var q := value / scale;
      if q >= GUARD || q <= -GUARD { GuardMovesNoBoundary(q, len, signed); }
    }
  }

  function AbsReal(x: real): real {
    if x < 0.0 then -x else x
  }

  lemma WithinHalfStep(value: real, scale: real, n: int)
    requires scale != 0.0 && NearestAway(value / scale, n)
    ensures AbsReal(Step(n, scale) - value) <= AbsReal(scale) / 2.0
  {
    var q := value / scale;
    var e := n as real - q;
    assert -0.5 <= e <= 0.5;
    assert n as real * scale - value == e * scale by {
      assert q * scale == value;
    }
    HalfOf(e, scale);
  }

  lemma ProductNotNegative(a: real, b: real)
    requires a >= 0.0 && b >= 0.0
    ensures a * b >= 0.0
  {}

  lemma HalfOf(e: real, s: real)
    requires -0.5 <= e <= 0.5
    ensures AbsReal(e * s) <= AbsReal(s) / 2.0
  {
    var m := AbsReal(s);
    ProductNotNegative(0.5 - e, m);
    ProductNotNegative(e + 0.5, m);
    assert (0.5 - e) * m == m / 2.0 - e * m && (e + 0.5) * m == e * m + m / 2.0;
    assert e * s == e * m || e * s == -(e * m);
  }

  lemma DecodesRaw(raw: int, scale: real, signed: bool, len: nat)
    requires 1 <= len <= 4 && RawFits(raw, len, signed)
    ensures DecodeScaled(LeBytes(Pattern64(raw), len), len, signed, scale) == Some(Step(raw, scale))
  {
    BytesReadBack(raw, len, signed);
    var b := LeBytes(Pattern64(raw), len);
    assert b[..len] == b;
  }

  /** What was sent reads back as the nearest step, so within half a step of the value asked for. */
  lemma DecodesNearest(value: real, scale: real, signed: bool, len: nat)
    requires EncodeScaled(value, scale, signed, len).Some?
    ensures scale != 0.0
    ensures var b := EncodeScaled(value, scale, signed, len).value;
            && |b| == len
            && DecodeScaled(b, len, signed, scale) == Some(Step(Llround(value / scale), scale))
            && AbsReal(Step(Llround(value / scale), scale) - value) <= AbsReal(scale) / 2.0
  {
    var n := Llround(value / scale);
    DecodesRaw(n, scale, signed, len);
    LlroundExact(value / scale, n);
    WithinHalfStep(value, scale, n);
  }

  // --- the loops ------------------------------------------------------------------------------------------

  method ReadLittleEndian(data: seq<u8>, len: nat) returns (v: nat)
    requires len <= |data|
    ensures v == ReadLe(data[..if len < 8 then len else 8])
  {
    v := 0;
    var i: nat := 0;
    while i < len && i < 8
      invariant i <= len && i <= 8
      invariant v == ReadLe(data[..i])
    {
      assert data[..i + 1][..i] == data[..i];
      v := v + data[i] as int * Pow256(i);
      i := i + 1;
    }
  }

  /** Fills `buf` only for a value that fits; the caller must not transmit otherwise. */
  method WriteScaled(value: real, scale: real, signed: bool, len: u8, buf: array<u8>) returns (ok: bool)
    requires len as int <= buf.Length
    modifies buf
    ensures ok == EncodeScaled(value, scale, signed, len).Some?
    ensures ok ==> buf[..len] == EncodeScaled(value, scale, signed, len).value
    ensures buf[len..] == old(buf[len..])
    ensures !ok ==> buf[..] == old(buf[..])
  {
    if len == 0 || len > 4 || scale == 0.0 {
      return false;
    }
    var q := value / scale;
    if q >= GUARD || q <= -GUARD {
      return false;
    }
    var raw := Llround(q);
    if !RawFits(raw, len, signed) {
      return false;
    }
    var u := Pattern64(raw);
    for i := 0 to len
      invariant forall k :: 0 <= k < i ==> buf[k] == Octet(u, k)
      invariant buf[len..] == old(buf[len..])
    {
      buf[i] := Octet(u, i);
    }
    assert buf[..len] == LeBytes(u, len);
    return true;
  }
}
