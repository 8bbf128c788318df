/**
 Heating-circuit labels: UTF-16LE code units from the device, shown as UTF-8. The decoder
 here follows the syntax of section 4 of RFC 3629 and is the judge of what comes out.
 */
module Utf16 {
  import opened Basics

  const SPACE: u16 := 0x20

  // --- UTF-8 by RFC 3629 ----------------------------------------------------------------------

  predicate Tail(b: u8) {
    0x80 <= b <= 0xBF
  }

  datatype Char = Char(point: nat, width: nat)

  function Second(b: seq<u8>): Option<Char>
    requires |b| >= 2
  {
    if 0xC2 <= b[0] <= 0xDF && Tail(b[1]) then Some(Char((b[0] as int - 0xC0) * 64 + (b[1] as int - 0x80), 2)) else None
  }

  function Third(b: seq<u8>): Option<Char>
    requires |b| >= 3
  {
    if && (|| (b[0] == 0xE0 && 0xA0 <= b[1] <= 0xBF)
           || (0xE1 <= b[0] <= 0xEC && Tail(b[1]))
           || (b[0] == 0xED && 0x80 <= b[1] <= 0x9F)
           || (0xEE <= b[0] <= 0xEF && Tail(b[1])))
       && Tail(b[2])
    then Some(Char((b[0] as int - 0xE0) * 4096 + (b[1] as int - 0x80) * 64 + (b[2] as int - 0x80), 3)) else None
  }

  function Fourth(b: seq<u8>): Option<Char>
    requires |b| >= 4
  {
    if && (|| (b[0] == 0xF0 && 0x90 <= b[1] <= 0xBF)
           || (0xF1 <= b[0] <= 0xF3 && Tail(b[1]))
           || (b[0] == 0xF4 && 0x80 <= b[1] <= 0x8F))
       && Tail(b[2]) && Tail(b[3])
    then
      Some(Char((b[0] as int - 0xF0) * 262144 + (b[1] as int - 0x80) * 4096
                + (b[2] as int - 0x80) * 64 + (b[3] as int - 0x80), 4))
    else None
  }

  /** The character `b` starts with, if that is well formed. */
  function FirstChar(b: seq<u8>): (c: Option<Char>)
    requires b != []
    ensures c.Some? ==> 1 <= c.value.width <= |b|
  {
    if b[0] <= 0x7F then Some(Char(b[0], 1))
    else if b[0] <= 0xDF then if |b| >= 2 then Second(b) else None
    else if b[0] <= 0xEF then if |b| >= 3 then Third(b) else None
    else if |b| >= 4 then Fourth(b) else None
  }

  /** The characters of a well-formed octet sequence; None when it is not one. */
  function DecodeUtf8(b: seq<u8>): Option<seq<nat>>
    decreases |b|
  {
    if b == [] then Some([])
    else match FirstChar(b)
      case None => None
      case Some(c) =>
        match DecodeUtf8(b[c.width..])
        case None => None
        case Some(rest) => Some([c.point] + rest)
  }

  // --- what is sent for one code unit ----------------------------------------------------------------

  predicate Surrogate(u: u16) {
    0xD800 <= u <= 0xDFFF
  }

  function Point(u: u16): nat {
    if Surrogate(u) then '?' as int else u
  }

  function Utf8(u: u16): (b: seq<u8>)
    ensures 1 <= |b| <= 3
  {
    var p := Point(u);
    if p < 0x80 then [p]
    else if p < 0x800 then [0xC0 + p / 64, 0x80 + p % 64]
    else [0xE0 + p / 4096, 0x80 + p / 64 % 64, 0x80 + p % 64]
  }

  function Utf8All(units: seq<u16>): seq<u8> {
    if units == [] then [] else Utf8(units[0]) + Utf8All(units[1..])
  }

  function Points(units: seq<u16>): seq<nat> {
    seq(|units|, i requires 0 <= i < |units| => Point(units[i]))
  }

  lemma SplitPoint(p: nat)
    requires p < 0x1_0000
    ensures p / 4096 < 16 && p / 64 % 64 < 64 && p % 64 < 64
    ensures p / 4096 * 4096 + p / 64 % 64 * 64 + p % 64 == p
    ensures p < 0x800 ==> p / 64 < 32 && p / 64 * 64 + p % 64 == p
  {
    assert p / 64 / 64 == p / 4096;
  }

  lemma TwoOctets(p: nat, rest: seq<u8>)
    requires 0x80 <= p < 0x800
    ensures FirstChar([0xC0 + p / 64, 0x80 + p % 64] + rest) == Some(Char(p, 2))
  {
    SplitPoint(p);
  }

  lemma ThreeOctets(p: nat, a: nat, b: nat, c: nat, rest: seq<u8>)
    requires 0x800 <= p < 0x1_0000 && !(0xD800 <= p <= 0xDFFF)
    requires p == a * 4096 + b * 64 + c && a < 16 && b < 64 && c < 64
    ensures FirstChar([0xE0 + a, 0x80 + b, 0x80 + c] + rest) == Some(Char(p, 3))
  {}

  /** What is sent for a unit is one well-formed character: the unit itself, '?' for a surrogate. */
  lemma UnitIsOneChar(u: u16, rest: seq<u8>)
    ensures FirstChar(Utf8(u) + rest) == Some(Char(Point(u), |Utf8(u)|))
    ensures (Utf8(u) + rest)[|Utf8(u)|..] == rest
  {
    var p := Point(u);
    SplitPoint(p);
    if 0x80 <= p < 0x800 {
      TwoOctets(p, rest);
    } else if p >= 0x800 {
      ThreeOctets(p, p / 4096, p / 64 % 64, p % 64, rest);
    }
  }

  lemma {:induction false} UnitsDecode(units: seq<u16>)
    ensures DecodeUtf8(Utf8All(units)) == Some(Points(units))
  {
    if units == [] {
      assert Points(units) == [];
    } else {
      UnitIsOneChar(units[0], Utf8All(units[1..]));
      UnitsDecode(units[1..]);
      assert Points(units) == [Point(units[0])] + Points(units[1..]);
    }
  }

  lemma {:induction false} OneMoreUnit(units: seq<u16>, u: u16)
    ensures Utf8All(units + [u]) == Utf8All(units) + Utf8(u)
  {
    if units == [] {
      assert Utf8All([u]) == Utf8(u) + Utf8All([]);
    } else {
      assert (units + [u])[1..] == units[1..] + [u];
      OneMoreUnit(units[1..], u);
    }
  }

  // --- which units are shown -----------------------------------------------------------------------------

  predicate Ends(u: u16) {
    u == 0x0000 || u == 0xFFFF
  }

  /** How many units are taken: up to a terminator or the first that does not fit in `room` octets. */
  function Kept(units: seq<u16>, room: nat): (k: nat)
    ensures k <= |units|
    decreases |units|
  {
    if units == [] || Ends(units[0]) || |Utf8(units[0])| > room then 0
    else 1 + Kept(units[1..], room - |Utf8(units[0])|)
  }

  /** Units without their trailing spaces. */
  function TrimUnits(units: seq<u16>): (r: seq<u16>)
    ensures r <= units && (r != [] ==> r[|r| - 1] != SPACE)
    ensures forall i :: |r| <= i < |units| ==> units[i] == SPACE
  {
    if units != [] && units[|units| - 1] == SPACE then TrimUnits(units[..|units| - 1]) else units
  }

  function TrimOctets(b: seq<u8>): (r: seq<u8>)
    ensures r <= b
  {
    if b != [] && b[|b| - 1] == SPACE then TrimOctets(b[..|b| - 1]) else b
  }

  function Label(units: seq<u16>, cap: nat): seq<u16>
    requires cap > 0
  {
    TrimUnits(units[..Kept(units, cap - 1)])
  }

  /** `k` units, up to the first terminator, or the first that would leave no room for the NUL. */
  ghost predicate KeptAt(units: seq<u16>, room: int, k: nat) {
    && k <= |units|
    && (forall i :: 0 <= i < k ==> !Ends(units[i]))
    && |Utf8All(units[..k])| <= room
    && (k == |units| || Ends(units[k]) || |Utf8All(units[..k + 1])| > room)
  }

  lemma FirstUnit(units: seq<u16>, k: nat)
    requires 0 < k <= |units|
    ensures |Utf8All(units[..k])| == |Utf8(units[0])| + |Utf8All(units[1..][..k - 1])|
  {
    assert units[..k][1..] == units[1..][..k - 1];
  }

  lemma KeptOnward(units: seq<u16>, room: nat, k: nat)
    requires units != [] && 0 < k
    ensures KeptAt(units, room, k) <==> !Ends(units[0]) && KeptAt(units[1..], room - |Utf8(units[0])|, k - 1)
  {
    var rest := units[1..];
    if k <= |units| {
      FirstUnit(units, k);
      if k < |units| { FirstUnit(units, k + 1); }
      assert forall i :: 0 < i < k ==> units[i] == rest[i - 1];
      assert forall i :: 0 <= i < k - 1 ==> rest[i] == units[i + 1];
    }
  }

  /** Exactly the units before the first terminator, or before the first that would leave no room for the NUL. */
  lemma {:induction false} KeptExactly(units: seq<u16>, room: nat, k: nat)
    ensures Kept(units, room) == k <==> KeptAt(units, room, k)
    decreases |units|
  {
    if units != [] {
      if k > 0 {
        KeptOnward(units, room, k);
        if |Utf8(units[0])| <= room { KeptExactly(units[1..], room - |Utf8(units[0])|, k - 1); }
      } else {
        FirstUnit(units, 1);
      }
    }
  }

  lemma LastOctet(u: u16)
    ensures Utf8(u)[|Utf8(u)| - 1] == SPACE <==> u == SPACE
    ensures forall i :: 0 <= i < |Utf8(u)| && !Ends(u) ==> Utf8(u)[i] != 0
  {}

  /** Trimming octets from the end trims whole space characters and never splits another. */
  lemma {:induction false} TrimsWholeChars(units: seq<u16>)
    ensures TrimOctets(Utf8All(units)) == Utf8All(TrimUnits(units))
    decreases |units|
  {
    if units != [] {
      var k := |units| - 1;
      var head, last := units[..k], units[k];
      assert units == head + [last];
      OneMoreUnit(head, last);
      LastOctet(last);
      var b := Utf8All(units);
      assert b[|b| - 1] == Utf8(last)[|Utf8(last)| - 1];
      if last == SPACE {
        assert Utf8(SPACE) == [0x20];
        assert b[..|b| - 1] == Utf8All(head);
        TrimsWholeChars(head);
      }
    }
  }

  lemma {:induction false} NoNulInside(units: seq<u16>)
    requires forall i :: 0 <= i < |units| ==> !Ends(units[i])
    ensures 0 !in Utf8All(units)
  {
    if units != [] {
      LastOctet(units[0]);
      NoNulInside(units[1..]);
    }
  }

  lemma PrefixIsShorter(units: seq<u16>, n: nat)
    requires n <= |units|
    ensures |Utf8All(units[..n])| <= |Utf8All(units)|
    decreases |units| - n
  {
    if n < |units| {
      PrefixIsShorter(units, n + 1);
      assert units[..n + 1] == units[..n] + [units[n]];
      OneMoreUnit(units[..n], units[n]);
    } else {
      assert units[..n] == units;
    }
  }

  /** The label is well-formed UTF-8, fits its buffer with the NUL, holds no NUL, and decodes to the units shown. */
  lemma LabelDecodes(units: seq<u16>, cap: nat)
    requires cap > 0
    ensures var shown := Label(units, cap); var b := Utf8All(shown);
            |b| < cap && 0 !in b && DecodeUtf8(b) == Some(Points(shown))
  {
    var k := Kept(units, cap - 1);
    KeptExactly(units, cap - 1, k);
    var shown := Label(units, cap);
    assert units[..k][..|shown|] == shown;
    PrefixIsShorter(units[..k], |shown|);
    UnitsDecode(shown);
    NoNulInside(shown);
  }

  // --- the decoder -----------------------------------------------------------------------------------------

  function UnitAt(data: seq<u8>, i: nat): u16
    requires 2 * i + 1 < |data|
  {
    data[2 * i] as int + data[2 * i + 1] as int * 0x100
  }

  function Units(data: seq<u8>, len: nat): (u: seq<u16>)
    requires len <= |data|
    ensures |u| == len / 2
  {
    seq(len / 2, i requires 0 <= i < len / 2 => UnitAt(data, i))
  }

  method PutOctets(out: array<u8>, n: nat, b: seq<u8>)
    requires n + |b| <= out.Length
    modifies out
    ensures out[..n + |b|] == old(out[..n]) + b
  {
    forall i | 0 <= i < |b| {
      out[n + i] := b[i];
    }
  }

  lemma KeepsOne(units: seq<u16>, j: nat, room: nat)
    requires j < |units| && !Ends(units[j]) && |Utf8(units[j])| <= room
    ensures Kept(units[j..], room) == 1 + Kept(units[j + 1..], room - |Utf8(units[j])|)
    ensures Utf8All(units[..j + 1]) == Utf8All(units[..j]) + Utf8(units[j])
  {
    assert units[j..][1..] == units[j + 1..];
    assert units[..j + 1] == units[..j] + [units[j]];
    OneMoreUnit(units[..j], units[j]);
  }

  /** Fills `out` with the units taken; `n` octets of them. */
  method TakeUnits(data: seq<u8>, len: nat, out: array<u8>, outCap: nat) returns (n: nat)
    requires len <= |data| && len % 2 == 0 && 0 < outCap <= out.Length
    modifies out
    ensures n < outCap
    ensures out[..n] == Utf8All(Units(data, len)[..Kept(Units(data, len), outCap - 1)])
  {
    ghost var units := Units(data, len);
    n := 0;
    var i: nat := 0;
    ghost var j: nat := 0;
    var stop := false;
    assert units[0..] == units && units[..0] == [];
    while i + 1 < len && !stop
      invariant i == 2 * j && j <= |units| && n < outCap
      invariant out[..n] == Utf8All(units[..j])
      invariant Kept(units, outCap - 1) == j + if stop then 0 else Kept(units[j..], outCap - 1 - n)
      decreases len - i, !stop
    {
      var cu: u16 := data[i] as int + data[i + 1] as int * 0x100;
      assert cu == units[j] == units[j..][0];
      var b := Utf8(cu);
      if Ends(cu) || n + |b| >= outCap {
        StopsHere(units[j..], outCap - 1 - n);
        stop := true;
      } else {
        KeepsOne(units, j, outCap - 1 - n);
        PutOctets(out, n, b);
        n, i, j := n + |b|, i + 2, j + 1;
      }
    }
    if !stop {
      assert units[j..] == [];
    }
  }

  lemma StopsHere(units: seq<u16>, room: nat)
    requires units != [] && (Ends(units[0]) || |Utf8(units[0])| > room)
    ensures Kept(units, room) == 0
  {}

  method DecodeUtf16(data: seq<u8>, len: u8, out: array<u8>, outCap: nat) returns (r: int)
    requires outCap <= out.Length
    modifies out
    ensures r == -1 <==> outCap == 0 || len == 0 || len % 2 != 0 || |data| < len
    ensures r == -1 ==> out[..] == old(out[..])
    ensures r != -1 ==>
      && 0 <= r < outCap && out[r] == 0
      && out[..r] == Utf8All(Label(Units(data, len), outCap))
  {
    if outCap == 0 || len == 0 || len % 2 != 0 || |data| < len {
      return -1;
    }
    var n := TakeUnits(data, len, out, outCap);
    ghost var units := Units(data, len);
    TrimsWholeChars(units[..Kept(units, outCap - 1)]);
    while n > 0 && out[n - 1] == SPACE
      invariant 0 <= n < outCap
      invariant TrimOctets(out[..n]) == Utf8All(Label(units, outCap))
    {
      assert out[..n][..n - 1] == out[..n - 1];
      n := n - 1;
    }
    out[n] := 0;
    r := n;
  }
}
