/**
 The per-day switching program: eight bytes holding four ON/OFF pairs, and the text
 "06:00-22:00 -- 08:30-12:00" they are shown and typed as.
 */
module Schaltzeiten {
  import opened Basics

  const END_OF_DAY: u8 := 0xC0
  const DISABLED: u8 := 0xFF

  // --- switch points -----------------------------------------------------------------------

  /** An ON byte that is a time of day and not the disabled mark. */
  predicate Active(b: u8) {
    b / 8 < 24
  }

  function TimeByte(h: nat, m: nat): Option<u8> {
    if h > 24 || m > 59 || (h == 24 && m != 0) then None else Some(h * 8 + m / 10)
  }

  /** Minutes after midnight a switch point stands for. */
  function MinutesOf(b: u8): nat {
    b / 8 * 60 + b % 8 * 10
  }

  /** Minutes are floored to the grid of ten, and 24:00 is the one time without an ON byte. */
  lemma TimeByteFloors(h: nat, m: nat)
    ensures TimeByte(h, m).Some? <==> m < 60 && h * 60 + m <= 1440
    ensures TimeByte(h, m).Some? ==>
      var b := TimeByte(h, m).value;
      && MinutesOf(b) <= h * 60 + m < MinutesOf(b) + 10
      && (Active(b) <==> h < 24) && (b == END_OF_DAY <==> h == 24)
  {
    if TimeByte(h, m).Some? {
      HighAndLowBits(h, m / 10);
    }
  }

  lemma HighAndLowBits(h: nat, t: nat)
    requires t < 8
    ensures (h * 8 + t) / 8 == h && (h * 8 + t) % 8 == t
  {}

  /** A byte some time is encoded as. */
  predicate TimeOfDay(b: u8) {
    b <= END_OF_DAY && b % 8 <= 5
  }

  /** Comparing bytes compares times. */
  lemma BytesOrderTimes(a: u8, b: u8)
    requires TimeOfDay(a) && TimeOfDay(b)
    ensures a <= b <==> MinutesOf(a) <= MinutesOf(b)
  {
    assert a == a / 8 * 8 + a % 8 && b == b / 8 * 8 + b % 8;
  }

  datatype Pair = Pair(on: u8, off: u8)

  const NO_PAIR := Pair(DISABLED, DISABLED)

  /** What the encoder produces: nothing, or an interval that does not run backwards and starts before 24:00. */
  predicate PairValid(p: Pair) {
    p == NO_PAIR || (TimeOfDay(p.on) && TimeOfDay(p.off) && p.on != END_OF_DAY && MinutesOf(p.on) <= MinutesOf(p.off))
  }

  // --- text of one pair --------------------------------------------------------------------------

  predicate IsDigit(ch: char) {
    '0' <= ch <= '9'
  }

  function DigitValue(ch: char): (v: nat)
    requires IsDigit(ch)
    ensures v < 10
  {
    ch as int - '0' as int
  }

  function Digit(v: nat): (ch: char)
    requires v < 10
    ensures IsDigit(ch) && DigitValue(ch) == v
  {
    ('0' as int + v) as char
  }

  function TwoDigits(v: nat): (s: string)
    requires v < 100
    ensures |s| == 2 && IsDigit(s[0]) && IsDigit(s[1]) && DigitValue(s[0]) * 10 + DigitValue(s[1]) == v
  {
    [Digit(v / 10), Digit(v % 10)]
  }

  function TimeText(b: u8): (s: string)
    ensures |s| == 5
  {
    TwoDigits(b / 8) + ":" + TwoDigits(b % 8 * 10)
  }

  function PairText(p: Pair): (s: string)
    ensures |s| <= 11 && s != []
  {
    if !Active(p.on) then "--" else TimeText(p.on) + "-" + TimeText(p.off)
  }

  // --- reading one pair ------------------------------------------------------------------------------

  /** How many digits a field takes: as many as there are, two at most. */
  function Run(s: string): (n: nat)
    ensures n <= |s| && n <= 2 && forall i :: 0 <= i < n ==> IsDigit(s[i])
  {
    if s == [] || !IsDigit(s[0]) then 0
    else if |s| == 1 || !IsDigit(s[1]) then 1
    else 2
  }

  function RunValue(s: string, n: nat): nat
    requires n <= |s| && n <= 2 && forall i :: 0 <= i < n ==> IsDigit(s[i])
  {
    if n == 0 then 0 else if n == 1 then DigitValue(s[0]) else DigitValue(s[0]) * 10 + DigitValue(s[1])
  }

  datatype Field = Field(b: u8, rest: string)

  /** HH:MM at the front of `s`, and what follows it. */
  function ParseTime(s: string): Option<Field> {
    var n := Run(s);
    if n == 0 || n >= |s| || s[n] != ':' then None
    else
      var t := s[n + 1..];
      var k := Run(t);
      if k == 0 then None
      else match TimeByte(RunValue(s, n), RunValue(t, k))
        case None => None
        case Some(b) => Some(Field(b, t[k..]))
  }

  /**
   The interval from `on` to the OFF time read, unless it is missing, trailed by more,
   reversed, or starts at 24:00.
   */
  function IntervalFrom(on: u8, off: Option<Field>): Option<Pair> {
    if off.None? || off.value.rest != [] || on == END_OF_DAY || off.value.b < on then None
    else Some(Pair(on, off.value.b))
  }

  function ParsePair(token: string): Option<Pair> {
    if ':' !in token then
      if token == "-" || token == "--" then Some(NO_PAIR) else None
    else
      var on := ParseTime(token);
      if on.None? || on.value.rest == [] || on.value.rest[0] != '-' then None
      else IntervalFrom(on.value.b, ParseTime(on.value.rest[1..]))
  }

  /** One or two digits that read as `v`. */
  predicate Numeral(s: string, v: nat) {
    1 <= |s| <= 2 && (forall i :: 0 <= i < |s| ==> IsDigit(s[i])) && RunValue(s, |s|) == v
  }

  /** `s` is the time `h`:`m`, written with one or two digits each. */
  ghost predicate WrittenTime(s: string, h: nat, m: nat) {
    exists i :: 0 <= i < |s| && s[i] == ':' && Numeral(s[..i], h) && Numeral(s[i + 1..], m)
  }

  lemma ReadsWritten(s: string, i: nat, h: nat, m: nat, rest: string)
    requires i < |s| && s[i] == ':' && Numeral(s[..i], h) && Numeral(s[i + 1..], m)
    requires rest != [] ==> !IsDigit(rest[0])
    ensures ParseTime(s + rest) == match TimeByte(h, m) case None => None case Some(b) => Some(Field(b, rest))
  {
    var all := s + rest;
    assert all[..i] == s[..i];
    assert forall k :: 0 <= k < i ==> all[k] == s[..i][k];
    var n := Run(all);
    assert n == i;
    var t := all[i + 1..];
    assert t == s[i + 1..] + rest;
    var k := Run(t);
    assert k == |s| - i - 1;
    assert t[k..] == rest;
  }

  lemma WrittenRead(s: string)
    requires ParseTime(s).Some?
    ensures var f := ParseTime(s).value;
            |f.rest| <= |s| && s == s[..|s| - |f.rest|] + f.rest
            && exists h: nat, m: nat :: WrittenTime(s[..|s| - |f.rest|], h, m) && TimeByte(h, m) == Some(f.b)
  {
    var n := Run(s);
    var t := s[n + 1..];
    var k := Run(t);
    var w := s[..n + 1 + k];
    assert w[..n] == s[..n] && w[n + 1..] == t[..k];
    assert Numeral(w[..n], RunValue(s, n));
    assert Numeral(w[n + 1..], RunValue(t, k));
    assert WrittenTime(w, RunValue(s, n), RunValue(t, k));
    assert s[n + 1 + k..] == t[k..];
    assert w == s[..|s| - |t[k..]|];
  }

  /** An interval written out: two times joined by a dash. */
  ghost predicate WrittenPair(token: string, h: nat, m: nat, h2: nat, m2: nat) {
    exists j ::
      0 <= j < |token| && token[j] == '-' && WrittenTime(token[..j], h, m) && WrittenTime(token[j + 1..], h2, m2)
  }

  /** A token that means this pair: a dash or two for none, else two times, in order once both are floored. */
  ghost predicate Means(token: string, p: Pair) {
    || (p == NO_PAIR && (token == "-" || token == "--"))
    || exists h: nat, m: nat, h2: nat, m2: nat ::
         && WrittenPair(token, h, m, h2, m2)
         && h < 24 && TimeByte(h, m) == Some(p.on) && TimeByte(h2, m2) == Some(p.off)
         && MinutesOf(p.on) <= MinutesOf(p.off)
  }

  lemma TimeBytesAreTimes(h: nat, m: nat)
    requires TimeByte(h, m).Some?
    ensures TimeOfDay(TimeByte(h, m).value)
  {
    HighAndLowBits(h, m / 10);
  }

  lemma ReadsTime(s: string, h: nat, m: nat, rest: string)
    requires WrittenTime(s, h, m) && (rest != [] ==> !IsDigit(rest[0]))
    ensures ':' in s
    ensures ParseTime(s + rest) == match TimeByte(h, m) case None => None case Some(b) => Some(Field(b, rest))
  {
    var i :| 0 <= i < |s| && s[i] == ':' && Numeral(s[..i], h) && Numeral(s[i + 1..], m);
    ReadsWritten(s, i, h, m, rest);
  }

  /** A pair is two times around a dash, neither reversed nor starting at 24:00. */
  lemma PairFromTimes(token: string, j: nat, on: u8, off: u8)
    requires ':' in token && j < |token| && token[j] == '-'
    requires ParseTime(token) == Some(Field(on, token[j..])) && ParseTime(token[j + 1..]) == Some(Field(off, []))
    requires on != END_OF_DAY && on <= off
    ensures ParsePair(token) == Some(Pair(on, off))
  {
    assert token[j..][1..] == token[j + 1..];
  }

  lemma ReadsOn(token: string, j: nat, h: nat, m: nat)
    requires j < |token| && token[j] == '-' && WrittenTime(token[..j], h, m) && TimeByte(h, m).Some?
    ensures ':' in token && ParseTime(token) == Some(Field(TimeByte(h, m).value, token[j..]))
  {
    ReadsTime(token[..j], h, m, token[j..]);
    assert token == token[..j] + token[j..];
  }

  lemma ReadsOff(token: string, h: nat, m: nat)
    requires WrittenTime(token, h, m) && TimeByte(h, m).Some?
    ensures ParseTime(token) == Some(Field(TimeByte(h, m).value, []))
  {
    ReadsTime(token, h, m, []);
    assert token == token + [];
  }

  lemma ReadsInterval(token: string, p: Pair, h: nat, m: nat, h2: nat, m2: nat)
    requires WrittenPair(token, h, m, h2, m2) && h < 24
    requires TimeByte(h, m) == Some(p.on) && TimeByte(h2, m2) == Some(p.off) && MinutesOf(p.on) <= MinutesOf(p.off)
    ensures ParsePair(token) == Some(p)
  {
    InOrder(h, m, h2, m2);
    var j :|
      0 <= j < |token| && token[j] == '-' && WrittenTime(token[..j], h, m) && WrittenTime(token[j + 1..], h2, m2);
    ReadsOn(token, j, h, m);
    ReadsOff(token[j + 1..], h2, m2);
    PairFromTimes(token, j, p.on, p.off);
  }

  lemma InOrder(h: nat, m: nat, h2: nat, m2: nat)
    requires TimeByte(h, m).Some? && TimeByte(h2, m2).Some?
    ensures TimeByte(h, m).value <= TimeByte(h2, m2).value
            <==> MinutesOf(TimeByte(h, m).value) <= MinutesOf(TimeByte(h2, m2).value)
    ensures TimeByte(h, m).value == END_OF_DAY <==> h == 24
  {
    TimeBytesAreTimes(h, m);
    TimeBytesAreTimes(h2, m2);
    BytesOrderTimes(TimeByte(h, m).value, TimeByte(h2, m2).value);
  }

  lemma PairParts(token: string)
    requires ParsePair(token).Some? && ':' in token
    ensures var on := ParseTime(token);
            && on.Some? && on.value.rest != [] && on.value.rest[0] == '-' && on.value.b != END_OF_DAY
            && var off := ParseTime(on.value.rest[1..]);
            && off.Some? && off.value.rest == [] && on.value.b <= off.value.b
            && ParsePair(token) == Some(Pair(on.value.b, off.value.b))
  {}

  lemma OnTime(token: string, on: Field) returns (j: nat, h: nat, m: nat)
    requires ParseTime(token) == Some(on) && on.rest != []
    ensures j < |token| && token[j..] == on.rest && WrittenTime(token[..j], h, m) && TimeByte(h, m) == Some(on.b)
  {
    WrittenRead(token);
    j := |token| - |on.rest|;
    h, m :| WrittenTime(token[..j], h, m) && TimeByte(h, m) == Some(on.b);
  }

  lemma IntervalRead(token: string)
    requires ParsePair(token).Some? && ':' in token
    ensures Means(token, ParsePair(token).value)
  {
    PairParts(token);
    var on := ParseTime(token).value;
    var j, h, m := OnTime(token, on);
    var b := token[j + 1..];
    assert on.rest[1..] == b;
    var h2, m2 := OffTime(b);
    InOrder(h, m, h2, m2);
    IntervalWritten(token, j, h, m, h2, m2);
    IntervalMeans(token, ParsePair(token).value, h, m, h2, m2);
  }

  lemma IntervalMeans(token: string, p: Pair, h: nat, m: nat, h2: nat, m2: nat)
    requires WrittenPair(token, h, m, h2, m2) && h < 24
    requires TimeByte(h, m) == Some(p.on) && TimeByte(h2, m2) == Some(p.off) && MinutesOf(p.on) <= MinutesOf(p.off)
    ensures Means(token, p)
  {}

  lemma OffTime(b: string) returns (h: nat, m: nat)
    requires ParseTime(b).Some? && ParseTime(b).value.rest == []
    ensures WrittenTime(b, h, m) && TimeByte(h, m) == Some(ParseTime(b).value.b)
  {
    WrittenRead(b);
    assert b[..|b|] == b;
    h, m :| WrittenTime(b, h, m) && TimeByte(h, m) == Some(ParseTime(b).value.b);
  }

  lemma IntervalWritten(token: string, j: nat, h: nat, m: nat, h2: nat, m2: nat)
    requires j < |token| && token[j] == '-' && WrittenTime(token[..j], h, m) && WrittenTime(token[j + 1..], h2, m2)
    ensures WrittenPair(token, h, m, h2, m2)
  {}

  /** The parser accepts exactly the tokens that mean a pair, and reads that pair. */
  lemma ParsesExactlyMeaning(token: string, p: Pair)
    ensures ParsePair(token) == Some(p) <==> Means(token, p)
  {
    if ParsePair(token) == Some(p) && ':' in token {
      IntervalRead(token);
    }
    if Means(token, p) && !(p == NO_PAIR && (token == "-" || token == "--")) {
      var h: nat, m: nat, h2: nat, m2: nat :|
        && WrittenPair(token, h, m, h2, m2)
        && h < 24 && TimeByte(h, m) == Some(p.on) && TimeByte(h2, m2) == Some(p.off)
        && MinutesOf(p.on) <= MinutesOf(p.off);
      ReadsInterval(token, p, h, m, h2, m2);
    }
  }

  lemma ParsedTime(s: string)
    requires ParseTime(s).Some?
    ensures TimeOfDay(ParseTime(s).value.b)
  {
    var n := Run(s);
    TimeBytesAreTimes(RunValue(s, n), RunValue(s[n + 1..], Run(s[n + 1..])));
  }

  lemma ParsedIsValid(token: string)
    requires ParsePair(token).Some?
    ensures PairValid(ParsePair(token).value)
  {
    if ':' in token {
      var on := ParseTime(token).value;
      ParsedTime(token);
      ParsedTime(on.rest[1..]);
      BytesOrderTimes(on.b, ParseTime(on.rest[1..]).value.b);
    }
  }

  lemma TimeTextRead(b: u8, rest: string)
    requires TimeOfDay(b) && (rest != [] ==> !IsDigit(rest[0]))
    ensures ParseTime(TimeText(b) + rest) == Some(Field(b, rest))
  {
    var s := TimeText(b);
    assert s[..2] == TwoDigits(b / 8) && s[3..] == TwoDigits(b % 8 * 10) && s[2] == ':';
    ReadsWritten(s, 2, b / 8, b % 8 * 10, rest);
  }

  /** A pair's own text reads back as the pair. */
  lemma PairTextRead(p: Pair)
    requires PairValid(p)
    ensures ParsePair(PairText(p)) == Some(p)
  {
    if p != NO_PAIR {
      var t := PairText(p);
      assert t[2] == ':';
      var tail := "-" + TimeText(p.off);
      assert t == TimeText(p.on) + tail;
      TimeTextRead(p.on, tail);
      assert tail[1..] == TimeText(p.off) + [];
      TimeTextRead(p.off, []);
      BytesOrderTimes(p.on, p.off);
    }
  }
}
