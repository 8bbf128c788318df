/** The day program's codec as the firmware runs it: indices into a text, and byte and character buffers. */
module SwitchingCodec {
  import opened Basics
  import opened Schaltzeiten
  import opened SwitchingDay

  const NUL: char := '\0'

  // --- encoding -------------------------------------------------------------------------------

  method ParseDigits(s: string, p: nat, end: nat) returns (v: nat, next: nat)
    requires p <= end <= |s|
    ensures next == p + Run(s[p..end])
    ensures v == RunValue(s[p..end], Run(s[p..end]))
  {
    v, next := 0, p;
    while next < end && IsDigit(s[next]) && next - p < 2
      invariant p <= next <= end && next - p <= 2
      invariant forall i :: 0 <= i < next - p ==> IsDigit(s[p..end][i])
      invariant v == RunValue(s[p..end], next - p)
    {
      v := v * 10 + DigitValue(s[next]);
      next := next + 1;
    }
  }

  /** Reads HH:MM at `p`; `next` is the first character after it. */
  method ParseHhmm(s: string, p: nat, end: nat) returns (ok: bool, b: u8, next: nat)
    requires p <= end <= |s|
    ensures ok == ParseTime(s[p..end]).Some?
    ensures ok ==> p <= next <= end && ParseTime(s[p..end]) == Some(Field(b, s[next..end]))
  {
    b, next := 0, p;
    var h, colon := ParseDigits(s, p, end);
    if colon == p || colon >= end || s[colon] != ':' {
      return false, b, p;
    }
    var m, after := ParseDigits(s, colon + 1, end);
    assert s[p..end][colon - p + 1..] == s[colon + 1..end];
    if after == colon + 1 {
      return false, b, p;
    }
    var t := TimeByte(h, m);
    if t.None? {
      return false, b, p;
    }
    assert s[colon + 1..end][after - colon - 1..] == s[after..end];
    return true, t.value, after;
  }

  /** Reads one word as a pair. */
  method ParseToken(s: string, p: nat, end: nat) returns (pair: Option<Pair>)
    requires p < end <= |s|
    ensures pair == ParsePair(s[p..end])
  {
    ghost var token := s[p..end];
    var hasColon := false;
    var q := p;
    while q < end && !hasColon
      invariant p <= q <= end
      invariant hasColon ==> ':' in token
      invariant !hasColon ==> forall i :: 0 <= i < q - p ==> token[i] != ':'
      decreases end - q, !hasColon
    {
      if s[q] == ':' {
        assert token[q - p] == ':';
        hasColon := true;
      } else {
        q := q + 1;
      }
    }
    if !hasColon {
      pair := if (end - p == 1 && s[p] == '-') || (end - p == 2 && s[p] == '-' && s[p + 1] == '-')
              then Some(NO_PAIR) else None;
      NoColon(token);
    } else {
      pair := ParseInterval(s, p, end);
    }
  }

  lemma NoColon(token: string)
    requires token != [] && ':' !in token
    ensures ParsePair(token) ==
            if (|token| == 1 && token[0] == '-') || (|token| == 2 && token[0] == '-' && token[1] == '-')
            then Some(NO_PAIR) else None
  {}

  lemma NoOnTime(token: string)
    requires ':' in token
    requires ParseTime(token).None? || ParseTime(token).value.rest == [] || ParseTime(token).value.rest[0] != '-'
    ensures ParsePair(token).None?
  {}

  lemma OnTimeRead(token: string, on: Field)
    requires ':' in token && ParseTime(token) == Some(on) && on.rest != [] && on.rest[0] == '-'
    ensures ParsePair(token) == IntervalFrom(on.b, ParseTime(on.rest[1..]))
  {}

  lemma DashFollows(s: string, p: nat, end: nat, on: u8, dash: nat)
    requires p <= dash < end <= |s| && ':' in s[p..end] && s[dash] == '-'
    requires ParseTime(s[p..end]) == Some(Field(on, s[dash..end]))
    ensures ParsePair(s[p..end]) == IntervalFrom(on, ParseTime(s[dash + 1..end]))
  {
    assert s[dash..end][1..] == s[dash + 1..end];
    OnTimeRead(s[p..end], Field(on, s[dash..end]));
  }

  lemma NoDash(s: string, p: nat, end: nat, on: u8, dash: nat)
    requires p <= dash <= end <= |s| && ':' in s[p..end] && (dash < end ==> s[dash] != '-')
    requires ParseTime(s[p..end]) == Some(Field(on, s[dash..end]))
    ensures ParsePair(s[p..end]).None?
  {
    NoOnTime(s[p..end]);
  }

  /** The OFF time from `p` to the end of the word. */
  method ParseOff(s: string, p: nat, end: nat, on: u8) returns (pair: Option<Pair>)
    requires p <= end <= |s|
    ensures pair == IntervalFrom(on, ParseTime(s[p..end]))
  {
    var ok, off, cur := ParseHhmm(s, p, end);
    if !ok || cur != end || on == END_OF_DAY || off < on {
      return None;
    }
    return Some(Pair(on, off));
  }

  method ParseInterval(s: string, p: nat, end: nat) returns (pair: Option<Pair>)
    requires p < end <= |s| && ':' in s[p..end]
    ensures pair == ParsePair(s[p..end])
  {
    var ok, on, dash := ParseHhmm(s, p, end);
    if !ok {
      NoOnTime(s[p..end]);
      return None;
    }
    if dash >= end || s[dash] != '-' {
      NoDash(s, p, end, on, dash);
      return None;
    }
    pair := ParseOff(s, dash + 1, end, on);
    DashFollows(s, p, end, on, dash);
  }

  lemma SkipsSpace(s: string, p: nat)
    requires p < |s| && s[p] == ' '
    ensures Tokens(s[p..]) == Tokens(s[p + 1..])
  {
    assert s[p..][1..] == s[p + 1..];
  }

  lemma TakesWord(s: string, p: nat, end: nat)
    requires p < end <= |s| && (forall i :: p <= i < end ==> s[i] != ' ') && (end < |s| ==> s[end] == ' ')
    ensures Tokens(s[p..]) == [s[p..end]] + Tokens(s[end..])
  {
    WordLenIs(s[p..], end - p);
    assert s[p..][..end - p] == s[p..end] && s[p..][end - p..] == s[end..];
  }

  lemma OneMoreParsed(done: seq<string>, token: string, all: seq<string>, rest: seq<string>)
    requires AllParse(done) && all == done + [token] + rest
    ensures ParsePair(token).None? ==> !AllParse(all)
    ensures ParsePair(token).Some? ==>
      && AllParse(done + [token])
      && forall i: nat :: PairOf(done + [token], i) == if i == |done| then ParsePair(token).value else PairOf(done, i)
  {
    assert all[|done|] == token;
  }

  /** What the working copy holds once `done` has been read. */
  ghost predicate Filled(tmp: seq<u8>, done: seq<string>) {
    AllParse(done) && |tmp| == DAY_BYTES && forall i :: 0 <= i < DAY_PAIRS ==> PairAt(tmp, i) == PairOf(done, i)
  }

  lemma FilledIsBytes(tmp: seq<u8>, done: seq<string>)
    requires Filled(tmp, done)
    ensures tmp == Bytes(done)
  {
    SamePairsSameBytes(tmp, Bytes(done));
  }

  lemma FillsOne(tmp: seq<u8>, done: seq<string>, token: string, pair: Pair)
    requires Filled(tmp, done) && |done| < DAY_PAIRS && ParsePair(token) == Some(pair)
    ensures Filled(tmp[2 * |done| := pair.on][2 * |done| + 1 := pair.off], done + [token])
  {
    var k := |done|;
    var after := tmp[2 * k := pair.on][2 * k + 1 := pair.off];
    OneMoreParsed(done, token, done + [token] + [], []);
    forall i | 0 <= i < DAY_PAIRS
      ensures PairAt(after, i) == PairOf(done + [token], i)
    {
      assert PairAt(tmp, i) == PairOf(done, i);
    }
  }

  /** The end of the word at `p`. */
  method WordEnd(str: string, p: nat) returns (end: nat)
    requires p < |str| && str[p] != ' '
    ensures p < end <= |str|
    ensures Tokens(str[p..]) == [str[p..end]] + Tokens(str[end..])
  {
    end := p;
    while end < |str| && str[end] != ' '
      invariant p <= end <= |str|
      invariant forall i :: p <= i < end ==> str[i] != ' '
    {
      end := end + 1;
    }
    TakesWord(str, p, end);
  }

  method SkipSpaces(str: string, p: nat) returns (q: nat)
    requires p <= |str|
    ensures p <= q <= |str| && (q < |str| ==> str[q] != ' ')
    ensures Tokens(str[q..]) == Tokens(str[p..])
  {
    q := p;
    while q < |str| && str[q] == ' '
      invariant p <= q <= |str|
      invariant Tokens(str[q..]) == Tokens(str[p..])
    {
      SkipsSpace(str, q);
      q := q + 1;
    }
  }

  /** Reads the word and stores its pair in the slot after those of `done`. */
  method StorePair(str: string, p: nat, end: nat, tmp: array<u8>, pair: nat, ghost done: seq<string>) returns (ok: bool)
    requires p < end <= |str| && Filled(tmp[..], done) && pair == |done| < DAY_PAIRS
    modifies tmp
    ensures ok == ParsePair(str[p..end]).Some?
    ensures ok ==> Filled(tmp[..], done + [str[p..end]])
  {
    var read := ParseToken(str, p, end);
    if read.None? {
      return false;
    }
    FillsOne(tmp[..], done, str[p..end], read.value);
    tmp[2 * pair], tmp[2 * pair + 1] := read.value.on, read.value.off;
    return true;
  }

  lemma FifthToken(done: seq<string>, token: string, rest: seq<string>)
    requires |done| >= DAY_PAIRS
    ensures |done + [token] + rest| > DAY_PAIRS
  {}

  lemma Regrouped(all: seq<string>, done: seq<string>, token: string, rest: seq<string>)
    requires all == done + ([token] + rest)
    ensures all == done + [token] + rest
  {}

  /** A rejected text leaves the buffer as it was: the parse fills a working copy and commits at the end. */
  method EncodeSchaltzeitenDay(str: string, buf8: array<u8>) returns (ok: bool)
    requires buf8.Length >= DAY_BYTES
    modifies buf8
    ensures ok == EncodeDay(str).Some?
    ensures ok ==> buf8[..DAY_BYTES] == EncodeDay(str).value && buf8[DAY_BYTES..] == old(buf8[DAY_BYTES..])
    ensures !ok ==> buf8[..] == old(buf8[..])
  {
    var tmp := new u8[DAY_BYTES](_ => DISABLED);
    var p := 0;
    var pair := 0;
    ghost var done: seq<string> := [];
    assert str[0..] == str;
    while p < |str|
      invariant p <= |str| && pair == |done| <= DAY_PAIRS
      invariant Tokens(str) == done + Tokens(str[p..])
      invariant Filled(tmp[..], done)
      invariant buf8[..] == old(buf8[..])
      decreases |str| - p
    {
      p := SkipSpaces(str, p);
      if p >= |str| {
        break;
      }
      var end := WordEnd(str, p);
      Regrouped(Tokens(str), done, str[p..end], Tokens(str[end..]));
      if pair >= DAY_PAIRS {
        FifthToken(done, str[p..end], Tokens(str[end..]));
        return false;
      }
      OneMoreParsed(done, str[p..end], Tokens(str), Tokens(str[end..]));
      var stored := StorePair(str, p, end, tmp, pair, done);
      if !stored {
        return false;
      }
      done := done + [str[p..end]];
      p, pair := end, pair + 1;
    }
    assert Tokens(str[p..]) == [];
    FilledIsBytes(tmp[..], done);
    forall i | 0 <= i < DAY_BYTES {
      buf8[i] := tmp[i];
    }
    return true;
  }

  // --- decoding --------------------------------------------------------------------------------

  function Least(a: nat, b: nat): nat {
    if a < b then a else b
  }

  lemma {:induction false} JoinStep(d: seq<u8>, n: nat)
    requires |d| >= DAY_BYTES && n < DAY_PAIRS
    ensures Join(Texts(d, n + 1)) == (if n == 0 then [] else Join(Texts(d, n)) + " ") + PairText(PairAt(d, n))
  {
    var t := Texts(d, n + 1);
    assert t[..n] == Texts(d, n);
  }

  /** The text of the first pairs starts the text of all of them. */
  lemma {:induction false} JoinPrefix(d: seq<u8>, n: nat, m: nat)
    requires |d| >= DAY_BYTES && n <= m <= DAY_PAIRS
    ensures Join(Texts(d, n)) <= Join(Texts(d, m))
    decreases m - n
  {
    if n < m {
      JoinPrefix(d, n, m - 1);
      JoinStep(d, m - 1);
      if n == 0 { assert Texts(d, n) == []; }
    }
  }

  /** Bounded formatting: as much of `text` as fits before `cap`, then a NUL; reports the whole length. */
  method AppendText(out: array<char>, off: nat, cap: nat, text: string) returns (w: nat)
    requires off < cap <= out.Length
    modifies out
    ensures w == |text|
    ensures out[..off] == old(out[..off])
    ensures var k := Least(|text|, cap - off - 1); out[off..off + k] == text[..k] && out[off + k] == NUL
  {
    var k := Least(|text|, cap - off - 1);
    forall i | 0 <= i < k {
      out[off + i] := text[i];
    }
    out[off + k] := NUL;
    assert out[off..off + k] == text[..k];
    w := |text|;
  }

  method LastActive(data: seq<u8>) returns (last: int)
    requires |data| >= DAY_BYTES
    ensures last + 1 == Shown(data)
  {
    last := -1;
    for p := 0 to DAY_PAIRS
      invariant -1 <= last < p
      invariant last >= 0 ==> Active(PairAt(data, last).on)
      invariant forall i :: last < i < p ==> !Active(PairAt(data, i).on)
    {
      if Active(data[2 * p]) {
        last := p;
      }
    }
    ShownIs(data, last + 1);
  }

  lemma ShownIs(d: seq<u8>, n: nat)
    requires |d| >= DAY_BYTES && n <= DAY_PAIRS
    requires n > 0 ==> Active(PairAt(d, n - 1).on)
    requires forall i :: n <= i < DAY_PAIRS ==> !Active(PairAt(d, i).on)
    ensures Shown(d) == n
  {
    var m := Shown(d);
    assert m > n ==> !(n <= m - 1 < DAY_PAIRS);
    assert n > m ==> !(m <= n - 1 < DAY_PAIRS);
  }

  /** `out` starts with as much of `text` as leaves room for the NUL, and `off` is how much. */
  ghost predicate Holds(out: seq<char>, off: nat, cap: nat, text: string) {
    0 < cap <= |out| && off == Least(|text|, cap - 1) && out[..off] == text[..off]
  }

  lemma AppendHolds(before: seq<char>, after: seq<char>, off: nat, cap: nat, text: string, more: string)
    requires Holds(before, off, cap, text) && |after| == |before| && after[..off] == before[..off]
    requires var k := Least(|more|, cap - off - 1); after[off..off + k] == more[..k]
    ensures Holds(after, Least(off + |more|, cap - 1), cap, text + more)
  {
    var k := Least(|more|, cap - off - 1);
    var n := Least(off + |more|, cap - 1);
    assert n == off + k;
    assert after[..n] == after[..off] + after[off..n];
    if off == |text| {
      assert (text + more)[..n] == text + more[..k];
    } else {
      assert k == 0;
      assert (text + more)[..n] == text[..off];
    }
  }

  /** One pair, after a space unless it is the first. */
  method AppendPair(data: seq<u8>, p: nat, out: array<char>, off: nat, cap: nat) returns (next: nat, cut: bool)
    requires |data| >= DAY_BYTES && p < DAY_PAIRS && cap <= out.Length
    requires Holds(out[..], off, cap, Join(Texts(data, p)))
    modifies out
    ensures Holds(out[..], next, cap, Join(Texts(data, p + 1)))
    ensures cut ==> next == cap - 1
  {
    next := off;
    ghost var head := Join(Texts(data, p));
    FirstIsEmpty(data, p, off, cap);
    if next != 0 && next < cap - 1 {
      ghost var before := out[..];
      out[next] := ' ';
      AppendHolds(before, out[..], off, cap, head, " ");
      next := next + 1;
    } else if p != 0 {
      AppendHolds(out[..], out[..], off, cap, head, " ");
    }
    ghost var text := if p == 0 then [] else head + " ";
    assert Holds(out[..], next, cap, text);
    JoinStep(data, p);
    ghost var was := out[..];
    var pairText := PairText(PairAt(data, p));
    var w := AppendText(out, next, cap, pairText);
    AppendHolds(was, out[..], next, cap, text, pairText);
    next := next + w;
    cut := next >= cap;
    if cut {
      next := cap - 1;
    }
  }

  lemma FirstIsEmpty(data: seq<u8>, p: nat, off: nat, cap: nat)
    requires |data| >= DAY_BYTES && p < DAY_PAIRS && cap > 0 && off == Least(|Join(Texts(data, p))|, cap - 1)
    ensures p == 0 ==> off == 0 && Join(Texts(data, p)) == []
    ensures p != 0 && off == 0 ==> cap == 1
  {
    if p == 0 {
      assert Texts(data, p) == [];
    } else {
      JoinStep(data, p - 1);
    }
  }

  /** The program's text in `out`, cut to what fits; -1 on a short payload or no room at all. */
  method DecodeSchaltzeitenDay(data: seq<u8>, out: array<char>, outCap: nat) returns (r: int)
    requires outCap <= out.Length
    modifies out
    ensures r == -1 <==> outCap == 0 || |data| < DAY_BYTES
    ensures r == -1 && outCap > 0 ==> out[0] == NUL
    ensures r != -1 ==>
      && r == Least(|DayText(data)|, outCap - 1)
      && out[..r] == DayText(data)[..r] && out[r] == NUL
  {
    if outCap > 0 {
      out[0] := NUL;
    }
    if outCap == 0 || |data| < DAY_BYTES {
      return -1;
    }
    var last := LastActive(data);
    var off: nat := 0;
    var p: nat := 0;
    var cut := false;
    assert Join(Texts(data, 0)) == [];
    while p <= last && !cut
      invariant p <= last + 1
      invariant Holds(out[..], off, outCap, Join(Texts(data, p)))
      invariant cut ==> off == outCap - 1
      decreases last + 1 - p
    {
      off, cut := AppendPair(data, p, out, off, outCap);
      p := p + 1;
    }
    JoinPrefix(data, p, last + 1);
    CutHolds(out[..], off, outCap, Join(Texts(data, p)), DayText(data));
    out[off] := NUL;
    r := off;
  }

  lemma CutHolds(out: seq<char>, off: nat, cap: nat, part: string, text: string)
    requires Holds(out, off, cap, part) && part <= text && (part == text || off == cap - 1)
    ensures Holds(out, off, cap, text)
  {
    assert text[..off] == part[..off];
  }
}
