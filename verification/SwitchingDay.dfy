/**
 A whole day of switch points as text and as eight bytes: what the encoder accepts, what
 the decoder shows, and that the two undo each other.
 */
module SwitchingDay {
  import opened Basics
  import opened Schaltzeiten

  const DAY_BYTES: nat := 8
  const DAY_PAIRS: nat := 4
  const MAX_DAY_TEXT: nat := 47

  // --- words ------------------------------------------------------------------------------

  predicate Word(s: string) {
    s != [] && ' ' !in s
  }

  function WordLen(s: string): (n: nat)
    ensures n <= |s| && (forall i :: 0 <= i < n ==> s[i] != ' ') && (n < |s| ==> s[n] == ' ')
  {
    if s == [] || s[0] == ' ' then 0
    else
      var n := WordLen(s[1..]);
      assert forall i :: 1 <= i < n + 1 ==> s[i] == s[1..][i - 1];
      n + 1
  }

  /** The words between the spaces. */
  function Tokens(s: string): (t: seq<string>)
    ensures forall i :: 0 <= i < |t| ==> Word(t[i])
    decreases |s|
  {
    if s == [] then []
    else if s[0] == ' ' then Tokens(s[1..])
    else [s[..WordLen(s)]] + Tokens(s[WordLen(s)..])
  }

  function Join(words: seq<string>): string {
    if words == [] then []
    else if |words| == 1 then words[0]
    else Join(words[..|words| - 1]) + " " + words[|words| - 1]
  }

  lemma WordLenIs(s: string, n: nat)
    requires n <= |s| && (forall i :: 0 <= i < n ==> s[i] != ' ') && (n < |s| ==> s[n] == ' ')
    ensures WordLen(s) == n
  {}

  lemma WordLenPrefix(a: string, rest: string)
    requires rest != [] ==> rest[0] == ' '
    ensures WordLen(a + rest) == WordLen(a)
  {
    assert forall i :: 0 <= i < |a| ==> (a + rest)[i] == a[i];
    WordLenIs(a + rest, WordLen(a));
  }

  lemma OneWord(w: string)
    requires Word(w)
    ensures Tokens(w) == [w]
  {
    WordLenIs(w, |w|);
    assert w[|w|..] == [] && w[..|w|] == w;
  }

  lemma {:induction false} OneMoreWord(a: string, w: string)
    requires Word(w)
    ensures Tokens(a + " " + w) == Tokens(a) + [w]
    decreases |a|
  {
    var tail := " " + w;
    assert a + " " + w == a + tail;
    if a == [] {
      assert a + tail == tail && tail[1..] == w;
      OneWord(w);
    } else if a[0] == ' ' {
      assert (a + tail)[1..] == a[1..] + " " + w;
      OneMoreWord(a[1..], w);
    } else {
      var n := WordLen(a);
      WordLenPrefix(a, tail);
      assert (a + tail)[..n] == a[..n] && (a + tail)[n..] == a[n..] + " " + w;
      OneMoreWord(a[n..], w);
    }
  }

  /** Joined words come apart again. */
  lemma {:induction false} JoinedComesApart(words: seq<string>)
    requires forall i :: 0 <= i < |words| ==> Word(words[i])
    ensures Tokens(Join(words)) == words
    decreases |words|
  {
    if |words| == 1 {
      OneWord(words[0]);
    } else if |words| > 1 {
      var k := |words| - 1;
      JoinedComesApart(words[..k]);
      OneMoreWord(Join(words[..k]), words[k]);
      assert words == words[..k] + [words[k]];
    }
  }

  lemma {:induction false} JoinedLength(words: seq<string>, w: nat)
    requires forall i :: 0 <= i < |words| ==> |words[i]| <= w
    ensures |Join(words)| + 1 <= |words| * (w + 1) + (if words == [] then 1 else 0)
    decreases |words|
  {
    if |words| > 1 {
      JoinedLength(words[..|words| - 1], w);
      assert |words| * (w + 1) == (|words| - 1) * (w + 1) + (w + 1);
    }
  }

  // --- the day as bytes and as text ------------------------------------------------------------

  function PairAt(d: seq<u8>, i: nat): Pair
    requires 2 * i + 1 < |d|
  {
    Pair(d[2 * i], d[2 * i + 1])
  }

  predicate AllParse(tokens: seq<string>) {
    forall i :: 0 <= i < |tokens| ==> ParsePair(tokens[i]).Some?
  }

  function PairOf(tokens: seq<string>, i: nat): Pair
    requires AllParse(tokens)
  {
    if i < |tokens| then ParsePair(tokens[i]).value else NO_PAIR
  }

  function Layout(pairs: seq<Pair>): (d: seq<u8>)
    requires |pairs| == DAY_PAIRS
    ensures |d| == DAY_BYTES
    ensures forall i :: 0 <= i < DAY_PAIRS ==> PairAt(d, i) == pairs[i]
  {
    [pairs[0].on, pairs[0].off, pairs[1].on, pairs[1].off, pairs[2].on, pairs[2].off, pairs[3].on, pairs[3].off]
  }

  function Bytes(tokens: seq<string>): (d: seq<u8>)
    requires AllParse(tokens)
    ensures |d| == DAY_BYTES
    ensures forall i :: 0 <= i < DAY_PAIRS ==> PairAt(d, i) == PairOf(tokens, i)
  {
    var pairs := seq(DAY_PAIRS, i requires 0 <= i < DAY_PAIRS => PairOf(tokens, i));
    var d := Layout(pairs);
    assert forall i :: 0 <= i < DAY_PAIRS ==> pairs[i] == PairOf(tokens, i);
    d
  }

  /** The program a text stands for: up to four words, each one pair; what is not written is disabled. */
  function EncodeDay(s: string): Option<seq<u8>> {
    var t := Tokens(s);
    if |t| <= DAY_PAIRS && AllParse(t) then Some(Bytes(t)) else None
  }

  /** Pairs shown: all up to the last active one. */
  function Shown(d: seq<u8>): (n: nat)
    requires |d| >= DAY_BYTES
    ensures n <= DAY_PAIRS && (n > 0 ==> Active(PairAt(d, n - 1).on))
    ensures forall i :: n <= i < DAY_PAIRS ==> !Active(PairAt(d, i).on)
  {
    if Active(d[6]) then 4 else if Active(d[4]) then 3 else if Active(d[2]) then 2 else if Active(d[0]) then 1 else 0
  }

  function Texts(d: seq<u8>, n: nat): (t: seq<string>)
    requires |d| >= DAY_BYTES && n <= DAY_PAIRS
    ensures |t| == n
  {
    seq(n, i requires 0 <= i < n => PairText(PairAt(d, i)))
  }

  function DayText(d: seq<u8>): string
    requires |d| >= DAY_BYTES
  {
    Join(Texts(d, Shown(d)))
  }

  /** Every slot is empty or a forward interval of times on the ten-minute grid, 24:00 only as its end. */
  predicate WellFormed(d: seq<u8>) {
    |d| == DAY_BYTES && forall i :: 0 <= i < DAY_PAIRS ==> PairValid(PairAt(d, i))
  }

  lemma PairTextIsWord(p: Pair)
    ensures Word(PairText(p))
  {
    if Active(p.on) {
      var a, b := TimeText(p.on), TimeText(p.off);
      TimeTextHasNoSpace(p.on);
      TimeTextHasNoSpace(p.off);
      assert PairText(p) == a + "-" + b;
    }
  }

  lemma TimeTextHasNoSpace(b: u8)
    ensures ' ' !in TimeText(b)
  {
    var s, t := TwoDigits(b / 8), TwoDigits(b % 8 * 10);
    assert !IsDigit(' ');
    assert TimeText(b) == [s[0], s[1], ':', t[0], t[1]];
  }

  /** Whatever the device sends fits the 47 characters the callers reserve. */
  lemma DayTextFits(d: seq<u8>)
    requires |d| >= DAY_BYTES
    ensures |DayText(d)| <= MAX_DAY_TEXT
  {
    JoinedLength(Texts(d, Shown(d)), 11);
  }

  lemma AcceptedIsWellFormed(s: string)
    requires EncodeDay(s).Some?
    ensures WellFormed(EncodeDay(s).value)
  {
    var t := Tokens(s);
    forall i | 0 <= i < DAY_PAIRS
      ensures PairValid(PairAt(Bytes(t), i))
    {
      assert PairAt(Bytes(t), i) == PairOf(t, i);
      if i < |t| { ParsedIsValid(t[i]); }
    }
  }

  lemma SamePairsSameBytes(d: seq<u8>, e: seq<u8>)
    requires |d| == |e| == DAY_BYTES && forall i :: 0 <= i < DAY_PAIRS ==> PairAt(d, i) == PairAt(e, i)
    ensures d == e
  {
    assert PairAt(d, 0) == PairAt(e, 0) && PairAt(d, 1) == PairAt(e, 1);
    assert PairAt(d, 2) == PairAt(e, 2) && PairAt(d, 3) == PairAt(e, 3);
  }

  lemma TextReadsBack(d: seq<u8>)
    requires WellFormed(d)
    ensures EncodeDay(DayText(d)) == Some(d)
  {
    var n := Shown(d);
    var t := Texts(d, n);
    forall i | 0 <= i < n
      ensures Word(t[i]) && ParsePair(t[i]) == Some(PairAt(d, i))
    {
      PairTextIsWord(PairAt(d, i));
      assert PairValid(PairAt(d, i));
      PairTextRead(PairAt(d, i));
    }
    JoinedComesApart(t);
    forall i | 0 <= i < DAY_PAIRS
      ensures PairAt(Bytes(t), i) == PairAt(d, i)
    {
      assert PairAt(Bytes(t), i) == PairOf(t, i);
      assert PairValid(PairAt(d, i));
    }
    SamePairsSameBytes(Bytes(t), d);
  }

  /**
   The round trip. A text is accepted only for a well-formed program; that program's own
   text is at most 47 characters, is accepted, and encodes to the same eight bytes.
   */
  lemma CanonicalRoundTrip(s: string)
    requires EncodeDay(s).Some?
    ensures var d := EncodeDay(s).value;
            WellFormed(d) && |DayText(d)| <= MAX_DAY_TEXT && EncodeDay(DayText(d)) == Some(d)
  {
    AcceptedIsWellFormed(s);
    DayTextFits(EncodeDay(s).value);
    TextReadsBack(EncodeDay(s).value);
  }

  /** The programs that survive being shown and typed back are exactly the well-formed ones. */
  lemma RoundTripsExactly(d: seq<u8>)
    requires |d| == DAY_BYTES
    ensures EncodeDay(DayText(d)) == Some(d) <==> WellFormed(d)
  {
    if WellFormed(d) {
      TextReadsBack(d);
    } else if EncodeDay(DayText(d)) == Some(d) {
      AcceptedIsWellFormed(DayText(d));
    }
  }

  /** A text stands for a program exactly when it has at most four words and each means its pair; the rest is empty. */
  lemma EncodesExactlyMeaning(s: string, d: seq<u8>)
    requires |d| == DAY_BYTES
    ensures EncodeDay(s) == Some(d) <==>
            && |Tokens(s)| <= DAY_PAIRS
            && (forall i :: 0 <= i < |Tokens(s)| ==> Means(Tokens(s)[i], PairAt(d, i)))
            && (forall i :: |Tokens(s)| <= i < DAY_PAIRS ==> PairAt(d, i) == NO_PAIR)
  {
    var t := Tokens(s);
    if |t| <= DAY_PAIRS {
      forall i | 0 <= i < |t|
        ensures ParsePair(t[i]) == Some(PairAt(d, i)) <==> Means(t[i], PairAt(d, i))
      {
        ParsesExactlyMeaning(t[i], PairAt(d, i));
      }
      if AllParse(t) {
        EncodesPairwise(t, d);
      }
    }
  }

  lemma EncodesPairwise(t: seq<string>, d: seq<u8>)
    requires |d| == DAY_BYTES && |t| <= DAY_PAIRS && AllParse(t)
    ensures Bytes(t) == d <==>
            && (forall i :: 0 <= i < |t| ==> ParsePair(t[i]) == Some(PairAt(d, i)))
            && (forall i :: |t| <= i < DAY_PAIRS ==> PairAt(d, i) == NO_PAIR)
  {
    assert forall i :: 0 <= i < DAY_PAIRS ==> PairAt(Bytes(t), i) == PairOf(t, i);
    if forall i :: 0 <= i < DAY_PAIRS ==> PairOf(t, i) == PairAt(d, i) {
      SamePairsSameBytes(Bytes(t), d);
    }
  }
}
