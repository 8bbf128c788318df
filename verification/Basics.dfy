/** Shared value types: options, machine words, and facts about duplicate-free sequences. */
module Basics {
  datatype Option<+T> = None | Some(value: T)

  type u8 = x: int | 0 <= x < 0x100
  type u16 = x: int | 0 <= x < 0x1_0000
  type u32 = x: int | 0 <= x < 0x1_0000_0000

  /** Unsigned 32-bit arithmetic: the value modulo 2^32. */
  function Wrap32(x: int): u32 {
    x % 0x1_0000_0000
  }

  /** Reinterpretation of a 32-bit difference as a signed number. */
  function Signed32(x: int): int {
    var w := Wrap32(x);
    if w < 0x8000_0000 then w else w - 0x1_0000_0000
  }

  /** The one 32-bit value congruent to `x`. */
  lemma WrapIs(x: int, w: u32, k: int)
    requires x == w + 0x1_0000_0000 * k
    ensures Wrap32(x) == w
  {}

  /** Turns of the clock in `x`. */
  function Turns(x: int): (k: int)
    ensures x == Wrap32(x) + 0x1_0000_0000 * k
  {
    x / 0x1_0000_0000
  }

  /** The elements `p` accepts, in order. */
  function Filter<T>(s: seq<T>, p: T -> bool): seq<T> {
    if s == [] then [] else (if p(s[0]) then [s[0]] else []) + Filter(s[1..], p)
  }

  lemma {:induction false} FilterMembers<T>(s: seq<T>, p: T -> bool, x: T)
    ensures x in Filter(s, p) <==> x in s && p(x)
  {
    if s != [] {
      FilterMembers(s[1..], p, x);
      assert s == [s[0]] + s[1..];
    }
  }

  ghost predicate NoDup<T(!new)>(s: seq<T>) {
    forall i, j :: 0 <= i < j < |s| ==> s[i] != s[j]
  }

  /** The numbers below `n`. */
  ghost function Below(n: nat): (b: set<nat>)
    ensures |b| == n
    ensures forall x: nat :: x in b <==> x < n
  {
    if n == 0 then {} else Below(n - 1) + {n - 1}
  }

  /** The members of a duplicate-free sequence, as many as it is long. */
  ghost function Members(s: seq<nat>): (m: set<nat>)
    requires NoDup(s)
    ensures |m| == |s|
    ensures forall x :: x in m <==> x in s
  {
    if s == [] then {}
    else
      assert s == s[..|s| - 1] + [s[|s| - 1]];
      Members(s[..|s| - 1]) + {s[|s| - 1]}
  }

  lemma {:induction false} SubsetCardinality<T>(a: set<T>, b: set<T>)
    requires a <= b
    ensures |a| <= |b|
  {
    assert b == a + (b - a);
    assert |b| == |a| + |b - a|;
  }

  /** A duplicate-free sequence of numbers below `n` that misses one of them is shorter than `n`. */
  lemma MissingOneIsShorter(s: seq<nat>, n: nat, x: nat)
    requires NoDup(s) && x < n && x !in s
    requires forall e :: e in s ==> e < n
    ensures |s| < n
  {
    SubsetCardinality(Members(s), Below(n) - {x});
  }
}
