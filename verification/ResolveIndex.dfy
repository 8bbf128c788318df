/**
 The precomputed identification table and the finder that reads it: run-length-encoded
 answers over the software index, proved to give the direct resolver's answer.
 */
module ResolveIndex {
  import opened Basics
  import opened Identify

  const SOFTWARE_INDICES: nat := 256

  // --- runs over any list of pools ---------------------------------------------------------------

  datatype Candidate = Candidate(token: string, f0: Option<(int, int)>)

  /** Equal answers for software indices `lo`..`hi`; candidates only when F0 may decide. */
  datatype Run = Run(lo: nat, hi: nat, how: How, token: string, candidates: seq<Candidate>)

  function CandidateOf(r: Row): Candidate {
    Candidate(r.token, if r.f0.None? then None else Some((r.f0.value, if r.f0t.Some? then r.f0t.value else r.f0.value)))
  }

  function CandidatesOf(rows: seq<Row>): seq<Candidate> {
    seq(|rows|, i requires 0 <= i < |rows| => CandidateOf(rows[i]))
  }

  function RunOf(p: Pool, lo: nat, hi: nat): Run
    requires p.rows != []
  {
    Run(lo, hi, p.how, GenericOf(p.rows).token, if |p.rows| > 1 then CandidatesOf(p.rows) else [])
  }

  datatype Key = Key(how: How, tokens: seq<string>)

  function KeyOf(p: Pool): Key {
    Key(p.how, Tokens(p.rows))
  }

  predicate NonEmpty(pools: seq<Pool>) {
    forall i :: 0 <= i < |pools| ==> pools[i].rows != []
  }

  /** The runs of a list of pools: a new one wherever the key changes. */
  function Runs(pools: seq<Pool>): (runs: seq<Run>)
    requires NonEmpty(pools)
    ensures pools != [] ==> runs != []
    decreases |pools|
  {
    if pools == [] then []
    else
      var k := |pools| - 1;
      var before := Runs(pools[..k]);
      if k > 0 && KeyOf(pools[k]) == KeyOf(pools[k - 1]) then before[|before| - 1 := before[|before| - 1].(hi := k)]
      else before + [RunOf(pools[k], k, k)]
  }

  predicate Covers(r: Run, sw: int) {
    r.lo <= sw <= r.hi
  }

  /** A run that starts inside the list and gives, from `lo` to `hi`, the answer of every pool there. */
  ghost predicate Faithful(r: Run, pools: seq<Pool>) {
    && r.lo <= r.hi < |pools|
    && pools[r.lo].rows != [] && r == RunOf(pools[r.lo], r.lo, r.hi)
    && forall sw :: r.lo <= sw <= r.hi ==> KeyOf(pools[sw]) == KeyOf(pools[r.lo])
  }

  /** `b` starts where `a` ends, with another answer. */
  ghost predicate Follows(a: Run, b: Run, pools: seq<Pool>) {
    b.lo == a.hi + 1 < |pools| && KeyOf(pools[b.lo]) != KeyOf(pools[a.hi])
  }

  /** The runs tile 0..|pools|-1 in order, each is constant, and neighbours differ. */
  ghost predicate Tiles(runs: seq<Run>, pools: seq<Pool>) {
    && (forall i :: 0 <= i < |runs| ==> Faithful(runs[i], pools))
    && (pools == [] <==> runs == [])
    && (runs != [] ==> runs[0].lo == 0 && runs[|runs| - 1].hi == |pools| - 1)
    && (forall i :: 0 < i < |runs| ==> Follows(runs[i - 1], runs[i], pools))
  }

  lemma FaithfulGrows(r: Run, pools: seq<Pool>, k: nat)
    requires k <= |pools| && Faithful(r, pools[..k])
    ensures Faithful(r, pools)
  {
    assert forall sw :: 0 <= sw < k ==> pools[..k][sw] == pools[sw];
  }

  lemma {:induction false} RunsTile(pools: seq<Pool>)
    requires NonEmpty(pools)
    ensures Tiles(Runs(pools), pools)
    decreases |pools|
  {
    if pools != [] {
      var k := |pools| - 1;
      RunsTile(pools[..k]);
      OneMorePool(pools, Runs(pools[..k]));
    }
  }

  lemma FollowsGrows(a: Run, b: Run, pools: seq<Pool>, k: nat)
    requires k <= |pools| && Follows(a, b, pools[..k])
    ensures Follows(a, b, pools)
  {}

  lemma AllGrow(pools: seq<Pool>, before: seq<Run>)
    requires pools != [] && Tiles(before, pools[..|pools| - 1])
    ensures forall i :: 0 <= i < |before| ==> Faithful(before[i], pools)
    ensures forall i :: 0 < i < |before| ==> Follows(before[i - 1], before[i], pools)
  {
    forall i | 0 <= i < |before|
      ensures Faithful(before[i], pools)
    {
      FaithfulGrows(before[i], pools, |pools| - 1);
    }
    forall i | 0 < i < |before|
      ensures Follows(before[i - 1], before[i], pools)
    {
      FollowsGrows(before[i - 1], before[i], pools, |pools| - 1);
    }
  }

  /** The last run takes one more index whose key is its own. */
  lemma LongerRun(r: Run, pools: seq<Pool>, k: nat)
    requires Faithful(r, pools) && r.hi == k - 1 && k < |pools| && KeyOf(pools[k]) == KeyOf(pools[k - 1])
    ensures Faithful(r.(hi := k), pools)
  {}

  lemma StillFollows(a: Run, b: Run, pools: seq<Pool>, k: nat)
    requires Follows(a, b, pools)
    ensures Follows(a, b.(hi := k), pools)
  {}

  lemma LastLonger(pools: seq<Pool>, before: seq<Run>, k: nat)
    requires before != [] && (forall i :: 0 < i < |before| ==> Follows(before[i - 1], before[i], pools))
    ensures var after := before[|before| - 1 := before[|before| - 1].(hi := k)];
            forall i :: 0 < i < |after| ==> Follows(after[i - 1], after[i], pools)
  {
    var n := |before| - 1;
    var after := before[n := before[n].(hi := k)];
    forall i | 0 < i < |after|
      ensures Follows(after[i - 1], after[i], pools)
    {
      assert Follows(before[i - 1], before[i], pools);
      if i == n { StillFollows(before[i - 1], before[i], pools, k); }
    }
  }

  lemma Joins(pools: seq<Pool>, before: seq<Run>)
    requires |pools| > 1 && NonEmpty(pools) && Tiles(before, pools[..|pools| - 1])
    requires KeyOf(pools[|pools| - 1]) == KeyOf(pools[|pools| - 2])
    ensures before != [] && Tiles(before[|before| - 1 := before[|before| - 1].(hi := |pools| - 1)], pools)
  {
    AllGrow(pools, before);
    LongerRun(before[|before| - 1], pools, |pools| - 1);
    LastLonger(pools, before, |pools| - 1);
  }

  lemma NewRun(pools: seq<Pool>, k: nat)
    requires k < |pools| && NonEmpty(pools)
    ensures Faithful(RunOf(pools[k], k, k), pools)
  {}

  lemma Starts(pools: seq<Pool>, before: seq<Run>)
    requires pools != [] && NonEmpty(pools) && Tiles(before, pools[..|pools| - 1])
    requires |pools| > 1 ==> KeyOf(pools[|pools| - 1]) != KeyOf(pools[|pools| - 2])
    ensures Tiles(before + [RunOf(pools[|pools| - 1], |pools| - 1, |pools| - 1)], pools)
  {
    AllGrow(pools, before);
    NewRun(pools, |pools| - 1);
  }

  lemma OneMorePool(pools: seq<Pool>, before: seq<Run>)
    requires pools != [] && NonEmpty(pools) && Tiles(before, pools[..|pools| - 1])
    ensures var k := |pools| - 1;
            && (k > 0 ==> before != [])
            && Tiles(if k > 0 && KeyOf(pools[k]) == KeyOf(pools[k - 1])
                     then before[|before| - 1 := before[|before| - 1].(hi := k)]
                     else before + [RunOf(pools[k], k, k)], pools)
  {
    var k := |pools| - 1;
    if k > 0 && KeyOf(pools[k]) == KeyOf(pools[k - 1]) {
      Joins(pools, before);
    } else {
      Starts(pools, before);
    }
  }

  /** Every index has exactly one run. */
  lemma {:induction false} ExactlyOneRun(runs: seq<Run>, pools: seq<Pool>, sw: nat)
    requires Tiles(runs, pools) && sw < |pools|
    ensures exists i :: 0 <= i < |runs| && Covers(runs[i], sw)
    ensures forall i, j :: 0 <= i < j < |runs| ==> !(Covers(runs[i], sw) && Covers(runs[j], sw))
  {
    var i := 0;
    while i + 1 < |runs| && runs[i].hi < sw
      invariant 0 <= i < |runs| && runs[i].lo <= sw
      decreases |runs| - i
    {
      assert Follows(runs[i], runs[i + 1], pools);
      i := i + 1;
    }
    assert Covers(runs[i], sw);
    RunsInOrder(runs, pools);
  }

  lemma RunsInOrder(runs: seq<Run>, pools: seq<Pool>)
    requires Tiles(runs, pools)
    ensures forall i, j :: 0 <= i < j < |runs| ==> runs[i].hi < runs[j].lo
  {
    forall i, j | 0 <= i < j < |runs|
      ensures runs[i].hi < runs[j].lo
    {
      LaterRun(runs, pools, i, j);
    }
  }

  lemma {:induction false} LaterRun(runs: seq<Run>, pools: seq<Pool>, i: nat, j: nat)
    requires Tiles(runs, pools) && i < j < |runs|
    ensures runs[i].hi < runs[j].lo
    decreases j
  {
    assert Follows(runs[j - 1], runs[j], pools);
    if i < j - 1 {
      LaterRun(runs, pools, i, j - 1);
      assert Faithful(runs[j - 1], pools);
    }
  }

  function FindRun(runs: seq<Run>, sw: int): (r: Option<Run>)
    ensures r.Some? ==> r.value in runs && Covers(r.value, sw)
    ensures r.None? ==> forall i :: 0 <= i < |runs| ==> !Covers(runs[i], sw)
  {
    if runs == [] then None
    else if Covers(runs[0], sw) then Some(runs[0])
    else
      assert runs == [runs[0]] + runs[1..];
      FindRun(runs[1..], sw)
  }

  // --- what a run answers -----------------------------------------------------------------------------

  datatype F0State = NotAsked | Missing | NoMatch | Matched

  datatype Picked = Picked(token: string, state: F0State, value: Option<int>)

  predicate CandidateHolds(c: Candidate, n: int) {
    c.f0.Some? && c.f0.value.0 <= n <= c.f0.value.1
  }

  /** The token of the first candidate whose F0 range holds `n`. */
  function FirstHit(cs: seq<Candidate>, n: int): Option<string> {
    if cs == [] then None else if CandidateHolds(cs[0], n) then Some(cs[0].token) else FirstHit(cs[1..], n)
  }

  function PickFromRun(r: Run, f0: F0Input): Picked {
    if forall c :: c in r.candidates ==> c.f0.None? then Picked(r.token, NotAsked, None)
    else
      var n := F0Value(f0);
      if n.None? then Picked(r.token, Missing, None)
      else match FirstHit(r.candidates, n.value)
        case None => Picked(r.token, NoMatch, n)
        case Some(token) => Picked(token, Matched, n)
  }

  lemma {:induction false} FirstHitIsFirstMatch(rows: seq<Row>, n: int)
    ensures var m := Filter(Filter(rows, (r: Row) => F0Aware(r)), (r: Row) => F0Holds(r, n));
            FirstHit(CandidatesOf(rows), n) == if m == [] then None else Some(m[0].token)
  {
    if rows != [] {
      FirstHitIsFirstMatch(rows[1..], n);
      assert CandidatesOf(rows)[1..] == CandidatesOf(rows[1..]);
      var aware := (r: Row) => F0Aware(r);
      var holds := (r: Row) => F0Holds(r, n);
      var rest := Filter(rows[1..], aware);
      if F0Aware(rows[0]) {
        assert Filter(rows, aware) == [rows[0]] + rest;
        assert ([rows[0]] + rest)[1..] == rest;
      } else {
        assert Filter(rows, aware) == rest;
      }
    }
  }

  lemma AwareCandidates(rows: seq<Row>)
    ensures (Filter(rows, (r: Row) => F0Aware(r)) == []) <==> (forall c :: c in CandidatesOf(rows) ==> c.f0.None?)
    ensures (Filter(rows, (r: Row) => F0Aware(r)) == []) <==> !(exists r :: r in rows && F0Aware(r))
  {
    var aware := Filter(rows, (r: Row) => F0Aware(r));
    forall r: Row
      ensures r in aware <==> r in rows && F0Aware(r)
    {
      FilterMembers(rows, (x: Row) => F0Aware(x), r);
    }
    if aware == [] {
      forall c | c in CandidatesOf(rows)
        ensures c.f0.None?
      {
        var i :| 0 <= i < |rows| && CandidatesOf(rows)[i] == c;
        assert rows[i] !in aware;
      }
    } else {
      assert aware[0] in aware && aware[0] in rows;
      var i :| 0 <= i < |rows| && rows[i] == aware[0];
      assert CandidatesOf(rows)[i] == CandidateOf(aware[0]);
    }
  }

  /** A run picks the token the resolver picks from the pool the run was made of. */
  lemma RunPicksLikePool(p: Pool, lo: nat, hi: nat, f0: F0Input)
    requires p.rows != []
    ensures PickFromRun(RunOf(p, lo, hi), f0).token == PickByF0(p.rows, f0).token
  {
    AwareCandidates(p.rows);
    if |p.rows| > 1 {
      if F0Value(f0).Some? {
        FirstHitIsFirstMatch(p.rows, F0Value(f0).value);
      }
    } else {
      OnlyRow(p.rows, f0);
    }
  }

  /**
   What the finder says about F0: not asked where no row of the pool has a range, missing
   where it was given none or nothing usable, matched where some row's range holds it, and no
   match otherwise.
   */
  lemma StateOfF0(p: Pool, lo: nat, hi: nat, f0: F0Input)
    requires |p.rows| > 1
    ensures var state, given := PickFromRun(RunOf(p, lo, hi), f0).state, exists n :: StandsFor(f0, n);
            if forall r :: r in p.rows ==> r.f0.None? then state == NotAsked
            else if !given then state == Missing
            else if exists n, r :: StandsFor(f0, n) && r in p.rows && HoldsF0(r, n) then state == Matched
            else state == NoMatch
  {
    AwareCandidates(p.rows);
    assert (exists r :: r in p.rows && F0Aware(r)) <==> !(forall r :: r in p.rows ==> r.f0.None?);
    forall n
      ensures F0Value(f0) == Some(n) <==> StandsFor(f0, n)
    {
      F0Reads(f0, n);
    }
    if F0Value(f0).Some? {
      var n := F0Value(f0).value;
      FirstHitIsFirstMatch(p.rows, n);
      if Filter(Filter(p.rows, (r: Row) => F0Aware(r)), (r: Row) => F0Holds(r, n)) != [] {
        var i := FirstHeld(p.rows, n);
        assert p.rows[i] in p.rows;
      } else {
        NoneHeld(p.rows, n);
      }
    }
  }

  lemma OnlyRow(rows: seq<Row>, f0: F0Input)
    requires |rows| == 1
    ensures PickByF0(rows, f0) == rows[0] && GenericOf(rows) == rows[0]
  {
    var aware := Filter(rows, (r: Row) => F0Aware(r));
    if aware != [] && F0Value(f0).Some? {
      var m := Filter(aware, (r: Row) => F0Holds(r, F0Value(f0).value));
      if m != [] {
        FilterMembers(aware, (r: Row) => F0Holds(r, F0Value(f0).value), m[0]);
        FilterMembers(rows, (r: Row) => F0Aware(r), m[0]);
      }
    }
  }

  // --- unique tokens -------------------------------------------------------------------------------------

  ghost predicate UniqueTokens(rows: seq<Row>) {
    forall i, j :: 0 <= i < j < |rows| ==> rows[i].token != rows[j].token
  }

  lemma SameTokensSameRows(rows: seq<Row>, p: seq<Row>, q: seq<Row>)
    requires UniqueTokens(rows) && Tokens(p) == Tokens(q)
    requires (forall r :: r in p ==> r in rows) && (forall r :: r in q ==> r in rows)
    ensures p == q
  {
    assert |p| == |Tokens(p)| == |Tokens(q)| == |q|;
    forall k | 0 <= k < |p|
      ensures p[k] == q[k]
    {
      assert Tokens(p)[k] == Tokens(q)[k];
      assert p[k] in p && q[k] in q;
      var i :| 0 <= i < |rows| && rows[i] == p[k];
      var j :| 0 <= j < |rows| && rows[j] == q[k];
      assert i == j;
    }
  }
}
