/** Building the identification table, and looking a device up in it. */
module Finder {
  import opened Basics
  import opened Identify
  import opened ResolveIndex

  // --- the table ----------------------------------------------------------------------------------

  datatype Entry =
    | FamilyEntry(tokens: seq<string>)
    | Table(byHw: map<int, seq<Run>>, any: seq<Run>, unranged: seq<string>)

  type Index = map<int, Entry>

  function Ids(rows: seq<Row>): set<int> {
    set r | r in rows && r.ident.Some? :: r.ident.value
  }

  function Highs(ranged: seq<Row>): set<int> {
    set r | r in ranged && Ranged(r) :: High(r)
  }

  /** The pool for every software index. */
  function Pools(rows: seq<Row>, id: int, hw: Option<int>): (pools: seq<Pool>)
    requires Family(rows, id) != []
    ensures |pools| == SOFTWARE_INDICES && NonEmpty(pools)
  {
    seq(SOFTWARE_INDICES, sw requires 0 <= sw < SOFTWARE_INDICES => ResolvePool(rows, id, hw, sw).value)
  }

  function Unranged(fam: seq<Row>): seq<string> {
    Tokens(Filter(fam, (r: Row) => !Ranged(r)))
  }

  lemma IdsHaveFamilies(rows: seq<Row>, id: int)
    ensures id in Ids(rows) <==> Family(rows, id) != []
  {
    if id in Ids(rows) {
      var r :| r in rows && r.ident == Some(id);
      FamilyMembers(rows, id, r);
    }
    if Family(rows, id) != [] {
      var r := Family(rows, id)[0];
      FamilyMembers(rows, id, r);
      assert r in rows && r.ident.Some?;
    }
  }

  ghost predicate RunsOf(runs: seq<Run>, rows: seq<Row>, id: int, hw: Option<int>) {
    Family(rows, id) != [] && runs == Runs(Pools(rows, id, hw))
  }

  ghost predicate AllRunsOf(byHw: map<int, seq<Run>>, rows: seq<Row>, id: int) {
    forall hw :: hw in byHw ==> RunsOf(byHw[hw], rows, id, Some(hw))
  }

  /**
   A family without ranges is listed whole; any other has the runs of every hardware byte it
   knows, those for the rest, and the members that have no range.
   */
  ghost predicate Describes(entry: Entry, rows: seq<Row>, id: int) {
    var fam := Family(rows, id);
    var ranged := RangedOf(fam);
    && fam != []
    && match entry
       case FamilyEntry(tokens) => ranged == [] && tokens == Tokens(fam)
       case Table(byHw, any, unranged) =>
         && ranged != [] && byHw.Keys == Highs(ranged) && AllRunsOf(byHw, rows, id)
         && RunsOf(any, rows, id, None) && unranged == Unranged(fam)
  }

  /** The table has exactly the catalogue's device ids, each with its entry. */
  ghost predicate IsIndexOf(index: Index, rows: seq<Row>) {
    index.Keys == Ids(rows) && forall id :: id in index ==> Describes(index[id], rows, id)
  }

  // --- building it ----------------------------------------------------------------------------------------

  lemma RunsStep(pools: seq<Pool>, k: nat)
    requires k < |pools| && NonEmpty(pools)
    ensures NonEmpty(pools[..k]) && NonEmpty(pools[..k + 1])
    ensures k > 0 ==> Runs(pools[..k]) != []
    ensures Runs(pools[..k + 1]) ==
            var before := Runs(pools[..k]);
            if k > 0 && KeyOf(pools[k]) == KeyOf(pools[k - 1])
            then before[|before| - 1 := before[|before| - 1].(hi := k)]
            else before + [RunOf(pools[k], k, k)]
  {
    assert pools[..k + 1][..k] == pools[..k];
  }

  method ResolveRuns(rows: seq<Row>, id: int, hw: Option<int>) returns (runs: seq<Run>)
    requires Family(rows, id) != []
    ensures RunsOf(runs, rows, id, hw)
  {
    ghost var pools := Pools(rows, id, hw);
    runs := [];
    var prevKey: Option<Key> := None;
    for sw := 0 to SOFTWARE_INDICES
      invariant NonEmpty(pools[..sw]) && runs == Runs(pools[..sw])
      invariant prevKey == if sw == 0 then None else Some(KeyOf(pools[sw - 1]))
    {
      var pool := ResolvePool(rows, id, hw, sw).value;
      assert pool == pools[sw];
      RunsStep(pools, sw);
      var key := KeyOf(pool);
      if Some(key) == prevKey {
        runs := runs[|runs| - 1 := runs[|runs| - 1].(hi := sw)];
      } else {
        prevKey := Some(key);
        runs := runs + [RunOf(pool, sw, sw)];
      }
    }
    assert pools[..SOFTWARE_INDICES] == pools;
  }

  lemma TakenOne<K, V>(m: map<K, V>, all: set<K>, left: set<K>, k: K, v: V)
    requires left <= all && m.Keys == all - left && k in left
    ensures m[k := v].Keys == all - (left - {k})
  {}

  method Pick<T>(s: set<T>) returns (x: T)
    requires s != {}
    ensures x in s
  {
    x :| x in s;
  }

  method BuildByHardware(rows: seq<Row>, id: int, highs: set<int>) returns (byHw: map<int, seq<Run>>)
    requires Family(rows, id) != []
    ensures byHw.Keys == highs && AllRunsOf(byHw, rows, id)
  {
    var left := highs;
    byHw := map[];
    while left != {}
      invariant left <= highs && byHw.Keys == highs - left
      invariant AllRunsOf(byHw, rows, id)
      decreases |left|
    {
      var hw := Pick(left);
      var runs := ResolveRuns(rows, id, Some(hw));
      TakenOne(byHw, highs, left, hw, runs);
      byHw, left := byHw[hw := runs], left - {hw};
    }
  }

  method BuildEntry(rows: seq<Row>, id: int) returns (entry: Entry)
    requires Family(rows, id) != []
    ensures Describes(entry, rows, id)
  {
    var fam := Family(rows, id);
    var ranged := RangedOf(fam);
    if ranged == [] {
      return FamilyEntry(Tokens(fam));
    }
    var byHw := BuildByHardware(rows, id, Highs(ranged));
    var any := ResolveRuns(rows, id, None);
    return Table(byHw, any, Unranged(fam));
  }

  method BuildIndex(rows: seq<Row>) returns (index: Index)
    ensures IsIndexOf(index, rows)
  {
    index := map[];
    var all := Ids(rows);
    var left := all;
    while left != {}
      invariant left <= all && index.Keys == all - left
      invariant forall id :: id in index ==> Describes(index[id], rows, id)
      decreases |left|
    {
      var id := Pick(left);
      IdsHaveFamilies(rows, id);
      var entry := BuildEntry(rows, id);
      TakenOne(index, all, left, id, entry);
      index, left := index[id := entry], left - {id};
    }
  }

  // --- the finder ------------------------------------------------------------------------------------------

  /** `NoRun` stands for a table whose runs miss the software index, which no built table does. */
  datatype Found =
    | UnknownId
    | NoRun
    | FamilyTokens(tokens: seq<string>)
    | NeedSoftware(possible: set<string>)
    | Match(how: How, lo: nat, hi: nat, hwIgnored: bool, picked: Picked,
            candidates: seq<Candidate>, unranged: seq<string>)

  function RunTokens(r: Run): set<string> {
    if r.candidates == [] then {r.token} else set c | c in r.candidates :: c.token
  }

  function Possible(runs: seq<Run>): set<string> {
    if runs == [] then {} else RunTokens(runs[0]) + Possible(runs[1..])
  }

  function RunsFor(entry: Entry, hw: Option<int>): seq<Run>
    requires entry.Table?
  {
    if hw.Some? && hw.value in entry.byHw then entry.byHw[hw.value] else entry.any
  }

  /** The lookup. */
  function Lookup(index: Index, id: Option<int>, hw: Option<int>, sw: Option<u8>, f0: F0Input): Found {
    if id.None? || id.value !in index then UnknownId
    else match index[id.value]
      case FamilyEntry(tokens) => FamilyTokens(tokens)
      case Table(byHw, any, unranged) =>
        var runs := RunsFor(index[id.value], hw);
        if sw.None? then NeedSoftware(Possible(runs))
        else match FindRun(runs, sw.value)
          case None => NoRun
          case Some(r) =>
            Match(r.how, r.lo, r.hi, hw.Some? && hw.value !in byHw, PickFromRun(r, f0), r.candidates, unranged)
  }

  /** The resolver's answer, as the finder presents it. */
  function AnswerOf(f: Found): Option<Answer> {
    match f
    case UnknownId => Some(Unknown)
    case FamilyTokens(tokens) => Some(if |tokens| == 1 then Token(tokens[0]) else Ambiguous(tokens))
    case NeedSoftware(_) => None
    case NoRun => None
    case Match(_, _, _, _, picked, _, _) => Some(Token(picked.token))
  }

  lemma CataloguedIsKey(ranged: seq<Row>, hw: int)
    ensures hw in Highs(ranged) <==> Catalogued(ranged, Some(hw))
  {
    if Catalogued(ranged, Some(hw)) {
      var r :| r in ranged && OfGeneration(r, hw);
      assert r in ranged && Ranged(r) && High(r) == hw;
    }
    if hw in Highs(ranged) {
      var r :| r in ranged && Ranged(r) && High(r) == hw;
      assert OfGeneration(r, hw);
    }
  }

  lemma IgnoredPools(rows: seq<Row>, id: int, hw: Option<int>)
    requires Family(rows, id) != [] && !Catalogued(RangedOf(Family(rows, id)), hw)
    ensures Pools(rows, id, hw) == Pools(rows, id, None)
  {
    forall sw: nat | sw < SOFTWARE_INDICES
      ensures Pools(rows, id, hw)[sw] == Pools(rows, id, None)[sw]
    {
      UncataloguedIsIgnored(rows, id, hw, sw);
    }
  }

  /** The runs read for a hardware byte are those of the pools the resolver forms for it. */
  lemma RunsOfHardware(entry: Entry, rows: seq<Row>, id: int, hw: Option<int>)
    requires Describes(entry, rows, id) && entry.Table?
    ensures RunsOf(RunsFor(entry, hw), rows, id, hw)
    ensures hw.Some? ==> (hw.value in entry.byHw <==> Catalogued(RangedOf(Family(rows, id)), hw))
  {
    var ranged := RangedOf(Family(rows, id));
    if hw.Some? { CataloguedIsKey(ranged, hw.value); }
    if !Catalogued(ranged, hw) {
      IgnoredPools(rows, id, hw);
    }
  }

  lemma RowsOfPools(rows: seq<Row>, id: int, hw: Option<int>, sw: nat)
    requires Family(rows, id) != [] && sw < SOFTWARE_INDICES
    ensures forall r :: r in Pools(rows, id, hw)[sw].rows ==> r in rows
  {
    PoolOfFamily(rows, id, hw, sw);
  }

  /** A run covering an index picks what the resolver picks there. */
  lemma RunAnswers(rows: seq<Row>, id: int, hw: Option<int>, sw: nat, f0: F0Input, r: Run)
    requires UniqueTokens(rows) && Family(rows, id) != [] && sw < SOFTWARE_INDICES
    requires Covers(r, sw) && Faithful(r, Pools(rows, id, hw))
    ensures var p := Pools(rows, id, hw)[sw];
            PickFromRun(r, f0).token == PickByF0(p.rows, f0).token && r.how == p.how
  {
    var pools := Pools(rows, id, hw);
    assert KeyOf(pools[sw]) == KeyOf(pools[r.lo]);
    RowsOfPools(rows, id, hw, sw);
    RowsOfPools(rows, id, hw, r.lo);
    SameTokensSameRows(rows, pools[sw].rows, pools[r.lo].rows);
    RunPicksLikePool(pools[r.lo], r.lo, r.hi, f0);
  }

  lemma FindsFaithful(pools: seq<Pool>, sw: nat) returns (r: Run)
    requires NonEmpty(pools) && sw < |pools|
    ensures FindRun(Runs(pools), sw) == Some(r) && Covers(r, sw) && Faithful(r, pools)
  {
    RunsTile(pools);
    ExactlyOneRun(Runs(pools), pools, sw);
    r := FindRun(Runs(pools), sw).value;
    var i :| 0 <= i < |Runs(pools)| && Runs(pools)[i] == r;
  }

  /**
   The table agrees with the resolver: with unique tokens, for every device id, hardware
   byte (or none), software index and F0, the finder reading the built table gives the
   resolver's answer.
   */
  lemma TableAgrees(rows: seq<Row>, index: Index, id: int, hw: Option<int>, sw: u8, f0: F0Input)
    requires UniqueTokens(rows) && IsIndexOf(index, rows)
    ensures AnswerOf(Lookup(index, Some(id), hw, Some(sw), f0)) == Some(ResolveDevice(rows, id, hw, sw, f0))
  {
    IdsHaveFamilies(rows, id);
    if id !in index {
      UnknownAgrees(index, rows, id, hw, sw, f0);
    } else if index[id].Table? {
      RangedAgrees(rows, index, id, hw, sw, f0);
    } else {
      FamilyAgrees(index, rows, id, hw, sw, f0);
    }
  }

  lemma UnknownAgrees(index: Index, rows: seq<Row>, id: int, hw: Option<int>, sw: u8, f0: F0Input)
    requires id !in index && Family(rows, id) == []
    ensures AnswerOf(Lookup(index, Some(id), hw, Some(sw), f0)) == Some(ResolveDevice(rows, id, hw, sw, f0))
  {}

  lemma FamilyAgrees(index: Index, rows: seq<Row>, id: int, hw: Option<int>, sw: u8, f0: F0Input)
    requires id in index && Describes(index[id], rows, id) && index[id].FamilyEntry?
    ensures AnswerOf(Lookup(index, Some(id), hw, Some(sw), f0)) == Some(ResolveDevice(rows, id, hw, sw, f0))
  {}

  lemma RangedAgrees(rows: seq<Row>, index: Index, id: int, hw: Option<int>, sw: u8, f0: F0Input)
    requires UniqueTokens(rows) && IsIndexOf(index, rows) && id in index && index[id].Table?
    ensures AnswerOf(Lookup(index, Some(id), hw, Some(sw), f0)) == Some(ResolveDevice(rows, id, hw, sw, f0))
  {
    MatchAgrees(rows, index, id, hw, sw, f0);
    RangedAnswer(rows, id, hw, sw, f0);
    MatchAnswer(Lookup(index, Some(id), hw, Some(sw), f0));
  }

  lemma MatchAnswer(f: Found)
    requires f.Match?
    ensures AnswerOf(f) == Some(Token(f.picked.token))
  {}

  lemma RangedAnswer(rows: seq<Row>, id: int, hw: Option<int>, sw: int, f0: F0Input)
    requires ResolvePool(rows, id, hw, sw).Some? && ResolvePool(rows, id, hw, sw).value.how != ByFamily
    ensures ResolveDevice(rows, id, hw, sw, f0) == Token(PickByF0(ResolvePool(rows, id, hw, sw).value.rows, f0).token)
  {}

  /**
   For a ranged family the finder's match is the pool's: same way of matching, same token,
   same verdict on the hardware byte.
   */
  lemma MatchAgrees(rows: seq<Row>, index: Index, id: int, hw: Option<int>, sw: u8, f0: F0Input)
    requires UniqueTokens(rows) && IsIndexOf(index, rows) && id in index && index[id].Table?
    ensures var f := Lookup(index, Some(id), hw, Some(sw), f0);
            var p := ResolvePool(rows, id, hw, sw);
            && f.Match? && p.Some?
            && f.how == p.value.how && f.how != ByFamily
            && f.lo <= sw <= f.hi
            && f.picked.token == PickByF0(p.value.rows, f0).token
            && f.hwIgnored == (hw.Some? && !KnowsHardware(rows, id, hw))
  {
    assert Describes(index[id], rows, id);
    RunsOfHardware(index[id], rows, id, hw);
    var pools := Pools(rows, id, hw);
    var r := FindsFaithful(pools, sw);
    RunAnswers(rows, id, hw, sw, f0, r);
    PoolHow(rows, id, hw, sw);
    KnownIsCatalogued(rows, id, hw);
  }

  function CandidateTokens(candidates: seq<Candidate>): seq<string> {
    seq(|candidates|, i requires 0 <= i < |candidates| => candidates[i].token)
  }

  /** Beside its match the finder lists the pool's rows where there are several, and the rows without an index pair. */
  lemma MatchLists(rows: seq<Row>, index: Index, id: int, hw: Option<int>, sw: u8, f0: F0Input)
    requires IsIndexOf(index, rows) && id in index && index[id].Table?
    ensures var f, p := Lookup(index, Some(id), hw, Some(sw), f0), ResolvePool(rows, id, hw, sw);
            && f.Match? && p.Some?
            && CandidateTokens(f.candidates) == (if |p.value.rows| > 1 then Tokens(p.value.rows) else [])
            && f.unranged == Tokens(Filter(rows, (r: Row) => r.ident == Some(id) && !HwSw(r.ext)))
  {
    assert Describes(index[id], rows, id);
    RunsOfHardware(index[id], rows, id, hw);
    var pools := Pools(rows, id, hw);
    var r := FindsFaithful(pools, sw);
    CandidatesOfRun(pools, sw, r);
    FilterTwice(rows, (x: Row) => x.ident == Some(id), (x: Row) => !Ranged(x),
                (x: Row) => x.ident == Some(id) && !HwSw(x.ext));
    FilterSame(rows, (x: Row) => x.ident == Some(id) && !HwSw(x.ext), (r: Row) => r.ident == Some(id) && !HwSw(r.ext));
  }

  lemma CandidatesOfRun(pools: seq<Pool>, sw: nat, r: Run)
    requires sw < |pools| && Covers(r, sw) && Faithful(r, pools)
    ensures CandidateTokens(r.candidates) == if |pools[sw].rows| > 1 then Tokens(pools[sw].rows) else []
  {
    assert KeyOf(pools[sw]) == KeyOf(pools[r.lo]);
    assert |Tokens(pools[sw].rows)| == |Tokens(pools[r.lo].rows)|;
    if |pools[sw].rows| > 1 {
      assert CandidateTokens(r.candidates) == Tokens(pools[r.lo].rows);
    }
  }

  lemma PoolHow(rows: seq<Row>, id: int, hw: Option<int>, sw: nat)
    requires sw < SOFTWARE_INDICES && Family(rows, id) != [] && RangedOf(Family(rows, id)) != []
    ensures ResolvePool(rows, id, hw, sw) == Some(Pools(rows, id, hw)[sw]) && Pools(rows, id, hw)[sw].how != ByFamily
  {}

  // --- without a software index ---------------------------------------------------------------------------------

  method TokensSeen(runs: seq<Run>) returns (seen: set<string>)
    ensures seen == Possible(runs)
  {
    seen := {};
    for i := 0 to |runs|
      invariant seen + Possible(runs[i..]) == Possible(runs)
    {
      assert runs[i..][1..] == runs[i + 1..];
      seen := seen + RunTokens(runs[i]);
    }
  }

  lemma {:induction false} PossibleIsUnion(runs: seq<Run>, t: string)
    ensures t in Possible(runs) <==> exists i :: 0 <= i < |runs| && t in RunTokens(runs[i])
  {
    if runs != [] {
      PossibleIsUnion(runs[1..], t);
      if i :| 0 <= i < |runs| && t in RunTokens(runs[i]) {
        if i > 0 { assert runs[1..][i - 1] == runs[i]; }
      }
      if i :| 0 <= i < |runs[1..]| && t in RunTokens(runs[1..][i]) {
        assert runs[i + 1] == runs[1..][i];
      }
    }
  }

  lemma RunTokensArePools(p: Pool, lo: nat, hi: nat, t: string)
    requires p.rows != []
    ensures t in RunTokens(RunOf(p, lo, hi)) <==> t in Tokens(p.rows)
  {
    if |p.rows| == 1 {
      assert Tokens(p.rows) == [p.rows[0].token];
      assert GenericOf(p.rows) == p.rows[0];
    } else {
      var cs := CandidatesOf(p.rows);
      if t in Tokens(p.rows) {
        var i :| 0 <= i < |p.rows| && Tokens(p.rows)[i] == t;
        assert cs[i].token == t && cs[i] in cs;
      }
      if c :| c in cs && c.token == t {
        var i :| 0 <= i < |cs| && cs[i] == c;
        assert Tokens(p.rows)[i] == t;
      }
    }
  }

  lemma PossibleIsExact(pools: seq<Pool>, t: string)
    requires NonEmpty(pools)
    ensures t in Possible(Runs(pools)) <==> exists sw :: 0 <= sw < |pools| && t in Tokens(pools[sw].rows)
  {
    var runs := Runs(pools);
    RunsTile(pools);
    PossibleIsUnion(runs, t);
    if i :| 0 <= i < |runs| && t in RunTokens(runs[i]) {
      assert Faithful(runs[i], pools);
      RunTokensArePools(pools[runs[i].lo], runs[i].lo, runs[i].hi, t);
    }
    if sw :| 0 <= sw < |pools| && t in Tokens(pools[sw].rows) {
      ListedInItsRun(pools, sw, t);
    }
  }

  /** Asked without a software index, the finder lists exactly the types some software index could select. */
  lemma NeedSoftwareIsExact(rows: seq<Row>, index: Index, id: int, hw: Option<int>, f0: F0Input, t: string)
    requires IsIndexOf(index, rows) && id in index && index[id].Table?
    ensures var f := Lookup(index, Some(id), hw, None, f0);
            && f.NeedSoftware? && Family(rows, id) != []
            && (t in f.possible <==>
                exists sw :: 0 <= sw < SOFTWARE_INDICES && t in Tokens(Pools(rows, id, hw)[sw].rows))
  {
    assert Describes(index[id], rows, id);
    RunsOfHardware(index[id], rows, id, hw);
    PossibleIsExact(Pools(rows, id, hw), t);
  }

  lemma ListedInItsRun(pools: seq<Pool>, sw: nat, t: string)
    requires NonEmpty(pools) && sw < |pools| && t in Tokens(pools[sw].rows)
    ensures exists i :: 0 <= i < |Runs(pools)| && t in RunTokens(Runs(pools)[i])
  {
    var r := FindsFaithful(pools, sw);
    assert KeyOf(pools[sw]) == KeyOf(pools[r.lo]);
    RunTokensArePools(pools[r.lo], r.lo, r.hi, t);
    var i :| 0 <= i < |Runs(pools)| && Runs(pools)[i] == r;
  }
}
