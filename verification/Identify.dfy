/**
 From live identification bytes to a datapoint type: the direct resolver over the
 catalogue's rows.
 */
module Identify {
  import opened Basics

  // --- rows -------------------------------------------------------------------------------------

  /** `ext`..`extt` is a range of HW<<8 | SW pairs when it fits two bytes, `f0`..`f0t` a range of F0 values. */
  datatype Row = Row(token: string, ident: Option<int>, ext: Option<int>, extt: Option<int>, f0: Option<int>,
                     f0t: Option<int>)

  predicate HwSw(ext: Option<int>) {
    ext.Some? && 0 <= ext.value <= 0xFFFF
  }

  predicate Ranged(r: Row) {
    HwSw(r.ext)
  }

  function High(r: Row): int
    requires Ranged(r)
  {
    r.ext.value / 256
  }

  predicate OfGeneration(r: Row, hw: int) {
    Ranged(r) && High(r) == hw
  }

  predicate OneGeneration(r: Row) {
    Ranged(r) && (r.extt.None? || r.extt.value / 256 == High(r))
  }

  function SwLow(r: Row): int
    requires Ranged(r)
  {
    r.ext.value % 256
  }

  function SwHigh(r: Row): int
    requires Ranged(r)
  {
    if r.extt.Some? then r.extt.value % 256 else SwLow(r)
  }

  predicate Contains(r: Row, sw: int) {
    Ranged(r) && SwLow(r) <= sw <= SwHigh(r)
  }

  predicate StartsBelow(r: Row, sw: int) {
    Ranged(r) && SwLow(r) <= sw
  }

  // --- selection ------------------------------------------------------------------------------------

  /** The first row with the least key. */
  function FirstMin(rows: seq<Row>, key: Row -> int): (r: Row)
    requires rows != []
    ensures r in rows && forall x :: x in rows ==> key(r) <= key(x)
  {
    if |rows| == 1 then rows[0]
    else
      var rest := FirstMin(rows[1..], key);
      assert rows == [rows[0]] + rows[1..];
      if key(rows[0]) <= key(rest) then rows[0] else rest
  }

  /** The last row with the greatest key: what a stable sort leaves at the end. */
  function LastMax(rows: seq<Row>, key: Row -> int): (r: Row)
    requires rows != []
    ensures r in rows && forall x :: x in rows ==> key(x) <= key(r)
  {
    if |rows| == 1 then rows[0]
    else
      var rest := LastMax(rows[1..], key);
      assert rows == [rows[0]] + rows[1..];
      if key(rows[0]) > key(rest) then rows[0] else rest
  }

  /** Row `i` has a key no other row undercuts, and no earlier row has it. */
  ghost predicate FirstLeastAt(rows: seq<Row>, key: Row -> int, i: nat) {
    && i < |rows|
    && (forall j :: 0 <= j < i ==> key(rows[i]) < key(rows[j]))
    && (forall j :: i <= j < |rows| ==> key(rows[i]) <= key(rows[j]))
  }

  /** Row `i` has a key no other row exceeds, and no later row has it. */
  ghost predicate LastGreatestAt(rows: seq<Row>, key: Row -> int, i: nat) {
    && i < |rows|
    && (forall j :: 0 <= j <= i ==> key(rows[j]) <= key(rows[i]))
    && (forall j :: i < j < |rows| ==> key(rows[j]) < key(rows[i]))
  }

  lemma LeastOfMore(rows: seq<Row>, key: Row -> int, i: nat)
    requires rows != [] && FirstLeastAt(rows[1..], key, i)
    ensures FirstLeastAt(rows, key, if key(rows[0]) <= key(rows[1..][i]) then 0 else i + 1)
  {
    assert forall j :: 0 < j < |rows| ==> rows[j] == rows[1..][j - 1];
  }

  lemma GreatestOfMore(rows: seq<Row>, key: Row -> int, i: nat)
    requires rows != [] && LastGreatestAt(rows[1..], key, i)
    ensures LastGreatestAt(rows, key, if key(rows[0]) > key(rows[1..][i]) then 0 else i + 1)
  {
    assert forall j :: 0 < j < |rows| ==> rows[j] == rows[1..][j - 1];
  }

  /** Of equal keys the minimum is the first. */
  lemma {:induction false} FirstMinIsFirst(rows: seq<Row>, key: Row -> int) returns (i: nat)
    requires rows != []
    ensures FirstLeastAt(rows, key, i) && rows[i] == FirstMin(rows, key)
    decreases |rows|
  {
    if |rows| == 1 {
      i := 0;
    } else {
      var k := FirstMinIsFirst(rows[1..], key);
      LeastOfMore(rows, key, k);
      i := if key(rows[0]) <= key(rows[1..][k]) then 0 else k + 1;
    }
  }

  /** Of equal keys the maximum is the last. */
  lemma {:induction false} LastMaxIsLast(rows: seq<Row>, key: Row -> int) returns (i: nat)
    requires rows != []
    ensures LastGreatestAt(rows, key, i) && rows[i] == LastMax(rows, key)
    decreases |rows|
  {
    if |rows| == 1 {
      i := 0;
    } else {
      var k := LastMaxIsLast(rows[1..], key);
      GreatestOfMore(rows, key, k);
      i := if key(rows[0]) > key(rows[1..][k]) then 0 else k + 1;
    }
  }

  function LowKey(): Row -> int {
    (r: Row) => if Ranged(r) then SwLow(r) else 0
  }

  datatype How = ByFamily | ByRange | ByFloor | ByLowest

  datatype Pool = Pool(rows: seq<Row>, how: How)

  function Family(rows: seq<Row>, id: int): seq<Row> {
    Filter(rows, (r: Row) => r.ident == Some(id))
  }

  function RangedOf(fam: seq<Row>): seq<Row> {
    Filter(fam, (r: Row) => Ranged(r))
  }

  /** Whether some ranged row of the family has this hardware byte. */
  predicate Catalogued(ranged: seq<Row>, hw: Option<int>) {
    hw.Some? && exists r :: r in ranged && OfGeneration(r, hw.value)
  }

  function ByGeneration(ranged: seq<Row>, hw: Option<int>): seq<Row> {
    if Catalogued(ranged, hw) then Filter(ranged, (r: Row) => OfGeneration(r, hw.value)) else ranged
  }

  /** Spans over several hardware bytes are ignored when anything else is left. */
  function WithoutSpans(cand: seq<Row>): seq<Row> {
    var single := Filter(cand, (r: Row) => OneGeneration(r));
    if single != [] then single else cand
  }

  /** Rows whose range holds the software index; else the latest below it; else the lowest of all. */
  function BySoftware(cand: seq<Row>, sw: int): (pool: Pool)
    requires cand != []
    ensures pool.rows != [] && pool.how != ByFamily
  {
    var contain := Filter(cand, (r: Row) => Contains(r, sw));
    if contain != [] then Pool(contain, ByRange)
    else
      var below := Filter(cand, (r: Row) => StartsBelow(r, sw));
      if below != [] then Pool([LastMax(below, LowKey())], ByFloor)
      else Pool([FirstMin(cand, LowKey())], ByLowest)
  }

  function Candidates(ranged: seq<Row>, hw: Option<int>): (cand: seq<Row>)
    requires ranged != []
    ensures cand != []
  {
    CataloguedIsNotEmpty(ranged, hw);
    WithoutSpans(ByGeneration(ranged, hw))
  }

  lemma CataloguedIsNotEmpty(ranged: seq<Row>, hw: Option<int>)
    requires ranged != []
    ensures ByGeneration(ranged, hw) != []
  {
    if Catalogued(ranged, hw) {
      var r :| r in ranged && OfGeneration(r, hw.value);
      FilterMembers(ranged, (x: Row) => OfGeneration(x, hw.value), r);
    }
  }

  /** The candidates for live bytes before F0; None for an unknown device id. */
  function ResolvePool(rows: seq<Row>, id: int, hw: Option<int>, sw: int): (pool: Option<Pool>)
    ensures pool.Some? ==> pool.value.rows != []
  {
    var fam := Family(rows, id);
    if fam == [] then None
    else
      var ranged := RangedOf(fam);
      if ranged == [] then Some(Pool(fam, ByFamily))
      else Some(BySoftware(Candidates(ranged, hw), sw))
  }

  // --- F0 ----------------------------------------------------------------------------------------------

  /** What F0 is given as: the value, the two raw bytes in register order, its decimal text, or nothing usable. */
  datatype F0Input = NoF0 | Number(n: int) | RawBytes(lo: u8, hi: u8) | Decimal(d: nat)

  function F0Value(f: F0Input): Option<int> {
    match f
    case NoF0 => None
    case Number(n) => if -0x8000 <= n <= 0x7FFF then Some(n) else None
    case RawBytes(lo, hi) =>
      var number := lo as int + hi as int * 256;
      Some(if number >= 0x8000 then number - 0x1_0000 else number)
    case Decimal(d) => if d <= 999 then Some(d) else None
  }

  function F0Key(): Row -> int {
    (r: Row) => if r.f0.Some? then r.f0.value else -1
  }

  predicate F0Aware(r: Row) {
    r.f0.Some?
  }

  predicate F0Holds(r: Row, n: int) {
    r.f0.Some? && r.f0.value <= n <= if r.f0t.Some? then r.f0t.value else r.f0.value
  }

  /** The row used when F0 cannot pick one. */
  function GenericOf(pool: seq<Row>): (r: Row)
    requires pool != []
    ensures r in pool
  {
    if exists r :: r in pool && F0Aware(r) then FirstMin(pool, F0Key()) else pool[0]
  }

  /**
   Row `i` is the generic variant: the first without an F0 range, or, when every row has
   one, the first with the lowest F0.
   */
  ghost predicate GenericAt(pool: seq<Row>, i: nat) {
    && i < |pool|
    && if forall j :: 0 <= j < |pool| ==> F0Aware(pool[j]) then FirstLeastAt(pool, F0Key(), i)
       else !F0Aware(pool[i]) && forall j :: 0 <= j < i ==> F0Aware(pool[j])
  }

  /**
   The fallback is the first row of the lowest F0, a row without F0 counting as -1; so it is
   the generic variant whenever F0 ranges start at zero or above.
   */
  lemma GenericOfIsGeneric(pool: seq<Row>) returns (i: nat)
    requires pool != []
    ensures FirstLeastAt(pool, F0Key(), i) && pool[i] == GenericOf(pool)
    ensures (forall r :: r in pool && F0Aware(r) ==> r.f0.value >= 0) ==> GenericAt(pool, i)
  {
    if exists r :: r in pool && F0Aware(r) {
      i := FirstMinIsFirst(pool, F0Key());
    } else {
      i := 0;
      assert forall j :: 0 <= j < |pool| ==> pool[j] in pool;
    }
    if forall r :: r in pool && F0Aware(r) ==> r.f0.value >= 0 {
      LeastIsGeneric(pool, i);
    }
  }

  lemma LeastIsGeneric(pool: seq<Row>, i: nat)
    requires FirstLeastAt(pool, F0Key(), i) && forall r :: r in pool && F0Aware(r) ==> r.f0.value >= 0
    ensures GenericAt(pool, i)
  {
    forall j | 0 <= j < |pool|
      ensures F0Aware(pool[j]) <==> F0Key()(pool[j]) >= 0
    {
      assert pool[j] in pool;
    }
  }

  datatype Answer = Unknown | Ambiguous(tokens: seq<string>) | Token(token: string)

  function Tokens(rows: seq<Row>): (t: seq<string>)
    ensures |t| == |rows|
  {
    seq(|rows|, i requires 0 <= i < |rows| => rows[i].token)
  }

  /** The row F0 picks among several that share a software range. */
  function PickByF0(pool: seq<Row>, f0: F0Input): (r: Row)
    requires pool != []
  {
    var aware := Filter(pool, (r: Row) => F0Aware(r));
    if aware == [] then pool[0]
    else
      var n := F0Value(f0);
      if n.None? then GenericOf(pool)
      else
        var match_ := Filter(aware, (r: Row) => F0Holds(r, n.value));
        if match_ != [] then match_[0] else GenericOf(pool)
  }

  function ResolveDevice(rows: seq<Row>, id: int, hw: Option<int>, sw: int, f0: F0Input): Answer {
    match ResolvePool(rows, id, hw, sw)
    case None => Unknown
    case Some(pool) =>
      if pool.how == ByFamily then
        if |pool.rows| > 1 then Ambiguous(Tokens(pool.rows)) else Token(pool.rows[0].token)
      else Token(PickByF0(pool.rows, f0).token)
  }

  // --- facts about the resolver -------------------------------------------------------------------------

  lemma FamilyMembers(rows: seq<Row>, id: int, r: Row)
    ensures r in Family(rows, id) <==> r in rows && r.ident == Some(id)
  {
    FilterMembers(rows, (x: Row) => x.ident == Some(id), r);
  }

  lemma RangedMembers(fam: seq<Row>, r: Row)
    ensures r in RangedOf(fam) <==> r in fam && Ranged(r)
  {
    FilterMembers(fam, (x: Row) => Ranged(x), r);
  }

  lemma CandidatesAreRanged(ranged: seq<Row>, hw: Option<int>, r: Row)
    requires ranged != [] && r in Candidates(ranged, hw)
    ensures r in ranged
  {
    var gen := ByGeneration(ranged, hw);
    FilterMembers(gen, (x: Row) => OneGeneration(x), r);
    if Catalogued(ranged, hw) {
      FilterMembers(ranged, (x: Row) => OfGeneration(x, hw.value), r);
    }
  }

  lemma PoolIsDrawn(cand: seq<Row>, sw: int, r: Row)
    requires cand != [] && r in BySoftware(cand, sw).rows
    ensures r in cand
  {
    var contain := Filter(cand, (x: Row) => Contains(x, sw));
    var below := Filter(cand, (x: Row) => StartsBelow(x, sw));
    FilterMembers(cand, (x: Row) => Contains(x, sw), r);
    FilterMembers(cand, (x: Row) => StartsBelow(x, sw), r);
  }

  /** A pool is never empty and holds only rows of the device's family. */
  lemma PoolOfFamily(rows: seq<Row>, id: int, hw: Option<int>, sw: int)
    ensures var p := ResolvePool(rows, id, hw, sw);
            && (p.None? <==> forall r :: r in rows ==> r.ident != Some(id))
            && (p.Some? ==> forall r :: r in p.value.rows ==> r in rows && r.ident == Some(id))
            && (p.Some? ==> (p.value.how == ByFamily <==> forall r :: r in rows && r.ident == Some(id) ==> !Ranged(r)))
  {
    var fam := Family(rows, id);
    forall r: Row
      ensures r in fam <==> r in rows && r.ident == Some(id)
    {
      FamilyMembers(rows, id, r);
    }
    if fam != [] {
      assert fam[0] in fam;
      RangedPool(fam, hw, sw);
    }
  }

  lemma RangedPool(fam: seq<Row>, hw: Option<int>, sw: int)
    requires fam != []
    ensures RangedOf(fam) == [] <==> forall r :: r in fam ==> !Ranged(r)
    ensures RangedOf(fam) != [] ==>
      var p := BySoftware(Candidates(RangedOf(fam), hw), sw);
      forall r :: r in p.rows ==> r in fam
  {
    var ranged := RangedOf(fam);
    forall r: Row
      ensures r in ranged <==> r in fam && Ranged(r)
    {
      RangedMembers(fam, r);
    }
    if ranged != [] {
      assert ranged[0] in ranged;
      var cand := Candidates(ranged, hw);
      forall r | r in BySoftware(cand, sw).rows
        ensures r in fam
      {
        PoolIsDrawn(cand, sw, r);
        CandidatesAreRanged(ranged, hw, r);
      }
    }
  }

  /** A hardware byte the family does not have is ignored. */
  lemma UncataloguedIsIgnored(rows: seq<Row>, id: int, hw: Option<int>, sw: int)
    requires !Catalogued(RangedOf(Family(rows, id)), hw)
    ensures ResolvePool(rows, id, hw, sw) == ResolvePool(rows, id, None, sw)
  {}

  // --- what a catalogue selects, row by row -------------------------------------------------------------

  /** A row of this device whose extension is a hardware and a software index. */
  predicate Indexed(rows: seq<Row>, id: int, r: Row) {
    r in rows && r.ident == Some(id) && r.ext.Some? && 0 <= r.ext.value < 0x1_0000
  }

  /** The live hardware byte is one the catalogue knows for this device. */
  predicate KnowsHardware(rows: seq<Row>, id: int, hw: Option<int>) {
    hw.Some? && exists r :: r in rows && Indexed(rows, id, r) && r.ext.value / 256 == hw.value
  }

  /** A row the software index is looked up in, as far as the hardware byte goes: known, it must be the row's own. */
  predicate OfHardware(rows: seq<Row>, id: int, hw: Option<int>, r: Row) {
    Indexed(rows, id, r) && (KnowsHardware(rows, id, hw) ==> Some(r.ext.value / 256) == hw)
  }

  predicate WithinHardware(r: Row) {
    r.ext.Some? && (r.extt.None? || r.extt.value / 256 == r.ext.value / 256)
  }

  /** Rows that span hardware bytes count only where nothing else does. */
  predicate Eligible(rows: seq<Row>, id: int, hw: Option<int>, r: Row) {
    && OfHardware(rows, id, hw, r)
    && (WithinHardware(r) || forall x :: x in rows && OfHardware(rows, id, hw, x) ==> !WithinHardware(x))
  }

  /** From the row's low software index to its high one; a row without an upper end holds one index. */
  predicate HoldsSoftware(r: Row, sw: int) {
    r.ext.Some? && r.ext.value % 256 <= sw <= (if r.extt.Some? then r.extt.value else r.ext.value) % 256
  }

  /** Filtering twice is filtering by both. */
  lemma {:induction false} FilterTwice(rows: seq<Row>, p: Row -> bool, q: Row -> bool, both: Row -> bool)
    requires forall r :: r in rows ==> (both(r) <==> p(r) && q(r))
    ensures Filter(Filter(rows, p), q) == Filter(rows, both)
  {
    if rows != [] {
      var rest := Filter(rows[1..], p);
      FilterTwice(rows[1..], p, q, both);
      FilterHead(rows, p);
      assert ([rows[0]] + rest)[1..] == rest;
    }
  }

  lemma {:induction false} FilterSame(rows: seq<Row>, p: Row -> bool, q: Row -> bool)
    requires forall r :: r in rows ==> (p(r) <==> q(r))
    ensures Filter(rows, p) == Filter(rows, q)
  {
    if rows != [] { FilterSame(rows[1..], p, q); }
  }

  function EligibleOf(rows: seq<Row>, id: int, hw: Option<int>): seq<Row> {
    Filter(rows, (r: Row) => Eligible(rows, id, hw, r))
  }

  lemma IndexedAre(rows: seq<Row>, id: int, indexed: Row -> bool)
    requires forall r :: indexed(r) <==> Indexed(rows, id, r)
    ensures RangedOf(Family(rows, id)) == Filter(rows, indexed)
  {
    FilterTwice(rows, (r: Row) => r.ident == Some(id), (r: Row) => Ranged(r), indexed);
  }

  lemma KnownIsCatalogued(rows: seq<Row>, id: int, hw: Option<int>)
    ensures Catalogued(RangedOf(Family(rows, id)), hw) <==> KnowsHardware(rows, id, hw)
  {
    var indexed := (r: Row) => Indexed(rows, id, r);
    IndexedAre(rows, id, indexed);
    forall r: Row
      ensures r in RangedOf(Family(rows, id)) <==> Indexed(rows, id, r)
    {
      FilterMembers(rows, indexed, r);
    }
  }

  lemma OfHardwareAre(rows: seq<Row>, id: int, hw: Option<int>, ranged: seq<Row>, of: Row -> bool)
    requires ranged == RangedOf(Family(rows, id)) && forall r :: of(r) <==> OfHardware(rows, id, hw, r)
    ensures ByGeneration(ranged, hw) == Filter(rows, of)
  {
    var indexed := (r: Row) => Indexed(rows, id, r);
    IndexedAre(rows, id, indexed);
    forall r: Row
      ensures r in ranged <==> Indexed(rows, id, r)
    {
      FilterMembers(rows, indexed, r);
    }
    assert Catalogued(ranged, hw) <==> KnowsHardware(rows, id, hw);
    if Catalogued(ranged, hw) {
      FilterTwice(rows, indexed, (r: Row) => OfGeneration(r, hw.value), of);
    } else {
      FilterSame(rows, indexed, of);
    }
  }

  /** What is looked up are the eligible rows, in catalogue order. */
  lemma CandidatesAre(rows: seq<Row>, id: int, hw: Option<int>, ranged: seq<Row>)
    requires ranged == RangedOf(Family(rows, id)) && ranged != []
    ensures Candidates(ranged, hw) == EligibleOf(rows, id, hw)
  {
    var of := (r: Row) => OfHardware(rows, id, hw, r);
    var cand := ByGeneration(ranged, hw);
    OfHardwareAre(rows, id, hw, ranged, of);
    forall r: Row
      ensures r in cand <==> OfHardware(rows, id, hw, r)
      ensures r in Filter(cand, (x: Row) => OneGeneration(x)) <==> OfHardware(rows, id, hw, r) && WithinHardware(r)
    {
      FilterMembers(rows, of, r);
      FilterMembers(cand, (x: Row) => OneGeneration(x), r);
    }
    SinglesAre(rows, id, hw, cand, of);
  }

  lemma SinglesAre(rows: seq<Row>, id: int, hw: Option<int>, cand: seq<Row>, of: Row -> bool)
    requires cand == Filter(rows, of) && forall r :: of(r) <==> OfHardware(rows, id, hw, r)
    ensures WithoutSpans(cand) == EligibleOf(rows, id, hw)
  {
    var single := Filter(cand, (x: Row) => OneGeneration(x));
    var eligible := (r: Row) => Eligible(rows, id, hw, r);
    forall r: Row
      ensures r in single <==> OfHardware(rows, id, hw, r) && WithinHardware(r)
    {
      FilterMembers(rows, of, r);
      FilterMembers(cand, (x: Row) => OneGeneration(x), r);
    }
    if single != [] {
      assert single[0] in single;
      FilterTwice(rows, of, (x: Row) => OneGeneration(x), eligible);
      FilterSame(rows, eligible, (r: Row) => Eligible(rows, id, hw, r));
    } else {
      forall x | x in rows && OfHardware(rows, id, hw, x)
        ensures !WithinHardware(x)
      {
        assert x !in single;
      }
      FilterSame(rows, of, (r: Row) => Eligible(rows, id, hw, r));
    }
  }

  function Start(r: Row): int {
    if r.ext.Some? then r.ext.value % 256 else 0
  }

  /** The last of the rows that start latest, among those that start no later than the software index. */
  ghost predicate LatestBelow(rows: seq<Row>, sw: int, i: nat) {
    && i < |rows| && Start(rows[i]) <= sw
    && forall j :: 0 <= j < |rows| && Start(rows[j]) <= sw ==>
         Start(rows[j]) <= Start(rows[i]) && (i < j ==> Start(rows[j]) < Start(rows[i]))
  }

  /** The first of the rows that start earliest. */
  ghost predicate Earliest(rows: seq<Row>, i: nat) {
    && i < |rows|
    && forall j :: 0 <= j < |rows| ==>
         Start(rows[i]) <= Start(rows[j]) && (j < i ==> Start(rows[i]) < Start(rows[j]))
  }

  /** Row `i` is the filter's `k`-th: what passes before it is before it there, what passes after it after. */
  ghost predicate StandsAt(rows: seq<Row>, p: Row -> bool, filtered: seq<Row>, k: nat, i: nat) {
    && i < |rows| && k < |filtered| && p(rows[i]) && rows[i] == filtered[k]
    && (forall j :: 0 <= j < i && p(rows[j]) ==> rows[j] in filtered[..k])
    && (forall j :: i < j < |rows| && p(rows[j]) ==> rows[j] in filtered[k + 1..])
  }

  lemma {:induction false} FilterIndex(rows: seq<Row>, p: Row -> bool, k: nat) returns (i: nat)
    requires k < |Filter(rows, p)|
    ensures StandsAt(rows, p, Filter(rows, p), k, i)
  {
    FilterHead(rows, p);
    if p(rows[0]) && k == 0 {
      i := 0;
      FirstStands(rows, p);
    } else {
      var m := if p(rows[0]) then k - 1 else k;
      var before := FilterIndex(rows[1..], p, m);
      i := before + 1;
      LaterStands(rows, p, Filter(rows[1..], p), m, before);
    }
  }

  lemma FilterHead(rows: seq<Row>, p: Row -> bool)
    requires rows != []
    ensures Filter(rows, p) == if p(rows[0]) then [rows[0]] + Filter(rows[1..], p) else Filter(rows[1..], p)
  {}

  lemma FirstStands(rows: seq<Row>, p: Row -> bool)
    requires rows != [] && p(rows[0])
    ensures StandsAt(rows, p, [rows[0]] + Filter(rows[1..], p), 0, 0)
  {
    forall j | 0 < j < |rows| && p(rows[j])
      ensures rows[j] in ([rows[0]] + Filter(rows[1..], p))[1..]
    {
      assert rows[1..][j - 1] == rows[j];
      FilterMembers(rows[1..], p, rows[j]);
    }
  }

  lemma LaterStands(rows: seq<Row>, p: Row -> bool, rest: seq<Row>, k: nat, i: nat)
    requires rows != [] && StandsAt(rows[1..], p, rest, k, i)
    ensures p(rows[0]) ==> StandsAt(rows, p, [rows[0]] + rest, k + 1, i + 1)
    ensures !p(rows[0]) ==> StandsAt(rows, p, rest, k, i + 1)
  {
    var more := [rows[0]] + rest;
    assert more[..k + 1] == [rows[0]] + rest[..k] && more[k + 2..] == rest[k + 1..];
    forall j | 0 < j < |rows| && p(rows[j])
      ensures j < i + 1 ==> rows[j] in rest[..k] && rows[j] in more[..k + 1]
      ensures j > i + 1 ==> rows[j] in rest[k + 1..]
    {
      assert rows[1..][j - 1] == rows[j];
    }
  }

  lemma FloorIs(cand: seq<Row>, sw: int) returns (i: nat)
    requires (forall r :: r in cand ==> Ranged(r)) && Filter(cand, (r: Row) => StartsBelow(r, sw)) != []
    ensures LatestBelow(cand, sw, i) && cand[i] == LastMax(Filter(cand, (r: Row) => StartsBelow(r, sw)), LowKey())
  {
    var starts := (r: Row) => StartsBelow(r, sw);
    var below := Filter(cand, starts);
    FilterSame(cand, (r: Row) => StartsBelow(r, sw), starts);
    var k := LastMaxIsLast(below, LowKey());
    i := FilterIndex(cand, starts, k);
    forall j | 0 <= j < |cand| && Start(cand[j]) <= sw
      ensures Start(cand[j]) <= Start(cand[i]) && (i < j ==> Start(cand[j]) < Start(cand[i]))
    {
      assert cand[j] in cand;
      FilterMembers(cand, starts, cand[j]);
      assert LowKey()(cand[j]) == Start(cand[j]) && LowKey()(cand[i]) == Start(cand[i]);
    }
  }

  lemma LowestIs(cand: seq<Row>) returns (i: nat)
    requires cand != [] && forall r :: r in cand ==> Ranged(r)
    ensures Earliest(cand, i) && cand[i] == FirstMin(cand, LowKey())
  {
    i := FirstMinIsFirst(cand, LowKey());
    forall j | 0 <= j < |cand|
      ensures LowKey()(cand[j]) == Start(cand[j])
    {
      assert cand[j] in cand;
    }
  }

  /**
   What a software index selects of some rows, in their order: every one whose range holds
   it; failing that, the one that starts latest below it, the last of several; failing that,
   the one that starts earliest, the first of several.
   */
  ghost predicate Selects(p: Pool, cand: seq<Row>, sw: int) {
    if exists r :: r in cand && HoldsSoftware(r, sw) then
      p.how == ByRange && p.rows == Filter(cand, (r: Row) => HoldsSoftware(r, sw))
    else if exists r :: r in cand && Start(r) <= sw then
      p.how == ByFloor && exists i: nat :: LatestBelow(cand, sw, i) && p.rows == [cand[i]]
    else
      p.how == ByLowest && exists i: nat :: Earliest(cand, i) && p.rows == [cand[i]]
  }

  lemma SoftwareIs(cand: seq<Row>, sw: int)
    requires cand != [] && forall r :: r in cand ==> Ranged(r)
    ensures Selects(BySoftware(cand, sw), cand, sw)
  {
    var contain, below := Filter(cand, (x: Row) => Contains(x, sw)), Filter(cand, (x: Row) => StartsBelow(x, sw));
    FilterSame(cand, (r: Row) => Contains(r, sw), (r: Row) => HoldsSoftware(r, sw));
    forall r: Row
      ensures r in contain <==> r in cand && HoldsSoftware(r, sw)
      ensures r in below <==> r in cand && Start(r) <= sw
    {
      FilterMembers(cand, (x: Row) => Contains(x, sw), r);
      FilterMembers(cand, (x: Row) => StartsBelow(x, sw), r);
    }
    if contain != [] {
      assert contain[0] in contain;
    } else if below != [] {
      assert below[0] in below && forall r :: r in cand ==> r !in contain;
      var i := FloorIs(cand, sw);
    } else {
      assert forall r :: r in cand ==> r !in contain && r !in below;
      var i := LowestIs(cand);
    }
  }

  /**
   The pool of live bytes, from the catalogue's rows: what the software index selects of the
   eligible ones. A device whose rows have no index pair is returned whole.
   */
  lemma PoolSelects(rows: seq<Row>, id: int, hw: Option<int>, sw: int)
    ensures var p, family := ResolvePool(rows, id, hw, sw), Filter(rows, (r: Row) => r.ident == Some(id));
            if exists r :: r in rows && Indexed(rows, id, r)
            then p.Some? && Selects(p.value, EligibleOf(rows, id, hw), sw)
            else p == if family == [] then None else Some(Pool(family, ByFamily))
  {
    var fam := Family(rows, id);
    var ranged := RangedOf(fam);
    FilterSame(rows, (r: Row) => r.ident == Some(id), (r: Row) => r.ident == Some(id));
    forall r: Row
      ensures r in ranged <==> r in rows && Indexed(rows, id, r)
      ensures r in ranged ==> r in fam
    {
      FamilyMembers(rows, id, r);
      RangedMembers(fam, r);
    }
    if ranged != [] {
      assert ranged[0] in ranged;
      CandidatesAre(rows, id, hw, ranged);
      forall r | r in Candidates(ranged, hw)
        ensures Ranged(r)
      {
        CandidatesAreRanged(ranged, hw, r);
      }
      SoftwareIs(Candidates(ranged, hw), sw);
    }
  }

  // --- what F0 picks ---------------------------------------------------------------------------------------

  /** The signed 16-bit number an input stands for; two raw bytes stand low one first. */
  predicate StandsFor(f: F0Input, n: int) {
    match f
    case NoF0 => false
    case Number(m) => n == m && -0x8000 <= n < 0x8000
    case RawBytes(lo, hi) => -0x8000 <= n < 0x8000 && (n - (256 * hi + lo)) % 0x1_0000 == 0
    case Decimal(d) => n == d < 1000
  }

  lemma F0Reads(f: F0Input, n: int)
    ensures F0Value(f) == Some(n) <==> StandsFor(f, n)
  {
    if f.RawBytes? {
      var number := f.lo as int + f.hi as int * 256;
      assert (n - (256 * f.hi + f.lo)) % 0x1_0000 == 0 && -0x8000 <= n < 0x8000 ==>
        n == number || n == number - 0x1_0000;
    }
  }

  predicate HoldsF0(r: Row, n: int) {
    r.f0.Some? && r.f0.value <= n && n <= (if r.f0t.None? then r.f0.value else r.f0t.value)
  }

  ghost predicate FirstHolding(pool: seq<Row>, n: int, i: nat) {
    i < |pool| && HoldsF0(pool[i], n) && forall j :: 0 <= j < i ==> !HoldsF0(pool[j], n)
  }

  /**
   The row F0 picks: the first whose range holds it; failing that, the generic one, which is
   the first row where none has a range.
   */
  ghost predicate Picks(pool: seq<Row>, f0: F0Input, r: Row) {
    if exists n, x :: StandsFor(f0, n) && x in pool && HoldsF0(x, n)
    then exists n, i: nat :: StandsFor(f0, n) && FirstHolding(pool, n, i) && pool[i] == r
    else exists i: nat :: FirstLeastAt(pool, F0Key(), i) && pool[i] == r
  }

  lemma FirstHeld(pool: seq<Row>, n: int) returns (i: nat)
    requires Filter(Filter(pool, (r: Row) => F0Aware(r)), (r: Row) => F0Holds(r, n)) != []
    ensures FirstHolding(pool, n, i)
    ensures pool[i] == Filter(Filter(pool, (r: Row) => F0Aware(r)), (r: Row) => F0Holds(r, n))[0]
  {
    var holds := (r: Row) => HoldsF0(r, n);
    FilterTwice(pool, (r: Row) => F0Aware(r), (r: Row) => F0Holds(r, n), holds);
    i := FilterIndex(pool, holds, 0);
  }

  lemma NoneHeld(pool: seq<Row>, n: int)
    requires Filter(Filter(pool, (r: Row) => F0Aware(r)), (r: Row) => F0Holds(r, n)) == []
    ensures forall x :: x in pool ==> !HoldsF0(x, n)
  {
    var aware := Filter(pool, (r: Row) => F0Aware(r));
    forall x | x in pool
      ensures !HoldsF0(x, n)
    {
      FilterMembers(pool, (r: Row) => F0Aware(r), x);
      FilterMembers(aware, (r: Row) => F0Holds(r, n), x);
    }
  }

  lemma F0Picks(pool: seq<Row>, f0: F0Input)
    requires pool != []
    ensures Picks(pool, f0, PickByF0(pool, f0))
  {
    var aware := Filter(pool, (r: Row) => F0Aware(r));
    var generic := GenericOfIsGeneric(pool);
    forall x | x in pool
      ensures x in aware <==> F0Aware(x)
    {
      FilterMembers(pool, (r: Row) => F0Aware(r), x);
    }
    forall n
      ensures F0Value(f0) == Some(n) <==> StandsFor(f0, n)
    {
      F0Reads(f0, n);
    }
    if aware == [] {
      AllGeneric(pool);
    } else if F0Value(f0).Some? {
      var n := F0Value(f0).value;
      if Filter(aware, (r: Row) => F0Holds(r, n)) != [] {
        var i := FirstHeld(pool, n);
        assert pool[i] in pool;
      } else {
        NoneHeld(pool, n);
      }
    }
  }

  /** Without F0 ranges every row is generic, so the first is taken. */
  lemma AllGeneric(pool: seq<Row>)
    requires pool != [] && forall x :: x in pool ==> !F0Aware(x)
    ensures FirstLeastAt(pool, F0Key(), 0)
  {
    assert forall j :: 0 <= j < |pool| ==> pool[j] in pool;
  }

  /**
   The resolver, from the catalogue's rows: unknown exactly without a row of the device; a
   device without index pairs only by its single row; any other by the row F0 picks of those
   its hardware and software indices select.
   */
  lemma ResolvesExactly(rows: seq<Row>, id: int, hw: Option<int>, sw: int, f0: F0Input)
    ensures var answer, family := ResolveDevice(rows, id, hw, sw, f0), Filter(rows, (r: Row) => r.ident == Some(id));
            if exists r :: r in rows && Indexed(rows, id, r) then
              exists p: Pool, r :: Selects(p, EligibleOf(rows, id, hw), sw) && Picks(p.rows, f0, r)
                                   && answer == Token(r.token)
            else answer == if family == [] then Unknown
                           else if |family| == 1 then Token(family[0].token) else Ambiguous(Tokens(family))
  {
    PoolSelects(rows, id, hw, sw);
    var p := ResolvePool(rows, id, hw, sw);
    if p.Some? && p.value.how != ByFamily {
      F0Picks(p.value.rows, f0);
    }
  }
}
