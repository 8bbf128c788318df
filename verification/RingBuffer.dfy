/**
 The bounded double-ended ring the hub's lanes are stored in, as a class over a
 fixed array, and the sequence operations it refines.
 */
module RingBuffers {
  import opened Basics

  // --- the sequence operations -------------------------------------------------

  /** Position of the first element `p` accepts, or |s| when there is none. */
  function FirstIndex<T>(s: seq<T>, p: T -> bool): (i: nat)
    ensures i <= |s|
    ensures i < |s| ==> p(s[i])
    ensures forall k :: 0 <= k < i ==> !p(s[k])
  {
    if s == [] then 0
    else if p(s[0]) then 0
    else
      var r := FirstIndex(s[1..], p);
      assert forall k :: 1 <= k < 1 + r ==> s[k] == s[1..][k - 1];
      1 + r
  }

  /** `s` with the element at `i` taken out and put at the head. */
  function MovedToFront<T>(s: seq<T>, i: nat): seq<T>
    requires i < |s|
  {
    [s[i]] + s[..i] + s[i + 1..]
  }

  /** The first accepted element at the head; `s` itself when nothing is accepted. */
  function MoveFirstIf<T>(s: seq<T>, p: T -> bool): seq<T> {
    var i := FirstIndex(s, p);
    if i < |s| then MovedToFront(s, i) else s
  }

  function Is<T(==)>(x: T): T -> bool {
    y => y == x
  }

  function MoveFirst<T(==)>(s: seq<T>, x: T): seq<T> {
    MoveFirstIf(s, Is(x))
  }

  lemma {:induction false} FirstIndexIs<T>(s: seq<T>, p: T -> bool, i: nat)
    requires i <= |s| && (i < |s| ==> p(s[i])) && forall k :: 0 <= k < i ==> !p(s[k])
    ensures FirstIndex(s, p) == i
  {}

  lemma FilterFirst<T>(s: seq<T>, p: T -> bool)
    requires s != []
    ensures Filter(s, p) == (if p(s[0]) then [s[0]] else []) + Filter(s[1..], p)
  {}

  lemma {:induction false} FilterConcat<T>(a: seq<T>, b: seq<T>, p: T -> bool)
    ensures Filter(a + b, p) == Filter(a, p) + Filter(b, p)
  {
    if a == [] {
      assert a + b == b;
    } else {
      FilterConcat(a[1..], b, p);
      assert (a + b)[1..] == a[1..] + b && (a + b)[0] == a[0];
      FilterFirst(a + b, p);
      FilterFirst(a, p);
      Regroup(if p(a[0]) then [a[0]] else [], Filter(a[1..], p), Filter(b, p));
    }
  }

  lemma Regroup<T>(a: seq<T>, b: seq<T>, c: seq<T>)
    ensures a + (b + c) == (a + b) + c
  {}

  lemma {:induction false} FilterNone<T>(s: seq<T>, p: T -> bool)
    requires forall k :: 0 <= k < |s| ==> !p(s[k])
    ensures Filter(s, p) == []
  {
    if s != [] {
      FilterNone(s[1..], p);
    }
  }

  /**
   Moving the first accepted element to the head loses nothing, duplicates nothing,
   and keeps the relative order of the accepted elements among themselves and of the
   rejected ones among themselves.
   */
  lemma MoveFirstIfKeepsOrder<T>(s: seq<T>, p: T -> bool, q: T -> bool)
    requires forall x :: x in s ==> q(x) == !p(x)
    ensures multiset(MoveFirstIf(s, p)) == multiset(s)
    ensures Filter(MoveFirstIf(s, p), p) == Filter(s, p)
    ensures Filter(MoveFirstIf(s, p), q) == Filter(s, q)
    ensures (exists x :: x in s && p(x)) ==> p(MoveFirstIf(s, p)[0])
  {
    var i := FirstIndex(s, p);
    if i < |s| {
      var a, x, b := s[..i], s[i], s[i + 1..];
      assert s == a + ([x] + b);
      FilterMoved(s, i, p);
      FilterMoved(s, i, q);
      FilterNone(a, p);
      FilterNone([x], q);
    }
  }

  /** Both orders of a split sequence, filtered piece by piece. */
  lemma FilterMoved<T>(s: seq<T>, i: nat, f: T -> bool)
    requires i < |s|
    ensures var a, x, b := s[..i], s[i], s[i + 1..];
            && Filter(s, f) == Filter(a, f) + (Filter([x], f) + Filter(b, f))
            && Filter(MovedToFront(s, i), f) == Filter([x], f) + (Filter(a, f) + Filter(b, f))
  {
    var a, x, b := s[..i], s[i], s[i + 1..];
    assert s == a + ([x] + b);
    assert MovedToFront(s, i) == [x] + (a + b);
    FilterConcat(a, [x] + b, f);
    FilterConcat([x], b, f);
    FilterConcat([x], a + b, f);
    FilterConcat(a, b, f);
  }

  /** Moving keeps a lane duplicate-free, with the same members and the same length. */
  lemma MoveFirstIfKeepsMembers<T(!new)>(s: seq<T>, p: T -> bool)
    ensures |MoveFirstIf(s, p)| == |s|
    ensures forall x :: x in MoveFirstIf(s, p) <==> x in s
    ensures NoDup(s) ==> NoDup(MoveFirstIf(s, p))
  {
    var i := FirstIndex(s, p);
    if i < |s| {
      MovedKeepsMembers(s, i);
      MovedKeepsNoDup(s, i);
    }
  }

  lemma MovedKeepsMembers<T(!new)>(s: seq<T>, i: nat)
    requires i < |s|
    ensures forall x :: x in MovedToFront(s, i) <==> x in s
  {
    forall x
      ensures x in MovedToFront(s, i) <==> x in s
    {
      assert s == s[..i] + [s[i]] + s[i + 1..];
    }
  }

  lemma MovedKeepsNoDup<T(!new)>(s: seq<T>, i: nat)
    requires i < |s|
    ensures NoDup(s) ==> NoDup(MovedToFront(s, i))
  {
    var m := MovedToFront(s, i);
    assert forall k :: 0 < k <= i ==> m[k] == s[k - 1];
    assert forall k :: i < k < |s| ==> m[k] == s[k];
  }

  /** A second move with the same predicate changes nothing. */
  lemma MoveFirstIfIdempotent<T>(s: seq<T>, p: T -> bool)
    ensures MoveFirstIf(MoveFirstIf(s, p), p) == MoveFirstIf(s, p)
  {
    var m := MoveFirstIf(s, p);
    if FirstIndex(s, p) < |s| {
      assert p(m[0]);
      assert FirstIndex(m, p) == 0;
      assert m[..0] == [];
    }
  }

  // --- the ring ------------------------------------------------------------------

  datatype ConsumeResult = Empty | Retained | Removed

  /** `s` while the elements ahead of `i` move back by one, those from `j` on already having moved. */
  ghost function Shifting<T>(s: seq<T>, j: nat, i: nat): seq<T>
    requires j <= i < |s|
  {
    s[..j + 1] + s[j..i] + s[i + 1..]
  }

  lemma ShiftsOne<T>(s: seq<T>, j: nat, i: nat)
    requires 0 < j <= i < |s|
    ensures |Shifting(s, j, i)| == |s| && Shifting(s, j, i)[j - 1] == s[j - 1]
    ensures Shifting(s, j, i)[j := s[j - 1]] == Shifting(s, j - 1, i)
  {}

  lemma ShiftsAll<T>(s: seq<T>, i: nat)
    requires i < |s|
    ensures Shifting(s, i, i) == s
    ensures Shifting(s, 0, i)[0 := s[i]] == MovedToFront(s, i)
  {}

  class RingBuffer<T(0, ==)> {
    var slots: array<T>
    var capacity: nat
    var head: nat
    var count: nat
    var initialized: bool

    ghost predicate Valid()
      reads this
    {
      && slots.Length == capacity
      && count <= capacity
      && (capacity == 0 ==> head == 0)
      && (capacity > 0 ==> head < capacity)
      && (!initialized ==> capacity == 0)
    }

    /** Slot of the element `offset` places behind the head, without division. */
    function Slot(offset: nat): (k: nat)
      requires Valid() && capacity > 0 && offset <= capacity
      reads this
      ensures k < capacity && (k == head + offset || k == head + offset - capacity)
    {
      var untilWrap := capacity - head;
      if offset >= untilWrap then offset - untilWrap else head + offset
    }

    ghost function Contents(): (s: seq<T>)
      requires Valid()
      reads this, slots
      ensures |s| == count
    {
      seq(count, k requires 0 <= k < count && Valid() reads this, slots => slots[Slot(k)])
    }

    constructor ()
      ensures Valid() && !initialized && Contents() == [] && fresh(slots)
    {
      slots := new T[0];
      capacity, head, count, initialized := 0, 0, 0, false;
    }

    /** One-shot sizing; `allocates` says whether the allocator can serve the request. */
    method Reserve(n: nat, allocates: bool) returns (ok: bool)
      requires Valid()
      modifies this
      ensures Valid()
      ensures ok == (!old(initialized) && (n == 0 || allocates))
      ensures ok ==> initialized && capacity == n && Contents() == [] && fresh(slots)
      ensures !ok ==> unchanged(this)
    {
      if initialized {
        return false;
      }
      if n != 0 && !allocates {
        return false;
      }
      slots := new T[n];
      capacity, head, count, initialized := n, 0, 0, true;
      return true;
    }

    method PushBack(x: T) returns (ok: bool)
      requires Valid()
      modifies this`count, slots
      ensures Valid()
      ensures ok == (|old(Contents())| < capacity)
      ensures Contents() == if ok then old(Contents()) + [x] else old(Contents())
    {
      if count == capacity {
        return false;
      }
      slots[Slot(count)] := x;
      count := count + 1;
      return true;
    }

    method PushFront(x: T) returns (ok: bool)
      requires Valid()
      modifies this`count, this`head, slots
      ensures Valid()
      ensures ok == (|old(Contents())| < capacity)
      ensures Contents() == if ok then [x] + old(Contents()) else old(Contents())
    {
      if count == capacity {
        return false;
      }
      head := if head == 0 then capacity - 1 else head - 1;
      slots[head] := x;
      count := count + 1;
      return true;
    }

    /** Overwrite the element `k` places behind the head. */
    method Overwrite(k: nat, x: T)
      requires Valid() && k < count
      modifies slots
      ensures Valid() && Contents() == old(Contents())[k := x]
    {
      assert forall j :: 0 <= j < count && j != k ==> Slot(j) != Slot(k);
      slots[Slot(k)] := x;
    }

    /** Shift the elements ahead of position `i` back by one and put `value` at the head. */
    method ShiftToFront(i: nat, value: T)
      requires Valid() && i < count && value == Contents()[i]
      modifies slots
      ensures Valid() && Contents() == MovedToFront(old(Contents()), i)
    {
      ghost var was := Contents();
      ShiftsAll(was, i);
      var j := i;
      while j > 0
        invariant 0 <= j <= i && Valid()
        invariant Contents() == Shifting(was, j, i)
      {
        ShiftsOne(was, j, i);
        assert slots[Slot(j - 1)] == Contents()[j - 1];
        Overwrite(j, slots[Slot(j - 1)]);
        j := j - 1;
      }
      Overwrite(0, value);
    }

    /** The first element equal to `x` moves to the head. */
    method MoveToFront(x: T) returns (found: bool)
      requires Valid()
      modifies slots
      ensures Valid()
      ensures found == (x in old(Contents()))
      ensures Contents() == MoveFirst(old(Contents()), x)
    {
      var i := 0;
      while i < count
        invariant 0 <= i <= count && Valid() && Contents() == old(Contents())
        invariant forall k :: 0 <= k < i ==> Contents()[k] != x
      {
        if slots[Slot(i)] == x {
          assert x == Contents()[i];
          FirstIndexIs(Contents(), Is(x), i);
          ShiftToFront(i, x);
          return true;
        }
        i := i + 1;
      }
      FirstIndexIs(Contents(), Is(x), count);
      return false;
    }

    /** The first element `p` accepts moves to the head. */
    method MoveFirstToFrontIf(p: T -> bool) returns (found: bool)
      requires Valid()
      modifies slots
      ensures Valid()
      ensures found == (exists x :: x in old(Contents()) && p(x))
      ensures Contents() == MoveFirstIf(old(Contents()), p)
    {
      var i := 0;
      while i < count
        invariant 0 <= i <= count && Valid() && Contents() == old(Contents())
        invariant forall k :: 0 <= k < i ==> !p(Contents()[k])
      {
        var value := slots[Slot(i)];
        if p(value) {
          assert value == Contents()[i] && FirstIndex(Contents(), p) == i;
          ShiftToFront(i, value);
          return true;
        }
        i := i + 1;
      }
      return false;
    }

    /** Copy of the head, without removing it. */
    method TryFront() returns (r: Option<T>)
      requires Valid()
      ensures r == if Contents() == [] then None else Some(Contents()[0])
    {
      if count == 0 {
        return None;
      }
      assert Slot(0) == head;
      return Some(slots[head]);
    }

    method TryPopFront() returns (r: Option<T>)
      requires Valid()
      modifies this`head, this`count
      ensures Valid()
      ensures old(Contents()) == [] ==> r == None && Contents() == []
      ensures old(Contents()) != [] ==> r == Some(old(Contents())[0]) && Contents() == old(Contents())[1..]
    {
      if count == 0 {
        return None;
      }
      ghost var was := Contents();
      assert Slot(0) == head;
      r := Some(slots[head]);
      head := Slot(1);
      count := count - 1;
      assert Contents() == was[1..];
    }

    /** Hand the head to `consumer`; remove it only when the consumer takes it. */
    method ConsumeFrontIf(consumer: T -> bool) returns (r: ConsumeResult)
      requires Valid()
      modifies this`head, this`count
      ensures Valid()
      ensures r == if old(Contents()) == [] then Empty
                   else if consumer(old(Contents())[0]) then Removed else Retained
      ensures Contents() == if r == Removed then old(Contents())[1..] else old(Contents())
    {
      if count == 0 {
        return Empty;
      }
      ghost var was := Contents();
      assert Slot(0) == head;
      var value := slots[head];
      if !consumer(value) {
        return Retained;
      }
      head := Slot(1);
      count := count - 1;
      assert Contents() == was[1..];
      return Removed;
    }
  }
}
