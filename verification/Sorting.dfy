/** Python's stable `sorted`, over an arbitrary total order, and what makes its result canonical. */
module Sorting {

  ghost predicate TotalPreorder<T(!new)>(le: (T, T) -> bool) {
    && (forall x, y :: le(x, y) || le(y, x))
    && (forall x, y, z :: le(x, y) && le(y, z) ==> le(x, z))
  }

  ghost predicate TotalOrder<T(!new)>(le: (T, T) -> bool) {
    && TotalPreorder(le)
    && (forall x, y :: le(x, y) && le(y, x) ==> x == y)
  }

  ghost predicate SortedBy<T>(s: seq<T>, le: (T, T) -> bool) {
    forall i, j :: 0 <= i < j < |s| ==> le(s[i], s[j])
  }

  function Insert<T>(x: T, s: seq<T>, le: (T, T) -> bool): (r: seq<T>)
    ensures multiset(r) == multiset(s) + multiset{x}
  {
    if s == [] then [x]
    else if le(x, s[0]) then [x] + s
    else
      assert s == [s[0]] + s[1..];
      [s[0]] + Insert(x, s[1..], le)
  }

  function Sort<T>(s: seq<T>, le: (T, T) -> bool): (r: seq<T>)
    ensures multiset(r) == multiset(s)
    ensures |r| == |s|
  {
    if s == [] then []
    else
      assert s == [s[0]] + s[1..];
      var r := Insert(s[0], Sort(s[1..], le), le);
      assert |multiset(r)| == |multiset(s)|;
      r
  }

  lemma SortMembers<T(!new)>(s: seq<T>, le: (T, T) -> bool)
    ensures forall x :: x in Sort(s, le) <==> x in s
  {
    assert forall x :: x in Sort(s, le) <==> x in multiset(Sort(s, le));
  }

  lemma {:induction false} InsertSorted<T(!new)>(x: T, s: seq<T>, le: (T, T) -> bool)
    requires TotalPreorder(le) && SortedBy(s, le)
    ensures SortedBy(Insert(x, s, le), le)
  {
    if s != [] && !le(x, s[0]) {
      InsertSorted(x, s[1..], le);
      var t := Insert(x, s[1..], le);
      forall j | 0 <= j < |t|
        ensures le(s[0], t[j])
      {
        assert t[j] in multiset(t);
        assert t[j] in multiset(s[1..]) || t[j] == x;
      }
    }
  }

  lemma {:induction false} SortSorted<T(!new)>(s: seq<T>, le: (T, T) -> bool)
    requires TotalPreorder(le)
    ensures SortedBy(Sort(s, le), le)
  {
    if s != [] {
      SortSorted(s[1..], le);
      InsertSorted(s[0], Sort(s[1..], le), le);
    }
  }

  /** No two different entries of `s` are equivalent. */
  ghost predicate AntisymmetricOn<T(!new)>(s: seq<T>, le: (T, T) -> bool) {
    forall x, y :: x in s && y in s && le(x, y) && le(y, x) ==> x == y
  }

  lemma SortedHeadsEqual<T(!new)>(a: seq<T>, b: seq<T>, le: (T, T) -> bool)
    requires TotalPreorder(le) && SortedBy(a, le) && SortedBy(b, le) && AntisymmetricOn(a, le)
    requires a != [] && b != [] && a[0] in b && b[0] in a
    ensures a[0] == b[0]
  {
    var i :| 0 <= i < |b| && b[i] == a[0];
    var j :| 0 <= j < |a| && a[j] == b[0];
    assert le(a[0], b[0]) by { assert j == 0 || le(a[0], a[j]); }
    assert le(b[0], a[0]) by { assert i == 0 || le(b[0], b[i]); }
  }

  /** A sorted list is determined by its elements, counted. */
  lemma {:induction false} SortedUnique<T(!new)>(a: seq<T>, b: seq<T>, le: (T, T) -> bool)
    requires TotalPreorder(le) && SortedBy(a, le) && SortedBy(b, le) && AntisymmetricOn(a, le)
    requires multiset(a) == multiset(b)
    ensures a == b
    decreases |a|
  {
    assert |a| == |multiset(a)| == |multiset(b)| == |b|;
    if a != [] {
      assert a[0] in multiset(b) && b[0] in multiset(a);
      SortedHeadsEqual(a, b, le);
      assert a == [a[0]] + a[1..] && b == [a[0]] + b[1..];
      assert multiset(a) == multiset{a[0]} + multiset(a[1..]);
      assert multiset(b) == multiset{a[0]} + multiset(b[1..]);
      assert multiset(a[1..]) == multiset(a) - multiset{a[0]};
      assert multiset(b[1..]) == multiset(b) - multiset{a[0]};
      SortedTails(a, le);
      SortedTails(b, le);
      SortedUnique(a[1..], b[1..], le);
    }
  }

  lemma SortedCons<T(!new)>(x: T, s: seq<T>, le: (T, T) -> bool)
    requires SortedBy(s, le) && forall y :: y in s ==> le(x, y)
    ensures SortedBy([x] + s, le)
  {
  }

  lemma SortedTails<T(!new)>(a: seq<T>, le: (T, T) -> bool)
    requires a != [] && SortedBy(a, le)
    ensures SortedBy(a[1..], le)
  {
  }

  /** `sorted(a) == sorted(b)` compares the two lists as multisets. */
  lemma SortCanonical<T(!new)>(a: seq<T>, b: seq<T>, le: (T, T) -> bool)
    requires TotalOrder(le)
    ensures Sort(a, le) == Sort(b, le) <==> multiset(a) == multiset(b)
  {
    SortSorted(a, le);
    SortSorted(b, le);
    if multiset(a) == multiset(b) {
      SortedUnique(Sort(a, le), Sort(b, le), le);
    }
  }

  /** The elements of `s` that satisfy `keep`, in order (a list comprehension with a condition). */
  function Filter<T(!new)>(s: seq<T>, keep: T -> bool): (r: seq<T>)
    ensures forall x :: x in r <==> x in s && keep(x)
    ensures |r| <= |s|
  {
    if s == [] then []
    else
      assert s == [s[0]] + s[1..];
      if keep(s[0]) then [s[0]] + Filter(s[1..], keep) else Filter(s[1..], keep)
  }

  lemma {:induction false} FilterSorted<T(!new)>(s: seq<T>, keep: T -> bool, le: (T, T) -> bool)
    requires SortedBy(s, le)
    ensures SortedBy(Filter(s, keep), le)
  {
    if s != [] {
      FilterSorted(s[1..], keep, le);
      var t := Filter(s[1..], keep);
      forall j | 0 <= j < |t|
        ensures le(s[0], t[j])
      {
        assert t[j] in s[1..];
      }
    }
  }

  ghost predicate NoDuplicates<T>(s: seq<T>) {
    forall i, j :: 0 <= i < j < |s| ==> s[i] != s[j]
  }

  lemma {:induction false} FilterNoDuplicates<T(!new)>(s: seq<T>, keep: T -> bool)
    requires NoDuplicates(s)
    ensures NoDuplicates(Filter(s, keep))
  {
    if s != [] {
      FilterNoDuplicates(s[1..], keep);
    }
  }

  /** A duplicate-free list has as many entries as it has distinct elements. */
  lemma {:induction false} NoDuplicatesCardinality<T>(s: seq<T>)
    requires NoDuplicates(s)
    ensures |set x | x in s| == |s|
  {
    if s != [] {
      NoDuplicatesCardinality(s[1..]);
      assert (set x | x in s) == {s[0]} + (set x | x in s[1..]);
      assert s[0] !in s[1..];
    }
  }

  lemma {:induction false} DistinctByCount<T(!new)>(s: seq<T>)
    ensures NoDuplicates(s) <==> forall t :: multiset(s)[t] <= 1
  {
    if s != [] {
      var head, rest := s[0], s[1..];
      assert s == [head] + rest;
      assert multiset(s) == multiset{head} + multiset(rest);
      DistinctByCount(rest);
      assert NoDuplicates(s) <==> NoDuplicates(rest) && head !in rest by {
        assert forall j :: 0 <= j < |rest| ==> s[j + 1] == rest[j];
      }
      assert head in rest <==> multiset(rest)[head] >= 1;
      if forall t :: multiset(s)[t] <= 1 {
        assert multiset(s)[head] == 1 + multiset(rest)[head];
        assert forall t :: multiset(rest)[t] <= multiset(s)[t];
      }
    }
  }

  lemma {:induction false} SameMembersSameCounts<T(!new)>(a: seq<T>, b: seq<T>)
    requires NoDuplicates(a) && NoDuplicates(b) && forall x :: x in a <==> x in b
    ensures multiset(a) == multiset(b)
  {
    DistinctByCount(a);
    DistinctByCount(b);
    forall x
      ensures multiset(a)[x] == multiset(b)[x]
    {
      assert x in a <==> x in multiset(a);
      assert x in b <==> x in multiset(b);
    }
  }

  lemma InsertDistinct<T(!new)>(x: T, s: seq<T>, le: (T, T) -> bool)
    requires NoDuplicates(s) && x !in s
    ensures NoDuplicates(Insert(x, s, le))
    ensures forall y :: y in Insert(x, s, le) <==> y in s || y == x
  {
    var r := Insert(x, s, le);
    DistinctByCount(s);
    DistinctByCount(r);
    assert forall y :: y in r <==> y in multiset(r);
  }

  // ----- Sorting a set -----

  ghost predicate IsLeast<T>(m: T, keys: set<T>, le: (T, T) -> bool) {
    m in keys && forall k :: k in keys ==> le(m, k)
  }

  lemma {:induction false} LeastExists<T(!new)>(keys: set<T>, le: (T, T) -> bool) returns (m: T)
    requires keys != {} && TotalOrder(le)
    ensures IsLeast(m, keys, le)
    decreases |keys|
  {
    var x :| x in keys;
    m := x;
    if keys != {x} {
      var rest := keys - {x};
      assert keys == rest + {x} && rest != {};
      var least := LeastExists(rest, le);
      m := if le(least, x) then least else x;
    } else {
      assert forall k :: k in keys ==> k == x;
    }
  }

  function Least<T(!new)>(keys: set<T>, le: (T, T) -> bool): (m: T)
    requires keys != {} && TotalOrder(le)
    ensures IsLeast(m, keys, le)
  {
    assert exists m :: m in keys && forall k :: k in keys ==> le(m, k) by {
      var m := LeastExists(keys, le);
    }
    var m :| m in keys && forall k :: k in keys ==> le(m, k);
    m
  }

  /** `sorted(keys)` */
  function SortedSet<T(!new)>(keys: set<T>, le: (T, T) -> bool): (r: seq<T>)
    requires TotalOrder(le)
    ensures NoDuplicates(r) && forall k :: k in r <==> k in keys
    decreases |keys|
  {
    if keys == {} then [] else [Least(keys, le)] + SortedSet(keys - {Least(keys, le)}, le)
  }

  lemma {:induction false} SortedSetIsSorted<T(!new)>(keys: set<T>, le: (T, T) -> bool)
    requires TotalOrder(le)
    ensures SortedBy(SortedSet(keys, le), le)
    decreases |keys|
  {
    if keys != {} {
      SortedSetIsSorted(keys - {Least(keys, le)}, le);
    }
  }
}
