/** Mapping and folding over lists, and what does not depend on their order. */
module Sequences {
  import opened Sorting

  /** The results of `f` on each entry, end to end (nested comprehension). */
  function Flatten<T, U>(xs: seq<T>, f: T -> seq<U>): seq<U> {
    if xs == [] then [] else f(xs[0]) + Flatten(xs[1..], f)
  }

  lemma FlattenCons<T, U>(y: T, xs: seq<T>, f: T -> seq<U>)
    ensures Flatten([y] + xs, f) == f(y) + Flatten(xs, f)
  {
    assert ([y] + xs)[1..] == xs;
  }

  lemma {:induction false} FlattenConcat<T, U>(a: seq<T>, b: seq<T>, f: T -> seq<U>)
    ensures Flatten(a + b, f) == Flatten(a, f) + Flatten(b, f)
  {
    if a == [] {
      assert a + b == b;
    } else {
      FlattenConcat(a[1..], b, f);
      FlattenCons(a[0], a[1..] + b, f);
      assert a + b == [a[0]] + (a[1..] + b);
    }
  }

  lemma FlattenNext<T, U>(xs: seq<T>, x: T, f: T -> seq<U>)
    ensures Flatten(xs + [x], f) == Flatten(xs, f) + f(x)
  {
    FlattenConcat(xs, [x], f);
    assert Flatten([x], f) == f(x);
  }

  /** One turn of a loop over the list. */
  lemma FlattenStep<T, U>(xs: seq<T>, i: nat, f: T -> seq<U>)
    requires i < |xs|
    ensures Flatten(xs[..i + 1], f) == Flatten(xs[..i], f) + f(xs[i])
  {
    assert xs[..i + 1] == xs[..i] + [xs[i]];
    FlattenNext(xs[..i], xs[i], f);
  }

  lemma FlattenWhole<T, U>(xs: seq<T>, f: T -> seq<U>)
    ensures Flatten(xs[..|xs|], f) == Flatten(xs, f)
  {
    assert xs[..|xs|] == xs;
  }

  lemma ConcatEmpty<T>(a: seq<T>, b: seq<T>, c: seq<T>)
    ensures a + b + c == [] <==> a == [] && b == [] && c == []
  {
  }

  lemma {:induction false} FlattenEmpty<T(!new), U>(xs: seq<T>, f: T -> seq<U>)
    ensures Flatten(xs, f) == [] <==> forall x :: x in xs ==> f(x) == []
  {
    if xs != [] {
      FlattenEmpty(xs[1..], f);
      assert xs == [xs[0]] + xs[1..];
      assert forall x :: x in xs <==> x == xs[0] || x in xs[1..];
    }
  }

  /** Two rearrangements of one list: the last entry of one, cut out of the other. */
  lemma CutOut<T(!new)>(a: seq<T>, b: seq<T>) returns (j: nat)
    requires a != [] && multiset(a) == multiset(b)
    ensures j < |b| && b[j] == a[|a| - 1]
    ensures multiset(a[..|a| - 1]) == multiset(b[..j] + b[j + 1..])
  {
    var init, last := a[..|a| - 1], a[|a| - 1];
    assert a == init + [last];
    assert last in multiset(b);
    j :| 0 <= j < |b| && b[j] == last;
    assert b == b[..j] + [last] + b[j + 1..];
    assert multiset(b) == multiset(b[..j] + b[j + 1..]) + multiset{last};
    assert multiset(init) == multiset(a) - multiset{last};
  }

  lemma FlattenInserted<T, U>(all: seq<T>, left: seq<T>, right: seq<T>, x: T, f: T -> seq<U>)
    requires multiset(Flatten(all, f)) == multiset(Flatten(left + right, f))
    ensures multiset(Flatten(all + [x], f)) == multiset(Flatten(left + [x] + right, f))
  {
    FlattenNext(all, x, f);
    FlattenConcat(left, right, f);
    FlattenConcat(left + [x], right, f);
    FlattenNext(left, x, f);
  }

  /** Rearranging the list rearranges the flattened list. */
  lemma {:induction false} FlattenPermute<T(!new), U>(a: seq<T>, b: seq<T>, f: T -> seq<U>)
    requires multiset(a) == multiset(b)
    ensures multiset(Flatten(a, f)) == multiset(Flatten(b, f))
    decreases |a|
  {
    assert |multiset(a)| == |a| && |multiset(b)| == |b|;
    if a != [] {
      var init, last := a[..|a| - 1], a[|a| - 1];
      var j := CutOut(a, b);
      FlattenPermute(init, b[..j] + b[j + 1..], f);
      FlattenInserted(init, b[..j], b[j + 1..], last, f);
      assert a == init + [last] && b == b[..j] + [last] + b[j + 1..];
    }
  }

  function Then<T, U, V>(f: T -> seq<U>, g: U -> seq<V>): T -> seq<V> {
    x => Flatten(f(x), g)
  }

  /** Two nested comprehensions are one. */
  lemma {:induction false} FlattenTwice<T, U, V>(xs: seq<T>, f: T -> seq<U>, g: U -> seq<V>)
    ensures Flatten(Flatten(xs, f), g) == Flatten(xs, Then(f, g))
  {
    if xs != [] {
      FlattenTwice(xs[1..], f, g);
      FlattenConcat(f(xs[0]), Flatten(xs[1..], f), g);
    }
  }

  /** What each entry contributes matters only up to order. */
  lemma {:induction false} FlattenSame<T, U>(xs: seq<T>, f: T -> seq<U>, g: T -> seq<U>)
    requires forall i :: 0 <= i < |xs| ==> multiset(f(xs[i])) == multiset(g(xs[i]))
    ensures multiset(Flatten(xs, f)) == multiset(Flatten(xs, g))
  {
    if xs != [] {
      FlattenSame(xs[1..], f, g);
    }
  }

  // ----- Every two entries -----

  function With<T, U>(g: (T, T) -> seq<U>, x: T): T -> seq<U> {
    y => g(x, y)
  }

  /** The results of `g` on every entry and each later one. */
  function OverPairs<T, U>(xs: seq<T>, g: (T, T) -> seq<U>): seq<U> {
    if xs == [] then [] else Flatten(xs[1..], With(g, xs[0])) + OverPairs(xs[1..], g)
  }

  ghost predicate Symmetric<T(!new), U>(g: (T, T) -> seq<U>) {
    forall x, y :: g(x, y) == g(y, x)
  }

  lemma WithOneMore<T(!new), U>(left: seq<T>, x: T, right: seq<T>, g: (T, T) -> seq<U>, y: T)
    ensures multiset(Flatten(left + [x] + right, With(g, y))) ==
            multiset(g(y, x)) + multiset(Flatten(left + right, With(g, y)))
  {
    FlattenConcat(left + [x], right, With(g, y));
    FlattenNext(left, x, With(g, y));
    FlattenConcat(left, right, With(g, y));
  }

  lemma OverPairsCons<T, U>(y: T, xs: seq<T>, g: (T, T) -> seq<U>)
    ensures OverPairs([y] + xs, g) == Flatten(xs, With(g, y)) + OverPairs(xs, g)
  {
    assert ([y] + xs)[1..] == xs;
  }

  lemma PullStep<T(!new), U>(y: T, more: seq<T>, fewer: seq<T>, x: T, g: (T, T) -> seq<U>)
    requires g(x, y) == g(y, x)
    requires multiset(Flatten(more, With(g, y))) == multiset(g(y, x)) + multiset(Flatten(fewer, With(g, y)))
    requires multiset(OverPairs(more, g)) == multiset(Flatten(fewer, With(g, x))) + multiset(OverPairs(fewer, g))
    ensures multiset(OverPairs([y] + more, g)) ==
            multiset(Flatten([y] + fewer, With(g, x))) + multiset(OverPairs([y] + fewer, g))
  {
    OverPairsCons(y, more, g);
    OverPairsCons(y, fewer, g);
    FlattenCons(y, fewer, With(g, x));
  }

  lemma Regroup<T>(left: seq<T>, x: T, right: seq<T>)
    ensures left == [] ==> left + [x] + right == [x] + right && left + right == right
    ensures left != [] ==> left + [x] + right == [left[0]] + (left[1..] + [x] + right)
                           && left + right == [left[0]] + (left[1..] + right)
  {
  }

  ghost predicate PullsOut<T(!new), U>(all: seq<T>, x: T, rest: seq<T>, g: (T, T) -> seq<U>) {
    multiset(OverPairs(all, g)) == multiset(Flatten(rest, With(g, x))) + multiset(OverPairs(rest, g))
  }

  lemma PullBelow<T(!new), U>(y: T, left: seq<T>, x: T, right: seq<T>, g: (T, T) -> seq<U>)
    requires Symmetric(g) && PullsOut(left + [x] + right, x, left + right, g)
    ensures PullsOut([y] + (left + [x] + right), x, [y] + (left + right), g)
  {
    WithOneMore(left, x, right, g, y);
    PullStep(y, left + [x] + right, left + right, x, g);
  }

  /** An entry in the middle may be taken first. */
  lemma {:induction false} PairsPullOut<T(!new), U>(left: seq<T>, x: T, right: seq<T>, g: (T, T) -> seq<U>)
    requires Symmetric(g)
    ensures PullsOut(left + [x] + right, x, left + right, g)
  {
    Regroup(left, x, right);
    if left == [] {
      OverPairsCons(x, right, g);
    } else {
      PairsPullOut(left[1..], x, right, g);
      PullBelow(left[0], left[1..], x, right, g);
    }
  }

  ghost predicate SamePairs<T(!new), U>(a: seq<T>, b: seq<T>, g: (T, T) -> seq<U>) {
    multiset(OverPairs(a, g)) == multiset(OverPairs(b, g))
  }

  lemma PairsInserted<T(!new), U>(all: seq<T>, left: seq<T>, right: seq<T>, x: T, g: (T, T) -> seq<U>)
    requires Symmetric(g) && multiset(all) == multiset(left + right)
    requires SamePairs(all, left + right, g)
    ensures SamePairs(all + [x], left + [x] + right, g)
  {
    FlattenPermute(all, left + right, With(g, x));
    PairsPullOut(all, x, [], g);
    PairsPullOut(left, x, right, g);
    assert all + [x] + [] == all + [x] && all + [] == all;
  }

  /** Rearranging the list rearranges the pairs. */
  lemma {:induction false} PairsPermute<T(!new), U>(a: seq<T>, b: seq<T>, g: (T, T) -> seq<U>)
    requires Symmetric(g) && multiset(a) == multiset(b)
    ensures SamePairs(a, b, g)
    decreases |a|
  {
    assert |multiset(a)| == |a| && |multiset(b)| == |b|;
    if a != [] {
      var init, last := a[..|a| - 1], a[|a| - 1];
      var j := CutOut(a, b);
      PairsPermute(init, b[..j] + b[j + 1..], g);
      PairsInserted(init, b[..j], b[j + 1..], last, g);
      assert a == init + [last] && b == b[..j] + [last] + b[j + 1..];
    }
  }

  /** A loop that carries a state through the list. */
  function Fold<S, T>(f: (S, T) -> S, start: S, xs: seq<T>): S {
    if xs == [] then start else f(Fold(f, start, xs[..|xs| - 1]), xs[|xs| - 1])
  }

  lemma FoldSnoc<S, T>(f: (S, T) -> S, start: S, xs: seq<T>, x: T)
    ensures Fold(f, start, xs + [x]) == f(Fold(f, start, xs), x)
  {
    assert (xs + [x])[..|xs|] == xs;
  }

  lemma FoldNext<S, T>(f: (S, T) -> S, start: S, xs: seq<T>, i: nat)
    requires i < |xs|
    ensures Fold(f, start, xs[..i + 1]) == f(Fold(f, start, xs[..i]), xs[i])
  {
    assert xs[..i + 1] == xs[..i] + [xs[i]];
    FoldSnoc(f, start, xs[..i], xs[i]);
  }

  lemma {:induction false} FoldConcat<S, T>(f: (S, T) -> S, start: S, xs: seq<T>, ys: seq<T>)
    ensures Fold(f, start, xs + ys) == Fold(f, Fold(f, start, xs), ys)
  {
    if ys == [] {
      assert xs + ys == xs;
    } else {
      var init, last := ys[..|ys| - 1], ys[|ys| - 1];
      FoldConcat(f, start, xs, init);
      FoldSnoc(f, start, xs + init, last);
      assert xs + ys == (xs + init) + [last];
    }
  }

  // ----- Slices -----

  /** `s[:n]` */
  function Take<T>(s: seq<T>, n: nat): (r: seq<T>)
    ensures |r| <= n && r <= s
  {
    if |s| <= n then s else s[..n]
  }

  /** `s[n:]` */
  function Drop<T>(s: seq<T>, n: nat): seq<T> {
    if |s| <= n then [] else s[n..]
  }

  // ----- Counting -----

  function Kept<T>(keep: T -> bool): T -> seq<T> {
    x => if keep(x) then [x] else []
  }

  lemma {:induction false} FilterIsFlatten<T(!new)>(s: seq<T>, keep: T -> bool)
    ensures Filter(s, keep) == Flatten(s, Kept(keep))
  {
    if s != [] {
      FilterIsFlatten(s[1..], keep);
    }
  }

  lemma FilterConcat<T(!new)>(a: seq<T>, b: seq<T>, keep: T -> bool)
    ensures Filter(a + b, keep) == Filter(a, keep) + Filter(b, keep)
  {
    FilterIsFlatten(a, keep);
    FilterIsFlatten(b, keep);
    FilterIsFlatten(a + b, keep);
    FlattenConcat(a, b, Kept(keep));
  }

  lemma FilterPermute<T(!new)>(a: seq<T>, b: seq<T>, keep: T -> bool)
    requires multiset(a) == multiset(b)
    ensures multiset(Filter(a, keep)) == multiset(Filter(b, keep))
    ensures |Filter(a, keep)| == |Filter(b, keep)|
  {
    FilterIsFlatten(a, keep);
    FilterIsFlatten(b, keep);
    FlattenPermute(a, b, Kept(keep));
    assert |multiset(Filter(a, keep))| == |multiset(Filter(b, keep))|;
  }

  lemma {:induction false} FilterMonotone<T(!new)>(s: seq<T>, p: T -> bool, q: T -> bool)
    requires forall x :: x in s && p(x) ==> q(x)
    ensures |Filter(s, p)| <= |Filter(s, q)|
  {
    if s != [] {
      FilterMonotone(s[1..], p, q);
    }
  }

  /** One entry more satisfies the weaker condition. */
  lemma {:induction false} FilterStrict<T(!new)>(s: seq<T>, p: T -> bool, q: T -> bool, x: T)
    requires forall y :: y in s && p(y) ==> q(y)
    requires x in s && q(x) && !p(x)
    ensures |Filter(s, p)| < |Filter(s, q)|
  {
    if s[0] == x {
      FilterMonotone(s[1..], p, q);
    } else {
      FilterStrict(s[1..], p, q, x);
    }
  }

  lemma {:induction false} FilterSame<T(!new)>(s: seq<T>, p: T -> bool, q: T -> bool)
    requires forall x :: x in s ==> p(x) == q(x)
    ensures Filter(s, p) == Filter(s, q)
  {
    if s != [] {
      FilterSame(s[1..], p, q);
    }
  }

  lemma FilterSnoc<T(!new)>(s: seq<T>, i: nat, p: T -> bool)
    requires i < |s|
    ensures Filter(s[..i + 1], p) == Filter(s[..i], p) + (if p(s[i]) then [s[i]] else [])
  {
    assert s[..i + 1] == s[..i] + [s[i]];
    FilterConcat(s[..i], [s[i]], p);
  }

  /** What is kept and what is dropped make up the whole. */
  lemma {:induction false} FilterComplement<T(!new)>(s: seq<T>, p: T -> bool, q: T -> bool)
    requires forall x :: x in s ==> p(x) != q(x)
    ensures |Filter(s, p)| + |Filter(s, q)| == |s|
  {
    if s != [] {
      FilterComplement(s[1..], p, q);
    }
  }

  lemma {:induction false} FilterCommute<T(!new)>(s: seq<T>, p: T -> bool, q: T -> bool)
    ensures Filter(Filter(s, p), q) == Filter(Filter(s, q), p)
  {
    if s != [] {
      FilterCommute(s[1..], p, q);
    }
  }

  /** A weaker condition first changes nothing. */
  lemma {:induction false} FilterAbsorbs<T(!new)>(s: seq<T>, weak: T -> bool, strong: T -> bool)
    requires forall x :: x in s && strong(x) ==> weak(x)
    ensures Filter(Filter(s, weak), strong) == Filter(s, strong)
  {
    if s != [] {
      FilterAbsorbs(s[1..], weak, strong);
    }
  }

  lemma {:induction false} FilterAll<T(!new)>(s: seq<T>, p: T -> bool)
    requires forall x :: x in s ==> p(x)
    ensures Filter(s, p) == s
  {
    if s != [] {
      FilterAll(s[1..], p);
    }
  }

  lemma {:induction false} FilterNone<T(!new)>(s: seq<T>, p: T -> bool)
    requires forall x :: x in s ==> !p(x)
    ensures Filter(s, p) == []
  {
    if s != [] {
      FilterNone(s[1..], p);
    }
  }

  /** Only the first `n` entries can satisfy the condition. */
  lemma FilterWithinPrefix<T(!new)>(s: seq<T>, n: nat, p: T -> bool)
    requires n <= |s| && forall x :: x in s[n..] ==> !p(x)
    ensures |Filter(s, p)| <= n
  {
    assert s == s[..n] + s[n..];
    FilterConcat(s[..n], s[n..], p);
    FilterNone(s[n..], p);
  }

  /** A condition that the first `n` entries satisfy does not change them. */
  lemma FilterKeepsPrefix<T(!new)>(s: seq<T>, n: nat, p: T -> bool)
    requires forall x :: x in Take(s, n) ==> p(x)
    ensures Take(Filter(s, p), n) == Take(s, n)
  {
    FilterAll(Take(s, n), p);
    if n < |s| {
      assert s == s[..n] + s[n..];
      FilterConcat(s[..n], s[n..], p);
    }
  }

  /** Sorting what is left is leaving out from what is sorted. */
  lemma SortAfterFilter<T(!new)>(s: seq<T>, p: T -> bool, le: (T, T) -> bool)
    requires TotalPreorder(le) && AntisymmetricOn(s, le)
    ensures Sort(Filter(s, p), le) == Filter(Sort(s, le), p)
  {
    SortSorted(s, le);
    SortSorted(Filter(s, p), le);
    FilterSorted(Sort(s, le), p, le);
    FilterPermute(Sort(s, le), s, p);
    var r := Sort(Filter(s, p), le);
    assert forall x :: x in r <==> x in multiset(r);
    SortedUnique(r, Filter(Sort(s, le), p), le);
  }

  /** Where two conditions agree on a prefix and the second fails beyond it, they count the same. */
  lemma CountOnPrefix<T(!new)>(s: seq<T>, n: nat, p: T -> bool, q: T -> bool)
    requires n <= |s|
    requires forall i :: 0 <= i < n ==> p(s[i]) == q(s[i])
    requires forall i :: n <= i < |s| ==> !q(s[i])
    ensures |Filter(s[..n], p)| == |Filter(s, q)|
  {
    FilterSame(s[..n], p, q);
    assert s == s[..n] + s[n..];
    FilterConcat(s[..n], s[n..], q);
    FilterNone(s[n..], q);
  }

  /** A list that grows entry by entry stays within the whole. */
  lemma GrowsWithin<T>(start: seq<T>, all: seq<T>, i: nat)
    requires i <= |all|
    ensures start <= start + all[..i] <= start + all
    ensures i < |all| ==> start + all[..i + 1] == (start + all[..i]) + [all[i]]
  {
    assert start + all == (start + all[..i]) + all[i..];
  }
}
