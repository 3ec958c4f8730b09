/** Filters, sums and subsequences over `seq`, all recursing on the last element so that they
    line up with loops that append. */
module Seqs {
  function Filter<T>(s: seq<T>, p: T -> bool): seq<T> {
    if s == [] then []
    else
      var front := Filter(s[..|s| - 1], p);
      if p(s[|s| - 1]) then front + [s[|s| - 1]] else front
  }

  function Map<T, R>(s: seq<T>, f: T -> R): (r: seq<R>)
    ensures |r| == |s| && forall i :: 0 <= i < |s| ==> r[i] == f(s[i])
  {
    seq(|s|, i requires 0 <= i < |s| => f(s[i]))
  }

  function Sum<T>(s: seq<T>, f: T -> real): real {
    if s == [] then 0.0 else Sum(s[..|s| - 1], f) + f(s[|s| - 1])
  }

  /** Python's `s[:n]` for a non-negative n. */
  function Take<T>(s: seq<T>, n: nat): seq<T> {
    if n <= |s| then s[..n] else s
  }

  /** Python's `s[-n:]` for a positive n. */
  function Last<T>(s: seq<T>, n: nat): seq<T> {
    if n <= |s| then s[|s| - n..] else s
  }

  /** `range(n)`. */
  function Range(n: nat): (r: seq<nat>)
    ensures |r| == n && forall i :: 0 <= i < n ==> r[i] == i
  {
    seq(n, i requires 0 <= i < n => i)
  }

  lemma RangeContains(n: nat)
    ensures forall x: nat :: x in Range(n) <==> x < n
    ensures Distinct(Range(n))
  {
    forall x: nat | x < n ensures x in Range(n) {
      assert Range(n)[x] == x;
    }
  }

  ghost predicate Distinct<T>(s: seq<T>) {
    forall i, j :: 0 <= i < j < |s| ==> s[i] != s[j]
  }

  ghost function ToSet<T>(s: seq<T>): set<T> {
    set x | x in s
  }

  /** `a` can be had from `b` by deleting elements. */
  ghost predicate Subsequence<T>(a: seq<T>, b: seq<T>) {
    if a == [] then true
    else if b == [] then false
    else if a[|a| - 1] == b[|b| - 1] && Subsequence(a[..|a| - 1], b[..|b| - 1]) then true
    else Subsequence(a, b[..|b| - 1])
  }

  lemma FilterSnoc<T>(s: seq<T>, x: T, p: T -> bool)
    ensures Filter(s + [x], p) == Filter(s, p) + (if p(x) then [x] else [])
  {
    assert (s + [x])[..|s|] == s;
  }

  lemma NoneKept<T>(p: T -> bool)
    ensures Filter([], p) == []
  {
  }

  lemma FilterNext<T>(s: seq<T>, i: nat, p: T -> bool)
    requires i < |s|
    ensures Filter(s[..i + 1], p) == Filter(s[..i], p) + (if p(s[i]) then [s[i]] else [])
  {
    FilterSnoc(s[..i], s[i], p);
    assert s[..i + 1] == s[..i] + [s[i]];
  }

  lemma {:induction false} FilterConcat<T>(a: seq<T>, b: seq<T>, p: T -> bool)
    ensures Filter(a + b, p) == Filter(a, p) + Filter(b, p)
  {
    if b == [] {
      assert a + b == a;
    } else {
      var front := b[..|b| - 1];
      FilterConcat(a, front, p);
      assert a + b == (a + front) + [b[|b| - 1]];
      FilterSnoc(a + front, b[|b| - 1], p);
    }
  }

  lemma {:induction false} FilterContains<T>(s: seq<T>, p: T -> bool)
    ensures forall x :: x in Filter(s, p) <==> x in s && p(x)
    ensures |Filter(s, p)| <= |s|
  {
    if s != [] {
      FilterContains(s[..|s| - 1], p);
      assert s == s[..|s| - 1] + [s[|s| - 1]];
    }
  }

  lemma {:induction false} FilterSame<T>(s: seq<T>, p: T -> bool, q: T -> bool)
    requires forall x :: x in s ==> p(x) == q(x)
    ensures Filter(s, p) == Filter(s, q)
  {
    if s != [] {
      FilterSame(s[..|s| - 1], p, q);
    }
  }

  lemma {:induction false} FilterNone<T>(s: seq<T>, p: T -> bool)
    requires forall x :: x in s ==> !p(x)
    ensures Filter(s, p) == []
  {
    if s != [] {
      FilterNone(s[..|s| - 1], p);
    }
  }

  lemma {:induction false} FilterAll<T>(s: seq<T>, p: T -> bool)
    requires forall x :: x in s ==> p(x)
    ensures Filter(s, p) == s
  {
    if s != [] {
      FilterAll(s[..|s| - 1], p);
      assert s == s[..|s| - 1] + [s[|s| - 1]];
    }
  }

  lemma {:induction false} FilterFilter<T>(s: seq<T>, p: T -> bool, q: T -> bool, both: T -> bool)
    requires forall x :: x in s ==> (both(x) <==> p(x) && q(x))
    ensures Filter(Filter(s, p), q) == Filter(s, both)
  {
    if s != [] {
      FilterFilter(s[..|s| - 1], p, q, both);
      if p(s[|s| - 1]) {
        FilterSnoc(Filter(s[..|s| - 1], p), s[|s| - 1], q);
      }
    }
  }

  lemma {:induction false} FilterMultiset<T>(s: seq<T>, p: T -> bool)
    ensures forall x :: multiset(Filter(s, p))[x] == if p(x) then multiset(s)[x] else 0
  {
    if s != [] {
      FilterMultiset(s[..|s| - 1], p);
      assert s == s[..|s| - 1] + [s[|s| - 1]];
    }
  }

  lemma {:induction false} FilterDistinct<T>(s: seq<T>, p: T -> bool)
    requires Distinct(s)
    ensures Distinct(Filter(s, p))
  {
    if s != [] {
      var front := s[..|s| - 1];
      FilterDistinct(front, p);
      FilterContains(front, p);
      assert s[|s| - 1] !in front;
    }
  }

  lemma {:induction false} SumConcat<T>(a: seq<T>, b: seq<T>, f: T -> real)
    ensures Sum(a + b, f) == Sum(a, f) + Sum(b, f)
  {
    if b == [] {
      assert a + b == a;
    } else {
      SumConcat(a, b[..|b| - 1], f);
      assert (a + b)[..|a + b| - 1] == a + b[..|b| - 1];
    }
  }

  lemma {:induction false} SumSame<T>(s: seq<T>, f: T -> real, g: T -> real)
    requires forall x :: x in s ==> f(x) == g(x)
    ensures Sum(s, f) == Sum(s, g)
  {
    if s != [] {
      SumSame(s[..|s| - 1], f, g);
    }
  }

  lemma {:induction false} SumAdd<T>(s: seq<T>, f: T -> real, g: T -> real, h: T -> real)
    requires forall x :: x in s ==> h(x) == f(x) + g(x)
    ensures Sum(s, h) == Sum(s, f) + Sum(s, g)
  {
    if s != [] {
      SumAdd(s[..|s| - 1], f, g, h);
    }
  }

  lemma {:induction false} SumScale<T>(s: seq<T>, c: real, f: T -> real, h: T -> real)
    requires forall x :: x in s ==> h(x) == c * f(x)
    ensures Sum(s, h) == c * Sum(s, f)
  {
    if s != [] {
      SumScale(s[..|s| - 1], c, f, h);
    }
  }

  lemma {:induction false} SumNonNegative<T>(s: seq<T>, f: T -> real)
    requires forall x :: x in s ==> f(x) >= 0.0
    ensures Sum(s, f) >= 0.0
    ensures Sum(s, f) == 0.0 <==> forall x :: x in s ==> f(x) == 0.0
  {
    if s != [] {
      SumNonNegative(s[..|s| - 1], f);
      assert s == s[..|s| - 1] + [s[|s| - 1]];
    }
  }

  lemma {:induction false} SubsequenceRefl<T>(a: seq<T>)
    ensures Subsequence(a, a)
  {
    if a != [] {
      SubsequenceRefl(a[..|a| - 1]);
    }
  }

  lemma {:induction false} SubsequenceAppend<T>(a: seq<T>, b: seq<T>, c: seq<T>)
    requires Subsequence(a, b)
    ensures Subsequence(a, b + c)
  {
    if c == [] {
      assert b + c == b;
    } else if a != [] {
      SubsequenceAppend(a, b, c[..|c| - 1]);
      assert (b + c)[..|b + c| - 1] == b + c[..|c| - 1];
    }
  }

  /** A duplicate-free sequence is as long as its set of elements. */
  lemma {:induction false} DistinctSize<T>(s: seq<T>)
    requires Distinct(s)
    ensures |ToSet(s)| == |s|
  {
    if s != [] {
      DistinctSize(s[..|s| - 1]);
      assert s == s[..|s| - 1] + [s[|s| - 1]];
      assert ToSet(s) == ToSet(s[..|s| - 1]) + {s[|s| - 1]};
    }
  }

  lemma {:induction false} SubsetSize<T>(a: set<T>, b: set<T>)
    requires a <= b
    ensures |a| <= |b|
  {
    if a != {} {
      var x :| x in a;
      SubsetSize(a - {x}, b - {x});
    }
  }

  /** A duplicate-free sequence over the same elements as another has the same length. */
  lemma SameElementsSameSize<T>(a: seq<T>, b: seq<T>)
    requires Distinct(a) && Distinct(b) && forall x :: x in a <==> x in b
    ensures |a| == |b|
  {
    assert ToSet(a) == ToSet(b);
    DistinctSize(a);
    DistinctSize(b);
  }

  /** Counting either of two tests that exclude each other adds up. */
  lemma {:induction false} FilterUnion<T>(s: seq<T>, p: T -> bool, q: T -> bool, r: T -> bool)
    requires forall x :: x in s ==> !(p(x) && q(x)) && (r(x) <==> p(x) || q(x))
    ensures |Filter(s, r)| == |Filter(s, p)| + |Filter(s, q)|
  {
    if s != [] {
      FilterUnion(s[..|s| - 1], p, q, r);
    }
  }

  lemma MapPrefix<T, R>(a: seq<T>, b: seq<T>, f: T -> R, g: T -> R)
    requires a <= b && forall x :: x in a ==> f(x) == g(x)
    ensures Map(a, f) <= Map(b, g)
  {
    forall i | 0 <= i < |a| ensures Map(a, f)[i] == Map(b, g)[i] {
      assert a[i] in a;
    }
  }

  lemma {:induction false} SumFilterSplit<T>(s: seq<T>, p: T -> bool, q: T -> bool, f: T -> real)
    requires forall x :: x in s ==> (q(x) <==> !p(x))
    ensures Sum(s, f) == Sum(Filter(s, p), f) + Sum(Filter(s, q), f)
  {
    if s != [] {
      var front, last := s[..|s| - 1], s[|s| - 1];
      SumFilterSplit(front, p, q, f);
      SumConcat(Filter(front, p), [last], f);
      SumConcat(Filter(front, q), [last], f);
      assert [last][..0] == [];
      assert last in s;
    }
  }

  lemma SumOne<T>(x: T, f: T -> real)
    ensures Sum([x], f) == f(x)
  {
    assert [x][..0] == [];
  }

  lemma SumInsert<T>(a: seq<T>, x: T, b: seq<T>, f: T -> real)
    ensures Sum(a + [x] + b, f) == Sum(a + b, f) + f(x)
  {
    SumConcat(a, [x], f);
    SumConcat(a + [x], b, f);
    SumConcat(a, b, f);
    assert [x][..0] == [];
  }

  /** Where a reordering has the last element. */
  lemma TakenOut<T>(a: seq<T>, b: seq<T>) returns (before: seq<T>, after: seq<T>)
    requires multiset(a) == multiset(b) && a != []
    ensures b == before + [a[|a| - 1]] + after
    ensures multiset(a[..|a| - 1]) == multiset(before + after)
  {
    var front, last := a[..|a| - 1], a[|a| - 1];
    assert a == front + [last];
    assert last in multiset(b);
    var i :| 0 <= i < |b| && b[i] == last;
    before, after := b[..i], b[i + 1..];
    assert b == before + [last] + after;
    assert multiset(front) == multiset(a) - multiset{last};
    assert multiset(before + after) == multiset(b) - multiset{last};
  }

  /** Reordering does not change a sum. */
  lemma {:induction false} SumReordered<T>(a: seq<T>, b: seq<T>, f: T -> real)
    requires multiset(a) == multiset(b)
    ensures Sum(a, f) == Sum(b, f)
  {
    if a == [] {
      assert |multiset(b)| == 0;
    } else {
      var front, last := a[..|a| - 1], a[|a| - 1];
      var before, after := TakenOut(a, b);
      SumReordered(front, before + after, f);
      SumInsert(before, last, after, f);
    }
  }

  lemma SameElementsSameMultiset<T>(a: seq<T>, b: seq<T>)
    requires Distinct(a) && Distinct(b) && forall x :: x in a <==> x in b
    ensures multiset(a) == multiset(b)
  {
    DistinctMultiset(a);
    DistinctMultiset(b);
    forall x ensures multiset(a)[x] == multiset(b)[x] {
      assert x in multiset(a) <==> x in a;
      assert x in multiset(b) <==> x in b;
    }
  }

  lemma {:induction false} DistinctMultiset<T>(s: seq<T>)
    requires Distinct(s)
    ensures forall x :: multiset(s)[x] <= 1
  {
    if s != [] {
      var front, last := s[..|s| - 1], s[|s| - 1];
      assert s == front + [last];
      DistinctMultiset(front);
      assert last !in front;
      assert multiset(front)[last] == 0;
    }
  }

  lemma MapSnoc<T, R>(s: seq<T>, x: T, f: T -> R)
    ensures Map(s + [x], f) == Map(s, f) + [f(x)]
  {
  }

  lemma MapSame<T, R>(s: seq<T>, f: T -> R, g: T -> R)
    requires forall x :: x in s ==> f(x) == g(x)
    ensures Map(s, f) == Map(s, g)
  {
    MapPrefix(s, s, f, g);
  }

  lemma {:induction false} SumOverMap<T, R>(s: seq<T>, f: T -> R, g: R -> real, h: T -> real)
    requires forall x :: x in s ==> h(x) == g(f(x))
    ensures Sum(s, h) == Sum(Map(s, f), g)
  {
    if s != [] {
      var front := s[..|s| - 1];
      SumOverMap(front, f, g, h);
      assert Map(s, f)[..|s| - 1] == Map(front, f);
      assert s[|s| - 1] in s;
    }
  }

  /** Keeping more of a longer sequence, and mapping what was kept before to the same values, gives a
      supersequence. */
  lemma {:induction false} FilterMapSubsequence<T, R>(s: seq<T>, p: T -> bool, q: T -> bool, f: T -> R, g: T -> R)
    requires forall x :: x in s && p(x) ==> q(x) && f(x) == g(x)
    ensures Subsequence(Map(Filter(s, p), f), Map(Filter(s, q), g))
  {
    if s != [] {
      var front, last := s[..|s| - 1], s[|s| - 1];
      FilterMapSubsequence(front, p, q, f, g);
      var a, b := Map(Filter(front, p), f), Map(Filter(front, q), g);
      MapSnoc(Filter(front, p), last, f);
      MapSnoc(Filter(front, q), last, g);
      assert last in s;
      if p(last) {
        assert (a + [f(last)])[..|a|] == a && (b + [g(last)])[..|b|] == b;
      } else if q(last) {
        SubsequenceAppend(a, b, [g(last)]);
      }
    }
  }

  /** What is missing from the first n positions stands further back. */
  lemma NotInFront<T>(s: seq<T>, n: nat, b: nat)
    requires n <= |s| && b < |s| && s[b] !in s[..n]
    ensures b >= n
  {
    assert forall i :: 0 <= i < n ==> s[..n][i] == s[i];
  }

  /** The lists of all elements, one after the other. */
  function FlatMap<T, R>(s: seq<T>, f: T -> seq<R>): seq<R> {
    if s == [] then [] else FlatMap(s[..|s| - 1], f) + f(s[|s| - 1])
  }

  lemma FlatMapSnoc<T, R>(s: seq<T>, x: T, f: T -> seq<R>)
    ensures FlatMap(s + [x], f) == FlatMap(s, f) + f(x)
  {
    assert (s + [x])[..|s|] == s;
  }

  lemma {:induction false} FlatMapContains<T, R>(s: seq<T>, f: T -> seq<R>)
    ensures forall y :: y in FlatMap(s, f) <==> exists x :: x in s && y in f(x)
  {
    if s != [] {
      FlatMapContains(s[..|s| - 1], f);
      assert s == s[..|s| - 1] + [s[|s| - 1]];
    }
  }

  lemma {:induction false} FlatMapConcat<T, R>(a: seq<T>, b: seq<T>, f: T -> seq<R>)
    ensures FlatMap(a + b, f) == FlatMap(a, f) + FlatMap(b, f)
  {
    if b == [] {
      assert a + b == a;
    } else {
      FlatMapConcat(a, b[..|b| - 1], f);
      assert (a + b)[..|a + b| - 1] == a + b[..|b| - 1];
    }
  }

  ghost function SomeElement<T>(s: set<T>): (x: T)
    requires s != {}
    ensures x in s
  {
    var x :| x in s;
    x
  }

  /** The elements of a set, in some order. */
  ghost function ListOf<T(!new)>(s: set<T>): (r: seq<T>)
    ensures Distinct(r) && forall x :: x in r <==> x in s
  {
    if s == {} then []
    else
      var x := SomeElement(s);
      ListOf(s - {x}) + [x]
  }
}
