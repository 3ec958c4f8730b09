/** Python's stable `sorted`, as insertion sort, and the facts that pin its result down. */
module Sorting {
  import opened Seqs

  ghost predicate TotalPreorder<T(!new)>(le: (T, T) -> bool) {
    && (forall a, b :: le(a, b) || le(b, a))
    && (forall a, b, c :: le(a, b) && le(b, c) ==> le(a, c))
  }

  ghost predicate Antisymmetric<T(!new)>(le: (T, T) -> bool) {
    forall a, b :: le(a, b) && le(b, a) ==> a == b
  }

  ghost predicate AntisymmetricOn<T>(s: seq<T>, le: (T, T) -> bool) {
    forall a, b :: a in s && b in s && le(a, b) && le(b, a) ==> a == b
  }

  ghost predicate Sorted<T>(s: seq<T>, le: (T, T) -> bool) {
    forall i, j :: 0 <= i < j < |s| ==> le(s[i], s[j])
  }

  /** Puts x behind everything that may stand before it. */
  function Insert<T>(s: seq<T>, x: T, le: (T, T) -> bool): seq<T> {
    if s == [] || le(s[|s| - 1], x) then s + [x]
    else Insert(s[..|s| - 1], x, le) + [s[|s| - 1]]
  }

  function SortBy<T>(s: seq<T>, le: (T, T) -> bool): seq<T> {
    if s == [] then [] else Insert(SortBy(s[..|s| - 1], le), s[|s| - 1], le)
  }

  lemma {:induction false} InsertPermutes<T>(s: seq<T>, x: T, le: (T, T) -> bool)
    ensures multiset(Insert(s, x, le)) == multiset(s) + multiset{x}
  {
    if !(s == [] || le(s[|s| - 1], x)) {
      InsertPermutes(s[..|s| - 1], x, le);
      assert s == s[..|s| - 1] + [s[|s| - 1]];
    }
  }

  lemma {:induction false} InsertSorted<T(!new)>(s: seq<T>, x: T, le: (T, T) -> bool)
    requires TotalPreorder(le) && Sorted(s, le)
    ensures Sorted(Insert(s, x, le), le)
  {
    if s == [] || le(s[|s| - 1], x) {
    } else {
      var front := s[..|s| - 1];
      var inserted := Insert(front, x, le);
      InsertSorted(front, x, le);
      InsertPermutes(front, x, le);
      forall i | 0 <= i < |inserted| ensures le(inserted[i], s[|s| - 1]) {
        assert inserted[i] in multiset(inserted);
      }
    }
  }

  /** The sorted sequence is sorted and holds exactly the elements sorted. */
  lemma {:induction false} SortCorrect<T(!new)>(s: seq<T>, le: (T, T) -> bool)
    requires TotalPreorder(le)
    ensures Sorted(SortBy(s, le), le)
    ensures multiset(SortBy(s, le)) == multiset(s)
    ensures |SortBy(s, le)| == |s|
    ensures forall x :: x in SortBy(s, le) <==> x in s
  {
    if s != [] {
      var front := s[..|s| - 1];
      SortCorrect(front, le);
      InsertSorted(SortBy(front, le), s[|s| - 1], le);
      InsertPermutes(SortBy(front, le), s[|s| - 1], le);
      assert s == front + [s[|s| - 1]];
    }
    assert |multiset(SortBy(s, le))| == |multiset(s)|;
    forall x ensures x in SortBy(s, le) <==> x in s {
      assert x in multiset(SortBy(s, le)) <==> x in multiset(s);
    }
  }

  lemma {:induction false} InsertFilter<T(!new)>(s: seq<T>, x: T, le: (T, T) -> bool, p: T -> bool)
    requires TotalPreorder(le) && Sorted(s, le)
    ensures Filter(Insert(s, x, le), p) == if p(x) then Insert(Filter(s, p), x, le) else Filter(s, p)
  {
    if s == [] || le(s[|s| - 1], x) {
      FilterSnoc(s, x, p);
      FilterContains(s, p);
      var kept := Filter(s, p);
      if kept != [] {
        var last := kept[|kept| - 1];
        assert last in kept && last in s;
        var i :| 0 <= i < |s| && s[i] == last;
        assert le(last, x);
      }
    } else {
      var front, last := s[..|s| - 1], s[|s| - 1];
      InsertFilter(front, x, le, p);
      FilterSnoc(Insert(front, x, le), last, p);
    }
  }

  /** Stability: sorting commutes with every filter. */
  lemma {:induction false} SortFilter<T(!new)>(s: seq<T>, le: (T, T) -> bool, p: T -> bool)
    requires TotalPreorder(le)
    ensures Filter(SortBy(s, le), p) == SortBy(Filter(s, p), le)
  {
    if s != [] {
      var front := s[..|s| - 1];
      SortFilter(front, le, p);
      SortCorrect(front, le);
      InsertFilter(SortBy(front, le), s[|s| - 1], le, p);
    }
  }

  /** A sorted sequence is its own sort. */
  lemma {:induction false} SortSorted<T(!new)>(s: seq<T>, le: (T, T) -> bool)
    requires Sorted(s, le)
    ensures SortBy(s, le) == s
  {
    if s != [] {
      SortSorted(s[..|s| - 1], le);
      assert s == s[..|s| - 1] + [s[|s| - 1]];
    }
  }

  /** The last of a sorted sequence stands behind every element. */
  lemma LastIsGreatest<T(!new)>(a: seq<T>, x: T, le: (T, T) -> bool)
    requires TotalPreorder(le) && Sorted(a, le) && x in multiset(a)
    ensures a != [] && le(x, a[|a| - 1])
  {
    var i :| 0 <= i < |a| && a[i] == x;
    if i == |a| - 1 {
      assert le(x, x) || le(x, x);
    }
  }

  lemma DropLastMultiset<T>(a: seq<T>)
    requires a != []
    ensures multiset(a) == multiset(a[..|a| - 1]) + multiset{a[|a| - 1]}
  {
    assert a == a[..|a| - 1] + [a[|a| - 1]];
  }

  lemma CancelLast<T>(a: multiset<T>, b: multiset<T>, x: T)
    requires a + multiset{x} == b + multiset{x}
    ensures a == b
  {
    assert a == (a + multiset{x}) - multiset{x};
    assert b == (b + multiset{x}) - multiset{x};
  }

  /** Under an order without ties, the elements alone determine the sorted sequence. */
  lemma {:induction false} SortedUnique<T(!new)>(a: seq<T>, b: seq<T>, le: (T, T) -> bool)
    requires TotalPreorder(le) && AntisymmetricOn(a, le)
    requires Sorted(a, le) && Sorted(b, le) && multiset(a) == multiset(b)
    ensures a == b
  {
    if a == [] {
      assert |multiset(b)| == 0;
    } else {
      assert |multiset(b)| == |a|;
      assert b[|b| - 1] in multiset(a);
      LastIsGreatest(b, a[|a| - 1], le);
      LastIsGreatest(a, b[|b| - 1], le);
      DropLastMultiset(a);
      DropLastMultiset(b);
      CancelLast(multiset(a[..|a| - 1]), multiset(b[..|b| - 1]), a[|a| - 1]);
      SortedUnique(a[..|a| - 1], b[..|b| - 1], le);
      assert a == a[..|a| - 1] + [a[|a| - 1]];
      assert b == b[..|b| - 1] + [b[|b| - 1]];
    }
  }

  lemma SortUnique<T(!new)>(a: seq<T>, b: seq<T>, le: (T, T) -> bool)
    requires TotalPreorder(le) && AntisymmetricOn(a, le) && multiset(a) == multiset(b)
    ensures SortBy(a, le) == SortBy(b, le)
  {
    SortCorrect(a, le);
    SortCorrect(b, le);
    SortedUnique(SortBy(a, le), SortBy(b, le), le);
  }

  /** In a sorted sequence without repetitions, the k-th element is the one with k predecessors. */
  lemma SortedRank<T(!new)>(s: seq<T>, le: (T, T) -> bool, k: nat)
    requires Sorted(s, le) && Distinct(s) && k < |s|
    requires AntisymmetricOn(s, le)
    ensures forall x :: x in ToSet(s[..k]) <==> x in s && x != s[k] && le(x, s[k])
    ensures |ToSet(s[..k])| == k
  {
    DistinctSize(s[..k]);
    forall x | x in s && x != s[k] && le(x, s[k]) ensures x in s[..k] {
      var i :| 0 <= i < |s| && s[i] == x;
      assert le(s[if i < k then i else k], s[if i < k then k else i]) || i == k;
      assert s[..k][i] == x;
    }
  }

  ghost predicate Increasing(s: seq<int>) {
    forall i, j :: 0 <= i < j < |s| ==> s[i] < s[j]
  }

  function InsertNew(s: seq<int>, x: int): seq<int> {
    if s == [] || s[|s| - 1] < x then s + [x]
    else if s[|s| - 1] == x then s
    else InsertNew(s[..|s| - 1], x) + [s[|s| - 1]]
  }

  /** The distinct elements of s in ascending order: `sorted(set(s))`, and `torch.unique(sorted=True)`. */
  function SortedUniques(s: seq<int>): seq<int> {
    if s == [] then [] else InsertNew(SortedUniques(s[..|s| - 1]), s[|s| - 1])
  }

  lemma {:induction false} InsertNewCorrect(s: seq<int>, x: int)
    requires Increasing(s)
    ensures Increasing(InsertNew(s, x))
    ensures forall y :: y in InsertNew(s, x) <==> y in s || y == x
  {
    if !(s == [] || s[|s| - 1] <= x) {
      InsertNewCorrect(s[..|s| - 1], x);
      var inserted := InsertNew(s[..|s| - 1], x);
      forall i | 0 <= i < |inserted| ensures inserted[i] < s[|s| - 1] {
        assert inserted[i] in inserted;
      }
      assert s == s[..|s| - 1] + [s[|s| - 1]];
    }
  }

  lemma {:induction false} SortedUniquesCorrect(s: seq<int>)
    ensures Increasing(SortedUniques(s))
    ensures forall y :: y in SortedUniques(s) <==> y in s
  {
    if s != [] {
      SortedUniquesCorrect(s[..|s| - 1]);
      InsertNewCorrect(SortedUniques(s[..|s| - 1]), s[|s| - 1]);
      assert s == s[..|s| - 1] + [s[|s| - 1]];
    }
  }

  lemma SameElementsBothEmpty<T>(a: seq<T>, b: seq<T>)
    requires forall x :: x in a <==> x in b
    ensures a == [] <==> b == []
  {
    assert a != [] ==> a[0] in b;
    assert b != [] ==> b[0] in a;
  }

  lemma IncreasingFront(a: seq<int>, z: int)
    requires Increasing(a) && a != []
    ensures z in a[..|a| - 1] <==> z in a && z != a[|a| - 1]
    ensures z in a ==> z <= a[|a| - 1]
  {
    assert a == a[..|a| - 1] + [a[|a| - 1]];
  }

  /** A strictly increasing sequence is determined by its elements. */
  lemma {:induction false} IncreasingUnique(a: seq<int>, b: seq<int>)
    requires Increasing(a) && Increasing(b) && forall x :: x in a <==> x in b
    ensures a == b
  {
    SameElementsBothEmpty(a, b);
    if a != [] {
      var front, back := a[..|a| - 1], b[..|b| - 1];
      var x, y := a[|a| - 1], b[|b| - 1];
      assert x in a && y in b;
      IncreasingFront(a, y);
      IncreasingFront(b, x);
      forall z ensures z in front <==> z in back {
        IncreasingFront(a, z);
        IncreasingFront(b, z);
      }
      IncreasingUnique(front, back);
      assert a == front + [x] && b == back + [y];
    }
  }

  /** Counting distinct values detects repetitions: `len(set(s)) == len(s)`. */
  lemma {:induction false} UniquesSize(s: seq<int>)
    ensures |SortedUniques(s)| <= |s|
    ensures |SortedUniques(s)| == |s| <==> Distinct(s)
  {
    if s != [] {
      var front, x := s[..|s| - 1], s[|s| - 1];
      assert s == front + [x];
      UniquesSize(front);
      SortedUniquesCorrect(front);
      InsertNewSize(SortedUniques(front), x);
      if Distinct(front) && x !in front {
        assert Distinct(s);
      } else if x in front {
        var i :| 0 <= i < |front| && front[i] == x;
        assert s[i] == s[|s| - 1];
      }
    }
  }

  lemma {:induction false} InsertNewSize(s: seq<int>, x: int)
    requires Increasing(s)
    ensures |InsertNew(s, x)| == |s| + if x in s then 0 else 1
  {
    if !(s == [] || s[|s| - 1] <= x) {
      InsertNewSize(s[..|s| - 1], x);
      assert s == s[..|s| - 1] + [s[|s| - 1]];
    }
  }

  lemma SortDistinct<T(!new)>(s: seq<T>, le: (T, T) -> bool)
    requires TotalPreorder(le) && Distinct(s)
    ensures Distinct(SortBy(s, le))
  {
    SortCorrect(s, le);
    DistinctByMultiset(s);
    DistinctByMultiset(SortBy(s, le));
  }

  lemma {:induction false} DistinctByMultiset<T>(s: seq<T>)
    ensures Distinct(s) <==> forall x :: multiset(s)[x] <= 1
  {
    if s != [] {
      var front, x := s[..|s| - 1], s[|s| - 1];
      DistinctByMultiset(front);
      assert s == front + [x];
      assert multiset(s) == multiset(front) + multiset{x};
      assert Distinct(s) <==> Distinct(front) && x !in front by {
        if x in front {
          var i :| 0 <= i < |front| && front[i] == x;
          assert s[i] == s[|s| - 1];
        }
      }
      assert x in front <==> multiset(front)[x] > 0;
      assert forall y :: multiset(s)[y] == multiset(front)[y] + if y == x then 1 else 0;
      if forall y :: multiset(s)[y] <= 1 {
        assert multiset(s)[x] <= 1;
      }
    }
  }

  /** A test that holds of everything before what it holds of keeps a prefix of a sorted sequence. */
  lemma {:induction false} FilterIsPrefix<T>(s: seq<T>, le: (T, T) -> bool, p: T -> bool)
    requires Sorted(s, le)
    requires forall x, y :: x in s && y in s && le(x, y) && p(y) ==> p(x)
    ensures Filter(s, p) <= s
  {
    if s != [] {
      var front, last := s[..|s| - 1], s[|s| - 1];
      assert s == front + [last];
      FilterIsPrefix(front, le, p);
      if p(last) {
        forall x | x in front ensures p(x) {
          var i :| 0 <= i < |front| && front[i] == x;
          assert le(s[i], s[|s| - 1]);
        }
        FilterAll(front, p);
      }
    }
  }

  lemma {:induction false} InsertSameOrder<T(!new)>(s: seq<T>, x: T, le: (T, T) -> bool, le': (T, T) -> bool)
    requires forall y :: y in s ==> le(y, x) == le'(y, x)
    ensures Insert(s, x, le) == Insert(s, x, le')
  {
    if s != [] {
      assert s[|s| - 1] in s;
      InsertSameOrder(s[..|s| - 1], x, le, le');
    }
  }

  /** Only how the elements themselves compare matters to a sort. */
  lemma {:induction false} SortSameOrder<T(!new)>(s: seq<T>, le: (T, T) -> bool, le': (T, T) -> bool)
    requires forall x, y :: x in s && y in s ==> le(x, y) == le'(x, y)
    ensures SortBy(s, le) == SortBy(s, le')
  {
    if s != [] {
      var front, last := s[..|s| - 1], s[|s| - 1];
      SortSameOrder(front, le, le');
      SortElements(front, le);
      assert last in s;
      InsertSameOrder(SortBy(front, le), last, le, le');
    }
  }

  lemma {:induction false} SortElements<T>(s: seq<T>, le: (T, T) -> bool)
    ensures multiset(SortBy(s, le)) == multiset(s)
    ensures forall x :: x in SortBy(s, le) <==> x in s
  {
    hide Insert;
    if s != [] {
      var front, last := s[..|s| - 1], s[|s| - 1];
      SortElements(front, le);
      InsertPermutes(SortBy(front, le), last, le);
      assert s == front + [last];
    }
    forall x ensures x in SortBy(s, le) <==> x in s {
      assert x in multiset(SortBy(s, le)) <==> x in multiset(s);
    }
  }
}
