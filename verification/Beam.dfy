/** Constrained beam decoding over the prefix trie of a code table, for any way of scoring prefixes,
    and when a narrow beam is an exact ranking. */
module Beam {
  import opened Seqs
  import opened Sorting
  import opened SemanticIds
  import Lex

  datatype Scored = Scored(code: Code, score: real)

  /** The sort key `(-score, code)`. */
  predicate Before(a: Scored, b: Scored) {
    a.score > b.score || (a.score == b.score && Lex.Le(a.code, b.code))
  }

  lemma BeforeIsTotalOrder()
    ensures TotalPreorder(Before) && Antisymmetric(Before)
  {
    forall a, b ensures Before(a, b) || Before(b, a) {
      Lex.LeTotalOrder(a.code, b.code, a.code);
    }
    forall a, b, c | Before(a, b) && Before(b, c) ensures Before(a, c) {
      Lex.LeTotalOrder(a.code, b.code, c.code);
    }
    forall a, b | Before(a, b) && Before(b, a) ensures a == b {
      Lex.LeTotalOrder(a.code, b.code, a.code);
    }
  }

  // ---------------------------------------------------------------------------------------------
  // Rankings.

  ghost function Score(s: seq<Code>, score: Code -> real): seq<Scored> {
    Map(s, c => Scored(c, score(c)))
  }

  /** The exact sort of a set of codes. */
  ghost function Ranking(s: set<Code>, score: Code -> real): seq<Scored> {
    SortBy(Score(ListOf(s), score), Before)
  }

  /** The list ranks exactly the codes of the set, each once. */
  ghost predicate Ranks(l: seq<Scored>, s: set<Code>, score: Code -> real) {
    && Sorted(l, Before)
    && Distinct(l)
    && forall x :: x in l <==> x.code in s && x.score == score(x.code)
  }

  lemma ScoreElements(s: seq<Code>, score: Code -> real)
    ensures forall x :: x in Score(s, score) <==> x.code in s && x.score == score(x.code)
    ensures Distinct(s) ==> Distinct(Score(s, score))
  {
    forall x ensures x in Score(s, score) <==> x.code in s && x.score == score(x.code) {
      if x.code in s && x.score == score(x.code) {
        var i :| 0 <= i < |s| && s[i] == x.code;
        assert Score(s, score)[i] == x;
      }
    }
  }

  /** A higher score, or at equal scores a code that is smaller where the two first differ. */
  ghost predicate Better(a: Scored, b: Scored) {
    a.score > b.score || (a.score == b.score && exists k: nat :: Lex.SmallerFrom(a.code, b.code, k))
  }

  /** Better ones come first. */
  ghost predicate BetterFirst(l: seq<Scored>) {
    forall i, j :: 0 <= i < j < |l| ==> Better(l[i], l[j])
  }

  lemma BeforeIsBetter(a: Scored, b: Scored)
    requires a.code != b.code
    ensures Before(a, b) <==> Better(a, b)
  {
    Lex.Trichotomy(a.code, b.code);
    Lex.LessMeans(a.code, b.code);
  }

  /** Any duplicate-free listing of a set sorts to its ranking. */
  lemma SortRanks(l: seq<Scored>, s: set<Code>, score: Code -> real)
    requires Distinct(l) && forall x :: x in l <==> x.code in s && x.score == score(x.code)
    ensures Ranks(SortBy(l, Before), s, score)
  {
    BeforeIsTotalOrder();
    SortCorrect(l, Before);
    SortDistinct(l, Before);
  }

  lemma RankingRanks(s: set<Code>, score: Code -> real)
    ensures Ranks(Ranking(s, score), s, score)
  {
    ScoreElements(ListOf(s), score);
    SortRanks(Score(ListOf(s), score), s, score);
  }

  lemma RanksUnique(a: seq<Scored>, b: seq<Scored>, s: set<Code>, score: Code -> real)
    requires Ranks(a, s, score) && Ranks(b, s, score)
    ensures a == b
  {
    BeforeIsTotalOrder();
    DistinctByMultiset(a);
    DistinctByMultiset(b);
    forall x ensures multiset(a)[x] == multiset(b)[x] {
      assert (x in a <==> x in multiset(a)) && (x in b <==> x in multiset(b));
    }
    SortedUnique(a, b, Before);
  }

  /** Dropping codes from a ranking leaves the ranking of the others. */
  lemma RankingOfSubset(e: set<Code>, s: set<Code>, score: Code -> real)
    requires e <= s
    ensures Filter(Ranking(s, score), (x: Scored) => x.code in e) == Ranking(e, score)
  {
    var whole := Ranking(s, score);
    var kept := (x: Scored) => x.code in e;
    var sub := Filter(whole, kept);
    RankingRanks(s, score);
    RankingRanks(e, score);
    BeforeIsTotalOrder();
    FilterContains(whole, kept);
    SortFilter(whole, Before, kept);
    SortSorted(whole, Before);
    SortCorrect(sub, Before);
    FilterDistinct(whole, kept);
    RanksUnique(sub, Ranking(e, score), e, score);
  }

  /** Ranking a subset that holds the top n of the whole set gives the same top n. */
  lemma TopOfSubset(e: set<Code>, s: set<Code>, score: Code -> real, n: nat)
    requires e <= s
    requires forall x :: x in Take(Ranking(s, score), n) ==> x.code in e
    ensures Take(Ranking(e, score), n) == Take(Ranking(s, score), n)
  {
    var whole := Ranking(s, score);
    var kept := (x: Scored) => x.code in e;
    RankingOfSubset(e, s, score);
    var m := if n <= |whole| then n else |whole|;
    assert whole == whole[..m] + whole[m..];
    assert Take(whole, n) == whole[..m];
    FilterConcat(whole[..m], whole[m..], kept);
    FilterAll(whole[..m], kept);
    FilterContains(whole[m..], kept);
  }

  // ---------------------------------------------------------------------------------------------
  // The search.

  /** All codes have length n. */
  ghost predicate Uniform(codes: set<Code>, n: nat) {
    forall c :: c in codes ==> |c| == n
  }

  ghost function Prefixes(codes: set<Code>, k: nat): set<Code> {
    set c | c in codes && k <= |c| :: c[..k]
  }

  ghost predicate Child(codes: set<Code>, parent: Code, c: Code) {
    |c| == |parent| + 1 && c[..|parent|] == parent && c in Prefixes(codes, |c|)
  }

  /** The children of the beams, each once, with their scores. */
  ghost predicate Expands(expanded: seq<Scored>, codes: set<Code>, score: Code -> real, beams: seq<Scored>) {
    && Distinct(expanded)
    && forall x :: x in expanded <==>
         x.score == score(x.code) && Reached(codes, beams, x.code)
  }

  /** The beams after k rounds, when the search is exact so far: the root, then the top prefixes. */
  ghost predicate Exact(beams: seq<Scored>, codes: set<Code>, score: Code -> real, beamSize: nat, k: nat) {
    if k == 0 then beams == [Scored([], 0.0)] else beams == Take(Ranking(Prefixes(codes, k), score), beamSize)
  }

  ghost predicate Reached(codes: set<Code>, beams: seq<Scored>, c: Code) {
    exists b :: b in beams && Child(codes, b.code, c)
  }

  /** The prefixes of length k reached from beams of length k - 1. */
  ghost function Children(codes: set<Code>, beams: seq<Scored>, k: nat): set<Code> {
    set c | c in Prefixes(codes, k) && Reached(codes, beams, c)
  }

  /** The beams after k rounds, whatever the scores and the beam's width. */
  ghost function BeamAfter(codes: set<Code>, score: Code -> real, size: nat, k: nat): seq<Scored> {
    if k == 0 then [Scored([], 0.0)]
    else Take(Ranking(Children(codes, BeamAfter(codes, score, size, k - 1), k), score), size)
  }

  /** What one round does: of the children of the beams it keeps as many as there is room for, and each one kept is
      better than each one left out. */
  ghost predicate Round(prev: seq<Scored>, next: seq<Scored>, codes: set<Code>, score: Code -> real, size: nat) {
    && |next| <= size && BetterFirst(next)
    && (forall b :: b in next ==> b.score == score(b.code) && Reached(codes, prev, b.code))
    && (forall c :: Reached(codes, prev, c) && Scored(c, score(c)) !in next ==>
          |next| == size && forall b :: b in next ==> Better(b, Scored(c, score(c))))
  }

  ghost predicate HasBestChild(codes: set<Code>, score: Code -> real, p: Code) {
    exists c :: Child(codes, p, c) && score(c) == score(p)
  }

  /** Every inner prefix scores as the best child below it. */
  ghost predicate BestBelow(codes: set<Code>, n: nat, score: Code -> real) {
    forall k: nat, p :: 0 < k < n && p in Prefixes(codes, k) ==>
      HasBestChild(codes, score, p) && forall c :: Child(codes, p, c) ==> score(c) <= score(p)
  }

  lemma ExpandsRanks(expanded: seq<Scored>, codes: set<Code>, score: Code -> real, beams: seq<Scored>, k: nat)
    requires Expands(expanded, codes, score, beams) && forall b :: b in beams ==> |b.code| == k
    ensures SortBy(expanded, Before) == Ranking(Children(codes, beams, k + 1), score)
  {
    var s := Children(codes, beams, k + 1);
    forall x: Scored ensures x in expanded <==> x.code in s && x.score == score(x.code) {
      if Reached(codes, beams, x.code) {
        var b :| b in beams && Child(codes, b.code, x.code);
        assert x.code in Prefixes(codes, k + 1);
      }
    }
    SortRanks(expanded, s, score);
    RankingRanks(s, score);
    RanksUnique(SortBy(expanded, Before), Ranking(s, score), s, score);
  }

  lemma PrefixOfPrefix(codes: set<Code>, c: Code, k: nat)
    requires c in Prefixes(codes, k + 1)
    ensures |c| == k + 1 && c[..k] in Prefixes(codes, k) && Child(codes, c[..k], c)
  {
    var full :| full in codes && k + 1 <= |full| && c == full[..k + 1];
    assert c[..k] == full[..k];
  }

  ghost function BestChild(codes: set<Code>, n: nat, score: Code -> real, q: Code, k: nat): (c: Code)
    requires BestBelow(codes, n, score) && 0 < k < n && q in Prefixes(codes, k)
    ensures Child(codes, q, c) && score(c) == score(q)
  {
    assert HasBestChild(codes, score, q);
    var c :| Child(codes, q, c) && score(c) == score(q);
    c
  }

  /** If a prefix q ranks before the parent of p, then q's best child ranks before p. */
  lemma BetterParentBetterChild(codes: set<Code>, n: nat, score: Code -> real, q: Code, p: Code, k: nat)
    requires BestBelow(codes, n, score) && 0 < k < n
    requires q in Prefixes(codes, k) && p in Prefixes(codes, k + 1) && |p| == k + 1 && q != p[..k]
    requires Before(Scored(q, score(q)), Scored(p[..k], score(p[..k])))
    ensures var c := BestChild(codes, n, score, q, k);
      |c| == k + 1 && c[..k] == q && c in Prefixes(codes, k + 1) && Before(Scored(c, score(c)), Scored(p, score(p)))
  {
    var c := BestChild(codes, n, score, q, k);
    PrefixOfPrefix(codes, p, k);
    assert |q| == k;
    assert score(p) <= score(p[..k]);
    Lex.Trichotomy(q, p[..k]);
    if score(q) == score(p[..k]) {
      assert c == q + c[k..] && p == p[..k] + p[k..];
      Lex.LessExtends(q, p[..k], c[k..], p[k..]);
      Lex.Trichotomy(c, p);
    }
  }

  lemma TakeIndex<T>(s: seq<T>, n: nat, x: T) returns (i: nat)
    requires x in Take(s, n)
    ensures i < |s| && i < n && s[i] == x
  {
    i :| 0 <= i < |Take(s, n)| && Take(s, n)[i] == x;
  }

  /** The heart of the argument: whatever ranks in the top n one level down has its parent in the top n. */
  lemma TopHasTopParent(codes: set<Code>, n: nat, score: Code -> real, p: Scored, k: nat, size: nat)
    requires BestBelow(codes, n, score) && 0 < k < n
    requires p in Take(Ranking(Prefixes(codes, k + 1), score), size)
    ensures Reached(codes, Take(Ranking(Prefixes(codes, k), score), size), p.code)
  {
    hide *;
    var upper, lower := Ranking(Prefixes(codes, k), score), Ranking(Prefixes(codes, k + 1), score);
    RankingRanks(Prefixes(codes, k), score);
    RankingRanks(Prefixes(codes, k + 1), score);
    var i := TakeIndex(lower, size, p);
    var j := ParentRank(codes, score, upper, lower, i, k);
    BetterCount(codes, n, score, upper, lower, i, j, k);
    InTake(codes, upper, size, j, p.code);
  }

  /** Where the parent of a ranked code stands. */
  lemma ParentRank(codes: set<Code>, score: Code -> real, upper: seq<Scored>, lower: seq<Scored>, i: nat, k: nat)
    returns (j: nat)
    requires Ranks(upper, Prefixes(codes, k), score) && Ranks(lower, Prefixes(codes, k + 1), score) && i < |lower|
    ensures |lower[i].code| == k + 1
    ensures j < |upper| && upper[j].code == lower[i].code[..k] && Child(codes, upper[j].code, lower[i].code)
  {
    assert lower[i] in lower;
    PrefixOfPrefix(codes, lower[i].code, k);
    var parent := Scored(lower[i].code[..k], score(lower[i].code[..k]));
    assert parent in upper;
    j :| 0 <= j < |upper| && upper[j] == parent;
  }

  lemma InTake(codes: set<Code>, upper: seq<Scored>, size: nat, j: nat, c: Code)
    requires j < |upper| && j < size && Child(codes, upper[j].code, c)
    ensures Reached(codes, Take(upper, size), c)
  {
    assert Take(upper, size)[j] == upper[j];
  }

  /** A parent stands no further back among the prefixes than its child one level down. */
  lemma BetterCount(codes: set<Code>, n: nat, score: Code -> real, upper: seq<Scored>, lower: seq<Scored>, i: nat,
                    j: nat, k: nat)
    requires BestBelow(codes, n, score) && 0 < k < n
    requires Ranks(upper, Prefixes(codes, k), score) && j < |upper|
    requires Ranks(lower, Prefixes(codes, k + 1), score) && i < |lower| && |lower[i].code| == k + 1
    requires upper[j].code == lower[i].code[..k]
    ensures j <= i
  {
    var better := Map(upper[..j], (x: Scored) => x.code);
    var p := lower[i].code;
    assert lower[i] in lower && upper[j] in upper;
    BetterCodes(upper, Prefixes(codes, k), score, j);
    assert forall a :: 0 <= a < j ==> better[a] in better;
    var children := seq(j, a requires 0 <= a < j => BestChild(codes, n, score, better[a], k));
    forall a | 0 <= a < j
      ensures children[a][..k] == better[a] && children[a] in Prefixes(codes, k + 1) && children[a] != p
      ensures Before(Scored(children[a], score(children[a])), lower[i])
    {
      BetterParentBetterChild(codes, n, score, better[a], p, k);
    }
    forall a, b | 0 <= a < b < j ensures children[a] != children[b] {
      assert better[a] != better[b];
    }
    TooManyBefore(lower, Prefixes(codes, k + 1), score, i, children);
  }

  lemma BetterCodes(upper: seq<Scored>, s: set<Code>, score: Code -> real, j: nat)
    requires Ranks(upper, s, score) && j < |upper|
    ensures var better := Map(upper[..j], (x: Scored) => x.code);
      && Distinct(better)
      && forall q :: q in better ==> q in s && q != upper[j].code && Before(Scored(q, score(q)), upper[j])
  {
    var better := Map(upper[..j], (x: Scored) => x.code);
    forall a | 0 <= a < |upper| ensures upper[a].code in s && upper[a].score == score(upper[a].code) {
      assert upper[a] in upper;
    }
    forall a, b | 0 <= a < b < |upper| ensures upper[a].code != upper[b].code {
      assert upper[a] != upper[b];
    }
  }

  /** Position i of a ranking has only i codes before it. */
  lemma TooManyBefore(lower: seq<Scored>, s: set<Code>, score: Code -> real, i: nat, children: seq<Code>)
    requires Ranks(lower, s, score) && i < |lower| && Distinct(children)
    requires forall c :: c in children ==> c in s && c != lower[i].code && Before(Scored(c, score(c)), lower[i])
    ensures |children| <= i
  {
    BeforeIsTotalOrder();
    SortedRank(lower, Before, i);
    var scored := Score(children, score);
    ScoreElements(children, score);
    DistinctSize(scored);
    forall x | x in ToSet(scored) ensures x in ToSet(lower[..i]) {
      assert x in lower && x != lower[i];
    }
    SubsetSize(ToSet(scored), ToSet(lower[..i]));
  }

  /** One round keeps a narrow beam exact, whatever its width, if prefixes score as their best child. */
  lemma RoundKeepsExact(beams: seq<Scored>, expanded: seq<Scored>, codes: set<Code>, n: nat, score: Code -> real,
                        size: nat, k: nat)
    requires Uniform(codes, n) && BestBelow(codes, n, score) && k < n
    requires Exact(beams, codes, score, size, k) && Expands(expanded, codes, score, beams)
    ensures Exact(Take(SortBy(expanded, Before), size), codes, score, size, k + 1)
  {
    ExactLengths(beams, codes, score, size, k);
    ExpandsRanks(expanded, codes, score, beams, k);
    var below, top := Prefixes(codes, k + 1), Take(Ranking(Prefixes(codes, k + 1), score), size);
    RankingRanks(below, score);
    forall x | x in top ensures x.code in Children(codes, beams, k + 1) {
      assert x in Ranking(below, score);
      if k > 0 {
        TopHasTopParent(codes, n, score, x, k, size);
      } else {
        PrefixOfPrefix(codes, x.code, k);
        assert Scored([], 0.0) in beams;
      }
    }
    TopOfSubset(Children(codes, beams, k + 1), below, score, size);
  }

  /** One round keeps a beam exact under any scoring if the beam has room for every code. */
  lemma WideRoundKeepsExact(beams: seq<Scored>, expanded: seq<Scored>, codes: set<Code>, n: nat, score: Code -> real,
                            size: nat, k: nat)
    requires Uniform(codes, n) && |codes| <= size && k < n
    requires Exact(beams, codes, score, size, k) && Expands(expanded, codes, score, beams)
    ensures Exact(Take(SortBy(expanded, Before), size), codes, score, size, k + 1)
  {
    ExactLengths(beams, codes, score, size, k);
    ExpandsRanks(expanded, codes, score, beams, k);
    var below := Prefixes(codes, k + 1);
    forall c | c in below ensures c in Children(codes, beams, k + 1) {
      PrefixOfPrefix(codes, c, k);
      if k > 0 {
        RankingFits(codes, n, score, size, k);
        assert Scored(c[..k], score(c[..k])) in beams;
      } else {
        assert Scored([], 0.0) in beams;
      }
    }
    assert Children(codes, beams, k + 1) == below;
  }

  /** There are never more prefixes than codes. */
  lemma RankingFits(codes: set<Code>, n: nat, score: Code -> real, size: nat, k: nat)
    requires Uniform(codes, n) && |codes| <= size && k <= n
    ensures Take(Ranking(Prefixes(codes, k), score), size) == Ranking(Prefixes(codes, k), score)
    ensures Ranks(Ranking(Prefixes(codes, k), score), Prefixes(codes, k), score)
  {
    RankingRanks(Prefixes(codes, k), score);
    RankingSize(Prefixes(codes, k), score);
    PrefixesSize(codes, n, k);
  }

  lemma {:induction false} BeamLengths(codes: set<Code>, score: Code -> real, size: nat, k: nat)
    ensures forall b :: b in BeamAfter(codes, score, size, k) ==> |b.code| == k
  {
    if k > 0 {
      var children := Children(codes, BeamAfter(codes, score, size, k - 1), k);
      RankingRanks(children, score);
      forall c | c in children ensures |c| == k {
        PrefixOfPrefix(codes, c, k - 1);
      }
    }
  }

  /** The code's round is a step of `BeamAfter`. */
  lemma RoundIsBeamAfter(expanded: seq<Scored>, codes: set<Code>, score: Code -> real, size: nat, k: nat)
    requires Expands(expanded, codes, score, BeamAfter(codes, score, size, k))
    ensures Take(SortBy(expanded, Before), size) == BeamAfter(codes, score, size, k + 1)
  {
    BeamLengths(codes, score, size, k);
    ExpandsRanks(expanded, codes, score, BeamAfter(codes, score, size, k), k);
  }

  lemma RankingBetterFirst(s: set<Code>, score: Code -> real)
    ensures BetterFirst(Ranking(s, score))
    ensures forall b :: b in Ranking(s, score) <==> b.code in s && b.score == score(b.code)
  {
    RankingRanks(s, score);
    var list := Ranking(s, score);
    forall i, j | 0 <= i < j < |list| ensures Better(list[i], list[j]) {
      assert list[i] in list && list[j] in list && list[i] != list[j];
      BeforeIsBetter(list[i], list[j]);
    }
  }

  /** What a cut leaves out is behind what it keeps. */
  lemma CutLeavesWorse(list: seq<Scored>, size: nat, x: Scored)
    requires BetterFirst(list) && x in list && x !in Take(list, size)
    ensures |Take(list, size)| == size && forall b :: b in Take(list, size) ==> Better(b, x)
  {
    hide Better;
    var i := PlaceIn(list, size, x);
  }

  lemma PlaceIn<T>(s: seq<T>, n: nat, x: T) returns (i: nat)
    requires x in s
    ensures i < |s| && s[i] == x && (i < n ==> x in Take(s, n))
  {
    i :| 0 <= i < |s| && s[i] == x;
    if i < n {
      assert Take(s, n)[i] == x;
    }
  }

  lemma ReachedIsChild(codes: set<Code>, prev: seq<Scored>, k: nat, c: Code)
    requires forall b :: b in prev ==> |b.code| == k
    ensures Reached(codes, prev, c) <==> c in Children(codes, prev, k + 1)
  {
  }

  lemma CutIsRound(prev: seq<Scored>, codes: set<Code>, score: Code -> real, size: nat, k: nat)
    requires forall b :: b in prev ==> |b.code| == k
    ensures Round(prev, Take(Ranking(Children(codes, prev, k + 1), score), size), codes, score, size)
  {
    var list := Ranking(Children(codes, prev, k + 1), score);
    RankingBetterFirst(Children(codes, prev, k + 1), score);
    hide Ranking, Better, Children, Reached;
    forall b | b in Take(list, size) ensures Reached(codes, prev, b.code) {
      ReachedIsChild(codes, prev, k, b.code);
    }
    forall c | Reached(codes, prev, c) && Scored(c, score(c)) !in Take(list, size)
      ensures |Take(list, size)| == size && forall b :: b in Take(list, size) ==> Better(b, Scored(c, score(c)))
    {
      ReachedIsChild(codes, prev, k, c);
      CutLeavesWorse(list, size, Scored(c, score(c)));
    }
  }

  /** Every round of every search, narrow or wide, keeps the best children. */
  lemma BeamRound(codes: set<Code>, score: Code -> real, size: nat, k: nat)
    ensures Round(BeamAfter(codes, score, size, k), BeamAfter(codes, score, size, k + 1), codes, score, size)
  {
    BeamLengths(codes, score, size, k);
    CutIsRound(BeamAfter(codes, score, size, k), codes, score, size, k);
    hide Round, Ranking, Children;
  }

  lemma RankingSize(s: set<Code>, score: Code -> real)
    ensures |Ranking(s, score)| <= |s|
  {
    RankingRanks(s, score);
    var list := Ranking(s, score);
    var cut := Map(list, (x: Scored) => x.code);
    if list != [] {
      BetterCodes(list, s, score, |list| - 1);
    }
    forall i, j | 0 <= i < j < |list| ensures cut[i] != cut[j] {
      assert list[i] in list && list[j] in list;
    }
    DistinctSize(cut);
    forall c | c in ToSet(cut) ensures c in s {
      var i :| 0 <= i < |cut| && cut[i] == c;
      assert list[i] in list;
    }
    SubsetSize(ToSet(cut), s);
  }

  lemma {:induction false} PrefixesSize(codes: set<Code>, n: nat, k: nat)
    requires Uniform(codes, n) && k <= n
    ensures |Prefixes(codes, k)| <= |codes|
  {
    if codes != {} {
      var c :| c in codes;
      PrefixesSize(codes - {c}, n, k);
      assert Prefixes(codes, k) <= Prefixes(codes - {c}, k) + {c[..k]};
      SubsetSize(Prefixes(codes, k), Prefixes(codes - {c}, k) + {c[..k]});
    } else {
      assert Prefixes(codes, k) == {};
    }
  }

  lemma ExactLengths(beams: seq<Scored>, codes: set<Code>, score: Code -> real, size: nat, k: nat)
    requires Exact(beams, codes, score, size, k)
    ensures forall b :: b in beams ==> |b.code| == k
    ensures k > 0 ==> forall b :: b in beams ==> b.code in Prefixes(codes, k) && b.score == score(b.code)
  {
    if k > 0 {
      RankingRanks(Prefixes(codes, k), score);
    }
  }

  /** At full length the prefixes are the codes themselves. */
  lemma FullPrefixes(codes: set<Code>, n: nat)
    requires Uniform(codes, n)
    ensures Prefixes(codes, n) == codes
  {
    forall c: Code | |c| == n ensures c[..n] == c {
    }
    forall c ensures c in codes <==> c in Prefixes(codes, n) {
      if c in codes {
        assert c[..n] in Prefixes(codes, n);
      }
      if c in Prefixes(codes, n) {
        var full :| full in codes && n <= |full| && c == full[..n];
      }
    }
  }
}
