/** Ranks by descending score, ties by position. */
module Ranks {
  import opened Seqs
  import opened Sorting

  /** A stable sort of the positions by this puts the highest score first. */
  function Higher(scores: seq<real>): (nat, nat) -> bool {
    (a: nat, b: nat) => (if a < |scores| then scores[a] else 0.0) >= (if b < |scores| then scores[b] else 0.0)
  }

  /** The order by (-score, position). */
  predicate Ahead(scores: seq<real>, i: nat, j: nat)
    requires i < |scores| && j < |scores|
  {
    scores[i] > scores[j] || (scores[i] == scores[j] && i < j)
  }

  function AheadOrSame(scores: seq<real>): (nat, nat) -> bool {
    (a: nat, b: nat) =>
      var x, y := if a < |scores| then scores[a] else 0.0, if b < |scores| then scores[b] else 0.0;
      x > y || (x == y && a <= b)
  }

  function AllAhead(scores: seq<real>, i: nat): set<nat>
    requires i < |scores|
  {
    set j: nat | j < |scores| && Ahead(scores, j, i)
  }

  /** One more than the number of positions ahead. */
  function RankOf(scores: seq<real>, i: nat): nat
    requires i < |scores|
  {
    1 + |AllAhead(scores, i)|
  }

  function RankList(scores: seq<real>): (r: seq<nat>)
    ensures |r| == |scores| && forall i :: 0 <= i < |r| ==> r[i] == RankOf(scores, i)
  {
    seq(|scores|, i requires 0 <= i < |scores| => RankOf(scores, i))
  }

  /** A stable sort of positions breaks ties by position. */
  lemma {:induction false} StableBreaksTies(scores: seq<real>, n: nat)
    ensures SortBy(Range(n), Higher(scores)) == SortBy(Range(n), AheadOrSame(scores))
  {
    if n > 0 {
      StableBreaksTies(scores, n - 1);
      assert Range(n)[..n - 1] == Range(n - 1);
      SortElements(Range(n - 1), Higher(scores));
      RangeContains(n - 1);
      InsertSameOrder<nat>(SortBy(Range(n - 1), Higher(scores)), n - 1, Higher(scores), AheadOrSame(scores));
    }
  }

  lemma AheadIsTotalOrder(scores: seq<real>)
    ensures TotalPreorder(AheadOrSame(scores)) && Antisymmetric(AheadOrSame(scores))
  {
  }

  lemma Place(order: seq<nat>, i: nat) returns (k: nat)
    requires i in order
    ensures k < |order| && order[k] == i
  {
    k :| 0 <= k < |order| && order[k] == i;
  }

  lemma RankInOrder(scores: seq<real>, order: seq<nat>, k: nat)
    requires Sorted(order, AheadOrSame(scores)) && Distinct(order) && forall i: nat :: i in order <==> i < |scores|
    requires k < |order| && order[k] < |scores|
    ensures RankOf(scores, order[k]) == k + 1
  {
    AheadIsTotalOrder(scores);
    SortedRank(order, AheadOrSame(scores), k);
    assert ToSet(order[..k]) == AllAhead(scores, order[k]);
  }

  /** What `argsort` returns: every position once, and the k-th has rank k + 1. */
  lemma OrderRanks(scores: seq<real>, order: seq<nat>)
    requires order == SortBy(Range(|scores|), Higher(scores))
    ensures |order| == |scores| && Distinct(order) && forall i: nat :: i in order <==> i < |scores|
    ensures forall k :: 0 <= k < |order| && order[k] < |scores| ==> RankOf(scores, order[k]) == k + 1
  {
    hide RankOf;
    StableBreaksTies(scores, |scores|);
    AheadIsTotalOrder(scores);
    RangeContains(|scores|);
    SortCorrect(Range(|scores|), AheadOrSame(scores));
    SortDistinct(Range(|scores|), AheadOrSame(scores));
    forall k | 0 <= k < |order| && order[k] < |scores| ensures RankOf(scores, order[k]) == k + 1 {
      RankInOrder(scores, order, k);
    }
  }

  /** `_ranks`: scatters 1, 2, 3, ... to the sorted positions. */
  method ComputeRanks(scores: seq<real>) returns (ranks: seq<nat>)
    ensures ranks == RankList(scores)
  {
    var order := SortBy(Range(|scores|), Higher(scores));
    OrderRanks(scores, order);
    assert forall k :: 0 <= k < |order| ==> order[k] in order;
    var out := new nat[|scores|];
    for k := 0 to |order|
      invariant forall l :: 0 <= l < k ==> out[order[l]] == RankOf(scores, order[l])
    {
      out[order[k]] := k + 1;
    }
    forall i | 0 <= i < |scores| ensures out[i] == RankOf(scores, i) {
      var l := Place(order, i);
    }
    ranks := out[..];
  }

  /** The ranks are 1..n, each once, and order the positions by (-score, position). */
  lemma RanksOrder(scores: seq<real>)
    ensures forall i :: 0 <= i < |scores| ==> 1 <= RankList(scores)[i] <= |scores|
    ensures forall i, j :: 0 <= i < |scores| && 0 <= j < |scores| ==>
        (RankList(scores)[i] < RankList(scores)[j] <==> Ahead(scores, i, j))
    ensures Distinct(RankList(scores))
  {
    var order := SortBy(Range(|scores|), Higher(scores));
    OrderRanks(scores, order);
    forall i | 0 <= i < |scores| ensures 1 <= RankList(scores)[i] <= |scores| {
      var k := Place(order, i);
    }
    forall i, j | 0 <= i < |scores| && 0 <= j < |scores|
      ensures RankList(scores)[i] < RankList(scores)[j] <==> Ahead(scores, i, j)
    {
      RankMonotone(scores, i, j);
      RankMonotone(scores, j, i);
    }
    forall i, j | 0 <= i < j < |scores| ensures RankList(scores)[i] != RankList(scores)[j] {
      assert Ahead(scores, i, j) || Ahead(scores, j, i);
    }
  }

  lemma RankMonotone(scores: seq<real>, i: nat, j: nat)
    requires i < |scores| && j < |scores|
    ensures Ahead(scores, i, j) ==> RankOf(scores, i) < RankOf(scores, j)
  {
    if Ahead(scores, i, j) {
      SubsetSize(AllAhead(scores, i) + {i}, AllAhead(scores, j));
    }
  }
}
