/** Multi-route recall merged by reciprocal rank, and truncation to the coarse survivors. */
module Cascade {
  import opened Outcomes
  import opened Seqs
  import opened Sorting
  import opened Ranks

  type Item = int

  datatype Route = Ann | Graph | Geo | Fresh | LongTail | Popular | PostSearch | Retarget {
    function Weight(): real {
      match this
      case Ann => 1.00
      case Graph => 0.85
      case Geo => 0.75
      case Fresh => 0.65
      case LongTail => 0.60
      case Popular => 0.55
      case PostSearch => 0.95
      case Retarget => 0.90
    }
  }

  /** A route's items, best first. */
  datatype Hits = Hits(route: Route, items: seq<Item>)

  /** What `_top` returns: the indices of the highest scores in descending order. Which of several equal scores
      it keeps at the cut is left to the partition it uses. */
  ghost predicate IsTop(scores: seq<real>, limit: nat, kept: seq<nat>) {
    && |kept| == (if limit < |scores| then limit else |scores|)
    && Distinct(kept)
    && (forall i :: i in kept ==> i < |scores|)
    && (forall a, b :: 0 <= a < b < |kept| && kept[a] < |scores| && kept[b] < |scores| ==>
          scores[kept[a]] >= scores[kept[b]])
    && (forall i, j :: i in kept && i < |scores| && 0 <= j < |scores| && j !in kept ==> scores[i] >= scores[j])
  }

  /** One selection that `_top` may make. */
  function SomeTop(scores: seq<real>, limit: nat): (kept: seq<nat>)
    ensures IsTop(scores, limit, kept)
  {
    var order := SortBy(Range(|scores|), Higher(scores));
    assert IsTop(scores, limit, Take(order, limit)) by {
      SortedIsTop(scores, limit);
    }
    Take(order, limit)
  }

  lemma SortedIsTop(scores: seq<real>, limit: nat)
    ensures IsTop(scores, limit, Take(SortBy(Range(|scores|), Higher(scores)), limit))
  {
    var order := SortBy(Range(|scores|), Higher(scores));
    RangeContains(|scores|);
    SortCorrect(Range(|scores|), Higher(scores));
    SortDistinct(Range(|scores|), Higher(scores));
    forall a | 0 <= a < |order| ensures order[a] < |scores| {
      assert order[a] in order;
    }
    OrderIsTop(scores, limit, order);
  }

  /** The head of any full descending order is a top selection. */
  lemma OrderIsTop(scores: seq<real>, limit: nat, order: seq<nat>)
    requires Sorted(order, Higher(scores)) && Distinct(order) && |order| == |scores|
    requires forall i: nat :: i in order <==> i < |scores|
    ensures IsTop(scores, limit, Take(order, limit))
  {
    var kept := Take(order, limit);
    forall a | 0 <= a < |kept| ensures kept[a] < |scores| {
      assert kept[a] in order;
    }
    forall a, b | 0 <= a < b < |order| && order[a] < |scores| && order[b] < |scores|
      ensures scores[order[a]] >= scores[order[b]]
    {
      assert Higher(scores)(order[a], order[b]);
    }
    forall i, j: nat | i in kept && i < |scores| && j < |scores| && j !in kept ensures scores[i] >= scores[j] {
      KeptBeforeDropped(scores, order, |kept|, i, j);
    }
  }

  lemma KeptBeforeDropped(scores: seq<real>, order: seq<nat>, n: nat, i: nat, j: nat)
    requires Sorted(order, Higher(scores)) && n <= |order| && i < |scores| && j < |scores|
    requires i in order[..n] && j in order && j !in order[..n]
    ensures scores[i] >= scores[j]
  {
    var a :| 0 <= a < n && order[a] == i;
    var b :| 0 <= b < |order| && order[b] == j;
    NotInFront(order, n, b);
    assert Higher(scores)(order[a], order[b]);
  }

  /** Any selection of the top scores, ties broken in any fixed way. */
  type TopSelector = f: (seq<real>, nat) -> seq<nat> | forall s, n :: IsTop(s, n, f(s, n)) ghost witness SomeTop

  /** A route's score for every item of the catalogue. */
  datatype RouteScores = RouteScores(route: Route, scores: seq<real>)

  /** `_routes`: each enabled route's top items. */
  function RouteHits(routes: seq<RouteScores>, routeLimit: nat, top: TopSelector): seq<Hits> {
    Map(routes, (r: RouteScores) => Hits(r.route, Map(top(r.scores, routeLimit), (i: nat) => i as Item)))
  }

  lemma RouteHitsDistinct(routes: seq<RouteScores>, routeLimit: nat, top: TopSelector)
    ensures forall h :: h in RouteHits(routes, routeLimit, top) ==> Distinct(h.items)
  {
    forall h | h in RouteHits(routes, routeLimit, top) ensures Distinct(h.items) {
      var i :| 0 <= i < |routes| && RouteHits(routes, routeLimit, top)[i] == h;
      assert IsTop(routes[i].scores, routeLimit, top(routes[i].scores, routeLimit));
    }
  }

  /** The routes' weights lie in (0, 1], in this order. */
  lemma WeightsOrder()
    ensures 1.0 == Ann.Weight() > PostSearch.Weight() > Retarget.Weight() > Graph.Weight() > Geo.Weight()
    ensures Geo.Weight() > Fresh.Weight() > LongTail.Weight() > Popular.Weight() > 0.5
  {
  }

  /** A route hits its best items, best first: as many as its limit and the catalogue allow, none of them scoring below
      one it leaves out. */
  lemma RouteHitsAreBest(routes: seq<RouteScores>, routeLimit: nat, top: TopSelector, r: nat)
    requires r < |routes|
    ensures var items, scores := RouteHits(routes, routeLimit, top)[r].items, routes[r].scores;
      && RouteHits(routes, routeLimit, top)[r].route == routes[r].route
      && |items| == (if routeLimit < |scores| then routeLimit else |scores|)
      && (forall a :: 0 <= a < |items| ==> 0 <= items[a] < |scores|)
      && (forall a, b :: 0 <= a < b < |items| ==> scores[items[a]] >= scores[items[b]])
      && (forall x :: x in items ==> 0 <= x < |scores|)
      && (forall x, y :: x in items && 0 <= y < |scores| && y !in items ==> scores[x] >= scores[y])
  {
    var kept, scores := top(routes[r].scores, routeLimit), routes[r].scores;
    var items := RouteHits(routes, routeLimit, top)[r].items;
    assert IsTop(scores, routeLimit, kept);
    forall a | 0 <= a < |items| ensures items[a] == kept[a] && kept[a] in kept {
    }
    forall y: nat | y in kept ensures y in items {
      var b :| 0 <= b < |kept| && kept[b] == y;
      assert items[b] == y;
    }
    forall x | x in items ensures x >= 0 && x in kept {
      var a :| 0 <= a < |items| && items[a] == x;
    }
  }

  // ---------------------------------------------------------------------------------------------
  // The merge.

  /** 1-based position of an item in a list that has it. */
  function Position(items: seq<Item>, item: Item): nat {
    if items == [] || items[0] == item then 1 else 1 + Position(items[1..], item)
  }

  /** What one route contributes to an item: its weight over 20 plus the item's position in the full list. */
  ghost function Credit(h: Hits, item: Item): real {
    if item in h.items then h.route.Weight() / (20 + Position(h.items, item)) as real else 0.0
  }

  ghost function RrfScore(hits: seq<Hits>, item: Item): real {
    Sum(hits, (h: Hits) => Credit(h, item))
  }

  ghost function RoutesOf(hits: seq<Hits>, item: Item): seq<Route> {
    Map(Filter(hits, (h: Hits) => item in h.items), (h: Hits) => h.route)
  }

  ghost predicate Reached(hits: seq<Hits>, item: Item) {
    exists h :: h in hits && item in h.items
  }

  /** The dictionaries after merging: one entry for every unseen item some route reached. */
  ghost predicate Merged(hits: seq<Hits>, seen: set<Item>, order: seq<Item>, merged: map<Item, real>,
                         itemRoutes: map<Item, seq<Route>>) {
    && Distinct(order)
    && (forall x :: x in order <==> x in merged)
    && merged.Keys == itemRoutes.Keys
    && (forall x :: x in merged <==> Reached(hits, x) && x !in seen)
    && (forall x :: x in merged ==> merged[x] == RrfScore(hits, x) && itemRoutes[x] == RoutesOf(hits, x))
  }

  lemma {:induction false} PositionOf(items: seq<Item>, k: nat)
    requires Distinct(items) && k < |items|
    ensures Position(items, items[k]) == k + 1
  {
    if k > 0 {
      assert items[0] != items[k];
      assert items[1..][k - 1] == items[k];
      PositionOf(items[1..], k - 1);
    }
  }

  lemma HitsSnoc(hits: seq<Hits>, h: Hits, item: Item)
    ensures RrfScore(hits + [h], item) == RrfScore(hits, item) + Credit(h, item)
    ensures RoutesOf(hits + [h], item) == RoutesOf(hits, item) + if item in h.items then [h.route] else []
    ensures Reached(hits + [h], item) <==> Reached(hits, item) || item in h.items
  {
    assert (hits + [h])[..|hits|] == hits;
    var hit := (h: Hits) => item in h.items;
    FilterSnoc(hits, h, hit);
    MapSnoc(Filter(hits, hit), h, (h: Hits) => h.route);
    assert forall x :: x in hits + [h] <==> x in hits || x == h;
  }

  lemma Unreached(hits: seq<Hits>, item: Item)
    requires !Reached(hits, item)
    ensures RrfScore(hits, item) == 0.0 && RoutesOf(hits, item) == []
  {
    FilterNone(hits, (h: Hits) => item in h.items);
    SumNonNegative(hits, (h: Hits) => Credit(h, item));
  }

  /** One more item of the route `h`: entry k of its list. */
  method MergeItem(ghost done: seq<Hits>, h: Hits, k: nat, seen: set<Item>, order: seq<Item>, merged: map<Item, real>,
                   itemRoutes: map<Item, seq<Route>>)
    returns (order': seq<Item>, merged': map<Item, real>, itemRoutes': map<Item, seq<Route>>)
    requires Distinct(h.items) && k < |h.items|
    requires Merging(done, h, k, seen, order, merged, itemRoutes)
    ensures Merging(done, h, k + 1, seen, order', merged', itemRoutes')
  {
    hide RrfScore, RoutesOf, Reached, Position;
    order', merged', itemRoutes' := order, merged, itemRoutes;
    var item := h.items[k];
    PrefixContains(h.items, k);
    PositionOf(h.items, k);
    if item in seen {
      return;
    }
    if item !in merged {
      Unreached(done, item);
      order' := order + [item];
    }
    merged' := merged[item := (if item in merged then merged[item] else 0.0) + h.route.Weight() / (20 + k + 1) as real];
    itemRoutes' := itemRoutes[item := (if item in itemRoutes then itemRoutes[item] else []) + [h.route]];
  }

  lemma PrefixContains(items: seq<Item>, k: nat)
    requires Distinct(items) && k < |items|
    ensures forall x :: x in items[..k + 1] <==> x in items[..k] || x == items[k]
    ensures items[k] !in items[..k]
  {
    assert items[..k + 1] == items[..k] + [items[k]];
  }

  /** In the middle of a route: its first k items are in. */
  ghost predicate Merging(done: seq<Hits>, h: Hits, k: nat, seen: set<Item>, order: seq<Item>, merged: map<Item, real>,
                          itemRoutes: map<Item, seq<Route>>)
    requires k <= |h.items|
  {
    && Distinct(order)
    && (forall x :: x in order <==> x in merged)
    && merged.Keys == itemRoutes.Keys
    && (forall x :: x in merged <==> (Reached(done, x) || x in h.items[..k]) && x !in seen)
    && (forall x :: x in merged ==>
          && merged[x] == RrfScore(done, x) + (if x in h.items[..k] then Credit(h, x) else 0.0)
          && itemRoutes[x] == RoutesOf(done, x) + (if x in h.items[..k] then [h.route] else []))
  }

  method MergeRoute(ghost done: seq<Hits>, h: Hits, seen: set<Item>, order: seq<Item>, merged: map<Item, real>,
                    itemRoutes: map<Item, seq<Route>>)
    returns (order': seq<Item>, merged': map<Item, real>, itemRoutes': map<Item, seq<Route>>)
    requires Distinct(h.items) && Merged(done, seen, order, merged, itemRoutes)
    ensures Merged(done + [h], seen, order', merged', itemRoutes')
  {
    order', merged', itemRoutes' := order, merged, itemRoutes;
    for k := 0 to |h.items|
      invariant Merging(done, h, k, seen, order', merged', itemRoutes')
    {
      order', merged', itemRoutes' := MergeItem(done, h, k, seen, order', merged', itemRoutes');
    }
    assert h.items[..|h.items|] == h.items;
    forall x {
      HitsSnoc(done, h, x);
    }
  }

  method MergeRoutes(hits: seq<Hits>, seen: set<Item>)
    returns (order: seq<Item>, merged: map<Item, real>, itemRoutes: map<Item, seq<Route>>)
    requires forall h :: h in hits ==> Distinct(h.items)
    ensures Merged(hits, seen, order, merged, itemRoutes)
  {
    order, merged, itemRoutes := [], map[], map[];
    for r := 0 to |hits|
      invariant Merged(hits[..r], seen, order, merged, itemRoutes)
    {
      assert hits[r] in hits;
      assert hits[..r + 1] == hits[..r] + [hits[r]];
      order, merged, itemRoutes := MergeRoute(hits[..r], hits[r], seen, order, merged, itemRoutes);
    }
    assert hits[..|hits|] == hits;
  }

  // ---------------------------------------------------------------------------------------------
  // Recall.

  /** The sort key `(-merged[item], item)`. */
  ghost function ByRrf(hits: seq<Hits>): (Item, Item) -> bool {
    (a: Item, b: Item) => RrfScore(hits, a) > RrfScore(hits, b) || (RrfScore(hits, a) == RrfScore(hits, b) && a <= b)
  }

  function ByMerged(merged: map<Item, real>): (Item, Item) -> bool {
    (a: Item, b: Item) =>
      var x, y := if a in merged then merged[a] else 0.0, if b in merged then merged[b] else 0.0;
      x > y || (x == y && a <= b)
  }

  ghost function Candidates(hits: seq<Hits>, seen: set<Item>): set<Item> {
    set h, x | h in hits && x in h.items && x !in seen :: x
  }

  /** The merged candidates by descending score, ties by id, cut to the merge limit. */
  ghost function Recalled(hits: seq<Hits>, seen: set<Item>, mergeLimit: nat): seq<Item> {
    Take(SortBy(ListOf(Candidates(hits, seen)), ByRrf(hits)), mergeLimit)
  }

  datatype CandidateBatch = CandidateBatch(
    items: seq<Item>, routes: seq<seq<Route>>, recalledItems: seq<Item>, recalledRoutes: seq<seq<Route>>,
    recallScores: seq<real>, coarseScores: seq<real>)

  function Pick<T>(s: seq<T>, indices: seq<nat>): (r: seq<T>)
    requires forall i :: i in indices ==> i < |s|
    ensures |r| == |indices| && forall a :: 0 <= a < |indices| ==> indices[a] in indices && r[a] == s[indices[a]]
  {
    seq(|indices|, a requires 0 <= a < |indices| => assert indices[a] in indices; s[indices[a]])
  }

  /** The whole recall: with nothing recalled, the coarse selection has nothing to partition and fails. */
  ghost function RecallOf(hits: seq<Hits>, seen: set<Item>, mergeLimit: nat, count: nat, coarse: (Item, real) -> real,
                          top: TopSelector): Result<CandidateBatch, string> {
    var recalled := Recalled(hits, seen, mergeLimit);
    if recalled == [] then Failure("kth out of bounds")
    else
      var scores := Map(recalled, (x: Item) => RrfScore(hits, x));
      var coarseScores := Map(recalled, (x: Item) => coarse(x, RrfScore(hits, x)));
      var kept := top(coarseScores, count);
      assert IsTop(coarseScores, count, kept);
      var items := Pick(recalled, kept);
      Success(CandidateBatch(items, Map(items, (x: Item) => RoutesOf(hits, x)), recalled,
                             Map(recalled, (x: Item) => RoutesOf(hits, x)), scores, coarseScores))
  }

  lemma ByRrfIsTotalOrder(hits: seq<Hits>)
    ensures TotalPreorder(ByRrf(hits)) && Antisymmetric(ByRrf(hits))
  {
  }

  /** Any listing of the candidates, sorted by the dictionary's scores, is the recalled order. */
  lemma MergedSorts(hits: seq<Hits>, seen: set<Item>, order: seq<Item>, merged: map<Item, real>,
                    itemRoutes: map<Item, seq<Route>>)
    requires Merged(hits, seen, order, merged, itemRoutes)
    ensures SortBy(order, ByMerged(merged)) == SortBy(ListOf(Candidates(hits, seen)), ByRrf(hits))
  {
    var list := ListOf(Candidates(hits, seen));
    forall x ensures x in order <==> x in list {
      assert x in Candidates(hits, seen) <==> Reached(hits, x) && x !in seen;
    }
    SameElementsSameMultiset(order, list);
    ByRrfIsTotalOrder(hits);
    SortUnique(order, list, ByRrf(hits));
    SortSameOrder(order, ByMerged(merged), ByRrf(hits));
  }

  method Recall(hits: seq<Hits>, seen: set<Item>, mergeLimit: nat, count: nat, coarse: (Item, real) -> real,
                top: TopSelector) returns (r: Result<CandidateBatch, string>)
    requires forall h :: h in hits ==> Distinct(h.items)
    ensures r == RecallOf(hits, seen, mergeLimit, count, coarse, top)
  {
    var order, merged, itemRoutes := MergeRoutes(hits, seen);
    var recalled := Take(SortBy(order, ByMerged(merged)), mergeLimit);
    MergedSorts(hits, seen, order, merged, itemRoutes);
    if recalled == [] {
      return Failure("kth out of bounds");
    }
    RecalledCorrect(hits, seen, mergeLimit);
    forall x | x in recalled ensures x in merged {
      assert Reached(hits, x);
    }
    var scores := Map(recalled, (x: Item) => if x in merged then merged[x] else 0.0);
    var coarseScores := Map(recalled, (x: Item) => coarse(x, if x in merged then merged[x] else 0.0));
    MapSame(recalled, (x: Item) => if x in merged then merged[x] else 0.0, (x: Item) => RrfScore(hits, x));
    MapSame(recalled, (x: Item) => coarse(x, if x in merged then merged[x] else 0.0),
            (x: Item) => coarse(x, RrfScore(hits, x)));
    var kept := top(coarseScores, count);
    assert IsTop(coarseScores, count, kept);
    var items := Pick(recalled, kept);
    var routesOf := (x: Item) => if x in itemRoutes then itemRoutes[x] else [];
    MapSame(recalled, routesOf, (x: Item) => RoutesOf(hits, x));
    forall x | x in items ensures x in merged {
      var a :| 0 <= a < |items| && items[a] == x;
      assert kept[a] in kept && recalled[kept[a]] in recalled;
    }
    MapSame(items, routesOf, (x: Item) => RoutesOf(hits, x));
    r := Success(CandidateBatch(items, Map(items, routesOf), recalled, Map(recalled, routesOf), scores, coarseScores));
  }

  /** A larger reciprocal-rank sum, or at equal sums a smaller id. */
  ghost predicate Outranks(hits: seq<Hits>, x: Item, y: Item) {
    RrfScore(hits, x) > RrfScore(hits, y) || (RrfScore(hits, x) == RrfScore(hits, y) && x < y)
  }

  /** Recalled items are distinct, unseen, reached by some route, as many as the limit allows, and in descending
      order of their reciprocal-rank sums with ties by id; no candidate left out ranks before one taken. */
  lemma RecalledCorrect(hits: seq<Hits>, seen: set<Item>, mergeLimit: nat)
    ensures var recalled := Recalled(hits, seen, mergeLimit);
      && Distinct(recalled)
      && (forall a, b :: 0 <= a < b < |recalled| ==> Outranks(hits, recalled[a], recalled[b]))
      && (forall x :: x in recalled ==> x !in seen && Reached(hits, x))
      && |recalled| == (if mergeLimit < |Candidates(hits, seen)| then mergeLimit else |Candidates(hits, seen)|)
      && (forall x, y :: x in recalled && y in Candidates(hits, seen) && y !in recalled ==> Outranks(hits, x, y))
  {
    var sorted := SortBy(ListOf(Candidates(hits, seen)), ByRrf(hits));
    CandidatesSorted(hits, seen);
    hide ByRrf, SortBy, Candidates, Outranks;
    var recalled := Recalled(hits, seen, mergeLimit);
    assert recalled == Take(sorted, mergeLimit);
    forall x, y | x in recalled && y in Candidates(hits, seen) && y !in recalled ensures Outranks(hits, x, y) {
      var a :| 0 <= a < |recalled| && recalled[a] == x;
      var b :| 0 <= b < |sorted| && sorted[b] == y;
      NotInFront(sorted, |recalled|, b);
    }
  }

  /** All candidates in order. */
  lemma CandidatesSorted(hits: seq<Hits>, seen: set<Item>)
    ensures var sorted := SortBy(ListOf(Candidates(hits, seen)), ByRrf(hits));
      && Distinct(sorted) && |sorted| == |Candidates(hits, seen)|
      && (forall x :: x in sorted <==> x in Candidates(hits, seen))
      && (forall a, b :: 0 <= a < b < |sorted| ==> Outranks(hits, sorted[a], sorted[b]))
    ensures forall x :: x in Candidates(hits, seen) ==> x !in seen && Reached(hits, x)
  {
    var list := ListOf(Candidates(hits, seen));
    var sorted := SortBy(list, ByRrf(hits));
    ByRrfIsTotalOrder(hits);
    SortCorrect(list, ByRrf(hits));
    SortDistinct(list, ByRrf(hits));
    DistinctSize(list);
    assert ToSet(list) == Candidates(hits, seen);
    hide RrfScore, SortBy;
    forall a, b | 0 <= a < b < |sorted| ensures Outranks(hits, sorted[a], sorted[b]) {
      assert ByRrf(hits)(sorted[a], sorted[b]) && sorted[a] != sorted[b];
    }
  }

  /** The survivors of the coarse cut are distinct recalled items, as many as asked for if there are, and none of
      the recalled items left out has a higher coarse score than one kept. */
  lemma SurvivorsAreTop(hits: seq<Hits>, seen: set<Item>, mergeLimit: nat, count: nat, coarse: (Item, real) -> real,
                        top: TopSelector)
    requires RecallOf(hits, seen, mergeLimit, count, coarse, top).Success?
    ensures var b := RecallOf(hits, seen, mergeLimit, count, coarse, top).value;
      && Distinct(b.items) && |b.items| == (if count < |b.recalledItems| then count else |b.recalledItems|)
      && (forall x :: x in b.items ==> x in b.recalledItems && x !in seen)
      && (forall x, y :: x in b.items && y in b.recalledItems && y !in b.items ==>
            coarse(x, RrfScore(hits, x)) >= coarse(y, RrfScore(hits, y)))
  {
    var b := RecallOf(hits, seen, mergeLimit, count, coarse, top).value;
    RecalledCorrect(hits, seen, mergeLimit);
    var kept := top(b.coarseScores, count);
    assert IsTop(b.coarseScores, count, kept);
    PickedAreTop(b.recalledItems, (x: Item) => coarse(x, RrfScore(hits, x)), b.coarseScores, count, kept);
  }

  lemma PickedAreTop(recalled: seq<Item>, value: Item -> real, scores: seq<real>, count: nat, kept: seq<nat>)
    requires Distinct(recalled) && scores == Map(recalled, value) && IsTop(scores, count, kept)
    ensures var items := Pick(recalled, kept);
      && Distinct(items) && |items| == (if count < |recalled| then count else |recalled|)
      && (forall x :: x in items ==> x in recalled)
      && (forall x, y :: x in items && y in recalled && y !in items ==> value(x) >= value(y))
  {
    var items := Pick(recalled, kept);
    forall a, b | 0 <= a < b < |items| ensures items[a] != items[b] {
      assert kept[a] != kept[b] && kept[a] in kept && kept[b] in kept;
    }
    forall x, y | x in items && y in recalled && y !in items ensures value(x) >= value(y) {
      var a :| 0 <= a < |items| && items[a] == x;
      var j :| 0 <= j < |recalled| && recalled[j] == y;
      assert forall c :: 0 <= c < |kept| ==> items[c] == recalled[kept[c]] && items[c] in items;
      assert j !in kept && kept[a] in kept;
      assert scores[kept[a]] >= scores[j];
    }
  }
}
