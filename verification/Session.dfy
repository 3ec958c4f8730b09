/** Greedy session building under an author cap and a category cap. */
module Session {
  import opened Outcomes
  import opened Seqs
  import opened SemanticIds
  import opened Retriever
  import Beam
  import LearnedRetriever

  datatype Rules = Rules(author: int -> int, category: int -> int, authorCap: int, categoryCap: int) {
    ghost function OfAuthor(s: seq<GeneratedItem>, a: int): int {
      |Filter(s, (g: GeneratedItem) => author(g.item) == a)|
    }

    ghost function OfCategory(s: seq<GeneratedItem>, c: int): int {
      |Filter(s, (g: GeneratedItem) => category(g.item) == c)|
    }

    /** Adding g to the selection would break a cap. */
    ghost predicate Full(selected: seq<GeneratedItem>, g: GeneratedItem) {
      OfAuthor(selected, author(g.item)) >= authorCap || OfCategory(selected, category(g.item)) >= categoryCap
    }

    /** The selection after the loop has looked at all candidates: it stops once it holds `size`. */
    ghost function Greedy(candidates: seq<GeneratedItem>, size: nat): seq<GeneratedItem> {
      if candidates == [] then []
      else
        var before, g := Greedy(candidates[..|candidates| - 1], size), candidates[|candidates| - 1];
        if |before| >= size || Full(before, g) then before else before + [g]
    }
  }

  function AtLeastZero(n: int): int {
    if n > 0 then n else 0
  }

  /** Both caps hold for every author and category, and the session keeps the candidates' order. */
  lemma {:induction false} GreedyRespectsCaps(rules: Rules, candidates: seq<GeneratedItem>, size: nat)
    ensures |rules.Greedy(candidates, size)| <= size
    ensures Subsequence(rules.Greedy(candidates, size), candidates)
    ensures forall a :: rules.OfAuthor(rules.Greedy(candidates, size), a) <= AtLeastZero(rules.authorCap)
    ensures forall c :: rules.OfCategory(rules.Greedy(candidates, size), c) <= AtLeastZero(rules.categoryCap)
  {
    if candidates != [] {
      var front, g := candidates[..|candidates| - 1], candidates[|candidates| - 1];
      var before := rules.Greedy(front, size);
      GreedyRespectsCaps(rules, front, size);
      assert candidates == front + [g];
      if |before| >= size || rules.Full(before, g) {
        SubsequenceAppend(before, front, [g]);
      } else {
        assert (before + [g])[..|before|] == before;
        forall a ensures rules.OfAuthor(before + [g], a) ==
          rules.OfAuthor(before, a) + if rules.author(g.item) == a then 1 else 0
        {
          FilterSnoc(before, g, (x: GeneratedItem) => rules.author(x.item) == a);
        }
        forall c ensures rules.OfCategory(before + [g], c) ==
          rules.OfCategory(before, c) + if rules.category(g.item) == c then 1 else 0
        {
          FilterSnoc(before, g, (x: GeneratedItem) => rules.category(x.item) == c);
        }
      }
    }
  }

  /** Later candidates only add to the selection. */
  lemma {:induction false} GreedyGrows(rules: Rules, candidates: seq<GeneratedItem>, k: nat, size: nat)
    requires k <= |candidates|
    ensures rules.Greedy(candidates[..k], size) <= rules.Greedy(candidates, size)
    ensures k < |candidates| && |rules.Greedy(candidates[..k], size)| < size
      && !rules.Full(rules.Greedy(candidates[..k], size), candidates[k])
      ==> rules.Greedy(candidates[..k], size) + [candidates[k]] <= rules.Greedy(candidates, size)
    decreases |candidates|
  {
    hide Rules.Full;
    if k == |candidates| {
      assert candidates[..k] == candidates;
    } else {
      var front := candidates[..|candidates| - 1];
      GreedyGrows(rules, front, k, size);
      assert front[..k] == candidates[..k];
    }
  }

  /** A candidate the loop reached and left out had its author's or category's cap used up already,
      by candidates ranked above it. */
  lemma SkippedOnlyWhenFull(rules: Rules, candidates: seq<GeneratedItem>, k: nat, size: nat)
    requires k < |candidates| && |rules.Greedy(candidates[..k], size)| < size
    requires candidates[k] !in rules.Greedy(candidates, size)
    ensures rules.Full(rules.Greedy(candidates[..k], size), candidates[k])
    ensures rules.Greedy(candidates[..k], size) <= rules.Greedy(candidates, size)
  {
    GreedyGrows(rules, candidates, k, size);
    var before := rules.Greedy(candidates[..k], size);
    assert candidates[k] in before + [candidates[k]];
  }

  function CountOf(counts: map<int, int>, key: int): int {
    if key in counts then counts[key] else 0
  }

  /** The two dictionaries count the selection by author and by category. */
  ghost predicate Counts(rules: Rules, selected: seq<GeneratedItem>, authors: map<int, int>, categories: map<int, int>) {
    && (forall a :: CountOf(authors, a) == rules.OfAuthor(selected, a))
    && (forall c :: CountOf(categories, c) == rules.OfCategory(selected, c))
  }

  lemma CountsSnoc(rules: Rules, selected: seq<GeneratedItem>, g: GeneratedItem, authors: map<int, int>,
                   categories: map<int, int>)
    requires Counts(rules, selected, authors, categories)
    ensures var a, c := rules.author(g.item), rules.category(g.item);
      Counts(rules, selected + [g], authors[a := CountOf(authors, a) + 1], categories[c := CountOf(categories, c) + 1])
  {
    hide Filter;
    forall a ensures rules.OfAuthor(selected + [g], a) ==
      rules.OfAuthor(selected, a) + if rules.author(g.item) == a then 1 else 0
    {
      FilterSnoc(selected, g, (x: GeneratedItem) => rules.author(x.item) == a);
    }
    forall c ensures rules.OfCategory(selected + [g], c) ==
      rules.OfCategory(selected, c) + if rules.category(g.item) == c then 1 else 0
    {
      FilterSnoc(selected, g, (x: GeneratedItem) => rules.category(x.item) == c);
    }
  }

  lemma CountsRead(rules: Rules, selected: seq<GeneratedItem>, g: GeneratedItem, authors: map<int, int>,
                   categories: map<int, int>)
    requires Counts(rules, selected, authors, categories)
    ensures rules.Full(selected, g) <==>
      CountOf(authors, rules.author(g.item)) >= rules.authorCap ||
      CountOf(categories, rules.category(g.item)) >= rules.categoryCap
  {
  }

  method Select(rules: Rules, candidates: seq<GeneratedItem>, size: nat) returns (selected: seq<GeneratedItem>)
    requires size == 0 ==> candidates == []
    ensures selected == rules.Greedy(candidates, size)
  {
    var authorCount: map<int, int>, categoryCount: map<int, int> := map[], map[];
    selected := [];
    for k := 0 to |candidates|
      invariant selected == rules.Greedy(candidates[..k], size)
      invariant |candidates| > 0 ==> |selected| < size
      invariant Counts(rules, selected, authorCount, categoryCount)
    {
      var candidate := candidates[k];
      var author, category := rules.author(candidate.item), rules.category(candidate.item);
      assert candidates[..k + 1][..k] == candidates[..k];
      CountsRead(rules, selected, candidate, authorCount, categoryCount);
      if CountOf(authorCount, author) >= rules.authorCap {
        continue;
      }
      if CountOf(categoryCount, category) >= rules.categoryCap {
        continue;
      }
      CountsSnoc(rules, selected, candidate, authorCount, categoryCount);
      selected := selected + [candidate];
      authorCount := authorCount[author := CountOf(authorCount, author) + 1];
      categoryCount := categoryCount[category := CountOf(categoryCount, category) + 1];
      if |selected| == size {
        GreedyStops(rules, candidates, k + 1, size);
        return;
      }
    }
    assert candidates[..|candidates|] == candidates;
  }

  lemma {:induction false} GreedyStops(rules: Rules, candidates: seq<GeneratedItem>, k: nat, size: nat)
    requires k <= |candidates| && |rules.Greedy(candidates[..k], size)| == size
    ensures rules.Greedy(candidates, size) == rules.Greedy(candidates[..k], size)
  {
    GreedyGrows(rules, candidates, k, size);
    GreedyRespectsCaps(rules, candidates, size);
  }

  method Generate(index: SemanticIdIndex, v: LearnedRetriever.SemanticVocabulary,
                  logProbability: (Code, int) -> real, rules: Rules, size: nat)
    returns (r: Result<seq<GeneratedItem>, string>, ghost candidates: seq<GeneratedItem>)
    requires index.WellFormed() && forall e :: e in index.codes ==> |e.code| == |v.offsets|
    ensures r.Failure? <==> index.codes == []
    ensures r.Success? ==> r.value == rules.Greedy(candidates, size)
    ensures r.Success? ==> |candidates| <= size * 5
    ensures r.Success? ==>
      LearnedRetriever.Likeliest(candidates, index, LearnedRetriever.JointScore(v, logProbability))
    ensures r.Success? ==>
      LearnedRetriever.ItemsOf(
        candidates, index,
        Beam.BeamAfter(index.CodeSet(), LearnedRetriever.JointScore(v, logProbability), size * 10, |v.offsets|), size * 5)
    ensures r.Success? && |index.codes| <= size * 10 ==>
      candidates == Take(CatalogueRanking(index, LearnedRetriever.JointOf(v, logProbability)), size * 5)
  {
    var found := LearnedRetriever.Retrieve(index, v, logProbability, size * 5, size * 10);
    if found.Failure? {
      return Failure(found.error), [];
    }
    candidates := found.value;
    var selected := Select(rules, found.value, size);
    r := Success(selected);
  }
}
