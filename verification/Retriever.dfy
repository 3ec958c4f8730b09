/** Beam retrieval scored by the best item below a prefix: a narrow beam that ranks exactly. */
module Retriever {
  import opened Outcomes
  import opened Seqs
  import opened Sorting
  import opened SemanticIds
  import opened Beam
  import Lex

  datatype GeneratedItem = GeneratedItem(item: int, code: Code, score: real)

  predicate ItemBefore(a: GeneratedItem, b: GeneratedItem) {
    Before(Scored(a.code, a.score), Scored(b.code, b.score))
  }

  /** Items by descending score; of two with equal scores the one whose code is smaller at the first difference. */
  ghost predicate BestFirst(items: seq<GeneratedItem>) {
    forall i, j :: 0 <= i < j < |items| ==>
      || items[i].score > items[j].score
      || (items[i].score == items[j].score && exists k: nat :: Lex.SmallerFrom(items[i].code, items[j].code, k))
  }

  function Max(s: seq<real>): real
    requires s != []
  {
    var last := s[|s| - 1];
    if |s| == 1 then last
    else
      var best := Max(s[..|s| - 1]);
      if best < last then last else best
  }

  lemma {:induction false} MaxCorrect(s: seq<real>)
    requires s != []
    ensures Max(s) in s && forall x :: x in s ==> x <= Max(s)
  {
    if |s| > 1 {
      MaxCorrect(s[..|s| - 1]);
      assert s == s[..|s| - 1] + [s[|s| - 1]];
    }
  }

  /** `code[: len(prefix)] == prefix`. */
  predicate HasPrefix(prefix: Code, code: Code) {
    |prefix| <= |code| && code[..|prefix|] == prefix
  }

  /** `similarity` is the dot product of one query with each item's embedding. `None` is minus infinity. */
  function PrefixScore(index: SemanticIdIndex, similarity: int -> real, prefix: Code): Option<real> {
    var matching := Filter(index.codes, (e: Entry) => HasPrefix(prefix, e.code));
    if matching == [] then None else Some(Max(Map(matching, (e: Entry) => similarity(e.item))))
  }

  /** The best similarity below the prefix: attained, and not exceeded. */
  lemma PrefixScoreIsBest(index: SemanticIdIndex, similarity: int -> real, prefix: Code)
    ensures PrefixScore(index, similarity, prefix) == None <==>
      forall e :: e in index.codes ==> !HasPrefix(prefix, e.code)
    ensures forall best :: PrefixScore(index, similarity, prefix) == Some(best) ==>
      && (exists e :: e in index.codes && HasPrefix(prefix, e.code) && similarity(e.item) == best)
      && (forall e :: e in index.codes && HasPrefix(prefix, e.code) ==> similarity(e.item) <= best)
  {
    var p, f := (e: Entry) => HasPrefix(prefix, e.code), (e: Entry) => similarity(e.item);
    var matching := Filter(index.codes, p);
    FilterContains(index.codes, p);
    SameElementsBothEmpty(matching, matching);
    if matching == [] {
      forall e | e in index.codes ensures !HasPrefix(prefix, e.code) {
        assert e !in matching;
      }
    } else {
      assert matching[0] in matching;
      MaxCorrect(Map(matching, f));
      var i :| 0 <= i < |matching| && Map(matching, f)[i] == Max(Map(matching, f));
      assert matching[i] in index.codes && HasPrefix(prefix, matching[i].code);
      forall e | e in index.codes && HasPrefix(prefix, e.code) ensures similarity(e.item) <= Max(Map(matching, f)) {
        assert e in matching;
        var j :| 0 <= j < |matching| && matching[j] == e;
        assert Map(matching, f)[j] in Map(matching, f);
      }
    }
  }

  ghost function ScoreOf(index: SemanticIdIndex, similarity: int -> real): Code -> real {
    (c: Code) => PrefixScore(index, similarity, c).GetOr(x => x, 0.0)
  }

  ghost predicate CodeLength(index: SemanticIdIndex, n: nat) {
    n > 0 && forall e :: e in index.codes ==> |e.code| == n
  }

  lemma ItemBelow(index: SemanticIdIndex, prefix: Code, k: nat) returns (e: Entry)
    requires prefix in Prefixes(index.CodeSet(), k)
    ensures e in index.codes && HasPrefix(prefix, e.code) && |prefix| == k
  {
    var full :| full in index.CodeSet() && k <= |full| && prefix == full[..k];
    e :| e in index.codes && e.code == full;
  }

  /** The best item below a prefix is below one of its children, and none below a child is better. */
  lemma PrefixScoreBestBelow(index: SemanticIdIndex, similarity: int -> real, n: nat)
    requires CodeLength(index, n)
    ensures BestBelow(index.CodeSet(), n, ScoreOf(index, similarity))
  {
    var codes, score := index.CodeSet(), ScoreOf(index, similarity);
    hide ScoreOf, CodeLength, HasBestChild, Child;
    forall k: nat, p | 0 < k < n && p in Prefixes(codes, k)
      ensures HasBestChild(codes, score, p) && forall c :: Child(codes, p, c) ==> score(c) <= score(p)
    {
      PrefixScoreBest(index, similarity, n, p, k);
    }
  }

  lemma PrefixScoreBest(index: SemanticIdIndex, similarity: int -> real, n: nat, p: Code, k: nat)
    requires CodeLength(index, n) && 0 < k < n && p in Prefixes(index.CodeSet(), k)
    ensures var codes, score := index.CodeSet(), ScoreOf(index, similarity);
      HasBestChild(codes, score, p) && forall c :: Child(codes, p, c) ==> score(c) <= score(p)
  {
    BestItemBelowChild(index, similarity, n, p, k);
    hide ScoreOf, CodeLength;
    forall c | Child(index.CodeSet(), p, c) ensures ScoreOf(index, similarity)(c) <= ScoreOf(index, similarity)(p) {
      ChildScoresBelow(index, similarity, p, c);
    }
  }

  lemma BestItemBelowChild(index: SemanticIdIndex, similarity: int -> real, n: nat, p: Code, k: nat)
    requires CodeLength(index, n) && k < n && p in Prefixes(index.CodeSet(), k)
    ensures HasBestChild(index.CodeSet(), ScoreOf(index, similarity), p)
  {
    var e := ItemBelow(index, p, k);
    PrefixScoreIsBest(index, similarity, p);
    var best := PrefixScore(index, similarity, p).value;
    var top :| top in index.codes && HasPrefix(p, top.code) && similarity(top.item) == best;
    var down := top.code[..k + 1];
    assert top.code in index.CodeSet() && down[..k] == p && Child(index.CodeSet(), p, down);
    ChildScoresBelow(index, similarity, p, down);
    PrefixScoreIsBest(index, similarity, down);
    assert HasPrefix(down, top.code);
  }

  lemma ChildScoresBelow(index: SemanticIdIndex, similarity: int -> real, p: Code, c: Code)
    requires Child(index.CodeSet(), p, c)
    ensures ScoreOf(index, similarity)(c) <= ScoreOf(index, similarity)(p)
  {
    PrefixScoreIsBest(index, similarity, p);
    PrefixScoreIsBest(index, similarity, c);
    var e := ItemBelow(index, c, |c|);
    var best := PrefixScore(index, similarity, c).value;
    var top :| top in index.codes && HasPrefix(c, top.code) && similarity(top.item) == best;
    assert top.code[..|p|] == c[..|p|];
    assert HasPrefix(p, top.code);
  }

  /** The trie's edges at a prefix lead to its children. */
  lemma TokensAreChildren(index: SemanticIdIndex, prefix: Code)
    ensures Increasing(index.ValidNextTokens(prefix))
    ensures forall c :: Child(index.CodeSet(), prefix, c) <==>
      |c| == |prefix| + 1 && c[..|prefix|] == prefix && c[|prefix|] in index.ValidNextTokens(prefix)
  {
    ValidNextTokensCorrect(index, prefix);
    var codes, k := index.CodeSet(), |prefix|;
    forall c: Code | |c| == k + 1 && c[..k] == prefix
      ensures Child(codes, prefix, c) <==> c[k] in index.ValidNextTokens(prefix)
    {
      if Child(codes, prefix, c) {
        var e := ItemBelow(index, c, k + 1);
        assert e.code[..k] == c[..k] && Continues(prefix, e.code) && e.code[k] == c[k];
      }
      if c[k] in index.ValidNextTokens(prefix) {
        var e :| e in index.codes && Continues(prefix, e.code) && e.code[k] == c[k];
        assert e.code[..k + 1] == c && e.code in codes;
      }
    }
  }

  /** The children of one prefix, in token order. */
  ghost predicate ExpandsOne(made: seq<Scored>, codes: set<Code>, score: Code -> real, prefix: Code) {
    && Distinct(made)
    && forall x :: x in made <==> x.score == score(x.code) && Child(codes, prefix, x.code)
  }

  ghost predicate DistinctCodes(beams: seq<Scored>) {
    forall i, j :: 0 <= i < j < |beams| ==> beams[i].code != beams[j].code
  }

  /** Children of distinct prefixes of one length do not meet. */
  lemma ExpandsConcat(done: seq<Scored>, made: seq<Scored>, codes: set<Code>, score: Code -> real, beams: seq<Scored>,
                      b: Scored)
    requires Expands(done, codes, score, beams) && ExpandsOne(made, codes, score, b.code)
    requires DistinctCodes(beams + [b]) && forall x :: x in beams ==> |x.code| == |b.code|
    ensures Expands(done + made, codes, score, beams + [b])
  {
    assert (beams + [b])[|beams|] == b;
    forall x: Scored ensures Reached(codes, beams + [b], x.code) <==>
      Reached(codes, beams, x.code) || Child(codes, b.code, x.code)
    {
      if Reached(codes, beams, x.code) {
        var a :| a in beams && Child(codes, a.code, x.code);
        assert a in beams + [b];
      }
      if Child(codes, b.code, x.code) {
        assert b in beams + [b];
      }
    }
    forall i, j | 0 <= i < |done| && 0 <= j < |made| ensures done[i] != made[j] {
      assert done[i] in done && made[j] in made;
      var a :| a in beams && Child(codes, a.code, done[i].code);
      var m :| 0 <= m < |beams| && beams[m] == a;
      assert (beams + [b])[m].code != (beams + [b])[|beams|].code;
    }
  }

  lemma TokenScored(index: SemanticIdIndex, similarity: int -> real, prefix: Code, token: int)
    requires token in index.ValidNextTokens(prefix)
    ensures PrefixScore(index, similarity, prefix + [token]).Some?
  {
    var next := prefix + [token];
    TokensAreChildren(index, prefix);
    assert next[..|prefix|] == prefix && next[|prefix|] == token;
    assert Child(index.CodeSet(), prefix, next);
    var below := ItemBelow(index, next, |next|);
    PrefixScoreIsBest(index, similarity, next);
  }

  lemma ScoreIsPrefixScore(index: SemanticIdIndex, similarity: int -> real, prefix: Code)
    ensures PrefixScore(index, similarity, prefix).Some? ==>
      ScoreOf(index, similarity)(prefix) == PrefixScore(index, similarity, prefix).value
  {
  }

  method ExpandPrefix(index: SemanticIdIndex, similarity: int -> real, prefix: Code) returns (made: seq<Scored>)
    ensures ExpandsOne(made, index.CodeSet(), ScoreOf(index, similarity), prefix)
  {
    hide SemanticIdIndex.ValidNextTokens, PrefixScore, ExpandsOne;
    var tokens := index.ValidNextTokens(prefix);
    made := [];
    for t := 0 to |tokens|
      invariant |made| == t
      invariant forall i :: 0 <= i < t ==>
        made[i] == Scored(prefix + [tokens[i]], ScoreOf(index, similarity)(prefix + [tokens[i]]))
    {
      var next := prefix + [tokens[t]];
      assert tokens[t] in tokens;
      TokenScored(index, similarity, prefix, tokens[t]);
      ScoreIsPrefixScore(index, similarity, next);
      made := made + [Scored(next, PrefixScore(index, similarity, next).value)];
    }
    MadeExpands(made, tokens, index, ScoreOf(index, similarity), prefix);
  }

  lemma MadeExpands(made: seq<Scored>, tokens: seq<int>, index: SemanticIdIndex, score: Code -> real, prefix: Code)
    requires tokens == index.ValidNextTokens(prefix) && |made| == |tokens|
    requires forall i :: 0 <= i < |tokens| ==> made[i] == Scored(prefix + [tokens[i]], score(prefix + [tokens[i]]))
    ensures ExpandsOne(made, index.CodeSet(), score, prefix)
  {
    TokensAreChildren(index, prefix);
    forall i | 0 <= i < |made| ensures made[i].code[..|prefix|] == prefix && made[i].code[|prefix|] == tokens[i] {
    }
    forall x: Scored ensures x in made <==> x.score == score(x.code) && Child(index.CodeSet(), prefix, x.code) {
      if x.score == score(x.code) && Child(index.CodeSet(), prefix, x.code) {
        ChildMade(made, tokens, index, score, prefix, x);
      }
      if x in made {
        MadeIsChild(made, tokens, index, score, prefix, x);
      }
    }
  }

  lemma ChildMade(made: seq<Scored>, tokens: seq<int>, index: SemanticIdIndex, score: Code -> real, prefix: Code,
                  x: Scored)
    requires tokens == index.ValidNextTokens(prefix) && |made| == |tokens|
    requires forall i :: 0 <= i < |tokens| ==> made[i] == Scored(prefix + [tokens[i]], score(prefix + [tokens[i]]))
    requires x.score == score(x.code) && Child(index.CodeSet(), prefix, x.code)
    ensures x in made
  {
    TokensAreChildren(index, prefix);
    hide SemanticIdIndex.ValidNextTokens, Child;
    var i :| 0 <= i < |tokens| && tokens[i] == x.code[|prefix|];
    assert x.code == prefix + [tokens[i]];
    assert made[i] == x;
  }

  lemma MadeIsChild(made: seq<Scored>, tokens: seq<int>, index: SemanticIdIndex, score: Code -> real, prefix: Code,
                    x: Scored)
    requires tokens == index.ValidNextTokens(prefix) && |made| == |tokens|
    requires forall i :: 0 <= i < |tokens| ==> made[i] == Scored(prefix + [tokens[i]], score(prefix + [tokens[i]]))
    requires x in made
    ensures x.score == score(x.code) && Child(index.CodeSet(), prefix, x.code)
  {
    TokensAreChildren(index, prefix);
    hide SemanticIdIndex.ValidNextTokens, Child;
    var i :| 0 <= i < |made| && made[i] == x;
    assert tokens[i] in tokens;
    assert x.code[..|prefix|] == prefix && x.code[|prefix|] == tokens[i];
  }

  method ExpandBeams(index: SemanticIdIndex, similarity: int -> real, beams: seq<Scored>)
    returns (expanded: seq<Scored>)
    requires DistinctCodes(beams) && forall x, y :: x in beams && y in beams ==> |x.code| == |y.code|
    ensures Expands(expanded, index.CodeSet(), ScoreOf(index, similarity), beams)
  {
    expanded := [];
    for b := 0 to |beams|
      invariant Expands(expanded, index.CodeSet(), ScoreOf(index, similarity), beams[..b])
    {
      var made := ExpandPrefix(index, similarity, beams[b].code);
      assert beams[..b + 1] == beams[..b] + [beams[b]];
      ExpandsConcat(expanded, made, index.CodeSet(), ScoreOf(index, similarity), beams[..b], beams[b]);
      expanded := expanded + made;
    }
    assert beams[..|beams|] == beams;
  }

  // ---------------------------------------------------------------------------------------------
  // The whole retrieval.

  /** The whole catalogue, sorted by descending value with ties in code order. */
  ghost function CatalogueRanking(index: SemanticIdIndex, value: Entry -> real): seq<GeneratedItem> {
    SortBy(Map(index.codes, (e: Entry) => GeneratedItem(e.item, e.code, value(e))), ItemBefore)
  }

  ghost function SimilarityOf(similarity: int -> real): Entry -> real {
    (e: Entry) => similarity(e.item)
  }

  lemma ItemBeforeIsPreorder()
    ensures TotalPreorder(ItemBefore)
  {
    BeforeIsTotalOrder();
    forall a, b, c | ItemBefore(a, b) && ItemBefore(b, c) ensures ItemBefore(a, c) {
      assert Before(Scored(a.code, a.score), Scored(c.code, c.score));
    }
    forall a, b ensures ItemBefore(a, b) || ItemBefore(b, a) {
      assert Before(Scored(a.code, a.score), Scored(b.code, b.score)) ||
             Before(Scored(b.code, b.score), Scored(a.code, a.score));
    }
  }

  /** A full code has one item below it, so it scores as that item. */
  lemma FullCodeScore(index: SemanticIdIndex, similarity: int -> real, e: Entry)
    requires index.WellFormed() && e in index.codes
    ensures ScoreOf(index, similarity)(e.code) == similarity(e.item)
  {
    assert HasPrefix(e.code, e.code);
    var top := BestBelowPrefix(index, similarity, e.code, e);
    ScoreIsPrefixScore(index, similarity, e.code);
    hide PrefixScore, ScoreOf;
    assert top.code == e.code;
  }

  /** An item that attains a prefix's score. */
  lemma BestBelowPrefix(index: SemanticIdIndex, similarity: int -> real, prefix: Code, e: Entry) returns (top: Entry)
    requires e in index.codes && HasPrefix(prefix, e.code)
    ensures PrefixScore(index, similarity, prefix).Some?
    ensures top in index.codes && HasPrefix(prefix, top.code)
    ensures similarity(top.item) == PrefixScore(index, similarity, prefix).value
  {
    PrefixScoreIsBest(index, similarity, prefix);
    hide PrefixScore;
    var best := PrefixScore(index, similarity, prefix).value;
    top :| top in index.codes && HasPrefix(prefix, top.code) && similarity(top.item) == best;
  }

  lemma CatalogueRankingElements(index: SemanticIdIndex, value: Entry -> real)
    requires index.WellFormed()
    ensures var sorted := CatalogueRanking(index, value);
      && Sorted(sorted, ItemBefore) && Distinct(sorted) && |sorted| == |index.codes|
      && forall g :: g in sorted <==> Entry(g.item, g.code) in index.codes && g.score == value(Entry(g.item, g.code))
  {
    var list := Map(index.codes, (e: Entry) => GeneratedItem(e.item, e.code, value(e)));
    ItemBeforeIsPreorder();
    SortCorrect(list, ItemBefore);
    SortDistinct(list, ItemBefore);
    forall g ensures g in list <==> Entry(g.item, g.code) in index.codes && g.score == value(Entry(g.item, g.code)) {
      if Entry(g.item, g.code) in index.codes && g.score == value(Entry(g.item, g.code)) {
        var i :| 0 <= i < |index.codes| && index.codes[i] == Entry(g.item, g.code);
        assert list[i] == g;
      }
    }
  }

  /** Sorting the catalogue ranks its codes. */
  lemma CatalogueRankingRanks(index: SemanticIdIndex, value: Entry -> real, score: Code -> real)
    requires index.WellFormed() && forall e :: e in index.codes ==> score(e.code) == value(e)
    ensures Map(CatalogueRanking(index, value), (g: GeneratedItem) => Scored(g.code, g.score))
         == Ranking(index.CodeSet(), score)
  {
    var codes, sorted := index.CodeSet(), CatalogueRanking(index, value);
    var scored := Map(sorted, (g: GeneratedItem) => Scored(g.code, g.score));
    CatalogueRankingElements(index, value);
    forall i, j | 0 <= i < j < |scored| ensures Before(scored[i], scored[j]) && scored[i] != scored[j] {
      assert ItemBefore(sorted[i], sorted[j]);
      SameCodeSameItem(index, sorted[i], sorted[j], value);
    }
    forall x ensures x in scored <==> x.code in codes && x.score == score(x.code) {
      if x in scored {
        var i :| 0 <= i < |scored| && scored[i] == x;
        assert sorted[i] in sorted;
      }
      if x.code in codes && x.score == score(x.code) {
        var e :| e in index.codes && e.code == x.code;
        var g := GeneratedItem(e.item, e.code, value(e));
        assert g in sorted;
        var i :| 0 <= i < |sorted| && sorted[i] == g;
        assert scored[i] == x;
      }
    }
    RankingRanks(codes, score);
    RanksUnique(scored, Ranking(codes, score), codes, score);
  }

  lemma CatalogueBestFirst(index: SemanticIdIndex, value: Entry -> real)
    requires index.WellFormed()
    ensures BestFirst(CatalogueRanking(index, value))
  {
    var sorted := CatalogueRanking(index, value);
    CatalogueRankingElements(index, value);
    forall i, j | 0 <= i < j < |sorted|
      ensures Better(Scored(sorted[i].code, sorted[i].score), Scored(sorted[j].code, sorted[j].score))
    {
      assert ItemBefore(sorted[i], sorted[j]) && sorted[i] != sorted[j];
      SameCodeSameItem(index, sorted[i], sorted[j], value);
      BeforeIsBetter(Scored(sorted[i].code, sorted[i].score), Scored(sorted[j].code, sorted[j].score));
    }
  }

  lemma SameCodeSameItem(index: SemanticIdIndex, a: GeneratedItem, b: GeneratedItem, value: Entry -> real)
    requires index.WellFormed() && a in CatalogueRanking(index, value) && b in CatalogueRanking(index, value)
    ensures a.code == b.code ==> a == b
  {
    CatalogueRankingElements(index, value);
    ItemForCodeInverts(index, a.code, a.item);
    ItemForCodeInverts(index, b.code, b.item);
  }

  /** One catalogue item for every beam, with the beam's code and score. */
  ghost predicate Generated(index: SemanticIdIndex, beams: seq<Scored>, generated: seq<GeneratedItem>) {
    && |generated| == |beams|
    && (forall i :: 0 <= i < |beams| ==> Scored(generated[i].code, generated[i].score) == beams[i])
    && (forall i :: 0 <= i < |beams| ==> Entry(generated[i].item, generated[i].code) in index.codes)
  }

  method Generate(index: SemanticIdIndex, beams: seq<Scored>) returns (generated: seq<GeneratedItem>)
    requires index.WellFormed() && forall b :: b in beams ==> b.code in index.CodeSet()
    ensures Generated(index, beams, generated)
  {
    generated := [];
    for b := 0 to |beams|
      invariant |generated| == b
      invariant forall i :: 0 <= i < b ==> Scored(generated[i].code, generated[i].score) == beams[i]
      invariant forall i :: 0 <= i < b ==> Entry(generated[i].item, generated[i].code) in index.codes
    {
      assert beams[b] in beams;
      var found := index.ItemForCode(beams[b].code);
      ItemForCodeInverts(index, beams[b].code, found.GetOr((x: int) => x, 0));
      if found.Some? {
        generated := generated + [GeneratedItem(found.value, beams[b].code, beams[b].score)];
      }
    }
  }

  /** Whatever the beam width, retrieval returns the head of the sorted catalogue. */
  method Retrieve(index: SemanticIdIndex, similarity: int -> real, limit: nat, beamSize: nat)
    returns (r: Result<seq<GeneratedItem>, string>)
    requires index.WellFormed()
    ensures r.Failure? <==> index.codes == []
    ensures r.Success? ==> r.value == Take(Take(CatalogueRanking(index, SimilarityOf(similarity)), beamSize), limit)
    ensures r.Success? ==> BestFirst(r.value)
  {
    hide CatalogueRanking, Ranking, ScoreOf, Generated, BestFirst;
    if index.codes == [] {
      return Failure("no codes");
    }
    var codeLength := |index.codes[0].code|;
    var beams := Search(index, similarity, codeLength, beamSize);
    var generated := Generate(index, beams);
    RetrievedIsTop(index, similarity, beamSize, limit, beams, generated);
    r := Success(Take(generated, limit));
  }

  lemma RetrievedIsTop(index: SemanticIdIndex, similarity: int -> real, size: nat, limit: nat, beams: seq<Scored>,
                       generated: seq<GeneratedItem>)
    requires index.WellFormed() && Generated(index, beams, generated)
    requires beams == Take(Ranking(index.CodeSet(), ScoreOf(index, similarity)), size)
    ensures generated == Take(CatalogueRanking(index, SimilarityOf(similarity)), size)
    ensures BestFirst(Take(generated, limit))
  {
    hide CatalogueRanking, Ranking, ScoreOf, Generated, BestFirst;
    forall e | e in index.codes ensures ScoreOf(index, similarity)(e.code) == SimilarityOf(similarity)(e) {
      FullCodeScore(index, similarity, e);
    }
    GeneratedIsTop(index, SimilarityOf(similarity), ScoreOf(index, similarity), size, beams, generated);
    CatalogueBestFirst(index, SimilarityOf(similarity));
    HeadBestFirst(CatalogueRanking(index, SimilarityOf(similarity)), size);
    HeadBestFirst(generated, limit);
  }

  lemma HeadBestFirst(items: seq<GeneratedItem>, n: nat)
    requires BestFirst(items)
    ensures BestFirst(Take(items, n))
  {
  }

  /** The beam loop: the final beams are the top of the ranking of all codes. */
  method Search(index: SemanticIdIndex, similarity: int -> real, codeLength: nat, beamSize: nat)
    returns (beams: seq<Scored>)
    requires CodeLength(index, codeLength)
    ensures beams == Take(Ranking(index.CodeSet(), ScoreOf(index, similarity)), beamSize)
    ensures forall b :: b in beams ==> b.code in index.CodeSet()
  {
    hide Exact, Expands, Ranking, CodeLength;
    beams := [Scored([], 0.0)];
    SearchStart(index, similarity, beamSize);
    for level := 0 to codeLength
      invariant Exact(beams, index.CodeSet(), ScoreOf(index, similarity), beamSize, level)
    {
      BeamCodes(beams, index.CodeSet(), ScoreOf(index, similarity), beamSize, level);
      var expanded := ExpandBeams(index, similarity, beams);
      SearchRound(index, similarity, codeLength, beamSize, beams, expanded, level);
      beams := Take(SortBy(expanded, Before), beamSize);
    }
    SearchEnd(index, similarity, codeLength, beamSize, beams);
  }

  lemma SearchStart(index: SemanticIdIndex, similarity: int -> real, size: nat)
    ensures Exact([Scored([], 0.0)], index.CodeSet(), ScoreOf(index, similarity), size, 0)
  {
  }

  lemma SearchRound(index: SemanticIdIndex, similarity: int -> real, n: nat, size: nat, beams: seq<Scored>,
                    expanded: seq<Scored>, level: nat)
    requires CodeLength(index, n) && level < n
    requires Exact(beams, index.CodeSet(), ScoreOf(index, similarity), size, level)
    requires Expands(expanded, index.CodeSet(), ScoreOf(index, similarity), beams)
    ensures Exact(Take(SortBy(expanded, Before), size), index.CodeSet(), ScoreOf(index, similarity), size, level + 1)
  {
    PrefixScoreBestBelow(index, similarity, n);
    RoundKeepsExact(beams, expanded, index.CodeSet(), n, ScoreOf(index, similarity), size, level);
  }

  lemma SearchEnd(index: SemanticIdIndex, similarity: int -> real, n: nat, size: nat, beams: seq<Scored>)
    requires CodeLength(index, n) && Exact(beams, index.CodeSet(), ScoreOf(index, similarity), size, n)
    ensures beams == Take(Ranking(index.CodeSet(), ScoreOf(index, similarity)), size)
    ensures forall b :: b in beams ==> b.code in index.CodeSet()
  {
    FullPrefixes(index.CodeSet(), n);
    BeamCodes(beams, index.CodeSet(), ScoreOf(index, similarity), size, n);
  }

  lemma BeamCodes(beams: seq<Scored>, codes: set<Code>, score: Code -> real, size: nat, k: nat)
    requires Exact(beams, codes, score, size, k)
    ensures DistinctCodes(beams) && forall b :: b in beams ==> |b.code| == k
    ensures k > 0 ==> forall b :: b in beams ==> b.code in Prefixes(codes, k)
  {
    ExactLengths(beams, codes, score, size, k);
    if k > 0 {
      RankingRanks(Prefixes(codes, k), score);
      var ranking := Ranking(Prefixes(codes, k), score);
      forall i, j | 0 <= i < j < |beams| ensures beams[i].code != beams[j].code {
        assert ranking[i] in ranking && ranking[j] in ranking && ranking[i] != ranking[j];
      }
    }
  }

  lemma GeneratedIsTop(index: SemanticIdIndex, value: Entry -> real, score: Code -> real, size: nat,
                       beams: seq<Scored>, generated: seq<GeneratedItem>)
    requires index.WellFormed() && forall e :: e in index.codes ==> score(e.code) == value(e)
    requires beams == Take(Ranking(index.CodeSet(), score), size) && Generated(index, beams, generated)
    ensures generated == Take(CatalogueRanking(index, value), size)
  {
    var sorted := CatalogueRanking(index, value);
    CatalogueRankingRanks(index, value, score);
    CatalogueRankingElements(index, value);
    forall i | 0 <= i < |generated| ensures generated[i] == sorted[i] {
      assert sorted[i] in sorted;
      assert Scored(sorted[i].code, sorted[i].score) == beams[i];
      ItemForCodeInverts(index, sorted[i].code, sorted[i].item);
      ItemForCodeInverts(index, sorted[i].code, generated[i].item);
    }
  }
}
