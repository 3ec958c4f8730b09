/** The learned decoder's token vocabulary and its beam over joint log-probabilities. */
module LearnedRetriever {
  import opened Outcomes
  import opened Seqs
  import opened Sorting
  import opened SemanticIds
  import opened Beam
  import opened Retriever

  // ---------------------------------------------------------------------------------------------
  // Vocabulary.

  datatype SemanticVocabulary = SemanticVocabulary(offsets: seq<int>, sizes: seq<int>, totalTokens: int) {
    /** The model's token for a code's token at some level. */
    function GlobalToken(level: nat, token: int): int
      requires level < |offsets|
    {
      offsets[level] + token
    }

    function Encode(code: Code): seq<int>
      requires |code| <= |offsets|
    {
      seq(|code|, level requires 0 <= level < |code| => GlobalToken(level, code[level]))
    }

    /** The levels' token ranges are laid end to end from 1, after the start token 0. */
    ghost predicate Laid() {
      && |offsets| == |sizes|
      && (forall l :: 0 <= l < |sizes| ==> sizes[l] > 0)
      && (if |offsets| == 0 then totalTokens == 1
          else offsets[0] == 1 && totalTokens == offsets[|offsets| - 1] + sizes[|sizes| - 1])
      && forall l :: 0 <= l < |offsets| - 1 ==> offsets[l + 1] == offsets[l] + sizes[l]
    }
  }

  ghost predicate Tokens(index: SemanticIdIndex) {
    forall e, l :: e in index.codes && 0 <= l < |e.code| ==> e.code[l] >= 0
  }

  /** The size of a level: one more than its largest token. */
  function LevelSize(codes: seq<Entry>, level: nat): int
    requires codes != [] && forall e :: e in codes ==> level < |e.code|
  {
    var here := codes[|codes| - 1].code[level] + 1;
    if |codes| == 1 then here
    else
      var front := LevelSize(codes[..|codes| - 1], level);
      if front < here then here else front
  }

  lemma {:induction false} LevelSizeCorrect(codes: seq<Entry>, level: nat)
    requires codes != [] && forall e :: e in codes ==> level < |e.code|
    ensures forall e :: e in codes ==> e.code[level] < LevelSize(codes, level)
    ensures exists e :: e in codes && e.code[level] + 1 == LevelSize(codes, level)
  {
    var front, last := codes[..|codes| - 1], codes[|codes| - 1];
    assert codes == front + [last];
    if |codes| > 1 {
      LevelSizeCorrect(front, level);
      var e :| e in front && e.code[level] + 1 == LevelSize(front, level);
      assert e in codes && last in codes;
    } else {
      assert last in codes;
    }
  }

  ghost predicate OfLength(codes: seq<Entry>, n: nat) {
    forall e :: e in codes ==> |e.code| == n
  }

  /** Every token of the level fits, and the largest just so. */
  ghost predicate FitsLevel(codes: seq<Entry>, level: nat, size: int) {
    && (forall e :: e in codes ==> |e.code| > level && e.code[level] < size)
    && (exists e :: e in codes && |e.code| > level && e.code[level] + 1 == size)
  }

  lemma LevelSizeFits(index: SemanticIdIndex, n: nat, level: nat)
    requires index.codes != [] && OfLength(index.codes, n) && Tokens(index) && level < n
    ensures FitsLevel(index.codes, level, LevelSize(index.codes, level)) && LevelSize(index.codes, level) > 0
  {
    LevelSizeCorrect(index.codes, level);
    var e :| e in index.codes && e.code[level] + 1 == LevelSize(index.codes, level);
    assert |e.code| == n && e.code[level] >= 0;
  }

  /** Offsets and the end of levels of these sizes, laid end to end from token 1. */
  method LayOut(sizes: seq<int>) returns (offsets: seq<int>, cursor: int)
    ensures |offsets| == |sizes|
    ensures if sizes == [] then cursor == 1 else offsets[0] == 1 && cursor == offsets[|sizes| - 1] + sizes[|sizes| - 1]
    ensures forall m :: 0 <= m < |sizes| - 1 ==> offsets[m + 1] == offsets[m] + sizes[m]
  {
    offsets, cursor := [], 1;
    for l := 0 to |sizes|
      invariant |offsets| == l
      invariant if l == 0 then cursor == 1 else offsets[0] == 1 && cursor == offsets[l - 1] + sizes[l - 1]
      invariant forall m :: 0 <= m < l - 1 ==> offsets[m + 1] == offsets[m] + sizes[m]
    {
      offsets := offsets + [cursor];
      cursor := cursor + sizes[l];
    }
  }

  method FromIndex(index: SemanticIdIndex) returns (r: Result<SemanticVocabulary, string>)
    requires index.WellFormed() && Tokens(index)
    ensures r.Failure? <==> index.codes == []
    ensures r.Success? ==> r.value.Laid() && OfLength(index.codes, |r.value.sizes|)
    ensures r.Success? ==> forall l :: 0 <= l < |r.value.sizes| ==> FitsLevel(index.codes, l, r.value.sizes[l])
  {
    if index.codes == [] {
      return Failure("no codes");
    }
    var n := |index.codes[0].code|;
    assert OfLength(index.codes, n);
    var sizes := seq(n, l requires 0 <= l < n => LevelSize(index.codes, l));
    forall l | 0 <= l < n ensures FitsLevel(index.codes, l, sizes[l]) && sizes[l] > 0 {
      LevelSizeFits(index, n, l);
    }
    hide LevelSize, FitsLevel, OfLength, Tokens, SemanticIdIndex.WellFormed;
    var offsets, cursor := LayOut(sizes);
    r := Success(SemanticVocabulary(offsets, sizes, cursor));
  }

  lemma {:induction false} OffsetsAscend(v: SemanticVocabulary, l: nat, m: nat)
    requires v.Laid() && l < m < |v.offsets|
    ensures v.offsets[l] + v.sizes[l] <= v.offsets[m]
  {
    if l + 1 < m {
      OffsetsAscend(v, l, m - 1);
    }
  }

  lemma RangeInside(v: SemanticVocabulary, l: nat)
    requires v.Laid() && l < |v.offsets|
    ensures 1 <= v.offsets[l] && v.offsets[l] + v.sizes[l] <= v.totalTokens
  {
    if l > 0 {
      OffsetsAscend(v, 0, l);
    }
    if l < |v.offsets| - 1 {
      OffsetsAscend(v, l, |v.offsets| - 1);
    }
  }

  ghost predicate Fits(v: SemanticVocabulary, code: Code) {
    |code| <= |v.offsets| == |v.sizes| && forall l :: 0 <= l < |code| ==> 0 <= code[l] < v.sizes[l]
  }

  /** A model token names one level and one token of it; so codes can be read back from their encoding. */
  lemma EncodeInjective(v: SemanticVocabulary, a: Code, b: Code)
    requires v.Laid() && Fits(v, a) && Fits(v, b)
    ensures forall t :: t in v.Encode(a) ==> 1 <= t < v.totalTokens
    ensures forall i, j :: 0 <= i < |a| && 0 <= j < |b| && v.Encode(a)[i] == v.Encode(b)[j] ==> i == j && a[i] == b[j]
    ensures v.Encode(a) == v.Encode(b) <==> a == b
  {
    forall i | 0 <= i < |a| ensures 1 <= v.Encode(a)[i] < v.totalTokens {
      RangeInside(v, i);
    }
    forall i, j | 0 <= i < |a| && 0 <= j < |b| && v.Encode(a)[i] == v.Encode(b)[j] ensures i == j && a[i] == b[j] {
      if i < j {
        OffsetsAscend(v, i, j);
      } else if j < i {
        OffsetsAscend(v, j, i);
      }
    }
    if v.Encode(a) == v.Encode(b) {
      assert |a| == |v.Encode(a)| == |v.Encode(b)| == |b|;
      forall i | 0 <= i < |a| ensures a[i] == b[i] {
        assert v.Encode(a)[i] == v.Encode(b)[i];
      }
    }
  }

  // ---------------------------------------------------------------------------------------------
  // Beam over joint log-probabilities. `logProbability(prefix, token)` is the decoder's entry for a
  // model token after the prefix.

  ghost function Joint(v: SemanticVocabulary, logProbability: (Code, int) -> real, code: Code): real
    requires |code| <= |v.offsets|
  {
    if code == [] then 0.0
    else
      var front := code[..|code| - 1];
      Joint(v, logProbability, front) + logProbability(front, v.GlobalToken(|front|, code[|front|]))
  }

  ghost function JointScore(v: SemanticVocabulary, logProbability: (Code, int) -> real): Code -> real {
    (c: Code) => if |c| <= |v.offsets| then Joint(v, logProbability, c) else 0.0
  }

  /** What a narrow beam still promises about its beams. */
  ghost predicate Sound(beams: seq<Scored>, codes: set<Code>, score: Code -> real, k: nat) {
    && Sorted(beams, Before)
    && DistinctCodes(beams)
    && forall b :: b in beams ==> b.code in Prefixes(codes, k) && |b.code| == k && b.score == score(b.code)
  }

  method ExpandOne(index: SemanticIdIndex, v: SemanticVocabulary, logProbability: (Code, int) -> real, beam: Scored)
    returns (made: seq<Scored>)
    requires |beam.code| < |v.offsets| && beam.score == JointScore(v, logProbability)(beam.code)
    ensures ExpandsOne(made, index.CodeSet(), JointScore(v, logProbability), beam.code)
  {
    var level, tokens := |beam.code|, index.ValidNextTokens(beam.code);
    made := [];
    for t := 0 to |tokens|
      invariant |made| == t
      invariant forall i :: 0 <= i < t ==>
        made[i] == Scored(beam.code + [tokens[i]], JointScore(v, logProbability)(beam.code + [tokens[i]]))
    {
      var next := beam.code + [tokens[t]];
      assert next[..level] == beam.code;
      made := made + [Scored(next, beam.score + logProbability(beam.code, v.GlobalToken(level, tokens[t])))];
    }
    MadeExpands(made, tokens, index, JointScore(v, logProbability), beam.code);
  }

  method Expand(index: SemanticIdIndex, v: SemanticVocabulary, logProbability: (Code, int) -> real,
                beams: seq<Scored>, ghost k: nat)
    returns (expanded: seq<Scored>)
    requires k < |v.offsets| && DistinctCodes(beams)
    requires forall b :: b in beams ==> |b.code| == k && b.score == JointScore(v, logProbability)(b.code)
    ensures Expands(expanded, index.CodeSet(), JointScore(v, logProbability), beams)
  {
    expanded := [];
    for b := 0 to |beams|
      invariant Expands(expanded, index.CodeSet(), JointScore(v, logProbability), beams[..b])
    {
      assert beams[b] in beams;
      var made := ExpandOne(index, v, logProbability, beams[b]);
      assert beams[..b + 1] == beams[..b] + [beams[b]];
      ExpandsConcat(expanded, made, index.CodeSet(), JointScore(v, logProbability), beams[..b], beams[b]);
      expanded := expanded + made;
    }
    assert beams[..|beams|] == beams;
  }

  lemma RoundKeepsSound(beams: seq<Scored>, expanded: seq<Scored>, codes: set<Code>, score: Code -> real, size: nat,
                        k: nat)
    requires Expands(expanded, codes, score, beams) && forall b :: b in beams ==> |b.code| == k
    ensures Sound(Take(SortBy(expanded, Before), size), codes, score, k + 1)
  {
    ExpandsRanks(expanded, codes, score, beams, k);
    RankingRanks(Children(codes, beams, k + 1), score);
    var ranking := SortBy(expanded, Before);
    forall i | 0 <= i < |ranking|
      ensures ranking[i].code in Prefixes(codes, k + 1) && ranking[i].score == score(ranking[i].code)
      ensures |ranking[i].code| == k + 1
    {
      assert ranking[i] in ranking;
      PrefixOfPrefix(codes, ranking[i].code, k);
    }
    forall i, j | 0 <= i < j < |ranking| ensures ranking[i].code != ranking[j].code {
      assert ranking[i] != ranking[j];
    }
  }

  ghost predicate Wide(index: SemanticIdIndex, beamSize: nat) {
    |index.codes| <= beamSize
  }

  lemma CodeSetSize(index: SemanticIdIndex)
    ensures |index.CodeSet()| <= |index.codes|
  {
    CodeSetSizeOf(index.codes);
  }

  lemma {:induction false} CodeSetSizeOf(entries: seq<Entry>)
    ensures |set e | e in entries :: e.code| <= |entries|
  {
    if entries != [] {
      var front, last := entries[..|entries| - 1], entries[|entries| - 1];
      CodeSetSizeOf(front);
      assert entries == front + [last];
      assert (set e | e in entries :: e.code) == (set e | e in front :: e.code) + {last.code};
    }
  }

  /** What holds of the beams after `level` rounds. */
  ghost predicate Searched(beams: seq<Scored>, index: SemanticIdIndex, score: Code -> real, size: nat, level: nat) {
    && DistinctCodes(beams)
    && (forall b :: b in beams ==> |b.code| == level && b.score == score(b.code))
    && (level > 0 ==> Sound(beams, index.CodeSet(), score, level) && |beams| <= size)
    && (Wide(index, size) ==> Exact(beams, index.CodeSet(), score, size, level))
    && beams == BeamAfter(index.CodeSet(), score, size, level)
  }

  /** What holds of the beams at full code length. */
  ghost predicate Found(beams: seq<Scored>, index: SemanticIdIndex, score: Code -> real, size: nat) {
    && |beams| <= size
    && Sorted(beams, Before)
    && DistinctCodes(beams)
    && (forall b :: b in beams ==> b.code in index.CodeSet() && b.score == score(b.code))
    && (Wide(index, size) ==> beams == Take(Ranking(index.CodeSet(), score), size))
  }

  lemma SearchRound(index: SemanticIdIndex, score: Code -> real, n: nat, size: nat, beams: seq<Scored>,
                    expanded: seq<Scored>, level: nat)
    requires CodeLength(index, n) && level < n && Searched(beams, index, score, size, level)
    requires Expands(expanded, index.CodeSet(), score, beams)
    ensures Searched(Take(SortBy(expanded, Before), size), index, score, size, level + 1)
  {
    RoundKeepsSound(beams, expanded, index.CodeSet(), score, size, level);
    RoundIsBeamAfter(expanded, index.CodeSet(), score, size, level);
    if Wide(index, size) {
      CodeSetSize(index);
      WideRoundKeepsExact(beams, expanded, index.CodeSet(), n, score, size, level);
    }
  }

  method Search(index: SemanticIdIndex, v: SemanticVocabulary, logProbability: (Code, int) -> real, codeLength: nat,
                beamSize: nat) returns (beams: seq<Scored>)
    requires CodeLength(index, codeLength) && codeLength == |v.offsets|
    ensures Found(beams, index, JointScore(v, logProbability), beamSize)
    ensures beams == BeamAfter(index.CodeSet(), JointScore(v, logProbability), beamSize, codeLength)
  {
    beams := [Scored([], 0.0)];
    for level := 0 to codeLength
      invariant Searched(beams, index, JointScore(v, logProbability), beamSize, level)
    {
      var expanded := Expand(index, v, logProbability, beams, level);
      SearchRound(index, JointScore(v, logProbability), codeLength, beamSize, beams, expanded, level);
      beams := Take(SortBy(expanded, Before), beamSize);
    }
    FullPrefixes(index.CodeSet(), codeLength);
  }

  ghost function JointOf(v: SemanticVocabulary, logProbability: (Code, int) -> real): Entry -> real {
    (e: Entry) => JointScore(v, logProbability)(e.code)
  }

  /** Catalogue items, each once, from likeliest to least likely under the decoder's joint probability. */
  ghost predicate Likeliest(list: seq<GeneratedItem>, index: SemanticIdIndex, score: Code -> real) {
    && BestFirst(list)
    && (forall i, j :: 0 <= i < j < |list| ==> list[i].item != list[j].item)
    && (forall i :: 0 <= i < |list| ==> Entry(list[i].item, list[i].code) in index.codes)
    && (forall i :: 0 <= i < |list| ==> list[i].score == score(list[i].code))
  }

  /** The items of the beam's codes, in its order, up to a limit. */
  ghost predicate ItemsOf(items: seq<GeneratedItem>, index: SemanticIdIndex, beam: seq<Scored>, limit: nat) {
    && |items| == |Take(beam, limit)|
    && forall i :: 0 <= i < |items| ==>
         Scored(items[i].code, items[i].score) == beam[i] && Entry(items[i].item, items[i].code) in index.codes
  }

  /** The items of the last beam of the search, whatever its width: distinct catalogue items in order; a beam as wide
      as the code table is the exact ranking. */
  method Retrieve(index: SemanticIdIndex, v: SemanticVocabulary, logProbability: (Code, int) -> real, limit: nat,
                  beamSize: nat) returns (r: Result<seq<GeneratedItem>, string>)
    requires index.WellFormed() && forall e :: e in index.codes ==> |e.code| == |v.offsets|
    ensures r.Failure? <==> index.codes == []
    ensures r.Success? ==> |r.value| <= limit && |r.value| <= beamSize
    ensures r.Success? ==> Likeliest(r.value, index, JointScore(v, logProbability))
    ensures r.Success? ==>
      ItemsOf(r.value, index, BeamAfter(index.CodeSet(), JointScore(v, logProbability), beamSize, |v.offsets|), limit)
    ensures r.Success? && Wide(index, beamSize) ==>
      r.value == Take(CatalogueRanking(index, JointOf(v, logProbability)), limit)
  {
    hide Likeliest, Generated, CatalogueRanking;
    if index.codes == [] {
      return Failure("no codes");
    }
    var codeLength := |index.codes[0].code|;
    assert index.codes[0] in index.codes;
    var beams := Search(index, v, logProbability, codeLength, beamSize);
    var candidates := Generate(index, beams);
    CandidatesLikeliest(index, JointScore(v, logProbability), beams, candidates);
    if Wide(index, beamSize) {
      WideCandidates(index, v, logProbability, beamSize, beams, candidates);
    }
    LikeliestTake(candidates, limit, index, JointScore(v, logProbability));
    ItemsTake(candidates, limit, index, beams);
    hide BeamAfter, ItemsOf;
    r := Success(Take(candidates, limit));
  }

  lemma LikeliestTake(items: seq<GeneratedItem>, limit: nat, index: SemanticIdIndex, score: Code -> real)
    requires Likeliest(items, index, score)
    ensures Likeliest(Take(items, limit), index, score)
  {
  }

  lemma ItemsTake(items: seq<GeneratedItem>, limit: nat, index: SemanticIdIndex, beams: seq<Scored>)
    requires Generated(index, beams, items)
    ensures ItemsOf(Take(items, limit), index, beams, limit)
  {
  }

  lemma WideCandidates(index: SemanticIdIndex, v: SemanticVocabulary, logProbability: (Code, int) -> real, size: nat,
                       beams: seq<Scored>, candidates: seq<GeneratedItem>)
    requires index.WellFormed() && Wide(index, size)
    requires beams == Take(Ranking(index.CodeSet(), JointScore(v, logProbability)), size)
    requires Generated(index, beams, candidates)
    ensures candidates == CatalogueRanking(index, JointOf(v, logProbability))
  {
    var value, score := JointOf(v, logProbability), JointScore(v, logProbability);
    assert forall e: Entry :: score(e.code) == value(e);
    hide *;
    WideTop(index, value, score, size, beams, candidates);
  }

  lemma WideTop(index: SemanticIdIndex, value: Entry -> real, score: Code -> real, size: nat, beams: seq<Scored>,
                candidates: seq<GeneratedItem>)
    requires index.WellFormed() && Wide(index, size) && forall e: Entry :: score(e.code) == value(e)
    requires beams == Take(Ranking(index.CodeSet(), score), size) && Generated(index, beams, candidates)
    ensures candidates == CatalogueRanking(index, value)
  {
    hide Ranking, CatalogueRanking, Generated, SemanticIdIndex.WellFormed, SemanticIdIndex.CodeSet;
    GeneratedIsTop(index, value, score, size, beams, candidates);
    CatalogueRankingElements(index, value);
  }

  lemma CandidatesLikeliest(index: SemanticIdIndex, score: Code -> real, beams: seq<Scored>,
                            candidates: seq<GeneratedItem>)
    requires index.WellFormed() && Sorted(beams, Before) && DistinctCodes(beams)
    requires forall b :: b in beams ==> b.score == score(b.code)
    requires Generated(index, beams, candidates)
    ensures Likeliest(candidates, index, score)
  {
    forall i | 0 <= i < |candidates| ensures candidates[i].score == score(candidates[i].code) {
      assert beams[i] in beams;
    }
    forall i, j | 0 <= i < j < |candidates| ensures Better(beams[i], beams[j]) {
      assert Before(beams[i], beams[j]);
      BeforeIsBetter(beams[i], beams[j]);
    }
    forall i, j | 0 <= i < j < |candidates| ensures candidates[i].item != candidates[j].item {
      assert beams[i].code != beams[j].code;
      SameItemSameCode(index, candidates[i], candidates[j]);
    }
  }

  lemma SameItemSameCode(index: SemanticIdIndex, a: GeneratedItem, b: GeneratedItem)
    requires index.WellFormed() && Entry(a.item, a.code) in index.codes && Entry(b.item, b.code) in index.codes
    ensures a.item == b.item ==> a.code == b.code
  {
    var m :| 0 <= m < |index.codes| && index.codes[m] == Entry(a.item, a.code);
    var n :| 0 <= n < |index.codes| && index.codes[n] == Entry(b.item, b.code);
  }
}
