/** Point-in-time impression/action join: examples close once and for all. */
module TrainingJoiner {
  import opened Outcomes
  import opened Seqs
  import opened Sorting
  import opened Dedup

  const TASKS := ["click", "like", "long_view"]

  type Key = (string, int)

  datatype Impression = Impression(
    requestId: string, userId: int, itemId: int, eventTime: int, position: int, propensity: real,
    featureFids: seq<int>, featureBuckets: seq<int>, schemaVersion: string, servedModelVersion: int) {
    function Key(): Key { (requestId, itemId) }
  }

  datatype Action = Action(
    eventId: string, requestId: string, itemId: int, action: string, eventTime: int, receivedAt: int, value: real) {
    function Key(): Key { (requestId, itemId) }
  }

  /** The example's id is the pair that the code renders as `request:item`. */
  datatype Example = Example(
    id: Key, userId: int, itemId: int, impressionTime: int, featureFids: seq<int>, featureBuckets: seq<int>,
    labels: map<string, real>, sampleWeight: real, schemaVersion: string)

  datatype JoinReport = JoinReport(examples: seq<Example>, immature: nat, duplicates: nat, ignored: nat)

  datatype Config = Config(window: int, lateness: int, clip: real) {
    function CloseTime(i: Impression): int {
      i.eventTime + window + lateness
    }

    predicate ValidAction(i: Impression, a: Action, watermark: int) {
      var eventDeadline := i.eventTime + window;
      var receiveDeadline := eventDeadline + lateness;
      && i.eventTime <= a.eventTime <= eventDeadline
      && a.receivedAt <= (if watermark < receiveDeadline then watermark else receiveDeadline)
      && a.action in TASKS
    }

    function Valid(i: Impression, unique: seq<Action>, watermark: int): seq<Action> {
      Filter(unique, (a: Action) => a.Key() == i.Key() && ValidAction(i, a, watermark))
    }

    function Weight(propensity: real): real {
      var floor := 0.000001;
      var inverse := 1.0 / (if propensity < floor then floor else propensity);
      if inverse < clip then inverse else clip
    }

    function Label(valid: seq<Action>, task: string): real {
      if exists a :: a in valid && a.action == task && a.value > 0.0 then 1.0 else 0.0
    }

    /** The example of a closed impression, from the deduplicated actions. */
    function ExampleOf(i: Impression, unique: seq<Action>, watermark: int): Example {
      var valid := Valid(i, unique, watermark);
      Example(i.Key(), i.userId, i.itemId, i.eventTime, i.featureFids, i.featureBuckets,
              map task | task in TASKS :: Label(valid, task), Weight(i.propensity), i.schemaVersion)
    }

    predicate Closed(i: Impression, watermark: int) {
      CloseTime(i) <= watermark
    }

    ghost function Examples(impressions: seq<Impression>, actions: seq<Action>, watermark: int): seq<Example> {
      var closed := Filter(SortBy(impressions, ByTime), (i: Impression) => Closed(i, watermark));
      Map(closed, (i: Impression) => ExampleOf(i, FirstWins(actions, (a: Action) => a.eventId), watermark))
    }

    /** An action counts as ignored when it has no impression, or one that closed without it. */
    ghost predicate Ignored(a: Action, impressions: seq<Impression>, watermark: int) {
      forall i :: i in impressions && i.Key() == a.Key() ==> Closed(i, watermark) && !ValidAction(i, a, watermark)
    }
  }

  predicate ByTime(a: Impression, b: Impression) {
    a.eventTime <= b.eventTime
  }

  ghost predicate UniqueKeys(impressions: seq<Impression>) {
    Distinct(Map(impressions, (i: Impression) => i.Key()))
  }

  /** `actions_by_key`: the deduplicated actions of known impressions, grouped in log order. */
  /** The dictionary holds, for each impression with actions among those looked at, all of them. */
  ghost predicate ByKey(byKey: map<Key, seq<Action>>, keys: set<Key>, seen: seq<Action>) {
    && (forall k :: k in byKey ==> k in keys && byKey[k] == Filter(seen, (a: Action) => a.Key() == k))
    && (forall k :: k in keys && k !in byKey ==> Filter(seen, (a: Action) => a.Key() == k) == [])
  }

  lemma NothingByKey(keys: set<Key>)
    ensures ByKey(map[], keys, [])
  {
  }

  lemma ByKeySnoc(byKey: map<Key, seq<Action>>, keys: set<Key>, seen: seq<Action>, action: Action)
    requires ByKey(byKey, keys, seen)
    ensures action.Key() !in keys ==> ByKey(byKey, keys, seen + [action])
    ensures action.Key() in keys ==>
      var own := if action.Key() in byKey then byKey[action.Key()] else [];
      ByKey(byKey[action.Key() := own + [action]], keys, seen + [action])
  {
    forall k {
      FilterSnoc(seen, action, (a: Action) => a.Key() == k);
    }
  }

  method GroupActions(unique: seq<Action>, keys: set<Key>)
    returns (byKey: map<Key, seq<Action>>, orphans: nat)
    ensures ByKey(byKey, keys, unique)
    ensures orphans == |Filter(unique, (a: Action) => a.Key() !in keys)|
  {
    hide ByKey;
    byKey, orphans := map[], 0;
    NothingByKey(keys);
    for i := 0 to |unique|
      invariant ByKey(byKey, keys, unique[..i])
      invariant orphans == |Filter(unique[..i], (a: Action) => a.Key() !in keys)|
    {
      var key := unique[i].Key();
      assert unique[..i + 1] == unique[..i] + [unique[i]];
      FilterSnoc(unique[..i], unique[i], (a: Action) => a.Key() !in keys);
      ByKeySnoc(byKey, keys, unique[..i], unique[i]);
      if key !in keys {
        orphans := orphans + 1;
      } else {
        byKey := byKey[key := (if key in byKey then byKey[key] else []) + [unique[i]]];
      }
    }
    assert unique[..|unique|] == unique;
  }

  /** Ignored already once the impressions in `done` have been looked at. */
  ghost predicate IgnoredSoFar(config: Config, a: Action, keys: set<Key>, done: seq<Impression>, watermark: int) {
    a.Key() !in keys ||
    exists i :: i in done && i.Key() == a.Key() && config.Closed(i, watermark) && !config.ValidAction(i, a, watermark)
  }

  ghost function IgnoredCount(config: Config, unique: seq<Action>, keys: set<Key>, done: seq<Impression>,
                              watermark: int): nat {
    |Filter(unique, (a: Action) => IgnoredSoFar(config, a, keys, done, watermark))|
  }

  ghost predicate FreshKey(i: Impression, keys: set<Key>, done: seq<Impression>) {
    i.Key() in keys && forall d :: d in done ==> d.Key() != i.Key()
  }

  /** Looking at one more impression ignores exactly the invalid actions of its group, if it is closed. */
  lemma IgnoredStep(config: Config, unique: seq<Action>, keys: set<Key>, done: seq<Impression>, i: Impression,
                    watermark: int)
    requires FreshKey(i, keys, done)
    ensures config.Closed(i, watermark) ==>
      IgnoredCount(config, unique, keys, done + [i], watermark) == IgnoredCount(config, unique, keys, done, watermark)
        + |Filter(unique, (a: Action) => a.Key() == i.Key())| - |config.Valid(i, unique, watermark)|
    ensures !config.Closed(i, watermark) ==>
      IgnoredCount(config, unique, keys, done + [i], watermark) == IgnoredCount(config, unique, keys, done, watermark)
  {
    var before := (a: Action) => IgnoredSoFar(config, a, keys, done, watermark);
    var after := (a: Action) => IgnoredSoFar(config, a, keys, done + [i], watermark);
    var grouped := (a: Action) => a.Key() == i.Key();
    var valid := (a: Action) => config.ValidAction(i, a, watermark);
    forall a ensures after(a) <==>
      before(a) || (config.Closed(i, watermark) && grouped(a) && !valid(a))
    {
      IgnoredSnoc(config, a, keys, done, i, watermark);
    }
    if config.Closed(i, watermark) {
      var invalid := (a: Action) => grouped(a) && !valid(a);
      var accepted := (a: Action) => a.Key() == i.Key() && config.ValidAction(i, a, watermark);
      FilterUnion(unique, accepted, invalid, grouped);
      FilterUnion(unique, before, invalid, after);
    } else {
      FilterSame(unique, before, after);
    }
  }

  lemma IgnoredSnoc(config: Config, a: Action, keys: set<Key>, done: seq<Impression>, i: Impression, watermark: int)
    ensures IgnoredSoFar(config, a, keys, done + [i], watermark) <==>
      IgnoredSoFar(config, a, keys, done, watermark) ||
      (config.Closed(i, watermark) && a.Key() == i.Key() && !config.ValidAction(i, a, watermark))
  {
    assert forall x :: x in done + [i] <==> x in done || x == i;
  }

  lemma IgnoredInTheEnd(config: Config, unique: seq<Action>, keys: set<Key>, impressions: seq<Impression>,
                        done: seq<Impression>, watermark: int)
    requires UniqueKeys(impressions) && keys == Ids(impressions, (i: Impression) => i.Key())
    requires forall i :: i in done <==> i in impressions
    ensures IgnoredCount(config, unique, keys, done, watermark)
         == |Filter(unique, (a: Action) => config.Ignored(a, impressions, watermark))|
  {
    forall a: Action ensures IgnoredSoFar(config, a, keys, done, watermark) <==> config.Ignored(a, impressions, watermark)
    {
      if a.Key() in keys {
        var i :| i in impressions && i.Key() == a.Key();
        forall j | j in impressions && j.Key() == a.Key() ensures j == i {
          SameKeySameImpression(impressions, i, j);
        }
      }
    }
    FilterSame(unique, (a: Action) => IgnoredSoFar(config, a, keys, done, watermark),
               (a: Action) => config.Ignored(a, impressions, watermark));
  }

  lemma SameKeySameImpression(impressions: seq<Impression>, i: Impression, j: Impression)
    requires UniqueKeys(impressions) && i in impressions && j in impressions && i.Key() == j.Key()
    ensures i == j
  {
    var m :| 0 <= m < |impressions| && impressions[m] == i;
    var n :| 0 <= n < |impressions| && impressions[n] == j;
    var keys := Map(impressions, (i: Impression) => i.Key());
    assert keys[m] == keys[n];
  }

  lemma ByTimeIsPreorder()
    ensures TotalPreorder(ByTime)
  {
  }

  lemma FreshInSorted(impressions: seq<Impression>, sorted: seq<Impression>, keys: set<Key>, k: nat)
    requires UniqueKeys(impressions) && keys == Ids(impressions, (i: Impression) => i.Key())
    requires sorted == SortBy(impressions, ByTime) && k < |sorted|
    ensures FreshKey(sorted[k], keys, sorted[..k])
  {
    ByTimeIsPreorder();
    SortCorrect(impressions, ByTime);
    forall i, j | 0 <= i < j < |impressions| ensures impressions[i] != impressions[j] {
      assert Map(impressions, (i: Impression) => i.Key())[i] != Map(impressions, (i: Impression) => i.Key())[j];
    }
    SortDistinct(impressions, ByTime);
    assert sorted[k] in sorted;
    forall d | d in sorted[..k] ensures d.Key() != sorted[k].Key() {
      var m :| 0 <= m < k && sorted[m] == d;
      assert sorted[m] != sorted[k];
      if d.Key() == sorted[k].Key() {
        SameKeySameImpression(impressions, d, sorted[k]);
      }
    }
  }

  /** The examples are those of the closed impressions in time order; every deduplicated action is either
      ignored, or valid for its closed impression, or waiting for one that is still open. */
  method Build(config: Config, impressions: seq<Impression>, actions: seq<Action>, watermark: int)
    returns (r: Result<JoinReport, string>)
    ensures r.Success? <==> UniqueKeys(impressions)
    ensures r.Success? ==> r.value.examples == config.Examples(impressions, actions, watermark)
    ensures r.Success? ==> r.value.immature + |r.value.examples| == |impressions|
    ensures r.Success? ==> r.value.duplicates == |actions| - |FirstWins(actions, (a: Action) => a.eventId)|
    ensures r.Success? ==>
      r.value.ignored == |Filter(FirstWins(actions, (a: Action) => a.eventId),
                                 (a: Action) => config.Ignored(a, impressions, watermark))|
  {
    var keyed, repeatedKeys := Deduplicate(impressions, (i: Impression) => i.Key());
    KeysUniqueWhenNoneRepeated(impressions);
    if repeatedKeys != 0 {
      return Failure("impression keys must be unique");
    }
    var keys := set i | i in impressions :: i.Key();
    assert keys == Ids(impressions, (i: Impression) => i.Key());
    var unique, duplicates := Deduplicate(actions, (a: Action) => a.eventId);
    var examples, immature, ignored := BuildUnique(config, impressions, keys, unique, watermark);
    r := Success(JoinReport(examples, immature, duplicates, ignored));
  }

  lemma NoneLookedAt(config: Config, unique: seq<Action>, keys: set<Key>, watermark: int)
    ensures IgnoredCount(config, unique, keys, [], watermark) == |Filter(unique, (a: Action) => a.Key() !in keys)|
  {
    FilterSame(unique, (a: Action) => a.Key() !in keys, (a: Action) => IgnoredSoFar(config, a, keys, [], watermark));
  }

  method BuildUnique(config: Config, impressions: seq<Impression>, keys: set<Key>, unique: seq<Action>, watermark: int)
    returns (examples: seq<Example>, immature: nat, ignored: nat)
    requires UniqueKeys(impressions) && keys == Ids(impressions, (i: Impression) => i.Key())
    ensures examples == Map(Filter(SortBy(impressions, ByTime), (i: Impression) => config.Closed(i, watermark)),
                            (i: Impression) => config.ExampleOf(i, unique, watermark))
    ensures immature + |examples| == |impressions|
    ensures ignored == |Filter(unique, (a: Action) => config.Ignored(a, impressions, watermark))|
  {
    hide ByKey, Config.ExampleOf, Config.Valid, FreshKey, IgnoredCount;
    var byKey, orphans := GroupActions(unique, keys);
    var sorted := SortBy(impressions, ByTime);
    examples, immature, ignored := [], 0, orphans;
    NoneLookedAt(config, unique, keys, watermark);
    assert sorted[..0] == [];
    for k := 0 to |sorted|
      invariant examples == Map(Filter(sorted[..k], (i: Impression) => config.Closed(i, watermark)),
                                (i: Impression) => config.ExampleOf(i, unique, watermark))
      invariant immature + |examples| == k
      invariant ignored == IgnoredCount(config, unique, keys, sorted[..k], watermark)
    {
      var impression := sorted[k];
      assert sorted[..k + 1] == sorted[..k] + [impression];
      FilterSnoc(sorted[..k], impression, (i: Impression) => config.Closed(i, watermark));
      FreshInSorted(impressions, sorted, keys, k);
      IgnoredStep(config, unique, keys, sorted[..k], impression, watermark);
      if impression.eventTime + config.window + config.lateness > watermark {
        immature := immature + 1;
        continue;
      }
      var example, leftOver := BuildExample(config, impression, keys, byKey, unique, watermark);
      ignored := ignored + leftOver;
      examples := examples + [example];
    }
    assert sorted[..|sorted|] == sorted;
    ByTimeIsPreorder();
    SortCorrect(impressions, ByTime);
    IgnoredInTheEnd(config, unique, keys, impressions, sorted, watermark);
  }

  /** One closed impression: its example, and how many actions of its group were not valid. */
  method BuildExample(config: Config, impression: Impression, keys: set<Key>, byKey: map<Key, seq<Action>>,
                      ghost unique: seq<Action>, watermark: int)
    returns (example: Example, leftOver: nat)
    requires impression.Key() in keys
    requires ByKey(byKey, keys, unique)
    ensures example == config.ExampleOf(impression, unique, watermark)
    ensures leftOver == |Filter(unique, (a: Action) => a.Key() == impression.Key())|
                        - |config.Valid(impression, unique, watermark)|
  {
    var key := impression.Key();
    var group := if key in byKey then byKey[key] else [];
    FilterSame(unique, (a: Action) => a.Key() == key, (a: Action) => a.Key() == impression.Key());
    var valid := Filter(group, (a: Action) => config.ValidAction(impression, a, watermark));
    GroupThenValid(config, impression, unique, watermark);
    leftOver := |group| - |valid|;
    example := Example(key, impression.userId, impression.itemId, impression.eventTime, impression.featureFids,
                       impression.featureBuckets, map task | task in TASKS :: config.Label(valid, task),
                       config.Weight(impression.propensity), impression.schemaVersion);
  }

  lemma GroupThenValid(config: Config, i: Impression, unique: seq<Action>, watermark: int)
    ensures Filter(Filter(unique, (a: Action) => a.Key() == i.Key()),
                   (a: Action) => config.ValidAction(i, a, watermark)) == config.Valid(i, unique, watermark)
    ensures |config.Valid(i, unique, watermark)| <= |Filter(unique, (a: Action) => a.Key() == i.Key())|
  {
    var grouped, valid := (a: Action) => a.Key() == i.Key(), (a: Action) => config.ValidAction(i, a, watermark);
    FilterFilter(unique, grouped, valid, (a: Action) => a.Key() == i.Key() && config.ValidAction(i, a, watermark));
    FilterContains(Filter(unique, grouped), valid);
  }

  lemma KeysUniqueWhenNoneRepeated(impressions: seq<Impression>)
    ensures |FirstWins(impressions, (i: Impression) => i.Key())| == |impressions| <==> UniqueKeys(impressions)
  {
    var id := (i: Impression) => i.Key();
    NoneRepeated(impressions, id);
  }

  // ---------------------------------------------------------------------------------------------
  // What an example says about the log.

  /** The k-th action shows the task for the impression: the first of its id, with a positive value, in the label window
      and received before both the watermark and the end of the lateness. */
  ghost predicate Shows(config: Config, i: Impression, actions: seq<Action>, k: nat, task: string, watermark: int) {
    && FirstAt(actions, (a: Action) => a.eventId, k)
    && actions[k].requestId == i.requestId && actions[k].itemId == i.itemId
    && actions[k].action == task && actions[k].value > 0.0
    && i.eventTime <= actions[k].eventTime <= i.eventTime + config.window
    && actions[k].receivedAt <= watermark && actions[k].receivedAt <= i.eventTime + config.window + config.lateness
  }

  /** A label is one exactly if some action of the log shows the task, and else zero. */
  lemma LabelMeans(config: Config, i: Impression, actions: seq<Action>, watermark: int, task: string)
    requires task in TASKS
    ensures var e := config.ExampleOf(i, FirstWins(actions, (a: Action) => a.eventId), watermark);
      task in e.labels
      && e.labels[task] == if exists k: nat :: Shows(config, i, actions, k, task, watermark) then 1.0 else 0.0
  {
    var id, counts := (a: Action) => a.eventId, (a: Action) => a.Key() == i.Key() && config.ValidAction(i, a, watermark);
    var valid := config.Valid(i, FirstWins(actions, id), watermark);
    FilterContains(FirstWins(actions, id), counts);
    if a :| a in valid && a.action == task && a.value > 0.0 {
      FirstWinsAt(actions, id, a);
      var k: nat :| FirstAt(actions, id, k) && actions[k] == a;
      assert Shows(config, i, actions, k, task, watermark);
    }
    if k: nat :| Shows(config, i, actions, k, task, watermark) {
      FirstWinsAt(actions, id, actions[k]);
      assert actions[k] in valid;
    }
  }

  /** An example's weight makes up for its propensity, up to the clip. */
  lemma WeightMeans(config: Config, propensity: real)
    requires propensity >= 0.000001
    ensures config.clip * propensity >= 1.0 ==> config.Weight(propensity) * propensity == 1.0
    ensures config.clip * propensity <= 1.0 ==> config.Weight(propensity) == config.clip
  {
    var inverse := 1.0 / propensity;
    assert inverse * propensity == 1.0;
    assert (inverse - config.clip) * propensity == 1.0 - config.clip * propensity;
  }

  // ---------------------------------------------------------------------------------------------
  // Finality.

  /** The actions that count for a closed impression no longer change. */
  lemma ValidIsFinal(config: Config, i: Impression, actions: seq<Action>, more: seq<Action>, w1: int, w2: int)
    requires w1 <= w2 && config.Closed(i, w1) && forall a :: a in more ==> a.receivedAt > w1
    ensures config.Valid(i, FirstWins(actions + more, (a: Action) => a.eventId), w2)
         == config.Valid(i, FirstWins(actions, (a: Action) => a.eventId), w1)
  {
    var id := (a: Action) => a.eventId;
    var added := FirstWinsAppend(actions, more, id);
    var early := (a: Action) => a.Key() == i.Key() && config.ValidAction(i, a, w1);
    var late := (a: Action) => a.Key() == i.Key() && config.ValidAction(i, a, w2);
    FilterConcat(FirstWins(actions, id), added, late);
    FilterNone(added, late);
    FilterSame(FirstWins(actions, id), early, late);
  }

  /** A closed impression's example no longer sees anything received after the watermark. */
  lemma ClosedExampleIsFinal(config: Config, i: Impression, actions: seq<Action>, more: seq<Action>, w1: int, w2: int)
    requires w1 <= w2 && config.Closed(i, w1) && forall a :: a in more ==> a.receivedAt > w1
    ensures config.ExampleOf(i, FirstWins(actions + more, (a: Action) => a.eventId), w2)
         == config.ExampleOf(i, FirstWins(actions, (a: Action) => a.eventId), w1)
  {
    hide FirstWins, Config.Valid;
    ValidIsFinal(config, i, actions, more, w1, w2);
  }

  /** Append-only training examples: as the log grows by impressions that close later and actions received
      later, the examples already built stay, in place, as a literal prefix. */
  lemma ExamplesAreAppendOnly(config: Config, impressions: seq<Impression>, moreImpressions: seq<Impression>,
                              actions: seq<Action>, moreActions: seq<Action>, w1: int, w2: int)
    requires w1 <= w2
    requires forall i :: i in moreImpressions ==> !config.Closed(i, w1)
    requires forall a :: a in moreActions ==> a.receivedAt > w1
    ensures config.Examples(impressions, actions, w1)
         <= config.Examples(impressions + moreImpressions, actions + moreActions, w2)
    ensures UniqueKeys(impressions + moreImpressions) ==> UniqueKeys(impressions)
  {
    var all, id := impressions + moreImpressions, (a: Action) => a.eventId;
    var c1, c2 := (i: Impression) => config.Closed(i, w1), (i: Impression) => config.Closed(i, w2);
    ClosedPrefix(config, impressions, moreImpressions, w1, w2);
    var closed1 := Filter(SortBy(impressions, ByTime), c1);
    FilterContains(SortBy(impressions, ByTime), c1);
    forall i | i in closed1
      ensures config.ExampleOf(i, FirstWins(actions, id), w1)
           == config.ExampleOf(i, FirstWins(actions + moreActions, id), w2)
    {
      ClosedExampleIsFinal(config, i, actions, moreActions, w1, w2);
    }
    MapPrefix(closed1, Filter(SortBy(all, ByTime), c2),
              (i: Impression) => config.ExampleOf(i, FirstWins(actions, id), w1),
              (i: Impression) => config.ExampleOf(i, FirstWins(actions + moreActions, id), w2));
    var key := (i: Impression) => i.Key();
    assert Map(all, key)[..|impressions|] == Map(impressions, key);
  }

  /** Closing later means being shown later, so the impressions closed first come first in time order. */
  lemma ClosedPrefix(config: Config, impressions: seq<Impression>, more: seq<Impression>, w1: int, w2: int)
    requires w1 <= w2 && forall i :: i in more ==> !config.Closed(i, w1)
    ensures Filter(SortBy(impressions, ByTime), (i: Impression) => config.Closed(i, w1))
         <= Filter(SortBy(impressions + more, ByTime), (i: Impression) => config.Closed(i, w2))
  {
    var all := SortBy(impressions + more, ByTime);
    var c1, c2 := (i: Impression) => config.Closed(i, w1), (i: Impression) => config.Closed(i, w2);
    ByTimeIsPreorder();
    SortFilter(impressions, ByTime, c1);
    SortFilter(impressions + more, ByTime, c1);
    SortFilter(impressions + more, ByTime, c2);
    FilterConcat(impressions, more, c1);
    FilterNone(more, c1);
    assert Filter(impressions, c1) + [] == Filter(impressions, c1);
    FilterFilter(all, c2, c1, c1);
    SortCorrect(Filter(impressions + more, c2), ByTime);
    FilterIsPrefix(Filter(all, c2), ByTime, c1);
  }
}
