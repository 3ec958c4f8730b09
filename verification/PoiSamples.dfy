/** POI samples: matured impressions labelled from the action log, with point-in-time viewer features. */
module PoiSamples {
  import opened Outcomes
  import opened Seqs
  import opened Dedup
  import opened Sorting
  import opened ViewerStream

  const ACTION_WINDOWS: map<string, int> := map[
    "long_view" := 300, "anchor_click" := 600, "detail_view" := 1_800, "favorite" := 86_400, "order" := 604_800,
    "negative_feedback" := 3_600]
  const MAX_WINDOW := 604_800

  datatype Impression = Impression(
    impressionId: string, viewerId: int, authorId: int, videoId: int, poiId: Option<int>, categoryId: int,
    eventTime: int, baseFeatures: seq<real>)

  datatype Action = Action(actionId: string, impressionId: string, action: string, eventTime: int, receivedAt: int)

  /** The four version strings that pass through unchanged are not part of the record. */
  datatype Example = Example(
    impressionId: string, viewerId: int, authorId: int, videoId: int, poiId: int, eventTime: int,
    features: seq<real>, sequence: seq<seq<real>>, labels: map<string, real>)

  datatype Report = Report(
    examples: seq<Example>, impressions: nat, anchored: nat, immature: nat, duplicates: nat, ignored: nat)

  predicate Anchored(i: Impression) {
    i.poiId.Some?
  }

  predicate Mature(lateness: int, i: Impression, watermark: int) {
    watermark >= i.eventTime + MAX_WINDOW + lateness
  }

  predicate Counts(lateness: int, i: Impression, task: string, a: Action)
    requires task in ACTION_WINDOWS
  {
    && a.action == task
    && i.eventTime <= a.eventTime <= i.eventTime + ACTION_WINDOWS[task]
    && a.receivedAt <= a.eventTime + lateness
  }

  function Label(lateness: int, i: Impression, task: string, own: seq<Action>): real
    requires task in ACTION_WINDOWS
  {
    if exists a :: a in own && Counts(lateness, i, task, a) then 1.0 else 0.0
  }

  function LabelsOf(lateness: int, i: Impression, own: seq<Action>): map<string, real> {
    map task | task in ACTION_WINDOWS :: Label(lateness, i, task, own)
  }

  const SEQUENCE_LENGTH := 24

  /** One step of the sequence tensor: category one-hot, action code and presence. */
  function SequenceRow(category: int, action: int): seq<real> {
    seq(8, c => if c == category % 6 || c == 7 then 1.0 else if c == 6 then action as real / 4.0 else 0.0)
  }

  /** The last 24 steps, at the end of a zero-padded tensor. */
  function SequenceTensor(s: Snapshot): seq<seq<real>>
    requires |s.categories| == |s.actions|
  {
    var rows := seq(|s.categories|, i requires 0 <= i < |s.categories| => SequenceRow(s.categories[i], s.actions[i]));
    var kept := Last(rows, SEQUENCE_LENGTH);
    seq(SEQUENCE_LENGTH - |kept|, i => seq(8, c => 0.0)) + kept
  }

  function Dense(i: Impression, s: Snapshot): seq<real>
    requires |i.baseFeatures| > 6
  {
    var share := s.count7d as real / 50.0;
    i.baseFeatures[5 := if share < 1.0 then share else 1.0]
                  [6 := if i.categoryId in Last(s.categories, 8) then 1.0 else 0.0]
  }

  function ExampleOf(lateness: int, i: Impression, own: seq<Action>, features: State): Example
    requires Anchored(i) && |i.baseFeatures| > 6
  {
    var s := features.SnapshotAt(i.viewerId, i.eventTime);
    Example(i.impressionId, i.viewerId, i.authorId, i.videoId, i.poiId.value, i.eventTime, Dense(i, s),
            SequenceTensor(s), LabelsOf(lateness, i, own))
  }

  ghost function OwnActions(i: Impression, actions: seq<Action>): seq<Action> {
    Filter(FirstWins(actions, (a: Action) => a.actionId), (a: Action) => a.impressionId == i.impressionId)
  }

  predicate Emits(lateness: int, i: Impression, watermark: int) {
    Anchored(i) && Mature(lateness, i, watermark)
  }

  ghost function ExampleAt(lateness: int, i: Impression, actions: seq<Action>, features: State): Example {
    if Anchored(i) && |i.baseFeatures| > 6 then ExampleOf(lateness, i, OwnActions(i, actions), features)
    else Example(i.impressionId, i.viewerId, i.authorId, i.videoId, 0, i.eventTime, [], [], map[])
  }

  ghost function Examples(lateness: int, impressions: seq<Impression>, actions: seq<Action>, features: State,
                          watermark: int): seq<Example> {
    Map(Filter(impressions, (i: Impression) => Emits(lateness, i, watermark)),
        (i: Impression) => ExampleAt(lateness, i, actions, features))
  }

  /** The dictionary holds, for each of these impressions, its actions among those looked at. */
  ghost predicate ById(byId: map<string, seq<Action>>, ids: set<string>, done: seq<Action>) {
    forall id :: id in ids ==>
      (if id in byId then byId[id] else []) == Filter(done, (a: Action) => a.impressionId == id)
  }

  lemma NothingById(ids: set<string>)
    ensures ById(map[], ids, [])
  {
  }

  lemma ByIdSnoc(byId: map<string, seq<Action>>, ids: set<string>, done: seq<Action>, action: Action)
    requires ById(byId, ids, done)
    ensures action.impressionId !in ids ==> ById(byId, ids, done + [action])
    ensures action.impressionId in ids ==>
      var own := if action.impressionId in byId then byId[action.impressionId] else [];
      ById(byId[action.impressionId := own + [action]], ids, done + [action])
  {
    forall id {
      FilterSnoc(done, action, (a: Action) => a.impressionId == id);
    }
  }

  /** `actions_by_impression`. */
  method GroupActions(unique: seq<Action>, ids: set<string>) returns (byId: map<string, seq<Action>>, ignored: nat)
    ensures ById(byId, ids, unique)
    ensures ignored == |Filter(unique, (a: Action) => a.impressionId !in ids)|
  {
    hide ById;
    byId, ignored := map[], 0;
    NothingById(ids);
    for k := 0 to |unique|
      invariant ById(byId, ids, unique[..k])
      invariant ignored == |Filter(unique[..k], (a: Action) => a.impressionId !in ids)|
    {
      var action := unique[k];
      assert unique[..k + 1] == unique[..k] + [action];
      FilterSnoc(unique[..k], action, (a: Action) => a.impressionId !in ids);
      ByIdSnoc(byId, ids, unique[..k], action);
      if action.impressionId !in ids {
        ignored := ignored + 1;
        continue;
      }
      var own := if action.impressionId in byId then byId[action.impressionId] else [];
      byId := byId[action.impressionId := own + [action]];
    }
    assert unique[..|unique|] == unique;
  }

  /** Looking the impression's actions up gives its example. */
  lemma LookedUp(lateness: int, i: Impression, byId: map<string, seq<Action>>, ids: set<string>, actions: seq<Action>,
                 features: State)
    requires ById(byId, ids, FirstWins(actions, (a: Action) => a.actionId)) && i.impressionId in ids
    requires Anchored(i) && |i.baseFeatures| > 6
    ensures var own := if i.impressionId in byId then byId[i.impressionId] else [];
      ExampleOf(lateness, i, own, features) == ExampleAt(lateness, i, actions, features)
  {
    FilterSame(FirstWins(actions, (a: Action) => a.actionId), (a: Action) => a.impressionId == i.impressionId,
               (a: Action) => a.impressionId == i.impressionId);
  }

  /** `sequence_tensor`. */
  method FillTensor(s: Snapshot) returns (rows: seq<seq<real>>)
    requires |s.categories| == |s.actions|
    ensures rows == SequenceTensor(s)
  {
    hide SequenceTensor;
    var categories, actions := Last(s.categories, SEQUENCE_LENGTH), Last(s.actions, SEQUENCE_LENGTH);
    var result := new real[SEQUENCE_LENGTH, 8]((i, c) => 0.0);
    var start := SEQUENCE_LENGTH - |categories|;
    for k := 0 to |categories|
      invariant forall i, c :: 0 <= i < SEQUENCE_LENGTH && 0 <= c < 8 ==>
        result[i, c] == if start <= i < start + k then SequenceRow(categories[i - start], actions[i - start])[c] else 0.0
    {
      result[start + k, categories[k] % 6] := 1.0;
      result[start + k, 6] := actions[k] as real / 4.0;
      result[start + k, 7] := 1.0;
    }
    rows := seq(SEQUENCE_LENGTH, i requires 0 <= i < SEQUENCE_LENGTH reads result =>
                  seq(8, c requires 0 <= c < 8 reads result => result[i, c]));
    TensorRow(s, 0);
    forall i | 0 <= i < SEQUENCE_LENGTH ensures rows[i] == SequenceTensor(s)[i] {
      TensorRow(s, i);
    }
  }

  /** Row by row: zeros in front, then the last steps in order. */
  lemma TensorRow(s: Snapshot, i: nat)
    requires |s.categories| == |s.actions| && i < SEQUENCE_LENGTH
    ensures |SequenceTensor(s)| == SEQUENCE_LENGTH
    ensures var categories, actions := Last(s.categories, SEQUENCE_LENGTH), Last(s.actions, SEQUENCE_LENGTH);
      var start := SEQUENCE_LENGTH - |categories|;
      SequenceTensor(s)[i] == if i < start then seq(8, c => 0.0) else SequenceRow(categories[i - start], actions[i - start])
  {
  }

  /** One matured impression. */
  method BuildExample(lateness: int, impression: Impression, own: seq<Action>, features: ViewerFeatureOperator)
    returns (example: Example)
    requires Anchored(impression) && |impression.baseFeatures| > 6
    ensures example == ExampleOf(lateness, impression, own, features.Contents())
  {
    hide LabelsOf, SequenceTensor, State.SnapshotAt;
    var labels := LabelAll(lateness, impression, own);
    var snapshot := features.SnapshotOf(impression.viewerId, impression.eventTime);
    var dense := impression.baseFeatures;
    dense := dense[5 := Least(snapshot.count7d as real / 50.0, 1.0)];
    dense := dense[6 := if impression.categoryId in Last(snapshot.categories, 8) then 1.0 else 0.0];
    var sequence := FillTensor(snapshot);
    example := Example(impression.impressionId, impression.viewerId, impression.authorId, impression.videoId,
                       impression.poiId.value, impression.eventTime, dense, sequence, labels);
  }

  method LabelAll(lateness: int, impression: Impression, own: seq<Action>) returns (labels: map<string, real>)
    ensures labels == LabelsOf(lateness, impression, own)
  {
    labels := map task | task in ACTION_WINDOWS ::
      if exists a :: (
        && a in own
        && a.action == task
        && impression.eventTime <= a.eventTime <= impression.eventTime + ACTION_WINDOWS[task]
        && a.receivedAt <= a.eventTime + lateness)
      then 1.0 else 0.0;
  }

  function Least(a: real, b: real): real {
    if b < a then b else a
  }

  /** The loop over the anchored impressions. */
  method EmitAll(lateness: int, anchored: seq<Impression>, byId: map<string, seq<Action>>, ghost ids: set<string>,
                 ghost actions: seq<Action>, features: ViewerFeatureOperator, ghost state: State, watermark: int)
    returns (examples: seq<Example>, immature: nat, ok: bool)
    requires features.Contents() == state
    requires ById(byId, ids, FirstWins(actions, (a: Action) => a.actionId))
    requires forall i :: i in anchored ==> Anchored(i) && i.impressionId in ids
    ensures ok <==> forall i :: i in anchored && Emits(lateness, i, watermark) ==> |i.baseFeatures| > 6
    ensures ok ==> immature + |examples| == |anchored|
    ensures ok ==> examples == Map(Filter(anchored, (i: Impression) => Emits(lateness, i, watermark)),
                                   (i: Impression) => ExampleAt(lateness, i, actions, state))
  {
    hide ExampleAt, ExampleOf, ById, FirstWins;
    examples, immature := [], 0;
    ghost var emits := (i: Impression) => Emits(lateness, i, watermark);
    ghost var toExample := (i: Impression) => ExampleAt(lateness, i, actions, state);
    for k := 0 to |anchored|
      invariant examples == Map(Filter(anchored[..k], emits), toExample)
      invariant immature + |examples| == k
      invariant forall i :: i in anchored[..k] && emits(i) ==> |i.baseFeatures| > 6
    {
      var impression := anchored[k];
      assert anchored[..k + 1] == anchored[..k] + [impression];
      assert impression in anchored;
      FilterSnoc(anchored[..k], impression, emits);
      MapSnoc(Filter(anchored[..k], emits), impression, toExample);
      if watermark < impression.eventTime + MAX_WINDOW + lateness {
        immature := immature + 1;
        continue;
      }
      if |impression.baseFeatures| <= 6 {
        return examples, immature, false;
      }
      var own := if impression.impressionId in byId then byId[impression.impressionId] else [];
      LookedUp(lateness, impression, byId, ids, actions, state);
      var example := BuildExample(lateness, impression, own, features);
      examples := examples + [example];
    }
    assert anchored[..|anchored|] == anchored;
    ok := true;
  }

  /** The examples are those of the anchored, matured impressions in log order. Fewer than seven base features
      make the write of features 5 and 6 fail. */
  method Build(lateness: int, impressions: seq<Impression>, actions: seq<Action>, features: ViewerFeatureOperator,
               watermark: int) returns (r: Result<Report, string>)
    ensures r.Success? <==>
      forall i :: i in impressions && Emits(lateness, i, watermark) ==> |i.baseFeatures| > 6
    ensures r.Success? ==>
      r.value.examples == Examples(lateness, impressions, actions, features.Contents(), watermark)
    ensures r.Success? ==>
      && r.value.impressions == |impressions|
      && r.value.anchored == |Filter(impressions, Anchored)|
      && r.value.immature + |r.value.examples| == r.value.anchored
      && r.value.duplicates == |actions| - |FirstWins(actions, (a: Action) => a.actionId)|
      && r.value.ignored == |Filter(FirstWins(actions, (a: Action) => a.actionId),
                                    (a: Action) =>
                                      forall i :: i in impressions && Anchored(i) ==> i.impressionId != a.impressionId)|
  {
    hide ExampleAt, ExampleOf, ById, FirstWins;
    var anchored := Filter(impressions, Anchored);
    FilterContains(impressions, Anchored);
    var unique, duplicates := Deduplicate(actions, (a: Action) => a.actionId);
    var ids := set i | i in anchored :: i.impressionId;
    var byId, ignored := GroupActions(unique, ids);
    FilterSame(unique, (a: Action) => a.impressionId !in ids,
               (a: Action) => forall i :: i in impressions && Anchored(i) ==> i.impressionId != a.impressionId);
    var examples, immature, ok := EmitAll(lateness, anchored, byId, ids, actions, features, features.Contents(), watermark);
    if !ok {
      return Failure("list assignment index out of range");
    }
    ghost var emits := (i: Impression) => Emits(lateness, i, watermark);
    FilterFilter(impressions, Anchored, emits, (i: Impression) => Emits(lateness, i, watermark));
    r := Success(Report(examples, |impressions|, |anchored|, immature, duplicates, ignored));
  }

  // ---------------------------------------------------------------------------------------------
  // What an example says about the log and the viewer's events.

  /** The k-th action shows the task for the impression: the first of its id, in the task's window, received in time. */
  ghost predicate Shows(actions: seq<Action>, k: nat, i: Impression, task: string, lateness: int)
    requires task in ACTION_WINDOWS
  {
    && FirstAt(actions, (a: Action) => a.actionId, k)
    && actions[k].impressionId == i.impressionId && actions[k].action == task
    && i.eventTime <= actions[k].eventTime <= i.eventTime + ACTION_WINDOWS[task]
    && actions[k].receivedAt <= actions[k].eventTime + lateness
  }

  /** A label is one exactly if some action of the log shows the task, and else zero. */
  lemma LabelMeans(lateness: int, i: Impression, actions: seq<Action>, features: State, task: string)
    requires Anchored(i) && |i.baseFeatures| > 6 && task in ACTION_WINDOWS
    ensures task in ExampleAt(lateness, i, actions, features).labels
    ensures ExampleAt(lateness, i, actions, features).labels[task]
         == if exists k: nat :: Shows(actions, k, i, task, lateness) then 1.0 else 0.0
  {
    var id, mine := (a: Action) => a.actionId, (a: Action) => a.impressionId == i.impressionId;
    var own := OwnActions(i, actions);
    FilterContains(FirstWins(actions, id), mine);
    if a :| a in own && Counts(lateness, i, task, a) {
      FirstWinsAt(actions, id, a);
      var k: nat :| FirstAt(actions, id, k) && actions[k] == a;
      assert Shows(actions, k, i, task, lateness);
    }
    if k: nat :| Shows(actions, k, i, task, lateness) {
      FirstWinsAt(actions, id, actions[k]);
      assert actions[k] in own && Counts(lateness, i, task, actions[k]);
    }
  }

  /** The viewer's latest events up to a time among those taken in. */
  ghost function Latest(events: seq<Event>, viewer: int, asOf: int, n: nat): seq<Event> {
    Last(SortBy(UpTo(events, viewer, asOf), EventLe), n)
  }

  lemma LatestOfLatest(s: Snapshot, events: seq<Event>, viewer: int, asOf: int, n: nat)
    requires Summarizes(s, events, viewer, asOf) && n <= 64
    ensures |Last(s.categories, n)| == |Last(s.actions, n)| == |Latest(events, viewer, asOf, n)|
    ensures forall k :: 0 <= k < |Latest(events, viewer, asOf, n)| ==>
      && Last(s.categories, n)[k] == Latest(events, viewer, asOf, n)[k].categoryId
      && Last(s.actions, n)[k] == ActionId(Latest(events, viewer, asOf, n)[k].action)
  {
    hide InOrder, UpTo, Within, SortBy, ActionId;
    EventLeIsPreorder();
    SortCorrect(UpTo(events, viewer, asOf), EventLe);
  }

  /** Feature 5 is the week's events in fiftieths, up to one; feature 6 tells whether the impression's category is among
      the last eight; the others are the impression's own. */
  lemma DenseMeans(i: Impression, s: Snapshot, events: seq<Event>)
    requires |i.baseFeatures| > 6 && Summarizes(s, events, i.viewerId, i.eventTime)
    ensures var dense, week := Dense(i, s), |Within(events, i.viewerId, i.eventTime - 604_800, i.eventTime)|;
      && |dense| == |i.baseFeatures|
      && (forall f :: 0 <= f < |dense| && f != 5 && f != 6 ==> dense[f] == i.baseFeatures[f])
      && 50.0 * dense[5] == (if week < 50 then week as real else 50.0)
      && dense[6] == if exists e :: e in Latest(events, i.viewerId, i.eventTime, 8) && e.categoryId == i.categoryId
                     then 1.0 else 0.0
  {
    LatestOfLatest(s, events, i.viewerId, i.eventTime, 8);
    var latest := Latest(events, i.viewerId, i.eventTime, 8);
    hide InOrder, UpTo, Within, SortBy, ActionId, Latest;
    if e :| e in latest && e.categoryId == i.categoryId {
      var k :| 0 <= k < |latest| && latest[k] == e;
      assert Last(s.categories, 8)[k] == i.categoryId;
    }
    if i.categoryId in Last(s.categories, 8) {
      var k :| 0 <= k < |latest| && Last(s.categories, 8)[k] == i.categoryId;
      assert latest[k] in latest;
    }
  }

  /** The tensor ends with the latest 24 events in order; the rows in front are zero. */
  lemma SequenceMeans(s: Snapshot, events: seq<Event>, viewer: int, asOf: int, r: nat)
    requires Summarizes(s, events, viewer, asOf) && |s.categories| == |s.actions| && r < 24
    ensures |SequenceTensor(s)| == 24 && |Latest(events, viewer, asOf, 24)| <= 24
    ensures var latest := Latest(events, viewer, asOf, 24);
      SequenceTensor(s)[r] ==
        if r < 24 - |latest| then seq(8, c => 0.0)
        else SequenceRow(latest[r - (24 - |latest|)].categoryId, ActionId(latest[r - (24 - |latest|)].action))
  {
    LatestOfLatest(s, events, viewer, asOf, 24);
    hide *;
    TensorRow(s, r);
    LatestSize(events, viewer, asOf, 24);
  }

  /** A row is the category modulo six as one of six, the action in quarters, and a one. */
  lemma SequenceRowMeans(category: int, action: int)
    ensures var row := SequenceRow(category, action);
      && |row| == 8 && row[6] == action as real / 4.0 && row[7] == 1.0
      && forall c :: 0 <= c < 6 ==> row[c] == if c == category % 6 then 1.0 else 0.0
  {
  }

  lemma LatestSize(events: seq<Event>, viewer: int, asOf: int, n: nat)
    ensures |Latest(events, viewer, asOf, n)| <= n
  {
    hide UpTo, SortBy;
  }

  /** So for every run of the operator. */
  lemma ExampleMeans(lateness: int, i: Impression, actions: seq<Action>, allowed: int, arrivals: seq<Arrival>)
    requires Anchored(i) && |i.baseFeatures| > 6
    ensures var state := Run(Initial(allowed), arrivals);
      var e, s := ExampleAt(lateness, i, actions, state), state.SnapshotAt(i.viewerId, i.eventTime);
      && Summarizes(s, Accepted(allowed, arrivals), i.viewerId, i.eventTime)
      && e.features == Dense(i, s) && e.sequence == SequenceTensor(s)
      && e.impressionId == i.impressionId && e.viewerId == i.viewerId && e.authorId == i.authorId
      && e.videoId == i.videoId && i.poiId == Some(e.poiId) && e.eventTime == i.eventTime
  {
    SnapshotMeans(allowed, arrivals, i.viewerId, i.eventTime);
    hide Summarizes, Run, Accepted;
  }

  /** `max(ACTION_WINDOWS_SECONDS.values())`. */
  lemma MaxWindowIsMax()
    ensures forall task :: task in ACTION_WINDOWS ==> ACTION_WINDOWS[task] <= MAX_WINDOW
    ensures exists task :: task in ACTION_WINDOWS && ACTION_WINDOWS[task] == MAX_WINDOW
  {
    assert ACTION_WINDOWS["order"] == MAX_WINDOW;
  }

  /** Actions received after the watermark come too late for every task of a matured impression. */
  lemma LabelsAreFinal(lateness: int, i: Impression, actions: seq<Action>, more: seq<Action>, w1: int)
    requires Mature(lateness, i, w1) && forall a :: a in more ==> a.receivedAt > w1
    ensures LabelsOf(lateness, i, OwnActions(i, actions + more)) == LabelsOf(lateness, i, OwnActions(i, actions))
  {
    var id, own := (a: Action) => a.actionId, (a: Action) => a.impressionId == i.impressionId;
    var added := FirstWinsAppend(actions, more, id);
    FilterConcat(FirstWins(actions, id), added, own);
    FilterContains(added, own);
    MaxWindowIsMax();
    var before, after := OwnActions(i, actions), OwnActions(i, actions + more);
    assert after == before + Filter(added, own);
    forall task | task in ACTION_WINDOWS ensures Label(lateness, i, task, after) == Label(lateness, i, task, before) {
      forall a | a in Filter(added, own) ensures !Counts(lateness, i, task, a) {
      }
    }
  }

  /** Sample finality: an emitted example does not change, in labels, dense features or sequence, whatever the
      operator still ingests from that watermark on and whatever actions arrive after it. The operator's lateness
      may be any that is shorter than the joiner's plus the longest window, so in particular the joiner's own. */
  lemma ExampleIsFinal(lateness: int, i: Impression, actions: seq<Action>, more: seq<Action>, features: State,
                       arrivals: seq<Arrival>, w1: int)
    requires Emits(lateness, i, w1) && forall a :: a in more ==> a.receivedAt > w1
    requires features.Valid() && From(arrivals, w1) && features.lateness < lateness + MAX_WINDOW
    ensures ExampleAt(lateness, i, actions + more, Run(features, arrivals)) == ExampleAt(lateness, i, actions, features)
  {
    LabelsAreFinal(lateness, i, actions, more, w1);
    SnapshotFrozen(features, arrivals, w1, i.viewerId, i.eventTime);
  }

  /** So joining again later only adds examples. */
  lemma ExamplesOnlyGrow(lateness: int, impressions: seq<Impression>, moreImpressions: seq<Impression>,
                         actions: seq<Action>, more: seq<Action>, features: State, arrivals: seq<Arrival>, w1: int, w2: int)
    requires w1 <= w2 && forall a :: a in more ==> a.receivedAt > w1
    requires features.Valid() && From(arrivals, w1) && features.lateness < lateness + MAX_WINDOW
    ensures Subsequence(Examples(lateness, impressions, actions, features, w1),
                        Examples(lateness, impressions + moreImpressions, actions + more, Run(features, arrivals), w2))
  {
    hide ExampleAt, Run, Subsequence;
    var p, q := (i: Impression) => Emits(lateness, i, w1), (i: Impression) => Emits(lateness, i, w2);
    var f := (i: Impression) => ExampleAt(lateness, i, actions, features);
    var g := (i: Impression) => ExampleAt(lateness, i, actions + more, Run(features, arrivals));
    forall i | i in impressions && p(i) ensures f(i) == g(i) {
      ExampleIsFinal(lateness, i, actions, more, features, arrivals, w1);
    }
    FilterMapSubsequence(impressions, p, q, f, g);
    FilterConcat(impressions, moreImpressions, q);
    var kept, added := Filter(impressions, q), Filter(moreImpressions, q);
    assert Map(kept + added, g) == Map(kept, g) + Map(added, g);
    SubsequenceAppend(Map(Filter(impressions, p), f), Map(kept, g), Map(added, g));
  }
}
