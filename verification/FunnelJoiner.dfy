/** The funnel joiner: per-task label windows and maturity masks, and open-loop credit per decision. */
module FunnelJoiner {
  import opened Outcomes
  import opened Seqs
  import opened Dedup
  import Pixels = PixelAttribution
  import Finality = PixelFinality

  type Key = (string, int, int)

  /** Seconds after the impression in which a task's events count. */
  const TASK_WINDOWS: map<string, int> := map[
    "play" := 300, "play_3s" := 300, "stay_seconds" := 300, "slide" := 300, "long_view" := 300,
    "high_quality_long_view" := 300, "like" := 600, "comment" := 600, "share" := 600, "negative_feedback" := 600,
    "anchor_impression" := 600, "anchor_click" := 600, "poi_detail" := 1_800, "poi_favorite" := 86_400,
    "favorite" := 86_400, "submit" := 86_400, "order" := 604_800, "payment" := 604_800,
    "pixel_conversion" := 604_800]

  const PIXEL_TASK := "pixel_conversion"

  datatype Decision = Decision(
    requestId: string, viewerId: int, authorId: int, videoId: int, poiId: int, impressionTime: int,
    samplingProbability: real, exposed: bool, pixelObservable: bool) {
    function Key(): Key { (requestId, videoId, poiId) }
  }

  datatype Action = Action(
    eventId: string, requestId: string, videoId: int, poiId: int, action: string, eventTime: int, receivedAt: int,
    value: real)

  /** A commerce event carries no value; it counts 1. */
  datatype Commerce = Commerce(
    eventId: string, requestId: string, videoId: int, poiId: int, action: string, orderId: string,
    paymentId: Option<string>, eventTime: int, receivedAt: int)

  /** What labelling sees of either kind of event. */
  datatype Behaviour = Behaviour(key: Key, action: string, eventTime: int, receivedAt: int, value: real)

  function OfAction(a: Action): Behaviour {
    Behaviour((a.requestId, a.videoId, a.poiId), a.action, a.eventTime, a.receivedAt, a.value)
  }

  function OfCommerce(c: Commerce): Behaviour {
    Behaviour((c.requestId, c.videoId, c.poiId), c.action, c.eventTime, c.receivedAt, 1.0)
  }

  datatype CoarseExample = CoarseExample(key: Key, labels: map<string, real>, masks: map<string, bool>)

  datatype FineExample = FineExample(
    key: Key, viewerId: int, authorId: int, labels: map<string, real>, masks: map<string, bool>, sampleWeight: real)

  datatype Report = Report(
    coarse: seq<CoarseExample>, fine: seq<FineExample>, duplicates: nat, orphans: nat, immature: nat,
    attribution: Pixels.Report)

  datatype Log = Log(
    actions: seq<Action>, commerce: seq<Commerce>, clicks: seq<Pixels.Click>, pixels: seq<Pixels.Pixel>) {
    ghost function Actions(): seq<Action> { FirstWins(actions, (a: Action) => a.eventId) }
    ghost function Commerces(): seq<Commerce> { FirstWins(commerce, (c: Commerce) => c.eventId) }
    ghost function Clicks(): seq<Pixels.Click> { FirstWins(clicks, (c: Pixels.Click) => c.clickId) }
    ghost function Pixels(): seq<Pixels.Pixel> { FirstWins(pixels, (p: Pixels.Pixel) => p.eventId) }

    /** The deduplicated actions, then the deduplicated commerce events. */
    ghost function Behaviours(): seq<Behaviour> {
      Map(Actions(), OfAction) + Map(Commerces(), OfCommerce)
    }
  }

  /** `windows` is the task table; the joiner is proved for any. */
  datatype Joiner = Joiner(windows: map<string, int>, lateness: int, decay: Pixels.Decay) {
    predicate Counts(d: Decision, task: string, b: Behaviour)
      requires task in windows
    {
      && b.action == task
      && d.impressionTime <= b.eventTime <= d.impressionTime + windows[task]
      && b.receivedAt <= b.eventTime + lateness
    }

    predicate Mature(d: Decision, task: string, watermark: int)
      requires task in windows
    {
      && watermark >= d.impressionTime + windows[task] + lateness
      && (task == PIXEL_TASK ==> d.pixelObservable)
    }

    /** The summed value of the decision's own events that count for the task. */
    function BehaviourLabel(d: Decision, task: string, own: seq<Behaviour>): real
      requires task in windows
    {
      Sum(Filter(own, (b: Behaviour) => task in windows && Counts(d, task, b)), (b: Behaviour) => b.value)
    }

    function LabelsOf(d: Decision, own: seq<Behaviour>, pixelWeight: real): map<string, real> {
      (map task | task in windows :: BehaviourLabel(d, task, own))[PIXEL_TASK := pixelWeight]
    }

    function MasksOf(d: Decision, watermark: int): map<string, bool> {
      map task | task in windows :: Mature(d, task, watermark)
    }

    ghost function PixelWeight(log: Log, watermark: int, key: Key): real {
      Pixels.WeightOf(decay, log.Clicks(), log.Pixels(), watermark, key)
    }

    /** What joining must record for a decision. */
    ghost function Labels(d: Decision, log: Log, watermark: int): map<string, real> {
      LabelsOf(d, Filter(log.Behaviours(), (b: Behaviour) => b.key == d.Key()), PixelWeight(log, watermark, d.Key()))
    }

    ghost function Coarse(d: Decision, log: Log, watermark: int): CoarseExample {
      CoarseExample(d.Key(), Labels(d, log, watermark),
                    if d.exposed then MasksOf(d, watermark) else map task | task in windows :: false)
    }

    ghost function Fine(d: Decision, log: Log, watermark: int): FineExample {
      FineExample(d.Key(), d.viewerId, d.authorId, Labels(d, log, watermark), MasksOf(d, watermark),
                  SampleWeight(d.samplingProbability))
    }

    ghost function OpenTasks(d: Decision, tasks: set<string>, watermark: int): set<string> {
      set task | task in tasks && task in windows && !Mature(d, task, watermark)
    }

    ghost function ImmatureTasks(d: Decision, watermark: int): nat {
      |OpenTasks(d, windows.Keys, watermark)|
    }

    ghost function ImmatureIn(decisions: seq<Decision>, watermark: int): nat {
      if decisions == [] then 0
      else ImmatureIn(decisions[..|decisions| - 1], watermark) + ImmatureTasks(decisions[|decisions| - 1], watermark)
    }
  }

  /** The joiner with the repository's task table. */
  function DefaultJoiner(decay: Pixels.Decay): Joiner {
    Joiner(TASK_WINDOWS, 300, decay)
  }

  function SampleWeight(probability: real): real {
    var floor := 0.000001;
    var inverse := 1.0 / (if probability < floor then floor else probability);
    if inverse < 20.0 then inverse else 20.0
  }

  /** A sampled example stands for the inverse of its probability, up to twenty. */
  lemma SampleWeightMeans(probability: real)
    ensures probability >= 0.05 ==> SampleWeight(probability) * probability == 1.0
    ensures probability <= 0.05 ==> SampleWeight(probability) == 20.0
  {
    if probability >= 0.05 {
      var inverse := 1.0 / probability;
      assert inverse * probability == 1.0;
      assert inverse > 20.0 ==> inverse * probability > 1.0;
    } else {
      var floored := if probability < 0.000001 then 0.000001 else probability;
      var inverse := 1.0 / floored;
      assert inverse * floored == 1.0;
      assert inverse < 20.0 ==> inverse * floored < 1.0;
    }
  }

  ghost predicate UniqueKeys(decisions: seq<Decision>) {
    Distinct(Map(decisions, (d: Decision) => d.Key()))
  }

  /** The dictionary holds, for each decision, its events among those looked at. */
  ghost predicate ByKey(byKey: map<Key, seq<Behaviour>>, keys: set<Key>, seen: seq<Behaviour>) {
    forall k :: k in keys ==> (if k in byKey then byKey[k] else []) == Filter(seen, (b: Behaviour) => b.key == k)
  }

  lemma NothingByKey(keys: set<Key>)
    ensures ByKey(map[], keys, [])
  {
  }

  lemma ByKeySnoc(byKey: map<Key, seq<Behaviour>>, keys: set<Key>, seen: seq<Behaviour>, event: Behaviour)
    requires ByKey(byKey, keys, seen)
    ensures event.key !in keys ==> ByKey(byKey, keys, seen + [event])
    ensures event.key in keys ==>
      ByKey(byKey[event.key := (if event.key in byKey then byKey[event.key] else []) + [event]], keys, seen + [event])
  {
    forall k {
      FilterSnoc(seen, event, (b: Behaviour) => b.key == k);
    }
  }

  method GroupBehaviours(behaviours: seq<Behaviour>, keys: set<Key>)
    returns (byKey: map<Key, seq<Behaviour>>, orphans: nat)
    ensures ByKey(byKey, keys, behaviours)
    ensures orphans == |Filter(behaviours, (b: Behaviour) => b.key !in keys)|
  {
    hide ByKey;
    byKey, orphans := map[], 0;
    NothingByKey(keys);
    for i := 0 to |behaviours|
      invariant ByKey(byKey, keys, behaviours[..i])
      invariant orphans == |Filter(behaviours[..i], (b: Behaviour) => b.key !in keys)|
    {
      var event := behaviours[i];
      assert behaviours[..i + 1] == behaviours[..i] + [event];
      FilterSnoc(behaviours[..i], event, (b: Behaviour) => b.key !in keys);
      ByKeySnoc(byKey, keys, behaviours[..i], event);
      if event.key !in keys {
        orphans := orphans + 1;
      } else {
        byKey := byKey[event.key := (if event.key in byKey then byKey[event.key] else []) + [event]];
      }
    }
    assert behaviours[..|behaviours|] == behaviours;
  }

  /** One example per decision, labelled from the deduplicated log; and the counters. */
  method Build(joiner: Joiner, decisions: seq<Decision>, log: Log, watermark: int)
    returns (r: Result<Report, string>)
    ensures r.Success? <==> UniqueKeys(decisions)
    ensures r.Success? ==> r.value.coarse == Map(decisions, (d: Decision) => joiner.Coarse(d, log, watermark))
    ensures r.Success? ==> r.value.fine == Map(Filter(decisions, (d: Decision) => d.exposed),
                                               (d: Decision) => joiner.Fine(d, log, watermark))
    ensures r.Success? ==>
      r.value.duplicates == |log.actions| - |log.Actions()| + |log.commerce| - |log.Commerces()|
                            + |log.clicks| - |log.Clicks()| + |log.pixels| - |log.Pixels()|
    ensures r.Success? ==>
      r.value.orphans == r.value.attribution.orphan
        + |Filter(log.Behaviours(), (b: Behaviour) => b.key !in Ids(decisions, (d: Decision) => d.Key()))|
    ensures r.Success? ==> r.value.immature == joiner.ImmatureIn(decisions, watermark)
    ensures r.Success? ==>
      var a := r.value.attribution;
      && Pixels.Counted(a.matched, a.orphan, a.missing, a.late, log.Clicks(), log.Pixels(), watermark)
      && a.attributedWeight == a.matched as real
    ensures r.Success? ==>
      var total := Sum(decisions, (d: Decision) => joiner.PixelWeight(log, watermark, d.Key()));
      && total <= r.value.attribution.matched as real
      && (total == r.value.attribution.matched as real <==>
            forall k :: Pixels.Credited(log.Clicks(), log.Pixels(), watermark, k) ==>
              k in Ids(decisions, (d: Decision) => d.Key()))
  {
    var keyed, repeatedKeys := Deduplicate(decisions, (d: Decision) => d.Key());
    NoneRepeated(decisions, (d: Decision) => d.Key());
    if repeatedKeys != 0 {
      return Failure("stage decision keys must be unique");
    }
    var keys := set d | d in decisions :: d.Key();
    assert keys == Ids(decisions, (d: Decision) => d.Key());
    var actions, d0 := Deduplicate(log.actions, (a: Action) => a.eventId);
    var commerce, d1 := Deduplicate(log.commerce, (c: Commerce) => c.eventId);
    var clicks, d2 := Deduplicate(log.clicks, (c: Pixels.Click) => c.clickId);
    var pixels, d3 := Deduplicate(log.pixels, (p: Pixels.Pixel) => p.eventId);
    ClickIdsDistinct(log);
    var order, weights, attribution := Pixels.Attribute(joiner.decay, clicks, pixels, watermark);
    CreditOverDecisions(joiner, decisions, log, order, weights, attribution.matched, watermark);
    var byKey, orphans := GroupBehaviours(Map(actions, OfAction) + Map(commerce, OfCommerce), keys);
    var coarse, fine, immature := BuildExamples(joiner, decisions, log, byKey, weights, watermark);
    r := Success(Report(coarse, fine, d0 + d1 + d2 + d3, orphans + attribution.orphan, immature, attribution));
  }

  /** The decisions' pixel labels share out the matched conversions: never more, and all of them exactly when
      every credited click belongs to a decision. */
  lemma CreditOverDecisions(joiner: Joiner, decisions: seq<Decision>, log: Log, order: seq<Key>, weights: map<Key, real>,
                            matched: nat, watermark: int)
    requires UniqueKeys(decisions)
    requires Pixels.Weighs(order, weights, matched, joiner.decay, log.Clicks(), log.Pixels(), watermark)
    ensures var total := Sum(decisions, (d: Decision) => joiner.PixelWeight(log, watermark, d.Key()));
      && total <= matched as real
      && (total == matched as real <==>
            forall k :: Pixels.Credited(log.Clicks(), log.Pixels(), watermark, k) ==>
              k in Ids(decisions, (d: Decision) => d.Key()))
  {
    var keys := Map(decisions, (d: Decision) => d.Key());
    Pixels.WeightsOverKeys(order, weights, matched, joiner.decay, log.Clicks(), log.Pixels(), watermark, keys);
    SumOverMap(decisions, (d: Decision) => d.Key(), Pixels.WeightAt(weights),
               (d: Decision) => joiner.PixelWeight(log, watermark, d.Key()));
    forall k ensures k in keys <==> k in Ids(decisions, (d: Decision) => d.Key()) {
      if k in Ids(decisions, (d: Decision) => d.Key()) {
        var d :| d in decisions && d.Key() == k;
        var i :| 0 <= i < |decisions| && decisions[i] == d;
        assert keys[i] == k;
      }
    }
  }

  lemma ClickIdsDistinct(log: Log)
    ensures Pixels.DistinctIds(log.Clicks())
  {
    var id, clicks := (c: Pixels.Click) => c.clickId, log.Clicks();
    FirstWinsCorrect(log.clicks, id);
    forall i, j | 0 <= i < j < |clicks| ensures clicks[i].clickId != clicks[j].clickId {
      assert Map(clicks, id)[i] != Map(clicks, id)[j];
    }
  }

  method BuildExamples(joiner: Joiner, decisions: seq<Decision>, ghost log: Log, byKey: map<Key, seq<Behaviour>>,
                       weights: map<Key, real>, watermark: int)
    returns (coarse: seq<CoarseExample>, fine: seq<FineExample>, immature: nat)
    requires ByKey(byKey, Ids(decisions, (d: Decision) => d.Key()), log.Behaviours())
    requires forall k :: Pixels.WeightAt(weights)(k) == joiner.PixelWeight(log, watermark, k)
    ensures coarse == Map(decisions, (d: Decision) => joiner.Coarse(d, log, watermark))
    ensures fine == Map(Filter(decisions, (d: Decision) => d.exposed), (d: Decision) => joiner.Fine(d, log, watermark))
    ensures immature == joiner.ImmatureIn(decisions, watermark)
  {
    hide Built, ByKey, Joiner.PixelWeight, Joiner.ImmatureTasks, Joiner.Coarse, Joiner.Fine;
    coarse, fine, immature := [], [], 0;
    NothingBuilt(joiner, log, watermark);
    for i := 0 to |decisions|
      invariant Built(coarse, fine, immature, joiner, decisions[..i], log, watermark)
    {
      var d := decisions[i];
      assert decisions[..i + 1] == decisions[..i] + [d];
      BuiltSnoc(coarse, fine, immature, joiner, decisions[..i], log, watermark, d);
      OwnBehaviours(byKey, decisions, log.Behaviours(), i);
      var own := if d.Key() in byKey then byKey[d.Key()] else [];
      var c, f, open := ExamplesOf(joiner, d, log, own, Pixels.WeightAt(weights)(d.Key()), watermark);
      immature := immature + open;
      coarse := coarse + [c];
      if d.exposed {
        fine := fine + [f];
      }
    }
    assert decisions[..|decisions|] == decisions;
    BuiltMeans(coarse, fine, immature, joiner, decisions, log, watermark);
  }

  lemma OwnBehaviours(byKey: map<Key, seq<Behaviour>>, decisions: seq<Decision>, behaviours: seq<Behaviour>, i: nat)
    requires ByKey(byKey, Ids(decisions, (d: Decision) => d.Key()), behaviours) && i < |decisions|
    ensures var key := decisions[i].Key();
      (if key in byKey then byKey[key] else []) == Filter(behaviours, (b: Behaviour) => b.key == key)
  {
    assert decisions[i] in decisions;
  }

  /** The examples and the open tasks of these decisions. */
  ghost predicate Built(coarse: seq<CoarseExample>, fine: seq<FineExample>, immature: nat, joiner: Joiner,
                        decisions: seq<Decision>, log: Log, watermark: int) {
    && coarse == Map(decisions, (d: Decision) => joiner.Coarse(d, log, watermark))
    && fine == Map(Filter(decisions, (d: Decision) => d.exposed), (d: Decision) => joiner.Fine(d, log, watermark))
    && immature == joiner.ImmatureIn(decisions, watermark)
  }

  lemma NothingBuilt(joiner: Joiner, log: Log, watermark: int)
    ensures Built([], [], 0, joiner, [], log, watermark)
  {
  }

  lemma BuiltMeans(coarse: seq<CoarseExample>, fine: seq<FineExample>, immature: nat, joiner: Joiner,
                   decisions: seq<Decision>, log: Log, watermark: int)
    requires Built(coarse, fine, immature, joiner, decisions, log, watermark)
    ensures coarse == Map(decisions, (d: Decision) => joiner.Coarse(d, log, watermark))
    ensures fine == Map(Filter(decisions, (d: Decision) => d.exposed), (d: Decision) => joiner.Fine(d, log, watermark))
    ensures immature == joiner.ImmatureIn(decisions, watermark)
  {
  }

  lemma BuiltSnoc(coarse: seq<CoarseExample>, fine: seq<FineExample>, immature: nat, joiner: Joiner,
                  decisions: seq<Decision>, log: Log, watermark: int, d: Decision)
    requires Built(coarse, fine, immature, joiner, decisions, log, watermark)
    ensures Built(coarse + [joiner.Coarse(d, log, watermark)],
                  if d.exposed then fine + [joiner.Fine(d, log, watermark)] else fine,
                  immature + joiner.ImmatureTasks(d, watermark), joiner, decisions + [d], log, watermark)
  {
    hide Joiner.Coarse, Joiner.Fine, Joiner.ImmatureTasks, Filter;
    assert (decisions + [d])[..|decisions|] == decisions;
    FilterSnoc(decisions, d, (d: Decision) => d.exposed);
    MapSnoc(decisions, d, (d: Decision) => joiner.Coarse(d, log, watermark));
    MapSnoc(Filter(decisions, (d: Decision) => d.exposed), d, (d: Decision) => joiner.Fine(d, log, watermark));
  }

  method ExamplesOf(joiner: Joiner, d: Decision, ghost log: Log, own: seq<Behaviour>, pixelWeight: real, watermark: int)
    returns (coarse: CoarseExample, fine: FineExample, immature: nat)
    requires own == Filter(log.Behaviours(), (b: Behaviour) => b.key == d.Key())
    requires pixelWeight == joiner.PixelWeight(log, watermark, d.Key())
    ensures coarse == joiner.Coarse(d, log, watermark) && fine == joiner.Fine(d, log, watermark)
    ensures immature == joiner.ImmatureTasks(d, watermark)
  {
    var labels, masks;
    labels, masks, immature := LabelDecision(joiner, d, own, pixelWeight, watermark);
    assert labels == joiner.Labels(d, log, watermark);
    coarse := CoarseExample(d.Key(), labels, if d.exposed then masks else map task | task in masks :: false);
    fine := FineExample(d.Key(), d.viewerId, d.authorId, labels, masks, SampleWeight(d.samplingProbability));
  }

  /** `_labels`: the loop over the task table. */
  method LabelDecision(joiner: Joiner, d: Decision, own: seq<Behaviour>, pixelWeight: real, watermark: int)
    returns (labels: map<string, real>, masks: map<string, bool>, immature: nat)
    ensures labels == joiner.LabelsOf(d, own, pixelWeight)
    ensures masks == joiner.MasksOf(d, watermark)
    ensures immature == joiner.ImmatureTasks(d, watermark)
  {
    hide Joiner.BehaviourLabel;
    labels, masks, immature := map[], map[], 0;
    var rest := joiner.windows.Keys;
    while rest != {}
      invariant rest <= joiner.windows.Keys
      invariant forall t :: t in labels <==> t in joiner.windows && t !in rest
      invariant forall t :: t in masks <==> t in joiner.windows && t !in rest
      invariant forall t :: t in labels ==> labels[t] == joiner.BehaviourLabel(d, t, own)
      invariant forall t :: t in masks ==> masks[t] == joiner.Mature(d, t, watermark)
      invariant immature + |joiner.OpenTasks(d, rest, watermark)| == joiner.ImmatureTasks(d, watermark)
      decreases |rest|
    {
      var task :| task in rest;
      var mature := watermark >= d.impressionTime + joiner.windows[task] + joiner.lateness;
      if task == PIXEL_TASK && !d.pixelObservable {
        mature := false;
      }
      OpenStep(joiner, d, rest, task, watermark);
      masks := masks[task := mature];
      immature := immature + if mature then 0 else 1;
      var total := SumCounting(joiner, d, task, own);
      labels := labels[task := total];
      rest := rest - {task};
    }
    labels := labels[PIXEL_TASK := pixelWeight];
  }

  /** The sum over the decision's events that count for one task. */
  method SumCounting(joiner: Joiner, d: Decision, task: string, own: seq<Behaviour>) returns (total: real)
    requires task in joiner.windows
    ensures total == joiner.BehaviourLabel(d, task, own)
  {
    hide Filter, Sum;
    var window := joiner.windows[task];
    total := 0.0;
    NoLabel(joiner, d, task);
    for i := 0 to |own|
      invariant total == joiner.BehaviourLabel(d, task, own[..i])
    {
      var event := own[i];
      assert own[..i + 1] == own[..i] + [event];
      LabelSnoc(joiner, d, task, own[..i], event);
      if event.action == task && d.impressionTime <= event.eventTime <= d.impressionTime + window
         && event.receivedAt <= event.eventTime + joiner.lateness {
        total := total + event.value;
      }
    }
    assert own[..|own|] == own;
  }

  lemma NoLabel(joiner: Joiner, d: Decision, task: string)
    requires task in joiner.windows
    ensures joiner.BehaviourLabel(d, task, []) == 0.0
  {
  }

  lemma LabelSnoc(joiner: Joiner, d: Decision, task: string, own: seq<Behaviour>, event: Behaviour)
    requires task in joiner.windows
    ensures joiner.BehaviourLabel(d, task, own + [event])
         == joiner.BehaviourLabel(d, task, own) + if joiner.Counts(d, task, event) then event.value else 0.0
  {
    LabelInsert(joiner, d, task, own, event, []);
    assert own + [event] + [] == own + [event] && own + [] == own;
  }

  lemma LabelInsert(joiner: Joiner, d: Decision, task: string, a: seq<Behaviour>, event: Behaviour, b: seq<Behaviour>)
    requires task in joiner.windows
    ensures joiner.BehaviourLabel(d, task, a + [event] + b)
         == joiner.BehaviourLabel(d, task, a + b) + if joiner.Counts(d, task, event) then event.value else 0.0
  {
    var counts := (x: Behaviour) => task in joiner.windows && joiner.Counts(d, task, x);
    FilterSnoc(a, event, counts);
    FilterConcat(a + [event], b, counts);
    FilterConcat(a, b, counts);
    SumInsert(Filter(a, counts), event, Filter(b, counts), (x: Behaviour) => x.value);
    assert Filter(a, counts) + [] == Filter(a, counts);
  }

  // ---------------------------------------------------------------------------------------------
  // What one event does to the labels.

  /** Inserting an event changes the decision's label by its value if it is the decision's own and counts. */
  lemma LabelOfInserted(joiner: Joiner, d: Decision, task: string, a: seq<Behaviour>, event: Behaviour,
                        b: seq<Behaviour>)
    requires task in joiner.windows
    ensures var own := (x: Behaviour) => x.key == d.Key();
      joiner.BehaviourLabel(d, task, Filter(a + [event] + b, own))
        == joiner.BehaviourLabel(d, task, Filter(a + b, own))
           + if event.key == d.Key() && joiner.Counts(d, task, event) then event.value else 0.0
  {
    var own := (x: Behaviour) => x.key == d.Key();
    FilterSnoc(a, event, own);
    FilterConcat(a + [event], b, own);
    FilterConcat(a, b, own);
    hide Joiner.BehaviourLabel;
    LabelInsert(joiner, d, task, Filter(a, own), event, Filter(b, own));
    assert Filter(a, own) + [] == Filter(a, own);
  }

  ghost function WithAction(log: Log, a: Action): Log {
    log.(actions := log.actions + [a])
  }

  ghost function WithCommerce(log: Log, c: Commerce): Log {
    log.(commerce := log.commerce + [c])
  }

  /** A new action adds its value to the labels of the task it is named after, if it is the decision's, falls into the
      task's window and is received in time; it leaves every other behaviour label alone. */
  lemma ActionEffect(joiner: Joiner, d: Decision, log: Log, a: Action, task: string, watermark: int)
    requires task in joiner.windows && task != PIXEL_TASK
    requires forall x :: x in log.actions ==> x.eventId != a.eventId
    ensures joiner.Labels(d, WithAction(log, a), watermark)[task] == joiner.Labels(d, log, watermark)[task] +
      if a.requestId == d.requestId && a.videoId == d.videoId && a.poiId == d.poiId && a.action == task
         && d.impressionTime <= a.eventTime <= d.impressionTime + joiner.windows[task]
         && a.receivedAt <= a.eventTime + joiner.lateness
      then a.value else 0.0
  {
    FirstWinsSnoc(log.actions, a, (x: Action) => x.eventId);
    MapSnoc(log.Actions(), a, OfAction);
    var actions, commerces := Map(log.Actions(), OfAction), Map(log.Commerces(), OfCommerce);
    assert WithAction(log, a).Behaviours() == actions + [OfAction(a)] + commerces;
    LabelsAt(joiner, d, log, task, watermark);
    LabelsAt(joiner, d, WithAction(log, a), task, watermark);
    hide Joiner.BehaviourLabel, FirstWins, Joiner.Labels, WithAction;
    LabelOfInserted(joiner, d, task, actions, OfAction(a), commerces);
  }

  lemma LabelsAt(joiner: Joiner, d: Decision, log: Log, task: string, watermark: int)
    requires task in joiner.windows && task != PIXEL_TASK
    ensures task in joiner.Labels(d, log, watermark)
    ensures joiner.Labels(d, log, watermark)[task]
         == joiner.BehaviourLabel(d, task, Filter(log.Behaviours(), (b: Behaviour) => b.key == d.Key()))
  {
    hide Joiner.BehaviourLabel, Joiner.PixelWeight;
  }

  /** A new commerce event adds one, under the same conditions. */
  lemma CommerceEffect(joiner: Joiner, d: Decision, log: Log, c: Commerce, task: string, watermark: int)
    requires task in joiner.windows && task != PIXEL_TASK
    requires forall x :: x in log.commerce ==> x.eventId != c.eventId
    ensures joiner.Labels(d, WithCommerce(log, c), watermark)[task] == joiner.Labels(d, log, watermark)[task] +
      if c.requestId == d.requestId && c.videoId == d.videoId && c.poiId == d.poiId && c.action == task
         && d.impressionTime <= c.eventTime <= d.impressionTime + joiner.windows[task]
         && c.receivedAt <= c.eventTime + joiner.lateness
      then 1.0 else 0.0
  {
    CommerceAppended(log, c);
    LabelsAt(joiner, d, log, task, watermark);
    LabelsAt(joiner, d, WithCommerce(log, c), task, watermark);
    hide Joiner.BehaviourLabel, FirstWins, Joiner.Labels, WithCommerce, Log.Behaviours, Filter;
    LabelOfAppended(joiner, d, task, log.Behaviours(), OfCommerce(c));
  }

  lemma CommerceAppended(log: Log, c: Commerce)
    requires forall x :: x in log.commerce ==> x.eventId != c.eventId
    ensures WithCommerce(log, c).Behaviours() == log.Behaviours() + [OfCommerce(c)]
  {
    FirstWinsSnoc(log.commerce, c, (x: Commerce) => x.eventId);
    MapSnoc(log.Commerces(), c, OfCommerce);
    hide FirstWins;
  }

  lemma LabelOfAppended(joiner: Joiner, d: Decision, task: string, a: seq<Behaviour>, event: Behaviour)
    requires task in joiner.windows
    ensures var own := (x: Behaviour) => x.key == d.Key();
      joiner.BehaviourLabel(d, task, Filter(a + [event], own))
        == joiner.BehaviourLabel(d, task, Filter(a, own))
           + if event.key == d.Key() && joiner.Counts(d, task, event) then event.value else 0.0
  {
    hide Joiner.BehaviourLabel, Filter;
    LabelOfInserted(joiner, d, task, a, event, []);
    assert a + [event] + [] == a + [event] && a + [] == a;
  }

  /** An event whose id the log has changes nothing. */
  lemma RepeatedActionEffect(joiner: Joiner, d: Decision, log: Log, a: Action, x: Action, watermark: int)
    requires x in log.actions && x.eventId == a.eventId
    ensures joiner.Labels(d, WithAction(log, a), watermark) == joiner.Labels(d, log, watermark)
  {
    FirstWinsSnoc(log.actions, a, (x: Action) => x.eventId);
    SameBehavioursSameLabels(joiner, d, WithAction(log, a), log, watermark);
  }

  lemma RepeatedCommerceEffect(joiner: Joiner, d: Decision, log: Log, c: Commerce, x: Commerce, watermark: int)
    requires x in log.commerce && x.eventId == c.eventId
    ensures joiner.Labels(d, WithCommerce(log, c), watermark) == joiner.Labels(d, log, watermark)
  {
    FirstWinsSnoc(log.commerce, c, (x: Commerce) => x.eventId);
    SameBehavioursSameLabels(joiner, d, WithCommerce(log, c), log, watermark);
  }

  lemma SameBehavioursSameLabels(joiner: Joiner, d: Decision, a: Log, b: Log, watermark: int)
    requires a.Actions() == b.Actions() && a.Commerces() == b.Commerces() && a.clicks == b.clicks && a.pixels == b.pixels
    ensures joiner.Labels(d, a, watermark) == joiner.Labels(d, b, watermark)
  {
    hide Joiner.LabelsOf;
  }

  /** Without events every behaviour label is zero. */
  lemma NoEventsNoLabels(joiner: Joiner, d: Decision, log: Log, task: string, watermark: int)
    requires task in joiner.windows && task != PIXEL_TASK && log.actions == [] && log.commerce == []
    ensures joiner.Labels(d, log, watermark)[task] == 0.0
  {
    assert log.Behaviours() == [];
  }

  lemma OpenStep(joiner: Joiner, d: Decision, rest: set<string>, task: string, watermark: int)
    requires task in rest && rest <= joiner.windows.Keys
    ensures |joiner.OpenTasks(d, rest, watermark)|
         == |joiner.OpenTasks(d, rest - {task}, watermark)| + if joiner.Mature(d, task, watermark) then 0 else 1
  {
    if joiner.Mature(d, task, watermark) {
      assert joiner.OpenTasks(d, rest, watermark) == joiner.OpenTasks(d, rest - {task}, watermark);
    } else {
      assert joiner.OpenTasks(d, rest, watermark) == joiner.OpenTasks(d, rest - {task}, watermark) + {task};
    }
  }

  // ---------------------------------------------------------------------------------------------
  // Finality and conservation.

  /** What the log may still receive: events that arrive after the watermark. */
  ghost predicate ArrivesAfter(more: Log, watermark: int) {
    && (forall a :: a in more.actions ==> a.receivedAt > watermark)
    && (forall c :: c in more.commerce ==> c.receivedAt > watermark)
    && (forall p :: p in more.pixels ==> p.receivedAt > watermark)
  }

  ghost function Grow(log: Log, more: Log): Log {
    Log(log.actions + more.actions, log.commerce + more.commerce, log.clicks + more.clicks, log.pixels + more.pixels)
  }

  ghost predicate OwnCounts(joiner: Joiner, d: Decision, task: string, b: Behaviour)
    requires task in joiner.windows
  {
    b.key == d.Key() && joiner.Counts(d, task, b)
  }

  /** What arrives after a task's window and lateness have passed never counts for it. */
  lemma LateActionsDoNotCount(joiner: Joiner, d: Decision, task: string, actions: seq<Action>, w1: int)
    requires task in joiner.windows && joiner.Mature(d, task, w1) && forall a :: a in actions ==> a.receivedAt > w1
    ensures forall b :: b in Map(actions, OfAction) ==> !OwnCounts(joiner, d, task, b)
  {
    forall b | b in Map(actions, OfAction) ensures !OwnCounts(joiner, d, task, b) {
      var i :| 0 <= i < |actions| && Map(actions, OfAction)[i] == b;
      assert actions[i] in actions;
    }
  }

  lemma LateCommerceDoesNotCount(joiner: Joiner, d: Decision, task: string, commerce: seq<Commerce>, w1: int)
    requires task in joiner.windows && joiner.Mature(d, task, w1) && forall c :: c in commerce ==> c.receivedAt > w1
    ensures forall b :: b in Map(commerce, OfCommerce) ==> !OwnCounts(joiner, d, task, b)
  {
    forall b | b in Map(commerce, OfCommerce) ensures !OwnCounts(joiner, d, task, b) {
      var i :| 0 <= i < |commerce| && Map(commerce, OfCommerce)[i] == b;
      assert commerce[i] in commerce;
    }
  }

  /** Of the grown log's events, those that count for a mature task are those that counted before. */
  lemma CountedEventsFinal(joiner: Joiner, d: Decision, task: string, log: Log, more: Log, w1: int)
    requires task in joiner.windows && joiner.Mature(d, task, w1) && ArrivesAfter(more, w1)
    ensures Filter(Grow(log, more).Behaviours(), (b: Behaviour) => task in joiner.windows && OwnCounts(joiner, d, task, b))
         == Filter(log.Behaviours(), (b: Behaviour) => task in joiner.windows && OwnCounts(joiner, d, task, b))
  {
    hide OwnCounts, OfAction, OfCommerce, FirstWins;
    var counts := (b: Behaviour) => task in joiner.windows && OwnCounts(joiner, d, task, b);
    var actions := FirstWinsAppend(log.actions, more.actions, (a: Action) => a.eventId);
    var commerce := FirstWinsAppend(log.commerce, more.commerce, (c: Commerce) => c.eventId);
    var a1, a2 := Map(log.Actions(), OfAction), Map(actions, OfAction);
    var c1, c2 := Map(log.Commerces(), OfCommerce), Map(commerce, OfCommerce);
    assert Map(log.Actions() + actions, OfAction) == a1 + a2;
    assert Map(log.Commerces() + commerce, OfCommerce) == c1 + c2;
    LateActionsDoNotCount(joiner, d, task, actions, w1);
    LateCommerceDoesNotCount(joiner, d, task, commerce, w1);
    FilterInterleaved(a1, a2, c1, c2, counts);
  }

  lemma FilterInterleaved(a1: seq<Behaviour>, a2: seq<Behaviour>, c1: seq<Behaviour>, c2: seq<Behaviour>,
                          p: Behaviour -> bool)
    requires forall b :: b in a2 || b in c2 ==> !p(b)
    ensures Filter((a1 + a2) + (c1 + c2), p) == Filter(a1 + c1, p)
  {
    FilterConcat(a1 + a2, c1 + c2, p);
    FilterConcat(a1, a2, p);
    FilterConcat(c1, c2, p);
    FilterConcat(a1, c1, p);
    FilterNone(a2, p);
    FilterNone(c2, p);
  }

  /** Mature-label finality: once a task's mask is on, neither it nor the label changes as the log grows,
      for every task but the pixel's. */
  lemma MatureLabelIsFinal(joiner: Joiner, d: Decision, task: string, log: Log, more: Log, w1: int, w2: int)
    requires task in joiner.windows && task != PIXEL_TASK
    requires w1 <= w2 && ArrivesAfter(more, w1) && joiner.MasksOf(d, w1)[task]
    ensures joiner.MasksOf(d, w2)[task]
    ensures joiner.Labels(d, Grow(log, more), w2)[task] == joiner.Labels(d, log, w1)[task]
  {
    CountedEventsFinal(joiner, d, task, log, more, w1);
    OwnThenCounts(joiner, d, task, log.Behaviours());
    OwnThenCounts(joiner, d, task, Grow(log, more).Behaviours());
  }

  lemma OwnThenCounts(joiner: Joiner, d: Decision, task: string, behaviours: seq<Behaviour>)
    requires task in joiner.windows
    ensures joiner.BehaviourLabel(d, task, Filter(behaviours, (b: Behaviour) => b.key == d.Key()))
         == Sum(Filter(behaviours, (b: Behaviour) => task in joiner.windows && OwnCounts(joiner, d, task, b)),
                (b: Behaviour) => b.value)
  {
    var own := Filter(behaviours, (b: Behaviour) => b.key == d.Key());
    FilterFilter(behaviours, (b: Behaviour) => b.key == d.Key(),
                 (b: Behaviour) => task in joiner.windows && joiner.Counts(d, task, b),
                 (b: Behaviour) => task in joiner.windows && OwnCounts(joiner, d, task, b));
  }

  // ---------------------------------------------------------------------------------------------
  // The pixel label is the exception: late pixels and late clicks both move it.

  /** The arriving clicks deduplication lets in. */
  ghost function NewClicks(log: Log, more: Log): seq<Pixels.Click> {
    var known, all := log.Clicks(), Grow(log, more).Clicks();
    if |known| <= |all| then all[|known|..] else []
  }

  lemma ClicksGrow(log: Log, more: Log)
    ensures Grow(log, more).Clicks() == log.Clicks() + NewClicks(log, more)
    ensures Finality.NewIds(log.Clicks(), NewClicks(log, more))
    ensures forall c :: c in NewClicks(log, more) ==> c in more.clicks
  {
    var id := (c: Pixels.Click) => c.clickId;
    var added := FirstWinsAppend(log.clicks, more.clicks, id);
    assert NewClicks(log, more) == added;
    forall c | c in log.Clicks() ensures c in log.clicks {
      FirstWinsMembers(log.clicks, id, c);
    }
  }

  lemma PixelsGrow(log: Log, more: Log) returns (added: seq<Pixels.Pixel>)
    ensures Grow(log, more).Pixels() == log.Pixels() + added
    ensures forall p :: p in added ==> p in more.pixels
    ensures forall p :: p in log.Pixels() ==> p in log.pixels
  {
    var id := (p: Pixels.Pixel) => p.eventId;
    added := FirstWinsAppend(log.pixels, more.pixels, id);
    forall p | p in log.Pixels() ensures p in log.pixels {
      FirstWinsMembers(log.pixels, id, p);
    }
  }

  ghost function PixelLabel(joiner: Joiner, d: Decision, log: Log, watermark: int): real {
    joiner.Labels(d, log, watermark)[PIXEL_TASK]
  }

  lemma PixelLabelIsWeight(joiner: Joiner, d: Decision, log: Log, watermark: int)
    ensures PixelLabel(joiner, d, log, watermark)
         == Pixels.WeightOf(joiner.decay, log.Clicks(), log.Pixels(), watermark, d.Key())
  {
  }

  /** No pixel of the log credits the decision by being admitted between the watermarks. */
  ghost predicate NoneAdmitted(log: Log, more: Log, d: Decision, w1: int, w2: int) {
    forall p :: p in Grow(log, more).Pixels() ==> !Finality.Admits(log.Clicks(), p, w1, w2, d.Key())
  }

  /** Arriving clicks move no on-time pixel's credit to or from the decision: those they reroute, by sharing its
      credit or by turning out to be the click it names, credit the decision neither before nor after. */
  ghost predicate ClicksSettle(log: Log, more: Log, d: Decision, w2: int) {
    forall p :: p in Grow(log, more).Pixels() && Pixels.OnTime(p, w2) ==>
      Finality.Settled(log.Clicks(), NewClicks(log, more), p, d.Key())
  }

  /** Growth whose clicks settle: the pixel label is unchanged exactly when no pixel that is admitted later has an
      eligible click of the decision. */
  lemma PixelLabelFinalIff(joiner: Joiner, d: Decision, log: Log, more: Log, w1: int, w2: int)
    requires w1 <= w2 && ArrivesAfter(more, w1) && ClicksSettle(log, more, d, w2)
    ensures PixelLabel(joiner, d, Grow(log, more), w2) == PixelLabel(joiner, d, log, w1) <==>
      NoneAdmitted(log, more, d, w1, w2)
  {
    ClicksGrow(log, more);
    var added := PixelsGrow(log, more);
    Finality.SettledWeight(joiner.decay, log.Clicks(), NewClicks(log, more), log.Pixels(), added, w1, w2, d.Key());
  }

  /** Growth whose clicks belong to other decisions and which admits no pixel for this one: the pixel label never
      rises, and is unchanged exactly when the clicks reroute no on-time pixel that credits the decision. */
  lemma LateClicksFinalIff(joiner: Joiner, d: Decision, log: Log, more: Log, w1: int, w2: int)
    requires w1 <= w2 && ArrivesAfter(more, w1) && NoneAdmitted(log, more, d, w1, w2)
    requires forall c :: c in more.clicks ==> c.Key() != d.Key()
    ensures PixelLabel(joiner, d, Grow(log, more), w2) <= PixelLabel(joiner, d, log, w1)
    ensures PixelLabel(joiner, d, Grow(log, more), w2) == PixelLabel(joiner, d, log, w1) <==>
      forall p :: p in Grow(log, more).Pixels() && Pixels.OnTime(p, w2) && Finality.Credits(log.Clicks(), p, d.Key()) ==>
        !Finality.Reroutes(log.Clicks(), NewClicks(log, more), p)
  {
    ClicksGrow(log, more);
    var added := PixelsGrow(log, more);
    Finality.OthersDiluteWeight(joiner.decay, log.Clicks(), NewClicks(log, more), log.Pixels(), added, w1, w2, d.Key());
  }

  /** A check on what arrives, for any growth: if no arriving click reaches a pixel that is on time, and no pixel
      received in between has an eligible click of the decision, the pixel label stays. */
  lemma PixelLabelKept(joiner: Joiner, d: Decision, log: Log, more: Log, w1: int, w2: int)
    requires w1 <= w2 && ArrivesAfter(more, w1)
    requires forall c, p :: c in more.clicks && p in log.pixels + more.pixels && Pixels.OnTime(p, w2) ==>
      !Finality.Reaches(c, p)
    requires forall p :: p in log.pixels + more.pixels ==> !Finality.Admits(log.Clicks(), p, w1, w2, d.Key())
    ensures PixelLabel(joiner, d, Grow(log, more), w2) == PixelLabel(joiner, d, log, w1)
  {
    ClicksGrow(log, more);
    var added := PixelsGrow(log, more);
    Finality.WeightKept(joiner.decay, log.Clicks(), NewClicks(log, more), log.Pixels(), added, w1, w2, d.Key());
  }

  /** A click with a new id that no pixel names, and a pixel with a new id. */
  lemma FreshArrivals(log: Log, click: Pixels.Click, pixel: Pixels.Pixel)
    requires forall c :: c in log.clicks ==> c.clickId != click.clickId
    requires forall p :: p in log.pixels ==> p.eventId != pixel.eventId && p.clickId != Some(click.clickId)
    requires click.identity.None?
    ensures var more := Log([], [], [click], [pixel]);
      Grow(log, more).Clicks() == log.Clicks() + [click] && Grow(log, more).Pixels() == log.Pixels() + [pixel]
    ensures Finality.NewIds(log.Clicks(), [click])
    ensures forall p :: p in log.Pixels() ==> !Finality.Reaches(click, p)
  {
    FirstWinsSnoc(log.clicks, click, (c: Pixels.Click) => c.clickId);
    FirstWinsSnoc(log.pixels, pixel, (p: Pixels.Pixel) => p.eventId);
    forall c | c in log.Clicks() ensures c in log.clicks {
      FirstWinsMembers(log.clicks, (c: Pixels.Click) => c.clickId, c);
    }
    forall p | p in log.Pixels() ensures p in log.pixels {
      FirstWinsMembers(log.pixels, (p: Pixels.Pixel) => p.eventId, p);
    }
  }

  /** Against everything that may still arrive the pixel label is never final: for every log, decision and watermark
      some later click and pixel raise it. */
  lemma PixelLabelNeverFinal(joiner: Joiner, d: Decision, log: Log, w1: int) returns (more: Log)
    ensures ArrivesAfter(more, w1)
    ensures PixelLabel(joiner, d, Grow(log, more), w1 + 1) > PixelLabel(joiner, d, log, w1)
  {
    var clickIds := (set c | c in log.clicks :: c.clickId) +
      set p | p in log.pixels && p.clickId.Some? :: p.clickId.value;
    var clickId := NewId(clickIds);
    var pixelId := NewId(set p | p in log.pixels :: p.eventId);
    var click := Pixels.Click(clickId, d.requestId, d.videoId, d.poiId, None, 0, 0);
    var pixel := Pixels.Pixel(pixelId, "", None, 0, 0, w1 + 1, Some(clickId));
    more := Log([], [], [click], [pixel]);
    hide *;
    FreshGrowthRaises(joiner, d, log, click, pixel, w1);
  }

  lemma FreshGrowthRaises(joiner: Joiner, d: Decision, log: Log, click: Pixels.Click, pixel: Pixels.Pixel, w1: int)
    requires click == Pixels.Click(click.clickId, d.requestId, d.videoId, d.poiId, None, 0, 0) && click.clickId != ""
    requires pixel == Pixels.Pixel(pixel.eventId, "", None, 0, 0, w1 + 1, Some(click.clickId))
    requires forall c :: c in log.clicks ==> c.clickId != click.clickId
    requires forall p :: p in log.pixels ==> p.eventId != pixel.eventId && p.clickId != Some(click.clickId)
    ensures var more := Log([], [], [click], [pixel]);
      ArrivesAfter(more, w1) && PixelLabel(joiner, d, Grow(log, more), w1 + 1) > PixelLabel(joiner, d, log, w1)
  {
    var more := Log([], [], [click], [pixel]);
    FreshArrivals(log, click, pixel);
    PixelLabelIsWeight(joiner, d, log, w1);
    PixelLabelIsWeight(joiner, d, Grow(log, more), w1 + 1);
    hide Grow, PixelLabel, Finality.Reaches, Log.Clicks, Log.Pixels;
    Finality.FreshCreditRaises(joiner.decay, log.Clicks(), click, log.Pixels(), pixel, w1, d.Key());
  }

  // Witnesses.

  /** Shown at time 0 and observable. */
  function WitnessDecision(): Decision {
    Decision("r", 1, 2, 3, 4, 0, 1.0, true, true)
  }

  lemma DefaultMature(decay: Pixels.Decay, w: int)
    requires w >= 1_000_000
    ensures var joiner := DefaultJoiner(decay);
      joiner.decay == decay && PIXEL_TASK in joiner.windows && joiner.Mature(WitnessDecision(), PIXEL_TASK, w)
  {
  }

  lemma OneOfEach(click: Pixels.Click, pixel: Pixels.Pixel)
    ensures Log([], [], [click], [pixel]).Clicks() == [click] && Log([], [], [click], [pixel]).Pixels() == [pixel]
  {
    OneWins(click, (c: Pixels.Click) => c.clickId);
    OneWins(pixel, (p: Pixels.Pixel) => p.eventId);
  }

  /** A log on which a mature pixel label changes: the conversion is received after the mask is on. */
  lemma MaturePixelLabelChanges(decay: Pixels.Decay) returns (d: Decision, log: Log, w1: int, w2: int)
    ensures var joiner := DefaultJoiner(decay);
      && w1 <= w2 && PIXEL_TASK in joiner.windows && joiner.Mature(d, PIXEL_TASK, w1)
      && PixelLabel(joiner, d, log, w2) != PixelLabel(joiner, d, log, w1)
  {
    d, w1, w2 := WitnessDecision(), 1_000_000, 3_000_000;
    var click := Pixels.Click("c", "r", 3, 4, None, 9, 0);
    var pixel := Pixels.Pixel("e", "x", None, 9, 10, 2_000_000, Some("c"));
    log := Log([], [], [click], [pixel]);
    var nothing := Log([], [], [], []);
    assert Grow(log, nothing) == log;
    OneOfEach(click, pixel);
    Finality.EligibleFrom([click], pixel);
    assert click in [click] && click in Pixels.Eligible([click], pixel) && click.Key() == d.Key();
    assert Finality.Admits(log.Clicks(), pixel, w1, w2, d.Key());
    assert NewClicks(log, nothing) == [];
    assert ClicksSettle(log, nothing, d, w2);
    assert pixel in log.Pixels();
    hide DefaultJoiner, PixelLabel, ClicksSettle, Finality.Admits;
    DefaultMature(decay, w1);
    PixelLabelFinalIff(DefaultJoiner(decay), d, log, nothing, w1, w2);
  }

  /** The decision's click, and an identity pixel that arrived in time. */
  function OwnClick(): Pixels.Click {
    Pixels.Click("c", "r", 3, 4, Some("u"), 9, 0)
  }

  function EarlyPixel(): Pixels.Pixel {
    Pixels.Pixel("e", "x", Some("u"), 9, 10, 20, None)
  }

  /** The same identity's click on something else. */
  function OtherClick(): Pixels.Click {
    Pixels.Click("c2", "s", 5, 6, Some("u"), 9, 0)
  }

  /** A second pixel of the identity, received when the watermark has moved on. */
  function LatePixel(): Pixels.Pixel {
    Pixels.Pixel("e2", "y", Some("u"), 9, 10, 2_000_000, None)
  }

  lemma WitnessFacts()
    ensures var c, other, d := OwnClick(), OtherClick(), WitnessDecision();
      && c.clickId != other.clickId && c.eventTime == other.eventTime && c.Key() == d.Key() != other.Key()
      && EarlyPixel().eventId != LatePixel().eventId
      && EarlyPixel().receivedAt == 20 && LatePixel().receivedAt == 2_000_000
      && forall p :: p == EarlyPixel() || p == LatePixel() ==>
           p.clickId.None? && Finality.Reaches(c, p) && Finality.Reaches(other, p)
  {
  }

  /** The log before and after the other click arrives, with or without the late pixel. */
  lemma WitnessLogs(log: Log, more: Log)
    requires log == Log([], [], [OwnClick()], [EarlyPixel()])
    requires more.clicks == [OtherClick()] && (more.pixels == [] || more.pixels == [LatePixel()])
    ensures log.Clicks() == [OwnClick()] && log.Pixels() == [EarlyPixel()]
    ensures NewClicks(log, more) == [OtherClick()]
    ensures Grow(log, more).Clicks() == [OwnClick()] + [OtherClick()]
    ensures Grow(log, more).Pixels() == [EarlyPixel()] + more.pixels
  {
    WitnessFacts();
    hide OwnClick, OtherClick, EarlyPixel, LatePixel, FirstWins;
    OneOfEach(OwnClick(), EarlyPixel());
    TwoWin(OwnClick(), OtherClick(), (c: Pixels.Click) => c.clickId);
    TwoWin(EarlyPixel(), LatePixel(), (p: Pixels.Pixel) => p.eventId);
    assert log.pixels + [] == log.pixels;
  }

  /** Clicks carry no receive time: one that arrives after the mask is on takes part of a credit already given, with
      no pixel admitted and the watermark standing still. */
  lemma LateClickChangesLabel(decay: Pixels.Decay) returns (d: Decision, log: Log, more: Log, w: int)
    ensures var joiner := DefaultJoiner(decay);
      && PIXEL_TASK in joiner.windows && joiner.Mature(d, PIXEL_TASK, w)
      && ArrivesAfter(more, w) && more.pixels == [] && NoneAdmitted(log, more, d, w, w)
      && PixelLabel(joiner, d, Grow(log, more), w) < PixelLabel(joiner, d, log, w)
  {
    d, w := WitnessDecision(), 1_000_000;
    log, more := Log([], [], [OwnClick()], [EarlyPixel()]), Log([], [], [OtherClick()], []);
    DefaultMature(decay, w);
    WitnessFacts();
    WitnessLogs(log, more);
    hide *;
    LateClickLowers(DefaultJoiner(decay), log, more, w);
  }

  lemma LateClickLowers(joiner: Joiner, log: Log, more: Log, w: int)
    requires log == Log([], [], [OwnClick()], [EarlyPixel()]) && more == Log([], [], [OtherClick()], []) && w >= 20
    ensures var d := WitnessDecision();
      && ArrivesAfter(more, w) && NoneAdmitted(log, more, d, w, w)
      && PixelLabel(joiner, d, Grow(log, more), w) < PixelLabel(joiner, d, log, w)
  {
    NothingReceived(log, more, WitnessDecision(), w);
    WitnessLogs(log, more);
    assert Pixels.OnTime(EarlyPixel(), w) && [EarlyPixel()] + more.pixels == [EarlyPixel()];
    hide *;
    LateClickReroutes(joiner.decay, log, more, w);
    LateClicksFinalIff(joiner, WitnessDecision(), log, more, w, w);
  }

  lemma NothingReceived(log: Log, more: Log, d: Decision, w: int)
    requires more.actions == [] && more.commerce == [] && more.pixels == []
    ensures ArrivesAfter(more, w) && NoneAdmitted(log, more, d, w, w)
  {
  }

  lemma LateClickReroutes(decay: Pixels.Decay, log: Log, more: Log, w: int)
    requires log.Clicks() == [OwnClick()] && more.clicks == NewClicks(log, more) == [OtherClick()]
    requires Grow(log, more).Pixels() == [EarlyPixel()] && Pixels.OnTime(EarlyPixel(), w)
    ensures forall c :: c in more.clicks ==> c.Key() != WitnessDecision().Key()
    ensures EarlyPixel() in Grow(log, more).Pixels() && Pixels.OnTime(EarlyPixel(), w)
    ensures Finality.Credits(log.Clicks(), EarlyPixel(), WitnessDecision().Key())
    ensures Finality.Reroutes(log.Clicks(), NewClicks(log, more), EarlyPixel())
  {
    WitnessFacts();
    hide *;
    Finality.SharedEvenly(decay, OwnClick(), OtherClick(), EarlyPixel(), w);
  }

  /** Changes can cancel: a late click halves the credit given and a late pixel brings the other half. So once clicks
      and pixels arrive together, the effect of each alone does not tell whether a label stays. */
  lemma PixelLabelMayCancel(decay: Pixels.Decay) returns (d: Decision, log: Log, more: Log, w1: int, w2: int)
    ensures var joiner := DefaultJoiner(decay);
      && PIXEL_TASK in joiner.windows && joiner.Mature(d, PIXEL_TASK, w1) && w1 <= w2 && ArrivesAfter(more, w1)
      && !NoneAdmitted(log, more, d, w1, w2) && !ClicksSettle(log, more, d, w2)
      && PixelLabel(joiner, d, Grow(log, more), w2) == PixelLabel(joiner, d, log, w1)
  {
    d, w1, w2 := WitnessDecision(), 1_000_000, 3_000_000;
    log, more := Log([], [], [OwnClick()], [EarlyPixel()]), Log([], [], [OtherClick()], [LatePixel()]);
    DefaultMature(decay, w1);
    hide *;
    LateArrivalsCancel(DefaultJoiner(decay), log, more, w1, w2);
  }

  lemma LateArrivalsCancel(joiner: Joiner, log: Log, more: Log, w1: int, w2: int)
    requires log == Log([], [], [OwnClick()], [EarlyPixel()]) && more == Log([], [], [OtherClick()], [LatePixel()])
    requires 20 <= w1 < 2_000_000 <= w2
    ensures var d := WitnessDecision();
      && ArrivesAfter(more, w1) && !NoneAdmitted(log, more, d, w1, w2) && !ClicksSettle(log, more, d, w2)
      && PixelLabel(joiner, d, Grow(log, more), w2) == PixelLabel(joiner, d, log, w1)
  {
    WitnessFacts();
    WitnessLogs(log, more);
    CancelledWeights(joiner.decay, w1, w2);
    hide *;
    CancelledArrivals(log, more, WitnessDecision(), EarlyPixel(), LatePixel(), w1, w2);
    PixelLabelIsWeight(joiner, WitnessDecision(), log, w1);
    PixelLabelIsWeight(joiner, WitnessDecision(), Grow(log, more), w2);
  }

  lemma CancelledWeights(decay: Pixels.Decay, w1: int, w2: int)
    requires 20 <= w1 < 2_000_000 <= w2
    ensures var key := WitnessDecision().Key();
      && Pixels.WeightOf(decay, [OwnClick()], [EarlyPixel()], w1, key) == 1.0
      && Pixels.WeightOf(decay, [OwnClick()] + [OtherClick()], [EarlyPixel()] + [LatePixel()], w2, key) == 1.0
      && Finality.Admits([OwnClick()], LatePixel(), w1, w2, key)
      && !Finality.Settled([OwnClick()], [OtherClick()], EarlyPixel(), key)
  {
    WitnessFacts();
    hide *;
    Finality.ChangesCancel(decay, OwnClick(), OtherClick(), EarlyPixel(), LatePixel(), w1, w2);
  }

  lemma CancelledArrivals(log: Log, more: Log, d: Decision, early: Pixels.Pixel, late: Pixels.Pixel, w1: int, w2: int)
    requires more.actions == [] && more.commerce == [] && more.pixels == [late] && late.receivedAt > w1
    requires Grow(log, more).Pixels() == [early] + [late] && Pixels.OnTime(early, w2)
    requires Finality.Admits(log.Clicks(), late, w1, w2, d.Key())
    requires !Finality.Settled(log.Clicks(), NewClicks(log, more), early, d.Key())
    ensures ArrivesAfter(more, w1) && !NoneAdmitted(log, more, d, w1, w2) && !ClicksSettle(log, more, d, w2)
  {
    hide Grow, NewClicks, Finality.Admits, Finality.Settled, Log.Clicks, Log.Pixels;
    assert early in Grow(log, more).Pixels() && late in Grow(log, more).Pixels();
  }
}
