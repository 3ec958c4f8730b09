/** The stateful Feed environment: bounded history, mood, and the session and return transitions. Random draws,
    behaviour probabilities, scores and the policy are functions about which nothing is assumed. */
module FeedEnvironment {
  import opened Outcomes
  import opened Seqs
  import opened Cascade

  const HISTORY := 32
  const RECENT := 8

  datatype Config = Config(candidates: nat, maxSessions: int, requestsPerSession: int)

  datatype Catalog = Catalog(
    category: Item -> int, poi: Item -> int, duration: Item -> real, isPoi: Item -> bool, fulfillment: Item -> int)

  datatype Probabilities = Probabilities(
    play: real, like: real, favorite: real, comment: real, share: real, anchorClick: real, poiDetail: real, order: real,
    negative: real)

  /** Twelve uniform draws, and the log-normal stay. */
  datatype Draws = Draws(random: nat -> real, stay: real)

  datatype Response = Response(
    play: bool, play3s: bool, stay: real, slide: bool, longView: bool, highQuality: bool, like: bool, favorite: bool,
    comment: bool, share: bool, anchorImpression: bool, anchorClick: bool, poiDetail: bool, poiFavorite: bool,
    order: bool, payment: bool, pixel: bool, negative: bool, watchMinutes: real)

  function Min(a: real, b: real): (r: real)
    ensures r <= a && r <= b && (r == a || r == b)
  {
    if b < a then b else a
  }

  /** The nearest point of an interval. */
  function Clip(x: real, low: real, high: real): (r: real)
    ensures low <= high ==> low <= r <= high && (r < x ==> r == high) && (r > x ==> r == low)
  {
    if x < low then low else if x > high then high else x
  }

  function Flag(b: bool): real {
    if b then 1.0 else 0.0
  }

  function Int(b: bool): nat {
    if b then 1 else 0
  }

  function Respond(c: Catalog, p: Probabilities, d: Draws, item: Item): Response {
    var play := d.random(0) < p.play;
    var duration := c.duration(item);
    var stay := if play then Min(duration, d.stay) else 0.0;
    var anchorImpression := c.isPoi(item);
    var anchor := anchorImpression && d.random(5) < p.anchorClick;
    var detail := anchor && d.random(6) < p.poiDetail;
    var order := detail && d.random(8) < p.order;
    Response(
      play, play && stay >= 3.0, stay, play && stay < 3.0, play && stay >= Min(10.0, duration),
      play && stay >= Min(30.0, duration), play && d.random(1) < p.like, play && d.random(2) < p.favorite,
      play && d.random(3) < p.comment, play && d.random(4) < p.share, anchorImpression, anchor, detail,
      detail && d.random(7) < p.favorite, order, order && c.fulfillment(item) == 1 && d.random(9) < 0.92,
      order && c.fulfillment(item) == 2 && d.random(10) < 0.35, d.random(11) < p.negative, stay / 60.0)
  }

  /** The funnel: each stage happens only within the one before it. */
  lemma ResponseIsFunnel(c: Catalog, p: Probabilities, d: Draws, item: Item)
    ensures var r := Respond(c, p, d, item);
      && (r.play <==> r.play3s || r.slide) && !(r.play3s && r.slide)
      && (r.highQuality ==> r.longView) && (r.longView ==> r.play)
      && (r.like || r.favorite || r.comment || r.share ==> r.play)
      && (r.payment || r.pixel ==> r.order) && !(r.payment && r.pixel)
      && (r.order || r.poiFavorite ==> r.poiDetail) && (r.poiDetail ==> r.anchorClick)
      && (r.anchorClick ==> r.anchorImpression)
      && r.stay == 60.0 * r.watchMinutes && (!r.play ==> r.stay == 0.0)
  {
  }

  /** Under the same draws, nothing that raises the probabilities takes a response away. */
  lemma ResponseGrows(c: Catalog, p: Probabilities, q: Probabilities, d: Draws, item: Item)
    requires p.play <= q.play && p.like <= q.like && p.favorite <= q.favorite && p.comment <= q.comment
    requires p.share <= q.share && p.anchorClick <= q.anchorClick && p.poiDetail <= q.poiDetail && p.order <= q.order
    requires p.negative <= q.negative
    ensures var r, s := Respond(c, p, d, item), Respond(c, q, d, item);
      && (r.play ==> s.play && s.stay == r.stay && (r.play3s ==> s.play3s) && (r.longView ==> s.longView))
      && (r.highQuality ==> s.highQuality) && (r.like ==> s.like) && (r.favorite ==> s.favorite)
      && (r.comment ==> s.comment) && (r.share ==> s.share) && (r.anchorClick ==> s.anchorClick)
      && (r.poiDetail ==> s.poiDetail) && (r.poiFavorite ==> s.poiFavorite) && (r.order ==> s.order)
      && (r.payment ==> s.payment) && (r.pixel ==> s.pixel) && (r.negative ==> s.negative)
  {
  }

  /** `_response`. */
  method React(c: Catalog, p: Probabilities, d: Draws, item: Item) returns (r: Response)
    ensures r == Respond(c, p, d, item)
  {
    hide Respond;
    var play, stay := Watch(c, p, d, item);
    var play3s, slide, longView, highQuality := Views(c, p, d, item, play, stay);
    var like, favorite, comment, share := Engage(c, p, d, item, play);
    var anchor, detail, order := FollowAnchor(c, p, d, item);
    var poiFavorite, payment, pixel := Convert(c, p, d, item, detail, order);
    var negative := Dislike(c, p, d, item);
    r := Response(play, play3s, stay, slide, longView, highQuality, like, favorite, comment, share, c.isPoi(item),
                  anchor, detail, poiFavorite, order, payment, pixel, negative, stay / 60.0);
    RespondRest(c, p, d, item);
  }

  lemma RespondRest(c: Catalog, p: Probabilities, d: Draws, item: Item)
    ensures var r := Respond(c, p, d, item); r.anchorImpression == c.isPoi(item) && r.watchMinutes == r.stay / 60.0
  {
  }

  method Watch(c: Catalog, p: Probabilities, d: Draws, item: Item) returns (play: bool, stay: real)
    ensures play == Respond(c, p, d, item).play && stay == Respond(c, p, d, item).stay
  {
    play, stay := d.random(0) < p.play, 0.0;
    if play {
      stay := Min(c.duration(item), d.stay);
    }
  }

  method Views(c: Catalog, p: Probabilities, d: Draws, item: Item, play: bool, stay: real)
    returns (play3s: bool, slide: bool, longView: bool, highQuality: bool)
    requires play == Respond(c, p, d, item).play && stay == Respond(c, p, d, item).stay
    ensures var r := Respond(c, p, d, item);
      play3s == r.play3s && slide == r.slide && longView == r.longView && highQuality == r.highQuality
  {
    var duration := c.duration(item);
    play3s, slide := play && stay >= 3.0, play && stay < 3.0;
    longView, highQuality := play && stay >= Min(10.0, duration), play && stay >= Min(30.0, duration);
  }

  method Engage(c: Catalog, p: Probabilities, d: Draws, item: Item, play: bool)
    returns (like: bool, favorite: bool, comment: bool, share: bool)
    requires play == Respond(c, p, d, item).play
    ensures var r := Respond(c, p, d, item);
      like == r.like && favorite == r.favorite && comment == r.comment && share == r.share
  {
    like, favorite := play && d.random(1) < p.like, play && d.random(2) < p.favorite;
    comment, share := play && d.random(3) < p.comment, play && d.random(4) < p.share;
  }

  method FollowAnchor(c: Catalog, p: Probabilities, d: Draws, item: Item)
    returns (anchor: bool, detail: bool, order: bool)
    ensures var r := Respond(c, p, d, item); anchor == r.anchorClick && detail == r.poiDetail && order == r.order
  {
    anchor := c.isPoi(item) && d.random(5) < p.anchorClick;
    detail := anchor && d.random(6) < p.poiDetail;
    order := detail && d.random(8) < p.order;
  }

  method Convert(c: Catalog, p: Probabilities, d: Draws, item: Item, detail: bool, order: bool)
    returns (poiFavorite: bool, payment: bool, pixel: bool)
    requires detail == Respond(c, p, d, item).poiDetail && order == Respond(c, p, d, item).order
    ensures var r := Respond(c, p, d, item);
      poiFavorite == r.poiFavorite && payment == r.payment && pixel == r.pixel
  {
    poiFavorite := detail && d.random(7) < p.favorite;
    payment := order && c.fulfillment(item) == 1 && d.random(9) < 0.92;
    pixel := order && c.fulfillment(item) == 2 && d.random(10) < 0.35;
  }

  method Dislike(c: Catalog, p: Probabilities, d: Draws, item: Item) returns (negative: bool)
    ensures negative == Respond(c, p, d, item).negative
  {
    negative := d.random(11) < p.negative;
  }

  const NO_BATCH := CandidateBatch([], [], [], [], [], [])

  /** `interest` stands for the user's interest vectors, `batch` for what the last recall left. */
  datatype State = State(
    user: int, session: int, request: int, recentItems: seq<Item>, recentTopics: seq<int>, recentPois: seq<int>,
    satisfaction: real, fatigue: real, observedSatisfaction: real, observedFatigue: real, searchStrength: real,
    interest: seq<real>, batch: CandidateBatch)

  datatype Start = Start(satisfaction: real, searchStrength: real, interest: seq<real>)

  /** Everything foreign to the transitions. Draws are seeded by user, session and request, so they are functions
      of those; scores and probabilities may depend on the whole state. */
  datatype World = World(
    config: Config, catalog: Catalog, mergeLimit: nat, top: TopSelector,
    routeScores: State -> seq<RouteScores>, coarse: State -> (Item, real) -> real,
    start: int -> Start, trust: int -> real, sigmoid: real -> real, probabilities: (State, Item) -> Probabilities,
    responseDraws: (int, int, int) -> Draws, leaveDraw: (int, int, int) -> real, returnDraw: (int, int, int) -> real,
    onLongView: (seq<real>, Item) -> seq<real>, onNewSession: seq<real> -> seq<real>, policy: State -> nat) {
    function RouteLimit(): nat {
      if config.candidates * 2 > 20 then config.candidates * 2 else 20
    }
  }

  /** A deque with a maximal length. */
  function Push<T>(s: seq<T>, x: T, n: nat): seq<T> {
    Last(s + [x], n)
  }

  ghost function Seen(items: seq<Item>): set<Item> {
    set x | x in items
  }

  /** Fresh candidates for a state: recall skips the recent items. Building the observation then fails unless there
      are exactly as many as configured. */
  ghost function Refreshed(w: World, s: State): Result<State, string> {
    match RecallOf(RouteHits(w.routeScores(s), w.RouteLimit(), w.top), Seen(s.recentItems), w.mergeLimit,
                   w.config.candidates, w.coarse(s), w.top)
    case Failure(e) => Failure(e)
    case Success(batch) =>
      if |batch.items| != w.config.candidates then Failure("array dimensions must match")
      else Success(s.(batch := batch))
  }

  function FirstState(w: World, user: int): State {
    var start := w.start(user);
    State(user, 0, 0, [], [], [], start.satisfaction, 0.0, 0.0, 0.0, start.searchStrength, start.interest, NO_BATCH)
  }

  ghost function InitialState(w: World, user: int): Result<State, string> {
    Refreshed(w, FirstState(w, user))
  }

  function Engagement(r: Response): real {
    (Int(r.longView) + Int(r.like) + Int(r.favorite) + Int(r.anchorClick)) as real
  }

  function Repeats(topics: seq<int>, topic: int): real {
    |Filter(topics, (t: int) => t == topic)| as real
  }

  /** The bounded histories after an exposure. */
  function Remembered(w: World, s: State, item: Item, r: Response): State {
    s.(recentTopics := Push(s.recentTopics, w.catalog.category(item), RECENT),
       recentItems := Push(s.recentItems, item, HISTORY),
       recentPois := if r.anchorClick then Push(s.recentPois, w.catalog.poi(item), RECENT) else s.recentPois)
  }

  /** Mood, true and observed, after an exposure already remembered. */
  function Felt(s: State, topic: int, r: Response): State {
    var engagement, repeated := Engagement(r), Repeats(s.recentTopics, topic);
    s.(satisfaction := Clip(0.82 * s.satisfaction + 0.10 * engagement - 0.24 * Flag(r.negative), -1.0, 1.0),
       fatigue := Clip(0.72 * s.fatigue + 0.08 * repeated, 0.0, 1.0),
       observedSatisfaction :=
         Clip(0.88 * s.observedSatisfaction + 0.12 * engagement - 0.20 * Flag(r.negative), -1.0, 1.0),
       observedFatigue := Clip(0.82 * s.observedFatigue + 0.05 * repeated, 0.0, 1.0))
  }

  /** History, mood and counters after a response, before the session is looked at. */
  function Reacted(w: World, s: State, item: Item, r: Response): State {
    var felt := Felt(Remembered(w, s, item, r), w.catalog.category(item), r);
    felt.(interest := if r.longView then w.onLongView(felt.interest, item) else felt.interest,
          request := felt.request + 1, searchStrength := felt.searchStrength * 0.78)
  }

  function SessionEnds(w: World, s: State): bool {
    s.request >= w.config.requestsPerSession ||
    w.leaveDraw(s.user, s.session, s.request) < w.sigmoid(-3.4 - 1.2 * s.satisfaction + 1.7 * s.fatigue)
  }

  function Returns(w: World, s: State): bool {
    s.session + 1 < w.config.maxSessions &&
    w.returnDraw(s.user, s.session, s.request) <
      w.sigmoid(1.0 + 1.6 * s.satisfaction - 1.1 * s.fatigue + 0.4 * w.trust(s.user))
  }

  /** The next session's first state: history and observed interest carry over. */
  function NewSession(w: World, s: State): State {
    s.(session := s.session + 1, request := 0, fatigue := s.fatigue * 0.25, satisfaction := s.satisfaction * 0.75,
       observedFatigue := s.observedFatigue * 0.35, observedSatisfaction := s.observedSatisfaction * 0.80,
       interest := w.onNewSession(s.interest))
  }

  /** One exposure as the trace records it. */
  datatype Row = Row(session: int, request: int, item: Item, batch: CandidateBatch, response: Response, returned: bool)

  datatype Stepped = Stepped(next: State, row: Row, terminated: bool)

  function ResponseTo(w: World, s: State, item: Item): Response {
    Respond(w.catalog, w.probabilities(s, item), w.responseDraws(s.user, s.session, s.request), item)
  }

  function ReturnsAfter(w: World, s: State): bool {
    SessionEnds(w, s) && Returns(w, s)
  }

  function Closed(w: World, s: State): State {
    if ReturnsAfter(w, s) then NewSession(w, s) else s
  }

  ghost function StepOf(w: World, s: State): Result<Stepped, string> {
    var action := w.policy(s);
    if action >= |s.batch.items| then Failure("index out of range")
    else
      var item := s.batch.items[action];
      var response := ResponseTo(w, s, item);
      var reacted := Reacted(w, s, item, response);
      var returned := ReturnsAfter(w, reacted);
      var row := Row(s.session, s.request, item, s.batch, response, returned);
      if SessionEnds(w, reacted) && !returned then Success(Stepped(reacted, row, true))
      else
        match Refreshed(w, Closed(w, reacted))
        case Failure(e) => Failure(e)
        case Success(next) => Success(Stepped(next, row, false))
  }

  /** Satisfaction within [-1, 1] and fatigue within [0, 1], true and observed; histories within their lengths. */
  predicate Bounded(s: State) {
    && -1.0 <= s.satisfaction <= 1.0 && -1.0 <= s.observedSatisfaction <= 1.0
    && 0.0 <= s.fatigue <= 1.0 && 0.0 <= s.observedFatigue <= 1.0
    && |s.recentItems| <= HISTORY && |s.recentTopics| <= RECENT && |s.recentPois| <= RECENT
  }

  /** Every step keeps mood and histories bounded, across session boundaries too. */
  lemma StepKeepsBounded(w: World, s: State)
    requires Bounded(s) && StepOf(w, s).Success?
    ensures Bounded(StepOf(w, s).value.next)
  {
    hide Reacted, ResponseTo, Respond, SessionEnds, Returns, Refreshed, Closed, Bounded;
    var item := s.batch.items[w.policy(s)];
    var reacted := Reacted(w, s, item, ResponseTo(w, s, item));
    ReactedBounded(w, s, item, ResponseTo(w, s, item));
    ClosedBounded(w, reacted);
    if Refreshed(w, Closed(w, reacted)).Success? {
      RefreshedBounded(w, Closed(w, reacted));
    }
  }

  lemma ClosedBounded(w: World, s: State)
    requires Bounded(s)
    ensures Bounded(Closed(w, s))
  {
  }

  lemma RefreshedBounded(w: World, s: State)
    requires Bounded(s) && Refreshed(w, s).Success?
    ensures Bounded(Refreshed(w, s).value)
  {
  }

  lemma ReactedBounded(w: World, s: State, item: Item, r: Response)
    requires Bounded(s)
    ensures Bounded(Reacted(w, s, item, r))
  {
  }

  /** A response with more engagement never leaves the user less satisfied, and negative feedback never more. */
  lemma MoodFollowsResponse(s: State, topic: int, r: Response, better: Response)
    requires Engagement(r) <= Engagement(better) && (better.negative ==> r.negative)
    ensures Felt(s, topic, r).satisfaction <= Felt(s, topic, better).satisfaction
    ensures Felt(s, topic, r).observedSatisfaction <= Felt(s, topic, better).observedSatisfaction
    ensures Felt(s, topic, r).fatigue == Felt(s, topic, better).fatigue
  {
    hide Engagement;
  }

  // ---------------------------------------------------------------------------------------------
  // Leaving and returning.

  ghost predicate Monotone(f: real -> real) {
    forall x: real, y: real :: x <= y ==> f(x) <= f(y)
  }

  /** The same user at the same point of the same session, so with the same draws. */
  ghost predicate SamePoint(s: State, t: State) {
    s.user == t.user && s.session == t.session && s.request == t.request
  }

  /** Whoever ends a session would also end it less satisfied or more tired. */
  lemma LeavingFollowsMood(w: World, s: State, worse: State)
    requires Monotone(w.sigmoid) && SamePoint(s, worse)
    requires worse.satisfaction <= s.satisfaction && worse.fatigue >= s.fatigue
    ensures SessionEnds(w, s) ==> SessionEnds(w, worse)
  {
  }

  /** Whoever returns would also return more satisfied, more trusting or less tired. */
  lemma ReturningFollowsMood(w: World, s: State, better: State, trust: int -> real)
    requires Monotone(w.sigmoid) && SamePoint(s, better)
    requires better.satisfaction >= s.satisfaction && better.fatigue <= s.fatigue && trust(s.user) >= w.trust(s.user)
    ensures Returns(w, s) ==> Returns(w.(trust := trust), better)
  {
  }

  /** Where the thresholds lie: a neutral user, a half satisfied and a half dissatisfied one, and a tired one, before the
      session's last request. */
  lemma LeavingThresholds(w: World, s: State)
    requires s.request < w.config.requestsPerSession
    ensures var draw := w.leaveDraw(s.user, s.session, s.request);
      && (SessionEnds(w, s.(satisfaction := 0.0, fatigue := 0.0)) <==> draw < w.sigmoid(-3.4))
      && (SessionEnds(w, s.(satisfaction := 0.5, fatigue := 0.0)) <==> draw < w.sigmoid(-4.0))
      && (SessionEnds(w, s.(satisfaction := -0.5, fatigue := 0.0)) <==> draw < w.sigmoid(-2.8))
      && (SessionEnds(w, s.(satisfaction := 0.0, fatigue := 1.0)) <==> draw < w.sigmoid(-1.7))
  {
  }

  /** And for returning, of a user without trust and of one with full trust, while a session is left. */
  lemma ReturningThresholds(w: World, s: State)
    requires s.session + 1 < w.config.maxSessions
    ensures var draw := w.returnDraw(s.user, s.session, s.request);
      && (w.trust(s.user) == 0.0 ==>
            && (Returns(w, s.(satisfaction := 0.5, fatigue := 0.0)) <==> draw < w.sigmoid(1.8))
            && (Returns(w, s.(satisfaction := -0.5, fatigue := 0.0)) <==> draw < w.sigmoid(0.2))
            && (Returns(w, s.(satisfaction := 0.0, fatigue := 1.0)) <==> draw < w.sigmoid(-0.1)))
      && (w.trust(s.user) == 1.0 ==>
            (Returns(w, s.(satisfaction := 0.0, fatigue := 0.0)) <==> draw < w.sigmoid(1.4)))
  {
  }

  /** The draw alone never decides the last request of a session or of a run. */
  lemma LimitsDecide(w: World, s: State)
    ensures s.request >= w.config.requestsPerSession ==> SessionEnds(w, s)
    ensures s.session + 1 >= w.config.maxSessions ==> !Returns(w, s)
  {
  }

  class StatefulFeedEnv {
    const world: World
    const user: int
    var session: int
    var request: int
    var recentItems: seq<Item>
    var recentTopics: seq<int>
    var recentPois: seq<int>
    var satisfaction: real
    var fatigue: real
    var observedSatisfaction: real
    var observedFatigue: real
    var searchStrength: real
    var interest: seq<real>
    var batch: CandidateBatch

    function Contents(): State
      reads this
    {
      State(user, session, request, recentItems, recentTopics, recentPois, satisfaction, fatigue, observedSatisfaction,
            observedFatigue, searchStrength, interest, batch)
    }

    /** `__init__` and the part of `reset` before the first recall. */
    constructor (world: World, user: int)
      ensures this.world == world && this.user == user
      ensures Contents() == FirstState(world, user)
    {
      this.world, this.user := world, user;
      session, request, recentItems, recentTopics, recentPois := 0, 0, [], [], [];
      satisfaction, fatigue := world.start(user).satisfaction, 0.0;
      observedSatisfaction, observedFatigue := 0.0, 0.0;
      searchStrength, interest, batch := world.start(user).searchStrength, world.start(user).interest, NO_BATCH;
    }

    /** `_refresh_candidates`, and whether the observation can be built from what it left. */
    method RefreshCandidates() returns (ok: bool)
      modifies this`batch
      ensures ok <==> Refreshed(world, old(Contents())).Success?
      ensures ok ==> Contents() == Refreshed(world, old(Contents())).value
    {
      var here := Contents();
      var routeLimit := if 20 < world.config.candidates * 2 then world.config.candidates * 2 else 20;
      var hits := RouteHits(world.routeScores(here), routeLimit, world.top);
      RouteHitsDistinct(world.routeScores(here), world.RouteLimit(), world.top);
      var seen := set x | x in recentItems;
      assert seen == Seen(recentItems);
      var recalled := Recall(hits, seen, world.mergeLimit, world.config.candidates, world.coarse(here), world.top);
      ok := recalled.Success?;
      if ok {
        batch := recalled.value;
        ok := |batch.items| == world.config.candidates;
      }
    }

    method Remember(item: Item, response: Response)
      modifies this`recentItems, this`recentTopics, this`recentPois
      ensures Contents() == Remembered(world, old(Contents()), item, response)
    {
      recentTopics := Push(recentTopics, world.catalog.category(item), RECENT);
      recentItems := Push(recentItems, item, HISTORY);
      if response.anchorClick {
        recentPois := Push(recentPois, world.catalog.poi(item), RECENT);
      }
    }

    method Feel(topic: int, response: Response)
      modifies this`satisfaction, this`fatigue, this`observedSatisfaction, this`observedFatigue
      ensures Contents() == Felt(old(Contents()), topic, response)
    {
      var engagement := Flag(response.longView) + Flag(response.like) + Flag(response.favorite)
                        + Flag(response.anchorClick);
      satisfaction := Clip(0.82 * satisfaction + 0.10 * engagement - 0.24 * Flag(response.negative), -1.0, 1.0);
      var repeated := CountTopic(recentTopics, topic);
      fatigue := Clip(0.72 * fatigue + 0.08 * repeated, 0.0, 1.0);
      observedSatisfaction :=
        Clip(0.88 * observedSatisfaction + 0.12 * engagement - 0.20 * Flag(response.negative), -1.0, 1.0);
      observedFatigue := Clip(0.82 * observedFatigue + 0.05 * repeated, 0.0, 1.0);
    }

    method CountTopic(topics: seq<int>, topic: int) returns (count: real)
      ensures count == Repeats(topics, topic)
    {
      var n := 0;
      for i := 0 to |topics|
        invariant n == |Filter(topics[..i], (t: int) => t == topic)|
      {
        FilterNext(topics, i, (t: int) => t == topic);
        if topics[i] == topic {
          n := n + 1;
        }
      }
      assert topics[..|topics|] == topics;
      count := n as real;
    }

    /** Updates the state after a response. */
    method Update(item: Item, response: Response)
      modifies this
      ensures Contents() == Reacted(world, old(Contents()), item, response)
    {
      Remember(item, response);
      Feel(world.catalog.category(item), response);
      if response.longView {
        interest := world.onLongView(interest, item);
      }
      request := request + 1;
      searchStrength := searchStrength * 0.78;
    }

    /** The end of a session and the start of the next. */
    method CloseSession() returns (returned: bool, terminated: bool)
      modifies this
      ensures returned == ReturnsAfter(world, old(Contents()))
      ensures terminated == (SessionEnds(world, old(Contents())) && !returned)
      ensures Contents() == Closed(world, old(Contents()))
    {
      hide SessionEnds, Returns, NewSession;
      returned, terminated := false, false;
      var ends := SessionEnd();
      if ends {
        returned := Return();
        terminated := !returned;
        if !terminated {
          NextSession();
        }
      }
    }

    method SessionEnd() returns (ends: bool)
      ensures ends == SessionEnds(world, Contents())
    {
      var leaveProbability := world.sigmoid(-3.4 - 1.2 * satisfaction + 1.7 * fatigue);
      ends := request >= world.config.requestsPerSession
              || world.leaveDraw(user, session, request) < leaveProbability;
    }

    method Return() returns (returned: bool)
      ensures returned == Returns(world, Contents())
    {
      var returnProbability := world.sigmoid(1.0 + 1.6 * satisfaction - 1.1 * fatigue + 0.4 * world.trust(user));
      var hasNextSession := session + 1 < world.config.maxSessions;
      returned := hasNextSession && world.returnDraw(user, session, request) < returnProbability;
    }

    method NextSession()
      modifies this
      ensures Contents() == NewSession(world, old(Contents()))
    {
      session := session + 1;
      request := 0;
      CoolDown();
      interest := world.onNewSession(interest);
    }

    method CoolDown()
      modifies this`fatigue, this`satisfaction, this`observedFatigue, this`observedSatisfaction
      ensures fatigue == old(fatigue) * 0.25 && satisfaction == old(satisfaction) * 0.75
      ensures observedFatigue == old(observedFatigue) * 0.35 && observedSatisfaction == old(observedSatisfaction) * 0.80
    {
      fatigue := fatigue * 0.25;
      satisfaction := satisfaction * 0.75;
      observedFatigue := observedFatigue * 0.35;
      observedSatisfaction := observedSatisfaction * 0.80;
    }

    /** `step`, with the policy's action chosen inside. */
    method Step() returns (r: Result<Stepped, string>)
      modifies this
      ensures r.Success? <==> StepOf(world, old(Contents())).Success?
      ensures r.Success? ==> r == StepOf(world, old(Contents())) && Contents() == r.value.next
    {
      var before := Contents();
      var action := world.policy(before);
      if action >= |batch.items| {
        return Failure("index out of range");
      }
      var item := batch.items[action];
      var draws := world.responseDraws(user, session, request);
      var response := React(world.catalog, world.probabilities(before, item), draws, item);
      Update(item, response);
      var returned, terminated := CloseSession();
      if !terminated {
        var ok := RefreshCandidates();
        if !ok {
          return Failure("no candidates to rank");
        }
      }
      var row := Row(before.session, before.request, item, before.batch, response, returned);
      r := Success(Stepped(Contents(), row, terminated));
    }
  }
}
