/** Runs of the Feed environment: one trajectory on its own, what every run keeps, and the batched population run. */
module Population {
  import opened Outcomes
  import opened Seqs
  import opened Cascade
  import opened FeedEnvironment
  import opened Trajectories

  function AtLeastOne(n: int): nat {
    if n < 1 then 1 else n
  }

  function Sessions(w: World): nat {
    AtLeastOne(w.config.maxSessions)
  }

  function Requests(w: World): nat {
    AtLeastOne(w.config.requestsPerSession)
  }

  /** Multiplication by repeated addition. */
  function Times(a: nat, b: nat): nat {
    if a == 0 then 0 else Times(a - 1, b) + b
  }

  lemma {:induction false} TimesIsProduct(a: nat, b: nat)
    ensures Times(a, b) == a * b
  {
    if a > 0 {
      TimesIsProduct(a - 1, b);
      assert a * b == (a - 1) * b + b;
    }
  }

  /** Most requests a trajectory can have. */
  function Limit(w: World): nat {
    Times(Sessions(w), Requests(w))
  }

  predicate InRange(w: World, s: State) {
    0 <= s.session < Sessions(w) && 0 <= s.request < Requests(w)
  }

  /** Requests that may still follow. */
  function Remaining(w: World, s: State): nat
    requires InRange(w, s)
  {
    Times(Sessions(w) - s.session - 1, Requests(w)) + (Requests(w) - s.request)
  }

  /** A step moves to the next request, or to the first one of the next session. */
  lemma StepCounters(w: World, s: State)
    requires StepOf(w, s).Success?
    ensures var st := StepOf(w, s).value;
      && st.row.item in st.row.batch.items && st.row.batch == s.batch
      && st.next.session == s.session + (if st.row.returned then 1 else 0)
      && st.next.request == (if st.row.returned then 0 else s.request + 1)
      && (st.row.returned ==> !st.terminated && s.session + 1 < w.config.maxSessions)
      && (!st.row.returned && !st.terminated ==> s.request + 1 < w.config.requestsPerSession)
      && st.next.recentItems == Push(s.recentItems, st.row.item, HISTORY)
  {
  }

  lemma StepStaysInRange(w: World, s: State)
    requires InRange(w, s) && StepOf(w, s).Success? && !StepOf(w, s).value.terminated
    ensures InRange(w, StepOf(w, s).value.next)
    ensures Remaining(w, StepOf(w, s).value.next) < Remaining(w, s)
  {
    hide StepOf;
    StepCounters(w, s);
  }

  /** The rest of a trajectory, from a state and the exposures so far. */
  ghost function Finish(w: World, s: State, rows: seq<Row>): Result<seq<Row>, string>
    requires InRange(w, s)
    decreases Remaining(w, s)
  {
    match StepOf(w, s)
    case Failure(e) => Failure(e)
    case Success(st) =>
      if st.terminated then Success(rows + [st.row])
      else
        StepStaysInRange(w, s);
        Finish(w, st.next, rows + [st.row])
  }

  /** A user's whole trajectory. */
  ghost function Solo(w: World, user: int): Result<seq<Row>, string> {
    match InitialState(w, user)
    case Failure(e) => Failure(e)
    case Success(s) => Finish(w, s, [])
  }

  // ---------------------------------------------------------------------------------------------
  // What every run keeps.

  function ItemOf(r: Row): Item {
    r.item
  }

  /** Any HISTORY + 1 consecutive items are pairwise distinct. */
  ghost predicate NoRepeat(items: seq<Item>) {
    forall i, j :: 0 <= i < j < |items| && j - i <= HISTORY ==> items[i] != items[j]
  }

  /** A batch whose logs line up: distinct recalled items, and as many distinct survivors among them as asked for. */
  ghost predicate ClosedBatch(w: World, b: CandidateBatch) {
    && |b.recalledItems| == |b.recalledRoutes| == |b.recallScores| == |b.coarseScores|
    && |b.items| == |b.routes| == w.config.candidates
    && Distinct(b.recalledItems) && Distinct(b.items)
    && (forall x :: x in b.items ==> x in b.recalledItems)
  }

  ghost predicate GoodRow(w: World, r: Row) {
    Funnel(r.response) && ClosedBatch(w, r.batch) && r.item in r.batch.items
  }

  /** What a finished trajectory satisfies, whatever the policy and the draws. */
  ghost predicate Sound(w: World, rows: seq<Row>) {
    && NoRepeat(Map(rows, ItemOf))
    && |rows| <= Limit(w)
    && Returned(rows) + 1 <= Sessions(w)
    && (forall r :: r in rows ==> GoodRow(w, r))
  }

  /** What holds between steps. */
  ghost predicate Running(w: World, s: State, rows: seq<Row>) {
    && Sound(w, rows)
    && InRange(w, s) && |rows| + Remaining(w, s) <= Limit(w)
    && Returned(rows) == s.session
    && s.recentItems == Last(Map(rows, ItemOf), HISTORY)
    && ClosedBatch(w, s.batch)
    && (forall x :: x in s.batch.items ==> x !in s.recentItems)
  }

  /** Fresh candidates avoid the history they were recalled against. */
  lemma RefreshedBatch(w: World, s: State)
    requires Refreshed(w, s).Success?
    ensures var s' := Refreshed(w, s).value;
      && s' == s.(batch := s'.batch)
      && ClosedBatch(w, s'.batch) && forall x :: x in s'.batch.items ==> x !in s.recentItems
  {
    var hits, seen := RouteHits(w.routeScores(s), w.RouteLimit(), w.top), Seen(s.recentItems);
    RecalledCorrect(hits, seen, w.mergeLimit);
    SurvivorsAreTop(hits, seen, w.mergeLimit, w.config.candidates, w.coarse(s), w.top);
  }

  /** A bounded history is the tail of the whole one. */
  lemma PushIsLast<T>(all: seq<T>, x: T, n: nat)
    requires n > 0
    ensures Push(Last(all, n), x, n) == Last(all + [x], n)
  {
  }

  lemma NoRepeatSnoc(items: seq<Item>, x: Item)
    requires NoRepeat(items) && x !in Last(items, HISTORY)
    ensures NoRepeat(items + [x])
  {
    var recent := Last(items, HISTORY);
    forall i | 0 <= i < |items| && |items| - i <= HISTORY ensures items[i] != x {
      assert items[i] == recent[i - (|items| - |recent|)];
    }
  }

  lemma StepIsFunnel(w: World, s: State)
    requires StepOf(w, s).Success?
    ensures Funnel(StepOf(w, s).value.row.response)
  {
    var item := s.batch.items[w.policy(s)];
    ResponseIsFunnel(w.catalog, w.probabilities(s, item), w.responseDraws(s.user, s.session, s.request), item);
  }

  lemma SoundSnoc(w: World, rows: seq<Row>, row: Row)
    requires Sound(w, rows) && GoodRow(w, row)
    requires NoRepeat(Map(rows + [row], ItemOf)) && |rows| < Limit(w) && Returned(rows + [row]) + 1 <= Sessions(w)
    ensures Sound(w, rows + [row])
  {
  }

  lemma StepKeepsRows(w: World, s: State, rows: seq<Row>)
    requires Running(w, s, rows) && StepOf(w, s).Success?
    ensures Sound(w, rows + [StepOf(w, s).value.row])
  {
    var row := StepOf(w, s).value.row;
    StepCounters(w, s);
    StepIsFunnel(w, s);
    MapSnoc(rows, row, ItemOf);
    NoRepeatSnoc(Map(rows, ItemOf), row.item);
    ReturnedSnoc(rows, row);
    SoundSnoc(w, rows, row);
  }

  lemma StepKeepsState(w: World, s: State, rows: seq<Row>)
    requires Running(w, s, rows) && StepOf(w, s).Success? && !StepOf(w, s).value.terminated
    ensures Running(w, StepOf(w, s).value.next, rows + [StepOf(w, s).value.row])
  {
    var st := StepOf(w, s).value;
    StepKeepsRows(w, s, rows);
    StepStaysInRange(w, s);
    StepCounters(w, s);
    MapSnoc(rows, st.row, ItemOf);
    PushIsLast(Map(rows, ItemOf), st.row.item, HISTORY);
    ReturnedSnoc(rows, st.row);
    var item := s.batch.items[w.policy(s)];
    RefreshedBatch(w, Closed(w, Reacted(w, s, item, ResponseTo(w, s, item))));
  }

  lemma {:induction false} FinishIsSound(w: World, s: State, rows: seq<Row>)
    requires Running(w, s, rows) && Finish(w, s, rows).Success?
    ensures Sound(w, Finish(w, s, rows).value)
    decreases Remaining(w, s)
  {
    var st := StepOf(w, s).value;
    if st.terminated {
      StepKeepsRows(w, s, rows);
    } else {
      StepKeepsState(w, s, rows);
      StepStaysInRange(w, s);
      FinishIsSound(w, st.next, rows + [st.row]);
    }
  }

  lemma StartsRunning(w: World, user: int)
    requires InitialState(w, user).Success?
    ensures Running(w, InitialState(w, user).value, [])
  {
    RefreshedBatch(w, FirstState(w, user));
    NothingYet(w);
  }

  lemma NothingYet(w: World)
    ensures Sound(w, []) && Map([], ItemOf) == [] && Returned([]) == 0
  {
  }

  /** Every trajectory, for every policy and every random outcome: no item repeats within any 33 consecutive
      exposures, and the run ends within its request budget. */
  lemma TrajectoryIsSound(w: World, user: int)
    ensures Solo(w, user).Success? ==> Sound(w, Solo(w, user).value)
  {
    hide Running, Sound, StepOf;
    if Solo(w, user).Success? {
      StartsRunning(w, user);
      FinishIsSound(w, InitialState(w, user).value, []);
    }
  }

  /** The totals of every trajectory add up. */
  lemma TrajectoryTotals(w: World, user: int)
    ensures Solo(w, user).Success? ==>
      var t := Tally(Solo(w, user).value);
      && t.sessions == t.returned + 1 <= Sessions(w)
      && t.views.plays == t.views.play3s + t.views.slides
      && t.views.highQuality <= t.views.longViews <= t.views.plays <= |t.rows| <= Limit(w)
      && t.anchors.orders <= t.anchors.details <= t.anchors.clicks <= t.anchors.impressions <= |t.rows|
      && t.lt.total == t.lt.stay + t.lt.activeDays + t.lt.commercialization
      && t.lt.total == t.watchMinutes + 5.0 * t.returned as real
      && Limit(w) == Sessions(w) * Requests(w)
  {
    hide Solo;
    TimesIsProduct(Sessions(w), Requests(w));
    TrajectoryIsSound(w, user);
    if Solo(w, user).Success? {
      var rows := Solo(w, user).value;
      ViewTotals(rows);
      AnchorTotals(rows);
      ValueTotals(rows);
    }
  }

  // ---------------------------------------------------------------------------------------------
  // The batched run.

  /** A user's state and totals are on the way to the user's solo trajectory, or have reached it. */
  ghost predicate OnTrack(w: World, user: int, s: State, t: Totals, active: bool, rounds: nat) {
    && t == Tally(t.rows)
    && if active then
         InRange(w, s) && rounds + Remaining(w, s) <= Limit(w) && Finish(w, s, t.rows) == Solo(w, user)
       else Solo(w, user) == Success(t.rows)
  }

  lemma OneStepOn(w: World, user: int, s: State, rows: seq<Row>, rounds: nat)
    requires OnTrack(w, user, s, Tally(rows), true, rounds)
    ensures StepOf(w, s).Failure? ==> Solo(w, user).Failure?
    ensures StepOf(w, s).Success? ==>
        var st := StepOf(w, s).value;
        OnTrack(w, user, st.next, Tally(rows + [st.row]), !st.terminated, rounds + 1)
  {
    if StepOf(w, s).Success? && !StepOf(w, s).value.terminated {
      StepStaysInRange(w, s);
    }
  }

  /** `_record_step`; None is an exception. */
  method RecordStep(w: World, ghost user: int, env: StatefulFeedEnv, acc: Accumulator, ghost rounds: nat)
    returns (terminated: Option<bool>)
    requires env.world == w && OnTrack(w, user, env.Contents(), acc.Contents(), true, rounds)
    modifies env, acc
    ensures terminated.None? ==> Solo(w, user).Failure?
    ensures terminated.Some? ==> OnTrack(w, user, env.Contents(), acc.Contents(), !terminated.value, rounds + 1)
  {
    OneStepOn(w, user, env.Contents(), acc.rows, rounds);
    var stepped := env.Step();
    if stepped.Failure? {
      return None;
    }
    acc.Record(stepped.value.row);
    return Some(stepped.value.terminated);
  }

  lemma StaysDone(w: World, user: int, s: State, t: Totals, rounds: nat)
    requires OnTrack(w, user, s, t, false, rounds)
    ensures OnTrack(w, user, s, t, false, rounds + 1)
  {
  }

  lemma StartsOnTrack(w: World, user: int)
    ensures InitialState(w, user).Success? ==> OnTrack(w, user, InitialState(w, user).value, Tally([]), true, 0)
  {
  }

  /** A new environment after `reset`. */
  method Reset(w: World, user: int) returns (env: StatefulFeedEnv, acc: Accumulator, ok: bool)
    ensures fresh(env) && fresh(acc) && env.world == w
    ensures !ok ==> Solo(w, user).Failure?
    ensures ok ==> OnTrack(w, user, env.Contents(), acc.Contents(), true, 0)
  {
    env := new StatefulFeedEnv(w, user);
    acc := new Accumulator();
    ok := env.RefreshCandidates();
    StartsOnTrack(w, user);
  }

  /** Environments and accumulators are separate objects, one pair a user, and hold these states and totals. */
  ghost predicate Mirrors(w: World, envs: seq<StatefulFeedEnv>, accs: seq<Accumulator>, states: seq<State>,
                          totals: seq<Totals>)
    reads envs, accs
  {
    && |envs| == |accs| == |states| == |totals|
    && (forall i, j :: 0 <= i < j < |envs| ==> envs[i] != envs[j] && accs[i] != accs[j])
    && (forall i :: 0 <= i < |envs| ==>
          envs[i].world == w && envs[i].Contents() == states[i] && accs[i].Contents() == totals[i])
  }

  lemma AppendUser(w: World, envs: seq<StatefulFeedEnv>, accs: seq<Accumulator>, states: seq<State>,
                   totals: seq<Totals>, env: StatefulFeedEnv, acc: Accumulator)
    requires Mirrors(w, envs, accs, states, totals) && env !in envs && acc !in accs && env.world == w
    ensures Mirrors(w, envs + [env], accs + [acc], states + [env.Contents()], totals + [acc.Contents()])
  {
  }

  function RoundsAt(i: nat, u: nat, rounds: nat): nat {
    if i < u then rounds + 1 else rounds
  }

  /** In a pass that has reached user u, those before u are one round ahead. */
  ghost predicate AllOnTrack(w: World, users: seq<int>, states: seq<State>, totals: seq<Totals>, active: seq<bool>,
                             u: nat, rounds: nat)
  {
    && |states| == |totals| == |active| == |users|
    && forall i :: 0 <= i < |users| ==>
         OnTrack(w, users[i], states[i], totals[i], active[i], RoundsAt(i, u, rounds))
  }

  lemma NextOnTrack(w: World, users: seq<int>, states: seq<State>, totals: seq<Totals>, active: seq<bool>, u: nat,
                    rounds: nat, s: State, t: Totals, a: bool)
    requires AllOnTrack(w, users, states, totals, active, u, rounds) && u < |users|
    requires OnTrack(w, users[u], s, t, a, rounds + 1)
    ensures AllOnTrack(w, users, states[u := s], totals[u := t], active[u := a], u + 1, rounds)
  {
    hide OnTrack;
  }

  /** The pass is over: everyone is a round ahead. */
  lemma PassDone(w: World, users: seq<int>, states: seq<State>, totals: seq<Totals>, active: seq<bool>, rounds: nat)
    requires AllOnTrack(w, users, states, totals, active, |users|, rounds)
    ensures AllOnTrack(w, users, states, totals, active, 0, rounds + 1)
  {
    hide OnTrack;
    forall i | 0 <= i < |users| ensures OnTrack(w, users[i], states[i], totals[i], active[i], rounds + 1) {
    }
  }

  lemma AppendOnTrack(w: World, users: seq<int>, states: seq<State>, totals: seq<Totals>, active: seq<bool>,
                      user: int, s: State, t: Totals)
    requires AllOnTrack(w, users, states, totals, active, 0, 0) && OnTrack(w, user, s, t, true, 0)
    ensures AllOnTrack(w, users + [user], states + [s], totals + [t], active + [true], 0, 0)
  {
    hide OnTrack;
  }

  lemma ActiveHasRoundsLeft(w: World, users: seq<int>, states: seq<State>, totals: seq<Totals>, active: seq<bool>,
                            rounds: nat, k: nat)
    requires AllOnTrack(w, users, states, totals, active, 0, rounds) && k < |active| && active[k]
    ensures rounds < Limit(w)
  {
    assert OnTrack(w, users[k], states[k], totals[k], active[k], rounds);
  }

  ghost predicate SomeoneFails(w: World, users: seq<int>) {
    exists i :: 0 <= i < |users| && Solo(w, users[i]).Failure?
  }

  /** These totals are those of the user's solo trajectory. */
  ghost predicate Served(w: World, user: int, t: Totals) {
    Solo(w, user) == Success(t.rows) && t == Tally(t.rows)
  }

  ghost predicate AllServed(w: World, users: seq<int>, totals: seq<Totals>) {
    |totals| == |users| && forall i :: 0 <= i < |users| ==> Served(w, users[i], totals[i])
  }

  lemma AllDone(w: World, users: seq<int>, states: seq<State>, totals: seq<Totals>, active: seq<bool>, rounds: nat)
    requires AllOnTrack(w, users, states, totals, active, 0, rounds)
    requires forall i :: 0 <= i < |active| ==> !active[i]
    ensures AllServed(w, users, totals) && !SomeoneFails(w, users)
  {
    forall i | 0 <= i < |users| ensures Served(w, users[i], totals[i]) {
      assert OnTrack(w, users[i], states[i], totals[i], active[i], rounds);
    }
  }

  lemma FailsAt(w: World, users: seq<int>, u: nat)
    requires u < |users| && Solo(w, users[u]).Failure?
    ensures SomeoneFails(w, users)
  {
    hide Solo;
  }

  lemma NobodyYet(w: World)
    ensures Mirrors(w, [], [], [], []) && AllOnTrack(w, [], [], [], [], 0, 0)
  {
  }

  method ResetAll(w: World, users: seq<int>)
    returns (envs: seq<StatefulFeedEnv>, accs: seq<Accumulator>, ok: bool, ghost states: seq<State>,
             ghost totals: seq<Totals>)
    ensures !ok ==> SomeoneFails(w, users)
    ensures ok ==> Mirrors(w, envs, accs, states, totals)
    ensures ok ==> AllOnTrack(w, users, states, totals, seq(|users|, i => true), 0, 0)
    ensures |envs| == |accs| && forall i :: 0 <= i < |envs| ==> fresh(envs[i]) && fresh(accs[i])
  {
    NobodyYet(w);
    hide *;
    envs, accs, states, totals := [], [], [], [];
    ghost var active := [];
    for u := 0 to |users|
      invariant |envs| == |accs| == u && active == seq(u, i => true)
      invariant Mirrors(w, envs, accs, states, totals)
      invariant AllOnTrack(w, users[..u], states, totals, active, 0, 0)
      invariant forall i :: 0 <= i < u ==> fresh(envs[i]) && fresh(accs[i])
    {
      var env, acc;
      env, acc, ok := Reset(w, users[u]);
      if !ok {
        FailsAt(w, users, u);
        return;
      }
      AppendUser(w, envs, accs, states, totals, env, acc);
      AppendOnTrack(w, users[..u], states, totals, active, users[u], env.Contents(), acc.Contents());
      assert users[..u + 1] == users[..u] + [users[u]];
      envs, accs := envs + [env], accs + [acc];
      states, totals, active := states + [env.Contents()], totals + [acc.Contents()], active + [true];
    }
    assert users[..|users|] == users;
    ok := true;
  }

  /** User u's turn in a pass. */
  method Turn(w: World, users: seq<int>, u: nat, envs: seq<StatefulFeedEnv>, accs: seq<Accumulator>,
              active: array<bool>, ghost states: seq<State>, ghost totals: seq<Totals>, ghost rounds: nat)
    returns (ok: bool, ghost states': seq<State>, ghost totals': seq<Totals>)
    requires u < |users| && Mirrors(w, envs, accs, states, totals)
    requires AllOnTrack(w, users, states, totals, active[..], u, rounds)
    modifies envs[u], accs[u], active
    ensures !ok ==> SomeoneFails(w, users)
    ensures ok ==> Mirrors(w, envs, accs, states', totals')
    ensures ok ==> AllOnTrack(w, users, states', totals', active[..], u + 1, rounds)
  {
    hide OnTrack;
    ghost var before := active[..];
    assert OnTrack(w, users[u], states[u], totals[u], active[u], rounds);
    if active[u] {
      var terminated := RecordStep(w, users[u], envs[u], accs[u], rounds);
      if terminated.None? {
        return false, states, totals;
      }
      active[u] := !terminated.value;
    } else {
      StaysDone(w, users[u], states[u], totals[u], rounds);
    }
    NextOnTrack(w, users, states, totals, before, u, rounds, envs[u].Contents(), accs[u].Contents(), active[u]);
    assert active[..] == before[u := active[u]];
    return true, states[u := envs[u].Contents()], totals[u := accs[u].Contents()];
  }

  /** One pass over the active users. */
  method Round(w: World, users: seq<int>, envs: seq<StatefulFeedEnv>, accs: seq<Accumulator>, active: array<bool>,
               ghost states: seq<State>, ghost totals: seq<Totals>, ghost rounds: nat)
    returns (ok: bool, ghost states': seq<State>, ghost totals': seq<Totals>)
    requires Mirrors(w, envs, accs, states, totals)
    requires AllOnTrack(w, users, states, totals, active[..], 0, rounds)
    modifies envs, accs, active
    ensures !ok ==> SomeoneFails(w, users)
    ensures ok ==> Mirrors(w, envs, accs, states', totals')
    ensures ok ==> AllOnTrack(w, users, states', totals', active[..], 0, rounds + 1)
  {
    states', totals' := states, totals;
    for u := 0 to |users|
      invariant Mirrors(w, envs, accs, states', totals')
      invariant AllOnTrack(w, users, states', totals', active[..], u, rounds)
    {
      ok, states', totals' := Turn(w, users, u, envs, accs, active, states', totals', rounds);
      if !ok {
        return;
      }
    }
    PassDone(w, users, states', totals', active[..], rounds);
    ok := true;
  }

  /** Rounds until nobody is active. */
  method Serve(w: World, users: seq<int>, envs: seq<StatefulFeedEnv>, accs: seq<Accumulator>, active: array<bool>,
               ghost states: seq<State>, ghost totals: seq<Totals>)
    returns (ok: bool, ghost rounds: nat, ghost states': seq<State>, ghost totals': seq<Totals>)
    requires Mirrors(w, envs, accs, states, totals)
    requires AllOnTrack(w, users, states, totals, active[..], 0, 0)
    modifies envs, accs, active
    ensures rounds <= Limit(w)
    ensures !ok ==> SomeoneFails(w, users)
    ensures ok ==> !SomeoneFails(w, users) && Mirrors(w, envs, accs, states', totals')
    ensures ok ==> AllServed(w, users, totals')
  {
    hide *;
    rounds, states', totals' := 0, states, totals;
    while exists i :: 0 <= i < active.Length && active[i]
      invariant Mirrors(w, envs, accs, states', totals')
      invariant AllOnTrack(w, users, states', totals', active[..], 0, rounds)
      invariant rounds <= Limit(w)
      decreases Limit(w) - rounds
    {
      ghost var k :| 0 <= k < active.Length && active[k];
      ActiveHasRoundsLeft(w, users, states', totals', active[..], rounds, k);
      ok, states', totals' := Round(w, users, envs, accs, active, states', totals', rounds);
      if !ok {
        return;
      }
      rounds := rounds + 1;
    }
    AllDone(w, users, states', totals', active[..], rounds);
    ok := true;
  }

  /** Serving all users' requests in lockstep gives every user the trajectory they would have had alone, and stops
      within the request budget of one trajectory. */
  method RunPopulation(w: World, users: seq<int>) returns (r: Result<seq<Totals>, string>, ghost rounds: nat)
    ensures r.Failure? <==> SomeoneFails(w, users)
    ensures r.Success? ==> AllServed(w, users, r.value)
    ensures rounds <= Limit(w)
  {
    hide OnTrack, AllServed, SomeoneFails, Limit;
    rounds := 0;
    var envs, accs, ok;
    ghost var states, totals;
    envs, accs, ok, states, totals := ResetAll(w, users);
    if ok {
      var active := new bool[|users|](i => true);
      assert active[..] == seq(|users|, i => true);
      ok, rounds, states, totals := Serve(w, users, envs, accs, active, states, totals);
    }
    if !ok {
      return Failure("no candidates to rank"), rounds;
    }
    var results := FinishAll(w, envs, accs, states, totals);
    r := Success(results);
  }

  method FinishAll(w: World, envs: seq<StatefulFeedEnv>, accs: seq<Accumulator>, ghost states: seq<State>,
                   ghost totals: seq<Totals>)
    returns (results: seq<Totals>)
    requires Mirrors(w, envs, accs, states, totals)
    ensures results == totals
  {
    results := [];
    for i := 0 to |accs|
      invariant results == totals[..i]
    {
      var finished := accs[i].Finish();
      results := results + [finished];
    }
  }
}
