/** Many workers interleaving snapshot, compute and apply against one parameter server, with retries,
    duplicates and reused ids: what holds in every reachable state. */
module Workers {
  import opened Seqs
  import opened ParameterServer
  import Trainer

  type Batch = Trainer.Batch

  /** A computed update on its way to the server. */
  datatype Update = Update(id: string, base: nat, batch: Batch, gradient: Gradient, rate: real)

  datatype View = View(version: nat, params: Params)

  /** `log` is the history of accepted updates; nothing in the system reads it. */
  datatype System = System(server: State, views: map<int, View>, inFlight: set<Update>, log: seq<Update>)

  datatype Action =
    | TakeSnapshot(worker: int)
    | Compute(worker: int, id: string, batch: Batch, rate: real)
    | Deliver(update: Update)

  /** `gradient` is what a worker computes from a batch and the parameters of its snapshot. */
  ghost predicate Step(s: System, a: Action, t: System, gradient: (Batch, Params) -> Gradient) {
    match a
    case TakeSnapshot(worker) =>
      t == s.(views := s.views[worker := View(s.server.version, s.server.params)])
    case Compute(worker, id, batch, rate) =>
      && worker in s.views
      && var view := s.views[worker];
         t == s.(inFlight := s.inFlight + {Update(id, view.version, batch, gradient(batch, view.params), rate)})
    case Deliver(u) =>
      && u in s.inFlight
      && s.server.Valid()
      && t == s.(server := s.server.After(u.id, u.base, u.gradient, u.rate),
                 log := if s.server.Check(u.id, u.base, u.gradient) == Applied then s.log + [u] else s.log)
  }

  function InitialSystem(tasks: nat, dim: nat, maxStaleness: int): System {
    System(InitialState(tasks, dim, maxStaleness), map[], {}, [])
  }

  ghost predicate Run(states: seq<System>, actions: seq<Action>, gradient: (Batch, Params) -> Gradient) {
    && |states| == |actions| + 1
    && forall i :: 0 <= i < |actions| ==> Step(states[i], actions[i], states[i + 1], gradient)
  }

  ghost predicate Fits(log: seq<Update>, tasks: nat, dim: nat) {
    forall u :: u in log ==> Shaped(u.gradient.weights, u.gradient.bias, tasks, dim)
  }

  /** The parameters after the updates of a log, applied in order from zero. */
  ghost function ParamsAfter(log: seq<Update>, tasks: nat, dim: nat): (p: Params)
    requires Fits(log, tasks, dim)
    ensures Shaped(p.weights, p.bias, tasks, dim)
  {
    if log == [] then Zeros(tasks, dim)
    else
      var last := log[|log| - 1];
      assert last in log;
      Descend(ParamsAfter(log[..|log| - 1], tasks, dim), last.rate, last.gradient)
  }

  ghost function Ids(log: seq<Update>): set<string> {
    set u | u in log :: u.id
  }

  /** An update computed on the parameters the server had at its base version. */
  ghost predicate Honest(u: Update, log: seq<Update>, tasks: nat, dim: nat,
                            gradient: (Batch, Params) -> Gradient)
    requires Fits(log, tasks, dim)
  {
    u.base <= |log| && u.gradient == gradient(u.batch, ParamsAfter(log[..u.base], tasks, dim))
  }

  /** Every accepted update: computed honestly, from a version at most `maxStaleness` behind, under its own id. */
  ghost predicate LogSound(log: seq<Update>, tasks: nat, dim: nat, maxStaleness: int,
                           gradient: (Batch, Params) -> Gradient) {
    && Fits(log, tasks, dim)
    && (log == [] ||
        var front, last := log[..|log| - 1], log[|log| - 1];
        && LogSound(front, tasks, dim, maxStaleness, gradient)
        && last.id !in Ids(front)
        && Honest(last, front, tasks, dim, gradient)
        && |front| - last.base <= maxStaleness)
  }

  /** The same, at each position of the log. */
  lemma {:induction false} LogSoundMeans(log: seq<Update>, tasks: nat, dim: nat, maxStaleness: int,
                                         gradient: (Batch, Params) -> Gradient, k: nat)
    requires LogSound(log, tasks, dim, maxStaleness, gradient) && k < |log|
    ensures LogSound(log[..k], tasks, dim, maxStaleness, gradient)
    ensures log[k].id !in Ids(log[..k]) && k - log[k].base <= maxStaleness
    ensures log[k].base <= k
    ensures log[k].gradient == gradient(log[k].batch, ParamsAfter(log[..log[k].base], tasks, dim))
  {
    hide ParamsAfter, Ids, Shaped;
    var front := log[..|log| - 1];
    if k < |front| {
      LogSoundMeans(front, tasks, dim, maxStaleness, gradient, k);
      assert front[..k] == log[..k] && front[..log[k].base] == log[..log[k].base];
    } else {
      assert front[..log[k].base] == log[..log[k].base];
    }
  }

  /** A snapshot shows the parameters of its version, whatever was applied since. */
  ghost predicate ViewsSound(views: map<int, View>, log: seq<Update>, tasks: nat, dim: nat)
    requires Fits(log, tasks, dim)
  {
    forall w :: w in views ==>
      views[w].version <= |log| && views[w].params == ParamsAfter(log[..views[w].version], tasks, dim)
  }

  /** Exactly once, bounded staleness, and old snapshots unchanged. */
  ghost predicate Invariant(s: System, tasks: nat, dim: nat, maxStaleness: int,
                            gradient: (Batch, Params) -> Gradient) {
    && s.server.tasks == tasks && s.server.dim == dim && s.server.maxStaleness == maxStaleness
    && LogSound(s.log, tasks, dim, maxStaleness, gradient)
    && s.server.version == |s.log|
    && s.server.applied == Ids(s.log)
    && s.server.params == ParamsAfter(s.log, tasks, dim)
    && ViewsSound(s.views, s.log, tasks, dim)
    && (forall u :: u in s.inFlight ==> Honest(u, s.log, tasks, dim, gradient))
  }

  lemma SnocKeeps(log: seq<Update>, u: Update, tasks: nat, dim: nat, gradient: (Batch, Params) -> Gradient)
    requires Fits(log, tasks, dim) && Shaped(u.gradient.weights, u.gradient.bias, tasks, dim)
    ensures Fits(log + [u], tasks, dim)
    ensures forall n :: 0 <= n <= |log| ==> (log + [u])[..n] == log[..n]
    ensures ParamsAfter(log + [u], tasks, dim) == Descend(ParamsAfter(log, tasks, dim), u.rate, u.gradient)
    ensures forall v: Update :: Honest(v, log, tasks, dim, gradient) ==> Honest(v, log + [u], tasks, dim, gradient)
    ensures Ids(log + [u]) == Ids(log) + {u.id}
  {
    assert (log + [u])[..|log|] == log;
    assert forall x :: x in log + [u] <==> x in log || x == u;
    forall n | 0 <= n <= |log| ensures (log + [u])[..n] == log[..n] {
    }
    forall k | k in Ids(log) + {u.id} ensures k in Ids(log + [u]) {
      if k != u.id {
        var x :| x in log && x.id == k;
        assert x in log + [u];
      } else {
        assert u in log + [u];
      }
    }
  }

  lemma LogSoundSnoc(log: seq<Update>, u: Update, tasks: nat, dim: nat, maxStaleness: int,
                     gradient: (Batch, Params) -> Gradient)
    requires LogSound(log, tasks, dim, maxStaleness, gradient)
    requires Shaped(u.gradient.weights, u.gradient.bias, tasks, dim) && u.id !in Ids(log)
    requires Honest(u, log, tasks, dim, gradient) && |log| - u.base <= maxStaleness
    ensures LogSound(log + [u], tasks, dim, maxStaleness, gradient)
  {
    assert (log + [u])[..|log|] == log;
    assert forall x :: x in log + [u] <==> x in log || x == u;
  }

  lemma DeliverKeepsInvariant(s: System, u: Update, t: System, tasks: nat, dim: nat, maxStaleness: int,
                              gradient: (Batch, Params) -> Gradient)
    requires Invariant(s, tasks, dim, maxStaleness, gradient) && Step(s, Deliver(u), t, gradient)
    ensures Invariant(t, tasks, dim, maxStaleness, gradient)
  {
    if s.server.Check(u.id, u.base, u.gradient) == Applied {
      SnocKeeps(s.log, u, tasks, dim, gradient);
      LogSoundSnoc(s.log, u, tasks, dim, maxStaleness, gradient);
    }
  }

  lemma StepKeepsInvariant(s: System, a: Action, t: System, tasks: nat, dim: nat, maxStaleness: int,
                                    gradient: (Batch, Params) -> Gradient)
    requires Invariant(s, tasks, dim, maxStaleness, gradient) && Step(s, a, t, gradient)
    ensures Invariant(t, tasks, dim, maxStaleness, gradient)
  {
    match a
    case Deliver(u) => DeliverKeepsInvariant(s, u, t, tasks, dim, maxStaleness, gradient);
    case TakeSnapshot(worker) => assert s.log[..|s.log|] == s.log;
    case Compute(worker, id, batch, rate) =>
  }

  lemma InitiallySound(tasks: nat, dim: nat, maxStaleness: int, gradient: (Batch, Params) -> Gradient)
    ensures Invariant(InitialSystem(tasks, dim, maxStaleness), tasks, dim, maxStaleness, gradient)
  {
    assert Ids([]) == {};
  }

  /** Every interleaving: the version counts the distinct applied ids, the parameters are zero less the applied
      steps, every applied gradient was computed from the server's own parameters at most `maxStaleness` versions
      back, and every snapshot still shows the parameters of its version. */
  lemma {:induction false} EveryRunKeepsInvariant(states: seq<System>, actions: seq<Action>, tasks: nat, dim: nat,
                                                  maxStaleness: int, gradient: (Batch, Params) -> Gradient, i: nat)
    requires Run(states, actions, gradient) && states[0] == InitialSystem(tasks, dim, maxStaleness)
    requires i < |states|
    ensures Invariant(states[i], tasks, dim, maxStaleness, gradient)
  {
    hide Invariant, InitialSystem, Step;
    if i > 0 {
      EveryRunKeepsInvariant(states, actions, tasks, dim, maxStaleness, gradient, i - 1);
      assert Step(states[i - 1], actions[i - 1], states[i - 1 + 1], gradient);
      StepKeepsInvariant(states[i - 1], actions[i - 1], states[i], tasks, dim, maxStaleness, gradient);
    } else {
      InitiallySound(tasks, dim, maxStaleness, gradient);
    }
  }

  /** What was accepted stays accepted, in order; a snapshot nobody retakes stays as it was. */
  lemma {:induction false} HistoryOnlyGrows(states: seq<System>, actions: seq<Action>,
                                            gradient: (Batch, Params) -> Gradient, i: nat, j: nat, worker: int)
    requires Run(states, actions, gradient) && i <= j < |states|
    ensures states[i].log <= states[j].log
    ensures worker in states[i].views && TakeSnapshot(worker) !in actions[i..j] ==>
      worker in states[j].views && states[j].views[worker] == states[i].views[worker]
    decreases j
  {
    hide Step;
    if i < j {
      HistoryOnlyGrows(states, actions, gradient, i, j - 1, worker);
      assert Step(states[j - 1], actions[j - 1], states[j - 1 + 1], gradient);
      StepGrows(states[j - 1], actions[j - 1], states[j], gradient, worker);
      assert actions[i..j] == actions[i..j - 1] + [actions[j - 1]];
    }
  }

  lemma StepGrows(s: System, a: Action, t: System, gradient: (Batch, Params) -> Gradient, worker: int)
    requires Step(s, a, t, gradient)
    ensures s.log <= t.log
    ensures worker in s.views && a != TakeSnapshot(worker) ==> worker in t.views && t.views[worker] == s.views[worker]
  {
  }

  /** The version is the number of distinct ids applied. */
  lemma VersionCountsIds(s: System, tasks: nat, dim: nat, maxStaleness: int, gradient: (Batch, Params) -> Gradient)
    requires Invariant(s, tasks, dim, maxStaleness, gradient)
    ensures s.server.version == |s.server.applied|
  {
    LogSoundCount(s.log, tasks, dim, maxStaleness, gradient);
  }

  lemma {:induction false} LogSoundCount(log: seq<Update>, tasks: nat, dim: nat, maxStaleness: int,
                                         gradient: (Batch, Params) -> Gradient)
    requires LogSound(log, tasks, dim, maxStaleness, gradient)
    ensures |Ids(log)| == |log|
  {
    hide ParamsAfter, Honest;
    if log == [] {
      assert Ids(log) == {};
    } else {
      var front, last := log[..|log| - 1], log[|log| - 1];
      LogSoundCount(front, tasks, dim, maxStaleness, gradient);
      assert log == front + [last];
      SnocKeeps(front, last, tasks, dim, gradient);
    }
  }

  /** What an update takes off one weight. */
  function WeightStep(u: Update, t: nat, j: nat): real {
    if t < |u.gradient.weights| && j < |u.gradient.weights[t]| then u.rate * u.gradient.weights[t][j] else 0.0
  }

  function BiasStep(u: Update, t: nat): real {
    if t < |u.gradient.bias| then u.rate * u.gradient.bias[t] else 0.0
  }

  lemma DescendEntry(p: Params, u: Update, tasks: nat, dim: nat, t: nat, j: nat)
    requires Shaped(p.weights, p.bias, tasks, dim) && Shaped(u.gradient.weights, u.gradient.bias, tasks, dim)
    requires t < tasks && j < dim
    ensures |p.weights[t]| == dim
    ensures var after := Descend(p, u.rate, u.gradient);
      && |after.weights[t]| == dim && after.weights[t][j] == p.weights[t][j] - WeightStep(u, t, j)
      && after.bias[t] == p.bias[t] - BiasStep(u, t)
  {
    assert p.weights[t] in p.weights && u.gradient.weights[t] in u.gradient.weights;
    assert Descend(p, u.rate, u.gradient).weights[t] == DescendRow(p.weights[t], u.rate, u.gradient.weights[t]);
  }

  /** Entry by entry, the parameters are minus the sum of learning rate times gradient over the applied updates. */
  lemma {:induction false} ParamsAreSums(log: seq<Update>, tasks: nat, dim: nat, t: nat, j: nat)
    requires Fits(log, tasks, dim) && t < tasks && j < dim
    ensures var p := ParamsAfter(log, tasks, dim);
      && |p.weights[t]| == dim
      && p.weights[t][j] == 0.0 - Sum(log, (u: Update) => WeightStep(u, t, j))
      && p.bias[t] == 0.0 - Sum(log, (u: Update) => BiasStep(u, t))
  {
    if log != [] {
      hide Descend, WeightStep, BiasStep;
      var front, last := log[..|log| - 1], log[|log| - 1];
      assert last in log;
      ParamsAreSums(front, tasks, dim, t, j);
      DescendEntry(ParamsAfter(front, tasks, dim), last, tasks, dim, t, j);
    } else {
      assert ParamsAfter(log, tasks, dim).weights[t] in ParamsAfter(log, tasks, dim).weights;
    }
  }

  /** Handing the same update in again, or one too stale, changes neither parameters, version nor ids. */
  lemma RetriesChangeNothing(s: State, id: string, base: int, g: Gradient, rate: real, base': int, g': Gradient,
                             rate': real)
    requires s.Valid()
    ensures s.After(id, base, g, rate).Valid()
    ensures var once := s.After(id, base, g, rate);
      && (s.Check(id, base, g) == Applied ==>
            once.Check(id, base', g') == DuplicateUpdate && once.After(id, base', g', rate') == once)
      && (s.Check(id, base, g) != Applied ==> once == s)
      && (s.version - base > s.maxStaleness ==> once == s)
  {
    var once := s.After(id, base, g, rate);
    if s.Check(id, base, g) == Applied {
      forall row | row in once.params.weights ensures |row| == s.dim {
        var t :| 0 <= t < |once.params.weights| && once.params.weights[t] == row;
        assert s.params.weights[t] in s.params.weights;
      }
    }
  }
}
