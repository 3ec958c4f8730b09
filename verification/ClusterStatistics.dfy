/** Creator-level A/B statistics: the streaming accumulator and the batch metrics it must agree with. */
module ClusterStatistics {
  import opened Outcomes
  import opened Seqs
  import opened Sorting
  import opened Samples
  import opened Assignment

  /** A request's creator and its metrics in either arm. */
  datatype Request = Request(creator: nat, control: seq<real>, treatment: seq<real>)

  // ---------------------------------------------------------------------------------------------
  // Paired and randomized reports from one mean a cluster.

  datatype PairedReport = PairedReport(
    controlMean: real, treatmentMean: real, effect: real, relative: Option<real>, standardError: real, low: real,
    high: real, pValue: real)

  datatype RandomizedReport = RandomizedReport(
    controlMean: real, treatmentMean: real, effect: real, standardError: real, low: real, high: real,
    controlClusters: nat, treatmentClusters: nat)

  function Same(x: real): real {
    x
  }

  function Deltas(control: seq<real>, treatment: seq<real>): (r: seq<real>)
    requires |control| == |treatment|
    ensures |r| == |control|
  {
    seq(|control|, i requires 0 <= i < |control| => treatment[i] - control[i])
  }

  /** `paired_metric`; with fewer than two pairs the deviation is not a number. */
  function Paired(numerics: Numerics, control: seq<real>, treatment: seq<real>): Option<PairedReport>
    requires |control| == |treatment| && PositiveRoots(numerics)
  {
    if |control| < 2 then None
    else
      var delta := Deltas(control, treatment);
      var mean := Mean(delta, Same);
      var error := numerics.sqrt(Variance(delta, Same)) / numerics.sqrt(|delta| as real);
      var controlMean := Mean(control, Same);
      Some(PairedReport(
        controlMean, Mean(treatment, Same), mean,
        if Abs(controlMean) < 0.000000000001 then None else Some(mean / Abs(controlMean)), error,
        mean - 1.96 * error, mean + 1.96 * error,
        numerics.erfc(Abs(mean / AtLeast(error, 0.000000000001)) / numerics.sqrt(2.0))))
  }

  /** The values of the clusters assigned to an arm. */
  function Arm(clusters: seq<int>, values: seq<real>, treated: bool): (r: seq<real>)
    requires |clusters| == |values|
    ensures |r| <= |values|
  {
    if clusters == [] then []
    else
      var n := |clusters| - 1;
      var front := Arm(clusters[..n], values[..n], treated);
      if AssignBinary(clusters[n]) == treated then front + [values[n]] else front
  }

  /** `randomized_cluster_means_metric`, and the same numbers in `cluster_randomized_metric`. */
  function Randomized(numerics: Numerics, clusters: seq<int>, control: seq<real>, treatment: seq<real>):
    Option<RandomizedReport>
    requires |clusters| == |control| == |treatment|
  {
    var left, right := Arm(clusters, control, false), Arm(clusters, treatment, true);
    if |left| < 2 || |right| < 2 then None
    else
      var effect := Mean(right, Same) - Mean(left, Same);
      var error := numerics.sqrt(Variance(left, Same) / |left| as real + Variance(right, Same) / |right| as real);
      Some(RandomizedReport(Mean(left, Same), Mean(right, Same), effect, error, effect - 1.96 * error,
                            effect + 1.96 * error, |left|, |right|))
  }

  /** The paired effect is the difference of the two means. */
  lemma PairedEffect(numerics: Numerics, control: seq<real>, treatment: seq<real>)
    requires |control| == |treatment| && |control| >= 2 && PositiveRoots(numerics)
    ensures var r := Paired(numerics, control, treatment).value; r.effect == r.treatmentMean - r.controlMean
  {
    DeltaSum(control, treatment);
    var n := |control| as real;
    Split3(Sum(Deltas(control, treatment), Same), Sum(treatment, Same), Sum(control, Same), 0.0, -1.0, 0.0, n);
  }

  /** The standard error is that of the mean of the differences. The interval is centred on the effect, 1.96 standard
      errors to either side, the p-value is the normal one, and the relative effect is in units of the control mean. */
  lemma PairedInterval(numerics: Numerics, control: seq<real>, treatment: seq<real>)
    requires |control| == |treatment| && |control| >= 2 && PositiveRoots(numerics)
    ensures var r := Paired(numerics, control, treatment).value;
      && r.low + r.high == 2.0 * r.effect && r.high - r.low == 3.92 * r.standardError
      && (r.relative.Some? ==> r.relative.value * Abs(r.controlMean) == r.effect)
      && r.controlMean == Mean(control, Same) && r.treatmentMean == Mean(treatment, Same)
      && (forall i :: 0 <= i < |control| ==> Deltas(control, treatment)[i] == treatment[i] - control[i])
      && r.standardError * numerics.sqrt(|control| as real) == numerics.sqrt(Variance(Deltas(control, treatment), Same))
      && (r.standardError >= 0.000000000001 ==>
            r.pValue == numerics.erfc(Abs(r.effect / r.standardError) / numerics.sqrt(2.0)))
  {
    hide Variance, Mean;
    Quotient(numerics.sqrt(Variance(Deltas(control, treatment), Same)), numerics.sqrt(|control| as real));
  }

  lemma Quotient(a: real, b: real)
    requires b > 0.0
    ensures a / b * b == a
  {
  }

  /** Exchanging the arms negates the effect and mirrors the interval; standard error and p-value stay. */
  lemma PairedSwap(numerics: Numerics, control: seq<real>, treatment: seq<real>)
    requires |control| == |treatment| && |control| >= 2 && PositiveRoots(numerics)
    ensures var r, s := Paired(numerics, control, treatment).value, Paired(numerics, treatment, control).value;
      && s.effect == 0.0 - r.effect && s.low == 0.0 - r.high && s.high == 0.0 - r.low
      && s.standardError == r.standardError && s.pValue == r.pValue
  {
    var d, e := Deltas(control, treatment), Deltas(treatment, control);
    MeanNegated(d, e);
    VarianceNegated(d, e);
    hide Variance, Mean, Deltas;
    QuotientNegated(Mean(d, Same), AtLeast(numerics.sqrt(Variance(d, Same)) / numerics.sqrt(|d| as real), 0.000000000001));
  }

  lemma {:induction false} SumNegated(d: seq<real>, e: seq<real>, f: real -> real, g: real -> real)
    requires |d| == |e| && forall i :: 0 <= i < |d| ==> g(e[i]) == 0.0 - f(d[i])
    ensures Sum(e, g) == 0.0 - Sum(d, f)
  {
    if d != [] {
      SumNegated(d[..|d| - 1], e[..|e| - 1], f, g);
    }
  }

  lemma {:induction false} SumEqual(d: seq<real>, e: seq<real>, f: real -> real, g: real -> real)
    requires |d| == |e| && forall i :: 0 <= i < |d| ==> g(e[i]) == f(d[i])
    ensures Sum(e, g) == Sum(d, f)
  {
    if d != [] {
      SumEqual(d[..|d| - 1], e[..|e| - 1], f, g);
    }
  }

  lemma MeanNegated(d: seq<real>, e: seq<real>)
    requires |d| == |e| && |d| >= 2 && forall i :: 0 <= i < |d| ==> e[i] == 0.0 - d[i]
    ensures Mean(e, Same) == 0.0 - Mean(d, Same)
  {
    SumNegated(d, e, Same, Same);
    Split3(Sum(e, Same), 0.0, Sum(d, Same), 0.0, -1.0, 0.0, |d| as real);
  }

  lemma VarianceNegated(d: seq<real>, e: seq<real>)
    requires |d| == |e| && |d| >= 2 && forall i :: 0 <= i < |d| ==> e[i] == 0.0 - d[i]
    ensures Variance(e, Same) == Variance(d, Same)
  {
    var m, n := Mean(d, Same), Mean(e, Same);
    MeanNegated(d, e);
    assert n == 0.0 - m;
    forall i | 0 <= i < |d| ensures CoDeviation(Same, n, Same, n)(e[i]) == CoDeviation(Same, m, Same, m)(d[i]) {
      DeviationNegated(d[i], e[i], m, n);
    }
    SumEqual(d, e, CoDeviation(Same, m, Same, m), CoDeviation(Same, n, Same, n));
  }

  lemma OppositeSquares(a: real, b: real)
    requires b == 0.0 - a
    ensures b * b == a * a
  {
  }

  lemma DeviationNegated(x: real, y: real, m: real, n: real)
    requires y == 0.0 - x && n == 0.0 - m
    ensures CoDeviation(Same, n, Same, n)(y) == CoDeviation(Same, m, Same, m)(x)
  {
    var f: real -> real := Same;
    OppositeSquares(f(x) - m, f(y) - n);
  }

  /** What each arm is: the values of the clusters assigned to it, in order. */
  lemma {:induction false} ArmIs(clusters: seq<int>, values: seq<real>, treated: bool)
    requires |clusters| == |values|
    ensures Arm(clusters, values, treated) ==
      Map(Filter(Range(|clusters|), (i: nat) => i < |clusters| && AssignBinary(clusters[i]) == treated),
          (i: nat) => if i < |values| then values[i] else 0.0)
  {
    hide AssignBinary;
    if clusters != [] {
      var n := |clusters| - 1;
      var mine := (i: nat) => i < |clusters| && AssignBinary(clusters[i]) == treated;
      var front := (i: nat) => i < |clusters[..n]| && AssignBinary(clusters[..n][i]) == treated;
      ArmIs(clusters[..n], values[..n], treated);
      assert Range(n + 1) == Range(n) + [n];
      FilterSnoc<nat>(Range(n), n, mine);
      FilterSame<nat>(Range(n), front, mine);
      var value := (i: nat) => if i < |values| then values[i] else 0.0;
      var before := (i: nat) => if i < |values[..n]| then values[..n][i] else 0.0;
      FilterContains<nat>(Range(n), front);
      RangeContains(n);
      MapSame<nat, real>(Filter<nat>(Range(n), front), before, value);
      MapSnoc<nat, real>(Filter<nat>(Range(n), front), n, value);
    }
  }

  /** The randomized report compares the treated clusters' treatment values with the others' control values. */
  lemma RandomizedMeans(numerics: Numerics, clusters: seq<int>, control: seq<real>, treatment: seq<real>)
    requires |clusters| == |control| == |treatment|
    ensures var left, right := Arm(clusters, control, false), Arm(clusters, treatment, true);
      var r := Randomized(numerics, clusters, control, treatment);
      && (r.Some? <==> |left| >= 2 && |right| >= 2)
      && (r.Some? ==>
            && r.value.controlMean * |left| as real == Sum(left, Same)
            && r.value.treatmentMean * |right| as real == Sum(right, Same)
            && r.value.effect == r.value.treatmentMean - r.value.controlMean
            && r.value.low + r.value.high == 2.0 * r.value.effect
            && r.value.high - r.value.low == 3.92 * r.value.standardError
            && r.value.standardError == numerics.sqrt(Variance(left, Same) / |left| as real
                                                      + Variance(right, Same) / |right| as real)
            && r.value.controlClusters == |left| && r.value.treatmentClusters == |right|)
  {
    hide Variance, Arm;
  }

  lemma {:induction false} DeltaSum(control: seq<real>, treatment: seq<real>)
    requires |control| == |treatment|
    ensures Sum(Deltas(control, treatment), Same) == Sum(treatment, Same) - Sum(control, Same)
  {
    if control != [] {
      var n := |control| - 1;
      DeltaSum(control[..n], treatment[..n]);
      assert Deltas(control, treatment)[..n] == Deltas(control[..n], treatment[..n]);
    }
  }

  /** The two arms split the clusters. */
  lemma {:induction false} ArmsSplit(clusters: seq<int>, control: seq<real>, treatment: seq<real>)
    requires |clusters| == |control| == |treatment|
    ensures |Arm(clusters, control, false)| + |Arm(clusters, treatment, true)| == |clusters|
  {
    if clusters != [] {
      var n := |clusters| - 1;
      ArmsSplit(clusters[..n], control[..n], treatment[..n]);
    }
  }

  // ---------------------------------------------------------------------------------------------
  // Cluster means by definition.

  /** One value with its cluster. */
  datatype Keyed = Keyed(cluster: int, value: real)

  function ClusterOf(k: Keyed): int {
    k.cluster
  }

  function ValueIn(cluster: int): Keyed -> real {
    (k: Keyed) => if k.cluster == cluster then k.value else 0.0
  }

  function CountIn(cluster: int): Keyed -> real {
    (k: Keyed) => if k.cluster == cluster then 1.0 else 0.0
  }

  function MeanIn(rows: seq<Keyed>, cluster: int): real {
    var count := Sum(rows, CountIn(cluster));
    if count == 0.0 then 0.0 else Sum(rows, ValueIn(cluster)) / count
  }

  function Clusters(rows: seq<Keyed>): seq<int> {
    SortedUniques(Map(rows, ClusterOf))
  }

  /** The mean of each cluster, clusters ascending. */
  function MeansOf(rows: seq<Keyed>): seq<real> {
    Map(Clusters(rows), (c: int) => MeanIn(rows, c))
  }

  lemma {:induction false} CountPositive(rows: seq<Keyed>, cluster: int)
    ensures Sum(rows, CountIn(cluster)) >= 0.0
    ensures Sum(rows, CountIn(cluster)) > 0.0 <==> exists k :: k in rows && k.cluster == cluster
  {
    if rows != [] {
      var front, last := rows[..|rows| - 1], rows[|rows| - 1];
      CountPositive(front, cluster);
      assert rows == front + [last];
    }
  }

  lemma ClustersAre(rows: seq<Keyed>)
    ensures Increasing(Clusters(rows))
    ensures forall c :: c in Clusters(rows) <==> Sum(rows, CountIn(c)) > 0.0
  {
    SortedUniquesCorrect(Map(rows, ClusterOf));
    forall c ensures c in Clusters(rows) <==> Sum(rows, CountIn(c)) > 0.0 {
      CountPositive(rows, c);
      if c in Clusters(rows) {
        var i :| 0 <= i < |rows| && Map(rows, ClusterOf)[i] == c;
        assert rows[i] in rows;
      }
      if k :| k in rows && k.cluster == c {
        var i :| 0 <= i < |rows| && rows[i] == k;
        assert Map(rows, ClusterOf)[i] == c;
      }
    }
  }

  function Zip(clusters: seq<int>, values: seq<real>): (r: seq<Keyed>)
    requires |clusters| == |values|
    ensures |r| == |clusters| && forall i :: 0 <= i < |r| ==> r[i] == Keyed(clusters[i], values[i])
  {
    seq(|clusters|, i requires 0 <= i < |clusters| => Keyed(clusters[i], values[i]))
  }

  // ---------------------------------------------------------------------------------------------
  // Batch.

  /** Where a cluster stands among the unique ones: `return_inverse`. */
  function IndexIn(clusters: seq<int>, c: int): (i: nat)
    requires c in clusters
    ensures i < |clusters| && clusters[i] == c
  {
    if clusters[0] == c then 0 else 1 + IndexIn(clusters[1..], c)
  }

  /** The two buffers hold totals and counts over these rows. */
  ghost predicate Buffers(total: array<real>, count: array<real>, unique: seq<int>, rows: seq<Keyed>)
    reads total, count
  {
    && total.Length == count.Length == |unique|
    && forall u :: 0 <= u < |unique| ==>
         total[u] == Sum(rows, ValueIn(unique[u])) && count[u] == Sum(rows, CountIn(unique[u]))
  }

  method ScatterRow(total: array<real>, count: array<real>, unique: seq<int>, ghost rows: seq<Keyed>, row: Keyed)
    requires total != count && Buffers(total, count, unique, rows) && Increasing(unique) && row.cluster in unique
    modifies total, count
    ensures Buffers(total, count, unique, rows + [row])
  {
    var at := IndexIn(unique, row.cluster);
    total[at] := total[at] + row.value;
    count[at] := count[at] + 1.0;
    assert (rows + [row])[..|rows|] == rows;
    assert forall u :: 0 <= u < |unique| && u != at ==> unique[u] != unique[at];
  }

  /** `_cluster_means`. */
  method ClusterMeans(values: seq<real>, clusters: seq<int>) returns (unique: seq<int>, means: seq<real>)
    requires |values| == |clusters|
    ensures unique == SortedUniques(clusters) && means == MeansOf(Zip(clusters, values))
  {
    hide MeanIn, SortedUniques;
    ghost var rows := Zip(clusters, values);
    assert Map(rows, ClusterOf) == clusters;
    unique := SortedUniques(clusters);
    SortedUniquesCorrect(clusters);
    var total, count := new real[|unique|](i => 0.0), new real[|unique|](i => 0.0);
    for k := 0 to |values|
      invariant Buffers(total, count, unique, rows[..k])
    {
      assert clusters[k] in clusters;
      assert rows[..k + 1] == rows[..k] + [Keyed(clusters[k], values[k])];
      ScatterRow(total, count, unique, rows[..k], Keyed(clusters[k], values[k]));
    }
    assert rows[..|values|] == rows;
    ClustersAre(rows);
    means := Divide(total, count, unique, rows);
  }

  method Divide(total: array<real>, count: array<real>, unique: seq<int>, ghost rows: seq<Keyed>)
    returns (means: seq<real>)
    requires Buffers(total, count, unique, rows) && unique == Clusters(rows)
    ensures means == MeansOf(rows)
  {
    ClustersAre(rows);
    means := [];
    for u := 0 to |unique|
      invariant |means| == u && forall v :: 0 <= v < u ==> means[v] == MeanIn(rows, unique[v])
    {
      assert unique[u] in unique;
      means := means + [total[u] / count[u]];
    }
  }

  /** `cluster_paired_metric` and `cluster_randomized_metric`: the ids of both arms always align. */
  method ClusterMetrics(numerics: Numerics, control: seq<real>, treatment: seq<real>, clusters: seq<int>)
    returns (paired: Option<PairedReport>, randomized: Option<RandomizedReport>, count: nat)
    requires |control| == |treatment| == |clusters| && PositiveRoots(numerics)
    ensures var left, right := Zip(clusters, control), Zip(clusters, treatment);
      && Clusters(left) == Clusters(right)
      && paired == Paired(numerics, MeansOf(left), MeansOf(right))
      && randomized == Randomized(numerics, Clusters(left), MeansOf(left), MeansOf(right))
      && count == |Clusters(left)|
  {
    hide Paired, Randomized;
    assert Map(Zip(clusters, control), ClusterOf) == clusters == Map(Zip(clusters, treatment), ClusterOf);
    var unique, controlMeans := ClusterMeans(control, clusters);
    var treatmentIds, treatmentMeans := ClusterMeans(treatment, clusters);
    paired := Paired(numerics, controlMeans, treatmentMeans);
    randomized := Randomized(numerics, unique, controlMeans, treatmentMeans);
    count := |unique|;
  }

  // ---------------------------------------------------------------------------------------------
  // Streaming.

  /** The requests' values of one metric in one arm. */
  function Column(log: seq<Request>, metric: nat, treated: bool): seq<Keyed> {
    Map(log, (r: Request) => Keyed(r.creator, Entry(if treated then r.treatment else r.control, metric)))
  }

  function Entry(values: seq<real>, metric: nat): real {
    if metric < |values| then values[metric] else 0.0
  }

  predicate Wide(log: seq<Request>, metrics: nat, creators: nat) {
    forall r :: r in log ==> r.creator < creators && |r.control| == |r.treatment| == metrics
  }

  class CreatorClusterAccumulator {
    const metrics: nat
    const creators: nat
    const controlSum: array2<real>
    const treatmentSum: array2<real>
    const counts: array<real>

    /** The tensors hold the sums over these requests. */
    ghost predicate Holds(log: seq<Request>)
      reads controlSum, treatmentSum, counts
    {
      && controlSum != treatmentSum
      && controlSum.Length0 == treatmentSum.Length0 == metrics && controlSum.Length1 == treatmentSum.Length1 == creators
      && counts.Length == creators
      && (forall c :: 0 <= c < creators ==> counts[c] == Sum(Column(log, 0, false), CountIn(c)))
      && SumsHold(controlSum, log, false) && SumsHold(treatmentSum, log, true)
    }

    ghost predicate SumsHold(sums: array2<real>, log: seq<Request>, treated: bool)
      reads sums
    {
      sums.Length0 == metrics && sums.Length1 == creators &&
      forall m, c :: 0 <= m < metrics && 0 <= c < creators ==> sums[m, c] == Sum(Column(log, m, treated), ValueIn(c))
    }

    constructor (metrics: nat, creators: nat)
      ensures this.metrics == metrics && this.creators == creators
      ensures fresh(controlSum) && fresh(treatmentSum) && fresh(counts)
      ensures Holds([])
    {
      this.metrics, this.creators := metrics, creators;
      controlSum := new real[metrics, creators]((m, c) => 0.0);
      treatmentSum := new real[metrics, creators]((m, c) => 0.0);
      counts := new real[creators](c => 0.0);
    }

    /** `counts.scatter_add_`. */
    method ScatterCounts(batch: seq<Request>, ghost log: seq<Request>)
      requires Wide(batch, metrics, creators) && counts.Length == creators
      requires forall c :: 0 <= c < creators ==> counts[c] == Sum(Column(log, 0, false), CountIn(c))
      modifies counts
      ensures forall c :: 0 <= c < creators ==> counts[c] == Sum(Column(log + batch, 0, false), CountIn(c))
    {
      assert log + batch[..0] == log;
      for k := 0 to |batch|
        invariant forall c :: 0 <= c < creators ==> counts[c] == Sum(Column(log + batch[..k], 0, false), CountIn(c))
      {
        assert batch[k] in batch;
        forall c: nat {
          ColumnSnoc(log + batch[..k], batch[k], 0, false, CountIn(c));
        }
        assert log + batch[..k + 1] == log + batch[..k] + [batch[k]];
        counts[batch[k].creator] := counts[batch[k].creator] + 1.0;
      }
      assert batch[..|batch|] == batch;
    }

    /** `control_sum[index].scatter_add_` for every metric, and the same for the other arm. */
    method ScatterValues(sums: array2<real>, batch: seq<Request>, treated: bool, ghost log: seq<Request>)
      requires Wide(batch, metrics, creators) && SumsHold(sums, log, treated)
      modifies sums
      ensures SumsHold(sums, log + batch, treated)
    {
      for metric := 0 to metrics
        invariant forall m, c :: 0 <= m < metrics && 0 <= c < creators ==>
            sums[m, c] == Sum(Column(if m < metric then log + batch else log, m, treated), ValueIn(c))
      {
        ScatterMetric(sums, metric, batch, treated, log);
      }
    }

    method ScatterMetric(sums: array2<real>, metric: nat, batch: seq<Request>, treated: bool, ghost log: seq<Request>)
      requires Wide(batch, metrics, creators) && metric < metrics
      requires sums.Length0 == metrics && sums.Length1 == creators
      requires forall c :: 0 <= c < creators ==> sums[metric, c] == Sum(Column(log, metric, treated), ValueIn(c))
      modifies sums
      ensures forall c :: 0 <= c < creators ==>
          sums[metric, c] == Sum(Column(log + batch, metric, treated), ValueIn(c))
      ensures forall m, c :: 0 <= m < metrics && 0 <= c < creators && m != metric ==> sums[m, c] == old(sums[m, c])
    {
      hide Column, Sum;
      assert log + batch[..0] == log;
      for k := 0 to |batch|
        invariant forall c :: 0 <= c < creators ==>
            sums[metric, c] == Sum(Column(log + batch[..k], metric, treated), ValueIn(c))
        invariant forall m, c :: 0 <= m < metrics && 0 <= c < creators && m != metric ==> sums[m, c] == old(sums[m, c])
      {
        assert batch[k] in batch;
        forall c: nat {
          ColumnSnoc(log + batch[..k], batch[k], metric, treated, ValueIn(c));
        }
        assert log + batch[..k + 1] == log + batch[..k] + [batch[k]];
        var c := batch[k].creator;
        sums[metric, c] := sums[metric, c] + Entry(if treated then batch[k].treatment else batch[k].control, metric);
      }
      assert batch[..|batch|] == batch;
    }

    /** In whatever batches the requests come, the tensors hold the sums over all of them. */
    method Add(batch: seq<Request>, ghost log: seq<Request>)
      requires Wide(batch, metrics, creators) && Holds(log)
      modifies controlSum, treatmentSum, counts
      ensures Holds(log + batch)
    {
      ScatterCounts(batch, log);
      ScatterValues(controlSum, batch, false, log);
      ScatterValues(treatmentSum, batch, true, log);
    }

    /** The creators with requests, ascending: `arange(creators)[counts > 0]`. */
    method Valid(ghost log: seq<Request>) returns (valid: seq<int>)
      requires Holds(log) && Wide(log, metrics, creators)
      ensures valid == Clusters(Column(log, 0, false))
    {
      valid := [];
      for c := 0 to creators
        invariant Increasing(valid)
        invariant forall x :: x in valid <==> 0 <= x < c && counts[x] > 0.0
      {
        assert forall i :: 0 <= i < |valid| ==> valid[i] in valid;
        if counts[c] > 0.0 {
          valid := valid + [c];
        }
      }
      ValidAreClusters(log, metrics, creators, counts[..], valid);
    }

    method MeansAt(sums: array2<real>, metric: nat, valid: seq<int>, treated: bool, ghost log: seq<Request>)
      returns (means: seq<real>)
      requires Holds(log) && SumsHold(sums, log, treated) && metric < metrics && Wide(log, metrics, creators)
      requires valid == Clusters(Column(log, 0, false))
      ensures means == MeansOf(Column(log, metric, treated))
    {
      SameClusters(log, metric, treated);
      ClustersInRange(log, metrics, creators);
      ClustersAre(Column(log, 0, false));
      means := [];
      for v := 0 to |valid|
        invariant |means| == v
        invariant forall i :: 0 <= i < v ==> means[i] == MeanIn(Column(log, metric, treated), valid[i])
      {
        assert valid[v] in valid;
        SameCounts(log, metric, treated, valid[v]);
        means := means + [sums[metric, valid[v]] / counts[valid[v]]];
      }
    }

    /** One metric's entries of `report`: the batch metrics over every request added so far. */
    method ReportMetric(numerics: Numerics, metric: nat, ghost log: seq<Request>)
      returns (paired: Option<PairedReport>, randomized: Option<RandomizedReport>, clusters: nat)
      requires Holds(log) && Wide(log, metrics, creators) && metric < metrics && PositiveRoots(numerics)
      ensures var left, right := Column(log, metric, false), Column(log, metric, true);
        && Clusters(left) == Clusters(right)
        && paired == Paired(numerics, MeansOf(left), MeansOf(right))
        && randomized == Randomized(numerics, Clusters(left), MeansOf(left), MeansOf(right))
        && clusters == |Clusters(left)|
    {
      hide Paired, Randomized;
      var valid := Valid(log);
      SameClusters(log, metric, false);
      SameClusters(log, metric, true);
      var control := MeansAt(controlSum, metric, valid, false, log);
      var treatment := MeansAt(treatmentSum, metric, valid, true, log);
      paired := Paired(numerics, control, treatment);
      randomized := Randomized(numerics, valid, control, treatment);
      clusters := |valid|;
    }
  }

  lemma ColumnSnoc(log: seq<Request>, r: Request, metric: nat, treated: bool, f: Keyed -> real)
    ensures Sum(Column(log + [r], metric, treated), f)
         == Sum(Column(log, metric, treated), f)
            + f(Keyed(r.creator, Entry(if treated then r.treatment else r.control, metric)))
  {
    var rows := Column(log, metric, treated);
    var row := Keyed(r.creator, Entry(if treated then r.treatment else r.control, metric));
    assert Column(log + [r], metric, treated) == rows + [row];
    assert (rows + [row])[..|rows|] == rows;
  }

  /** The same creators in every metric and arm. */
  lemma SameClusters(log: seq<Request>, metric: nat, treated: bool)
    ensures Clusters(Column(log, metric, treated)) == Clusters(Column(log, 0, false))
  {
    assert Map(Column(log, metric, treated), ClusterOf) == Map(Column(log, 0, false), ClusterOf);
  }

  lemma {:induction false} SameCounts(log: seq<Request>, metric: nat, treated: bool, c: int)
    ensures Sum(Column(log, metric, treated), CountIn(c)) == Sum(Column(log, 0, false), CountIn(c))
  {
    if log != [] {
      var front, last := log[..|log| - 1], log[|log| - 1];
      SameCounts(front, metric, treated, c);
      assert log == front + [last];
      ColumnSnoc(front, last, metric, treated, CountIn(c));
      ColumnSnoc(front, last, 0, false, CountIn(c));
    }
  }

  lemma ClustersInRange(log: seq<Request>, metrics: nat, creators: nat)
    requires Wide(log, metrics, creators)
    ensures forall c :: c in Clusters(Column(log, 0, false)) ==> 0 <= c < creators
  {
    var rows := Column(log, 0, false);
    SortedUniquesCorrect(Map(rows, ClusterOf));
    forall c | c in Map(rows, ClusterOf) ensures 0 <= c < creators {
      var i :| 0 <= i < |rows| && Map(rows, ClusterOf)[i] == c;
      assert log[i] in log;
    }
  }

  lemma ValidAreClusters(log: seq<Request>, metrics: nat, creators: nat, counts: seq<real>, valid: seq<int>)
    requires Wide(log, metrics, creators) && |counts| == creators && Increasing(valid)
    requires forall c :: 0 <= c < creators ==> counts[c] == Sum(Column(log, 0, false), CountIn(c))
    requires forall x :: x in valid <==> 0 <= x < creators && counts[x] > 0.0
    ensures valid == Clusters(Column(log, 0, false))
  {
    ClustersAre(Column(log, 0, false));
    ClustersInRange(log, metrics, creators);
    IncreasingUnique(valid, Clusters(Column(log, 0, false)));
  }

  datatype Report = Report(paired: Option<PairedReport>, randomized: Option<RandomizedReport>, clusters: nat)

  /** A metric's report by definition: both estimators over the creators' means, creators ascending. */
  function ReportOf(numerics: Numerics, log: seq<Request>, metric: nat): Report
    requires PositiveRoots(numerics)
  {
    var left, right := Column(log, metric, false), Column(log, metric, true);
    SameClusters(log, metric, false);
    SameClusters(log, metric, true);
    Report(Paired(numerics, MeansOf(left), MeansOf(right)),
           Randomized(numerics, Clusters(left), MeansOf(left), MeansOf(right)), |Clusters(left)|)
  }

  function AllRequests(batches: seq<seq<Request>>): seq<Request> {
    FlatMap(batches, (batch: seq<Request>) => batch)
  }

  /** Streaming equals batch: for any split of the requests into batches, each metric's streamed report is what the
      batch metrics give on the concatenated columns, and both are the report by definition. */
  method StreamedIsBatch(numerics: Numerics, metrics: nat, creators: nat, batches: seq<seq<Request>>, metric: nat)
    returns (streamed: Report, batch: Report)
    requires PositiveRoots(numerics) && metric < metrics
    requires forall b :: b in batches ==> Wide(b, metrics, creators)
    ensures streamed == batch == ReportOf(numerics, AllRequests(batches), metric)
  {
    hide Paired, Randomized;
    var acc := new CreatorClusterAccumulator(metrics, creators);
    var log: seq<Request> := [];
    for i := 0 to |batches|
      invariant fresh(acc.controlSum) && fresh(acc.treatmentSum) && fresh(acc.counts)
      invariant log == AllRequests(batches[..i]) && acc.Holds(log) && Wide(log, metrics, creators)
    {
      assert batches[i] in batches;
      assert batches[..i + 1] == batches[..i] + [batches[i]];
      FlatMapSnoc(batches[..i], batches[i], (batch: seq<Request>) => batch);
      acc.Add(batches[i], log);
      log := log + batches[i];
    }
    assert batches[..|batches|] == batches;
    var paired, randomized, clusters := acc.ReportMetric(numerics, metric, log);
    streamed := Report(paired, randomized, clusters);
    batch := BatchReport(numerics, log, metric);
  }

  /** The batch metrics on the columns of one array of requests. */
  method BatchReport(numerics: Numerics, log: seq<Request>, metric: nat) returns (report: Report)
    requires PositiveRoots(numerics)
    ensures report == ReportOf(numerics, log, metric)
  {
    hide Paired, Randomized;
    var ids := Map(log, (r: Request) => r.creator);
    var control := Map(log, (r: Request) => Entry(r.control, metric));
    var treatment := Map(log, (r: Request) => Entry(r.treatment, metric));
    assert Zip(ids, control) == Column(log, metric, false) && Zip(ids, treatment) == Column(log, metric, true);
    var paired, randomized, clusters := ClusterMetrics(numerics, control, treatment, ids);
    report := Report(paired, randomized, clusters);
  }
}
