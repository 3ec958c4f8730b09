/** The online trainer: hashed feature counts, the micro-batch gradient, and one update per batch. */
module Trainer {
  import opened Outcomes
  import opened Seqs
  import opened TrainingJoiner
  import opened ParameterServer

  type Batch = seq<Example>

  /** Where a field's bucket lands in the feature vector. */
  function FeatureIndex(field: nat, bucket: int, dim: nat): nat
    requires dim > 0
  {
    (field * 131 + bucket) % dim
  }

  function FieldsAt(buckets: seq<int>, dim: nat, k: nat): seq<nat>
    requires dim > 0
  {
    Filter(Range(|buckets|), (f: nat) => f < |buckets| && FeatureIndex(f, buckets[f], dim) == k)
  }

  /** Each entry counts the fields that land on it. */
  function Vector(buckets: seq<int>, dim: nat): (v: seq<real>)
    requires dim > 0
    ensures |v| == dim
  {
    seq(dim, k requires 0 <= k < dim => |FieldsAt(buckets, dim, k)| as real)
  }

  lemma FieldsAtSnoc(buckets: seq<int>, dim: nat, k: nat, n: nat)
    requires dim > 0 && n < |buckets|
    ensures |FieldsAt(buckets[..n + 1], dim, k)|
         == |FieldsAt(buckets[..n], dim, k)| + if FeatureIndex(n, buckets[n], dim) == k then 1 else 0
  {
    var p := (f: nat) => f < |buckets[..n + 1]| && FeatureIndex(f, buckets[..n + 1][f], dim) == k;
    var q := (f: nat) => f < |buckets[..n]| && FeatureIndex(f, buckets[..n][f], dim) == k;
    assert Range(n + 1) == Range(n) + [n];
    FilterSnoc(Range(n), n, p);
    FilterSame(Range(n), p, q);
  }

  method Vectorize(buckets: seq<int>, dim: nat) returns (vector: array<real>)
    requires dim > 0
    ensures fresh(vector) && vector[..] == Vector(buckets, dim)
  {
    vector := new real[dim](k => 0.0);
    for field := 0 to |buckets|
      invariant forall k :: 0 <= k < dim ==> vector[k] == |FieldsAt(buckets[..field], dim, k)| as real
    {
      var index := (field * 131 + buckets[field]) % dim;
      forall k | 0 <= k < dim {
        FieldsAtSnoc(buckets, dim, k, field);
      }
      vector[index] := vector[index] + 1.0;
    }
    assert buckets[..|buckets|] == buckets;
  }

  /** Hashing loses no field: the entries sum to the number of fields. */
  lemma {:induction false} VectorSumsToFields(buckets: seq<int>, dim: nat)
    requires dim > 0
    ensures Sum(Vector(buckets, dim), (x: real) => x) == |buckets| as real
  {
    var id := (x: real) => x;
    if buckets == [] {
      forall x | x in Vector(buckets, dim) ensures x == 0.0 {
      }
      SumNonNegative(Vector(buckets, dim), id);
    } else {
      var n := |buckets| - 1;
      var index := FeatureIndex(n, buckets[n], dim);
      VectorSumsToFields(buckets[..n], dim);
      assert buckets[..n + 1] == buckets;
      forall k | 0 <= k < dim
        ensures Vector(buckets, dim)[k] == Vector(buckets[..n], dim)[k] + if k == index then 1.0 else 0.0
      {
        FieldsAtSnoc(buckets, dim, k, n);
      }
      SumBump(Vector(buckets[..n], dim), Vector(buckets, dim), index);
    }
  }

  lemma {:induction false} SumBump(a: seq<real>, b: seq<real>, index: nat)
    requires |a| == |b| && forall k :: 0 <= k < |a| ==> b[k] == a[k] + if k == index then 1.0 else 0.0
    ensures Sum(b, (x: real) => x) == Sum(a, (x: real) => x) + if index < |a| then 1.0 else 0.0
  {
    if a != [] {
      SumBump(a[..|a| - 1], b[..|b| - 1], index);
    }
  }

  // ---------------------------------------------------------------------------------------------
  // The gradient of a micro-batch. The sigmoid is foreign.

  function Term(w: seq<real>, x: seq<real>): nat -> real {
    (j: nat) => if j < |w| && j < |x| then w[j] * x[j] else 0.0
  }

  function Dot(w: seq<real>, x: seq<real>): real {
    Sum(Range(|x|), Term(w, x))
  }

  function Score(p: Params, t: nat, x: seq<real>): real
    requires t < |p.weights| && t < |p.bias| && |p.weights[t]| == |x|
  {
    Dot(p.weights[t], x) + p.bias[t]
  }

  function ErrorOf(sigmoid: real -> real, tasks: seq<string>, dim: nat, p: Params, t: nat, e: Example): real
    requires dim > 0 && t < |tasks| && Shaped(p.weights, p.bias, |tasks|, dim)
  {
    assert p.weights[t] in p.weights;
    var target := if tasks[t] in e.labels then e.labels[tasks[t]] else 0.0;
    (sigmoid(Score(p, t, Vector(e.featureBuckets, dim))) - target) * e.sampleWeight
  }

  function Errors(sigmoid: real -> real, tasks: seq<string>, dim: nat, p: Params, t: nat): Example -> real
    requires dim > 0 && t < |tasks| && Shaped(p.weights, p.bias, |tasks|, dim)
  {
    (e: Example) => ErrorOf(sigmoid, tasks, dim, p, t, e)
  }

  /** What each example's error adds to one weight's gradient. */
  function Pulls(sigmoid: real -> real, tasks: seq<string>, dim: nat, p: Params, t: nat, j: nat): Example -> real
    requires dim > 0 && t < |tasks| && j < dim && Shaped(p.weights, p.bias, |tasks|, dim)
  {
    (e: Example) => ErrorOf(sigmoid, tasks, dim, p, t, e) * Vector(e.featureBuckets, dim)[j]
  }

  function Normalizer(batch: Batch): real {
    var total := Sum(batch, (e: Example) => e.sampleWeight);
    if total < 1.0 then 1.0 else total
  }

  /** `error.T @ features / normalizer` and `error.sum(axis=0) / normalizer`. */
  function BatchGradient(sigmoid: real -> real, tasks: seq<string>, dim: nat, batch: Batch, p: Params): (g: Gradient)
    requires dim > 0 && Shaped(p.weights, p.bias, |tasks|, dim)
    ensures Shaped(g.weights, g.bias, |tasks|, dim) && g.finite
  {
    Gradient(
      seq(|tasks|, t requires 0 <= t < |tasks| => seq(dim, j requires 0 <= j < dim =>
        Sum(batch, Pulls(sigmoid, tasks, dim, p, t, j)) / Normalizer(batch))),
      seq(|tasks|, t requires 0 <= t < |tasks| => Sum(batch, Errors(sigmoid, tasks, dim, p, t)) / Normalizer(batch)),
      true)
  }

  // ---------------------------------------------------------------------------------------------
  // What a step does to the scores.

  /** A batch's gradient, before the division by its normalizer, is the sum of its examples' gradients before theirs. */
  lemma GradientIsSum(sigmoid: real -> real, tasks: seq<string>, dim: nat, batch: Batch, p: Params, t: nat, j: nat)
    requires dim > 0 && Shaped(p.weights, p.bias, |tasks|, dim) && t < |tasks| && j < dim
    ensures WeightPart(sigmoid, tasks, dim, p, t, j, batch)
         == Sum(batch, (e: Example) => WeightPart(sigmoid, tasks, dim, p, t, j, [e]))
    ensures BiasPart(sigmoid, tasks, dim, p, t, batch) == Sum(batch, (e: Example) => BiasPart(sigmoid, tasks, dim, p, t, [e]))
  {
    hide Normalizer, Pulls, Errors, WeightPart, BiasPart;
    UndividedParts(sigmoid, tasks, dim, batch, p, t, j);
    forall e: Example
      ensures WeightPart(sigmoid, tasks, dim, p, t, j, [e]) == Pulls(sigmoid, tasks, dim, p, t, j)(e)
      ensures BiasPart(sigmoid, tasks, dim, p, t, [e]) == Errors(sigmoid, tasks, dim, p, t)(e)
    {
      UndividedParts(sigmoid, tasks, dim, [e], p, t, j);
      SumOne(e, Pulls(sigmoid, tasks, dim, p, t, j));
      SumOne(e, Errors(sigmoid, tasks, dim, p, t));
    }
    SumSame(batch, Pulls(sigmoid, tasks, dim, p, t, j), (e: Example) => WeightPart(sigmoid, tasks, dim, p, t, j, [e]));
    SumSame(batch, Errors(sigmoid, tasks, dim, p, t), (e: Example) => BiasPart(sigmoid, tasks, dim, p, t, [e]));
  }

  /** One weight's gradient times the normalizer. */
  function WeightPart(sigmoid: real -> real, tasks: seq<string>, dim: nat, p: Params, t: nat, j: nat, batch: Batch): real
    requires dim > 0 && Shaped(p.weights, p.bias, |tasks|, dim) && t < |tasks| && j < dim
  {
    var g := BatchGradient(sigmoid, tasks, dim, batch, p);
    assert g.weights[t] in g.weights;
    g.weights[t][j] * Normalizer(batch)
  }

  function BiasPart(sigmoid: real -> real, tasks: seq<string>, dim: nat, p: Params, t: nat, batch: Batch): real
    requires dim > 0 && Shaped(p.weights, p.bias, |tasks|, dim) && t < |tasks|
  {
    BatchGradient(sigmoid, tasks, dim, batch, p).bias[t] * Normalizer(batch)
  }

  lemma UndividedParts(sigmoid: real -> real, tasks: seq<string>, dim: nat, batch: Batch, p: Params, t: nat, j: nat)
    requires dim > 0 && Shaped(p.weights, p.bias, |tasks|, dim) && t < |tasks| && j < dim
    ensures WeightPart(sigmoid, tasks, dim, p, t, j, batch) == Sum(batch, Pulls(sigmoid, tasks, dim, p, t, j))
    ensures BiasPart(sigmoid, tasks, dim, p, t, batch) == Sum(batch, Errors(sigmoid, tasks, dim, p, t))
  {
    hide Normalizer, Pulls, Errors, Sum;
    NormalizerIsMax(batch);
    Undivided(Sum(batch, Pulls(sigmoid, tasks, dim, p, t, j)), Normalizer(batch));
    Undivided(Sum(batch, Errors(sigmoid, tasks, dim, p, t)), Normalizer(batch));
  }

  lemma Undivided(a: real, b: real)
    requires b > 0.0
    ensures a / b * b == a
  {
  }

  function Part(error: real, x: real, n: real): real {
    if n <= 0.0 then 0.0 else error * x / n
  }

  lemma OneExampleGradient(sigmoid: real -> real, tasks: seq<string>, dim: nat, e: Example, p: Params, t: nat, j: nat)
    requires dim > 0 && Shaped(p.weights, p.bias, |tasks|, dim) && t < |tasks| && j < dim
    ensures var g, error := BatchGradient(sigmoid, tasks, dim, [e], p), ErrorOf(sigmoid, tasks, dim, p, t, e);
      && Normalizer([e]) > 0.0 && |g.weights[t]| == dim
      && g.weights[t][j] == Part(error, Vector(e.featureBuckets, dim)[j], Normalizer([e]))
      && g.bias[t] == Part(error, 1.0, Normalizer([e]))
  {
    hide Normalizer, ErrorOf, Vector, Sum;
    NormalizerIsMax([e]);
    SumOne(e, Pulls(sigmoid, tasks, dim, p, t, j));
    SumOne(e, Errors(sigmoid, tasks, dim, p, t));
  }

  /** The larger of one and the batch's weight. */
  lemma NormalizerIsMax(batch: Batch)
    ensures var total := Sum(batch, (e: Example) => e.sampleWeight);
      && Normalizer(batch) >= 1.0 && Normalizer(batch) >= total
      && (Normalizer(batch) == 1.0 || Normalizer(batch) == total)
  {
  }

  function Change(x: seq<real>, c: real): nat -> real {
    (j: nat) => (0.0 - c) * Term(x, x)(j)
  }

  lemma ChangeSums(x: seq<real>, c: real)
    ensures Sum(Range(|x|), Change(x, c)) == 0.0 - Times(c, Dot(x, x))
  {
    SumScale(Range(|x|), 0.0 - c, Term(x, x), Change(x, c));
    Negated(c, Dot(x, x));
  }

  /** A step of size c against x moves the product with x by c for each squared entry. */
  lemma DotStep(w: seq<real>, v: seq<real>, x: seq<real>, c: real)
    requires |w| == |v| == |x| && forall j :: 0 <= j < |x| ==> v[j] == w[j] - Times(c, x[j])
    ensures Dot(v, x) == Dot(w, x) - Times(c, Dot(x, x))
  {
    DotChange(w, v, x, c);
    hide *;
    ChangeSums(x, c);
  }

  lemma DotChange(w: seq<real>, v: seq<real>, x: seq<real>, c: real)
    requires |w| == |v| == |x| && forall j :: 0 <= j < |x| ==> v[j] == w[j] - Times(c, x[j])
    ensures Dot(v, x) == Dot(w, x) + Sum(Range(|x|), Change(x, c))
  {
    forall j: nat ensures Term(v, x)(j) == Term(w, x)(j) + Change(x, c)(j) {
      TermStep(w, v, x, c, j);
    }
    hide Term, Change, Sum;
    SumAdd(Range(|x|), Term(w, x), Change(x, c), Term(v, x));
  }

  lemma TermStep(w: seq<real>, v: seq<real>, x: seq<real>, c: real, j: nat)
    requires |w| == |v| == |x| && forall j :: 0 <= j < |x| ==> v[j] == w[j] - Times(c, x[j])
    ensures Term(v, x)(j) == Term(w, x)(j) + (0.0 - c) * Term(x, x)(j)
  {
    if j < |x| {
      Moved(w[j], c, x[j]);
    }
  }

  lemma Negated(c: real, y: real)
    ensures (0.0 - c) * y == 0.0 - Times(c, y)
  {
  }

  lemma Moved(w: real, c: real, x: real)
    ensures (w - c * x) * x == w * x + (0.0 - c) * (x * x)
  {
  }

  /** The task's score on the example moves towards its label: down exactly if the prediction is above it, up exactly
      if it is below, and not at all if it meets it. */
  ghost predicate TowardsLabel(sigmoid: real -> real, tasks: seq<string>, dim: nat, e: Example, before: Params,
                               after: Params, t: nat)
    requires dim > 0 && t < |tasks|
    requires Shaped(before.weights, before.bias, |tasks|, dim) && Shaped(after.weights, after.bias, |tasks|, dim)
  {
    && tasks[t] in e.labels && before.weights[t] in before.weights && after.weights[t] in after.weights
    && var x := Vector(e.featureBuckets, dim);
       var old', new' := Score(before, t, x), Score(after, t, x);
       && (new' < old' <==> sigmoid(old') > e.labels[tasks[t]])
       && (new' > old' <==> sigmoid(old') < e.labels[tasks[t]])
  }

  ghost predicate TowardsLabels(sigmoid: real -> real, tasks: seq<string>, dim: nat, e: Example, before: Params,
                                after: Params)
    requires dim > 0
    requires Shaped(before.weights, before.bias, |tasks|, dim) && Shaped(after.weights, after.bias, |tasks|, dim)
  {
    forall t :: 0 <= t < |tasks| ==> TowardsLabel(sigmoid, tasks, dim, e, before, after, t)
  }

  /** How far the step moves one task's score on its example. */
  function StepSize(sigmoid: real -> real, tasks: seq<string>, dim: nat, e: Example, p: Params, rate: real, t: nat): real
    requires dim > 0 && t < |tasks| && Shaped(p.weights, p.bias, |tasks|, dim)
  {
    Scale(rate, ErrorOf(sigmoid, tasks, dim, p, t, e), Normalizer([e]))
  }

  function Scale(rate: real, error: real, n: real): real {
    if n <= 0.0 then 0.0 else rate * error / n
  }

  /** A product by name, which the solver need not multiply out. */
  function Times(a: real, b: real): real {
    a * b
  }

  lemma OneExampleRow(sigmoid: real -> real, tasks: seq<string>, dim: nat, e: Example, p: Params, rate: real, t: nat)
    requires dim > 0 && Shaped(p.weights, p.bias, |tasks|, dim) && t < |tasks|
    ensures var q, c := Descend(p, rate, BatchGradient(sigmoid, tasks, dim, [e], p)),
                        StepSize(sigmoid, tasks, dim, e, p, rate, t);
      && Shaped(q.weights, q.bias, |tasks|, dim) && |p.weights[t]| == |q.weights[t]| == dim
      && (forall j :: 0 <= j < dim ==> q.weights[t][j] == p.weights[t][j] - Times(c, Vector(e.featureBuckets, dim)[j]))
      && q.bias[t] == p.bias[t] - c
  {
    var g := BatchGradient(sigmoid, tasks, dim, [e], p);
    var q, x := Descend(p, rate, g), Vector(e.featureBuckets, dim);
    DescendShaped(p, rate, g, |tasks|, dim);
    hide *;
    RowEntry(sigmoid, tasks, dim, e, p, rate, t, 0);
    forall j | 0 <= j < dim
      ensures q.weights[t][j] == p.weights[t][j] - Times(StepSize(sigmoid, tasks, dim, e, p, rate, t), x[j])
    {
      RowEntry(sigmoid, tasks, dim, e, p, rate, t, j);
    }
  }

  lemma RowEntry(sigmoid: real -> real, tasks: seq<string>, dim: nat, e: Example, p: Params, rate: real, t: nat, j: nat)
    requires dim > 0 && Shaped(p.weights, p.bias, |tasks|, dim) && t < |tasks| && j < dim
    ensures var q, c := Descend(p, rate, BatchGradient(sigmoid, tasks, dim, [e], p)),
                        StepSize(sigmoid, tasks, dim, e, p, rate, t);
      && |q.weights| == |p.weights| == |q.bias| == |p.bias| == |tasks| && |q.weights[t]| == |p.weights[t]| == dim
      && q.weights[t][j] == p.weights[t][j] - Times(c, Vector(e.featureBuckets, dim)[j])
      && q.bias[t] == p.bias[t] - c
  {
    assert StepSize(sigmoid, tasks, dim, e, p, rate, t)
        == Scale(rate, ErrorOf(sigmoid, tasks, dim, p, t, e), Normalizer([e]));
    hide *;
    var g := BatchGradient(sigmoid, tasks, dim, [e], p);
    DescendAt(p, rate, g, |tasks|, dim, t, j);
    OneExampleGradient(sigmoid, tasks, dim, e, p, t, j);
    Scaled(rate, ErrorOf(sigmoid, tasks, dim, p, t, e), Vector(e.featureBuckets, dim)[j], Normalizer([e]));
  }

  lemma DescendAt(p: Params, rate: real, g: Gradient, tasks: nat, dim: nat, t: nat, j: nat)
    requires Shaped(p.weights, p.bias, tasks, dim) && Shaped(g.weights, g.bias, tasks, dim) && t < tasks && j < dim
    ensures var q := Descend(p, rate, g);
      && |q.weights| == |p.weights| == |q.bias| == |p.bias| == tasks
      && |p.weights[t]| == |q.weights[t]| == |g.weights[t]| == dim
      && q.weights[t][j] == p.weights[t][j] - Times(rate, g.weights[t][j])
      && q.bias[t] == p.bias[t] - Times(rate, g.bias[t])
  {
    assert p.weights[t] in p.weights && g.weights[t] in g.weights;
    var q := Descend(p, rate, g);
    assert q.weights[t] == DescendRow(p.weights[t], rate, g.weights[t]) && q.bias == DescendRow(p.bias, rate, g.bias);
  }

  /** One example's step, for one task: how far its score moves. */
  lemma OneExampleStep(sigmoid: real -> real, tasks: seq<string>, dim: nat, e: Example, p: Params, rate: real, t: nat)
    requires dim > 0 && Shaped(p.weights, p.bias, |tasks|, dim) && t < |tasks|
    ensures var q, x := Descend(p, rate, BatchGradient(sigmoid, tasks, dim, [e], p)), Vector(e.featureBuckets, dim);
      && Shaped(q.weights, q.bias, |tasks|, dim) && |p.weights[t]| == |q.weights[t]| == dim
      && Score(q, t, x) == Score(p, t, x) - Times(StepSize(sigmoid, tasks, dim, e, p, rate, t), Dot(x, x) + 1.0)
  {
    var q, x := Descend(p, rate, BatchGradient(sigmoid, tasks, dim, [e], p)), Vector(e.featureBuckets, dim);
    var c := StepSize(sigmoid, tasks, dim, e, p, rate, t);
    OneExampleRow(sigmoid, tasks, dim, e, p, rate, t);
    assert |x| == dim && Score(q, t, x) == Dot(q.weights[t], x) + q.bias[t];
    assert Score(p, t, x) == Dot(p.weights[t], x) + p.bias[t];
    hide *;
    DotStep(p.weights[t], q.weights[t], x, c);
    Gathered(c, Dot(x, x));
  }

  lemma Gathered(c: real, y: real)
    ensures Times(c, y + 1.0) == Times(c, y) + c
  {
  }

  lemma Scaled(rate: real, error: real, x: real, n: real)
    requires n > 0.0
    ensures Times(rate, Part(error, x, n)) == Times(Scale(rate, error, n), x)
    ensures Times(rate, Part(error, 1.0, n)) == Scale(rate, error, n)
  {
    var a := error / n;
    assert a * n == error;
    Determined(error * x, n, a * x);
    Determined(rate * error, n, rate * a);
  }

  lemma Determined(a: real, b: real, q: real)
    requires b > 0.0 && q * b == a
    ensures a / b == q
  {
  }

  /** Training on one example moves every score towards its label. */
  lemma TrainingHelps(sigmoid: real -> real, tasks: seq<string>, dim: nat, e: Example, p: Params, rate: real)
    requires dim > 0 && Shaped(p.weights, p.bias, |tasks|, dim) && forall t :: t in tasks ==> t in e.labels
    requires rate > 0.0 && e.sampleWeight > 0.0
    ensures var q := Descend(p, rate, BatchGradient(sigmoid, tasks, dim, [e], p));
      Shaped(q.weights, q.bias, |tasks|, dim) && TowardsLabels(sigmoid, tasks, dim, e, p, q)
  {
    var g := BatchGradient(sigmoid, tasks, dim, [e], p);
    var q := Descend(p, rate, g);
    DescendShaped(p, rate, g, |tasks|, dim);
    hide *;
    forall t | 0 <= t < |tasks| ensures TowardsLabel(sigmoid, tasks, dim, e, p, q, t) {
      TaskHelped(sigmoid, tasks, dim, e, p, rate, t);
    }
    AllTowards(sigmoid, tasks, dim, e, p, q);
  }

  lemma AllTowards(sigmoid: real -> real, tasks: seq<string>, dim: nat, e: Example, p: Params, q: Params)
    requires dim > 0 && Shaped(p.weights, p.bias, |tasks|, dim) && Shaped(q.weights, q.bias, |tasks|, dim)
    requires forall t :: 0 <= t < |tasks| ==> TowardsLabel(sigmoid, tasks, dim, e, p, q, t)
    ensures TowardsLabels(sigmoid, tasks, dim, e, p, q)
  {
    hide TowardsLabel;
  }

  lemma TaskHelped(sigmoid: real -> real, tasks: seq<string>, dim: nat, e: Example, p: Params, rate: real, t: nat)
    requires dim > 0 && Shaped(p.weights, p.bias, |tasks|, dim) && t < |tasks| && tasks[t] in e.labels
    requires rate > 0.0 && e.sampleWeight > 0.0
    ensures var q := Descend(p, rate, BatchGradient(sigmoid, tasks, dim, [e], p));
      Shaped(q.weights, q.bias, |tasks|, dim) && TowardsLabel(sigmoid, tasks, dim, e, p, q, t)
  {
    OneExampleStep(sigmoid, tasks, dim, e, p, rate, t);
    StepSign(sigmoid, tasks, dim, e, p, rate, t);
    var q, x := Descend(p, rate, BatchGradient(sigmoid, tasks, dim, [e], p)), Vector(e.featureBuckets, dim);
    assert p.weights[t] in p.weights && q.weights[t] in q.weights;
    hide *;
    SquaresNonNegative(x);
    SignOfTimes(StepSize(sigmoid, tasks, dim, e, p, rate, t), Dot(x, x) + 1.0);
    Towards(sigmoid, tasks, dim, e, p, q, t);
  }

  lemma Towards(sigmoid: real -> real, tasks: seq<string>, dim: nat, e: Example, p: Params, q: Params, t: nat)
    requires dim > 0 && t < |tasks| && tasks[t] in e.labels
    requires Shaped(p.weights, p.bias, |tasks|, dim) && Shaped(q.weights, q.bias, |tasks|, dim)
    requires p.weights[t] in p.weights && q.weights[t] in q.weights
    requires var x := Vector(e.featureBuckets, dim);
      var moved := Score(p, t, x) - Score(q, t, x);
      && (moved > 0.0 <==> sigmoid(Score(p, t, x)) > e.labels[tasks[t]])
      && (moved < 0.0 <==> sigmoid(Score(p, t, x)) < e.labels[tasks[t]])
    ensures TowardsLabel(sigmoid, tasks, dim, e, p, q, t)
  {
    hide Score, Vector;
  }

  lemma StepSign(sigmoid: real -> real, tasks: seq<string>, dim: nat, e: Example, p: Params, rate: real, t: nat)
    requires dim > 0 && Shaped(p.weights, p.bias, |tasks|, dim) && t < |tasks| && tasks[t] in e.labels
    requires rate > 0.0 && e.sampleWeight > 0.0
    ensures p.weights[t] in p.weights
    ensures var prediction := sigmoid(Score(p, t, Vector(e.featureBuckets, dim)));
      && (StepSize(sigmoid, tasks, dim, e, p, rate, t) > 0.0 <==> prediction > e.labels[tasks[t]])
      && (StepSize(sigmoid, tasks, dim, e, p, rate, t) < 0.0 <==> prediction < e.labels[tasks[t]])
  {
    assert p.weights[t] in p.weights;
    hide Score, Vector, Normalizer;
    NormalizerIsMax([e]);
    SignOfStep(rate, sigmoid(Score(p, t, Vector(e.featureBuckets, dim))) - e.labels[tasks[t]], e.sampleWeight,
               Normalizer([e]));
  }

  lemma SignOfTimes(a: real, b: real)
    requires b > 0.0
    ensures (Times(a, b) > 0.0 <==> a > 0.0) && (Times(a, b) < 0.0 <==> a < 0.0)
  {
    SignOfProduct(a, b);
  }

  lemma SignOfProduct(a: real, b: real)
    requires b > 0.0
    ensures (a * b > 0.0 <==> a > 0.0) && (a * b < 0.0 <==> a < 0.0)
  {
  }

  lemma DescendShaped(p: Params, rate: real, g: Gradient, tasks: nat, dim: nat)
    requires Shaped(p.weights, p.bias, tasks, dim) && Shaped(g.weights, g.bias, tasks, dim)
    ensures var q := Descend(p, rate, g); Shaped(q.weights, q.bias, tasks, dim)
  {
  }

  lemma SquaresNonNegative(x: seq<real>)
    ensures Dot(x, x) >= 0.0
  {
    SumNonNegative(Range(|x|), Term(x, x));
  }

  lemma SignOfStep(rate: real, difference: real, weight: real, n: real)
    requires rate > 0.0 && weight > 0.0 && n > 0.0
    ensures var step := rate * (difference * weight) / n;
      (step > 0.0 <==> difference > 0.0) && (step < 0.0 <==> difference < 0.0)
  {
    SignOfProduct(difference, weight);
    SignOfProduct(difference * weight, rate);
    SignOfProduct(rate * (difference * weight) / n, n);
  }

  ghost predicate Labelled(batch: Batch, tasks: seq<string>) {
    forall e, t :: e in batch && t in tasks ==> t in e.labels
  }

  /** One micro-batch is one snapshot, one gradient and one update: it is applied exactly when its id is new (and
      staleness zero is allowed), and then it is the descent step of the server's own parameters. */
  method TrainMicrobatch(server: VersionedParameterServer, sigmoid: real -> real, tasks: seq<string>, batch: Batch,
                         id: string, rate: real)
    returns (r: Result<Outcome, string>)
    requires server.Valid() && server.featureDim > 0 && |tasks| == server.tasks
    modifies server, server.weights, server.bias
    ensures server.Valid()
    ensures r.Failure? <==> batch == [] || !Labelled(batch, tasks)
    ensures r.Failure? ==> server.Contents() == old(server.Contents())
    ensures r.Success? ==> (r.value == Applied <==> id !in old(server.applied) && 0 <= server.maxStaleness)
    ensures r.Success? ==> server.Contents() == old(server.Contents()).After(id, old(server.version),
      BatchGradient(sigmoid, tasks, server.featureDim, batch, old(server.Contents()).params), rate)
    ensures r == Success(Applied) && |batch| == 1 && rate > 0.0 && batch[0].sampleWeight > 0.0 ==>
      TowardsLabels(sigmoid, tasks, server.featureDim, batch[0], old(server.Contents()).params, server.Contents().params)
  {
    ghost var before := server.Contents();
    if batch == [] {
      return Failure("training microbatch must not be empty");
    }
    var snapshot := server.TakeSnapshot();
    if exists e :: e in batch && exists t :: t in tasks && t !in e.labels {
      return Failure("missing label");
    }
    var params := Params(Rows(snapshot.weights), snapshot.bias[..]);
    var gradient := BatchGradient(sigmoid, tasks, server.featureDim, batch, params);
    var outcome := server.Apply(id, snapshot.version, gradient, rate);
    hide BatchGradient, TowardsLabels, Descend;
    if outcome == Applied && |batch| == 1 && rate > 0.0 && batch[0].sampleWeight > 0.0 {
      assert batch == [batch[0]];
      TrainingHelps(sigmoid, tasks, server.featureDim, batch[0], before.params, rate);
    }
    r := Success(outcome);
  }
}
