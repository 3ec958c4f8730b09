/** The versioned parameter server: snapshots, and gradients applied once and not too late. */
module ParameterServer {
  type Matrix = seq<seq<real>>

  datatype Params = Params(weights: Matrix, bias: seq<real>)

  /** `finite` is what `np.isfinite(...).all()` says of both arrays. */
  datatype Gradient = Gradient(weights: Matrix, bias: seq<real>, finite: bool)

  /** The last two outcomes are exceptions in the Python code. */
  datatype Outcome = Applied | DuplicateUpdate | StaleGradient | ShapeMismatch | NotFinite

  predicate Shaped(weights: Matrix, bias: seq<real>, tasks: nat, dim: nat) {
    |weights| == tasks == |bias| && forall row :: row in weights ==> |row| == dim
  }

  function Zeros(tasks: nat, dim: nat): Params {
    Params(seq(tasks, t => seq(dim, j => 0.0)), seq(tasks, t => 0.0))
  }

  function DescendRow(row: seq<real>, rate: real, g: seq<real>): (r: seq<real>)
    requires |g| == |row|
    ensures |r| == |row| && forall j :: 0 <= j < |row| ==> r[j] == row[j] - rate * g[j]
  {
    seq(|row|, j requires 0 <= j < |row| => row[j] - rate * g[j])
  }

  function DescendMatrix(m: Matrix, rate: real, g: Matrix): (r: Matrix)
    requires |g| == |m| && forall t :: 0 <= t < |m| ==> |g[t]| == |m[t]|
    ensures |r| == |m| && forall t :: 0 <= t < |m| ==> r[t] == DescendRow(m[t], rate, g[t])
  {
    seq(|m|, t requires 0 <= t < |m| => DescendRow(m[t], rate, g[t]))
  }

  /** One descent step, entry by entry. */
  function Descend(p: Params, rate: real, g: Gradient): Params
    requires |g.weights| == |p.weights| && |g.bias| == |p.bias|
    requires forall t :: 0 <= t < |p.weights| ==> |g.weights[t]| == |p.weights[t]|
  {
    Params(DescendMatrix(p.weights, rate, g.weights), DescendRow(p.bias, rate, g.bias))
  }

  /** The server's state as a value. */
  datatype State = State(tasks: nat, dim: nat, maxStaleness: int, params: Params, version: nat, applied: set<string>) {
    ghost predicate Valid() {
      Shaped(params.weights, params.bias, tasks, dim)
    }

    function Check(id: string, base: int, g: Gradient): Outcome {
      if id in applied then DuplicateUpdate
      else if version - base > maxStaleness then StaleGradient
      else if !Shaped(g.weights, g.bias, tasks, dim) then ShapeMismatch
      else if !g.finite then NotFinite
      else Applied
    }

    /** An accepted update moves the parameters, the version and the id set; any other changes nothing. */
    ghost function After(id: string, base: int, g: Gradient, rate: real): State
      requires Valid()
    {
      if Check(id, base, g) != Applied then this
      else this.(params := Descend(params, rate, g), version := version + 1, applied := applied + {id})
    }
  }

  function InitialState(tasks: nat, dim: nat, maxStaleness: int): State {
    State(tasks, dim, maxStaleness, Zeros(tasks, dim), 0, {})
  }

  // ---------------------------------------------------------------------------------------------
  // The server object and its arrays.

  function Rows(a: array2<real>): Matrix
    reads a
  {
    seq(a.Length0, i requires 0 <= i < a.Length0 reads a =>
      seq(a.Length1, j requires 0 <= j < a.Length1 reads a => a[i, j]))
  }

  /** A snapshot holds copies of the arrays. */
  class Snapshot {
    const version: nat
    const weights: array2<real>
    const bias: array<real>

    constructor (version: nat, weights: array2<real>, bias: array<real>)
      ensures this.version == version && this.weights == weights && this.bias == bias
    {
      this.version, this.weights, this.bias := version, weights, bias;
    }
  }

  class VersionedParameterServer {
    const tasks: nat
    const featureDim: nat
    const maxStaleness: int
    const weights: array2<real>
    const bias: array<real>
    var version: nat
    var applied: set<string>

    ghost predicate Valid()
      reads this, weights, bias
    {
      weights.Length0 == tasks == bias.Length && weights.Length1 == featureDim
    }

    ghost function Contents(): (s: State)
      reads this, weights, bias
      requires Valid()
      ensures s.Valid()
    {
      State(tasks, featureDim, maxStaleness, Params(Rows(weights), bias[..]), version, applied)
    }

    constructor (tasks: nat, featureDim: nat, maxStaleness: int)
      ensures Valid() && fresh(weights) && fresh(bias)
      ensures Contents() == InitialState(tasks, featureDim, maxStaleness)
    {
      this.tasks, this.featureDim, this.maxStaleness := tasks, featureDim, maxStaleness;
      weights := new real[tasks, featureDim]((i, j) => 0.0);
      bias := new real[tasks](i => 0.0);
      version, applied := 0, {};
      new;
      forall t | 0 <= t < tasks ensures Rows(weights)[t] == seq(featureDim, j => 0.0) {
      }
      assert Rows(weights) == Zeros(tasks, featureDim).weights;
    }

    method TakeSnapshot() returns (s: Snapshot)
      requires Valid()
      ensures s.version == version && fresh(s) && fresh(s.weights) && fresh(s.bias)
      ensures Rows(s.weights) == Rows(weights) && s.bias[..] == bias[..]
    {
      var w := new real[tasks, featureDim]((i, j) requires 0 <= i < tasks && 0 <= j < featureDim
                                           reads this, weights, bias requires Valid() => weights[i, j]);
      var b := new real[tasks](i requires 0 <= i < tasks reads this, weights, bias requires Valid() => bias[i]);
      s := new Snapshot(version, w, b);
      forall t | 0 <= t < tasks ensures Rows(w)[t] == Rows(weights)[t] {
      }
    }

    /** `-=` on both arrays, in place: a snapshot's arrays are not among the ones modified. */
    method Apply(id: string, base: int, g: Gradient, rate: real) returns (outcome: Outcome)
      requires Valid()
      modifies this, weights, bias
      ensures Valid() && outcome == old(Contents()).Check(id, base, g)
      ensures Contents() == old(Contents()).After(id, base, g, rate)
    {
      outcome := CheckUpdate(id, base, g);
      if outcome == Applied {
        Subtract(g, rate);
        version := version + 1;
        applied := applied + {id};
      }
    }

    method CheckUpdate(id: string, base: int, g: Gradient) returns (outcome: Outcome)
      requires Valid()
      ensures outcome == Contents().Check(id, base, g)
    {
      if id in applied {
        return DuplicateUpdate;
      }
      if version - base > maxStaleness {
        return StaleGradient;
      }
      if !Shaped(g.weights, g.bias, tasks, featureDim) {
        return ShapeMismatch;
      }
      if !g.finite {
        return NotFinite;
      }
      return Applied;
    }

    method Subtract(g: Gradient, rate: real)
      requires Valid() && Shaped(g.weights, g.bias, tasks, featureDim)
      modifies weights, bias
      ensures Params(Rows(weights), bias[..]) == Descend(Params(old(Rows(weights)), old(bias[..])), rate, g)
    {
      SubtractWeights(g.weights, rate);
      SubtractBias(g.bias, rate);
    }

    method SubtractBias(g: seq<real>, rate: real)
      requires Valid() && |g| == tasks
      modifies bias
      ensures bias[..] == DescendRow(old(bias[..]), rate, g)
    {
      for t := 0 to tasks
        invariant forall i :: 0 <= i < t ==> bias[i] == old(bias[i]) - rate * g[i]
        invariant forall i :: t <= i < tasks ==> bias[i] == old(bias[i])
      {
        bias[t] := bias[t] - rate * g[t];
      }
      ghost var was := old(bias[..]);
      forall i | 0 <= i < tasks ensures bias[..][i] == DescendRow(was, rate, g)[i] {
        assert was[i] == old(bias[i]);
      }
      assert bias[..] == DescendRow(was, rate, g);
    }

    method SubtractWeights(g: Matrix, rate: real)
      requires Valid() && |g| == tasks && forall row :: row in g ==> |row| == featureDim
      modifies weights
      ensures Rows(weights) == DescendMatrix(old(Rows(weights)), rate, g)
    {
      for t := 0 to tasks
        invariant forall i :: 0 <= i < t ==> Rows(weights)[i] == DescendRow(old(Rows(weights))[i], rate, g[i])
        invariant forall i :: t <= i < tasks ==> Rows(weights)[i] == old(Rows(weights))[i]
      {
        assert g[t] in g;
        SubtractRow(t, g[t], rate);
      }
    }

    method SubtractRow(t: nat, g: seq<real>, rate: real)
      requires Valid() && t < tasks && |g| == featureDim
      modifies weights
      ensures forall i :: 0 <= i < tasks && i != t ==> Rows(weights)[i] == old(Rows(weights))[i]
      ensures Rows(weights)[t] == DescendRow(old(Rows(weights))[t], rate, g)
    {
      for j := 0 to featureDim
        invariant forall k :: 0 <= k < j ==> weights[t, k] == old(weights[t, k]) - rate * g[k]
        invariant forall k :: j <= k < featureDim ==> weights[t, k] == old(weights[t, k])
        invariant forall i, k :: 0 <= i < tasks && i != t && 0 <= k < featureDim ==> weights[i, k] == old(weights[i, k])
      {
        weights[t, j] := weights[t, j] - rate * g[j];
      }
      forall i | 0 <= i < tasks && i != t ensures Rows(weights)[i] == old(Rows(weights))[i] {
      }
      assert Rows(weights)[t] == DescendRow(old(Rows(weights))[t], rate, g);
    }
  }
}
