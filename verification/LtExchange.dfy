/** Exchange-rate sensitivity from six running moments a cell. */
module LtExchange {
  import opened Outcomes
  import opened Seqs
  import opened Samples
  import opened Assignment
  import Trajectories

  /** A user's id and the two metrics used: accepted commercialization and long-term value. */
  datatype User = User(id: int, accepted: real, ltValue: real)

  function Accepted(u: User): real {
    u.accepted
  }

  function Noncommercial(u: User): real {
    u.ltValue - Trajectories.COMMERCIALIZATION_UNIT * u.accepted
  }

  /** Cell 0 is control, cell 1 treatment. */
  function InCell(cell: nat): User -> bool {
    (u: User) => AssignUser(u.id) == (cell == 1)
  }

  function CellUsers(users: seq<User>, cell: nat): seq<User> {
    Filter(users, InCell(cell))
  }

  function One(u: User): real {
    1.0
  }

  /** What a user adds to the cell's k-th moment. */
  function MomentOf(k: nat): User -> real {
    match k
    case 0 => One
    case 1 => Noncommercial
    case 2 => Product(Noncommercial, Noncommercial)
    case 3 => Accepted
    case 4 => Product(Accepted, Accepted)
    case _ => Product(Noncommercial, Accepted)
  }

  ghost function Moment(users: seq<User>, cell: nat, k: nat): real {
    Sum(CellUsers(users, cell), MomentOf(k))
  }

  /** The table holds the six moments of both cells over these users. */
  ghost predicate Holds(stats: array2<real>, users: seq<User>)
    reads stats
  {
    && stats.Length0 == 2 && stats.Length1 == 6
    && forall cell, k :: 0 <= cell < 2 && 0 <= k < 6 ==> stats[cell, k] == Moment(users, cell, k)
  }

  lemma MomentConcat(a: seq<User>, b: seq<User>, cell: nat, k: nat)
    ensures Moment(a + b, cell, k) == Moment(a, cell, k) + Moment(b, cell, k)
  {
    hide MomentOf;
    FilterConcat(a, b, InCell(cell));
    SumConcat(CellUsers(a, cell), CellUsers(b, cell), MomentOf(k));
  }

  /** `stats[cell] += ...` for one cell. */
  method AddCell(stats: array2<real>, cell: nat, own: seq<User>)
    requires stats.Length0 == 2 && stats.Length1 == 6 && cell < 2
    modifies stats
    ensures forall c, k :: 0 <= c < 2 && 0 <= k < 6 ==>
        stats[c, k] == old(stats[c, k]) + if c == cell then Sum(own, MomentOf(k)) else 0.0
  {
    hide MomentOf, Sum;
    for k := 0 to 6
      invariant forall c, l :: 0 <= c < 2 && 0 <= l < 6 ==>
          stats[c, l] == old(stats[c, l]) + if c == cell && l < k then Sum(own, MomentOf(l)) else 0.0
    {
      stats[cell, k] := stats[cell, k] + Sum(own, MomentOf(k));
    }
  }

  /** One chunk of users. In whatever chunks the users come, the table holds the moments over all of them. */
  method Accumulate(stats: array2<real>, users: seq<User>, ghost before: seq<User>)
    requires Holds(stats, before)
    modifies stats
    ensures Holds(stats, before + users)
  {
    hide Moment;
    forall cell: nat, k: nat
      ensures Moment(before + users, cell, k) == Moment(before, cell, k) + Sum(CellUsers(users, cell), MomentOf(k))
    {
      MomentConcat(before, users, cell, k);
      MomentIsSum(users, cell, k);
    }
    AddCell(stats, 0, CellUsers(users, 0));
    AddCell(stats, 1, CellUsers(users, 1));
  }

  lemma MomentIsSum(users: seq<User>, cell: nat, k: nat)
    ensures Moment(users, cell, k) == Sum(CellUsers(users, cell), MomentOf(k))
  {
  }

  // ---------------------------------------------------------------------------------------------
  // Rendering.

  datatype Cell = Cell(users: real, meanX: real, varianceX: real, meanY: real, varianceY: real, covariance: real)

  /** A cell's statistics by their definitions. */
  function CellOf(own: seq<User>): Cell
    requires |own| >= 2
  {
    Cell(|own| as real, Mean(own, Noncommercial), Variance(own, Noncommercial), Mean(own, Accepted),
         Variance(own, Accepted), Covariance(own, Noncommercial, Accepted))
  }

  lemma {:induction false} CountIsLength(own: seq<User>)
    ensures Sum(own, One) == |own| as real
  {
    if own != [] {
      CountIsLength(own[..|own| - 1]);
    }
  }

  /** With fewer than two users a cell has no variance (the quotients are not finite); otherwise the running moments
      give exactly the statistics as defined. */
  method Render(stats: array2<real>, cell: nat, ghost users: seq<User>) returns (r: Option<Cell>)
    requires Holds(stats, users) && cell < 2
    ensures r.Some? <==> |CellUsers(users, cell)| >= 2
    ensures r.Some? ==> r.value == CellOf(CellUsers(users, cell))
  {
    hide CoMoment, Moment, CellOf;
    ghost var own := CellUsers(users, cell);
    MomentsOfCell(users, cell);
    CountIsLength(own);
    var n := stats[cell, 0];
    if n <= 1.0 {
      return None;
    }
    RenderedCell(own);
    var sumX, sumX2, sumY, sumY2, sumXY := stats[cell, 1], stats[cell, 2], stats[cell, 3], stats[cell, 4], stats[cell, 5];
    r := Some(Cell(n, sumX / n, CoMoment(n, sumX, sumX, sumX2), sumY / n, CoMoment(n, sumY, sumY, sumY2),
                   CoMoment(n, sumX, sumY, sumXY)));
  }

  lemma MomentsOfCell(users: seq<User>, cell: nat)
    ensures var own := CellUsers(users, cell);
      && Moment(users, cell, 0) == Sum(own, One) && Moment(users, cell, 1) == Sum(own, Noncommercial)
      && Moment(users, cell, 2) == Sum(own, Product(Noncommercial, Noncommercial))
      && Moment(users, cell, 3) == Sum(own, Accepted) && Moment(users, cell, 4) == Sum(own, Product(Accepted, Accepted))
      && Moment(users, cell, 5) == Sum(own, Product(Noncommercial, Accepted))
  {
  }

  lemma RenderedCell(own: seq<User>)
    requires |own| >= 2
    ensures var n, x, y := |own| as real, Sum(own, Noncommercial), Sum(own, Accepted);
      CellOf(own) == Cell(n, x / n, CoMoment(n, x, x, Sum(own, Product(Noncommercial, Noncommercial))), y / n,
                          CoMoment(n, y, y, Sum(own, Product(Accepted, Accepted))),
                          CoMoment(n, x, y, Sum(own, Product(Noncommercial, Accepted))))
  {
    CovarianceFromSums(own, Noncommercial, Noncommercial);
    CovarianceFromSums(own, Accepted, Accepted);
    CovarianceFromSums(own, Noncommercial, Accepted);
  }

  // ---------------------------------------------------------------------------------------------
  // Combining.

  datatype Effect = Effect(
    rate: real, controlMean: real, treatmentMean: real, lift: real, relativeLift: Option<real>, standardError: real,
    low: real, high: real, pValue: real)

  function MeanAt(c: Cell, rate: real): real {
    c.meanX + rate * c.meanY
  }

  function VarianceAt(c: Cell, rate: real): real {
    AtLeast(c.varianceX + rate * rate * c.varianceY + 2.0 * rate * c.covariance, 0.0)
  }

  function StandardError(numerics: Numerics, control: Cell, treatment: Cell, rate: real): real
    requires control.users > 0.0 && treatment.users > 0.0
  {
    numerics.sqrt(VarianceAt(control, rate) / control.users + VarianceAt(treatment, rate) / treatment.users)
  }

  function Estimate(numerics: Numerics, control: Cell, treatment: Cell, rate: real): Effect
    requires control.users > 0.0 && treatment.users > 0.0 && PositiveRoots(numerics)
  {
    var controlMean, treatmentMean := MeanAt(control, rate), MeanAt(treatment, rate);
    var lift := treatmentMean - controlMean;
    var error := StandardError(numerics, control, treatment, rate);
    Effect(rate, controlMean, treatmentMean, lift,
           if Abs(controlMean) > 0.000000000001 then Some(lift / controlMean) else None, error, lift - 1.96 * error,
           lift + 1.96 * error,
           numerics.erfc(Abs(lift / AtLeast(error, 0.000000000001)) / numerics.sqrt(2.0)))
  }

  /** The loop over the rates. */
  method Combine(numerics: Numerics, control: Cell, treatment: Cell, rates: seq<real>) returns (effects: seq<Effect>)
    requires control.users > 0.0 && treatment.users > 0.0 && PositiveRoots(numerics)
    ensures |effects| == |rates|
    ensures forall k :: 0 <= k < |rates| ==> effects[k] == Estimate(numerics, control, treatment, rates[k])
  {
    hide Estimate;
    effects := [];
    for i := 0 to |rates|
      invariant |effects| == i && forall k :: 0 <= k < i ==> effects[k] == Estimate(numerics, control, treatment, rates[k])
    {
      effects := effects + [Estimate(numerics, control, treatment, rates[i])];
    }
  }

  /** A user's value at an exchange rate. */
  function ValueAt(rate: real): User -> real {
    Combined(Noncommercial, Accepted, rate)
  }

  /** For every population and rate: the rebuilt mean and variance are the sample mean and variance of the users'
      values at that rate, so the clamp at zero never acts. */
  lemma RebuiltIsSample(own: seq<User>, rate: real)
    requires |own| >= 2
    ensures MeanAt(CellOf(own), rate) == Mean(own, ValueAt(rate))
    ensures VarianceAt(CellOf(own), rate) == Variance(own, ValueAt(rate))
    ensures var c := CellOf(own); c.varianceX + rate * rate * c.varianceY + 2.0 * rate * c.covariance >= 0.0
  {
    hide Covariance, Mean, Combined;
    CombinedVariance(own, Noncommercial, Accepted, rate);
    VarianceNonNegative(own, ValueAt(rate));
  }

  /** What sensitivity reports is the two-sample comparison of the users' values. */
  lemma EstimateIsTwoSample(numerics: Numerics, control: seq<User>, treatment: seq<User>, rate: real)
    requires |control| >= 2 && |treatment| >= 2 && PositiveRoots(numerics)
    ensures var e := Estimate(numerics, CellOf(control), CellOf(treatment), rate);
      && e.lift == Mean(treatment, ValueAt(rate)) - Mean(control, ValueAt(rate))
      && e.standardError == numerics.sqrt(Variance(control, ValueAt(rate)) / |control| as real
                                          + Variance(treatment, ValueAt(rate)) / |treatment| as real)
      && e.controlMean == Mean(control, ValueAt(rate)) && e.treatmentMean == Mean(treatment, ValueAt(rate))
  {
    hide Variance, Mean, ValueAt, Covariance, MeanAt, VarianceAt;
    RebuiltIsSample(control, rate);
    RebuiltIsSample(treatment, rate);
  }

  /** The interval is centred on the lift, 1.96 standard errors to either side; the relative lift is the lift in units of
      the control mean, unless that is next to zero. */
  lemma EstimateInterval(numerics: Numerics, control: Cell, treatment: Cell, rate: real)
    requires control.users > 0.0 && treatment.users > 0.0 && PositiveRoots(numerics)
    ensures var e := Estimate(numerics, control, treatment, rate);
      && e.rate == rate && e.low + e.high == 2.0 * e.lift && e.high - e.low == 3.92 * e.standardError
      && (e.standardError >= 0.000000000001 ==>
            e.pValue == numerics.erfc(Abs(e.lift / e.standardError) / numerics.sqrt(2.0)))
      && (e.relativeLift.None? <==> -0.000000000001 <= e.controlMean <= 0.000000000001)
      && (e.relativeLift.Some? ==> e.relativeLift.value * e.controlMean == e.lift)
  {
    hide MeanAt, StandardError;
    var controlMean, lift := MeanAt(control, rate), MeanAt(treatment, rate) - MeanAt(control, rate);
    if Abs(controlMean) > 0.000000000001 {
      var q := lift / controlMean;
      assert q * controlMean == lift;
    }
  }

  /** Exchanging the cells negates the lift and mirrors the interval; standard error and p-value stay. */
  lemma EstimateSwap(numerics: Numerics, control: Cell, treatment: Cell, rate: real)
    requires control.users > 0.0 && treatment.users > 0.0 && PositiveRoots(numerics)
    ensures var e, f := Estimate(numerics, control, treatment, rate), Estimate(numerics, treatment, control, rate);
      && f.lift == 0.0 - e.lift && f.low == 0.0 - e.high && f.high == 0.0 - e.low
      && f.standardError == e.standardError && f.pValue == e.pValue
  {
    assert StandardError(numerics, treatment, control, rate) == StandardError(numerics, control, treatment, rate);
    hide MeanAt, StandardError;
    QuotientNegated(MeanAt(treatment, rate) - MeanAt(control, rate),
                    AtLeast(StandardError(numerics, control, treatment, rate), 0.000000000001));
  }

  /** At the base rate a user is worth the long-term value, at rate zero that without the accepted commercialization. */
  lemma BaseRateIsValue(u: User)
    ensures ValueAt(1.0)(u) == u.ltValue && ValueAt(0.0)(u) == u.ltValue - u.accepted
  {
    var x: User -> real, y: User -> real := Noncommercial, Accepted;
    assert ValueAt(1.0)(u) == x(u) + 1.0 * y(u) && ValueAt(0.0)(u) == x(u) + 0.0 * y(u);
  }

  /** Treatment is the lower half of the user buckets, control the upper. */
  lemma CellsAre(users: seq<User>, u: User)
    ensures u in CellUsers(users, 1) <==> u in users && (u.id * 1_664_525 + 1_013_904_223) % 0x8000_0000 < 0x4000_0000
    ensures u in CellUsers(users, 0) <==> u in users && (u.id * 1_664_525 + 1_013_904_223) % 0x8000_0000 >= 0x4000_0000
  {
    FilterContains(users, InCell(1));
    FilterContains(users, InCell(0));
  }

  /** The break-even rate the launch report shows. */
  function BreakEven(zeroLift: real, oneLift: real): Option<real> {
    if Abs(oneLift - zeroLift) > 0.000000000001 then Some((0.0 - zeroLift) / (oneLift - zeroLift)) else None
  }

  function LiftAt(control: Cell, treatment: Cell, rate: real): real {
    MeanAt(treatment, rate) - MeanAt(control, rate)
  }

  /** The lift is affine in the rate, and zero at the break-even rate and nowhere else. */
  lemma LiftIsAffine(control: Cell, treatment: Cell, rate: real)
    ensures var zero, one := LiftAt(control, treatment, 0.0), LiftAt(control, treatment, 1.0);
      && LiftAt(control, treatment, rate) == zero + rate * (one - zero)
      && (BreakEven(zero, one).Some? ==> (LiftAt(control, treatment, rate) == 0.0 <==> rate == BreakEven(zero, one).value))
  {
    var zero, one := LiftAt(control, treatment, 0.0), LiftAt(control, treatment, 1.0);
    var x, y := treatment.meanX - control.meanX, treatment.meanY - control.meanY;
    assert zero == x && one - zero == y;
    assert LiftAt(control, treatment, rate) == x + rate * y;
    if BreakEven(zero, one).Some? {
      Root(x, y, rate);
    }
  }

  lemma Root(x: real, y: real, rate: real)
    requires y != 0.0
    ensures x + rate * y == 0.0 <==> rate == (0.0 - x) / y
  {
    var q := (0.0 - x) / y;
    assert q * y == 0.0 - x;
    if rate != q {
      assert (rate - q) * y != 0.0;
      assert (rate - q) * y == rate * y - q * y;
    }
  }
}
