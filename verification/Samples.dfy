/** Sample means, variances and covariances over `real`. */
module Samples {
  import opened Seqs

  /** Square root and complementary error function are foreign. */
  datatype Numerics = Numerics(sqrt: real -> real, erfc: real -> real)

  /** All that is asked of the square root: dividing by one is safe. */
  ghost predicate PositiveRoots(numerics: Numerics) {
    forall x: real :: x > 0.0 ==> numerics.sqrt(x) > 0.0
  }

  function Abs(x: real): real {
    if x < 0.0 then 0.0 - x else x
  }

  function AtLeast(x: real, floor: real): real {
    if x < floor then floor else x
  }

  function Mean<T>(s: seq<T>, value: T -> real): real
    requires s != []
  {
    Sum(s, value) / |s| as real
  }

  function CoDeviation<T>(f: T -> real, a: real, g: T -> real, b: real): T -> real {
    (x: T) => (f(x) - a) * (g(x) - b)
  }

  /** With n - 1 degrees of freedom. */
  function Covariance<T>(s: seq<T>, f: T -> real, g: T -> real): real
    requires |s| >= 2
  {
    Sum(s, CoDeviation(f, Mean(s, f), g, Mean(s, g))) / (|s| as real - 1.0)
  }

  function Variance<T>(s: seq<T>, value: T -> real): real
    requires |s| >= 2
  {
    Covariance(s, value, value)
  }

  function Product<T>(f: T -> real, g: T -> real): T -> real {
    (x: T) => f(x) * g(x)
  }

  /** f + r * g. */
  function Combined<T>(f: T -> real, g: T -> real, r: real): T -> real {
    (x: T) => f(x) + r * g(x)
  }

  /** A variance or covariance as the code gets it from running sums. */
  function CoMoment(n: real, fs: real, gs: real, products: real): real
    requires n > 1.0
  {
    (products - fs * gs / n) / (n - 1.0)
  }

  /** The sum of products of deviations from a and b, from the running sums. */
  function Spread(products: real, fs: real, gs: real, n: real, a: real, b: real): real {
    products - a * gs - b * fs + n * (a * b)
  }

  lemma OneMore(f: real, g: real, products: real, fs: real, gs: real, n: real, a: real, b: real)
    ensures Spread(products, fs, gs, n, a, b) + (f - a) * (g - b)
         == Spread(products + f * g, fs + f, gs + g, n + 1.0, a, b)
  {
    assert (f - a) * (g - b) == f * g - a * g - b * f + a * b;
    assert a * (gs + g) == a * gs + a * g;
    assert b * (fs + f) == b * fs + b * f;
    assert (n + 1.0) * (a * b) == n * (a * b) + a * b;
  }

  lemma OneMoreAt<T>(x: T, f: T -> real, a: real, g: T -> real, b: real, products: real, fs: real, gs: real, n: real)
    ensures Spread(products, fs, gs, n, a, b) + CoDeviation(f, a, g, b)(x)
         == Spread(products + Product(f, g)(x), fs + f(x), gs + g(x), n + 1.0, a, b)
  {
    OneMore(f(x), g(x), products, fs, gs, n, a, b);
  }

  lemma NoneYet(a: real, b: real)
    ensures Spread(0.0, 0.0, 0.0, 0.0, a, b) == 0.0
  {
  }

  lemma {:induction false} DeviationSum<T>(s: seq<T>, f: T -> real, a: real, g: T -> real, b: real)
    ensures Sum(s, CoDeviation(f, a, g, b)) == Spread(Sum(s, Product(f, g)), Sum(s, f), Sum(s, g), |s| as real, a, b)
  {
    if s == [] {
      NoneYet(a, b);
    } else {
      hide Spread, CoDeviation, Product;
      var front, last := s[..|s| - 1], s[|s| - 1];
      DeviationSum(front, f, a, g, b);
      OneMoreAt(last, f, a, g, b, Sum(front, Product(f, g)), Sum(front, f), Sum(front, g), |front| as real);
      assert |s| as real == |front| as real + 1.0;
    }
  }

  lemma SpreadAtMeans(products: real, fs: real, gs: real, n: real)
    requires n > 0.0
    ensures Spread(products, fs, gs, n, fs / n, gs / n) == products - fs * gs / n
  {
    var a, b := fs / n, gs / n;
    assert a * n == fs && b * n == gs;
    assert b * fs == n * (a * b) by {
      assert b * (a * n) == n * (a * b);
    }
    assert fs * gs / n == a * gs by {
      assert (a * gs) * n == (a * n) * gs;
      QuotientIs(fs * gs, n, a * gs);
    }
  }

  lemma QuotientIs(a: real, b: real, q: real)
    requires b > 0.0 && q * b == a
    ensures a / b == q
  {
  }

  lemma QuotientNegated(a: real, b: real)
    requires b > 0.0
    ensures Abs((0.0 - a) / b) == Abs(a / b)
  {
    var q := a / b;
    assert q * b == a;
    assert (0.0 - a) / b == 0.0 - q by {
      QuotientIs(0.0 - a, b, 0.0 - q);
    }
  }

  lemma NonNegativeQuotient(a: real, b: real)
    requires a >= 0.0 && b > 0.0
    ensures a / b >= 0.0
  {
  }

  lemma SquareNonNegative(x: real)
    ensures x * x >= 0.0
  {
  }

  /** The running sums give the covariance as defined. */
  lemma CovarianceFromSums<T>(s: seq<T>, f: T -> real, g: T -> real)
    requires |s| >= 2
    ensures Covariance(s, f, g) == CoMoment(|s| as real, Sum(s, f), Sum(s, g), Sum(s, Product(f, g)))
  {
    hide Spread, Sum, Product, CoDeviation, CoMoment;
    var n, a, b := |s| as real, Mean(s, f), Mean(s, g);
    DeviationSum(s, f, a, g, b);
    CoMomentAtMeans(Sum(s, Product(f, g)), Sum(s, f), Sum(s, g), n);
  }

  lemma CoMomentAtMeans(products: real, fs: real, gs: real, n: real)
    requires n > 1.0
    ensures Spread(products, fs, gs, n, fs / n, gs / n) / (n - 1.0) == CoMoment(n, fs, gs, products)
  {
    SpreadAtMeans(products, fs, gs, n);
  }

  lemma VarianceNonNegative<T>(s: seq<T>, value: T -> real)
    requires |s| >= 2
    ensures Variance(s, value) >= 0.0
  {
    var m := Mean(s, value);
    var squared := CoDeviation(value, m, value, m);
    forall x | x in s ensures squared(x) >= 0.0 {
      SquareNonNegative(value(x) - m);
    }
    SumNonNegative(s, squared);
    NonNegativeQuotient(Sum(s, squared), |s| as real - 1.0);
  }

  lemma {:induction false} SumOfThree<T>(s: seq<T>, total: T -> real, a: T -> real, b: T -> real, c: T -> real, p: real,
                                         q: real)
    requires forall x :: x in s ==> total(x) == a(x) + p * b(x) + q * c(x)
    ensures Sum(s, total) == Sum(s, a) + p * Sum(s, b) + q * Sum(s, c)
  {
    if s != [] {
      var front, last := s[..|s| - 1], s[|s| - 1];
      SumOfThree(front, total, a, b, c, p, q);
      assert last in s;
      Distribute(p, Sum(front, b), b(last));
      Distribute(q, Sum(front, c), c(last));
    }
  }

  lemma Distribute(p: real, a: real, b: real)
    ensures p * (a + b) == p * a + p * b
  {
  }

  lemma CombinedSquare(x: real, y: real, r: real)
    ensures (x + r * y) * (x + r * y) == x * x + r * r * (y * y) + 2.0 * r * (x * y)
  {
    assert (x + r * y) * (x + r * y) == x * x + x * (r * y) + (r * y) * x + (r * y) * (r * y);
    assert (r * y) * (r * y) == r * r * (y * y);
    assert x * (r * y) == r * (x * y) && (r * y) * x == r * (x * y);
  }

  lemma CombinedSums<T>(s: seq<T>, f: T -> real, g: T -> real, r: real)
    ensures Sum(s, Combined(f, g, r)) == Sum(s, f) + r * Sum(s, g)
    ensures var z := Combined(f, g, r);
      Sum(s, Product(z, z)) == Sum(s, Product(f, f)) + r * r * Sum(s, Product(g, g)) + 2.0 * r * Sum(s, Product(f, g))
  {
    var z := Combined(f, g, r);
    SumOfThree(s, z, f, g, g, r, 0.0);
    CombinedSquares(s, f, g, r);
  }

  lemma CombinedSquareAt<T>(f: T -> real, g: T -> real, r: real, x: T)
    ensures var z := Combined(f, g, r);
      Product(z, z)(x) == Product(f, f)(x) + r * r * Product(g, g)(x) + 2.0 * r * Product(f, g)(x)
  {
    CombinedSquare(f(x), g(x), r);
  }

  lemma CombinedSquares<T>(s: seq<T>, f: T -> real, g: T -> real, r: real)
    ensures var z := Combined(f, g, r);
      Sum(s, Product(z, z)) == Sum(s, Product(f, f)) + r * r * Sum(s, Product(g, g)) + 2.0 * r * Sum(s, Product(f, g))
  {
    var z := Combined(f, g, r);
    forall x ensures Product(z, z)(x) == Product(f, f)(x) + r * r * Product(g, g)(x) + 2.0 * r * Product(f, g)(x) {
      CombinedSquareAt(f, g, r, x);
    }
    hide Product, Combined, Sum;
    SumOfThree(s, Product(z, z), Product(f, f), Product(g, g), Product(f, g), r * r, 2.0 * r);
  }

  lemma CombinedCoMoment(n: real, f: real, g: real, ff: real, gg: real, fg: real, r: real, z: real, zz: real)
    requires n > 1.0 && z == f + r * g && zz == ff + r * r * gg + 2.0 * r * fg
    ensures CoMoment(n, z, z, zz)
         == CoMoment(n, f, f, ff) + r * r * CoMoment(n, g, g, gg) + 2.0 * r * CoMoment(n, f, g, fg)
  {
    CombinedSquare(f, g, r);
    Split3(z * z, f * f, g * g, f * g, r * r, 2.0 * r, n);
    var a, b, c := ff - f * f / n, gg - g * g / n, fg - f * g / n;
    assert r * r * b == r * r * gg - r * r * (g * g / n);
    assert 2.0 * r * c == 2.0 * r * fg - 2.0 * r * (f * g / n);
    Split3(a + r * r * b + 2.0 * r * c, a, b, c, r * r, 2.0 * r, n - 1.0);
  }

  /** Division distributes over a + p * b + q * c. */
  lemma Split3(total: real, a: real, b: real, c: real, p: real, q: real, n: real)
    requires n > 0.0 && total == a + p * b + q * c
    ensures total / n == a / n + p * (b / n) + q * (c / n)
  {
    var x, y, z := a / n, b / n, c / n;
    assert x * n == a && y * n == b && z * n == c;
    assert (x + p * y + q * z) * n == a + p * b + q * c by {
      assert (p * y) * n == p * b && (q * z) * n == q * c by {
        assert (p * y) * n == p * (y * n);
        assert (q * z) * n == q * (z * n);
      }
    }
    QuotientIs(total, n, x + p * y + q * z);
  }

  /** Mean and variance of f + r * g from those of f and g and their covariance. */
  lemma CombinedVariance<T>(s: seq<T>, f: T -> real, g: T -> real, r: real)
    requires |s| >= 2
    ensures Mean(s, Combined(f, g, r)) == Mean(s, f) + r * Mean(s, g)
    ensures Variance(s, Combined(f, g, r)) == Variance(s, f) + r * r * Variance(s, g) + 2.0 * r * Covariance(s, f, g)
  {
    hide CoMoment, Covariance, Sum, Product, Combined;
    var z := Combined(f, g, r);
    CombinedSums(s, f, g, r);
    CovarianceFromSums(s, z, z);
    CovarianceFromSums(s, f, f);
    CovarianceFromSums(s, g, g);
    CovarianceFromSums(s, f, g);
    var ff, gg, fg := Sum(s, Product(f, f)), Sum(s, Product(g, g)), Sum(s, Product(f, g));
    CombinedCoMoment(|s| as real, Sum(s, f), Sum(s, g), ff, gg, fg, r, Sum(s, z), Sum(s, Product(z, z)));
    Split3(Sum(s, z), Sum(s, f), Sum(s, g), 0.0, r, 0.0, |s| as real);
  }
}
