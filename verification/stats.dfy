/** Sums, means and the sample (n - 1) variance and standard deviation over exact reals. */
module Stats {
  import opened Wrappers

  /** Number of rows in the trailing rolling window. */
  const Window: nat := 30

  /** The normal quantile used for every 95% band. */
  const Z: real := 1.96

  function Sum(xs: seq<real>): real
  {
    if |xs| == 0 then 0.0 else Sum(xs[..|xs| - 1]) + xs[|xs| - 1]
  }

  function SumSq(xs: seq<real>): real
  {
    if |xs| == 0 then 0.0 else SumSq(xs[..|xs| - 1]) + xs[|xs| - 1] * xs[|xs| - 1]
  }

  lemma SumSnoc(xs: seq<real>, x: real)
    ensures Sum(xs + [x]) == Sum(xs) + x
  {
    assert (xs + [x])[..|xs|] == xs;
  }

  lemma SumSqSnoc(xs: seq<real>, x: real)
    ensures SumSq(xs + [x]) == SumSq(xs) + x * x
  {
    assert (xs + [x])[..|xs|] == xs;
  }

  /** Keeping the trailing `n` values before appending one more loses nothing of the trailing `n` after. */
  lemma LastNSnoc<T>(s: seq<T>, x: T, n: nat)
    requires n >= 1
    ensures LastN(LastN(s, n) + [x], n) == LastN(s + [x], n)
  {
  }

  /** Sum of squared deviations from `m`. */
  function SumSqDev(xs: seq<real>, m: real): real
  {
    if |xs| == 0 then 0.0
    else SumSqDev(xs[..|xs| - 1], m) + (xs[|xs| - 1] - m) * (xs[|xs| - 1] - m)
  }

  /** Arithmetic mean; the mean of nothing is NaN. */
  function Mean(xs: seq<real>): Option<real>
  {
    if |xs| == 0 then None else Some(Sum(xs) / (|xs| as real))
  }

  /** The sample variance of `n` values whose squared deviations from their mean sum to `dev`. */
  function Bessel(n: nat, dev: real): real
    requires n >= 2
  {
    dev / (n - 1) as real
  }

  /** Sample variance, dividing by n - 1. */
  function SampleVariance(xs: seq<real>): real
    requires |xs| >= 2
  {
    Bessel(|xs|, SumSqDev(xs, Sum(xs) / (|xs| as real)))
  }

  /** `y` is the non-negative square root of `x`. */
  predicate IsRootOf(y: real, x: real)
  {
    0.0 <= y && y * y == x
  }

  /** `root` returns the non-negative square root of every non-negative real. */
  ghost predicate IsSquareRoot(root: real -> real)
  {
    forall x :: 0.0 <= x ==> IsRootOf(root(x), x)
  }

  /**
   * Sample standard deviation through the square-root function `root`; NaN for
   * fewer than two values (pandas divides by n - 1 = 0 and yields NaN).
   */
  function SampleStd(xs: seq<real>, root: real -> real): Option<real>
  {
    if |xs| < 2 then None else Some(root(SampleVariance(xs)))
  }

  /** The trailing `n` elements of `s`, or all of `s` when it is shorter. */
  function LastN<T>(s: seq<T>, n: nat): (r: seq<T>)
    ensures |r| == if |s| <= n then |s| else n
    ensures r == s[|s| - |r|..]
  {
    if |s| <= n then s else s[|s| - n..]
  }

  lemma {:induction false} SumSqDevNonNegative(xs: seq<real>, m: real)
    ensures SumSqDev(xs, m) >= 0.0
  {
    if |xs| > 0 {
      var d := xs[|xs| - 1] - m;
      SumSqDevNonNegative(xs[..|xs| - 1], m);
      assert d * d >= 0.0;
    }
  }

  lemma {:induction false} SumSqDevExpand(xs: seq<real>, m: real)
    ensures SumSqDev(xs, m) == SumSq(xs) - 2.0 * m * Sum(xs) + (|xs| as real) * m * m
  {
    if |xs| > 0 {
      var p, x := xs[..|xs| - 1], xs[|xs| - 1];
      SumSqDevExpand(p, m);
      assert (x - m) * (x - m) == x * x - 2.0 * m * x + m * m;
      assert (|xs| as real) * m * m == (|p| as real) * m * m + m * m;
      assert 2.0 * m * Sum(xs) == 2.0 * m * Sum(p) + 2.0 * m * x;
    }
  }

  /** The sample variance computed from the running moments count, sum and sum of squares. */
  function VarianceOfMoments(n: nat, sum: real, sumSq: real): real
    requires n >= 2
  {
    Bessel(n, sumSq - sum * sum / (n as real))
  }

  /**
   * `dev` is the sum of squared deviations from `m` of `n` values with sum `s`
   * and sum of squares `q`, written out.
   */
  predicate IsExpandedDev(dev: real, n: nat, s: real, q: real, m: real)
  {
    dev == q - 2.0 * m * s + (n as real) * m * m
  }

  /** Algebra behind the moment formula: with m = s / n, q - 2ms + nm^2 = q - s^2 / n. */
  lemma MomentAlgebra(n: nat, s: real, q: real, m: real, dev: real)
    requires n >= 2
    requires m == s / (n as real)
    requires IsExpandedDev(dev, n, s, q, m)
    ensures Bessel(n, dev) == VarianceOfMoments(n, s, q)
  {
    assert m * (n as real) == s;
    assert (n as real) * m * m == s * m;
    assert s * s / (n as real) == s * m;
    assert dev == q - s * s / (n as real);
  }

  /** The moment formula agrees with the two-pass definition of the sample variance. */
  lemma VarianceFromMoments(xs: seq<real>)
    requires |xs| >= 2
    ensures SampleVariance(xs) == VarianceOfMoments(|xs|, Sum(xs), SumSq(xs))
  {
    var m := Sum(xs) / (|xs| as real);
    assert IsExpandedDev(SumSqDev(xs, m), |xs|, Sum(xs), SumSq(xs), m) by {
      SumSqDevExpand(xs, m);
    }
    MomentAlgebra(|xs|, Sum(xs), SumSq(xs), m, SumSqDev(xs, m));
  }

  /** Under a true square root the sample std is non-negative and squares to the sample variance. */
  lemma SampleStdSquares(xs: seq<real>, root: real -> real)
    requires IsSquareRoot(root)
    ensures SampleStd(xs, root).None? <==> |xs| < 2
    ensures |xs| >= 2 ==> IsRootOf(SampleStd(xs, root).value, SampleVariance(xs))
  {
    if |xs| >= 2 {
      SumSqDevNonNegative(xs, Sum(xs) / (|xs| as real));
      assert SampleVariance(xs) >= 0.0;
    }
  }
}
