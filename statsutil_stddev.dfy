/**
 * `statsutil/stddev.py`: population standard deviation by a single-pass
 * sum-of-squares accumulator.
 *
 * The script returns `(m2/n - (m/n)**2).sqrt()`, or `Decimal(0)` when there
 * is no input. Exact reals have no square root in Dafny, so `Stddev` returns
 * the radicand, the population variance; the script's result is its
 * non-negative square root, and `sqrt(0) = 0` covers the empty case.
 */
module StatsutilStddev {
  import Moments

  /** `stddev(iterable)`, up to the final square root. */
  method Stddev(xs: seq<real>) returns (radicand: real)
    ensures radicand == Moments.PopulationVariance(xs)
    ensures radicand >= 0.0
  {
    var m, m2 := 0.0, 0.0;
    var n := 0;
    for i := 0 to |xs|
      invariant m == Moments.Sum(xs[..i])
      invariant m2 == Moments.SumSq(xs[..i])
      invariant n == i
    {
      var v := xs[i];
      assert xs[..i + 1][..i] == xs[..i];
      m := m + v;
      m2 := m2 + v * v;
      n := n + 1;
    }
    assert xs[..|xs|] == xs;
    radicand := if n > 0 then m2 / n as real - (m / n as real) * (m / n as real) else 0.0;
    Moments.VarianceNonNegative(xs);
  }
}
