/**
 * The running accumulators of the standard-deviation scripts, stated as pure
 * functions over exact reals, and the population variance computed from them.
 */
module Moments {
  import Seqs

  /** The running sum `m` after reading `xs`. */
  function Sum(xs: seq<real>): (s: real)
  {
    if xs == [] then 0.0 else Sum(xs[..|xs| - 1]) + xs[|xs| - 1]
  }

  /** The running sum of squares `m2` after reading `xs`. */
  function SumSq(xs: seq<real>): (s: real)
  {
    if xs == [] then 0.0 else SumSq(xs[..|xs| - 1]) + xs[|xs| - 1] * xs[|xs| - 1]
  }

  /** The arithmetic mean of a non-empty input. */
  function Mean(xs: seq<real>): (a: real)
    requires xs != []
  {
    Sum(xs) / (|xs| as real)
  }

  /**
   * The radicand `m2/n - (m/n)**2` of the single-pass formula, and 0 for an
   * empty input.
   */
  function PopulationVariance(xs: seq<real>): (v: real)
  {
    if xs == [] then 0.0
    else
      var n := |xs| as real;
      SumSq(xs) / n - (Sum(xs) / n) * (Sum(xs) / n)
  }

  /** The two-pass reference: the sum of squared deviations from `a`. */
  function SquaredDeviations(xs: seq<real>, a: real): (d: real)
    ensures d >= 0.0
  {
    if xs == [] then 0.0
    else SquaredDeviations(xs[..|xs| - 1], a) + Square(xs[|xs| - 1] - a)
  }

  function Square(y: real): (r: real)
    ensures r >= 0.0
  {
    y * y
  }

  /** Expanding the squares: the deviations from `a` are `m2 - 2am + na²`,
      where `n` is the number of inputs as a real. */
  ghost predicate Expanded(xs: seq<real>, a: real, n: real)
  {
    SquaredDeviations(xs, a) == SumSq(xs) - 2.0 * a * Sum(xs) + n * a * a
  }

  lemma {:induction false} SquaredDeviationsExpand(xs: seq<real>, a: real, n: real)
    requires n == |xs| as real
    ensures Expanded(xs, a, n)
  {
    if xs == [] {
      assert n == 0.0;
    } else {
      SquaredDeviationsExpand(xs[..|xs| - 1], a, n - 1.0);
      ExpandStep(xs, a, n);
    }
  }

  /** One induction step of `SquaredDeviationsExpand`: one more input. */
  lemma ExpandStep(xs: seq<real>, a: real, n: real)
    requires xs != []
    requires Expanded(xs[..|xs| - 1], a, n - 1.0)
    ensures Expanded(xs, a, n)
  {
    var xs', x := xs[..|xs| - 1], xs[|xs| - 1];
    var d, q, s := SquaredDeviations(xs', a), SumSq(xs'), Sum(xs');
    assert SquaredDeviations(xs, a) == d + Square(x - a);
    assert SumSq(xs) == q + x * x;
    assert Sum(xs) == s + x;
    ExpandArith(d, q, s, n - 1.0, x, a);
  }

  lemma ExpandArith(d: real, q: real, s: real, n: real, x: real, a: real)
    requires d == q - 2.0 * a * s + n * a * a
    ensures d + Square(x - a) == (q + x * x) - 2.0 * a * (s + x) + (n + 1.0) * a * a
  {
  }

  /**
   * The single-pass radicand equals the mean squared deviation from the mean,
   * the textbook population variance.
   */
  lemma VarianceIsMeanSquaredDeviation(xs: seq<real>)
    requires xs != []
    ensures PopulationVariance(xs) == SquaredDeviations(xs, Mean(xs)) / (|xs| as real)
  {
    var n, a := |xs| as real, Mean(xs);
    var q, s, d, v := SumSq(xs), Sum(xs), SquaredDeviations(xs, a), PopulationVariance(xs);
    SquaredDeviationsExpand(xs, a, n);
    assert d == q - 2.0 * a * s + n * a * a;
    assert v == q / n - (s / n) * (s / n);
    CenterAtMean(q, s, n, a, d, v);
  }

  /** The arithmetic of `VarianceIsMeanSquaredDeviation`: centring at the mean
      `a = s/n` turns `(q - 2as + naa)/n` into `q/n - (s/n)²`. */
  lemma CenterAtMean(q: real, s: real, n: real, a: real, d: real, v: real)
    requires n > 0.0 && a == s / n
    requires d == q - 2.0 * a * s + n * a * a
    requires v == q / n - (s / n) * (s / n)
    ensures v == d / n
  {
    assert s == a * n;
    assert s / n == a;
    assert d == q - n * (a * a);
    assert q / n - a * a == (q - n * (a * a)) / n;
  }

  /** Over exact reals the radicand is never negative, so the square root
      of the exact value is defined. */
  lemma VarianceNonNegative(xs: seq<real>)
    ensures PopulationVariance(xs) >= 0.0
  {
    if xs != [] {
      VarianceIsMeanSquaredDeviation(xs);
    }
  }

  /** With no input the result is exactly 0. */
  lemma VarianceEmpty()
    ensures PopulationVariance([]) == 0.0
  {
  }

  /** What one more input adds to the accumulators. */
  lemma AppendOne(xs: seq<real>, x: real)
    ensures Sum(xs + [x]) == Sum(xs) + x
    ensures SumSq(xs + [x]) == SumSq(xs) + x * x
  {
    assert (xs + [x])[..|xs|] == xs;
  }

  lemma {:induction false} MomentsConcat(a: seq<real>, b: seq<real>)
    ensures Sum(a + b) == Sum(a) + Sum(b)
    ensures SumSq(a + b) == SumSq(a) + SumSq(b)
  {
    if b == [] {
      assert a + b == a;
    } else {
      assert (a + b)[..|a + b| - 1] == a + b[..|b| - 1];
      MomentsConcat(a, b[..|b| - 1]);
    }
  }

  /** The accumulators depend only on the multiset of inputs. */
  lemma {:induction false} MomentsPermutation(xs: seq<real>, ys: seq<real>)
    requires multiset(xs) == multiset(ys)
    ensures Sum(xs) == Sum(ys) && SumSq(xs) == SumSq(ys)
    decreases |xs|
  {
    if xs == [] {
      assert |ys| == |multiset(ys)| == 0;
    } else {
      var k := Seqs.RemoveLast(xs, ys);
      var xs' := xs[..|xs| - 1];
      MomentsPermutation(xs', ys[..k] + ys[k + 1..]);
      MomentsConcat(ys[..k] + [ys[k]], ys[k + 1..]);
      MomentsConcat(ys[..k], [ys[k]]);
      MomentsConcat(ys[..k], ys[k + 1..]);
      assert [ys[k]][..0] == [];
    }
  }

  /** Permuting the input does not change the variance. */
  lemma VariancePermutation(xs: seq<real>, ys: seq<real>)
    requires multiset(xs) == multiset(ys)
    ensures PopulationVariance(xs) == PopulationVariance(ys)
  {
    assert |xs| == |multiset(xs)| == |ys|;
    MomentsPermutation(xs, ys);
  }

  lemma {:induction false} ConstantMoments(xs: seq<real>, x: real)
    requires forall i :: 0 <= i < |xs| ==> xs[i] == x
    ensures Sum(xs) == (|xs| as real) * x
    ensures SquaredDeviations(xs, x) == 0.0
  {
    if xs != [] {
      ConstantMoments(xs[..|xs| - 1], x);
    }
  }

  /** An input of one value, repeated any number of times, has variance 0. */
  lemma VarianceConstant(xs: seq<real>, x: real)
    requires forall i :: 0 <= i < |xs| ==> xs[i] == x
    ensures PopulationVariance(xs) == 0.0
  {
    if xs != [] {
      ConstantMoments(xs, x);
      assert Mean(xs) == x;
      VarianceIsMeanSquaredDeviation(xs);
    }
  }

  /** The inputs 1..10: mean 5.5, mean of squares 38.5, variance 8.25. */
  lemma VarianceTenValues()
    ensures var xs := [1.0, 2.0, 3.0, 4.0, 5.0, 6.0, 7.0, 8.0, 9.0, 10.0];
      && Mean(xs) == 5.5
      && SumSq(xs) / 10.0 == 38.5
      && PopulationVariance(xs) == 8.25
  {
    var xs: seq<real> := [];
    AppendOne(xs, 1.0); xs := xs + [1.0];
    AppendOne(xs, 2.0); xs := xs + [2.0];
    AppendOne(xs, 3.0); xs := xs + [3.0];
    AppendOne(xs, 4.0); xs := xs + [4.0];
    AppendOne(xs, 5.0); xs := xs + [5.0];
    AppendOne(xs, 6.0); xs := xs + [6.0];
    AppendOne(xs, 7.0); xs := xs + [7.0];
    AppendOne(xs, 8.0); xs := xs + [8.0];
    AppendOne(xs, 9.0); xs := xs + [9.0];
    AppendOne(xs, 10.0); xs := xs + [10.0];
    assert xs == [1.0, 2.0, 3.0, 4.0, 5.0, 6.0, 7.0, 8.0, 9.0, 10.0];
  }
}
