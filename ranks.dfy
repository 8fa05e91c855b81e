/**
 * Nearest-rank selection over a multiset of exact decimal values, stated as
 * pure functions. Both copies of the `percentile` script are proved against
 * these definitions.
 *
 * Values are Dafny `real`s, exact rationals, in place of Python's `Decimal`;
 * numerically equal inputs (`1.0` and `1`) are therefore one and the same key.
 */
module Ranks {
  import opened Wrappers
  import Seqs

  /** The cumulative count at `v`: how many inputs are at most `v`. */
  function CountLE(xs: seq<real>, v: real): (c: nat)
    ensures c <= |xs|
  {
    if xs == [] then 0
    else CountLE(xs[..|xs| - 1], v) + (if xs[|xs| - 1] <= v then 1 else 0)
  }

  /**
   * The rank cutoff `int(n * (p / 100))`: Python's `int` truncates the exact
   * rational `n * p / 100` toward zero, which is `floor(n * p / 100)` for
   * every `p >= 0`.
   */
  function Cutoff(n: nat, p: int): (c: int)
    ensures n * p >= 0 ==> 100 * c <= n * p < 100 * (c + 1)
    ensures n * p < 0 ==> 100 * (c - 1) < n * p <= 100 * c
    ensures 1 <= p <= 99 && n >= 1 ==> 0 <= c < n
  {
    if n * p >= 0 then (n * p) / 100 else -((-(n * p)) / 100)
  }

  /** The nearest-rank contract: `v` is observed, its cumulative count exceeds
      the cutoff, and no smaller observed value's does. */
  ghost predicate IsNearestRank(xs: seq<real>, cutoff: int, v: real)
    ensures IsNearestRank(xs, cutoff, v) ==> cutoff < |xs|
  {
    && v in xs
    && CountLE(xs, v) > cutoff
    && forall w :: w in xs && w < v ==> CountLE(xs, w) <= cutoff
  }

  /** The largest input. */
  function Max(xs: seq<real>): (m: real)
    requires xs != []
    ensures m in xs
    ensures forall i :: 0 <= i < |xs| ==> xs[i] <= m
  {
    if |xs| == 1 then xs[0]
    else
      var m' := Max(xs[..|xs| - 1]);
      if xs[|xs| - 1] > m' then xs[|xs| - 1] else m'
  }

  /** The smallest input. */
  function Min(xs: seq<real>): (m: real)
    requires xs != []
    ensures m in xs
    ensures forall i :: 0 <= i < |xs| ==> m <= xs[i]
  {
    if |xs| == 1 then xs[0]
    else
      var m' := Min(xs[..|xs| - 1]);
      if xs[|xs| - 1] < m' then xs[|xs| - 1] else m'
  }

  /**
   * A reference selection that does not sort: the least candidate whose
   * cumulative count in `xs` exceeds `cutoff`, or `None` if there is none.
   */
  function LeastQualifying(cands: seq<real>, xs: seq<real>, cutoff: int): (r: Option<real>)
    ensures r.None? <==> forall i :: 0 <= i < |cands| ==> CountLE(xs, cands[i]) <= cutoff
    ensures r.Some? ==> r.value in cands && CountLE(xs, r.value) > cutoff
    ensures r.Some? ==> forall i :: 0 <= i < |cands| && CountLE(xs, cands[i]) > cutoff ==> r.value <= cands[i]
  {
    if cands == [] then None
    else
      var v := cands[|cands| - 1];
      var best := LeastQualifying(cands[..|cands| - 1], xs, cutoff);
      assert cands == cands[..|cands| - 1] + [v];
      if CountLE(xs, v) <= cutoff then best
      else if best.Some? && best.value <= v then best
      else Some(v)
  }

  /**
   * The k-th percentile by nearest rank: the least observed value whose
   * cumulative count exceeds `floor(n * p / 100)`, and `None` exactly when no
   * value reaches that far.
   */
  function NearestRank(xs: seq<real>, p: int): (r: Option<real>)
    ensures r.None? <==> |xs| <= Cutoff(|xs|, p)
    ensures r.Some? ==> IsNearestRank(xs, Cutoff(|xs|, p), r.value)
  {
    var cutoff := Cutoff(|xs|, p);
    var r := LeastQualifying(xs, xs, cutoff);
    if xs == [] then r
    else
      // the largest input has every input below it
      CountLEAll(xs, Max(xs));
      r
  }

  /** Every input is at most `v`, so all of them count. */
  lemma {:induction false} CountLEAll(xs: seq<real>, v: real)
    requires forall i :: 0 <= i < |xs| ==> xs[i] <= v
    ensures CountLE(xs, v) == |xs|
  {
    if xs != [] {
      assert xs == xs[..|xs| - 1] + [xs[|xs| - 1]];
      CountLEAll(xs[..|xs| - 1], v);
    }
  }

  /** At (or below) the smallest input, the cumulative count is the multiplicity. */
  lemma {:induction false} CountLEAtMin(xs: seq<real>, b: real)
    requires forall i :: 0 <= i < |xs| ==> b <= xs[i]
    ensures CountLE(xs, b) == multiset(xs)[b]
  {
    if xs != [] {
      var xs', x := xs[..|xs| - 1], xs[|xs| - 1];
      assert xs == xs' + [x];
      CountLEAtMin(xs', b);
    }
  }

  /**
   * Between two values with no input strictly between them, the cumulative
   * count grows by exactly the multiplicity of the larger one.
   */
  lemma {:induction false} CountLEGap(xs: seq<real>, a: real, b: real)
    requires a < b
    requires forall i :: 0 <= i < |xs| ==> xs[i] <= a || b <= xs[i]
    ensures CountLE(xs, b) == CountLE(xs, a) + multiset(xs)[b]
  {
    if xs != [] {
      var xs', x := xs[..|xs| - 1], xs[|xs| - 1];
      assert xs == xs' + [x];
      CountLEGap(xs', a, b);
    }
  }

  lemma {:induction false} CountLEConcat(a: seq<real>, b: seq<real>, v: real)
    ensures CountLE(a + b, v) == CountLE(a, v) + CountLE(b, v)
  {
    if b == [] {
      assert a + b == a;
    } else {
      assert (a + b)[..|a + b| - 1] == a + b[..|b| - 1];
      CountLEConcat(a, b[..|b| - 1], v);
    }
  }

  /** The cumulative count depends only on the multiset of inputs. */
  lemma {:induction false} CountLEPermutation(xs: seq<real>, ys: seq<real>, v: real)
    requires multiset(xs) == multiset(ys)
    ensures CountLE(xs, v) == CountLE(ys, v)
    decreases |xs|
  {
    if xs == [] {
      assert |ys| == |multiset(ys)| == 0;
    } else {
      var k := Seqs.RemoveLast(xs, ys);
      var xs' := xs[..|xs| - 1];
      assert xs == xs' + [xs[|xs| - 1]];
      CountLEPermutation(xs', ys[..k] + ys[k + 1..], v);
      CountLEConcat(ys[..k] + [ys[k]], ys[k + 1..], v);
      CountLEConcat(ys[..k], [ys[k]], v);
      CountLEConcat(ys[..k], ys[k + 1..], v);
      assert [ys[k]][..0] == [];
    }
  }

  /** At most one value meets the nearest-rank contract. */
  lemma NearestRankUnique(xs: seq<real>, cutoff: int, v1: real, v2: real)
    requires IsNearestRank(xs, cutoff, v1) && IsNearestRank(xs, cutoff, v2)
    ensures v1 == v2
  {
  }

  /** With no input there is no percentile, whatever `p` is. */
  lemma NearestRankEmpty(p: int)
    ensures NearestRank([], p) == None
  {
  }

  /** For every valid `p`, a non-empty input has a percentile, and it is one
      of the inputs, never an interpolation between two. */
  lemma NearestRankObserved(xs: seq<real>, p: int)
    requires xs != [] && 1 <= p <= 99
    ensures NearestRank(xs, p).Some?
    ensures NearestRank(xs, p).value in xs
  {
  }

  /** Permuting the input does not change the percentile. */
  lemma NearestRankPermutation(xs: seq<real>, ys: seq<real>, p: int)
    requires multiset(xs) == multiset(ys)
    ensures NearestRank(xs, p) == NearestRank(ys, p)
  {
    assert |xs| == |multiset(xs)| == |ys|;
    var cutoff := Cutoff(|xs|, p);
    forall w ensures CountLE(xs, w) == CountLE(ys, w) {
      CountLEPermutation(xs, ys, w);
    }
    forall v ensures IsNearestRank(xs, cutoff, v) <==> IsNearestRank(ys, cutoff, v) {
      assert forall w :: w in xs <==> w in ys by {
        forall w ensures w in xs <==> w in ys {
          assert w in xs <==> w in multiset(xs);
        }
      }
    }
    var r1, r2 := NearestRank(xs, p), NearestRank(ys, p);
    if r1.Some? {
      NearestRankUnique(xs, cutoff, r1.value, r2.value);
    }
  }

  /** An input of one value, possibly repeated, has that value as every
      percentile. */
  lemma NearestRankConstant(xs: seq<real>, x: real, p: int)
    requires xs != [] && 1 <= p <= 99
    requires forall i :: 0 <= i < |xs| ==> xs[i] == x
    ensures NearestRank(xs, p) == Some(x)
  {
    NearestRankObserved(xs, p);
  }

  /** While the cutoff is 0 (for instance p = 1 and fewer than 100 inputs),
      the percentile is the minimum. */
  lemma NearestRankMinimum(xs: seq<real>, p: int)
    requires xs != [] && Cutoff(|xs|, p) == 0
    ensures NearestRank(xs, p) == Some(Min(xs))
  {
    var m := Min(xs);
    CountLEAtMin(xs, m);
    assert m in multiset(xs);
    assert IsNearestRank(xs, 0, m);
    NearestRankUnique(xs, 0, m, NearestRank(xs, p).value);
  }

  /** The inputs 1..10 at p = 95: the cutoff is 9 and the result is 10. */
  lemma NearestRankTenValues()
    ensures Cutoff(10, 95) == 9
    ensures NearestRank([1.0, 2.0, 3.0, 4.0, 5.0, 6.0, 7.0, 8.0, 9.0, 10.0], 95) == Some(10.0)
  {
    var xs := [1.0, 2.0, 3.0, 4.0, 5.0, 6.0, 7.0, 8.0, 9.0, 10.0];
    assert Cutoff(10, 95) == 9;
    CountLEAll(xs, 10.0);
    assert xs == xs[..9] + [10.0];
    forall w | w in xs && w < 10.0 ensures CountLE(xs, w) <= 9 {
      assert CountLE(xs, w) == CountLE(xs[..9], w);
    }
    assert IsNearestRank(xs, 9, 10.0);
    NearestRankUnique(xs, 9, 10.0, NearestRank(xs, 95).value);
  }
}
