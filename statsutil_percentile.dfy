/**
 * `statsutil/percentile.py`: the k-th percentile by nearest rank.
 *
 * `Percentile` is the function `percentile`: a first loop tallies the inputs
 * into a frequency table (`Tally`), a second walks the distinct values in
 * ascending order (`SortedKeys` stands for Python's `sorted`) with a running
 * cumulative count and returns the first value whose count passes the cutoff.
 * `ValidPercentile` is the range check the command line applies to `-p`.
 */
module StatsutilPercentile {
  import opened Wrappers
  import opened Ranks

  /** `vals` maps each distinct input to its number of occurrences. */
  ghost predicate IsFrequencyTable(vals: map<real, nat>, xs: seq<real>)
  {
    && (forall v :: v in vals <==> v in xs)
    && (forall v :: v in vals ==> vals[v] == multiset(xs)[v])
  }

  predicate StrictlyIncreasing(ks: seq<real>)
  {
    forall i, j :: 0 <= i < j < |ks| ==> ks[i] < ks[j]
  }

  /** `ks` holds exactly the keys of `vals`. */
  ghost predicate ListsKeys(ks: seq<real>, vals: map<real, nat>)
  {
    && (forall i :: 0 <= i < |ks| ==> ks[i] in vals)
    && (forall v :: v in vals ==> v in ks)
  }

  /** `ks` lists the keys of `vals` in ascending order, each once. */
  ghost predicate SortedListing(ks: seq<real>, vals: map<real, nat>)
  {
    StrictlyIncreasing(ks) && ListsKeys(ks, vals)
  }

  /** The counts of the keys `ks`, added up. */
  function TotalCount(vals: map<real, nat>, ks: seq<real>): (total: nat)
    requires forall i :: 0 <= i < |ks| ==> ks[i] in vals
  {
    if ks == [] then 0 else TotalCount(vals, ks[..|ks| - 1]) + vals[ks[|ks| - 1]]
  }

  /** No value occurs twice. */
  predicate Distinct(ks: seq<real>)
  {
    forall i, j :: 0 <= i < j < |ks| ==> ks[i] != ks[j]
  }

  /**
   * The first loop: `vals[v] += 1` on a `defaultdict(int)` and `n += 1`.
   * A Python dictionary also remembers its keys in insertion order; `keys`
   * is that order, the sequence `vals.keys()` yields.
   */
  method Tally(xs: seq<real>) returns (vals: map<real, nat>, keys: seq<real>, n: nat)
    ensures IsFrequencyTable(vals, xs)
    ensures Distinct(keys) && ListsKeys(keys, vals)
    ensures n == |xs|
  {
    vals, keys, n := map[], [], 0;
    for i := 0 to |xs|
      invariant IsFrequencyTable(vals, xs[..i])
      invariant Distinct(keys) && ListsKeys(keys, vals)
      invariant n == i
    {
      var v := xs[i];
      assert xs[..i + 1] == xs[..i] + [v];
      if v !in vals {
        keys := keys + [v];
      }
      vals := vals[v := (if v in vals then vals[v] else 0) + 1];
      n := n + 1;
    }
    assert xs[..|xs|] == xs;
  }

  /** Puts `v` into the ascending sequence `ks` at its place. */
  method Insert(ks: seq<real>, v: real) returns (ks': seq<real>)
    requires StrictlyIncreasing(ks) && v !in ks
    ensures StrictlyIncreasing(ks')
    ensures |ks'| == |ks| + 1
    ensures forall w :: w in ks' <==> w in ks || w == v
  {
    var i := 0;
    while i < |ks| && ks[i] < v
      invariant 0 <= i <= |ks|
      invariant forall k :: 0 <= k < i ==> ks[k] < v
    {
      i := i + 1;
    }
    assert forall k :: i <= k < |ks| ==> v < ks[k] by {
      forall k | i <= k < |ks| ensures v < ks[k] {
        assert ks[i] in ks && ks[k] in ks;
      }
    }
    ks' := ks[..i] + [v] + ks[i..];
    assert forall k :: 0 <= k < |ks'| ==> ks'[k] == (if k < i then ks[k] else if k == i then v else ks[k - 1]);
    assert forall w :: w in ks <==> w in ks[..i] || w in ks[i..] by {
      assert ks == ks[..i] + ks[i..];
    }
  }

  /** `sorted(keys)` of a dictionary's keys: the same values, ascending. */
  method SortedKeys(keys: seq<real>) returns (ks: seq<real>)
    requires Distinct(keys)
    ensures StrictlyIncreasing(ks)
    ensures forall v :: v in ks <==> v in keys
  {
    ks := [];
    for j := 0 to |keys|
      invariant StrictlyIncreasing(ks)
      invariant forall v :: v in ks <==> v in keys[..j]
    {
      assert keys[..j + 1] == keys[..j] + [keys[j]];
      assert keys[j] !in keys[..j] by {
        forall k | 0 <= k < j ensures keys[k] != keys[j] {}
      }
      ks := Insert(ks, keys[j]);
    }
    assert keys[..|keys|] == keys;
  }

  /**
   * Adding up the counts of the smallest `j` distinct values gives the
   * cumulative count at the `j`-th one.
   */
  lemma {:induction false} CumulativeCount(vals: map<real, nat>, xs: seq<real>, ks: seq<real>, j: nat)
    requires IsFrequencyTable(vals, xs) && SortedListing(ks, vals)
    requires 0 < j <= |ks|
    ensures TotalCount(vals, ks[..j]) == CountLE(xs, ks[j - 1])
  {
    var b := ks[j - 1];
    assert ks[..j][..j - 1] == ks[..j - 1];
    if j == 1 {
      forall i | 0 <= i < |xs| ensures b <= xs[i] {
        assert xs[i] in xs;
      }
      CountLEAtMin(xs, b);
      assert ks[..0] == [];
    } else {
      var a := ks[j - 2];
      forall i | 0 <= i < |xs| ensures xs[i] <= a || b <= xs[i] {
        assert xs[i] in xs;
        var k :| 0 <= k < |ks| && ks[k] == xs[i];
        assert k <= j - 2 || j - 1 <= k;
      }
      CountLEGap(xs, a, b);
      CumulativeCount(vals, xs, ks, j - 1);
    }
  }

  /** The counts in a frequency table add up to the number of inputs. */
  lemma TotalCountIsLength(vals: map<real, nat>, xs: seq<real>, ks: seq<real>)
    requires IsFrequencyTable(vals, xs) && SortedListing(ks, vals)
    ensures TotalCount(vals, ks) == |xs|
  {
    if ks == [] {
      assert forall v :: v in multiset(xs) ==> v in ks;
      assert multiset(xs) == multiset{};
      assert |xs| == |multiset(xs)|;
    } else {
      var top := ks[|ks| - 1];
      forall i | 0 <= i < |xs| ensures xs[i] <= top {
        assert xs[i] in xs;
        var k :| 0 <= k < |ks| && ks[k] == xs[i];
      }
      CountLEAll(xs, top);
      CumulativeCount(vals, xs, ks, |ks|);
      assert ks[..|ks|] == ks;
    }
  }

  /**
   * `percentile(iterable, p)`: the least observed value whose cumulative
   * count exceeds `int(n * p / 100)`, or `None` when there is none, which for
   * `p` in 1..99 happens exactly on empty input.
   */
  method Percentile(xs: seq<real>, p: int := 95) returns (r: Option<real>)
    ensures r.None? <==> |xs| <= Cutoff(|xs|, p)
    ensures r.Some? ==> IsNearestRank(xs, Cutoff(|xs|, p), r.value)
    ensures r == NearestRank(xs, p)
  {
    var vals, keys, n := Tally(xs);
    var cutoff := Cutoff(n, p);
    var ks := SortedKeys(keys);
    assert SortedListing(ks, vals) by {
      forall i | 0 <= i < |ks| ensures ks[i] in vals {
        assert ks[i] in ks;
        var k :| 0 <= k < |keys| && keys[k] == ks[i];
      }
    }
    var c := 0;
    for j := 0 to |ks|
      invariant c == TotalCount(vals, ks[..j])
      invariant forall k :: 0 <= k < j ==> CountLE(xs, ks[k]) <= cutoff
    {
      assert ks[..j + 1][..j] == ks[..j];
      c := c + vals[ks[j]];
      CumulativeCount(vals, xs, ks, j + 1);
      if c > cutoff {
        forall w | w in xs && w < ks[j] ensures CountLE(xs, w) <= cutoff {
          var k :| 0 <= k < |ks| && ks[k] == w;
          assert k < j;
        }
        r := Some(ks[j]);
        NearestRankUnique(xs, cutoff, ks[j], NearestRank(xs, p).value);
        return;
      }
    }
    TotalCountIsLength(vals, xs, ks);
    assert ks[..|ks|] == ks;
    if ks != [] {
      assert CountLE(xs, ks[|ks| - 1]) <= cutoff;
      CumulativeCount(vals, xs, ks, |ks|);
    }
    r := None;
  }

  /** `valid_percentile`: accepts exactly the integers 1..99 and returns them
      unchanged; anything else is an argument-type error with a fixed message. */
  function ValidPercentile(p: int): (r: Result<int, string>)
    ensures r.Success? <==> 1 <= p <= 99
    ensures r.Success? ==> r.value == p
    ensures r.Failure? ==> r.error == "percentile should be between 1 and 99"
  {
    if p < 1 || p > 99 then Failure("percentile should be between 1 and 99") else Success(p)
  }
}
