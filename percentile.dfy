/**
 * `percentile.py`: the stand-alone copy of the percentile script. Its
 * `percentile` function is the same code as the package's, so it is modelled
 * by calling that model; its `valid_percentile` spells the range test as
 * `not (p >= 1 and p <= 99)` and is modelled as written.
 */
module ScriptPercentile {
  import opened Wrappers
  import opened Ranks
  import StatsutilPercentile

  /** `percentile(iterable, p)`: the nearest-rank percentile, `None` when no
      value's cumulative count exceeds the cutoff. */
  method Percentile(xs: seq<real>, p: int := 95) returns (r: Option<real>)
    ensures r.None? <==> |xs| <= Cutoff(|xs|, p)
    ensures r.Some? ==> IsNearestRank(xs, Cutoff(|xs|, p), r.value)
    ensures r == NearestRank(xs, p)
  {
    r := StatsutilPercentile.Percentile(xs, p);
  }

  /** `valid_percentile`: accepts exactly the integers 1..99. */
  function ValidPercentile(p: int): (r: Result<int, string>)
    ensures r.Success? <==> 1 <= p <= 99
    ensures r.Success? ==> r.value == p
    ensures r.Failure? ==> r.error == "percentile should be between 1 and 99"
  {
    if !(p >= 1 && p <= 99) then Failure("percentile should be between 1 and 99") else Success(p)
  }

  /** The two spellings of the range check agree on every integer. */
  lemma ValidPercentileAgrees(p: int)
    ensures ValidPercentile(p) == StatsutilPercentile.ValidPercentile(p)
  {
  }
}
