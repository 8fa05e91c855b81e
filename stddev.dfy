/**
 * `stddev.py`: the stand-alone copy of the standard-deviation script. Its
 * `stddev` function is the same code as the package's, so it is modelled by
 * calling that model.
 */
module ScriptStddev {
  import Moments
  import StatsutilStddev

  /** `stddev(iterable)`, up to the final square root. */
  method Stddev(xs: seq<real>) returns (radicand: real)
    ensures radicand == Moments.PopulationVariance(xs)
    ensures radicand >= 0.0
  {
    radicand := StatsutilStddev.Stddev(xs);
  }
}
