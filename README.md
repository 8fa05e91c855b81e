# statsutil: nearest-rank percentile and population standard deviation

This project models the two reductions of the `statsutil` scripts in Dafny.
Each of them exists twice: once in the package (`statsutil/percentile.py`,
`statsutil/stddev.py`) and once as a stand-alone script at the root
(`percentile.py`, `stddev.py`).

- **percentile.** The first loop tallies the inputs into a frequency table
  (distinct value to count) and counts them in `n`. The cutoff is
  `int(n * p / 100)`. A second loop walks the distinct values in ascending
  order with a running cumulative count `c` and returns the first value where
  `c > cutoff`. If no value gets there it returns `None`. The command-line
  check `valid_percentile` accepts only 1..99.
- **stddev.** A single loop keeps the running sum `m`, the running sum of
  squares `m2` and the count `n`. The result is `sqrt(m2/n - (m/n)**2)`, or 0
  when there is no input.

Python's `Decimal` values are modelled as Dafny `real` (exact rationals).
Two numerically equal inputs such as `1.0` and `1` are therefore the same
dictionary key, as they are in Python. The inputs are an already-parsed
`seq<real>`.

Modules:

| file | module | models |
|---|---|---|
| `wrappers.dfy` | `Wrappers` | `Option` for `Optional[Decimal]`, `Result` for a value-or-raise outcome |
| `seqs.dfy` | `Seqs` | multiset facts used by the permutation proofs |
| `ranks.dfy` | `Ranks` | the nearest-rank specification: cumulative count, cutoff, a reference selection that does not sort, and lemmas about them |
| `moments.dfy` | `Moments` | the accumulators as functions, the single-pass variance, a two-pass reference and lemmas about them |
| `statsutil_percentile.dfy` | `StatsutilPercentile` | `percentile` and `valid_percentile` of `statsutil/percentile.py`, as imperative methods over a `map<real, nat>` |
| `statsutil_stddev.dfy` | `StatsutilStddev` | `stddev` of `statsutil/stddev.py`, as an accumulating loop |
| `percentile.dfy` | `ScriptPercentile` | the root copy of `percentile` and its own spelling of `valid_percentile` |
| `stddev.dfy` | `ScriptStddev` | the root copy of `stddev` |

The specification of the percentile is `Ranks.IsNearestRank(xs, cutoff, v)`.
It says that `v` is an input, that more than `cutoff` inputs are at most `v`,
and that no smaller input has that property. `Ranks.NearestRank` picks that
value by a minimum search over the inputs, with no sorting involved. The
method `StatsutilPercentile.Percentile` has the script's shape: the tally
loop, the sort, and the walk with its early return. It is proved to return
exactly `NearestRank`.

The stddev method is proved to return `Moments.PopulationVariance`, which is
`m2/n - (m/n)^2` over the whole input. That value is proved to equal the
textbook mean squared deviation from the mean, and so it is never negative.

In the root copies, `percentile` and `stddev` are the same code as the
package's, so their models call the package models. The root
`valid_percentile` writes its test as `not (p >= 1 and p <= 99)` and is
modelled as written. A lemma shows that it agrees with the package's version.

## Model

| member | source | states |
|---|---|---|
| Ranks.CountLE | statsutil/percentile.py:24 | the cumulative count at `v`, the meaning of the running `c`: how many inputs are at most `v`, never more than `n` |
| Ranks.IsNearestRank | statsutil/percentile.py:22-26 | the nearest-rank contract both `Percentile` methods are stated in: `v` is an input, more than `cutoff` inputs are at most `v`, no smaller input has that property; it can hold only when `cutoff < n` |
| Ranks.Cutoff | statsutil/percentile.py:21 | the cutoff is `n*p/100` truncated toward zero (floor for `n*p >= 0`, ceiling below zero), and `0 <= cutoff < n` when `1 <= p <= 99` and `n >= 1` |
| Ranks.LeastQualifying | statsutil/percentile.py:22-27 | the reference selection: `None` exactly when no candidate's cumulative count exceeds the cutoff; otherwise a candidate whose count exceeds it and that is at most every other such candidate |
| Ranks.NearestRank | statsutil/percentile.py:14-27 | `None` exactly when `n <= cutoff`; otherwise the unique value meeting the nearest-rank contract `IsNearestRank` |
| Ranks.CountLEAll | statsutil/percentile.py:23-24 | once every input is at most `v`, the cumulative count at `v` is `n` |
| Ranks.CountLEAtMin | statsutil/percentile.py:23-24 | at the smallest key, the cumulative count is that key's multiplicity, the first `c += vals[v]` |
| Ranks.CountLEGap | statsutil/percentile.py:23-24 | from one key to the next, the cumulative count grows by exactly the next key's multiplicity, the later `c += vals[v]` |
| Ranks.CountLEConcat | statsutil/percentile.py:18-19 | the cumulative count of a concatenation is the sum of the parts' counts |
| Ranks.CountLEPermutation | statsutil/percentile.py:16-20 | the cumulative count depends only on the multiset of inputs |
| Ranks.NearestRankUnique | statsutil/percentile.py:22-26 | at most one value meets the nearest-rank contract for a given cutoff |
| Ranks.NearestRankEmpty | statsutil/percentile.py:21-27 | empty input gives `None` for every `p` |
| Ranks.NearestRankObserved | statsutil/percentile.py:23-26 | for non-empty input and `1 <= p <= 99` there is a result, and it is one of the inputs |
| Ranks.NearestRankPermutation | statsutil/percentile.py:16-26 | permuting the input does not change the result |
| Ranks.NearestRankConstant | statsutil/percentile.py:21-26 | an input of one value, possibly repeated, gives that value for every valid `p` |
| Ranks.NearestRankMinimum | statsutil/percentile.py:21-26 | when the cutoff is 0, the result is the smallest input |
| Ranks.NearestRankTenValues | percentile.py:18-23 | for the inputs 1..10 and `p = 95` the cutoff is 9 and the result is 10 |
| StatsutilPercentile.Tally | statsutil/percentile.py:16-20 | afterwards `vals[v]` is the multiplicity of `v` in the input, the keys are exactly the inputs, `keys` lists each key once, and `n` is the input length |
| StatsutilPercentile.Insert | statsutil/percentile.py:23 | putting a new value into an ascending sequence keeps it strictly ascending and adds exactly that value |
| StatsutilPercentile.SortedKeys | statsutil/percentile.py:23 | `sorted(vals.keys())` is strictly ascending and holds exactly the keys |
| StatsutilPercentile.CumulativeCount | statsutil/percentile.py:22-24 | after the first `j` sorted keys, the running `c` is the number of inputs at most the `j`-th key |
| StatsutilPercentile.TotalCountIsLength | statsutil/percentile.py:16-20 | the counts in the frequency table add up to `n` |
| StatsutilPercentile.Percentile | statsutil/percentile.py:14-27 | returns `None` exactly when `n <= cutoff`, otherwise the least input whose cumulative count exceeds the cutoff, and in every case equals `NearestRank` |
| StatsutilPercentile.ValidPercentile | statsutil/percentile.py:33-37 | succeeds exactly for `1 <= p <= 99` and then returns `p` unchanged; otherwise fails with the message `percentile should be between 1 and 99` |
| ScriptPercentile.Percentile | percentile.py:11-24 | the same contract as the package's `Percentile` |
| ScriptPercentile.ValidPercentile | percentile.py:29-33 | succeeds exactly for `1 <= p <= 99` and then returns `p` unchanged; otherwise fails with the message `percentile should be between 1 and 99` |
| ScriptPercentile.ValidPercentileAgrees | percentile.py:31 | the root spelling of the range test agrees with the package's on every integer |
| Moments.Sum | statsutil/stddev.py:20 | the accumulator `m += v` over the inputs read; its algebra is stated by `AppendOne`, `MomentsConcat` and `MomentsPermutation` |
| Moments.SumSq | statsutil/stddev.py:21 | the accumulator `m2 += v**2` over the inputs read; its algebra is stated by the same lemmas |
| Moments.PopulationVariance | statsutil/stddev.py:23 | the return expression `m2/n - (m/n)**2` without the square root, and 0 for no input; both `Stddev` contracts are stated in it, and `VarianceIsMeanSquaredDeviation` and `VarianceNonNegative` give its meaning |
| Moments.SquaredDeviations | statsutil/stddev.py:23 | the two-pass reference, a sum of squared deviations, is never negative |
| Moments.SquaredDeviationsExpand | statsutil/stddev.py:20-21 | the sum of squared deviations from `a` is `m2 - 2am + na²` in terms of the accumulators |
| Moments.VarianceIsMeanSquaredDeviation | statsutil/stddev.py:23 | for `n > 0`, `m2/n - (m/n)^2` equals the mean squared deviation from the mean |
| Moments.VarianceNonNegative | statsutil/stddev.py:23 | the exact radicand is never negative, so the square root of the exact value is defined |
| Moments.VarianceEmpty | statsutil/stddev.py:23 | empty input gives exactly 0 |
| Moments.AppendOne | statsutil/stddev.py:19-21 | one more input adds `v` to `m` and `v*v` to `m2` |
| Moments.MomentsConcat | statsutil/stddev.py:18-22 | the accumulators of a concatenation are the sums of the parts' accumulators |
| Moments.MomentsPermutation | statsutil/stddev.py:18-22 | the accumulators depend only on the multiset of inputs |
| Moments.VariancePermutation | statsutil/stddev.py:16-23 | permuting the input does not change the result |
| Moments.ConstantMoments | statsutil/stddev.py:18-22 | for an input of one value `x`, `m = n*x` and the squared deviations from `x` are 0 |
| Moments.VarianceConstant | statsutil/stddev.py:18-23 | an input of one value, repeated any number of times (a single input included), gives 0 |
| Moments.VarianceTenValues | statsutil/stddev.py:16-23 | for the inputs 1..10, `m/n = 5.5`, `m2/n = 38.5` and the variance is 8.25 |
| StatsutilStddev.Stddev | statsutil/stddev.py:14-23 | the loop keeps `m`, `m2` and `n` equal to the sum, the sum of squares and the length of the prefix read so far; the result is the whole input's population variance, and it is never negative |
| ScriptStddev.Stddev | stddev.py:10-19 | the same contract as the package's `Stddev` |

## Left out

- StatsutilStddev.Stddev: returns the radicand `m2/n - (m/n)**2` (0 for empty input), not its square root. Dafny's exact reals have no square root. The script's result is the non-negative root of this value, and `sqrt(0) = 0` covers the empty case.
- ScriptStddev.Stddev: returns the radicand rather than its square root, for the same reason.
- `Decimal` context rounding (28 significant digits) in `Decimal(p) / 100`, in `n * ...` and in the stddev divisions and powers is not modelled. All arithmetic is exact. Under rounding, `m2/n - (m/n)**2` can come out slightly below zero for large inputs that are close together, and `.sqrt()` then raises `InvalidOperation`. The non-negativity proved here holds only of the exact value.
- Parsing each line with `Decimal(line)` is not modelled: whitespace, `NaN`, `Infinity` and parse errors. The inputs are already-parsed exact numbers.
- Command-line handling is I/O and library plumbing and is not modelled: `argparse`, `fileinput` over files or standard input, and the `int(p)` string conversion in `valid_percentile`. The `ArgumentTypeError` raise becomes a `Failure` result.
- Output formatting (`print(p)`, `f'{std:.3f}'`) is not modelled. This includes which spelling of equal keys (`1.0` or `1`) gets printed.
- StatsutilPercentile.SortedKeys: modelled as an insertion sort over the dictionary's keys in insertion order. Its contract promises only what the walk relies on: strictly ascending, with exactly those keys. Python's own sorting algorithm is not modelled.
- The root `percentile` and `stddev` are the same code as the package's, so their models call the package methods rather than repeating the loops.
