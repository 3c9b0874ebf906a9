# Mean-reversion backtester — a verified Dafny model

This project models the engine of a mean-reversion backtester for one traded series. Each row of
the input holds an epoch-millisecond timestamp, a price and a factor value. The engine works in
five stages:

- **Signals.** A trailing z-score of the factor gives four flags per bar: long entry `z > m`,
  long exit `z <= 0`, short entry `z < -m` and short exit `z >= 0`. Here `m` is the multiplier,
  called the threshold in the vectorised variant.
- **Positions.** A state machine over {-1, 0, +1} starts flat at bar 0. On each later bar it
  takes a long entry, else a short entry, else carries the previous position. It then re-checks
  the exit flags, which may cancel an entry made on the same bar.
- **Accounting.** Each bar is charged 0.0006 per unit of position change. Its PnL is the
  previous bar's position times the bar's simple return, minus that cost. Strategy and benchmark
  keep running sums.
- **Metrics.** These are the Sharpe ratio of daily PnL totals, the maximum drawdown of the
  compounded PnL, and the ratio of long bars to short bars.
- **Parameter search.** Every (window, multiplier) pair is scored by its Sharpe ratio, and the
  scores are laid out as a matrix with one row per multiplier.

The two backtesters contain the same position loop. The model writes it once, as the method
`Positions.FillPositions` over an array, and proves it equal to the pure function `Positions.Run`.
Both callers use it:

- `Positions.ZScoreStrategy` for `backtester.py`, which computes its z-scores with polars;
- `Positions.ZScoreStrategyPosition` for `vector_backtest.py`, which builds its own rolling mean
  and standard deviation with numpy.

The two callers feed the loop different flags in one case. On a flat window the z-score is 0/0,
which is NaN. numpy compares NaN false against everything, so the vectorised backtester raises no
flag there. polars orders NaN above every number, so `backtester.py` reads it as a long entry and
a short exit. The model carries this difference as a `Signals.Library` parameter and proves where
the two backtesters agree and where they part.

Everything else that the source writes as column expressions, aggregates and comprehensions is
modelled as functions, with lemmas that state its meaning.

## Modules

| file | module | contents |
|---|---|---|
| wrappers.dfy | `Wrappers` | `Option`, `Result` |
| stats.dfy | `Stats` | sum, mean, sample variance; products hidden behind `Mul`/`Sq` with sign lemmas |
| rolling.dfy | `Rolling` | trailing windows, the rolling-mean method, the rolling (squared) deviation |
| signals.dfy | `Signals` | flags of a z-score, exact z-scores kept as (deviation, variance) pairs |
| positions.dfy | `Positions` | the state machine `Step`/`Run` and both position loops |
| accounting.dfy | `Accounting` | nullable columns, transaction cost, returns, PnL, running sums |
| metrics.dfy | `Metrics` | daily bucketing and the Sharpe guards, maximum drawdown, long/short ratio |
| grid.dfy | `Grid` | multiplier-major pair list, reshape, the Sharpe matrix |

How the model represents things:

- **Nullable columns.** A polars column with nulls, or a numpy array with NaN padding, is a
  `seq<Option<real>>`. In the ledger `None` is polars' null; in the rolling columns it is the
  leading padding (NaN in numpy, null in polars).
- **Z-score cells.** A z-score is a `Signals.Score`: `Null` (polars' null), `NaN`, `PosInf`,
  `NegInf`, or a finite value. A float z-score column is a `seq<Signals.ZValue>` with cells
  `Null`, `NaN` or `Num(z)`. Null and NaN stay apart because polars compares them differently.
- **Exact z-scores.** A present z-score `(x - mean) / std` is kept as the pair `(x - mean,
  variance)`, and a flag compares the squared quantities. `Signals.FlagsAgree` proves that this
  gives the same flags as comparing the real number `z` for every `z` with
  `z * z * variance == (x - mean)^2` and the sign of `x - mean`. So no square root is needed.

## Model

| member | source | states |
|---|---|---|
| Positions.Step | backtester.py:38-48 | one bar: a long entry gives +1 unless the long exit fires, else a short entry gives -1 unless the short exit fires; with no entry the previous position is kept unless its own exit fires, which closes it; the result stays in {-1,0,1}, is never +1 on a long-exit bar nor -1 on a short-exit bar, and a new non-zero position needs an entry flag |
| Positions.Run | backtester.py:36-48 | same length as the flags, `position[0] = 0`, every entry in {-1,0,1}, and `position[i] = Step(position[i-1], flags[i])` for every later bar |
| Positions.RunPrefix | backtester.py:37-43 | the positions of the first `k` bars depend only on the flags of those bars (one forward pass) |
| Positions.FillPositions | backtester.py:36-48 | the in-place loop over a fresh zero array leaves it equal to `Run` of the flags |
| Positions.ZScoreStrategy | backtester.py:18-51 | an error exactly when the window is below 1; otherwise the position column is `Run` of the flags of the polars z-scores of the factor, read with polars' NaN ordering |
| Positions.ZScoreStrategyPosition | vector_backtest.py:28-54 | an error exactly when the window is outside `1..n`; otherwise a fresh array equal to `Run` of the flags of the trailing-window z-scores, read with numpy's NaN comparisons |
| Positions.StrategyOnZColumn | backtester.py:24-48 | a float z-score column holding the real z-scores (null, NaN and ratios in the same places) drives the loop to the same positions as the exact scores |
| Positions.BacktestersAgreeWithoutFlatWindow | vector_backtest.py:31-54 | for a window of at most `n` (the only windows the numpy backtester accepts), when no full window of the factor is flat, the polars and numpy backtesters produce identical positions |
| Positions.OversizedWindowStaysFlat | backtester.py:22-48 | for a window longer than the series every polars z-score is null and `backtester.py` stays flat on every bar, where the numpy backtester returns an error |
| Positions.FlatWindowSplitsBacktesters | backtester.py:22-48 | on a bar whose full window is flat, polars goes long while numpy carries the previous position |
| Positions.BacktestersDivergeExample | vector_backtest.py:31-54 | for the factor series `[0, 0]`, window 2 and multiplier 1, polars gives positions `[0, 1]` and numpy gives `[0, 0]` |
| Positions.RunOnZScores | backtester.py:30-48 | per bar: a null carries the previous position; a NaN gives +1 under polars and carries under numpy; `z > m` gives +1 unless `z <= 0` cancels it to 0; otherwise `z < -m` gives -1 unless `z >= 0` cancels it; otherwise the previous position is carried and then closed if its exit fires |
| Positions.NoPositionAgainstExit | backtester.py:45-48 | after the exit re-check a bar with a numeric z-score is never long with `z <= 0` nor short with `z >= 0` |
| Positions.SameBarCancelNeedsNegativeMultiplier | backtester.py:38-48 | an entry cancelled by an exit on its own bar needs a negative multiplier, under either library |
| Positions.SameBarCancelExample | backtester.py:38-48 | with `m = -1` and `z = -0.5` a long entry fires and is cancelled on the same bar |
| Positions.FlatFactorStaysFlat | vector_backtest.py:28-54 | numpy: a constant factor series gives only NaN z-scores, so the vectorised strategy never leaves 0 |
| Positions.FlatFactorGoesLong | backtester.py:22-48 | polars: on a constant factor series the strategy is 0 before the first full window and +1 from it on for a window of 2 or more, and 0 throughout for a window of 1 |
| Signals.NaNFlagsMeaning | backtester.py:30-34 | polars' NaN flags are exactly the flags of a number above `m`, above `-m` and above 0 (polars orders NaN above every number); numpy's NaN flags are flags no number can raise, since every number fires an exit |
| Signals.FlagsOf | backtester.py:30-34 | a null z-score fires no flag; a NaN fires the library's NaN flags; a number always fires an exit flag, and for `m >= 0` never both entries |
| Signals.LibrariesDisagreeOnNaN | vector_backtest.py:35-39 | the polars and numpy flags of a bar differ exactly when its z-score is NaN |
| Signals.AboveIff | backtester.py:30-33 | the squared comparison is equivalent to `dev / sqrt(variance) > m` for both signs of `m` |
| Signals.FlagsAgree | backtester.py:30-34 | the flags of an exact (deviation, variance) score equal the flags of its real z-score |
| Signals.ColumnFlagsAgree | backtester.py:30-34 | a float z-score column that represents a score column has the same flags bar by bar, under either library |
| Signals.Scores | backtester.py:22-24 | one score per row, and never an infinity: a flat window has no deviation (0/0) |
| Signals.ScoresNaNIff | backtester.py:22-24 | a z-score is NaN exactly on a full window of two or more equal values |
| Signals.FlatWindowHasNoDeviation | vector_backtest.py:33 | a window with zero sample variance has its last value equal to its mean |
| Signals.ZScoreColumn | vector_backtest.py:33 | one z-score per row; by `Signals.ElementwiseScores`, on the rolling mean and variance columns it is the trailing-window score with NaN where polars has null |
| Signals.ElementwiseScores | vector_backtest.py:31-33 | combining the rolling mean and rolling deviation columns elementwise yields the trailing-window scores, with NaN where polars has null |
| Signals.NumpyFlagsOfElementwise | vector_backtest.py:31-39 | numpy's flags of the elementwise z-score column are its flags of the trailing-window scores |
| Rolling.RollingMean | vector_backtest.py:12-17 | an error exactly when the window is outside `1..n`; otherwise length `n`, `None` on the first `w-1` entries, and the mean of `xs[i-w+1..i]` at every later `i` |
| Rolling.RollingVariance | vector_backtest.py:19-26 | `w-1` padding entries followed by one entry per full window; `Rolling.RollingVarianceAligned` and `Rolling.RollingVarianceOversized` give the entries |
| Rolling.RollingVarianceAligned | vector_backtest.py:19-26 | for `1 <= w <= n`: length `n`, `w-1` leading NaNs, and entry `i` is the sample variance of the same trailing window the mean uses |
| Rolling.RollingVarianceOversized | vector_backtest.py:19-26 | a window longer than the series gives only the `w-1` NaN padding |
| Stats.VarianceZeroIff | vector_backtest.py:23 | the sample variance is 0 exactly when all values are equal, and then every value is the mean |
| Stats.VarianceNonNegative | vector_backtest.py:23 | the sample variance is never negative |
| Accounting.TransCost | backtester.py:53-62 | one cost per bar; its entries are given by `Accounting.TransCostAt` |
| Accounting.TransCostAt | backtester.py:53-62 | the cost is missing at bar 0 and equals `abs(position[i] - position[i-1]) * 0.0006` afterwards |
| Accounting.TransCostZeroIff | backtester.py:53-62 | a later bar's cost is 0 exactly when the position did not change |
| Accounting.TransCostNonNegative | backtester.py:53-62 | costs are never negative |
| Accounting.TransCostLevels | backtester.py:13 | on {-1,0,1} positions a cost is 0, 0.0006 or 0.0012 |
| Accounting.PctChange | backtester.py:68 | one return per bar; by `Accounting.PctChangeRecoversPrice`, missing exactly at bar 0 and after a zero price, and otherwise compounding the previous price into the current one |
| Accounting.PctChangeRecoversPrice | backtester.py:68 | a return is missing exactly on the first row and after a zero price; a present return `r` satisfies `price[i-1] * (r + 1) == price[i]` |
| Accounting.PnL | backtester.py:64-79 | one PnL entry per bar; its entries are given by `Accounting.PnLAt` |
| Accounting.PnLAt | backtester.py:64-79 | PnL is missing at bar 0 and where the return is missing, else `position[i-1] * (price[i]/price[i-1] - 1) - cost[i]` |
| Accounting.PnLIsCausal | backtester.py:72-77 | positions that agree on the first `k` bars give the same PnL on those bars (no lookahead) |
| Accounting.GrossPnLUsesLaggedPosition | backtester.py:72-77 | changing only `position[i]` leaves the gross part of `PnL[i]` unchanged |
| Accounting.CumSum | backtester.py:81-88 | one running sum per row; its entries are given by `Accounting.CumSumAt` |
| Accounting.CumSumAt | backtester.py:81-88 | the running sum is missing where the input is missing and otherwise sums every present value up to that row |
| Accounting.TradeStatistics | backtester.py:90-98 | every ledger column has one entry per input row |
| Accounting.ConstantPrice | backtester.py:64-88 | at a constant non-zero price each bar's PnL is minus its cost and the benchmark's running sum stays 0 |
| Accounting.ConstantPriceCumPnL | backtester.py:81-88 | at a constant price the strategy's running sum falls by exactly each bar's cost and never rises |
| Accounting.IdlePnL | backtester.py:64-79 | a position column that is always 0 has PnL 0 on every present bar |
| Metrics.DayListCorrect | backtester.py:108-113 | the day groups are pairwise distinct and are exactly the days (`timestamp / 86400000`) on which rows fall |
| Metrics.DistinctIff | backtester.py:111-112 | the recursive distinctness used for the groups means pairwise different |
| Metrics.DailyTotals | backtester.py:108-113 | one total per distinct day of `Metrics.DayList`; `Metrics.DailyTotalsSum` shows they add up to all present PnL |
| Metrics.DailyTotalsSum | backtester.py:108-115 | the daily totals add up to the summed present PnL of all rows: bucketing loses and duplicates nothing |
| Metrics.DayListEmptyIff | backtester.py:110-116 | there are no daily groups exactly when there are no rows |
| Metrics.ComputeSharpeRatio | backtester.py:106-122 | 0 when there are no rows; an annualised result always has a strictly positive variance and the given number of trading days (all cases in `Metrics.SharpeRatioCases`) |
| Metrics.SharpeRatioCases | backtester.py:106-122 | 0 exactly for no rows or equal daily totals over two or more days; NaN exactly for a single day; otherwise the mean and the strictly positive sample variance of the daily totals, with the given number of trading days |
| Metrics.SharpeOfIdle | backtester.py:115-122 | when every present PnL is 0 the Sharpe ratio is 0, or NaN on a single day |
| Metrics.MaxDrawdown | backtester.py:132-137 | an error exactly when no PnL is present (`np.min` of an empty array) |
| Metrics.MaxDrawdownNotPositive | backtester.py:132-137 | an error exactly when no PnL is present (`np.min` of an empty array); a finite result is at most 0 |
| Metrics.FirstDrawdown | backtester.py:134-136 | the first drawdown is 0, or NaN when the first compounded value is 0 |
| Metrics.MaxDrawdownBounded | backtester.py:132-137 | when every present PnL exceeds -1 the maximum drawdown is finite and lies in (-1, 0] |
| Metrics.MaxDrawdownOfGains | backtester.py:132-137 | with no negative PnL the maximum drawdown is exactly 0 |
| Metrics.RunningMax | backtester.py:135 | each entry is at least every earlier value and equals one of them |
| Metrics.CumProdPositive | backtester.py:134 | returns above -1 keep every compounded value positive |
| Metrics.CumProdGrows | backtester.py:134 | non-negative returns keep the compounded value at least 1 and non-decreasing |
| Metrics.LongShortRatio | backtester.py:139-144 | `None` exactly when the long or the short count is 0; otherwise a positive value that times the short count gives the long count |
| Metrics.LongShortRatioPresentIff | backtester.py:139-144 | the ratio is present exactly when some bar is long and some bar is short |
| Metrics.CountIsMultiplicity | backtester.py:140-141 | the filtered row count equals the multiplicity of the value in the column |
| Metrics.CountsPartition | backtester.py:140-141 | long, flat and short rows together account for every row |
| Grid.PairsAt | backtester.py:176 | there are `len(multipliers) * len(windows)` pairs, and pair `r * len(windows) + c` is `(windows[c], multipliers[r])` |
| Grid.ReshapeAt | backtester.py:180 | cell `[r][c]` of the reshaped matrix is flat entry `r * cols + c` |
| Grid.ScoreGrid | backtester.py:176-180 | an error exactly when the window list or the multiplier list is empty (`zip(*[])` has nothing to unpack); otherwise one row per multiplier and one column per window |
| Grid.ScoreGridAt | backtester.py:176-180 | for any row `r` and column `c` the matrix exists and cell `[r][c]` is the score of `(windows[c], multipliers[r])` |
| Grid.SharpeForParams | backtester.py:164-166 | the Sharpe ratio of the full polars backtest of one pair: 0 for an empty table, and an annualised result always over 365 trading days with a positive variance |
| Grid.SharpeGrid | backtester.py:172-180 | the Sharpe matrix: `NoParameters` exactly when either parameter list is empty; otherwise `InvalidWindow` exactly when some window is below 1 (the worker's polars call raises and `pool.map` re-raises it); otherwise one row per multiplier and one column per window |
| Grid.SharpeGridAt | backtester.py:164-180 | with every window at least 1, the matrix exists and cell `[r][c]` is the Sharpe ratio of the full polars backtest with window `c` and multiplier `r` |

## Left out

- Square roots: the standard deviation is kept as the sample variance, and z-scores as (deviation, variance) pairs. The comparisons are exact; the numeric values of `std`, `z` and the annualised Sharpe ratio are not computed.
- Metrics.ComputeSharpeRatio: its `Annualised(mean, variance, days)` result stands for `mean / sqrt(variance) * sqrt(days)`; the number itself is not modelled.
- Floating point: all arithmetic is over exact reals, so rounding is not modelled. This includes whether a float sample deviation comes out exactly 0.
- Accounting.PctChange: a zero previous price makes the source's return infinite or NaN. The model treats that return as missing.
- Signals.FlagsOf: null and NaN z-scores are modelled as the two libraries compare them. A null fires no flag. A NaN fires a long entry and a short exit under polars and no flag under numpy.
- Signals.FlagsOfScore: an infinite z-score (a non-zero deviation over a zero standard deviation) fires a long entry and a short exit for +inf, and the reverse for -inf. The trailing-window scores never produce one.
- Positions.ZScoreStrategy: a window below 1 is modelled as an error from polars' rolling functions, without its message. A window longer than the series is modelled as all-null z-scores.
- Signals.Scores: a window of 1 is modelled as null z-scores on every row, since polars gives no sample deviation of one value. numpy gives NaN there, which raises no flag either.
- Grid.ScoreGrid: the tick labels of the heatmap extend each parameter list by one step, which raises IndexError for fewer than two windows or two multipliers. That error belongs to the plotting code and is not modelled.
- `_compute_beta` is not part of this model: it calls an sklearn linear regression on floats.
- Plotting and console output are not modelled: `print_trade_summary_stats`, `plot_returns`, the heatmap drawing with its tick labels, and `_print_factors`.
- CSV loading and the `__main__` drivers are I/O and are not modelled.
- The process pool in the parameter search is not modelled. `pool.map` returns results in input order, so the model uses a sequential map.
- Polars `group_by` internals are not modelled. The model takes the groups as the distinct days in order of first appearance, each with the sum of that day's present PnL. Polars promises no order, and the Sharpe guards depend only on the daily totals.
- Arrays for the polars path: `_z_score_strategy` places the position array into a dataframe. The model returns the position column as a sequence.

## Notes on the source's behaviour

- **Flat windows.** On a full window of equal factor values the z-score is 0/0, which is NaN (backtester.py:22-24, vector_backtest.py:31-33). The numpy flags at vector_backtest.py:35-39 are all false there. The polars flags at backtester.py:30-34 read it as a long entry and a short exit. So the two backtesters diverge on such bars: `Positions.FlatWindowSplitsBacktesters` shows where, and `Positions.BacktestersAgreeWithoutFlatWindow` shows that for a window of at most the series length nothing else separates them.
- **Windows longer than the series.** For a window longer than the series, or an empty series, the numpy backtester raises at vector_backtest.py:14-16: `np.convolve` returns more values than the slice can take, or has an empty operand. `backtester.py` instead gets all-null z-scores and returns flat positions (`Positions.OversizedWindowStaysFlat`).
- **Days without PnL.** `drop_nulls()` at backtester.py:115 removes nothing: polars sums an all-null group to 0 at backtester.py:113. So every day with rows contributes a total to the Sharpe ratio.
- **A single day.** With one daily total, `np.std(..., ddof=1)` at backtester.py:118 is NaN, so `sd == 0` is false and the result is NaN. The model returns `NotANumber` there.
- **Same-bar cancellation.** The exit re-check at backtester.py:45-48 cancels an entry taken on the same bar only when the multiplier is strictly negative (`Positions.SameBarCancelNeedsNegativeMultiplier`). At `m = 0` an entry needs `z > 0` or `z < 0`, and then the opposite exit cannot fire.
