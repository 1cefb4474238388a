# Portfolio engine, strategy backtests and risk metrics — a Dafny model

This project models the analytical core of a crypto/market dashboard:

- the portfolio engine (`app/core/portfolio.py`):
  - `normalize_weights` maps a weight dictionary onto the simplex;
  - `build_prices_matrix` turns the fetched close series into a
    timestamp-aligned price matrix;
  - `simulate_portfolio` walks that matrix once, carrying the held weights
    as state. It resets them to target at rebalance timestamps, books the
    weighted asset return, and lets the weights drift with prices;
- the single-asset backtests (`app/core/strategies.py`): buy-and-hold, and
  the moving-average crossover with its one-period signal lag;
- the risk metrics (`app/core/metrics.py`): max drawdown, annualised
  volatility, annualised return, Sharpe ratio and the correlation wrapper.

All arithmetic is exact (`real`). A missing value (pandas' NaN) is `None` of
`Option`, and the metrics' NaN sentinel is `None` too. A Python exception
the code can raise is the `Err` of `Result`.

Files, one module each:

- `wrappers.dfy`: `Option` and `Result`.
- `seqmath.dfy`: the pandas whole-series operations the core uses: `sum`,
  dot product, scaling, `cumprod` equity curves, `fillna`, `dropna`.
- `weights.dfy`: `normalize_weights`.
- `prices.dfy`: `build_prices_matrix`. The dict-filling loop is a method
  proved against a specification function. The join, sort and `dropna` are
  a function proved against its meaning.
- `portfolio.dfy`: `simulate_portfolio`. The loop is a method proved
  against ghost functions that define the held weights row by row. Lemmas
  then show what that fold means:
  - the weights stay on the simplex;
  - a rebalance forgets history;
  - between rebalances the portfolio is a buy-and-hold of the target.
- `strategies.dfy`: `calculate_buy_and_hold` and `calculate_ma_crossover`.
- `metrics.dfy`: the metrics.

## Model

| member | source | states |
|---|---|---|
| Weights.NormalizeWeights | app/core/portfolio.py:30-38 | NaN weights count as 0; the key list is kept. With a positive total each weight is its value over the total; otherwise every key gets 1/N. The result always sums to 1. An empty dict raises ZeroDivisionError |
| Weights.Filled | app/core/portfolio.py:32 | one number per key: the stored weight, or 0 where it is NaN |
| Weights.Uniform | app/core/portfolio.py:35 | the fallback has one entry per key; UniformSum states that each is the share 1/N |
| Weights.NormalizePreservesRatios | app/core/portfolio.py:36-37 | with a positive total, any two normalised weights keep the ratio of the inputs (cross-multiplied) |
| Weights.NormalizedOnSimplex | app/core/portfolio.py:32-37 | non-negative inputs (or the uniform fallback) give non-negative weights summing to 1 |
| Weights.NormalizeIdempotent | app/core/portfolio.py:30-38 | normalising an already normalised dict returns it unchanged |
| Weights.UniformSum | app/core/portfolio.py:34-35 | each of the N uniform shares times N is 1 (the share is 1/N), and the shares sum to 1 |
| Weights.Lookup | app/core/portfolio.py:54 | `weights.get(a, 0.0)`: the value stored under the key, or 0 when the key is absent |
| Prices.CollectSeries | app/core/portfolio.py:13-20 | the loop leaves exactly the dict that `Collect` specifies: keys whose fetch was non-empty, in first-insertion order |
| Prices.Collect | app/core/portfolio.py:13-20 | kept keys are distinct and are exactly the dict's keys; every stored series is one of the fetch results and non-empty |
| Prices.CollectKeepsFetched | app/core/portfolio.py:16-20 | a key is kept if and only if some fetch for it returned data; empty fetches are skipped |
| Prices.CollectKeepsLast | app/core/portfolio.py:20 | a key fetched several times keeps its last non-empty series |
| Prices.LastFetch | app/core/portfolio.py:15-20 | the position of the last fetch for a key that returned data, or -1; every later fetch for that key is empty, so that is the series the dict keeps |
| Prices.FirstFetch | app/core/portfolio.py:15-20 | the position of the first fetch for a key that returned data: every earlier fetch for that key was empty, and -1 means none returned data |
| Prices.CollectKeepsOrder | app/core/portfolio.py:15-20 | the columns follow insertion order: of two kept keys, the one listed first is the one whose first non-empty fetch came first |
| Prices.Timestamps | app/core/portfolio.py:77 | the frame index has one timestamp per row; Align states that for the built matrix these are strictly ascending and exactly the common timestamps |
| Prices.IsEmpty | app/core/portfolio.py:50 | `prices.empty`: the matrix has no row or no column |
| Prices.KeptSeries | app/core/portfolio.py:25 | `price_series.values()`: one stored series per kept key, in column order |
| Prices.CommonTimes | app/core/portfolio.py:25-26 | a timestamp is listed exactly when the first series and every series have a present close there |
| Prices.SortUnique | app/core/portfolio.py:25 | the result is strictly ascending and holds exactly the input's timestamps |
| Prices.CloseAt | app/core/portfolio.py:25 | the value returned is the present close the series holds at that timestamp |
| Prices.Align | app/core/portfolio.py:25-26 | columns are the kept keys; the row timestamps are strictly ascending and are exactly those at which every series has a close; each cell is that series' close at that timestamp |
| Prices.BuildPricesMatrix | app/core/portfolio.py:8-27 | the result equals `BuildSpec`: the empty frame when no fetch returned data, else the aligned kept series. It is a valid matrix whose columns are exactly the keys with a non-empty fetch |
| Portfolio.AssetReturns | app/core/portfolio.py:57 | row 0's returns are 0; after that, previous price times (1 + return) is the current price, and every 1 + return is positive |
| Portfolio.TargetWeights | app/core/portfolio.py:53-55 | the target over the matrix columns has one weight per column and sums to 1 |
| Portfolio.Restrict | app/core/portfolio.py:54 | the restricted dict is well formed and keyed by exactly the columns; each column's weight is `weights.get(a, 0.0)` |
| Portfolio.TargetOnSimplex | app/core/portfolio.py:53-55 | with distinct columns and no negative weight in the dict, the target is non-negative and sums to 1, so every fold lemma that needs a simplex target applies to the one `simulate_portfolio` builds |
| Portfolio.Drift | app/core/portfolio.py:72-75 | with a positive grown total, the weights sum to 1 and each is proportional to w·(1+r); otherwise they are the grown weights, unnormalised |
| Portfolio.SimulatePortfolio | app/core/portfolio.py:41-80 | an empty matrix gives an empty frame. Otherwise the index is the matrix's timestamps, and each row's return is the dot product of the held weights and that row's asset returns. Equity is base·cumprod(1+r), with first return 0 and first equity = base |
| Portfolio.HeldWeights | app/core/portfolio.py:61-75 | the weights held during row t have one entry per asset. Target at row 0 and at rebalance rows, the drifted weights of row t-1 otherwise; what they are is proved in HeldWeightsOnSimplex, RebalanceForgetsHistory and HeldBetweenRebalances |
| Portfolio.RebalancesAt | app/core/portfolio.py:65 | `t in rebalance_dates`: row t rebalances exactly when its timestamp is one of the rebalance labels |
| Portfolio.PortfolioReturns | app/core/portfolio.py:62-70 | one return per row of the matrix; ReturnAt gives each entry |
| Portfolio.ReturnsUpTo | app/core/portfolio.py:62-70 | after n iterations of the loop, `port_returns` holds n entries; ReturnAt gives each entry |
| Portfolio.ReturnAt | app/core/portfolio.py:68-70 | the return booked at row t is the dot product of the weights held during t and row t's asset returns |
| Portfolio.DotAboveMinusOne | app/core/portfolio.py:69 | simplex weights against asset returns above -1 book a portfolio return above -1 |
| Portfolio.ReturnsAboveMinusOne | app/core/portfolio.py:64-79 | with a simplex target and positive prices every portfolio return is above -1 and the equity curve stays positive |
| Portfolio.FirstRowEarnsNothing | app/core/portfolio.py:57-79 | the first portfolio return is 0 and the equity curve starts at the base |
| Portfolio.HeldWeightsOnSimplex | app/core/portfolio.py:65-75 | with a simplex target and positive prices, the weights held at every row are non-negative and sum to 1 |
| Portfolio.DriftKeepsSimplex | app/core/portfolio.py:72-75 | drifting simplex weights with returns above -1 gives a positive total and stays on the simplex |
| Portfolio.RebalanceForgetsHistory | app/core/portfolio.py:65-66 | at a rebalance row the held weights are the target. Two rebalance sets that agree from there on give the same weights, whatever happened before |
| Portfolio.HeldBetweenRebalances | app/core/portfolio.py:64-75 | between rebalances the held weights are the shares of the target allocation bought at the last rebalance, valued at the previous row's prices |
| Portfolio.HeldAfterStep | app/core/portfolio.py:72-75 | one drift step without a rebalance turns the held shares of the anchor allocation at row t-2's prices into those at row t-1's prices |
| Portfolio.ReturnBetweenRebalances | app/core/portfolio.py:64-75 | between rebalances 1 + each period's portfolio return is the growth of that buy-and-hold value |
| Portfolio.EquityBetweenRebalances | app/core/portfolio.py:64-79 | between rebalances, equity at row t is equity at the anchor row times the value at t of the target bought at the anchor's prices |
| Portfolio.NoRebalanceInMeans | app/core/portfolio.py:65 | the range predicate holds exactly when no row in the range falls on a rebalance timestamp |
| Portfolio.FlatPricesEarnNothing | app/core/portfolio.py:57-70 | when no price ever moves, every portfolio return is 0 |
| Portfolio.FlatPricesKeepBase | app/core/portfolio.py:79 | when no price ever moves, the equity stays at the base at every row |
| Portfolio.FlatPricesMetrics | app/core/portfolio.py:57-79 | a flat run has annualised return 0, volatility 0 over two or more rows, and max drawdown 0 |
| Strategies.PctChange | app/core/strategies.py:12 | missing at the first row; after that, 1 + return is close[t]/close[t-1] |
| Strategies.CalculateBuyAndHold | app/core/strategies.py:4-21 | keeps the input close; returns with the first set to 0 and 1 + return = close[t]/close[t-1] after it; equity is 100·cumprod(1+r), starting at 100 |
| Strategies.BuyAndHoldTracksClose | app/core/strategies.py:19 | buy-and-hold equity at t is 100·close[t]/close[0] |
| Strategies.BuyAndHoldExample | app/core/strategies.py:12-19 | closes 100, 110, 99, 121 give returns 0, 0.1, -0.1, 2/9 and equity 100, 110, 99, 121 |
| Strategies.RollingMean | app/core/strategies.py:32-33 | defined exactly when the window is non-empty and full; the mean times the window is the sum of the last w closes |
| Strategies.Rolling | app/core/strategies.py:32-33 | one mean per close, present exactly where the window is non-empty and full |
| Strategies.Signal | app/core/strategies.py:36-38 | every signal value is 0 or 1 |
| Strategies.Above | app/core/strategies.py:36-38 | 1 exactly when both means are present and the short one is larger, else 0; a missing mean compares false, as NaN does |
| Strategies.Shift | app/core/strategies.py:46 | `shift(1)`: row 0 is missing and row t holds row t-1's value |
| Strategies.Times | app/core/strategies.py:46 | the product is present exactly where both factors are |
| Strategies.LaggedReturns | app/core/strategies.py:46-47 | one strategy return per row; 0 at row 0 and wherever the period return is missing |
| Strategies.CalculateMaCrossover | app/core/strategies.py:23-52 | keeps the input close; returns are the close's pct_change; strategy returns are the lagged signal times returns, filled with 0; equity is 100·cumprod(1+strategy return), with first return 0 and equity 100 |
| Strategies.SignalMeaning | app/core/strategies.py:32-38 | the signal is 1 if and only if both windows are full and the short mean of the closes exceeds the long mean, and 0 otherwise |
| Strategies.NoSignalBeforeLongWindow | app/core/strategies.py:33-38 | no position before the long window is full |
| Strategies.SignalAt | app/core/strategies.py:36-38 | row t's signal compares row t's two rolling means |
| Strategies.LaggedReturnAt | app/core/strategies.py:46-47 | the strategy return at row 0 is 0, and at t it is signal[t-1]·return[t] |
| Strategies.PositionUsesPastOnly | app/core/strategies.py:43-46 | no look-ahead: two close series that agree before row t give the same position for row t |
| Strategies.SignalOfPast | app/core/strategies.py:32-38 | the signal of row t-1 equals the crossing computed from the closes before row t alone |
| Strategies.LastSignalUnused | app/core/strategies.py:46 | the last row's signal never changes any strategy return |
| Strategies.FlatWhenOut | app/core/strategies.py:46-50 | after a 0 signal the strategy earns 0 and its equity stays where it was |
| Strategies.InvestedTracksClose | app/core/strategies.py:46-50 | after a 1 signal the strategy earns the asset's return, and equity grows by close[t]/close[t-1] |
| Strategies.CrossoverEquityPositive | app/core/strategies.py:46-50 | with positive closes the crossover equity stays positive |
| Metrics.MaxDrawdown | app/core/metrics.py:6-15 | undefined exactly when no value is present; otherwise at most 0, and above -100 when every present value is positive |
| Metrics.WorstDrawdown | app/core/metrics.py:13-15 | the worst fall below the running maximum is at most 0, and above -1 for positive series |
| Metrics.DrawdownBounds | app/core/metrics.py:13-15 | the first drawdown is 0, so the minimum is at most 0; for an all-positive series the minimum is above -1 |
| Metrics.Drawdowns | app/core/metrics.py:14 | one drawdown per equity point |
| Metrics.DrawdownAt | app/core/metrics.py:14 | `(equity - running_max) / running_max` at one point is at most 0, and 0 at the first point |
| Metrics.DrawdownAtBounds | app/core/metrics.py:14 | each drawdown (s - peak)/peak is at most 0, is 0 at the first point, and is above -1 wherever the value is positive |
| Metrics.Peak | app/core/metrics.py:13 | `cummax()` at i is at least the value at i |
| Metrics.Min | app/core/metrics.py:15 | `min()` is an element of the series and at most every element |
| Metrics.PeakIndex | app/core/metrics.py:13 | the running maximum at i is attained at some position at or before i |
| Metrics.PeakAbove | app/core/metrics.py:13 | the running maximum at i is at least every earlier value |
| Metrics.PeakMonotone | app/core/metrics.py:13 | the running maximum never decreases |
| Metrics.MinIndex | app/core/metrics.py:15 | `min()`: the element found is at most every element |
| Metrics.ZeroDrawdownIffNonDecreasing | app/core/metrics.py:13-15 | the worst drawdown is 0 if and only if the series never falls |
| Metrics.WorstDrawdownIsWorstDecline | app/core/metrics.py:13-15 | reference definition: the worst drawdown is the smallest relative change (s[j]-s[i])/s[i] over all i ≤ j, and some pair attains it |
| Metrics.DrawdownBelowDecline | app/core/metrics.py:13-15 | the drawdown at j is at most the relative change from any earlier point i to j |
| Metrics.DrawdownFromPeak | app/core/metrics.py:13-14 | the drawdown at k is the relative change from the point where the running maximum was reached to k |
| Metrics.Std | app/core/metrics.py:22-25 | `std()` is defined exactly when at least two values are present |
| Metrics.AnnualizedVol | app/core/metrics.py:18-25 | defined exactly when at least two returns are present (empty: the sentinel; one: pandas' NaN std) |
| Metrics.VolOfConstant | app/core/metrics.py:22-25 | returns that never vary have volatility 0 |
| Metrics.VolIgnoresMissing | app/core/metrics.py:22 | volatility depends only on the present returns |
| Metrics.VarianceSubtract | app/core/metrics.py:50-51 | shifting every value by the same amount leaves the sample variance unchanged |
| Metrics.VarianceOfConstant | app/core/metrics.py:51 | a constant series has sample variance 0 |
| Metrics.MeanSubtract | app/core/metrics.py:50-54 | subtracting a constant moves the mean by that constant |
| Metrics.Subtract | app/core/metrics.py:50 | `returns - rf_per_period`: one entry per return, each lowered by the same amount |
| Metrics.Product | app/core/metrics.py:25 | the scaling of a per-period statistic by `np.sqrt(periods_per_year)`, shared by the volatility and the Sharpe ratio |
| Metrics.Mean | app/core/metrics.py:54 | the mean times the count is the sum |
| Metrics.SampleVariance | app/core/metrics.py:51 | the variance times n - 1 is the sum of squared deviations from the mean (one degree of freedom) |
| Metrics.AnnualizedReturn | app/core/metrics.py:28-39 | undefined exactly when no return is present; otherwise compounds Π(1+r) over the n present returns and raises it to periods_per_year/n |
| Metrics.AnnualizedReturnOverOneYear | app/core/metrics.py:35-39 | over exactly one year of observations the annualised return is the total compounded return |
| Metrics.AnnualizedReturnOfFlat | app/core/metrics.py:35-39 | all-zero present returns annualise to 0 |
| Metrics.ReturnIgnoresMissing | app/core/metrics.py:32 | the annualised return depends only on the present returns |
| Metrics.SharpeRatio | app/core/metrics.py:42-54 | empty gives the sentinel. A non-empty series with periods_per_year = 0 raises ZeroDivisionError. A single observation gives the sentinel |
| Metrics.SharpeUsesReturnSpread | app/core/metrics.py:49-54 | the ratio is undefined exactly when the std of the returns is 0; otherwise it is (mean − rf/periods)/std · sqrt(periods), with rf the annual risk-free rate |
| Metrics.SharpeOfConstant | app/core/metrics.py:51-53 | returns that never vary have no Sharpe ratio, whatever the risk-free rate |
| Metrics.SharpeIgnoresMissing | app/core/metrics.py:46 | the Sharpe ratio depends only on the present returns |
| Metrics.CorrMatrix | app/core/metrics.py:57-63 | None or an empty frame gives the empty frame; otherwise the columns are kept |
| Metrics.FrameEmpty | app/core/metrics.py:61 | `returns_df.empty`: the frame has no column or no row |
| Metrics.Corr | app/core/metrics.py:63 | one row and one column per input column, names kept |
| Metrics.CorrSymmetric | app/core/metrics.py:57-63 | the matrix is square and symmetric, and its diagonal pairs each column with itself |
| SeqMath.EquityCurveAt | app/core/strategies.py:19 | the equity at t is base times the product of (1+r) up to t |
| SeqMath.DropNa | app/core/metrics.py:10 | `dropna()` yields nothing exactly when every value is missing |
| SeqMath.FillNa | app/core/portfolio.py:57 | `fillna(0.0)`: each present value is kept, each missing one becomes 0 |
| SeqMath.Divide | app/core/portfolio.py:37 | `w / s` keeps one entry per weight; SumDivide gives its total |
| SeqMath.SumDivide | app/core/portfolio.py:37 | dividing every entry by c divides the sum by c |
| SeqMath.SumConstant | app/core/portfolio.py:35 | `sum()` of N copies of c is N·c |
| SeqMath.SumNonNegative | app/core/portfolio.py:33 | `sum()` of non-negative values is non-negative |
| SeqMath.Grow | app/core/portfolio.py:73 | `w * (1 + r)` keeps one entry per weight |
| SeqMath.SumGrow | app/core/portfolio.py:73-74 | the grown weights sum to the old total plus the dot product of weights and returns |
| SeqMath.DotZero | app/core/portfolio.py:69 | `(w * r).sum()` against all-zero returns is 0 |
| SeqMath.EquityCurve | app/core/portfolio.py:79 | `base * (1 + r).cumprod()` has one value per return |
| SeqMath.CompoundOfZeros | app/core/portfolio.py:79 | the product of 1 + r over all-zero returns is 1 |
| SeqMath.EquityCurvePositive | app/core/portfolio.py:79 | a positive base with every 1 + r positive keeps the equity curve positive |
| SeqMath.EquityTracksValue | app/core/strategies.py:50 | when each 1 + r is the ratio of consecutive values of a series that is 1 at row a, equity from a on is equity at a times that series |

## Left out

- Fetching (`get_historical_data`, yfinance, retries, time zones) is not part
  of this model. Each asset's fetch result is an input sequence of
  (timestamp, close) quotes, empty when nothing was fetched.
- The `st.warning` call for an asset without data (`portfolio.py:18`) is UI
  messaging and has no effect on the result.
- The `resample(rebalance).first().index` calendar (`portfolio.py:59`) is
  not modelled. The rebalance timestamps are an input set. A row rebalances
  when its timestamp is in that set.
- Floating point, NaN and infinity arithmetic are not modelled. Prices and
  closes are required positive, so no division by zero or NaN return
  arises in the portfolio or the strategies.
- Square root, the non-integer power and the Pearson coefficient are
  parameters (`sqrt`, `pow`, `pearson`). Properties that need their values
  assume only what the lemma states (`sqrt(0) = 0`, `pow(x, 1) = x`,
  `pow(1, e) = 1`).
- NaN produced by `sqrt` of a negative `periods_per_year` is not modelled.
- In `corr_matrix`, pandas' pairwise dropping of missing values and its
  selection of numeric columns are not modelled. They belong to the
  `pearson` parameter and the input frame.
- The `n == 0` branch of `annualized_return` (`metrics.py:37-38`) is
  unreachable after the empty check, so the model has only the one
  sentinel branch.
- Portfolio.Drift: the system's design describes skipping the drift step
  (leaving the weights unchanged) when the grown total is not positive. The
  code (`portfolio.py:73-75`) keeps the grown, unnormalised weights, and
  the model follows the code. With positive prices and a simplex target
  that branch is never reached (`DriftKeepsSimplex`).
- Weights.NormalizeWeights: an empty dict raises ZeroDivisionError
  (`1.0 / len(w)`), as the code does. The system's documentation describes
  the uniform fallback as never failing.
- Metrics.MaxDrawdown: requires the first present value to be positive. With
  a first value ≤ 0 the running maximum can be 0 or negative, and pandas
  then divides by zero or flips signs, which the exact model does not follow.
- Metrics.SampleVariance: non-negativity of the sample variance, and
  "variance 0 only for a constant series", are not proved. Only "constant
  gives 0" and shift invariance are.
- Metrics.SharpeUsesReturnSpread: the model does not prove that a
  non-constant series has a non-zero std, because `sqrt` is a parameter and
  the variance's positivity is not proved. So "defined whenever the returns
  vary" is not stated.
- Metrics.AnnualizedVol: states only when the result is defined, and the
  constant case; its value is in terms of the `sqrt` parameter.
- Strategies: closes are complete and positive. A missing close inside the
  series (pandas' `pct_change` fill behaviour) is not modelled.
- Input frames are values, so "works on a copy, never mutates its input"
  holds by construction. It is stated as the result keeping the input
  `Close` unchanged.
- Prices.BuildPricesMatrix: each fetch result is assumed to carry unique
  timestamps (the `UniqueTimestamps` requirement). Neither the fetch nor
  `build_prices_matrix` removes duplicates. The error pandas' outer
  `concat(axis=1)` (`portfolio.py:25`) raises on a duplicated index with two
  or more series is not modelled. Nor is the single-series case, where
  duplicated timestamps would reach the result.
- Strategies.CalculateMaCrossover: the windows are natural numbers, so the
  `ValueError` pandas raises for a negative window is not modelled.
- Portfolio.SimulatePortfolio: the `rebalance="W"` default names a pandas
  calendar rule, which is not modelled (the rebalance timestamps are an
  input). The defaults `base=100.0`, `periods_per_year=252` and
  `rf_annual=0.0` are kept as Dafny default parameters.
- SeqMath.Sum, SeqMath.Dot and SeqMath.Compound are plain recursive
  definitions without contracts of their own. Their properties are the
  lemmas listed above (SumConstant, SumNonNegative, SumDivide, SumGrow,
  DotZero, CompoundOfZeros, EquityCurveAt).
- Prices.BuildSpec is the specification function of `build_prices_matrix`;
  what it returns is stated by `Prices.BuildPricesMatrix`, `Prices.Align`
  and `Prices.Collect`.
