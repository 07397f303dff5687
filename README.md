# A verified model of the BTC HFT alpha signals

This project models the signal framework of a Polars-based high-frequency alpha library for
BTC bars. A signal turns a time-ordered table of bar columns (`close`, `high`, `low`, `vwap`,
`buy_vol`, `sell_vol`, `volume`, `turnover`, `trade_count`) into one new numeric column. It is
built from a small set of columnar operators: shifts, differences, fills, rolling means, sums,
variances, standard deviations, medians and correlations, exponential means and clips.

The model covers four parts:

- **The `BaseAlpha` pipeline** (`AlphaBase`, `Catalog`). `run` stores the raw signal as
  `{name}_raw`. It then optionally applies a clipped rolling z-score and delays the result by
  `shift` rows under the signal's own name.
- **The 22 signal formulas** (`Predictive`, `Execution`, `AlphaMicrostructure`). These are the
  spread, toxicity, imbalance, entropy, volatility-ratio, correlation and crossing-count signals.
- **The robustness annotations**:
  - `Denoise`: the Kalman/EMA smoother, MAD volatility, the signal-to-noise ratio and the false
    breakout flag.
  - `Guard`: the signal half-life, the adaptive Kalman span multiplier and the execution
    feasibility score.
- **The regime factors** (`Regime`): fractal efficiency, market temperature, information
  entropy and the Fisher proxy.

Tables are materialised:

- A `Frame` has a height and a map from column name to a numeric or boolean series.
- A cell is `Null` (missing), `NaN` (any non-finite float) or `Val(v)` for a real number `v`.
- A boolean cell is `Unknown` or `Known(b)`.

The Polars operators are pure functions in `Kernels`, and their general laws are in
`KernelLaws`:

- Rolling aggregates need a full window of non-missing cells (the default `min_periods`).
- Variance and standard deviation are the sample (ddof = 1) forms.
- A NaN in a window poisons the aggregate.
- `ewm_mean` exists both as the adjust=False recurrence and as the default adjust=True
  weighted mean.

`ln`, `exp` and `sqrt` are parameters of type `Maths`. The proofs assume only the laws in
`Elementary.Lawful`. The upper bound of the information entropy also assumes
`Elementary.LogLaws`: ln turns products into sums and lies below its tangent at 1.

Where a comment in the source and its code disagree, the model follows the code. The one
case is the Kalman span multiplier. The comment at src/stability/microstructure.py:76 says a
calm market (low z) gives a multiplier above 1. The code computes 1 / (1 + clip(z, 0, 3)),
which is at most 1 and equals 1 for every z <= 0. `Guard.SpanScalarRange` states the
code's range.

Parameter bags are maps. A window or span must be an integer of at least 1, as Polars demands,
and anything else is an error. A missing column is the error `MissingColumn`.

Most contracts state a range, a warm-up, an error condition, or a frame shape (exactly which
columns are added or dropped, and that nothing else changes). Some say what a flat input
gives. The rest give a reference definition: the binary entropy, the AR(1) half-life, or the
1/(1 + e^x) score.

## Model

| member | source | states |
|---|---|---|
| AlphaBase.NewAlpha | src/alpha/base.py:11-15 | name and category are kept; a missing parameter bag becomes the empty map, so every lookup returns its default |
| AlphaBase.RawName | src/alpha/base.py:29 | the raw column's name `{name}_raw` never collides with the signal's own name |
| AlphaBase.RobustZScore | src/alpha/base.py:49-60 | every defined score lies in [-4, 4], and the first w-1 rows are missing |
| AlphaBase.RobustZScoreOfConstant | src/alpha/base.py:55-60 | a flat column scores 0 once the window is full, and is missing before |
| AlphaBase.RobustZScorePrefix | src/alpha/base.py:53-58 | the score only looks back: scoring the first k rows gives the first k rows of the score |
| AlphaBase.Decay | src/alpha/base.py:62-66 | the decay is defined exactly for smoothing factors in (0, 1] and keeps the column's length |
| AlphaBase.DecayPrefix | src/alpha/base.py:62-66 | decaying a prefix row by row equals the batch result cut to that prefix |
| AlphaBase.DecayIn | src/alpha/base.py:66 | the decayed signal never leaves an interval that holds every value read so far |
| AlphaBase.Processed | src/alpha/base.py:32-37 | without normalisation the processed column is the raw one |
| AlphaBase.Emitted | src/alpha/base.py:39-41 | for shift > 0, row t is the processed row t - shift, or missing when t < shift; a shift <= 0 delays nothing |
| AlphaBase.ZWindow | src/alpha/base.py:32-33 | the z-score window (default 300, at least 1) is read only when normalising |
| AlphaBase.Run | src/alpha/base.py:23-43 | adds exactly `{name}_raw` (the raw signal) and `name` (its emitted form); the height and every other column are unchanged |
| AlphaBase.RunIdentity | src/alpha/base.py:36-41 | without normalisation and shift, column `name` equals column `{name}_raw` |
| AlphaBase.EmittedRange | src/alpha/base.py:33-40 | a normalised signal lies in [-4, 4] and is missing until the z-window and the shift have filled |
| AlphaBase.EmittedCausal | src/alpha/base.py:35-40 | row t of the signal depends only on raw rows up to t - shift |
| AlphaBase.RunDefault | src/alpha/base.py:23-43 | `run(df)` with the defaults normalize=True, shift=1: succeeds iff the z-window does, adds exactly `{name}_raw` and `name`, and `name` is the z-score delayed by one row |
| AlphaBase.RunDefaultRange | src/alpha/base.py:23-41 | by default the signal lies in [-4, 4] and is missing in its first z_window rows |
| AlphaBase.RunDefaultCausal | src/alpha/base.py:23-41 | by default row t of the signal depends only on raw rows before t |
| Catalog.CalculateNeedsInputs | src/alpha/base.py:27 | with default parameters a signal fails exactly when a column it reads is absent (SmoothedMomentum also accepts `vwap` alone) |
| Catalog.RunSignal | src/alpha/base.py:23-43 | `run` of a concrete signal succeeds iff `calculate` and the z-window do, and stores `calculate`'s column as `{name}_raw` |
| Frames.Col | src/alpha/predictive.py:57 | reading a column succeeds iff the frame has it, and gives the frame's height |
| Frames.Size | src/alpha/predictive.py:17 | a window parameter is accepted iff it is an integer of at least 1; its value is the parameter or the default |
| Frames.Lag | src/alpha/microstructure.py:55-56 | a lag parameter is any integer, the parameter or the default |
| Frames.Number | src/alpha/microstructure.py:37 | a numeric level is an integer or float parameter, else the default |
| Kernels.CarryIsLastSeen | src/alpha/predictive.py:59 | forward_fill leaves a cell missing iff every cell up to it is missing, and otherwise carries the last non-missing cell |
| Kernels.Sort | src/alpha/base.py:53 | the median's sort gives an ascending permutation of the window |
| Kernels.InsertAscending | src/alpha/base.py:53 | inserting into an ascending sequence keeps it ascending |
| Kernels.WindowAt | src/alpha/base.py:55-56 | a window is full iff it fits and all its cells are values, and its values are those cells in order |
| Kernels.SpanAlpha | src/alpha/predictive.py:61 | a span of at least 1 gives a smoothing factor 2 / (span + 1) in (0, 1] |
| Kernels.EwmStream | src/alpha/base.py:66 | one forward pass with O(1) state per row computes exactly the adjust=False mean |
| Kernels.AdjustedState | src/stability/denoise.py:36 | the adjust=True weights sum to at least 1, and no state exists iff every cell so far is missing |
| KernelLaws.ZeroFilledVolume | src/alpha/predictive.py:19-20 | fill_null(0) turns a volume column into finite non-negative values |
| KernelLaws.NetMoveAtMostPath | src/analytics/regime.py:14-15 | triangle inequality: the net move of a price path is at most its path length |
| KernelLaws.RollingMeanIn | src/alpha/predictive.py:41 | a rolling mean stays in any interval that holds its input |
| KernelLaws.RollingSumIn | src/alpha/microstructure.py:132 | a rolling sum over w rows of values in [lo, hi] lies in [w lo, w hi] |
| KernelLaws.RollingWarmUp | src/alpha/base.py:55-56 | on a column without missing or NaN cells a rolling aggregate is missing exactly in the first w-1 rows (variance and std: in every row when w = 1) and never NaN |
| KernelLaws.RollingMedianAtLeast | src/stability/denoise.py:64 | a rolling median of values of at least lo is at least lo |
| KernelLaws.RollingSumValue | src/analytics/regime.py:15 | a defined rolling sum is the sum of a full window |
| KernelLaws.RollingOfCastNeverNaN | src/analytics/regime.py:44-45 | a rolling aggregate of a cast boolean column is never NaN |
| KernelLaws.RollingPrefix | src/alpha/base.py:53-56 | rolling aggregates are causal: over the first k rows they are the first k rows of the whole |
| KernelLaws.RollingNullPrefix | src/alpha/execution.py:160 | n leading missing rows delay a rolling aggregate to row n + w - 1 |
| KernelLaws.RollingMedianOfLateZeros | src/stability/denoise.py:59-64 | a column missing for n rows and 0 after has a rolling median missing for n + w - 1 rows and 0 after |
| KernelLaws.RollingMeanOfLateZeros | src/alpha/execution.py:86 | the same for the rolling mean |
| KernelLaws.RollingVarNonNegative | src/alpha/microstructure.py:111-112 | rolling sample variances are never negative |
| KernelLaws.RollingSpreadNonNegative | src/alpha/base.py:56 | rolling variances and standard deviations are never negative |
| KernelLaws.QuotientNonNegative | src/alpha/microstructure.py:93 | a / (b + eps) of non-negative columns is non-negative |
| KernelLaws.ForwardFillKeepsValues | src/alpha/predictive.py:71 | forward_fill leaves a column without missing cells unchanged |
| KernelLaws.LogReturnsOfConstant | src/alpha/execution.py:118 | a flat positive close has log returns of 0 |
| KernelLaws.RollingMeanOfConstant | src/alpha/predictive.py:23 | the rolling mean of a constant column is that constant after the warm-up |
| KernelLaws.RollingSpreadOfConstant | src/alpha/base.py:56 | the rolling variance and std of a constant column are 0 after the warm-up |
| KernelLaws.EwmOfConstant | src/alpha/execution.py:85 | the adjust=False mean of a constant column is that constant |
| KernelLaws.SelfCorrelation | src/alpha/microstructure.py:66 | rolling_corr of a column with itself is 1 in every full window of positive variance |
| KernelLaws.EwmStateIn | src/alpha/base.py:66 | the adjust=False mean never leaves the range of the values read so far |
| KernelLaws.EwmPrefix | src/alpha/base.py:66 | the adjust=False mean of a prefix is the prefix of the mean |
| KernelLaws.AdjustedOfConstant | src/stability/denoise.py:36 | the adjust=True weighted mean of a constant column is that constant |
| Predictive.CalcTradeImbalance | src/alpha/predictive.py:16-26 | succeeds iff the window (default 5) is valid and both volume columns exist |
| Predictive.TradeImbalanceRange | src/alpha/predictive.py:17-26 | for non-negative volumes (null read as 0) the imbalance is missing for t < w-1 and strictly inside (-1, 1) after |
| Predictive.BalancedFlowIsZero | src/alpha/predictive.py:23-26 | where the smoothed buy and sell volumes agree the imbalance is exactly 0 |
| Predictive.TradeImbalanceScenario | src/alpha/predictive.py:19-26 | buy = [10, 0, 5, 5], sell = [0, 10, 5, 5], window 2 gives missing, 0, and 0 at rows 0, 1 and 3 |
| Predictive.CalcVolumeWeightedPersistence | src/alpha/predictive.py:34-41 | succeeds iff the window (default 20) is valid and both volume columns exist |
| Predictive.FlowRatioRange | src/alpha/predictive.py:37-40 | each row's flow ratio is a number strictly inside (-1, 1) |
| Predictive.PersistenceRange | src/alpha/predictive.py:37-41 | the rolling mean of the flow ratio is missing in the warm-up and strictly inside (-1, 1) after |
| Predictive.MomentumSpan | src/alpha/predictive.py:61 | the EMA span is max(2, int(period / 2)), so at least 2 |
| Predictive.CalcSmoothedMomentum | src/alpha/predictive.py:53-62 | succeeds iff the period is an integer and the source column (`vwap` if present, else `close`) exists |
| Predictive.MomentumFallsBackToClose | src/alpha/predictive.py:55-57 | on a frame without `vwap`, the default signal reads `close`, or fails on the missing `close` |
| Predictive.MomentumWarmUp | src/alpha/predictive.py:62 | the first `period` rows are missing |
| Predictive.CalcVwapDeviation | src/alpha/predictive.py:70-74 | succeeds iff `close` and `vwap` exist |
| Predictive.VwapDeviationZeroIff | src/alpha/predictive.py:71-74 | the deviation is 0 exactly where the filled close equals the filled vwap (guarded denominator nonzero) |
| Predictive.VwapDeviationSign | src/alpha/predictive.py:71-74 | with a positive vwap the deviation has the sign of close - vwap |
| Predictive.CalcParkinsonVolatility | src/alpha/predictive.py:86-97 | succeeds iff the window (default 20) is valid and `close`, `high` and `low` exist |
| Predictive.ParkinsonSquares | src/alpha/predictive.py:89-94 | with a missing high or low replaced by close, each squared log range of positive prices is a non-negative number |
| Predictive.ParkinsonDefined | src/alpha/predictive.py:89-97 | on positive prices the estimator is missing only in the warm-up and non-negative after |
| Predictive.CalcKyleLambda | src/alpha/predictive.py:109-119 | succeeds iff the window (default 50) is valid and `close`, `buy_vol` and `sell_vol` exist |
| Predictive.KyleLambdaOfConstantClose | src/alpha/predictive.py:112-119 | a flat close gives an impact of 0 after the warm-up (the null correlation and the NaN product both read as 0) |
| Predictive.CalcAmihudLiquidity | src/alpha/predictive.py:127-134 | succeeds iff the window (default 50) is valid and `close` and `turnover` exist |
| Predictive.AmihudNonNegative | src/alpha/predictive.py:130-134 | non-negative turnover gives a non-negative illiquidity |
| Predictive.AmihudNullTurnoverIsZero | src/alpha/predictive.py:131 | a missing turnover counts as 0 |
| Predictive.CalcSpreadResilience | src/alpha/predictive.py:137-143 | succeeds iff the window (default 50) is valid and `high`, `low` and `close` exist |
| Predictive.SpreadResilienceWarmUp | src/alpha/predictive.py:142-143 | no row is missing, and the first w rows (where the lagged window reaches back past row 0) are 0 |
| Execution.CalcRollSpread | src/alpha/execution.py:16-31 | succeeds iff the window (default 50) is valid and `close` exists |
| Execution.RollCovarianceDefined | src/alpha/execution.py:19-29 | on finite prices the covariance is missing exactly in the warm-up and never NaN |
| Execution.RollSpreadRow | src/alpha/execution.py:31 | 2 sqrt(clip(-cov, 0, 1e9)) lies in [0, 2 sqrt(1e9)] and is 0 for a zero covariance |
| Execution.RollSpreadRange | src/alpha/execution.py:19-31 | on finite prices the spread is missing in the warm-up and lies in [0, 2 sqrt(1e9)] after |
| Execution.RollSpreadOfConstant | src/alpha/execution.py:19-31 | a flat close has spread 0 from row w-1 on |
| Execution.CalcCorwinSchultz | src/alpha/execution.py:39-52 | succeeds iff the window (default 20) is valid and `high` and `low` exist |
| Execution.CorwinSchultzRange | src/alpha/execution.py:47-52 | every defined spread lies in [0, 1] |
| Execution.CorwinSchultzNeedsTwoRows | src/alpha/execution.py:50-52 | with a one-row window the sample std is missing, so the spread is never a number |
| Execution.CalcFlowToxicity | src/alpha/execution.py:65-72 | succeeds iff the window (default 20) is valid and both volume columns exist |
| Execution.FlowNullRowIsZero | src/alpha/execution.py:68-69 | a missing volume on either side makes both \|b - s\| and b + s read 0 |
| Execution.GapWithinTotal | src/alpha/execution.py:68-69 | for non-negative volumes each row's gap is at most its total |
| Execution.FlowToxicityRange | src/alpha/execution.py:68-71 | for non-negative volumes the toxicity is missing in the warm-up and lies in [0, 1) after |
| Execution.CalcTrendDeviation | src/alpha/execution.py:81-88 | succeeds iff the span (default 20) is valid and `close` exists |
| Execution.TrendScaleWarmUp | src/alpha/execution.py:86 | the scale is the 1e-9 placeholder in the first `span` rows |
| Execution.TrendScaleOfConstant | src/alpha/execution.py:84-86 | on a flat close the scale is 1e-9 in the warm-up and a true 0 after |
| Execution.TrendDeviationOfConstant | src/alpha/execution.py:84-88 | on a flat close the deviation is 0 in the warm-up and 0/0 = NaN after |
| Execution.CalcOrderFlowEntropy | src/alpha/execution.py:100-111 | succeeds iff the window (default 50) is valid and both volume columns exist |
| Execution.ProportionRange | src/alpha/execution.py:103-108 | both proportions are numbers clipped into [1e-6, 1] |
| Execution.OrderFlowEntropySymmetric | src/alpha/execution.py:103-111 | swapping buy and sell leaves the entropy unchanged |
| Execution.EntropyTermsNonNegative | src/alpha/execution.py:110 | each row's entropy is a non-negative number |
| Execution.OrderFlowEntropyNonNegative | src/alpha/execution.py:103-111 | the rolling entropy is missing in the warm-up and non-negative after |
| Execution.CalcVolatilitySignature | src/alpha/execution.py:114-124 | succeeds iff both windows (defaults 10 and 100) are valid and `close` exists |
| Execution.VolatilitySignatureRange | src/alpha/execution.py:118-124 | the signature is non-negative, and below 1 when both windows are equal |
| Execution.CalcVolatilityRegime | src/alpha/execution.py:133-143 | succeeds iff both windows (defaults 50 and 300) are valid and `close` exists |
| Execution.VolatilityRegimeRange | src/alpha/execution.py:137-143 | the regime ratio is non-negative, and below 1 when both windows are equal |
| Execution.CalcQueuePosition | src/alpha/execution.py:153-162 | succeeds iff the window (default 20) is valid and both volume columns exist |
| Execution.QueueDepthWarmUp | src/alpha/execution.py:160 | the depth is 1e-9 in the first 5w-1 rows and the 5w-row median after |
| Execution.QueuePositionNonNegative | src/alpha/execution.py:156-162 | non-negative volumes give a non-negative queue position |
| AlphaMicrostructure.CalcSelfExcitingBurst | src/alpha/microstructure.py:16-30 | succeeds iff both spans (defaults 10 and 100) are valid and `trade_count` exists |
| AlphaMicrostructure.PrefixMax | src/alpha/microstructure.py:25-26 | the running maximum is an upper bound of the counts so far, and one of them |
| AlphaMicrostructure.IntensityBounded | src/alpha/microstructure.py:21-26 | for non-negative counts (null read as 0) each intensity lies between 0 and the running maximum |
| AlphaMicrostructure.BurstScaleWarmUp | src/alpha/microstructure.py:29 | the slow std is the 1e-6 placeholder in its first slow_span-1 rows |
| AlphaMicrostructure.BurstOfConstant | src/alpha/microstructure.py:25-30 | constant counts give 0 while the std is the placeholder, and 0/0 = NaN after |
| AlphaMicrostructure.CalcPsychologicalBarrier | src/alpha/microstructure.py:36-41 | succeeds iff the level is a number, the window (default 20) is valid and `close` exists |
| AlphaMicrostructure.RemainderRange | src/alpha/microstructure.py:40 | the floored remainder by a positive level lies in [0, level) |
| AlphaMicrostructure.BarrierDistanceRange | src/alpha/microstructure.py:40 | the distance to the nearest multiple of a positive level lies in [0, level / 2] |
| AlphaMicrostructure.BarrierRange | src/alpha/microstructure.py:37-41 | on finite prices the barrier score is missing in the warm-up and lies in (0, 1] after |
| AlphaMicrostructure.CalcDeBiasedFlowCorr | src/alpha/microstructure.py:54-73 | succeeds iff both lags are integers, the window (default 50) is valid and both volume columns exist |
| AlphaMicrostructure.TradeSignValues | src/alpha/microstructure.py:62 | without NaN volumes every sign is -1, 0 or 1 (a missing one is 0) |
| AlphaMicrostructure.LaggedCorrWarmUp | src/alpha/microstructure.py:66-67 | a lag-k correlation is missing while its window reaches back past row 0 |
| AlphaMicrostructure.FlowCorrWarmUp | src/alpha/microstructure.py:66-73 | no row is missing, and rows whose lagged windows are incomplete are 0 |
| AlphaMicrostructure.FlowCorrEqualLags | src/alpha/microstructure.py:66-73 | with equal lags the two correlations cancel: 0, or NaN where the correlation is NaN |
| AlphaMicrostructure.CalcTradeSizeEntropy | src/alpha/microstructure.py:85-93 | succeeds iff the window (default 50) is valid and `volume` exists |
| AlphaMicrostructure.TradeSizeEntropyNonNegative | src/alpha/microstructure.py:87-93 | non-negative volumes give a non-negative coefficient of variation |
| AlphaMicrostructure.TradeSizeEntropyOfConstant | src/alpha/microstructure.py:87-93 | trades of one size give 0 after the warm-up |
| AlphaMicrostructure.CalcFractalDimension | src/alpha/microstructure.py:105-115 | succeeds iff the window (default 50) is valid and `close` exists |
| AlphaMicrostructure.FractalDimensionNonNegative | src/alpha/microstructure.py:111-115 | the variance ratio is non-negative |
| AlphaMicrostructure.FractalDimensionOfConstant | src/alpha/microstructure.py:108-115 | a flat positive close gives 0 after the warm-up |
| AlphaMicrostructure.CalcLevelCrossCount | src/alpha/microstructure.py:123-132 | succeeds iff the window (default 50) is valid and `close` exists |
| AlphaMicrostructure.CrossingExact | src/alpha/microstructure.py:126-130 | on finite values a crossing is exactly a strict move from one side of the rolling mean to the other |
| AlphaMicrostructure.TouchIsNotCrossing | src/alpha/microstructure.py:129-130 | touching the mean is never a crossing |
| AlphaMicrostructure.CrossCountRange | src/alpha/microstructure.py:132 | the count is never NaN and lies in [0, w] where defined |
| Denoise.KalmanSpan | src/stability/denoise.py:26-32 | the span exists only for R != 0 and Q/R >= 0, and is at least 1 |
| Denoise.SpanDecreasing | src/stability/denoise.py:29-32 | a larger Q/R gives a strictly shorter span |
| Denoise.KalmanDefaultSpan | src/stability/denoise.py:17-32 | the defaults Q = 1e-5, R = 1e-3 give a span in (19.99, 20) |
| Denoise.KalmanFilter | src/stability/denoise.py:17-40 | adds exactly `kalman_price` (adjust=True mean of the price) and `kalman_noise` = price - kalman_price; fails iff the span or the column does |
| Denoise.KalmanOfConstant | src/stability/denoise.py:35-39 | a flat price is its own smoothed price, so its noise is 0 |
| Denoise.RobustVolatility | src/stability/denoise.py:46-70 | adds `vol_robust` = 1.4826 x rolling median of \|r - rolling median(r)\| and drops its intermediates; nothing else changes |
| Denoise.MadVolatilityNonNegative | src/stability/denoise.py:62-69 | the MAD volatility is never negative |
| Denoise.MadVolatilityOfConstant | src/stability/denoise.py:54-69 | a flat positive price gives 0 once both stacked windows are full (row 2w-2) |
| Denoise.CalcSnr | src/stability/denoise.py:76-88 | adds only `system_snr`, the 50-row efficiency ratio of the close; fails iff `close` is absent |
| Denoise.SnrRange | src/stability/denoise.py:83-87 | the SNR lies in [0, 1) wherever defined |
| Denoise.DetectFalseBreakout | src/stability/denoise.py:94-109 | adds exactly `noise_sigma` (100-row std of `kalman_noise`) and the boolean `is_overextended` |
| Denoise.OverextendedIff | src/stability/denoise.py:107-109 | the flag is true iff \|noise / (sigma + 1e-9)\| > 2 (NaN counting as above), false iff it is a number <= 2, unknown iff missing |
| Guard.Persistence | src/stability/microstructure.py:43 | clip(\|rho\|, 0.01, 0.99) always lies in [0.01, 0.99] and is \|rho\| inside that range |
| Guard.HalfLifeOfLaws | src/stability/microstructure.py:20-21 | -ln 2 / ln c is positive, solves h ln c = -ln 2, and grows with c |
| Guard.HalfLifeAt | src/stability/microstructure.py:41-45 | each row is the half-life of the clipped persistence; missing and NaN rho pass through |
| Guard.HalfLifeRange | src/stability/microstructure.py:40-45 | every finite rho gives a positive half-life between those of persistence 0.01 and 0.99 |
| Guard.HalfLifeMonotone | src/stability/microstructure.py:39-44 | a larger \|rho\| never gives a shorter half-life |
| Guard.CalcSignalHalfLife | src/stability/microstructure.py:17-47 | adds `signal_half_life` (the final policy) and drops `x`, `x_lag` and `rho`; nothing else changes |
| Guard.FirstPolicyShadowed | src/stability/microstructure.py:31-45 | where rho <= 0 the first policy gave 0, but the stored half-life is positive: the first policy is overwritten |
| Guard.SpanScalarRange | src/stability/microstructure.py:78-80 | the multiplier lies in [1/4, 1], is 1 for z <= 0 and 1/4 for z >= 3; missing and NaN pass through |
| Guard.SpanScalarAntitone | src/stability/microstructure.py:74-80 | a higher innovation score never gives a larger multiplier |
| Guard.AdaptiveKalmanMonitor | src/stability/microstructure.py:53-82 | adds only `adaptive_kalman_scalar` (5w-row z-score of the innovation, mapped to 1 / (1 + clip(z, 0, 3))); fails iff the window is below 1 or the column is absent |
| Guard.MonitorWarmUp | src/stability/microstructure.py:61-72 | the multiplier is missing in the first 6w-1 rows |
| Guard.ScoreRange | src/stability/microstructure.py:92-96 | for latency >= 0 the score lies in (0, 1/2], and is 1/2 at zero latency |
| Guard.ScoreLatencyAntitone | src/stability/microstructure.py:89-96 | a slower system never gets a higher score |
| Guard.ScoreHalfLifeMonotone | src/stability/microstructure.py:89-96 | a longer-lived signal never gets a lower score |
| Guard.ConfidenceAt | src/stability/microstructure.py:92-96 | each row with a non-negative half-life holds the score 1 / (1 + exp(L / (h + 1e-9))) |
| Guard.ExecutionFeasibility | src/stability/microstructure.py:88-96 | adds only `execution_confidence_score`; fails iff `signal_half_life` is absent |
| Guard.FeasibilityRange | src/stability/microstructure.py:92-96 | every row with a non-negative half-life scores in (0, 1/2] for latency >= 0 |
| Guard.GuardChain | src/stability/microstructure.py:41-96 | after the half-life step, every row with a finite rho scores in (0, 1/2] |
| Regime.Decimal | src/analytics/regime.py:16 | the window is spelt as a non-empty string of digits |
| Regime.DecimalRoundTrip | src/analytics/regime.py:16 | reading back the spelling of a window gives the window |
| Regime.DistinctWindowsDistinctNames | src/analytics/regime.py:16 | distinct windows give distinct column names |
| Regime.PathBound | src/analytics/regime.py:14-15 | a defined path sum reads defined prices at rows t and t-w, and \|x[t] - x[t-w]\| is at most the path |
| Regime.EfficiencyRow | src/analytics/regime.py:14-16 | every defined efficiency lies in [0, 1) |
| Regime.FractalEfficiency | src/analytics/regime.py:9-16 | succeeds iff the window is at least 1, under the name `regime_fractal_{window}` |
| Regime.FractalEfficiencyRange | src/analytics/regime.py:14-16 | the fractal efficiency lies in [0, 1) wherever defined |
| Regime.FrictionRange | src/analytics/regime.py:29-34 | the friction 1 - er + 0.1 lies in (0.1, 1.1] |
| Regime.TemperatureNonNegative | src/analytics/regime.py:25-34 | energy over friction is never negative |
| Regime.MarketTemperature | src/analytics/regime.py:19-36 | succeeds iff the window is at least 1, under the name `regime_temp_{window}` |
| Regime.InfoEntropy | src/analytics/regime.py:39-48 | succeeds iff the window is at least 1, under the name `regime_entropy_{window}` |
| Regime.ProbabilitiesRange | src/analytics/regime.py:44-46 | up and down probabilities are missing together and otherwise lie in [0.001, 0.999] |
| Regime.InfoEntropyIsBinaryEntropy | src/analytics/regime.py:44-47 | every defined row is the binary entropy in bits of its up-probability |
| Regime.BinaryEntropySymmetric | src/analytics/regime.py:47 | up and down play symmetric roles |
| Regime.BinaryEntropyPositive | src/analytics/regime.py:45-47 | with both probabilities in [0.001, 0.999] the entropy is strictly positive |
| Regime.BinaryEntropyAtMostOne | src/analytics/regime.py:41-47 | the entropy is at most 1 bit, with 1 exactly at p = 1/2 (maximal randomness) |
| Regime.InfoEntropyRange | src/analytics/regime.py:39-47 | every defined row of the entropy column lies in (0, 1] |
| Regime.FisherProxy | src/analytics/regime.py:51-59 | succeeds iff the window is at least 1, under the name `regime_fisher_{window}` |
| Regime.FisherNonNegative | src/analytics/regime.py:59 | a mean of absolute changes is never negative |
| Regime.FisherWarmUp | src/analytics/regime.py:56-59 | one-row returns, three stacked windows and a difference: the first 3w-1 rows are always missing |

## Left out

- Floating point: cells hold real numbers. Every non-finite float (NaN, +inf, -inf) is the one
  `NaN` cell, and rounding is not modelled. A division by zero gives `NaN`, as do `ln` of a
  non-positive number and `sqrt` of a negative one.
- Polars comparisons order `NaN` above every number. `x > 2` is therefore true on a `NaN`
  cell, and this is how `is_overextended` is modelled.
- `ewm_mean` with a missing cell after the first value: the model gives a missing cell at that
  row, and the next value continues from the last state as if the missing rows were absent.
  Polars instead emits the running mean at the missing row and, with its default
  `ignore_nulls=False`, also discounts the old weight by the length of the gap. The EMAs inside
  the signals read forward-filled or zero-filled columns, so only leading missing cells reach
  them and this does not arise there.
- Denoise.KalmanFilter: it smooths the raw price column without a fill. At an interior missing
  price the model's `kalman_price` and `kalman_noise` are missing where Polars gives the running
  mean and a missing noise, and the rows after the gap weight the old prices differently, as
  described above. Its contracts are exact for prices whose missing cells are all leading.
- AlphaBase.Decay: it smooths any column without a fill. At and after an interior missing cell
  it differs from Polars in the same way.
- Keyword defaults of the annotations: `price_col="close"` of `kalman_filter`,
  `col="close"` and `window=50` of `robust_volatility`, `signal_col="kalman_noise"` of
  `calc_signal_half_life`, `price_col="close"` and `window=50` of `adaptive_kalman_monitor`,
  `latency_bars=2` of `check_execution_feasibility`, and `close_col="close"` with the windows
  30, 50, 60 and 100 of the four regime factors. The model takes every argument explicitly, so a call that
  relies on a default is modelled by passing that value. Only `Denoise.KalmanDefaultSpan`
  states the defaults Q = 1e-5, R = 1e-3.
- `rolling_var` and `rolling_std` over a one-row window: these are missing (there is no
  ddof = 1 estimate), not NaN.
- The lazy query planner, `df.lazy()` and `collect_schema()`. Frames are materialised and the
  schema is the set of column names.
- Which of several failures Polars reports first. The model returns one error without ranking
  them.
- Logging (the per-instance logger) and concurrency. Nothing in the core is concurrent.
- src/analytics/data_plots.py is not part of this model. It is plotting and file I/O.
- Parameters of the wrong type (a float window, a string level) are errors here, where Python
  would raise inside Polars.
- Guard.CalcSignalHalfLife: `rho` is never computed by the source. It is read here as an input
  column, and a frame without it is `MissingColumn("rho")`.
- Guard.CalcSignalHalfLife: its `window` argument is never read by the source, so it is not a
  parameter.
- Guard.FirstPolicy: its ensures states only its length. The rule's effect is stated by
  `FirstPolicyShadowed`.
- AlphaMicrostructure.RemainderRange: `%` is the floored remainder of Python. For a
  non-negative close this agrees with any other remainder convention.
- Predictive.ParkinsonVolatility: `1 / (4 ln 2)` is computed with the model's own `ln`, so the
  constant is exact only up to the `ln` supplied.
- Guard.HalfLife: `-np.log(2)` is written `-m.ln(2.0)`, with the same `ln` as the column's.
- Denoise.KalmanSpan: a negative ratio Q/R (whose square root NumPy returns as NaN) and
  R = 0 (a Python `ZeroDivisionError`) are both `BadArgument`.
- Regime.FractalEfficiency: windows are integers, and a window below 1 is `BadArgument`, as
  Polars rejects it.
- The rolling median in `_robust_zscore` is computed by the source but never used. The model
  leaves it out.
- Execution.QueuePosition: a zero median depth after the warm-up gives NaN or a missing value.
  `QueuePositionNonNegative` bounds only the rows that are numbers.
