/** `NoiseCanceller` of src/stability/denoise.py: table-to-table annotations
    that add a smoothed price and its residual, a MAD volatility, a trend
    signal-to-noise ratio and an over-extension flag. */
module Denoise {
  import opened Elementary
  import opened Kernels
  import opened KernelLaws
  import opened Frames
  import opened Regime

  // ---------------------------------------------------------------------------
  // kalman_filter
  // ---------------------------------------------------------------------------

  /** The span 2 / (sqrt(Q/R) + 1e-9) that stands in for the steady-state Kalman gain. */
  function SpanOfRatio(ratio: real, m: Maths): real
    requires m.sqrt(ratio) + 1e-9 != 0.0
  {
    2.0 / (m.sqrt(ratio) + 1e-9)
  }

  /** The span of `kalman_filter`: Python refuses R = 0, the square root of a negative ratio
      is NaN, and Polars refuses a span below 1. */
  function KalmanSpan(processVar: real, measureVar: real, m: Maths): (r: Result<real>)
    ensures r.Ok? ==> r.value >= 1.0
    ensures r.Ok? ==> measureVar != 0.0 && processVar / measureVar >= 0.0
  {
    if measureVar == 0.0 then Err(BadArgument)
    else
      var ratio := processVar / measureVar;
      if ratio < 0.0 || m.sqrt(ratio) + 1e-9 <= 0.0 then Err(BadArgument)
      else
        var span := SpanOfRatio(ratio, m);
        if span < 1.0 then Err(BadArgument) else Ok(span)
  }

  /** More trust in the data (a larger Q/R) means a strictly shorter span. */
  lemma SpanDecreasing(a: real, b: real, m: Maths)
    requires Lawful(m) && 0.0 <= a < b
    ensures SpanOfRatio(b, m) < SpanOfRatio(a, m)
  {
    SqrtMonotone(m, a, b);
    var da, db := m.sqrt(a) + 1e-9, m.sqrt(b) + 1e-9;
    assert 0.0 < da < db;
    var q := 2.0 / db;
    assert q * db == 2.0;
    PositiveProduct(q, db - da);
    ScaledBounds(2.0, da, q, true);
  }

  /** The defaults Q = 1e-5, R = 1e-3 give a span just under 20. */
  lemma KalmanDefaultSpan(m: Maths)
    requires Lawful(m)
    ensures KalmanSpan(1e-5, 1e-3, m).Ok?
    ensures 19.99 < KalmanSpan(1e-5, 1e-3, m).value < 20.0
  {
    assert 1e-5 / 1e-3 == 0.01;
    SqrtUnique(m, 0.01, 0.1);
    assert SpanOfRatio(0.01, m) == 2.0 / (0.1 + 1e-9);
  }

  /** `kalman_filter`: adds `kalman_price` (the adjust=True weighted mean of the price with the
      Kalman span) and `kalman_noise` (the price minus it); nothing else changes. */
  function KalmanFilter(df: Frame, priceCol: string, processVar: real, measureVar: real, m: Maths): (r: Result<Frame>)
    requires df.Valid()
    ensures r.Ok? <==> KalmanSpan(processVar, measureVar, m).Ok? && priceCol in df.cols
    ensures r.Ok? ==> r.value.Valid() && r.value.height == df.height
    ensures r.Ok? ==> r.value.cols.Keys == df.cols.Keys + {"kalman_price", "kalman_noise"}
    ensures r.Ok? ==> forall c :: c in df.cols && c != "kalman_price" && c != "kalman_noise" ==> r.value.cols[c] == df.cols[c]
    ensures r.Ok? ==> var price := Col(df, priceCol).value;
      && r.value.cols["kalman_price"] == Numeric(EwmAdjusted(price, SpanAlpha(KalmanSpan(processVar, measureVar, m).value)))
      && r.value.cols["kalman_noise"] == Numeric(Zip(Sub, price, r.value.cols["kalman_price"].cells))
  {
    var span :- KalmanSpan(processVar, measureVar, m);
    var price :- Col(df, priceCol);
    var smooth := EwmAdjusted(price, SpanAlpha(span));
    Ok(df.With("kalman_price", Numeric(smooth)).With("kalman_noise", Numeric(Zip(Sub, price, smooth))))
  }

  /** A flat price is its own smoothed price, so its microstructure noise is 0. */
  lemma KalmanOfConstant(df: Frame, priceCol: string, processVar: real, measureVar: real, c: real, m: Maths)
    requires df.Valid() && KalmanFilter(df, priceCol, processVar, measureVar, m).Ok?
    requires forall t :: 0 <= t < df.height ==> Col(df, priceCol).value[t] == Val(c)
    ensures var out := KalmanFilter(df, priceCol, processVar, measureVar, m).value;
      forall t :: 0 <= t < df.height ==>
        out.cols["kalman_price"].cells[t] == Val(c) && out.cols["kalman_noise"].cells[t] == Val(0.0)
  {
    var price := Col(df, priceCol).value;
    var span := KalmanSpan(processVar, measureVar, m).value;
    AdjustedOfConstant(price, SpanAlpha(span), c);
  }

  // ---------------------------------------------------------------------------
  // robust_volatility
  // ---------------------------------------------------------------------------

  /** `log_ret`: log returns of the raw column, the first (missing) one read as 0. */
  function LogRet(x: Column, m: Maths): (r: Column)
    ensures |r| == |x|
  {
    Map(FillNull(0.0), Diff(Map(Ln, x, m), 1), m)
  }

  /** `mad_raw`: the rolling median of |log_ret - its rolling median|. */
  function MadRaw(x: Column, w: nat, m: Maths): (r: Column)
    requires w >= 1
    ensures |r| == |x|
  {
    var r := LogRet(x, m);
    Rolling(MedianOf, Map(Abs, Zip(Sub, r, Rolling(MedianOf, r, w, m)), m), w, m)
  }

  /** `vol_robust` = 1.4826 * mad_raw, the normal-consistent scale. */
  function MadVolatility(x: Column, w: nat, m: Maths): (r: Column)
    requires w >= 1
    ensures |r| == |x|
  {
    Scalar(Mul, MadRaw(x, w, m), 1.4826)
  }

  /** `robust_volatility`: the intermediates `log_ret`, `med_ret` and `mad_raw` are added and
      dropped again, so the result is the input without those names plus `vol_robust`. */
  function RobustVolatility(df: Frame, col: string, window: int, m: Maths): (r: Result<Frame>)
    requires df.Valid()
    ensures r.Ok? <==> window >= 1 && col in df.cols
    ensures r.Ok? ==> r.value.Valid() && r.value.height == df.height
    ensures r.Ok? ==> r.value.cols.Keys == (df.cols.Keys - {"log_ret", "med_ret", "mad_raw"}) + {"vol_robust"}
    ensures r.Ok? ==> forall c :: c in df.cols && c !in {"log_ret", "med_ret", "mad_raw", "vol_robust"} ==>
      r.value.cols[c] == df.cols[c]
    ensures r.Ok? ==> r.value.cols["vol_robust"] == Numeric(MadVolatility(Col(df, col).value, window, m))
  {
    if window < 1 then Err(BadArgument)
    else
      var x :- Col(df, col);
      var logRet := LogRet(x, m);
      var q1 := df.With("log_ret", Numeric(logRet));
      var q2 := q1.With("med_ret", Numeric(Rolling(MedianOf, logRet, window, m)));
      var q3 := q2.With("mad_raw", Numeric(MadRaw(x, window, m)));
      Ok(q3.With("vol_robust", Numeric(MadVolatility(x, window, m))).Drop({"log_ret", "med_ret", "mad_raw"}))
  }

  /** A median of absolute deviations is never negative. */
  lemma MadVolatilityNonNegative(x: Column, w: nat, m: Maths)
    requires w >= 1
    ensures ColumnAtLeast(MadVolatility(x, w, m), 0.0)
  {
    var r := LogRet(x, m);
    var dev := Map(Abs, Zip(Sub, r, Rolling(MedianOf, r, w, m)), m);
    RollingMedianAtLeast(dev, w, 0.0, m);
    var mad := MadRaw(x, w, m);
    forall t | 0 <= t < |x| && MadVolatility(x, w, m)[t].Val? ensures MadVolatility(x, w, m)[t].v >= 0.0 {
      NonNegativeProduct(mad[t].v, 1.4826);
    }
  }

  /** A constant positive price has no volatility: 0 once both stacked windows are full. */
  lemma MadVolatilityOfConstant(x: Column, w: nat, c: real, m: Maths)
    requires w >= 1 && c > 0.0
    requires forall t :: 0 <= t < |x| ==> x[t] == Val(c)
    ensures forall t :: 0 <= t < |x| ==> MadVolatility(x, w, m)[t] == if t + 2 < 2 * w then Null else Val(0.0)
  {
    var r := LogRet(x, m);
    assert forall t :: 0 <= t < |x| ==> r[t] == Val(0.0);
    var med := Rolling(MedianOf, r, w, m);
    RollingMedianOfLateZeros(r, w, 0, m);
    var dev := Map(Abs, Zip(Sub, r, med), m);
    forall t | 0 <= t < |x| ensures dev[t] == if t < w - 1 then Null else Val(0.0) {
      assert dev[t] == Eval(Abs, Combine(Sub, r[t], med[t]), m);
    }
    RollingMedianOfLateZeros(dev, w, w - 1, m);
    var mad := MadRaw(x, w, m);
    forall t | 0 <= t < |x| ensures MadVolatility(x, w, m)[t] == if t + 2 < 2 * w then Null else Val(0.0) {
      assert MadVolatility(x, w, m)[t] == Combine(Mul, mad[t], Val(1.4826));
    }
  }

  // ---------------------------------------------------------------------------
  // calc_snr
  // ---------------------------------------------------------------------------

  /** `calc_snr`: adds `system_snr`, the 50-row efficiency ratio of the close. */
  function CalcSnr(df: Frame, m: Maths): (r: Result<Frame>)
    requires df.Valid()
    ensures r.Ok? <==> "close" in df.cols
    ensures r.Ok? ==> r.value.Valid() && r.value.height == df.height
    ensures r.Ok? ==> r.value.cols == df.cols["system_snr" := Numeric(Efficiency(Col(df, "close").value, 50, m))]
  {
    var close :- Col(df, "close");
    Ok(df.With("system_snr", Numeric(Efficiency(close, 50, m))))
  }

  /** |x[t] - x[t-50]| is at most the path length over the last 50 rows, so the ratio is in [0, 1). */
  lemma SnrRange(df: Frame, m: Maths)
    requires df.Valid() && "close" in df.cols
    ensures ColumnIn(CalcSnr(df, m).value.cols["system_snr"].cells, Interval(0.0, false, 1.0, true))
  {
    EfficiencyRange(Col(df, "close").value, 50, m);
  }

  // ---------------------------------------------------------------------------
  // detect_false_breakout
  // ---------------------------------------------------------------------------

  /** |noise / (noise_sigma + 1e-9)|. */
  function Overextension(noise: Column, sigma: Column, m: Maths): (r: Column)
    requires |noise| == |sigma|
    ensures |r| == |noise|
  {
    Map(Abs, Zip(Div, noise, Scalar(Add, sigma, 1e-9)), m)
  }

  /** `detect_false_breakout`: adds `noise_sigma` (rolling std of `kalman_noise` over 100 rows)
      and the flag `is_overextended`. */
  function DetectFalseBreakout(df: Frame, m: Maths): (r: Result<Frame>)
    requires df.Valid()
    ensures r.Ok? <==> "kalman_noise" in df.cols
    ensures r.Ok? ==> r.value.Valid() && r.value.height == df.height
    ensures r.Ok? ==> r.value.cols.Keys == df.cols.Keys + {"noise_sigma", "is_overextended"}
    ensures r.Ok? ==> forall c :: c in df.cols && c != "noise_sigma" && c != "is_overextended" ==> r.value.cols[c] == df.cols[c]
    ensures r.Ok? ==> var noise := Col(df, "kalman_noise").value;
      && r.value.cols["noise_sigma"] == Numeric(Rolling(StdOf, noise, 100, m))
      && r.value.cols["is_overextended"].Boolean?
      && |r.value.cols["is_overextended"].truths| == df.height
  {
    var noise :- Col(df, "kalman_noise");
    var sigma := Rolling(StdOf, noise, 100, m);
    var flag := Compare(Overextension(noise, sigma, m), Lit(2.0, |noise|), true);
    Ok(df.With("noise_sigma", Numeric(sigma)).With("is_overextended", Boolean(flag)))
  }

  /** The flag is true exactly where the normalised noise exceeds 2 (NaN counting as above every
      number), false where it is at most 2, and missing where it is missing. */
  lemma OverextendedIff(df: Frame, m: Maths)
    requires df.Valid() && "kalman_noise" in df.cols
    ensures var out := DetectFalseBreakout(df, m).value;
      var ratio := Overextension(Col(df, "kalman_noise").value, out.cols["noise_sigma"].cells, m);
      forall t :: 0 <= t < df.height ==>
        && (out.cols["is_overextended"].truths[t] == Known(true) <==> ratio[t].NaN? || (ratio[t].Val? && ratio[t].v > 2.0))
        && (out.cols["is_overextended"].truths[t] == Known(false) <==> ratio[t].Val? && ratio[t].v <= 2.0)
        && (out.cols["is_overextended"].truths[t].Unknown? <==> ratio[t].Null?)
  {
  }
}
