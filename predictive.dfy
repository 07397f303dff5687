/** The order-flow, momentum, volatility and liquidity signals of
    src/alpha/predictive.py.  Each signal is a formula over columns together
    with the `calculate` that reads its parameters and columns from a frame. */
module Predictive {
  import opened Elementary
  import opened Kernels
  import opened KernelLaws
  import opened Frames

  /** For non-negative a and b and a positive guard eps, (a-b)/(a+b+eps) lies in (-1, 1). */
  lemma ImbalanceRatio(a: real, b: real, eps: real)
    requires a >= 0.0 && b >= 0.0 && eps > 0.0
    ensures -1.0 < (a - b) / (a + b + eps) < 1.0
  {
    var d := a + b + eps;
    ScaledBounds(a - b, d, -1.0, true);
    ScaledBoundsAbove(a - b, d, 1.0, true);
  }

  /** The cell form of the ratio: two non-negative values give a value in (-1, 1). */
  lemma ImbalanceCell(b: Cell, s: Cell, eps: real)
    requires b.Val? && s.Val? && b.v >= 0.0 && s.v >= 0.0 && eps > 0.0
    ensures var r := Combine(Div, Combine(Sub, b, s), Combine(Add, Combine(Add, b, s), Val(eps)));
      r.Val? && -1.0 < r.v < 1.0
  {
    ImbalanceRatio(b.v, s.v, eps);
  }

  // ---------------------------------------------------------------------------
  // TradeImbalance
  // ---------------------------------------------------------------------------

  /** (mean buy - mean sell) / (mean buy + mean sell + 1e-4) over w rows, null volumes read as 0. */
  function TradeImbalance(buy: Column, sell: Column, w: nat, m: Maths): (r: Column)
    requires |buy| == |sell| && w >= 1
    ensures |r| == |buy|
  {
    var b := Rolling(MeanOf, Map(FillNull(0.0), buy, m), w, m);
    var s := Rolling(MeanOf, Map(FillNull(0.0), sell, m), w, m);
    Zip(Div, Zip(Sub, b, s), Scalar(Add, Zip(Add, b, s), 1e-4))
  }

  function CalcTradeImbalance(df: Frame, p: Params, m: Maths): (r: Result<Column>)
    requires df.Valid()
    ensures r.Ok? <==> Size(p, "window", 5).Ok? && "buy_vol" in df.cols && "sell_vol" in df.cols
    ensures r.Ok? ==> |r.value| == df.height
  {
    var w :- Size(p, "window", 5);
    var buy :- Col(df, "buy_vol");
    var sell :- Col(df, "sell_vol");
    Ok(TradeImbalance(buy, sell, w, m))
  }

  /** Missing in the first w-1 rows, then strictly between -1 and 1. */
  lemma TradeImbalanceRange(buy: Column, sell: Column, w: nat, m: Maths)
    requires |buy| == |sell| && w >= 1 && NullOrNonNegative(buy) && NullOrNonNegative(sell)
    ensures forall t :: 0 <= t < |buy| ==>
      (t + 1 < w ==> TradeImbalance(buy, sell, w, m)[t].Null?) &&
      (t + 1 >= w ==> TradeImbalance(buy, sell, w, m)[t].Val? && -1.0 < TradeImbalance(buy, sell, w, m)[t].v < 1.0)
  {
    var fb, fs := Map(FillNull(0.0), buy, m), Map(FillNull(0.0), sell, m);
    ZeroFilledVolume(buy, m);
    ZeroFilledVolume(sell, m);
    RollingWarmUp(MeanOf, fb, w, m);
    RollingWarmUp(MeanOf, fs, w, m);
    RollingMeanAtLeast(fb, w, 0.0, m);
    RollingMeanAtLeast(fs, w, 0.0, m);
    var b, s := Rolling(MeanOf, fb, w, m), Rolling(MeanOf, fs, w, m);
    forall t | 0 <= t < |buy| && t + 1 >= w
      ensures TradeImbalance(buy, sell, w, m)[t].Val? && -1.0 < TradeImbalance(buy, sell, w, m)[t].v < 1.0
    {
      assert TradeImbalance(buy, sell, w, m)[t] ==
        Combine(Div, Combine(Sub, b[t], s[t]), Combine(Add, Combine(Add, b[t], s[t]), Val(1e-4)));
      ImbalanceCell(b[t], s[t], 1e-4);
    }
  }

  /** The rolling mean over two finite rows is their average. */
  lemma PairMean(x: Column, t: nat, m: Maths)
    requires 1 <= t < |x| && x[t - 1].Val? && x[t].Val?
    ensures Rolling(MeanOf, x, 2, m)[t] == Val((x[t - 1].v + x[t].v) / 2.0)
  {
    var win := WindowAt(x, 2, t);
    assert win.Full?;
    assert win.vals == [x[t - 1].v, x[t].v];
    assert win.vals[1..] == [x[t].v];
    assert Sum([x[t].v]) == x[t].v by {
      assert [x[t].v][1..] == [];
    }
    assert Sum(win.vals) == x[t - 1].v + x[t].v;
  }

  /** Where the smoothed buy and sell volumes agree, the imbalance is exactly 0. */
  lemma BalancedFlowIsZero(buy: Column, sell: Column, w: nat, t: nat, m: Maths)
    requires |buy| == |sell| && w >= 1 && t < |buy|
    requires var b := Rolling(MeanOf, Map(FillNull(0.0), buy, m), w, m)[t];
      b.Val? && b.v >= 0.0 && Rolling(MeanOf, Map(FillNull(0.0), sell, m), w, m)[t] == b
    ensures TradeImbalance(buy, sell, w, m)[t] == Val(0.0)
  {
  }

  /** buy = [10, 0, 5, 5], sell = [0, 10, 5, 5], window 2: missing, 0, -, 0. */
  lemma TradeImbalanceScenario(m: Maths)
    ensures var r := TradeImbalance([Val(10.0), Val(0.0), Val(5.0), Val(5.0)],
                                    [Val(0.0), Val(10.0), Val(5.0), Val(5.0)], 2, m);
      r[0] == Null && r[1] == Val(0.0) && r[3] == Val(0.0)
  {
    var buy: Column := [Val(10.0), Val(0.0), Val(5.0), Val(5.0)];
    var sell: Column := [Val(0.0), Val(10.0), Val(5.0), Val(5.0)];
    ZeroFillKeepsValues(buy, m);
    ZeroFillKeepsValues(sell, m);
    PairMean(buy, 1, m);
    PairMean(sell, 1, m);
    PairMean(buy, 3, m);
    PairMean(sell, 3, m);
    BalancedFlowIsZero(buy, sell, 2, 1, m);
    BalancedFlowIsZero(buy, sell, 2, 3, m);
  }

  /** fill_null leaves a column without missing cells as it is. */
  lemma ZeroFillKeepsValues(x: Column, m: Maths)
    requires forall t :: 0 <= t < |x| ==> !x[t].Null?
    ensures Map(FillNull(0.0), x, m) == x
  {
  }

  // ---------------------------------------------------------------------------
  // VolumeWeightedPersistence
  // ---------------------------------------------------------------------------

  /** Per-row signed flow (buy - sell) / (buy + sell + 1e-9), null volumes read as 0. */
  function FlowRatio(buy: Column, sell: Column, m: Maths): (r: Column)
    requires |buy| == |sell|
    ensures |r| == |buy|
  {
    var b, s := Map(FillNull(0.0), buy, m), Map(FillNull(0.0), sell, m);
    Zip(Div, Zip(Sub, b, s), Scalar(Add, Zip(Add, b, s), 1e-9))
  }

  function VolumeWeightedPersistence(buy: Column, sell: Column, w: nat, m: Maths): (r: Column)
    requires |buy| == |sell| && w >= 1
    ensures |r| == |buy|
  {
    Rolling(MeanOf, FlowRatio(buy, sell, m), w, m)
  }

  function CalcVolumeWeightedPersistence(df: Frame, p: Params, m: Maths): (r: Result<Column>)
    requires df.Valid()
    ensures r.Ok? <==> Size(p, "window", 20).Ok? && "buy_vol" in df.cols && "sell_vol" in df.cols
    ensures r.Ok? ==> |r.value| == df.height
  {
    var w :- Size(p, "window", 20);
    var buy :- Col(df, "buy_vol");
    var sell :- Col(df, "sell_vol");
    Ok(VolumeWeightedPersistence(buy, sell, w, m))
  }

  /** Each row's flow ratio is defined and strictly inside (-1, 1). */
  lemma FlowRatioRange(buy: Column, sell: Column, m: Maths)
    requires |buy| == |sell| && NullOrNonNegative(buy) && NullOrNonNegative(sell)
    ensures Finite(FlowRatio(buy, sell, m)) && ColumnIn(FlowRatio(buy, sell, m), Open(-1.0, 1.0))
  {
    var b, s := Map(FillNull(0.0), buy, m), Map(FillNull(0.0), sell, m);
    ZeroFilledVolume(buy, m);
    ZeroFilledVolume(sell, m);
    forall t | 0 <= t < |buy| ensures FlowRatio(buy, sell, m)[t].Val? && -1.0 < FlowRatio(buy, sell, m)[t].v < 1.0 {
      assert FlowRatio(buy, sell, m)[t] ==
        Combine(Div, Combine(Sub, b[t], s[t]), Combine(Add, Combine(Add, b[t], s[t]), Val(1e-9)));
      ImbalanceCell(b[t], s[t], 1e-9);
    }
  }

  /** Missing in the first w-1 rows, then strictly between -1 and 1. */
  lemma PersistenceRange(buy: Column, sell: Column, w: nat, m: Maths)
    requires |buy| == |sell| && w >= 1 && NullOrNonNegative(buy) && NullOrNonNegative(sell)
    ensures forall t :: 0 <= t < |buy| ==>
      (t + 1 < w ==> VolumeWeightedPersistence(buy, sell, w, m)[t].Null?) &&
      (t + 1 >= w ==> VolumeWeightedPersistence(buy, sell, w, m)[t].Val? &&
                      -1.0 < VolumeWeightedPersistence(buy, sell, w, m)[t].v < 1.0)
  {
    FlowRatioRange(buy, sell, m);
    RollingWarmUp(MeanOf, FlowRatio(buy, sell, m), w, m);
    RollingMeanIn(FlowRatio(buy, sell, m), w, Open(-1.0, 1.0), m);
  }

  // ---------------------------------------------------------------------------
  // SmoothedMomentum
  // ---------------------------------------------------------------------------

  /** Python's int(period / 2), which truncates toward zero. */
  function TruncatedHalf(period: int): int
  {
    if period >= 0 then period / 2 else -((-period) / 2)
  }

  /** The EMA span max(2, int(period / 2)). */
  function MomentumSpan(period: int): (span: int)
    ensures span >= 2 && span >= TruncatedHalf(period)
    ensures span == 2 || span == TruncatedHalf(period)
  {
    if TruncatedHalf(period) > 2 then TruncatedHalf(period) else 2
  }

  /** log(EMA(forward-filled price)) differenced over `period` rows. */
  function SmoothedMomentum(price: Column, period: int, m: Maths): (r: Column)
    ensures |r| == |price|
  {
    var smooth := Ewm(ForwardFill(price), SpanAlpha(MomentumSpan(period) as real));
    Diff(Map(Ln, smooth, m), period)
  }

  /** The column read: `source` (default "vwap") when the frame has it, else "close". */
  function MomentumSource(df: Frame, p: Params): string
  {
    var source := Get(p, "source", TextParam("vwap"));
    if source.TextParam? && source.s in df.cols then source.s else "close"
  }

  function CalcSmoothedMomentum(df: Frame, p: Params, m: Maths): (r: Result<Column>)
    requires df.Valid()
    ensures r.Ok? <==> Lag(p, "period", 10).Ok? && MomentumSource(df, p) in df.cols
    ensures r.Ok? ==> |r.value| == df.height
  {
    var period :- Lag(p, "period", 10);
    var price :- Col(df, MomentumSource(df, p));
    Ok(SmoothedMomentum(price, period, m))
  }

  /** With default parameters on a frame without "vwap", the signal is read from "close". */
  lemma MomentumFallsBackToClose(df: Frame, m: Maths)
    requires df.Valid() && "vwap" !in df.cols
    ensures CalcSmoothedMomentum(df, map[], m) ==
      if "close" in df.cols then Ok(SmoothedMomentum(df.cols["close"].AsNumbers(), 10, m))
      else Err(MissingColumn("close"))
  {
  }

  /** The first `period` rows have no earlier row to difference against. */
  lemma MomentumWarmUp(price: Column, period: int, m: Maths)
    ensures forall t :: 0 <= t < |price| && t < period ==> SmoothedMomentum(price, period, m)[t].Null?
  {
  }

  // ---------------------------------------------------------------------------
  // VWAPDeviation
  // ---------------------------------------------------------------------------

  /** (close - vwap) / (vwap + 1e-9) on forward-filled prices. */
  function VwapDeviation(close: Column, vwap: Column, m: Maths): (r: Column)
    requires |close| == |vwap|
    ensures |r| == |close|
  {
    var c, v := ForwardFill(close), ForwardFill(vwap);
    Zip(Div, Zip(Sub, c, v), Scalar(Add, v, 1e-9))
  }

  function CalcVwapDeviation(df: Frame, p: Params, m: Maths): (r: Result<Column>)
    requires df.Valid()
    ensures r.Ok? <==> "close" in df.cols && "vwap" in df.cols
    ensures r.Ok? ==> |r.value| == df.height
  {
    var close :- Col(df, "close");
    var vwap :- Col(df, "vwap");
    Ok(VwapDeviation(close, vwap, m))
  }

  /** The deviation is exactly 0 where the filled close equals the filled vwap (and the guarded
      denominator is not 0). */
  lemma VwapDeviationZeroIff(close: Column, vwap: Column, m: Maths, t: nat)
    requires |close| == |vwap| && t < |close|
    ensures var c, v := ForwardFill(close)[t], ForwardFill(vwap)[t];
      VwapDeviation(close, vwap, m)[t] == Val(0.0) <==>
        c.Val? && v.Val? && c.v == v.v && v.v + 1e-9 != 0.0
  {
    var c, v := ForwardFill(close)[t], ForwardFill(vwap)[t];
    if c.Val? && v.Val? && v.v + 1e-9 != 0.0 {
      var d := v.v + 1e-9;
      assert (c.v - v.v) / d * d == c.v - v.v;
    }
  }

  /** With a positive vwap the deviation has the sign of close - vwap. */
  lemma VwapDeviationSign(close: Column, vwap: Column, m: Maths, t: nat)
    requires |close| == |vwap| && t < |close|
    requires ForwardFill(close)[t].Val? && ForwardFill(vwap)[t].Val? && ForwardFill(vwap)[t].v > 0.0
    ensures var c, v, r := ForwardFill(close)[t].v, ForwardFill(vwap)[t].v, VwapDeviation(close, vwap, m)[t];
      r.Val? && (r.v > 0.0 <==> c > v) && (r.v < 0.0 <==> c < v)
  {
    var c, v := ForwardFill(close)[t].v, ForwardFill(vwap)[t].v;
    var d := v + 1e-9;
    if c > v {
      ScaledBounds(c - v, d, 0.0, true);
    } else if c < v {
      ScaledBoundsAbove(c - v, d, 0.0, true);
    }
  }

  // ---------------------------------------------------------------------------
  // ParkinsonVolatility
  // ---------------------------------------------------------------------------

  /** sqrt(mean(ln(high / (low + 1e-9))^2) / (4 ln 2)), missing high or low replaced by close. */
  function ParkinsonVolatility(close: Column, high: Column, low: Column, w: nat, m: Maths): (r: Column)
    requires |close| == |high| == |low| && w >= 1
    ensures |r| == |close|
  {
    var h, l := FillNullFrom(high, close), FillNullFrom(low, close);
    var range := Map(Ln, Zip(Div, h, Scalar(Add, l, 1e-9)), m);
    // multiplying by the constant 1 / (4 ln 2) is dividing by 4 ln 2
    Map(Sqrt, Scalar(Div, Rolling(MeanOf, Map(Square, range, m), w, m), 4.0 * m.ln(2.0)), m)
  }

  function CalcParkinsonVolatility(df: Frame, p: Params, m: Maths): (r: Result<Column>)
    requires df.Valid()
    ensures r.Ok? <==> Size(p, "window", 20).Ok? && "close" in df.cols && "high" in df.cols && "low" in df.cols
    ensures r.Ok? ==> |r.value| == df.height
  {
    var w :- Size(p, "window", 20);
    var high :- Col(df, "high");
    var low :- Col(df, "low");
    var close :- Col(df, "close");
    Ok(ParkinsonVolatility(close, high, low, w, m))
  }

  /** The squared log range of one bar with positive high and low. */
  lemma ParkinsonRow(h: Cell, l: Cell, m: Maths)
    requires h.Val? && h.v > 0.0 && l.Val? && l.v > 0.0
    ensures var sq := Eval(Square, Eval(Ln, Combine(Div, h, Combine(Add, l, Val(1e-9))), m), m);
      sq.Val? && sq.v >= 0.0
  {
    ScaledBounds(h.v, l.v + 1e-9, 0.0, true);
  }

  /** Squared log ranges of positive prices: finite and non-negative. */
  lemma ParkinsonSquares(close: Column, high: Column, low: Column, m: Maths)
    requires |close| == |high| == |low|
    requires forall t :: 0 <= t < |close| ==> close[t].Val? && close[t].v > 0.0
    requires forall t :: 0 <= t < |close| ==> high[t].Null? || (high[t].Val? && high[t].v > 0.0)
    requires forall t :: 0 <= t < |close| ==> low[t].Null? || (low[t].Val? && low[t].v > 0.0)
    ensures var h, l := FillNullFrom(high, close), FillNullFrom(low, close);
      var sq := Map(Square, Map(Ln, Zip(Div, h, Scalar(Add, l, 1e-9)), m), m);
      Finite(sq) && ColumnAtLeast(sq, 0.0)
  {
    var h, l := FillNullFrom(high, close), FillNullFrom(low, close);
    var sq := Map(Square, Map(Ln, Zip(Div, h, Scalar(Add, l, 1e-9)), m), m);
    forall t | 0 <= t < |close| ensures sq[t].Val? && sq[t].v >= 0.0 {
      assert sq[t] == Eval(Square, Eval(Ln, Combine(Div, h[t], Combine(Add, l[t], Val(1e-9))), m), m);
      ParkinsonRow(h[t], l[t], m);
    }
  }

  /** sqrt(mean / k) for k > 0 keeps a column that is missing in the warm-up and non-negative after it. */
  lemma ScaledRoot(mean: Column, k: real, w: nat, m: Maths)
    requires Lawful(m) && k > 0.0
    requires forall t :: 0 <= t < |mean| ==>
      (t + 1 < w ==> mean[t].Null?) && (t + 1 >= w ==> mean[t].Val? && mean[t].v >= 0.0)
    ensures forall t :: 0 <= t < |mean| ==>
      (t + 1 < w ==> Map(Sqrt, Scalar(Div, mean, k), m)[t].Null?) &&
      (t + 1 >= w ==> Map(Sqrt, Scalar(Div, mean, k), m)[t].Val? && Map(Sqrt, Scalar(Div, mean, k), m)[t].v >= 0.0)
  {
    var scaled := Scalar(Div, mean, k);
    forall t | 0 <= t < |mean| && t + 1 >= w ensures scaled[t].Val? && scaled[t].v >= 0.0 {
      ScaledBounds(mean[t].v, k, 0.0, false);
    }
  }

  /** On positive prices, where high or low may be missing, the estimator is missing only in the
      warm-up and is a non-negative number afterwards. */
  lemma ParkinsonDefined(close: Column, high: Column, low: Column, w: nat, m: Maths)
    requires Lawful(m) && |close| == |high| == |low| && w >= 1
    requires forall t :: 0 <= t < |close| ==> close[t].Val? && close[t].v > 0.0
    requires forall t :: 0 <= t < |close| ==> high[t].Null? || (high[t].Val? && high[t].v > 0.0)
    requires forall t :: 0 <= t < |close| ==> low[t].Null? || (low[t].Val? && low[t].v > 0.0)
    ensures forall t :: 0 <= t < |close| ==>
      (t + 1 < w ==> ParkinsonVolatility(close, high, low, w, m)[t].Null?) &&
      (t + 1 >= w ==> ParkinsonVolatility(close, high, low, w, m)[t].Val? &&
                      ParkinsonVolatility(close, high, low, w, m)[t].v >= 0.0)
  {
    var h, l := FillNullFrom(high, close), FillNullFrom(low, close);
    var sq := Map(Square, Map(Ln, Zip(Div, h, Scalar(Add, l, 1e-9)), m), m);
    ParkinsonSquares(close, high, low, m);
    RollingWarmUp(MeanOf, sq, w, m);
    RollingMeanAtLeast(sq, w, 0.0, m);
    LnTwoPositive(m);
    ScaledRoot(Rolling(MeanOf, sq, w, m), 4.0 * m.ln(2.0), w, m);
  }

  // ---------------------------------------------------------------------------
  // KyleLambda
  // ---------------------------------------------------------------------------

  /** corr(flow, ret) * std(ret) / (std(flow) + 1e-9); a missing correlation and a NaN product read as 0. */
  function KyleLambda(close: Column, buy: Column, sell: Column, w: nat, m: Maths): (r: Column)
    requires |close| == |buy| == |sell| && w >= 1
    ensures |r| == |close|
  {
    var ret := LogReturns(close, m);
    var flow := Zip(Sub, Map(FillNull(0.0), buy, m), Map(FillNull(0.0), sell, m));
    var corr := Map(FillNull(0.0), RollingCorr(flow, ret, w, m), m);
    var scale := Zip(Div, Rolling(StdOf, ret, w, m), Scalar(Add, Rolling(StdOf, flow, w, m), 1e-9));
    Map(FillNaN(0.0), Zip(Mul, corr, scale), m)
  }

  function CalcKyleLambda(df: Frame, p: Params, m: Maths): (r: Result<Column>)
    requires df.Valid()
    ensures r.Ok? <==> Size(p, "window", 50).Ok? && "close" in df.cols && "buy_vol" in df.cols && "sell_vol" in df.cols
    ensures r.Ok? ==> |r.value| == df.height
  {
    var w :- Size(p, "window", 50);
    var close :- Col(df, "close");
    var buy :- Col(df, "buy_vol");
    var sell :- Col(df, "sell_vol");
    Ok(KyleLambda(close, buy, sell, w, m))
  }

  /** A constant positive close moves nothing: after the warm-up the impact estimate is 0 (the
      correlation with a flat return series is NaN, and the NaN product is read as 0). */
  lemma KyleLambdaOfConstantClose(close: Column, buy: Column, sell: Column, w: nat, c: real, m: Maths)
    requires Lawful(m) && |close| == |buy| == |sell| && w >= 2 && c > 0.0
    requires forall t :: 0 <= t < |close| ==> close[t] == Val(c)
    requires NullOrNonNegative(buy) && NullOrNonNegative(sell)
    ensures forall t :: 0 <= t < |close| ==>
      KyleLambda(close, buy, sell, w, m)[t] == if t + 1 < w then Null else Val(0.0)
  {
    var ret := LogReturns(close, m);
    LogReturnsOfConstant(close, c, m);
    var flow := Zip(Sub, Map(FillNull(0.0), buy, m), Map(FillNull(0.0), sell, m));
    ZeroFilledVolume(buy, m);
    ZeroFilledVolume(sell, m);
    assert Finite(ret) && Finite(flow);
    RollingWarmUp(StdOf, ret, w, m);
    RollingWarmUp(StdOf, flow, w, m);
    RollingSpreadNonNegative(flow, w, m);
    SqrtOfZero(m);
    forall t | 0 <= t < |close|
      ensures KyleLambda(close, buy, sell, w, m)[t] == if t + 1 < w then Null else Val(0.0)
    {
      if t + 1 >= w {
        KyleRow(ret, flow, w, t, m);
      }
    }
  }

  /** One row after the warm-up of a flat return series. */
  lemma KyleRow(ret: Column, flow: Column, w: nat, t: nat, m: Maths)
    requires Lawful(m) && |ret| == |flow| && 2 <= w <= t + 1 < |ret| + 1
    requires forall i :: 0 <= i < |ret| ==> ret[i] == Val(0.0)
    requires Finite(flow)
    ensures var corr := Map(FillNull(0.0), RollingCorr(flow, ret, w, m), m);
      var scale := Zip(Div, Rolling(StdOf, ret, w, m), Scalar(Add, Rolling(StdOf, flow, w, m), 1e-9));
      Map(FillNaN(0.0), Zip(Mul, corr, scale), m)[t] == Val(0.0)
  {
    var wr := WindowAt(ret, w, t);
    var wf := WindowAt(flow, w, t);
    assert wr.Full? && wf.Full?;
    SampleVarOfConstant(wr.vals, 0.0);
    SqrtOfZero(m);
    assert Rolling(StdOf, ret, w, m)[t] == Val(0.0);
    RollingSpreadNonNegative(flow, w, m);
    assert Rolling(StdOf, flow, w, m)[t].Val? && Rolling(StdOf, flow, w, m)[t].v >= 0.0;
    assert Pearson(wf.vals, wr.vals, m) == NaN;
  }

  // ---------------------------------------------------------------------------
  // AmihudLiquidity
  // ---------------------------------------------------------------------------

  /** Rolling mean of |log return| / (turnover + 1e-9), null turnover read as 0. */
  function AmihudLiquidity(close: Column, turnover: Column, w: nat, m: Maths): (r: Column)
    requires |close| == |turnover| && w >= 1
    ensures |r| == |close|
  {
    var absRet := Map(FillNull(0.0), Map(Abs, Diff(Map(Ln, ForwardFill(close), m), 1), m), m);
    Rolling(MeanOf, Zip(Div, absRet, Scalar(Add, Map(FillNull(0.0), turnover, m), 1e-9)), w, m)
  }

  function CalcAmihudLiquidity(df: Frame, p: Params, m: Maths): (r: Result<Column>)
    requires df.Valid()
    ensures r.Ok? <==> Size(p, "window", 50).Ok? && "close" in df.cols && "turnover" in df.cols
    ensures r.Ok? ==> |r.value| == df.height
  {
    var w :- Size(p, "window", 50);
    var close :- Col(df, "close");
    var turnover :- Col(df, "turnover");
    Ok(AmihudLiquidity(close, turnover, w, m))
  }

  /** Non-negative turnover gives a non-negative illiquidity. */
  lemma AmihudNonNegative(close: Column, turnover: Column, w: nat, m: Maths)
    requires |close| == |turnover| && w >= 1 && NullOrNonNegative(turnover)
    ensures ColumnAtLeast(AmihudLiquidity(close, turnover, w, m), 0.0)
  {
    var move := Map(Abs, Diff(Map(Ln, ForwardFill(close), m), 1), m);
    var absRet := Map(FillNull(0.0), move, m);
    var ft := Map(FillNull(0.0), turnover, m);
    var ratio := Zip(Div, absRet, Scalar(Add, ft, 1e-9));
    forall t | 0 <= t < |ratio| ensures ratio[t].Val? ==> ratio[t].v >= 0.0 {
      assert ratio[t] == Combine(Div, absRet[t], Combine(Add, ft[t], Val(1e-9)));
      assert absRet[t] == Eval(FillNull(0.0), move[t], m);
      assert move[t].Val? ==> move[t].v >= 0.0;
      GuardedQuotientCell(absRet[t], ft[t], 1e-9);
    }
    RollingMeanAtLeast(ratio, w, 0.0, m);
  }

  /** A missing turnover counts as a turnover of 0. */
  lemma AmihudNullTurnoverIsZero(close: Column, turnover: Column, w: nat, m: Maths)
    requires |close| == |turnover| && w >= 1
    ensures AmihudLiquidity(close, turnover, w, m) == AmihudLiquidity(close, Map(FillNull(0.0), turnover, m), w, m)
  {
    assert Map(FillNull(0.0), Map(FillNull(0.0), turnover, m), m) == Map(FillNull(0.0), turnover, m);
  }

  // ---------------------------------------------------------------------------
  // SpreadResilience
  // ---------------------------------------------------------------------------

  /** Relative range (high - low) / (close + 1e-9) of each bar. */
  function RelativeRange(high: Column, low: Column, close: Column): (r: Column)
    requires |high| == |low| == |close|
    ensures |r| == |close|
  {
    Zip(Div, Zip(Sub, high, low), Scalar(Add, close, 1e-9))
  }

  /** Rolling correlation of the relative range with its previous bar; a missing correlation reads as 0. */
  function SpreadResilience(high: Column, low: Column, close: Column, w: nat, m: Maths): (r: Column)
    requires |high| == |low| == |close| && w >= 1
    ensures |r| == |close|
  {
    var s := RelativeRange(high, low, close);
    Map(FillNull(0.0), RollingCorr(s, Shift(s, 1), w, m), m)
  }

  function CalcSpreadResilience(df: Frame, p: Params, m: Maths): (r: Result<Column>)
    requires df.Valid()
    ensures r.Ok? <==> Size(p, "window", 50).Ok? && "high" in df.cols && "low" in df.cols && "close" in df.cols
    ensures r.Ok? ==> |r.value| == df.height
  {
    var w :- Size(p, "window", 50);
    var high :- Col(df, "high");
    var low :- Col(df, "low");
    var close :- Col(df, "close");
    Ok(SpreadResilience(high, low, close, w, m))
  }

  /** No row is missing: the warm-up and gaps read as 0; on finite ranges the first w rows
      (whose window reaches the missing lag of row 0) are exactly 0. */
  lemma SpreadResilienceWarmUp(high: Column, low: Column, close: Column, w: nat, m: Maths)
    requires |high| == |low| == |close| && w >= 1
    ensures forall t :: 0 <= t < |close| ==> !SpreadResilience(high, low, close, w, m)[t].Null?
    ensures forall t :: 0 <= t < |close| && t < w ==> SpreadResilience(high, low, close, w, m)[t] == Val(0.0)
  {
    var s := RelativeRange(high, low, close);
    forall t | 0 <= t < |close| && t < w ensures WindowAt(Shift(s, 1), w, t).Incomplete? {
      if t + 1 >= w {
        assert Shift(s, 1)[t + 1 - w] == Null;
      }
    }
  }
}
