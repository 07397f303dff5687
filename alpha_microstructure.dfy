/** The microstructure signals of src/alpha/microstructure.py: trade-arrival
    bursts, round-number barriers, order-flow memory, trade-size dispersion,
    the variance ratio and mean crossings. */
module AlphaMicrostructure {
  import opened Elementary
  import opened Kernels
  import opened KernelLaws
  import opened Frames

  // ---------------------------------------------------------------------------
  // SelfExcitingBurst
  // ---------------------------------------------------------------------------

  /** The largest value among rows 0..t. */
  function PrefixMax(s: Column, t: nat): (r: real)
    requires t < |s| && Finite(s)
    ensures forall i :: 0 <= i <= t ==> s[i].v <= r
    ensures exists i :: 0 <= i <= t && s[i].v == r
  {
    if t == 0 then s[0].v
    else
      var p := PrefixMax(s, t - 1);
      if s[t].v > p then s[t].v else p
  }

  /** (EMA_fast - EMA_slow) / std_slow of the trade counts, null counts read as 0 and the std's
      warm-up read as 1e-6. */
  function SelfExcitingBurst(count: Column, fast: nat, slow: nat, m: Maths): (r: Column)
    requires fast >= 1 && slow >= 1
    ensures |r| == |count|
  {
    var c := Map(FillNull(0.0), count, m);
    var intensityFast := Ewm(c, SpanAlpha(fast as real));
    var intensitySlow := Ewm(c, SpanAlpha(slow as real));
    var stdSlow := Map(FillNull(1e-6), Rolling(StdOf, c, slow, m), m);
    Zip(Div, Zip(Sub, intensityFast, intensitySlow), stdSlow)
  }

  function CalcSelfExcitingBurst(df: Frame, p: Params, m: Maths): (r: Result<Column>)
    requires df.Valid()
    ensures r.Ok? <==> Size(p, "fast_span", 10).Ok? && Size(p, "slow_span", 100).Ok? && "trade_count" in df.cols
    ensures r.Ok? ==> |r.value| == df.height
  {
    var fast :- Size(p, "fast_span", 10);
    var slow :- Size(p, "slow_span", 100);
    var count :- Col(df, "trade_count");
    Ok(SelfExcitingBurst(count, fast, slow, m))
  }

  /** For non-negative counts each intensity is a number between 0 and the largest count so far. */
  lemma IntensityBounded(count: Column, span: nat, m: Maths)
    requires span >= 1 && NullOrNonNegative(count)
    ensures var c := Map(FillNull(0.0), count, m);
      Finite(c) &&
      forall t :: 0 <= t < |count| ==>
        Ewm(c, SpanAlpha(span as real))[t].Val? &&
        0.0 <= Ewm(c, SpanAlpha(span as real))[t].v <= PrefixMax(c, t)
  {
    var c := Map(FillNull(0.0), count, m);
    ZeroFilledVolume(count, m);
    var alpha := SpanAlpha(span as real);
    forall t | 0 <= t < |count|
      ensures Ewm(c, alpha)[t].Val? && 0.0 <= Ewm(c, alpha)[t].v <= PrefixMax(c, t)
    {
      EwmStateIn(c, alpha, t, 0.0, PrefixMax(c, t));
    }
  }

  /** The slow std is the 1e-6 placeholder in its first slow-1 rows. */
  lemma BurstScaleWarmUp(count: Column, slow: nat, m: Maths)
    requires slow >= 1
    ensures forall t :: 0 <= t < |count| && t + 1 < slow ==>
      Map(FillNull(1e-6), Rolling(StdOf, Map(FillNull(0.0), count, m), slow, m), m)[t] == Val(1e-6)
  {
  }

  /** Constant counts: the two intensities agree, so the burst is 0 during the std's warm-up and
      0/0 = NaN once the std is a true 0. */
  lemma BurstOfConstant(count: Column, fast: nat, slow: nat, k: real, m: Maths)
    requires Lawful(m) && fast >= 1 && slow >= 2
    requires forall t :: 0 <= t < |count| ==> count[t] == Val(k)
    ensures forall t :: 0 <= t < |count| ==>
      SelfExcitingBurst(count, fast, slow, m)[t] == if t + 1 < slow then Val(0.0) else NaN
  {
    var c := Map(FillNull(0.0), count, m);
    assert c == count;
    EwmOfConstant(count, SpanAlpha(fast as real), k);
    EwmOfConstant(count, SpanAlpha(slow as real), k);
    RollingSpreadOfConstant(count, slow, k, m);
  }

  // ---------------------------------------------------------------------------
  // PsychologicalBarrier
  // ---------------------------------------------------------------------------

  /** Distance to the nearest multiple of `level`: min(c % level, level - c % level). */
  function BarrierDistance(close: Column, level: real): (r: Column)
    ensures |r| == |close|
  {
    var rem := Scalar(Rem, close, level);
    MinHorizontal(rem, ScalarLeft(Sub, level, rem))
  }

  /** Rolling mean of exp(-0.1 * distance). */
  function PsychologicalBarrier(close: Column, level: real, w: nat, m: Maths): (r: Column)
    requires w >= 1
    ensures |r| == |close|
  {
    Rolling(MeanOf, Map(Exp, ScalarLeft(Mul, -0.1, BarrierDistance(close, level)), m), w, m)
  }

  function CalcPsychologicalBarrier(df: Frame, p: Params, m: Maths): (r: Result<Column>)
    requires df.Valid()
    ensures r.Ok? <==> Number(p, "level", 100.0).Ok? && Size(p, "window", 20).Ok? && "close" in df.cols
    ensures r.Ok? ==> |r.value| == df.height
  {
    var level :- Number(p, "level", 100.0);
    var w :- Size(p, "window", 20);
    var close :- Col(df, "close");
    Ok(PsychologicalBarrier(close, level, w, m))
  }

  /** The remainder by a positive level lies in [0, level). */
  lemma RemainderRange(c: real, level: real)
    requires level > 0.0
    ensures 0.0 <= c - level * ((c / level).Floor as real)
    ensures c - level * ((c / level).Floor as real) < level
  {
    var q := c / level;
    var k := q.Floor as real;
    assert k <= q < k + 1.0;
    assert level * q == c;
    var below, above := q - k, k + 1.0 - q;
    assert c - level * k == level * below;
    assert level - (c - level * k) == level * above;
    NonNegativeProduct(level, below);
    PositiveProduct(level, above);
    var r := c - level * k;
    assert level - r > 0.0;
    assert r < level;
  }

  /** With a positive level the distance of a price to the nearest barrier is in [0, level/2];
      a missing price has no distance. */
  lemma BarrierDistanceRange(close: Column, level: real)
    requires level > 0.0
    ensures forall t :: 0 <= t < |close| && close[t].Val? ==>
      BarrierDistance(close, level)[t].Val? && 0.0 <= BarrierDistance(close, level)[t].v <= level / 2.0
    ensures forall t :: 0 <= t < |close| && close[t].Null? ==> BarrierDistance(close, level)[t].Null?
  {
    forall t | 0 <= t < |close| && close[t].Val?
      ensures BarrierDistance(close, level)[t].Val? && 0.0 <= BarrierDistance(close, level)[t].v <= level / 2.0
    {
      RemainderRange(close[t].v, level);
    }
  }

  /** On finite prices and a positive level the barrier score is missing in the warm-up and lies
      in (0, 1] after it. */
  lemma BarrierRange(close: Column, level: real, w: nat, m: Maths)
    requires Lawful(m) && level > 0.0 && w >= 1 && Finite(close)
    ensures forall t :: 0 <= t < |close| ==>
      (t + 1 < w ==> PsychologicalBarrier(close, level, w, m)[t].Null?) &&
      (t + 1 >= w ==> PsychologicalBarrier(close, level, w, m)[t].Val? &&
                      0.0 < PsychologicalBarrier(close, level, w, m)[t].v <= 1.0)
  {
    BarrierDistanceRange(close, level);
    var d := BarrierDistance(close, level);
    var e := Map(Exp, ScalarLeft(Mul, -0.1, d), m);
    forall t | 0 <= t < |close| ensures e[t].Val? && 0.0 < e[t].v <= 1.0 {
      ExpAtMostOne(m, -0.1 * d[t].v);
    }
    RollingWarmUp(MeanOf, e, w, m);
    RollingMeanIn(e, w, Interval(0.0, true, 1.0, false), m);
  }

  // ---------------------------------------------------------------------------
  // DeBiasedFlowCorr
  // ---------------------------------------------------------------------------

  /** sign(buy - sell), 0 where either volume is missing. */
  function TradeSign(buy: Column, sell: Column, m: Maths): (r: Column)
    requires |buy| == |sell|
    ensures |r| == |buy|
  {
    Map(FillNull(0.0), Map(Sign, Zip(Sub, buy, sell), m), m)
  }

  /** corr(sign, sign lagged short) - corr(sign, sign lagged long); a missing difference reads as 0. */
  function DeBiasedFlowCorr(buy: Column, sell: Column, short: int, long: int, w: nat, m: Maths): (r: Column)
    requires |buy| == |sell| && w >= 1
    ensures |r| == |buy|
  {
    var s := TradeSign(buy, sell, m);
    Map(FillNull(0.0), Zip(Sub, RollingCorr(s, Shift(s, short), w, m), RollingCorr(s, Shift(s, long), w, m)), m)
  }

  function CalcDeBiasedFlowCorr(df: Frame, p: Params, m: Maths): (r: Result<Column>)
    requires df.Valid()
    ensures r.Ok? <==> Lag(p, "short_lag", 1).Ok? && Lag(p, "long_lag", 5).Ok? && Size(p, "window", 50).Ok?
                       && "buy_vol" in df.cols && "sell_vol" in df.cols
    ensures r.Ok? ==> |r.value| == df.height
  {
    var short :- Lag(p, "short_lag", 1);
    var long :- Lag(p, "long_lag", 5);
    var w :- Size(p, "window", 50);
    var buy :- Col(df, "buy_vol");
    var sell :- Col(df, "sell_vol");
    Ok(DeBiasedFlowCorr(buy, sell, short, long, w, m))
  }

  /** Without NaN volumes every sign is -1, 0 or 1. */
  lemma TradeSignValues(buy: Column, sell: Column, m: Maths)
    requires |buy| == |sell|
    requires forall t :: 0 <= t < |buy| ==> !buy[t].NaN? && !sell[t].NaN?
    ensures forall t :: 0 <= t < |buy| ==> TradeSign(buy, sell, m)[t] in {Val(-1.0), Val(0.0), Val(1.0)}
  {
  }

  /** The lag-k correlation is missing while its window still reaches back past row 0. */
  lemma LaggedCorrWarmUp(s: Column, k: int, w: nat, t: nat, m: Maths)
    requires w >= 1 && 0 <= k && t < |s| && t + 1 < w + k
    ensures RollingCorr(s, Shift(s, k), w, m)[t].Null?
  {
    if t + 1 >= w {
      assert Shift(s, k)[t + 1 - w].Null?;
    }
  }

  /** No row is missing; while either lagged window reaches back past row 0 the value is 0. */
  lemma FlowCorrWarmUp(buy: Column, sell: Column, short: int, long: int, w: nat, m: Maths)
    requires |buy| == |sell| && w >= 1
    ensures forall t :: 0 <= t < |buy| ==> !DeBiasedFlowCorr(buy, sell, short, long, w, m)[t].Null?
    ensures forall t :: 0 <= t < |buy| && ((0 <= short && t + 1 < w + short) || (0 <= long && t + 1 < w + long)) ==>
      DeBiasedFlowCorr(buy, sell, short, long, w, m)[t] == Val(0.0)
  {
    var s := TradeSign(buy, sell, m);
    forall t | 0 <= t < |buy| && ((0 <= short && t + 1 < w + short) || (0 <= long && t + 1 < w + long))
      ensures DeBiasedFlowCorr(buy, sell, short, long, w, m)[t] == Val(0.0)
    {
      if 0 <= short && t + 1 < w + short {
        LaggedCorrWarmUp(s, short, w, t, m);
      } else {
        LaggedCorrWarmUp(s, long, w, t, m);
      }
    }
  }

  /** With equal lags the two correlations cancel: every row is 0, or NaN where the correlation is. */
  lemma FlowCorrEqualLags(buy: Column, sell: Column, lag: int, w: nat, m: Maths)
    requires |buy| == |sell| && w >= 1
    ensures forall t :: 0 <= t < |buy| ==> DeBiasedFlowCorr(buy, sell, lag, lag, w, m)[t] in {Val(0.0), NaN}
  {
  }

  // ---------------------------------------------------------------------------
  // TradeSizeEntropy
  // ---------------------------------------------------------------------------

  /** Coefficient of variation std / (mean + 1e-9) of the volume, null volume read as 0. */
  function TradeSizeEntropy(volume: Column, w: nat, m: Maths): (r: Column)
    requires w >= 1
    ensures |r| == |volume|
  {
    var v := Map(FillNull(0.0), volume, m);
    Zip(Div, Rolling(StdOf, v, w, m), Scalar(Add, Rolling(MeanOf, v, w, m), 1e-9))
  }

  function CalcTradeSizeEntropy(df: Frame, p: Params, m: Maths): (r: Result<Column>)
    requires df.Valid()
    ensures r.Ok? <==> Size(p, "window", 50).Ok? && "volume" in df.cols
    ensures r.Ok? ==> |r.value| == df.height
  {
    var w :- Size(p, "window", 50);
    var volume :- Col(df, "volume");
    Ok(TradeSizeEntropy(volume, w, m))
  }

  /** Non-negative volumes give a non-negative dispersion. */
  lemma TradeSizeEntropyNonNegative(volume: Column, w: nat, m: Maths)
    requires Lawful(m) && w >= 1 && NullOrNonNegative(volume)
    ensures ColumnAtLeast(TradeSizeEntropy(volume, w, m), 0.0)
  {
    var v := Map(FillNull(0.0), volume, m);
    ZeroFilledVolume(volume, m);
    RollingSpreadNonNegative(v, w, m);
    RollingMeanAtLeast(v, w, 0.0, m);
    QuotientNonNegative(Rolling(StdOf, v, w, m), Rolling(MeanOf, v, w, m), 1e-9);
  }

  /** Trades of one size have no dispersion: 0 after the warm-up. */
  lemma TradeSizeEntropyOfConstant(volume: Column, w: nat, k: real, m: Maths)
    requires Lawful(m) && w >= 2 && k >= 0.0
    requires forall t :: 0 <= t < |volume| ==> volume[t] == Val(k)
    ensures forall t :: 0 <= t < |volume| ==>
      TradeSizeEntropy(volume, w, m)[t] == if t + 1 < w then Null else Val(0.0)
  {
    var v := Map(FillNull(0.0), volume, m);
    assert forall t :: 0 <= t < |v| ==> v[t] == Val(k);
    var sd, mean := Rolling(StdOf, v, w, m), Rolling(MeanOf, v, w, m);
    RollingSpreadOfConstant(v, w, k, m);
    RollingMeanOfConstant(v, w, k, m);
    forall t | 0 <= t < |volume|
      ensures TradeSizeEntropy(volume, w, m)[t] == if t + 1 < w then Null else Val(0.0)
    {
      TradeSizeEntropyAt(volume, w, t, m);
      ZeroOverGuard(sd[t], mean[t], k, t + 1 >= w);
    }
  }

  /** 0 / (k + 1e-9) = 0 once both operands are defined, missing before. */
  lemma ZeroOverGuard(a: Cell, d: Cell, k: real, late: bool)
    requires k >= 0.0
    requires a == (if late then Val(0.0) else Null) && d == (if late then Val(k) else Null)
    ensures Combine(Div, a, Combine(Add, d, Val(1e-9))) == if late then Val(0.0) else Null
  {
  }

  lemma TradeSizeEntropyAt(volume: Column, w: nat, t: nat, m: Maths)
    requires w >= 1 && t < |volume|
    ensures var v := Map(FillNull(0.0), volume, m);
      TradeSizeEntropy(volume, w, m)[t] ==
        Combine(Div, Rolling(StdOf, v, w, m)[t], Combine(Add, Rolling(MeanOf, v, w, m)[t], Val(1e-9)))
  {
  }

  // ---------------------------------------------------------------------------
  // FractalDimension
  // ---------------------------------------------------------------------------

  /** Two-row log returns of the forward-filled close, the first two (missing) read as 0. */
  function TwoStepReturns(close: Column, m: Maths): (r: Column)
    ensures |r| == |close|
  {
    Map(FillNull(0.0), Diff(Map(Ln, ForwardFill(close), m), 2), m)
  }

  /** Variance ratio var(r2) / (2 var(r1) + 1e-9). */
  function FractalDimension(close: Column, w: nat, m: Maths): (r: Column)
    requires w >= 1
    ensures |r| == |close|
  {
    var var1 := Rolling(VarOf, LogReturns(close, m), w, m);
    var var2 := Rolling(VarOf, TwoStepReturns(close, m), w, m);
    Zip(Div, var2, Scalar(Add, ScalarLeft(Mul, 2.0, var1), 1e-9))
  }

  function CalcFractalDimension(df: Frame, p: Params, m: Maths): (r: Result<Column>)
    requires df.Valid()
    ensures r.Ok? <==> Size(p, "window", 50).Ok? && "close" in df.cols
    ensures r.Ok? ==> |r.value| == df.height
  {
    var w :- Size(p, "window", 50);
    var close :- Col(df, "close");
    Ok(FractalDimension(close, w, m))
  }

  /** Both variances are non-negative, so the ratio is. */
  lemma FractalDimensionNonNegative(close: Column, w: nat, m: Maths)
    requires w >= 1
    ensures ColumnAtLeast(FractalDimension(close, w, m), 0.0)
  {
    var var1 := Rolling(VarOf, LogReturns(close, m), w, m);
    var var2 := Rolling(VarOf, TwoStepReturns(close, m), w, m);
    RollingVarNonNegative(LogReturns(close, m), w, m);
    RollingVarNonNegative(TwoStepReturns(close, m), w, m);
    QuotientNonNegative(var2, ScalarLeft(Mul, 2.0, var1), 1e-9);
  }

  /** A flat positive close has no variance at either horizon: 0 after the warm-up. */
  lemma FractalDimensionOfConstant(close: Column, w: nat, c: real, m: Maths)
    requires w >= 2 && c > 0.0
    requires forall t :: 0 <= t < |close| ==> close[t] == Val(c)
    ensures forall t :: 0 <= t < |close| ==>
      FractalDimension(close, w, m)[t] == if t + 1 < w then Null else Val(0.0)
  {
    var var1, var2 := Rolling(VarOf, LogReturns(close, m), w, m), Rolling(VarOf, TwoStepReturns(close, m), w, m);
    ReturnVariancesOfConstant(close, w, c, m);
    forall t | 0 <= t < |close|
      ensures FractalDimension(close, w, m)[t] == if t + 1 < w then Null else Val(0.0)
    {
      FractalDimensionAt(close, w, t, m);
      assert Combine(Mul, Val(2.0), var1[t]) == if t + 1 < w then Null else Val(0.0);
      ZeroOverGuard(var2[t], Combine(Mul, Val(2.0), var1[t]), 0.0, t + 1 >= w);
    }
  }

  /** Both return variances of a flat positive close are 0 after the warm-up. */
  lemma ReturnVariancesOfConstant(close: Column, w: nat, c: real, m: Maths)
    requires w >= 2 && c > 0.0
    requires forall t :: 0 <= t < |close| ==> close[t] == Val(c)
    ensures forall t :: 0 <= t < |close| ==>
      Rolling(VarOf, LogReturns(close, m), w, m)[t] == if t + 1 < w then Null else Val(0.0)
    ensures forall t :: 0 <= t < |close| ==>
      Rolling(VarOf, TwoStepReturns(close, m), w, m)[t] == if t + 1 < w then Null else Val(0.0)
  {
    LogReturnsOfConstant(close, c, m);
    TwoStepReturnsOfConstant(close, c, m);
    RollingSpreadOfConstant(LogReturns(close, m), w, 0.0, m);
    RollingSpreadOfConstant(TwoStepReturns(close, m), w, 0.0, m);
  }

  lemma FractalDimensionAt(close: Column, w: nat, t: nat, m: Maths)
    requires w >= 1 && t < |close|
    ensures FractalDimension(close, w, m)[t] ==
      Combine(Div, Rolling(VarOf, TwoStepReturns(close, m), w, m)[t],
        Combine(Add, Combine(Mul, Val(2.0), Rolling(VarOf, LogReturns(close, m), w, m)[t]), Val(1e-9)))
  {
  }

  /** A flat positive close has two-row log returns of 0 in every row. */
  lemma TwoStepReturnsOfConstant(close: Column, c: real, m: Maths)
    requires c > 0.0 && forall t :: 0 <= t < |close| ==> close[t] == Val(c)
    ensures forall t :: 0 <= t < |close| ==> TwoStepReturns(close, m)[t] == Val(0.0)
  {
    ForwardFillKeepsValues(close);
  }

  // ---------------------------------------------------------------------------
  // LevelCrossCount
  // ---------------------------------------------------------------------------

  /** Rows where a gap-free close crosses the level `mid` strictly, from below or from above. */
  function CrossingsOf(c: Column, mid: Column): (r: seq<Truth>)
    requires |c| == |mid|
    ensures |r| == |c|
  {
    var prev := Shift(c, 1);
    OrAll(AndAll(Compare(c, mid, true), Compare(prev, mid, false)),
          AndAll(Compare(c, mid, false), Compare(prev, mid, true)))
  }

  /** The crossings of the forward-filled close through its rolling mean. */
  function Crossings(close: Column, w: nat, m: Maths): (r: seq<Truth>)
    requires w >= 1
    ensures |r| == |close|
  {
    var c := ForwardFill(close);
    CrossingsOf(c, Rolling(MeanOf, c, w, m))
  }

  /** Number of crossings in the last w rows. */
  function LevelCrossCount(close: Column, w: nat, m: Maths): (r: Column)
    requires w >= 1
    ensures |r| == |close|
  {
    Rolling(SumOf, Cast(Crossings(close, w, m)), w, m)
  }

  function CalcLevelCrossCount(df: Frame, p: Params, m: Maths): (r: Result<Column>)
    requires df.Valid()
    ensures r.Ok? <==> Size(p, "window", 50).Ok? && "close" in df.cols
    ensures r.Ok? ==> |r.value| == df.height
  {
    var w :- Size(p, "window", 50);
    var close :- Col(df, "close");
    Ok(LevelCrossCount(close, w, m))
  }

  /** One row of the crossing flag, from the row's close, the previous close and the mean. */
  function CrossingCell(c: Cell, prev: Cell, mid: Cell): Truth
  {
    Or(And(Greater(c, mid), Greater(mid, prev)), And(Greater(mid, c), Greater(prev, mid)))
  }

  /** One row of `x > y`. */
  function Greater(x: Cell, y: Cell): Truth
  {
    if x.Null? || y.Null? then Unknown else Known(Above(x, y))
  }

  lemma CrossingsAt(c: Column, mid: Column, t: nat)
    requires |c| == |mid| && t < |c|
    ensures CrossingsOf(c, mid)[t] == CrossingCell(c[t], Shift(c, 1)[t], mid[t])
  {
  }

  /** On finite values a crossing is exactly a strict move from one side of the mean to the other. */
  lemma CrossingExact(close: Column, w: nat, t: nat, m: Maths)
    requires w >= 1 && 1 <= t < |close|
    requires var c, mid := ForwardFill(close), Rolling(MeanOf, ForwardFill(close), w, m);
      c[t].Val? && c[t - 1].Val? && mid[t].Val?
    ensures var c, mid := ForwardFill(close), Rolling(MeanOf, ForwardFill(close), w, m);
      Crossings(close, w, m)[t] ==
        Known((c[t].v > mid[t].v && c[t - 1].v < mid[t].v) || (c[t].v < mid[t].v && c[t - 1].v > mid[t].v))
  {
    var c := ForwardFill(close);
    CrossingExactOf(c, Rolling(MeanOf, c, w, m), t);
  }

  lemma CrossingExactOf(c: Column, mid: Column, t: nat)
    requires |c| == |mid| && 1 <= t < |c| && c[t].Val? && c[t - 1].Val? && mid[t].Val?
    ensures CrossingsOf(c, mid)[t] ==
      Known((c[t].v > mid[t].v && c[t - 1].v < mid[t].v) || (c[t].v < mid[t].v && c[t - 1].v > mid[t].v))
  {
    CrossingsAt(c, mid, t);
    assert Shift(c, 1)[t] == c[t - 1];
    CrossingCellExact(c[t], c[t - 1], mid[t]);
  }

  lemma CrossingCellExact(c: Cell, prev: Cell, mid: Cell)
    requires c.Val? && prev.Val? && mid.Val?
    ensures CrossingCell(c, prev, mid) == Known((c.v > mid.v && prev.v < mid.v) || (c.v < mid.v && prev.v > mid.v))
  {
  }

  /** Touching the mean is not a crossing, whatever the previous row was. */
  lemma TouchIsNotCrossing(close: Column, w: nat, t: nat, m: Maths)
    requires w >= 1 && t < |close|
    requires var c, mid := ForwardFill(close), Rolling(MeanOf, ForwardFill(close), w, m);
      c[t].Val? && mid[t].Val? && c[t].v == mid[t].v
    ensures Crossings(close, w, m)[t] == Known(false)
  {
    var c := ForwardFill(close);
    CrossingsAt(c, Rolling(MeanOf, c, w, m), t);
  }

  /** The count is never NaN and lies in [0, w] wherever it is defined. */
  lemma CrossCountRange(close: Column, w: nat, m: Maths)
    requires w >= 1
    ensures NullOrIn(LevelCrossCount(close, w, m), Closed(0.0, w as real))
  {
    var x := Cast(Crossings(close, w, m));
    assert ColumnIn(x, Closed(0.0, 1.0));
    RollingSumIn(x, w, 0.0, 1.0, m);
    forall t | 0 <= t < |close| ensures !LevelCrossCount(close, w, m)[t].NaN? {
      assert !WindowAt(x, w, t).Poisoned?;
    }
  }
}
