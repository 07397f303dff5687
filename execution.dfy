/** The cost, adverse-selection and market-state signals of src/alpha/execution.py. */
module Execution {
  import opened Elementary
  import opened Kernels
  import opened KernelLaws
  import opened Frames

  // ---------------------------------------------------------------------------
  // RollSpread
  // ---------------------------------------------------------------------------

  /** Price changes of the forward-filled close, the first one read as 0. */
  function PriceChanges(close: Column, m: Maths): (r: Column)
    ensures |r| == |close|
  {
    Map(FillNull(0.0), Diff(ForwardFill(close), 1), m)
  }

  /** Rolling covariance E[xy] - E[x]E[y] of the price changes x with their lag y. */
  function RollCovariance(close: Column, w: nat, m: Maths): (r: Column)
    requires w >= 1
    ensures |r| == |close|
  {
    var x := PriceChanges(close, m);
    var y := Map(FillNull(0.0), Shift(x, 1), m);
    Zip(Sub, Rolling(MeanOf, Zip(Mul, x, y), w, m), Zip(Mul, Rolling(MeanOf, x, w, m), Rolling(MeanOf, y, w, m)))
  }

  /** 2 * sqrt(clip(-cov, 0, 1e9)). */
  function RollSpread(close: Column, w: nat, m: Maths): (r: Column)
    requires w >= 1
    ensures |r| == |close|
  {
    var negCov := ScalarLeft(Mul, -1.0, RollCovariance(close, w, m));
    ScalarLeft(Mul, 2.0, Map(Sqrt, Map(Clip(0.0, 1e9), negCov, m), m))
  }

  function CalcRollSpread(df: Frame, p: Params, m: Maths): (r: Result<Column>)
    requires df.Valid()
    ensures r.Ok? <==> Size(p, "window", 50).Ok? && "close" in df.cols
    ensures r.Ok? ==> |r.value| == df.height
  {
    var w :- Size(p, "window", 50);
    var close :- Col(df, "close");
    Ok(RollSpread(close, w, m))
  }

  /** On finite prices every price change is a finite number. */
  lemma PriceChangesFinite(close: Column, m: Maths)
    requires Finite(close)
    ensures Finite(PriceChanges(close, m))
  {
    ForwardFillKeepsValues(close);
    var d := Diff(close, 1);
    forall t | 0 <= t < |close| ensures d[t].Null? || d[t].Val? {
      if t >= 1 {
        assert d[t] == Combine(Sub, close[t], close[t - 1]);
      }
    }
  }

  lemma FilledShiftFinite(x: Column, k: int, m: Maths)
    requires Finite(x)
    ensures Finite(Map(FillNull(0.0), Shift(x, k), m))
  {
  }

  lemma ProductFinite(x: Column, y: Column)
    requires |x| == |y| && Finite(x) && Finite(y)
    ensures Finite(Zip(Mul, x, y))
  {
  }

  lemma RollCovarianceDefined(close: Column, w: nat, m: Maths)
    requires w >= 1 && Finite(close)
    ensures forall t :: 0 <= t < |close| ==>
      (RollCovariance(close, w, m)[t].Null? <==> t + 1 < w) && !RollCovariance(close, w, m)[t].NaN?
  {
    var x := PriceChanges(close, m);
    PriceChangesFinite(close, m);
    var y := Map(FillNull(0.0), Shift(x, 1), m);
    FilledShiftFinite(x, 1, m);
    var xy := Zip(Mul, x, y);
    ProductFinite(x, y);
    RollingWarmUp(MeanOf, x, w, m);
    RollingWarmUp(MeanOf, y, w, m);
    RollingWarmUp(MeanOf, xy, w, m);
    var mx, my, mxy := Rolling(MeanOf, x, w, m), Rolling(MeanOf, y, w, m), Rolling(MeanOf, xy, w, m);
    forall t | 0 <= t < |close|
      ensures (RollCovariance(close, w, m)[t].Null? <==> t + 1 < w) && !RollCovariance(close, w, m)[t].NaN?
    {
      assert RollCovariance(close, w, m)[t] == Combine(Sub, mxy[t], Combine(Mul, mx[t], my[t]));
    }
  }

  /** The spread of one row, from its covariance. */
  lemma RollSpreadRow(cov: Cell, m: Maths)
    requires Lawful(m) && cov.Val?
    ensures var r := Combine(Mul, Val(2.0), Eval(Sqrt, Eval(Clip(0.0, 1e9), Combine(Mul, Val(-1.0), cov), m), m));
      r.Val? && 0.0 <= r.v <= 2.0 * m.sqrt(1e9) && (cov.v == 0.0 ==> r.v == 0.0)
  {
    var c := ClipReal(-1.0 * cov.v, 0.0, 1e9);
    SqrtMonotone(m, c, 1e9);
    SqrtOfZero(m);
  }

  /** On finite prices the spread is missing in the warm-up and lies in [0, 2 sqrt(1e9)] afterwards. */
  lemma RollSpreadRange(close: Column, w: nat, m: Maths)
    requires Lawful(m) && w >= 1 && Finite(close)
    ensures forall t :: 0 <= t < |close| ==>
      (t + 1 < w ==> RollSpread(close, w, m)[t].Null?) &&
      (t + 1 >= w ==> RollSpread(close, w, m)[t].Val? &&
                      0.0 <= RollSpread(close, w, m)[t].v <= 2.0 * m.sqrt(1e9))
  {
    RollCovarianceDefined(close, w, m);
    var cov := RollCovariance(close, w, m);
    forall t | 0 <= t < |close|
      ensures (t + 1 < w ==> RollSpread(close, w, m)[t].Null?) &&
              (t + 1 >= w ==> RollSpread(close, w, m)[t].Val? && 0.0 <= RollSpread(close, w, m)[t].v <= 2.0 * m.sqrt(1e9))
    {
      assert RollSpread(close, w, m)[t] ==
        Combine(Mul, Val(2.0), Eval(Sqrt, Eval(Clip(0.0, 1e9), Combine(Mul, Val(-1.0), cov[t]), m), m));
      if t + 1 >= w {
        RollSpreadRow(cov[t], m);
      }
    }
  }

  lemma PriceChangesOfConstant(close: Column, c: real, m: Maths)
    requires forall t :: 0 <= t < |close| ==> close[t] == Val(c)
    ensures forall t :: 0 <= t < |close| ==> PriceChanges(close, m)[t] == Val(0.0)
  {
    ForwardFillKeepsValues(close);
  }

  lemma RollCovarianceOfConstant(close: Column, w: nat, c: real, m: Maths)
    requires w >= 1
    requires forall t :: 0 <= t < |close| ==> close[t] == Val(c)
    ensures forall t :: 0 <= t < |close| ==> RollCovariance(close, w, m)[t] == if t + 1 < w then Null else Val(0.0)
  {
    var x := PriceChanges(close, m);
    PriceChangesOfConstant(close, c, m);
    var y := Map(FillNull(0.0), Shift(x, 1), m);
    assert forall t :: 0 <= t < |close| ==> y[t] == Val(0.0);
    var xy := Zip(Mul, x, y);
    assert forall t :: 0 <= t < |close| ==> xy[t] == Val(0.0);
    RollingMeanOfConstant(x, w, 0.0, m);
    RollingMeanOfConstant(y, w, 0.0, m);
    RollingMeanOfConstant(xy, w, 0.0, m);
  }

  /** A flat close has no bid-ask bounce: the spread is 0 from row w-1 on. */
  lemma RollSpreadOfConstant(close: Column, w: nat, c: real, m: Maths)
    requires Lawful(m) && w >= 1
    requires forall t :: 0 <= t < |close| ==> close[t] == Val(c)
    ensures forall t :: 0 <= t < |close| ==> RollSpread(close, w, m)[t] == if t + 1 < w then Null else Val(0.0)
  {
    RollCovarianceOfConstant(close, w, c, m);
    var cov := RollCovariance(close, w, m);
    forall t | 0 <= t < |close|
      ensures RollSpread(close, w, m)[t] == if t + 1 < w then Null else Val(0.0)
    {
      assert RollSpread(close, w, m)[t] ==
        Combine(Mul, Val(2.0), Eval(Sqrt, Eval(Clip(0.0, 1e9), Combine(Mul, Val(-1.0), cov[t]), m), m));
      if t + 1 >= w {
        RollSpreadRow(cov[t], m);
      }
    }
  }

  // ---------------------------------------------------------------------------
  // CorwinSchultzSpread
  // ---------------------------------------------------------------------------

  /** Log high-low ratio of forward-filled prices. */
  function LogRange(high: Column, low: Column, m: Maths): (r: Column)
    requires |high| == |low|
    ensures |r| == |high|
  {
    Map(Ln, Zip(Div, ForwardFill(high), Scalar(Add, ForwardFill(low), 1e-9)), m)
  }

  /** clip(mean - std of the log range, 0, 1). */
  function CorwinSchultz(high: Column, low: Column, w: nat, m: Maths): (r: Column)
    requires |high| == |low| && w >= 1
    ensures |r| == |high|
  {
    var hl := LogRange(high, low, m);
    Map(Clip(0.0, 1.0), Zip(Sub, Rolling(MeanOf, hl, w, m), Rolling(StdOf, hl, w, m)), m)
  }

  function CalcCorwinSchultz(df: Frame, p: Params, m: Maths): (r: Result<Column>)
    requires df.Valid()
    ensures r.Ok? <==> Size(p, "window", 20).Ok? && "high" in df.cols && "low" in df.cols
    ensures r.Ok? ==> |r.value| == df.height
  {
    var w :- Size(p, "window", 20);
    var high :- Col(df, "high");
    var low :- Col(df, "low");
    Ok(CorwinSchultz(high, low, w, m))
  }

  /** Every defined value is a spread in [0, 1]. */
  lemma CorwinSchultzRange(high: Column, low: Column, w: nat, m: Maths)
    requires |high| == |low| && w >= 1
    ensures ColumnIn(CorwinSchultz(high, low, w, m), Closed(0.0, 1.0))
  {
  }

  /** A one-row window has no sample deviation, so the spread is missing everywhere. */
  lemma CorwinSchultzNeedsTwoRows(high: Column, low: Column, m: Maths)
    requires |high| == |low|
    ensures forall t :: 0 <= t < |high| ==> !CorwinSchultz(high, low, 1, m)[t].Val?
  {
  }

  // ---------------------------------------------------------------------------
  // FlowToxicity
  // ---------------------------------------------------------------------------

  /** |buy - sell| per row, 0 where either volume is missing. */
  function FlowGap(buy: Column, sell: Column, m: Maths): (r: Column)
    requires |buy| == |sell|
    ensures |r| == |buy|
  {
    Map(FillNull(0.0), Map(Abs, Zip(Sub, buy, sell), m), m)
  }

  /** buy + sell per row, 0 where either volume is missing. */
  function FlowTotal(buy: Column, sell: Column, m: Maths): (r: Column)
    requires |buy| == |sell|
    ensures |r| == |buy|
  {
    Map(FillNull(0.0), Zip(Add, buy, sell), m)
  }

  /** mean |buy - sell| / (mean (buy + sell) + 1e-9) over w rows. */
  function FlowToxicity(buy: Column, sell: Column, w: nat, m: Maths): (r: Column)
    requires |buy| == |sell| && w >= 1
    ensures |r| == |buy|
  {
    Zip(Div, Rolling(MeanOf, FlowGap(buy, sell, m), w, m),
             Scalar(Add, Rolling(MeanOf, FlowTotal(buy, sell, m), w, m), 1e-9))
  }

  function CalcFlowToxicity(df: Frame, p: Params, m: Maths): (r: Result<Column>)
    requires df.Valid()
    ensures r.Ok? <==> Size(p, "window", 20).Ok? && "buy_vol" in df.cols && "sell_vol" in df.cols
    ensures r.Ok? ==> |r.value| == df.height
  {
    var w :- Size(p, "window", 20);
    var buy :- Col(df, "buy_vol");
    var sell :- Col(df, "sell_vol");
    Ok(FlowToxicity(buy, sell, w, m))
  }

  /** A missing volume on either side blanks the whole row: both the gap and the total read 0. */
  lemma FlowNullRowIsZero(buy: Column, sell: Column, t: nat, m: Maths)
    requires |buy| == |sell| && t < |buy| && (buy[t].Null? || sell[t].Null?)
    ensures FlowGap(buy, sell, m)[t] == Val(0.0) && FlowTotal(buy, sell, m)[t] == Val(0.0)
  {
  }

  lemma MeanMonotone(a: seq<real>, b: seq<real>)
    requires |a| == |b| > 0 && forall i :: 0 <= i < |a| ==> a[i] <= b[i]
    ensures Mean(a) <= Mean(b)
  {
    SumMonotone(a, b);
    var n := |a| as real;
    ScaledBoundsAbove(Sum(a), n, Sum(b) / n, false);
  }

  /** For non-negative volumes each row's gap is finite, non-negative and at most its total. */
  lemma GapWithinTotal(buy: Column, sell: Column, m: Maths)
    requires |buy| == |sell| && NullOrNonNegative(buy) && NullOrNonNegative(sell)
    ensures Finite(FlowGap(buy, sell, m)) && Finite(FlowTotal(buy, sell, m))
    ensures forall t :: 0 <= t < |buy| ==> 0.0 <= FlowGap(buy, sell, m)[t].v <= FlowTotal(buy, sell, m)[t].v
  {
  }

  /** One row after the warm-up: the mean gap over the mean total (plus 1e-9) is in [0, 1). */
  lemma ToxicityRow(gap: Column, total: Column, w: nat, t: nat, m: Maths)
    requires |gap| == |total| && 1 <= w <= t + 1 && t < |gap| && Finite(gap) && Finite(total)
    requires forall i :: 0 <= i < |gap| ==> 0.0 <= gap[i].v <= total[i].v
    ensures var r := Combine(Div, Rolling(MeanOf, gap, w, m)[t], Combine(Add, Rolling(MeanOf, total, w, m)[t], Val(1e-9)));
      r.Val? && 0.0 <= r.v < 1.0
  {
    var wg, wt := WindowAt(gap, w, t), WindowAt(total, w, t);
    assert wg.Full? && wt.Full?;
    forall i | 0 <= i < w ensures 0.0 <= wg.vals[i] <= wt.vals[i] {
      assert gap[t + 1 - w + i] == Val(wg.vals[i]) && total[t + 1 - w + i] == Val(wt.vals[i]);
    }
    MeanAtLeast(wg.vals, 0.0);
    MeanMonotone(wg.vals, wt.vals);
    var d := Mean(wt.vals) + 1e-9;
    ScaledBounds(Mean(wg.vals), d, 0.0, false);
    ScaledBoundsAbove(Mean(wg.vals), d, 1.0, true);
  }

  /** For non-negative volumes the toxicity is missing in the warm-up and lies in [0, 1) after it. */
  lemma FlowToxicityRange(buy: Column, sell: Column, w: nat, m: Maths)
    requires |buy| == |sell| && w >= 1 && NullOrNonNegative(buy) && NullOrNonNegative(sell)
    ensures forall t :: 0 <= t < |buy| ==>
      (t + 1 < w ==> FlowToxicity(buy, sell, w, m)[t].Null?) &&
      (t + 1 >= w ==> FlowToxicity(buy, sell, w, m)[t].Val? &&
                      0.0 <= FlowToxicity(buy, sell, w, m)[t].v < 1.0)
  {
    var gap, total := FlowGap(buy, sell, m), FlowTotal(buy, sell, m);
    GapWithinTotal(buy, sell, m);
    forall t | 0 <= t < |buy|
      ensures (t + 1 < w ==> FlowToxicity(buy, sell, w, m)[t].Null?) &&
              (t + 1 >= w ==> FlowToxicity(buy, sell, w, m)[t].Val? && 0.0 <= FlowToxicity(buy, sell, w, m)[t].v < 1.0)
    {
      assert FlowToxicity(buy, sell, w, m)[t] ==
        Combine(Div, Rolling(MeanOf, gap, w, m)[t], Combine(Add, Rolling(MeanOf, total, w, m)[t], Val(1e-9)));
      if t + 1 >= w {
        ToxicityRow(gap, total, w, t, m);
      }
    }
  }

  // ---------------------------------------------------------------------------
  // TrendDeviation
  // ---------------------------------------------------------------------------

  /** Mean absolute price change over `span` rows; 1e-9 while it is still missing. */
  function TrendScale(close: Column, span: nat, m: Maths): (r: Column)
    requires span >= 1
    ensures |r| == |close|
  {
    var c := ForwardFill(close);
    Map(FillNull(1e-9), Rolling(MeanOf, Map(Abs, Diff(c, 1), m), span, m), m)
  }

  /** (close - EMA(close)) / scale, with an adjust=False EMA of the given span. */
  function TrendDeviation(close: Column, span: nat, m: Maths): (r: Column)
    requires span >= 1
    ensures |r| == |close|
  {
    var c := ForwardFill(close);
    Zip(Div, Zip(Sub, c, Ewm(c, SpanAlpha(span as real))), TrendScale(close, span, m))
  }

  function CalcTrendDeviation(df: Frame, p: Params, m: Maths): (r: Result<Column>)
    requires df.Valid()
    ensures r.Ok? <==> Size(p, "span", 20).Ok? && "close" in df.cols
    ensures r.Ok? ==> |r.value| == df.height
  {
    var span :- Size(p, "span", 20);
    var close :- Col(df, "close");
    Ok(TrendDeviation(close, span, m))
  }

  /** Every window ending before row `span` reaches the missing first change: the scale is 1e-9 there. */
  lemma TrendScaleWarmUp(close: Column, span: nat, m: Maths)
    requires span >= 1
    ensures forall t :: 0 <= t < |close| && t < span ==> TrendScale(close, span, m)[t] == Val(1e-9)
  {
    var d := Map(Abs, Diff(ForwardFill(close), 1), m);
    forall t | 0 <= t < |close| && t < span ensures WindowAt(d, span, t).Incomplete? {
      if t + 1 >= span {
        assert d[t + 1 - span].Null?;
      }
    }
  }

  /** On a flat close the scale is the 1e-9 placeholder in the warm-up and a true 0 after it. */
  lemma TrendScaleOfConstant(close: Column, span: nat, c: real, m: Maths)
    requires span >= 1 && forall t :: 0 <= t < |close| ==> close[t] == Val(c)
    ensures forall t :: 0 <= t < |close| ==> TrendScale(close, span, m)[t] == if t < span then Val(1e-9) else Val(0.0)
  {
    ForwardFillKeepsValues(close);
    var d := Map(Abs, Diff(close, 1), m);
    assert forall t :: 0 <= t < |close| ==> d[t] == if t < 1 then Null else Val(0.0);
    RollingMeanOfLateZeros(d, span, 1, m);
    var mean := Rolling(MeanOf, d, span, m);
    forall t | 0 <= t < |close| ensures TrendScale(close, span, m)[t] == if t < span then Val(1e-9) else Val(0.0) {
      assert TrendScale(close, span, m)[t] == Eval(FillNull(1e-9), mean[t], m);
    }
  }

  /** On a flat close the deviation is 0 while the scale is the 1e-9 placeholder, and 0/0 = NaN
      once the mean absolute change is a true 0. */
  lemma TrendDeviationOfConstant(close: Column, span: nat, c: real, m: Maths)
    requires span >= 1 && forall t :: 0 <= t < |close| ==> close[t] == Val(c)
    ensures forall t :: 0 <= t < |close| ==>
      TrendDeviation(close, span, m)[t] == if t < span then Val(0.0) else NaN
  {
    ForwardFillKeepsValues(close);
    EwmOfConstant(close, SpanAlpha(span as real), c);
    TrendScaleOfConstant(close, span, c, m);
  }

  // ---------------------------------------------------------------------------
  // OrderFlowEntropy
  // ---------------------------------------------------------------------------

  /** b / (b + s + 1e-9) clipped to [1e-6, 1], null volumes read as 0. */
  function Proportion(b: Column, s: Column, m: Maths): (r: Column)
    requires |b| == |s|
    ensures |r| == |b|
  {
    var fb, fs := Map(FillNull(0.0), b, m), Map(FillNull(0.0), s, m);
    Map(Clip(1e-6, 1.0), Zip(Div, fb, Scalar(Add, Zip(Add, fb, fs), 1e-9)), m)
  }

  /** Per-row entropy -(pb log2 pb + ps log2 ps) of the buy and sell proportions. */
  function FlowEntropyTerms(buy: Column, sell: Column, m: Maths): (r: Column)
    requires |buy| == |sell|
    ensures |r| == |buy|
  {
    var pb, ps := Proportion(buy, sell, m), Proportion(sell, buy, m);
    ScalarLeft(Mul, -1.0, Zip(Add, Zip(Mul, pb, Map(LogBase(2.0), pb, m)), Zip(Mul, ps, Map(LogBase(2.0), ps, m))))
  }

  /** Rolling mean of the per-row entropy. */
  function OrderFlowEntropy(buy: Column, sell: Column, w: nat, m: Maths): (r: Column)
    requires |buy| == |sell| && w >= 1
    ensures |r| == |buy|
  {
    Rolling(MeanOf, FlowEntropyTerms(buy, sell, m), w, m)
  }

  function CalcOrderFlowEntropy(df: Frame, p: Params, m: Maths): (r: Result<Column>)
    requires df.Valid()
    ensures r.Ok? <==> Size(p, "window", 50).Ok? && "buy_vol" in df.cols && "sell_vol" in df.cols
    ensures r.Ok? ==> |r.value| == df.height
  {
    var w :- Size(p, "window", 50);
    var buy :- Col(df, "buy_vol");
    var sell :- Col(df, "sell_vol");
    Ok(OrderFlowEntropy(buy, sell, w, m))
  }

  /** One proportion cell of two volume cells is a value in [1e-6, 1]. */
  lemma ProportionCell(b: Cell, s: Cell, m: Maths)
    requires b.Null? || (b.Val? && b.v >= 0.0)
    requires s.Null? || (s.Val? && s.v >= 0.0)
    ensures var fb, fs := Eval(FillNull(0.0), b, m), Eval(FillNull(0.0), s, m);
      var r := Eval(Clip(1e-6, 1.0), Combine(Div, fb, Combine(Add, Combine(Add, fb, fs), Val(1e-9))), m);
      r.Val? && 1e-6 <= r.v <= 1.0
  {
  }

  /** The proportions are finite and clipped into [1e-6, 1]. */
  lemma ProportionRange(b: Column, s: Column, m: Maths)
    requires |b| == |s| && NullOrNonNegative(b) && NullOrNonNegative(s)
    ensures Finite(Proportion(b, s, m)) && ColumnIn(Proportion(b, s, m), Closed(1e-6, 1.0))
  {
    var fb, fs := Map(FillNull(0.0), b, m), Map(FillNull(0.0), s, m);
    forall t | 0 <= t < |b| ensures Proportion(b, s, m)[t].Val? && 1e-6 <= Proportion(b, s, m)[t].v <= 1.0 {
      assert Proportion(b, s, m)[t] ==
        Eval(Clip(1e-6, 1.0), Combine(Div, fb[t], Combine(Add, Combine(Add, fb[t], fs[t]), Val(1e-9))), m);
      ProportionCell(b[t], s[t], m);
    }
  }

  /** Swapping the buy and sell sides leaves the entropy unchanged. */
  lemma OrderFlowEntropySymmetric(buy: Column, sell: Column, w: nat, m: Maths)
    requires |buy| == |sell| && w >= 1
    ensures OrderFlowEntropy(buy, sell, w, m) == OrderFlowEntropy(sell, buy, w, m)
  {
    assert FlowEntropyTerms(buy, sell, m) == FlowEntropyTerms(sell, buy, m);
  }

  /** -p log2 p >= 0 for p in (0, 1]. */
  lemma SurpriseNonNegative(p: real, m: Maths)
    requires Lawful(m) && 0.0 < p <= 1.0
    ensures p * (m.ln(p) / m.ln(2.0)) <= 0.0
  {
    LnAtMostZero(m, p);
    LnTwoPositive(m);
    ScaledBoundsAbove(m.ln(p), m.ln(2.0), 0.0, false);
    NonNegativeProduct(p, -(m.ln(p) / m.ln(2.0)));
  }

  /** One term p log2 p of a proportion in [1e-6, 1] is a value of at most 0. */
  lemma SurpriseCell(p: Cell, m: Maths)
    requires Lawful(m) && p.Val? && 1e-6 <= p.v <= 1.0
    ensures var c := Combine(Mul, p, Eval(LogBase(2.0), p, m));
      c.Val? && c.v <= 0.0
  {
    LnTwoPositive(m);
    assert Eval(LogBase(2.0), p, m) == Val(m.ln(p.v) / m.ln(2.0));
    SurpriseNonNegative(p.v, m);
  }

  /** The entropy of one row with both proportions in [1e-6, 1] is a non-negative number. */
  lemma EntropyRow(pb: Cell, ps: Cell, m: Maths)
    requires Lawful(m) && pb.Val? && ps.Val? && 1e-6 <= pb.v <= 1.0 && 1e-6 <= ps.v <= 1.0
    ensures var e := Combine(Mul, Val(-1.0), Combine(Add, Combine(Mul, pb, Eval(LogBase(2.0), pb, m)),
                                                          Combine(Mul, ps, Eval(LogBase(2.0), ps, m))));
      e.Val? && e.v >= 0.0
  {
    SurpriseCell(pb, m);
    SurpriseCell(ps, m);
  }

  lemma EntropyTermsNonNegative(buy: Column, sell: Column, m: Maths)
    requires Lawful(m) && |buy| == |sell| && NullOrNonNegative(buy) && NullOrNonNegative(sell)
    ensures Finite(FlowEntropyTerms(buy, sell, m)) && ColumnAtLeast(FlowEntropyTerms(buy, sell, m), 0.0)
  {
    var pb, ps := Proportion(buy, sell, m), Proportion(sell, buy, m);
    ProportionRange(buy, sell, m);
    ProportionRange(sell, buy, m);
    var ent := FlowEntropyTerms(buy, sell, m);
    forall t | 0 <= t < |buy| ensures ent[t].Val? && ent[t].v >= 0.0 {
      assert ent[t] == Combine(Mul, Val(-1.0), Combine(Add, Combine(Mul, pb[t], Eval(LogBase(2.0), pb[t], m)),
                                                            Combine(Mul, ps[t], Eval(LogBase(2.0), ps[t], m))));
      EntropyRow(pb[t], ps[t], m);
    }
  }

  /** For non-negative volumes the entropy is missing in the warm-up and non-negative after it. */
  lemma OrderFlowEntropyNonNegative(buy: Column, sell: Column, w: nat, m: Maths)
    requires Lawful(m) && |buy| == |sell| && w >= 1 && NullOrNonNegative(buy) && NullOrNonNegative(sell)
    ensures forall t :: 0 <= t < |buy| ==>
      (t + 1 < w ==> OrderFlowEntropy(buy, sell, w, m)[t].Null?) &&
      (t + 1 >= w ==> OrderFlowEntropy(buy, sell, w, m)[t].Val? && OrderFlowEntropy(buy, sell, w, m)[t].v >= 0.0)
  {
    EntropyTermsNonNegative(buy, sell, m);
    RollingWarmUp(MeanOf, FlowEntropyTerms(buy, sell, m), w, m);
    RollingMeanAtLeast(FlowEntropyTerms(buy, sell, m), w, 0.0, m);
  }

  // ---------------------------------------------------------------------------
  // VolatilitySignature and VolatilityRegime
  // ---------------------------------------------------------------------------

  /** std_fast / (std_slow * sqrt(fast / slow) + 1e-9) of the log returns. */
  function VolatilitySignature(close: Column, fast: nat, slow: nat, m: Maths): (r: Column)
    requires fast >= 1 && slow >= 1
    ensures |r| == |close|
  {
    var ret := LogReturns(close, m);
    var scaling := m.sqrt(fast as real / slow as real);
    Zip(Div, Rolling(StdOf, ret, fast, m), Scalar(Add, Scalar(Mul, Rolling(StdOf, ret, slow, m), scaling), 1e-9))
  }

  function CalcVolatilitySignature(df: Frame, p: Params, m: Maths): (r: Result<Column>)
    requires df.Valid()
    ensures r.Ok? <==> Size(p, "fast_window", 10).Ok? && Size(p, "slow_window", 100).Ok? && "close" in df.cols
    ensures r.Ok? ==> |r.value| == df.height
  {
    var fast :- Size(p, "fast_window", 10);
    var slow :- Size(p, "slow_window", 100);
    var close :- Col(df, "close");
    Ok(VolatilitySignature(close, fast, slow, m))
  }

  /** current std / (baseline std + 1e-9) of the log returns. */
  function VolatilityRegime(close: Column, w: nat, history: nat, m: Maths): (r: Column)
    requires w >= 1 && history >= 1
    ensures |r| == |close|
  {
    var ret := LogReturns(close, m);
    Zip(Div, Rolling(StdOf, ret, w, m), Scalar(Add, Rolling(StdOf, ret, history, m), 1e-9))
  }

  function CalcVolatilityRegime(df: Frame, p: Params, m: Maths): (r: Result<Column>)
    requires df.Valid()
    ensures r.Ok? <==> Size(p, "window", 50).Ok? && Size(p, "history", 300).Ok? && "close" in df.cols
    ensures r.Ok? ==> |r.value| == df.height
  {
    var w :- Size(p, "window", 50);
    var history :- Size(p, "history", 300);
    var close :- Col(df, "close");
    Ok(VolatilityRegime(close, w, history, m))
  }

  /** a / (b k + 1e-9) for non-negative a, b and k: non-negative, and below 1 when a == b and k == 1. */
  lemma SpreadRatio(a: real, b: real, k: real)
    requires a >= 0.0 && b >= 0.0 && k >= 0.0
    ensures a / (b * k + 1e-9) >= 0.0
    ensures a == b && k == 1.0 ==> a / (b * k + 1e-9) < 1.0
  {
    NonNegativeProduct(b, k);
    ScaledBounds(a, b * k + 1e-9, 0.0, false);
    if a == b && k == 1.0 {
      ScaledBoundsAbove(a, b * k + 1e-9, 1.0, true);
    }
  }

  /** a / (b k + 1e-9) of two non-negative columns and a non-negative k, cell by cell. */
  lemma SpreadRatioColumn(a: Column, b: Column, k: real)
    requires |a| == |b| && k >= 0.0 && ColumnAtLeast(a, 0.0) && ColumnAtLeast(b, 0.0)
    ensures ColumnAtLeast(Zip(Div, a, Scalar(Add, Scalar(Mul, b, k), 1e-9)), 0.0)
    ensures a == b && k == 1.0 ==> ColumnIn(Zip(Div, a, Scalar(Add, Scalar(Mul, b, k), 1e-9)), Interval(0.0, false, 1.0, true))
  {
    var r := Zip(Div, a, Scalar(Add, Scalar(Mul, b, k), 1e-9));
    forall t | 0 <= t < |a| && r[t].Val?
      ensures r[t].v >= 0.0 && (a == b && k == 1.0 ==> r[t].v < 1.0)
    {
      SpreadRatio(a[t].v, b[t].v, k);
    }
  }

  lemma RatioOfEqual(a: real)
    requires a > 0.0
    ensures a / a == 1.0
  {
  }

  /** The signature divides a fast by a scaled slow standard deviation: non-negative, and below 1
      when both windows are the same (the scaling is then sqrt(1) = 1). */
  lemma VolatilitySignatureRange(close: Column, fast: nat, slow: nat, m: Maths)
    requires Lawful(m) && fast >= 1 && slow >= 1
    ensures ColumnAtLeast(VolatilitySignature(close, fast, slow, m), 0.0)
    ensures fast == slow ==> ColumnIn(VolatilitySignature(close, fast, slow, m), Interval(0.0, false, 1.0, true))
  {
    var ret := LogReturns(close, m);
    var k := m.sqrt(fast as real / slow as real);
    if fast == slow {
      RatioOfEqual(fast as real);
      SqrtUnique(m, 1.0, 1.0);
    }
    RollingSpreadNonNegative(ret, fast, m);
    RollingSpreadNonNegative(ret, slow, m);
    SpreadRatioColumn(Rolling(StdOf, ret, fast, m), Rolling(StdOf, ret, slow, m), k);
  }

  /** The regime ratio is non-negative, and below 1 when both windows are the same. */
  lemma VolatilityRegimeRange(close: Column, w: nat, history: nat, m: Maths)
    requires Lawful(m) && w >= 1 && history >= 1
    ensures ColumnAtLeast(VolatilityRegime(close, w, history, m), 0.0)
    ensures w == history ==> ColumnIn(VolatilityRegime(close, w, history, m), Interval(0.0, false, 1.0, true))
  {
    var ret := LogReturns(close, m);
    RollingSpreadNonNegative(ret, w, m);
    RollingSpreadNonNegative(ret, history, m);
    RegimeRatioColumn(Rolling(StdOf, ret, w, m), Rolling(StdOf, ret, history, m));
  }

  /** a / (b + 1e-9) of two non-negative columns, cell by cell. */
  lemma RegimeRatioColumn(a: Column, b: Column)
    requires |a| == |b| && ColumnAtLeast(a, 0.0) && ColumnAtLeast(b, 0.0)
    ensures ColumnAtLeast(Zip(Div, a, Scalar(Add, b, 1e-9)), 0.0)
    ensures a == b ==> ColumnIn(Zip(Div, a, Scalar(Add, b, 1e-9)), Interval(0.0, false, 1.0, true))
  {
    var r := Zip(Div, a, Scalar(Add, b, 1e-9));
    forall t | 0 <= t < |a| && r[t].Val?
      ensures r[t].v >= 0.0 && (a == b ==> r[t].v < 1.0)
    {
      SpreadRatio(a[t].v, b[t].v, 1.0);
      assert b[t].v * 1.0 == b[t].v;
    }
  }

  // ---------------------------------------------------------------------------
  // QueuePositionEstimate
  // ---------------------------------------------------------------------------

  /** Median total volume over 5w rows; 1e-9 while it is still missing. */
  function QueueDepth(buy: Column, sell: Column, w: nat, m: Maths): (r: Column)
    requires |buy| == |sell| && w >= 1
    ensures |r| == |buy|
  {
    Map(FillNull(1e-9), Rolling(MedianOf, FlowTotal(buy, sell, m), 5 * w, m), m)
  }

  /** Volume summed over w rows, relative to the median depth over 5w rows. */
  function QueuePosition(buy: Column, sell: Column, w: nat, m: Maths): (r: Column)
    requires |buy| == |sell| && w >= 1
    ensures |r| == |buy|
  {
    Zip(Div, Rolling(SumOf, FlowTotal(buy, sell, m), w, m), QueueDepth(buy, sell, w, m))
  }

  function CalcQueuePosition(df: Frame, p: Params, m: Maths): (r: Result<Column>)
    requires df.Valid()
    ensures r.Ok? <==> Size(p, "window", 20).Ok? && "buy_vol" in df.cols && "sell_vol" in df.cols
    ensures r.Ok? ==> |r.value| == df.height
  {
    var w :- Size(p, "window", 20);
    var buy :- Col(df, "buy_vol");
    var sell :- Col(df, "sell_vol");
    Ok(QueuePosition(buy, sell, w, m))
  }

  /** The median's warm-up is the first 5w-1 rows, where the depth is the 1e-9 placeholder;
      after it the depth is the median itself. */
  lemma QueueDepthWarmUp(buy: Column, sell: Column, w: nat, m: Maths)
    requires |buy| == |sell| && w >= 1
    ensures forall t :: 0 <= t < |buy| && t + 1 < 5 * w ==> QueueDepth(buy, sell, w, m)[t] == Val(1e-9)
    ensures forall t :: 0 <= t < |buy| && t + 1 >= 5 * w ==>
      QueueDepth(buy, sell, w, m)[t] == Rolling(MedianOf, FlowTotal(buy, sell, m), 5 * w, m)[t]
  {
    var total := FlowTotal(buy, sell, m);
    assert forall t :: 0 <= t < |buy| ==> !total[t].Null?;
    forall t | 0 <= t < |buy| && t + 1 >= 5 * w ensures !WindowAt(total, 5 * w, t).Incomplete? {
      assert Null !in total[t + 1 - 5 * w .. t + 1];
    }
  }

  /** Non-negative volumes give a non-negative queue position wherever it is a number. */
  lemma QueuePositionNonNegative(buy: Column, sell: Column, w: nat, m: Maths)
    requires |buy| == |sell| && w >= 1 && NullOrNonNegative(buy) && NullOrNonNegative(sell)
    ensures ColumnAtLeast(QueuePosition(buy, sell, w, m), 0.0)
  {
    var total := FlowTotal(buy, sell, m);
    assert ColumnAtLeast(total, 0.0);
    RollingSumAtLeast(total, w, 0.0, m);
    RollingMedianAtLeast(total, 5 * w, 0.0, m);
    var acc, depth := Rolling(SumOf, total, w, m), QueueDepth(buy, sell, w, m);
    forall t | 0 <= t < |buy| && QueuePosition(buy, sell, w, m)[t].Val?
      ensures QueuePosition(buy, sell, w, m)[t].v >= 0.0
    {
      assert (w as real) * 0.0 == 0.0;
      ScaledBounds(acc[t].v, depth[t].v, 0.0, false);
    }
  }
}
