/** `RegimeFactors` of src/analytics/regime.py: trend efficiency, market
    temperature, the entropy of up-moves and the fisher (kurtosis-change)
    proxy, each a named column over a close series. */
module Regime {
  import opened Elementary
  import opened Kernels
  import opened KernelLaws
  import opened Frames

  /** An expression with its alias. */
  datatype Named = Named(name: string, col: Column)

  // ---------------------------------------------------------------------------
  // Column names: f"regime_fractal_{window}" and friends
  // ---------------------------------------------------------------------------

  predicate IsDigits(s: string)
  {
    forall i :: 0 <= i < |s| ==> '0' <= s[i] <= '9'
  }

  function Digit(d: nat): (c: char)
    requires d < 10
    ensures '0' <= c <= '9' && c as int - '0' as int == d
  {
    ('0' as int + d) as char
  }

  /** The decimal spelling of n, as Python's str(n). */
  function Decimal(n: nat): (r: string)
    ensures |r| >= 1 && IsDigits(r)
  {
    if n < 10 then [Digit(n)] else Decimal(n / 10) + [Digit(n % 10)]
  }

  /** The number a string of digits spells. */
  function ParseDecimal(s: string): nat
    requires IsDigits(s)
  {
    if |s| == 0 then 0 else ParseDecimal(s[..|s| - 1]) * 10 + (s[|s| - 1] as int - '0' as int)
  }

  /** Reading back the spelling of n gives n, so distinct windows give distinct column names. */
  lemma {:induction false} DecimalRoundTrip(n: nat)
    ensures ParseDecimal(Decimal(n)) == n
  {
    if n >= 10 {
      DecimalRoundTrip(n / 10);
      var s := Decimal(n);
      assert s[..|s| - 1] == Decimal(n / 10);
    }
  }

  lemma DistinctWindowsDistinctNames(prefix: string, a: nat, b: nat)
    requires a != b
    ensures prefix + Decimal(a) != prefix + Decimal(b)
  {
    DecimalRoundTrip(a);
    DecimalRoundTrip(b);
    assert (prefix + Decimal(a))[|prefix|..] == Decimal(a);
    assert (prefix + Decimal(b))[|prefix|..] == Decimal(b);
  }

  // ---------------------------------------------------------------------------
  // Efficiency ratio
  // ---------------------------------------------------------------------------

  /** Kaufman's efficiency |x[t] - x[t-w]| / (sum of |x[i] - x[i-1]| over the last w rows + 1e-9). */
  function Efficiency(close: Column, w: nat, m: Maths): (r: Column)
    requires w >= 1
    ensures |r| == |close|
  {
    var change := Map(Abs, Diff(close, w), m);
    var path := Rolling(SumOf, Steps(close, m), w, m);
    Zip(Div, change, Scalar(Add, path, 1e-9))
  }

  /** The absolute one-row price changes. */
  function Steps(close: Column, m: Maths): (r: Column)
    ensures |r| == |close|
  {
    Map(Abs, Diff(close, 1), m)
  }

  /** The prices of rows lo..lo+n-1, all of them values. */
  function Prices(close: Column, lo: nat, n: nat): (r: seq<real>)
    requires lo + n <= |close| && forall j :: lo <= j < lo + n ==> close[j].Val?
    ensures |r| == n
  {
    seq(n, j requires 0 <= j < n => close[lo + j].v)
  }

  /** A full window of steps over rows t-w+1..t needs the prices of rows t-w..t. */
  lemma StepWindowDefined(close: Column, w: nat, t: nat, m: Maths)
    requires w >= 1 && t < |close| && WindowAt(Steps(close, m), w, t).Full?
    ensures t >= w && forall j :: t - w <= j <= t ==> close[j].Val?
  {
    var steps := Steps(close, m);
    assert steps[0].Null?;
    forall j | t - w <= j <= t ensures close[j].Val? {
      var i := if j == t - w then j + 1 else j;
      assert steps[i] == Eval(Abs, Combine(Sub, close[i], Shift(close, 1)[i]), m);
    }
  }

  /** Those steps are the path steps of the prices. */
  lemma StepWindowIsPath(close: Column, w: nat, t: nat, m: Maths)
    requires w >= 1 && t < |close| && WindowAt(Steps(close, m), w, t).Full?
    requires t >= w && forall j :: t - w <= j <= t ==> close[j].Val?
    ensures AbsSteps(Prices(close, t - w, w + 1)) == WindowAt(Steps(close, m), w, t).vals
  {
    var steps := Steps(close, m);
    var win := WindowAt(steps, w, t);
    var s := Prices(close, t - w, w + 1);
    forall j | 0 <= j < w ensures AbsSteps(s)[j] == win.vals[j] {
      assert steps[t + 1 - w + j] == Val(win.vals[j]);
      assert steps[t + 1 - w + j] == Eval(Abs, Combine(Sub, close[t + 1 - w + j], close[t - w + j]), m);
    }
  }

  /** A full path window over rows t-w+1..t reads the prices of rows t-w..t, and its length
      is at least the net move between its ends. */
  lemma PathBound(close: Column, w: nat, t: nat, m: Maths)
    requires w >= 1 && t < |close| && Rolling(SumOf, Steps(close, m), w, m)[t].Val?
    ensures t >= w && close[t].Val? && close[t - w].Val?
    ensures AbsReal(close[t].v - close[t - w].v) <= Rolling(SumOf, Steps(close, m), w, m)[t].v
  {
    RollingSumValue(Steps(close, m), w, t, m);
    StepWindowDefined(close, w, t, m);
    StepWindowIsPath(close, w, t, m);
    var s := Prices(close, t - w, w + 1);
    NetMoveAtMostPath(s);
    assert s[w] == close[t].v && s[0] == close[t - w].v;
  }

  /** A net move of a over a path of length total, both guarded by 1e-9: a ratio in [0, 1). */
  lemma GuardedRatio(a: real, total: real)
    requires 0.0 <= a <= total
    ensures 0.0 <= a / (total + 1e-9) < 1.0
  {
    ScaledBounds(a, total + 1e-9, 0.0, false);
    ScaledBoundsAbove(a, total + 1e-9, 1.0, true);
  }

  /** The net move |x[t] - x[t-w]|, where it is a value. */
  lemma ChangeCell(close: Column, w: nat, t: nat, m: Maths)
    requires w >= 1 && t < |close| && t >= w && close[t].Val? && close[t - w].Val?
    ensures Map(Abs, Diff(close, w), m)[t] == Val(AbsReal(close[t].v - close[t - w].v))
  {
    assert Map(Abs, Diff(close, w), m)[t] == Eval(Abs, Combine(Sub, close[t], Shift(close, w)[t]), m);
  }

  lemma EfficiencyCell(close: Column, w: nat, t: nat, m: Maths)
    requires w >= 1 && t < |close|
    ensures Efficiency(close, w, m)[t] ==
      Combine(Div, Map(Abs, Diff(close, w), m)[t], Combine(Add, Rolling(SumOf, Steps(close, m), w, m)[t], Val(1e-9)))
  {
  }

  /** A ratio a / (p + 1e-9) that is a value has both operands values, and lies in [0, 1) when
      0 <= a <= p. */
  lemma GuardedCell(a: Cell, p: Cell)
    requires Combine(Div, a, Combine(Add, p, Val(1e-9))).Val?
    ensures a.Val? && p.Val?
    ensures 0.0 <= a.v <= p.v ==> var r := Combine(Div, a, Combine(Add, p, Val(1e-9)));
      0.0 <= r.v < 1.0
  {
    if 0.0 <= a.v <= p.v {
      GuardedRatio(a.v, p.v);
    }
  }

  /** By the triangle inequality the net move is at most the path, so the ratio is in [0, 1). */
  lemma EfficiencyRow(close: Column, w: nat, t: nat, m: Maths)
    requires w >= 1 && t < |close| && Efficiency(close, w, m)[t].Val?
    ensures 0.0 <= Efficiency(close, w, m)[t].v < 1.0
  {
    var change := Map(Abs, Diff(close, w), m);
    var path := Rolling(SumOf, Steps(close, m), w, m);
    EfficiencyCell(close, w, t, m);
    GuardedCell(change[t], path[t]);
    PathBound(close, w, t, m);
    ChangeCell(close, w, t, m);
  }

  lemma EfficiencyRange(close: Column, w: nat, m: Maths)
    requires w >= 1
    ensures ColumnIn(Efficiency(close, w, m), Interval(0.0, false, 1.0, true))
  {
    forall t | 0 <= t < |close| && Efficiency(close, w, m)[t].Val?
      ensures 0.0 <= Efficiency(close, w, m)[t].v < 1.0
    {
      EfficiencyRow(close, w, t, m);
    }
  }

  /** `get_fractal_efficiency`; Polars refuses a window below 1. */
  function FractalEfficiency(close: Column, window: int, m: Maths): (r: Result<Named>)
    ensures r.Ok? <==> window >= 1
    ensures r.Ok? ==> r.value.name == "regime_fractal_" + Decimal(window) && |r.value.col| == |close|
  {
    if window < 1 then Err(BadArgument)
    else Ok(Named("regime_fractal_" + Decimal(window), Efficiency(close, window, m)))
  }

  lemma FractalEfficiencyRange(close: Column, window: int, m: Maths)
    requires window >= 1
    ensures ColumnIn(FractalEfficiency(close, window, m).value.col, Interval(0.0, false, 1.0, true))
  {
    EfficiencyRange(close, window, m);
  }

  // ---------------------------------------------------------------------------
  // Market temperature
  // ---------------------------------------------------------------------------

  /** Raw log returns, without a fill. */
  function Returns(close: Column, m: Maths): (r: Column)
    ensures |r| == |close|
  {
    Diff(Map(Ln, close, m), 1)
  }

  /** Energy: the rolling mean of squared returns over w rows. */
  function Energy(close: Column, w: nat, m: Maths): (r: Column)
    requires w >= 1
    ensures |r| == |close|
  {
    Rolling(MeanOf, Map(Square, Returns(close, m), m), w, m)
  }

  /** The friction 1 - er + 0.1 with the ten-row efficiency. */
  function Friction(close: Column, m: Maths): (r: Column)
    ensures |r| == |close|
  {
    Scalar(Add, ScalarLeft(Sub, 1.0, Efficiency(close, 10, m)), 0.1)
  }

  /** energy / friction. */
  function Temperature(close: Column, w: nat, m: Maths): (r: Column)
    requires w >= 1
    ensures |r| == |close|
  {
    Zip(Div, Energy(close, w, m), Friction(close, m))
  }

  /** `get_market_temperature`: the temperature z-scored over 5 * window rows. */
  function MarketTemperature(close: Column, window: int, m: Maths): (r: Result<Named>)
    ensures r.Ok? <==> window >= 1
    ensures r.Ok? ==> r.value.name == "regime_temp_" + Decimal(window) && |r.value.col| == |close|
  {
    if window < 1 then Err(BadArgument)
    else
      var temp := Temperature(close, window, m);
      var long := 5 * window;
      var z := Zip(Div, Zip(Sub, temp, Rolling(MeanOf, temp, long, m)),
                   Scalar(Add, Rolling(StdOf, temp, long, m), 1e-9));
      Ok(Named("regime_temp_" + Decimal(window), z))
  }

  /** The efficiency is in [0, 1), so the friction is in (0.1, 1.1]. */
  lemma FrictionRange(close: Column, m: Maths)
    ensures ColumnIn(Friction(close, m), Interval(0.1, true, 1.1, false))
  {
    EfficiencyRange(close, 10, m);
    var er := Efficiency(close, 10, m);
    forall t | 0 <= t < |close| && Friction(close, m)[t].Val?
      ensures 0.1 < Friction(close, m)[t].v <= 1.1
    {
      assert Friction(close, m)[t] == Combine(Add, Combine(Sub, Val(1.0), er[t]), Val(0.1));
    }
  }

  /** Energy over a positive friction: the temperature is never negative. */
  lemma TemperatureNonNegative(close: Column, w: nat, m: Maths)
    requires w >= 1
    ensures ColumnAtLeast(Temperature(close, w, m), 0.0)
  {
    SquaresNonNegative(Returns(close, m), m);
    RollingMeanAtLeast(Map(Square, Returns(close, m), m), w, 0.0, m);
    FrictionRange(close, m);
    RatioNonNegative(Energy(close, w, m), Friction(close, m));
  }

  // ---------------------------------------------------------------------------
  // Information entropy
  // ---------------------------------------------------------------------------

  /** The share of up-moves over w rows, clipped to [0.001, 0.999]. */
  function UpProbability(close: Column, w: nat, m: Maths): (r: Column)
    requires w >= 1
    ensures |r| == |close|
  {
    var isUp := Cast(Compare(Diff(close, 1), Lit(0.0, |close|), true));
    Map(Clip(0.001, 0.999), Rolling(MeanOf, isUp, w, m), m)
  }

  function DownProbability(close: Column, w: nat, m: Maths): (r: Column)
    requires w >= 1
    ensures |r| == |close|
  {
    ScalarLeft(Sub, 1.0, UpProbability(close, w, m))
  }

  function Log2(x: real, m: Maths): real
    requires m.ln(2.0) != 0.0
  {
    m.ln(x) / m.ln(2.0)
  }

  /** Shannon entropy in bits of a coin that lands up with probability p. */
  function BinaryEntropy(p: real, m: Maths): real
    requires m.ln(2.0) != 0.0
  {
    -(p * Log2(p, m) + (1.0 - p) * Log2(1.0 - p, m))
  }

  /** `get_info_entropy`. */
  function InfoEntropy(close: Column, window: int, m: Maths): (r: Result<Named>)
    ensures r.Ok? <==> window >= 1
    ensures r.Ok? ==> r.value.name == "regime_entropy_" + Decimal(window) && |r.value.col| == |close|
  {
    if window < 1 then Err(BadArgument)
    else
      var up, down := UpProbability(close, window, m), DownProbability(close, window, m);
      var terms := Zip(Add, Zip(Mul, up, Map(LogBase(2.0), up, m)), Zip(Mul, down, Map(LogBase(2.0), down, m)));
      Ok(Named("regime_entropy_" + Decimal(window), ScalarLeft(Mul, -1.0, terms)))
  }

  /** Both probabilities are missing together and otherwise lie in [0.001, 0.999]. */
  lemma ProbabilitiesRange(close: Column, w: nat, m: Maths)
    requires w >= 1
    ensures NullOrIn(UpProbability(close, w, m), Closed(0.001, 0.999))
    ensures NullOrIn(DownProbability(close, w, m), Closed(0.001, 0.999))
    ensures forall t :: 0 <= t < |close| ==>
      (UpProbability(close, w, m)[t].Null? <==> DownProbability(close, w, m)[t].Null?)
  {
    var isUp := Compare(Diff(close, 1), Lit(0.0, |close|), true);
    var mean := Rolling(MeanOf, Cast(isUp), w, m);
    RollingOfCastNeverNaN(MeanOf, isUp, w, m);
    forall t | 0 <= t < |close|
      ensures var up, down := UpProbability(close, w, m)[t], DownProbability(close, w, m)[t];
        (up.Null? <==> down.Null?) &&
        (up.Null? || (up.Val? && 0.001 <= up.v <= 0.999)) &&
        (down.Null? || (down.Val? && 0.001 <= down.v <= 0.999))
    {
      ProbabilitiesAt(close, w, t, m);
      ProbabilityCell(mean[t], m);
    }
  }

  lemma ProbabilitiesAt(close: Column, w: nat, t: nat, m: Maths)
    requires w >= 1 && t < |close|
    ensures var mean := Rolling(MeanOf, Cast(Compare(Diff(close, 1), Lit(0.0, |close|), true)), w, m);
      UpProbability(close, w, m)[t] == Eval(Clip(0.001, 0.999), mean[t], m) &&
      DownProbability(close, w, m)[t] == Combine(Sub, Val(1.0), Eval(Clip(0.001, 0.999), mean[t], m))
  {
  }

  /** Clipping a rolling share to [0.001, 0.999] and taking its complement. */
  lemma ProbabilityCell(c: Cell, m: Maths)
    requires !c.NaN?
    ensures var up, down := Eval(Clip(0.001, 0.999), c, m), Combine(Sub, Val(1.0), Eval(Clip(0.001, 0.999), c, m));
      (up.Null? <==> c.Null?) && (down.Null? <==> c.Null?) &&
      (c.Val? ==> up.Val? && 0.001 <= up.v <= 0.999 && down == Val(1.0 - up.v) && 0.001 <= down.v <= 0.999)
  {
  }

  /** One row of the entropy column, for an up-probability p strictly between 0 and 1. */
  lemma EntropyCell(p: real, m: Maths)
    requires m.ln(2.0) > 0.0 && 0.0 < p < 1.0
    ensures Combine(Mul, Val(-1.0), Combine(Add,
              Combine(Mul, Val(p), Eval(LogBase(2.0), Val(p), m)),
              Combine(Mul, Val(1.0 - p), Eval(LogBase(2.0), Val(1.0 - p), m))))
            == Val(BinaryEntropy(p, m))
  {
  }

  /** Wherever the window is full the column is the binary entropy of the up-probability. */
  lemma InfoEntropyIsBinaryEntropy(close: Column, window: nat, m: Maths)
    requires m.ln(2.0) > 0.0 && window >= 1
    ensures forall t :: 0 <= t < |close| ==>
      InfoEntropy(close, window, m).value.col[t] ==
        if UpProbability(close, window, m)[t].Null? then Null
        else Val(BinaryEntropy(UpProbability(close, window, m)[t].v, m))
  {
    var up, down := UpProbability(close, window, m), DownProbability(close, window, m);
    forall t | 0 <= t < |close|
      ensures InfoEntropy(close, window, m).value.col[t] ==
        if up[t].Null? then Null else Val(BinaryEntropy(up[t].v, m))
    {
      InfoEntropyAt(close, window, t, m);
      var mean := Rolling(MeanOf, Cast(Compare(Diff(close, 1), Lit(0.0, |close|), true)), window, m);
      ProbabilitiesAt(close, window, t, m);
      RollingOfCastNeverNaN(MeanOf, Compare(Diff(close, 1), Lit(0.0, |close|), true), window, m);
      ProbabilityCell(mean[t], m);
      if up[t].Val? {
        EntropyCell(up[t].v, m);
      }
    }
  }

  lemma InfoEntropyAt(close: Column, window: nat, t: nat, m: Maths)
    requires window >= 1 && t < |close|
    ensures var up, down := UpProbability(close, window, m), DownProbability(close, window, m);
      InfoEntropy(close, window, m).value.col[t] ==
        Combine(Mul, Val(-1.0), Combine(Add,
          Combine(Mul, up[t], Eval(LogBase(2.0), up[t], m)),
          Combine(Mul, down[t], Eval(LogBase(2.0), down[t], m))))
  {
  }

  /** Up and down play symmetric roles. */
  lemma BinaryEntropySymmetric(p: real, m: Maths)
    requires m.ln(2.0) != 0.0
    ensures BinaryEntropy(p, m) == BinaryEntropy(1.0 - p, m)
  {
    assert 1.0 - (1.0 - p) == p;
  }

  /** With both probabilities clipped away from 0 and 1 the entropy is strictly positive. */
  lemma BinaryEntropyPositive(p: real, m: Maths)
    requires Lawful(m) && 0.001 <= p <= 0.999
    ensures BinaryEntropy(p, m) > 0.0
  {
    LnTwoPositive(m);
    LnBelowOne(m, p);
    LnBelowOne(m, 1.0 - p);
    var a, b := -Log2(p, m), -Log2(1.0 - p, m);
    assert a == (-m.ln(p)) / m.ln(2.0);
    assert b == (-m.ln(1.0 - p)) / m.ln(2.0);
    ScaledBounds(-m.ln(p), m.ln(2.0), 0.0, true);
    ScaledBounds(-m.ln(1.0 - p), m.ln(2.0), 0.0, true);
    PositiveProduct(p, a);
    PositiveProduct(1.0 - p, b);
  }

  /** The entropy is at most 1 bit, the value of a fair coin (Gibbs' inequality). */
  lemma BinaryEntropyAtMostOne(p: real, m: Maths)
    requires Lawful(m) && LogLaws(m) && 0.001 <= p <= 0.999
    ensures BinaryEntropy(p, m) <= 1.0
    ensures p == 0.5 ==> BinaryEntropy(p, m) == 1.0
  {
    var l2 := m.ln(2.0);
    LnTwoPositive(m);
    GibbsTerm(m, p);
    GibbsTerm(m, 1.0 - p);
    var h := -(p * m.ln(p) + (1.0 - p) * m.ln(1.0 - p));
    assert h <= l2;
    assert p * Log2(p, m) == (p * m.ln(p)) / l2;
    assert (1.0 - p) * Log2(1.0 - p, m) == ((1.0 - p) * m.ln(1.0 - p)) / l2;
    assert BinaryEntropy(p, m) == h / l2;
    ScaledBoundsAbove(h, l2, 1.0, false);
    if p == 0.5 {
      LnOfHalf(m);
      assert Log2(p, m) == -1.0;
    }
  }

  /** Every defined row of the entropy column lies in (0, 1]: 1.0 is maximal randomness. */
  lemma InfoEntropyRange(close: Column, window: nat, m: Maths)
    requires Lawful(m) && LogLaws(m) && window >= 1
    ensures NullOrIn(InfoEntropy(close, window, m).value.col, Interval(0.0, true, 1.0, false))
  {
    LnTwoPositive(m);
    InfoEntropyIsBinaryEntropy(close, window, m);
    ProbabilitiesRange(close, window, m);
    var up := UpProbability(close, window, m);
    forall t | 0 <= t < |close| && up[t].Val?
      ensures 0.0 < BinaryEntropy(up[t].v, m) <= 1.0
    {
      BinaryEntropyPositive(up[t].v, m);
      BinaryEntropyAtMostOne(up[t].v, m);
    }
  }

  // ---------------------------------------------------------------------------
  // Fisher proxy
  // ---------------------------------------------------------------------------

  /** The rolling mean over w rows of the fourth power of the return z-score. */
  function Kurtosis(close: Column, w: nat, m: Maths): (r: Column)
    requires w >= 1
    ensures |r| == |close|
  {
    var ret := Returns(close, m);
    var z := Zip(Div, Zip(Sub, ret, Rolling(MeanOf, ret, w, m)), Scalar(Add, Rolling(StdOf, ret, w, m), 1e-9));
    Rolling(MeanOf, Map(Fourth, z, m), w, m)
  }

  /** The rolling mean of |kurtosis[t] - kurtosis[t-1]|. */
  function FisherColumn(close: Column, w: nat, m: Maths): (r: Column)
    requires w >= 1
    ensures |r| == |close|
  {
    Rolling(MeanOf, Map(Abs, Diff(Kurtosis(close, w, m), 1), m), w, m)
  }

  /** `get_fisher_proxy`. */
  function FisherProxy(close: Column, window: int, m: Maths): (r: Result<Named>)
    ensures r.Ok? <==> window >= 1
    ensures r.Ok? ==> r.value.name == "regime_fisher_" + Decimal(window) && |r.value.col| == |close|
  {
    if window < 1 then Err(BadArgument) else Ok(Named("regime_fisher_" + Decimal(window), FisherColumn(close, window, m)))
  }

  /** A mean of absolute changes is never negative. */
  lemma FisherNonNegative(close: Column, w: nat, m: Maths)
    requires w >= 1
    ensures ColumnAtLeast(FisherColumn(close, w, m), 0.0)
  {
    RollingMeanAtLeast(Map(Abs, Diff(Kurtosis(close, w, m), 1), m), w, 0.0, m);
  }

  /** One-row returns, three stacked windows and a difference: the first 3w - 1 rows are
      always missing. */
  lemma FisherWarmUp(close: Column, w: nat, m: Maths)
    requires w >= 1
    ensures forall t :: 0 <= t < |close| && t + 1 < 3 * w ==> FisherColumn(close, w, m)[t].Null?
  {
    var ret := Returns(close, m);
    var mean, sd := Rolling(MeanOf, ret, w, m), Rolling(StdOf, ret, w, m);
    var z := Zip(Div, Zip(Sub, ret, mean), Scalar(Add, sd, 1e-9));
    if |close| > 0 {
      assert ret[0].Null?;
    }
    RollingNullPrefix(MeanOf, ret, w, 1, m);
    var fourth := Map(Fourth, z, m);
    forall i | 0 <= i < w && i < |close| ensures fourth[i].Null? {
      assert mean[i].Null?;
      assert fourth[i] == Eval(Fourth, Combine(Div, Combine(Sub, ret[i], mean[i]), Combine(Add, sd[i], Val(1e-9))), m);
    }
    RollingNullPrefix(MeanOf, fourth, w, w, m);
    var k := Kurtosis(close, w, m);
    var steps := Map(Abs, Diff(k, 1), m);
    forall i | 0 <= i < 2 * w && i < |close| ensures steps[i].Null? {
      assert steps[i] == Eval(Abs, Combine(Sub, k[i], Shift(k, 1)[i]), m);
    }
    RollingNullPrefix(MeanOf, steps, w, 2 * w, m);
  }
}
