/** `MicrostructureGuard` of src/stability/microstructure.py: the half-life of a
    signal read from its lag-1 autocorrelation `rho`, the innovation-driven
    multiplier of the Kalman span, and the latency feasibility score. */
module Guard {
  import opened Elementary
  import opened Kernels
  import opened KernelLaws
  import opened Frames

  // ---------------------------------------------------------------------------
  // calc_signal_half_life
  // ---------------------------------------------------------------------------

  /** The persistence the half-life is read from: |rho| clipped to [0.01, 0.99]. */
  function Persistence(rho: real): (c: real)
    ensures 0.01 <= c <= 0.99
    ensures 0.01 <= AbsReal(rho) <= 0.99 ==> c == AbsReal(rho)
  {
    ClipReal(AbsReal(rho), 0.01, 0.99)
  }

  /** The number of bars after which an AR(1) process with coefficient c has decayed to half:
      -ln 2 / ln c. */
  function HalfLifeOf(c: real, m: Maths): real
    requires Lawful(m) && 0.0 < c < 1.0
  {
    LnBelowOne(m, c);
    -m.ln(2.0) / m.ln(c)
  }

  /** The half-life is positive, is the h with c^h = 1/2 (h ln c = -ln 2), and grows with c. */
  lemma HalfLifeOfLaws(a: real, b: real, m: Maths)
    requires Lawful(m) && 0.0 < a <= b < 1.0
    ensures HalfLifeOf(a, m) > 0.0
    ensures HalfLifeOf(a, m) * m.ln(a) == -m.ln(2.0)
    ensures HalfLifeOf(a, m) <= HalfLifeOf(b, m)
  {
    LnTwoPositive(m);
    LnBelowOne(m, a);
    LnBelowOne(m, b);
    var k, la, lb := m.ln(2.0), m.ln(a), m.ln(b);
    if a < b {
      assert la < lb;
    }
    assert -k / la == k / -la;
    assert -k / lb == k / -lb;
    QuotientAntitone(k, -lb, -la);
    ScaledBounds(k, -la, 0.0, true);
  }

  /** The first policy, written to `signal_half_life` and then overwritten: 0 where rho <= 0,
      else -ln 2 / ln(clip(rho, 1e-4, 0.9999)); a missing condition takes the `otherwise` branch. */
  function FirstPolicy(rho: Column, m: Maths): (r: Column)
    ensures |r| == |rho|
  {
    seq(|rho|, t requires 0 <= t < |rho| =>
      if rho[t].Val? && rho[t].v <= 0.0 then Val(0.0)
      else Combine(Div, Val(-m.ln(2.0)), Eval(Ln, Eval(Clip(1e-4, 0.9999), rho[t], m), m)))
  }

  /** The final policy: -ln 2 / ln(clip(|rho|, 0.01, 0.99)). */
  function HalfLife(rho: Column, m: Maths): (r: Column)
    ensures |r| == |rho|
  {
    ScalarLeft(Div, -m.ln(2.0), Map(Ln, Map(Clip(0.01, 0.99), Map(Abs, rho, m), m), m))
  }

  /** Each row of the final policy is the half-life of the clipped persistence; a missing rho
      gives a missing half-life and a NaN one gives NaN. */
  lemma HalfLifeAt(rho: Column, t: nat, m: Maths)
    requires Lawful(m) && t < |rho|
    ensures rho[t].Null? ==> HalfLife(rho, m)[t].Null?
    ensures rho[t].NaN? ==> HalfLife(rho, m)[t].NaN?
    ensures rho[t].Val? ==> HalfLife(rho, m)[t] == Val(HalfLifeOf(Persistence(rho[t].v), m))
  {
    assert HalfLife(rho, m)[t] ==
      Combine(Div, Val(-m.ln(2.0)), Eval(Ln, Eval(Clip(0.01, 0.99), Eval(Abs, rho[t], m), m), m));
    if rho[t].Val? {
      LnBelowOne(m, Persistence(rho[t].v));
    }
  }

  /** Every finite rho gives a finite half-life between that of persistence 0.01 and that of
      persistence 0.99; in particular it is strictly positive. */
  lemma HalfLifeRange(rho: Column, m: Maths)
    requires Lawful(m)
    ensures forall t :: 0 <= t < |rho| && rho[t].Val? ==>
      && HalfLife(rho, m)[t].Val?
      && 0.0 < HalfLifeOf(0.01, m) <= HalfLife(rho, m)[t].v <= HalfLifeOf(0.99, m)
  {
    forall t | 0 <= t < |rho| && rho[t].Val?
      ensures HalfLife(rho, m)[t].Val?
      ensures 0.0 < HalfLifeOf(0.01, m) <= HalfLife(rho, m)[t].v <= HalfLifeOf(0.99, m)
    {
      HalfLifeAt(rho, t, m);
      var c := Persistence(rho[t].v);
      HalfLifeOfLaws(0.01, c, m);
      HalfLifeOfLaws(c, 0.99, m);
    }
  }

  /** A more persistent signal (larger |rho|) has a half-life at least as long. */
  lemma HalfLifeMonotone(rho: Column, t: nat, u: nat, m: Maths)
    requires Lawful(m) && t < |rho| && u < |rho| && rho[t].Val? && rho[u].Val?
    requires AbsReal(rho[t].v) <= AbsReal(rho[u].v)
    ensures HalfLife(rho, m)[t].Val? && HalfLife(rho, m)[u].Val?
    ensures HalfLife(rho, m)[t].v <= HalfLife(rho, m)[u].v
  {
    HalfLifeAt(rho, t, m);
    HalfLifeAt(rho, u, m);
    HalfLifeOfLaws(Persistence(rho[t].v), Persistence(rho[u].v), m);
  }

  /** `calc_signal_half_life`: adds `x` and `x_lag`, writes the first policy and then the final
      one to `signal_half_life`, and drops `x`, `x_lag` and `rho`. Only the final policy is left. */
  function CalcSignalHalfLife(df: Frame, signalCol: string, m: Maths): (r: Result<Frame>)
    requires df.Valid()
    ensures r.Ok? <==> signalCol in df.cols && "rho" in df.cols
    ensures r.Ok? ==> r.value.Valid() && r.value.height == df.height
    ensures r.Ok? ==> r.value.cols.Keys == (df.cols.Keys - {"x", "x_lag", "rho"}) + {"signal_half_life"}
    ensures r.Ok? ==> forall c :: c in df.cols && c !in {"x", "x_lag", "rho", "signal_half_life"} ==>
      r.value.cols[c] == df.cols[c]
    ensures r.Ok? ==> r.value.cols["signal_half_life"] == Numeric(HalfLife(Col(df, "rho").value, m))
  {
    var sig :- Col(df, signalCol);
    var q1 := df.With("x", Numeric(sig)).With("x_lag", Numeric(Shift(sig, 1)));
    var rho :- Col(df, "rho");
    var q2 := q1.With("signal_half_life", Numeric(FirstPolicy(rho, m)));
    var q3 := q2.With("signal_half_life", Numeric(HalfLife(rho, m)));
    Ok(q3.Drop({"x", "x_lag", "rho"}))
  }

  /** The overwritten rule is not observable: where rho <= 0 the first policy said 0, but the
      output half-life there is strictly positive. */
  lemma FirstPolicyShadowed(df: Frame, signalCol: string, t: nat, m: Maths)
    requires df.Valid() && Lawful(m) && signalCol in df.cols && "rho" in df.cols && t < df.height
    requires Col(df, "rho").value[t].Val? && Col(df, "rho").value[t].v <= 0.0
    ensures FirstPolicy(Col(df, "rho").value, m)[t] == Val(0.0)
    ensures var out := CalcSignalHalfLife(df, signalCol, m).value.cols["signal_half_life"].cells;
      out[t].Val? && out[t].v > 0.0
  {
    HalfLifeRange(Col(df, "rho").value, m);
  }

  // ---------------------------------------------------------------------------
  // adaptive_kalman_monitor
  // ---------------------------------------------------------------------------

  /** `innovation_var`: the rolling mean of squared log returns. */
  function Innovation(price: Column, w: nat, m: Maths): (r: Column)
    requires w >= 1
    ensures |r| == |price|
  {
    Rolling(MeanOf, Map(Square, Diff(Map(Ln, price, m), 1), m), w, m)
  }

  /** `innovation_z`: the innovation z-scored with 5w-row rolling mean and std plus 1e-9. */
  function InnovationZ(innov: Column, w: nat, m: Maths): (r: Column)
    requires w >= 1
    ensures |r| == |innov|
  {
    Zip(Div, Zip(Sub, innov, Rolling(MeanOf, innov, 5 * w, m)), Scalar(Add, Rolling(StdOf, innov, 5 * w, m), 1e-9))
  }

  /** `adaptive_kalman_scalar` = 1 / (1 + clip(z, 0, 3)). */
  function SpanScalar(z: Column, m: Maths): (r: Column)
    ensures |r| == |z|
  {
    ScalarLeft(Div, 1.0, ScalarLeft(Add, 1.0, Map(Clip(0.0, 3.0), z, m)))
  }

  /** The multiplier lies in [1/4, 1]: 1 for a calm market (z <= 0), 1/4 for a shock of three
      deviations or more; missing and NaN scores carry through. */
  lemma SpanScalarRange(z: Column, m: Maths)
    ensures forall t :: 0 <= t < |z| ==>
      && (z[t].Null? ==> SpanScalar(z, m)[t].Null?)
      && (z[t].NaN? ==> SpanScalar(z, m)[t].NaN?)
      && (z[t].Val? ==> SpanScalar(z, m)[t].Val? && 0.25 <= SpanScalar(z, m)[t].v <= 1.0)
      && (z[t].Val? && z[t].v <= 0.0 ==> SpanScalar(z, m)[t] == Val(1.0))
      && (z[t].Val? && z[t].v >= 3.0 ==> SpanScalar(z, m)[t] == Val(0.25))
  {
    forall t | 0 <= t < |z|
      ensures z[t].Null? ==> SpanScalar(z, m)[t].Null?
      ensures z[t].NaN? ==> SpanScalar(z, m)[t].NaN?
      ensures z[t].Val? ==> SpanScalar(z, m)[t].Val? && 0.25 <= SpanScalar(z, m)[t].v <= 1.0
      ensures z[t].Val? && z[t].v <= 0.0 ==> SpanScalar(z, m)[t] == Val(1.0)
      ensures z[t].Val? && z[t].v >= 3.0 ==> SpanScalar(z, m)[t] == Val(0.25)
    {
      SpanScalarAt(z, t, m);
      if z[t].Val? {
        MultiplierRange(z[t].v);
      }
    }
  }

  lemma SpanScalarAt(z: Column, t: nat, m: Maths)
    requires t < |z|
    ensures SpanScalar(z, m)[t] == Combine(Div, Val(1.0), Combine(Add, Val(1.0), Eval(Clip(0.0, 3.0), z[t], m)))
  {
  }

  /** 1 / (1 + clip(z, 0, 3)) for a number z. */
  lemma MultiplierRange(z: real)
    ensures var c := ClipReal(z, 0.0, 3.0);
      0.25 <= 1.0 / (1.0 + c) <= 1.0 && (z <= 0.0 ==> 1.0 / (1.0 + c) == 1.0) && (z >= 3.0 ==> 1.0 / (1.0 + c) == 0.25)
  {
    var c := ClipReal(z, 0.0, 3.0);
    ScaledBoundsAbove(1.0, 1.0 + c, 1.0, false);
    ScaledBounds(1.0, 1.0 + c, 0.25, false);
  }

  /** A larger innovation score never gives a larger multiplier (a faster filter in turbulence). */
  lemma SpanScalarAntitone(z: Column, t: nat, u: nat, m: Maths)
    requires t < |z| && u < |z| && z[t].Val? && z[u].Val? && z[t].v <= z[u].v
    ensures SpanScalar(z, m)[t].Val? && SpanScalar(z, m)[u].Val?
    ensures SpanScalar(z, m)[u].v <= SpanScalar(z, m)[t].v
  {
    var ct, cu := ClipReal(z[t].v, 0.0, 3.0), ClipReal(z[u].v, 0.0, 3.0);
    SpanScalarAt(z, t, m);
    SpanScalarAt(z, u, m);
    QuotientAntitone(1.0, 1.0 + ct, 1.0 + cu);
  }

  /** `adaptive_kalman_monitor`: adds `innovation_var`, `innovation_z` and
      `adaptive_kalman_scalar`, then drops the first two. Polars refuses a window below 1. */
  function AdaptiveKalmanMonitor(df: Frame, priceCol: string, window: int, m: Maths): (r: Result<Frame>)
    requires df.Valid()
    ensures r.Ok? <==> window >= 1 && priceCol in df.cols
    ensures r.Ok? ==> r.value.Valid() && r.value.height == df.height
    ensures r.Ok? ==> r.value.cols.Keys == (df.cols.Keys - {"innovation_var", "innovation_z"}) + {"adaptive_kalman_scalar"}
    ensures r.Ok? ==> forall c :: c in df.cols && c !in {"innovation_var", "innovation_z", "adaptive_kalman_scalar"} ==>
      r.value.cols[c] == df.cols[c]
    ensures r.Ok? ==> (r.value.cols["adaptive_kalman_scalar"] ==
      Numeric(SpanScalar(InnovationZ(Innovation(Col(df, priceCol).value, window, m), window, m), m)))
  {
    if window < 1 then Err(BadArgument)
    else
      var price :- Col(df, priceCol);
      var innov := Innovation(price, window, m);
      var z := InnovationZ(innov, window, m);
      var q := df.With("innovation_var", Numeric(innov)).With("innovation_z", Numeric(z));
      Ok(q.With("adaptive_kalman_scalar", Numeric(SpanScalar(z, m))).Drop({"innovation_var", "innovation_z"}))
  }

  /** The multiplier needs w returns for the innovation and 5w innovations for its score: the
      first 6w - 1 rows are missing. */
  lemma MonitorWarmUp(price: Column, w: nat, m: Maths)
    requires w >= 1
    ensures forall t :: 0 <= t < |price| && t + 1 < 6 * w ==>
      SpanScalar(InnovationZ(Innovation(price, w, m), w, m), m)[t].Null?
  {
    var sq := Map(Square, Diff(Map(Ln, price, m), 1), m);
    if |price| > 0 {
      assert sq[0] == Eval(Square, Combine(Sub, Map(Ln, price, m)[0], Null), m);
    }
    RollingNullPrefix(MeanOf, sq, w, 1, m);
    var innov := Innovation(price, w, m);
    RollingNullPrefix(MeanOf, innov, 5 * w, w, m);
    var mean := Rolling(MeanOf, innov, 5 * w, m);
    var z := InnovationZ(innov, w, m);
    forall t | 0 <= t < |price| && t + 1 < 6 * w ensures SpanScalar(z, m)[t].Null? {
      assert mean[t].Null?;
      assert z[t].Null?;
      assert SpanScalar(z, m)[t] == Combine(Div, Val(1.0), Combine(Add, Val(1.0), Eval(Clip(0.0, 3.0), z[t], m)));
    }
  }

  // ---------------------------------------------------------------------------
  // check_execution_feasibility
  // ---------------------------------------------------------------------------

  /** 1 / (1 + exp(latency / (half-life + 1e-9))). */
  function Score(latency: real, halfLife: real, m: Maths): real
    requires Lawful(m) && halfLife >= 0.0
  {
    var e := m.exp(latency / (halfLife + 1e-9));
    assert 1.0 + e > 0.0;
    1.0 / (1.0 + e)
  }

  /** For a non-negative latency the score lies in (0, 1/2], and is exactly 1/2 at zero latency. */
  lemma ScoreRange(latency: real, halfLife: real, m: Maths)
    requires Lawful(m) && latency >= 0.0 && halfLife >= 0.0
    ensures 0.0 < Score(latency, halfLife, m) <= 0.5
    ensures latency == 0.0 ==> Score(latency, halfLife, m) == 0.5
  {
    var x := latency / (halfLife + 1e-9);
    ScaledBounds(latency, halfLife + 1e-9, 0.0, false);
    ExpAtLeastOne(m, x);
    var e := m.exp(x);
    ScaledBoundsAbove(1.0, 1.0 + e, 0.5, false);
    ScaledBounds(1.0, 1.0 + e, 0.0, true);
  }

  /** A slower system never has a higher score. */
  lemma ScoreLatencyAntitone(l1: real, l2: real, halfLife: real, m: Maths)
    requires Lawful(m) && l1 <= l2 && halfLife >= 0.0
    ensures Score(l2, halfLife, m) <= Score(l1, halfLife, m)
  {
    var d := halfLife + 1e-9;
    QuotientMonotone(l1, l2, d);
    ExpMonotone(m, l1 / d, l2 / d);
    QuotientAntitone(1.0, 1.0 + m.exp(l1 / d), 1.0 + m.exp(l2 / d));
  }

  /** A longer-lived signal never has a lower score. */
  lemma ScoreHalfLifeMonotone(latency: real, h1: real, h2: real, m: Maths)
    requires Lawful(m) && latency >= 0.0 && 0.0 <= h1 <= h2
    ensures Score(latency, h1, m) <= Score(latency, h2, m)
  {
    QuotientAntitone(latency, h1 + 1e-9, h2 + 1e-9);
    ExpMonotone(m, latency / (h2 + 1e-9), latency / (h1 + 1e-9));
    QuotientAntitone(1.0, 1.0 + m.exp(latency / (h2 + 1e-9)), 1.0 + m.exp(latency / (h1 + 1e-9)));
  }

  /** The `execution_confidence_score` column. */
  function Confidence(halfLife: Column, latencyBars: int, m: Maths): (r: Column)
    ensures |r| == |halfLife|
  {
    ScalarLeft(Div, 1.0, ScalarLeft(Add, 1.0, Map(Exp, ScalarLeft(Div, latencyBars as real, Scalar(Add, halfLife, 1e-9)), m)))
  }

  /** Each row with a non-negative half-life holds its score. */
  lemma ConfidenceAt(halfLife: Column, latencyBars: int, t: nat, m: Maths)
    requires Lawful(m) && t < |halfLife| && halfLife[t].Val? && halfLife[t].v >= 0.0
    ensures Confidence(halfLife, latencyBars, m)[t] == Val(Score(latencyBars as real, halfLife[t].v, m))
  {
    ConfidenceCell(halfLife, latencyBars, t, m);
    ScoreCell(latencyBars as real, halfLife[t].v, m);
  }

  lemma ConfidenceCell(halfLife: Column, latencyBars: int, t: nat, m: Maths)
    requires t < |halfLife|
    ensures Confidence(halfLife, latencyBars, m)[t] ==
      Combine(Div, Val(1.0), Combine(Add, Val(1.0), Eval(Exp, Combine(Div, Val(latencyBars as real), Combine(Add, halfLife[t], Val(1e-9))), m)))
  {
  }

  lemma ScoreCell(latency: real, h: real, m: Maths)
    requires Lawful(m) && h >= 0.0
    ensures Combine(Div, Val(1.0), Combine(Add, Val(1.0), Eval(Exp, Combine(Div, Val(latency), Combine(Add, Val(h), Val(1e-9))), m)))
      == Val(Score(latency, h, m))
  {
    var e := m.exp(latency / (h + 1e-9));
    assert 1.0 + e > 0.0;
  }

  /** `check_execution_feasibility`: adds `execution_confidence_score`; nothing else changes. */
  function ExecutionFeasibility(df: Frame, latencyBars: int, m: Maths): (r: Result<Frame>)
    requires df.Valid()
    ensures r.Ok? <==> "signal_half_life" in df.cols
    ensures r.Ok? ==> r.value.Valid() && r.value.height == df.height
    ensures r.Ok? ==> (r.value.cols ==
      df.cols["execution_confidence_score" := Numeric(Confidence(Col(df, "signal_half_life").value, latencyBars, m))])
  {
    var halfLife :- Col(df, "signal_half_life");
    Ok(df.With("execution_confidence_score", Numeric(Confidence(halfLife, latencyBars, m))))
  }

  /** Every row with a non-negative half-life gets a score in (0, 1/2] when the latency is not
      negative. */
  lemma FeasibilityRange(df: Frame, latencyBars: int, m: Maths)
    requires df.Valid() && Lawful(m) && latencyBars >= 0 && "signal_half_life" in df.cols
    ensures var h := Col(df, "signal_half_life").value;
      var s := ExecutionFeasibility(df, latencyBars, m).value.cols["execution_confidence_score"].cells;
      forall t :: 0 <= t < df.height && h[t].Val? && h[t].v >= 0.0 ==> s[t].Val? && 0.0 < s[t].v <= 0.5
  {
    var h := Col(df, "signal_half_life").value;
    forall t | 0 <= t < df.height && h[t].Val? && h[t].v >= 0.0
      ensures Confidence(h, latencyBars, m)[t].Val? && 0.0 < Confidence(h, latencyBars, m)[t].v <= 0.5
    {
      ConfidenceAt(h, latencyBars, t, m);
      ScoreRange(latencyBars as real, h[t].v, m);
    }
  }

  /** The guard chain: after `calc_signal_half_life`, every row with a finite rho gets a score in
      (0, 1/2], since the half-life there is positive. */
  lemma GuardChain(df: Frame, signalCol: string, latencyBars: int, m: Maths)
    requires df.Valid() && Lawful(m) && latencyBars >= 0 && signalCol in df.cols && "rho" in df.cols
    ensures var hl := CalcSignalHalfLife(df, signalCol, m).value;
      var s := ExecutionFeasibility(hl, latencyBars, m).value.cols["execution_confidence_score"].cells;
      forall t :: 0 <= t < df.height && Col(df, "rho").value[t].Val? ==> s[t].Val? && 0.0 < s[t].v <= 0.5
  {
    var hl := CalcSignalHalfLife(df, signalCol, m).value;
    HalfLifeRange(Col(df, "rho").value, m);
    FeasibilityRange(hl, latencyBars, m);
  }
}
