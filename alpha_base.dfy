/** `BaseAlpha` of src/alpha/base.py: the parameters of a signal, the clipped
    rolling z-score, the exponential decay and the `run` pipeline that stores
    the raw signal as `{name}_raw` and its normalised, shifted form as `name`. */
module AlphaBase {
  import opened Elementary
  import opened Kernels
  import opened KernelLaws
  import opened Frames

  datatype Option<T> = None | Some(value: T)

  /** A signal instance: its name, its category and its parameter bag. */
  datatype Alpha = Alpha(name: string, category: string, params: Params)

  /** `BaseAlpha.__init__`: a missing parameter bag becomes the empty one, so every lookup
      falls back to its default. */
  function NewAlpha(name: string, category: string, params: Option<Params>): (a: Alpha)
    ensures a.name == name && a.category == category
    ensures params.Some? ==> a.params == params.value
    ensures params.None? ==> forall key, d :: Get(a.params, key, d) == d
  {
    Alpha(name, category, if params.Some? then params.value else map[])
  }

  /** The name of the raw column `run` stores. */
  function RawName(name: string): (r: string)
    ensures r != name
  {
    assert |name + "_raw"| == |name| + 4;
    name + "_raw"
  }

  // ---------------------------------------------------------------------------
  // _robust_zscore
  // ---------------------------------------------------------------------------

  /** clip((x - rolling mean) / (rolling sample std + 1e-8), -4, 4) over window w. */
  function RobustZScore(x: Column, w: nat, m: Maths): (r: Column)
    requires w >= 1
    ensures |r| == |x|
    ensures ColumnIn(r, Closed(-4.0, 4.0))
    ensures forall t :: 0 <= t < |x| && t + 1 < w ==> r[t].Null?
  {
    var mean := Rolling(MeanOf, x, w, m);
    var sd := Rolling(StdOf, x, w, m);
    Map(Clip(-4.0, 4.0), Zip(Div, Zip(Sub, x, mean), Scalar(Add, sd, 1e-8)), m)
  }

  /** A flat column has score 0 once its window is full. */
  lemma RobustZScoreOfConstant(x: Column, w: nat, c: real, m: Maths)
    requires Lawful(m) && w >= 2
    requires forall t :: 0 <= t < |x| ==> x[t] == Val(c)
    ensures forall t :: 0 <= t < |x| ==> RobustZScore(x, w, m)[t] == if t + 1 < w then Null else Val(0.0)
  {
    var mean, sd := Rolling(MeanOf, x, w, m), Rolling(StdOf, x, w, m);
    RollingMeanOfConstant(x, w, c, m);
    RollingSpreadOfConstant(x, w, c, m);
    forall t | 0 <= t < |x|
      ensures RobustZScore(x, w, m)[t] == if t + 1 < w then Null else Val(0.0)
    {
      RobustZScoreAt(x, w, t, m);
    }
  }

  lemma RobustZScoreAt(x: Column, w: nat, t: nat, m: Maths)
    requires w >= 1 && t < |x|
    ensures RobustZScore(x, w, m)[t] ==
      Eval(Clip(-4.0, 4.0), Combine(Div, Combine(Sub, x[t], Rolling(MeanOf, x, w, m)[t]),
                                         Combine(Add, Rolling(StdOf, x, w, m)[t], Val(1e-8))), m)
  {
  }

  /** The score only looks back: over the first k rows it is the first k rows of the score. */
  lemma RobustZScorePrefix(x: Column, w: nat, k: nat, m: Maths)
    requires w >= 1 && k <= |x|
    ensures RobustZScore(x[..k], w, m) == RobustZScore(x, w, m)[..k]
  {
    var mean, sd := Rolling(MeanOf, x, w, m), Rolling(StdOf, x, w, m);
    var meanK, sdK := Rolling(MeanOf, x[..k], w, m), Rolling(StdOf, x[..k], w, m);
    RollingPrefix(MeanOf, x, w, k, m);
    RollingPrefix(StdOf, x, w, k, m);
    forall t | 0 <= t < k ensures RobustZScore(x[..k], w, m)[t] == RobustZScore(x, w, m)[t] {
      assert meanK[t] == mean[t] && sdK[t] == sd[t];
      RobustZScoreAt(x[..k], w, t, m);
      RobustZScoreAt(x, w, t, m);
    }
  }

  // ---------------------------------------------------------------------------
  // _decay
  // ---------------------------------------------------------------------------

  /** `ewm_mean(alpha, adjust=False)`; Polars refuses a smoothing factor outside (0, 1]. */
  function Decay(x: Column, alpha: real): (r: Result<Column>)
    ensures r.Ok? <==> 0.0 < alpha <= 1.0
    ensures r.Ok? ==> |r.value| == |x|
  {
    if 0.0 < alpha <= 1.0 then Ok(Ewm(x, alpha)) else Err(BadArgument)
  }

  /** Decaying row by row over a prefix gives the prefix of the batch result. */
  lemma DecayPrefix(x: Column, alpha: real, k: nat)
    requires 0.0 < alpha <= 1.0 && k <= |x|
    ensures Decay(x[..k], alpha).value == Decay(x, alpha).value[..k]
  {
    EwmPrefix(x, alpha, k);
  }

  /** The decayed value of a signal never leaves the range of the values read so far. */
  lemma DecayIn(x: Column, alpha: real, lo: real, hi: real)
    requires 0.0 < alpha <= 1.0 && NullOrIn(x, Closed(lo, hi))
    ensures NullOrIn(Decay(x, alpha).value, Closed(lo, hi))
  {
    forall t | 0 <= t < |x|
      ensures EwmState(x, alpha, t).Null? || (EwmState(x, alpha, t).Val? && lo <= EwmState(x, alpha, t).v <= hi)
    {
      EwmStateIn(x, alpha, t, lo, hi);
    }
  }

  // ---------------------------------------------------------------------------
  // run
  // ---------------------------------------------------------------------------

  /** The column after the optional normalisation. */
  function Processed(raw: Column, normalize: bool, window: nat, m: Maths): (r: Column)
    requires window >= 1
    ensures |r| == |raw|
    ensures !normalize ==> r == raw
  {
    if normalize then RobustZScore(raw, window, m) else raw
  }

  /** The column stored under the signal's own name: processed, then delayed by `shift` rows
      when `shift` is positive. */
  function Emitted(raw: Column, normalize: bool, window: nat, shift: int, m: Maths): (r: Column)
    requires window >= 1
    ensures |r| == |raw|
    ensures forall t :: 0 <= t < |raw| ==>
      r[t] == if shift <= 0 then Processed(raw, normalize, window, m)[t]
              else if t < shift then Null
              else Processed(raw, normalize, window, m)[t - shift]
  {
    var processed := Processed(raw, normalize, window, m);
    if shift > 0 then Shift(processed, shift) else processed
  }

  /** The z-score window `run` reads, only when it normalises. */
  function ZWindow(a: Alpha, normalize: bool): (r: Result<nat>)
    ensures r.Ok? ==> r.value >= 1
    ensures !normalize ==> r.Ok?
    ensures normalize ==> r == Size(a.params, "z_window", 300)
  {
    if normalize then Size(a.params, "z_window", 300) else Ok(1)
  }

  /** `run`: stores `raw` (what `calculate` returned) as `{name}_raw` and its emitted form
      as `name`; nothing else in the frame changes. */
  function Run(df: Frame, a: Alpha, raw: Column, normalize: bool, shift: int, m: Maths): (r: Result<Frame>)
    requires df.Valid() && |raw| == df.height
    ensures r.Ok? <==> ZWindow(a, normalize).Ok?
    ensures r.Ok? ==> r.value.Valid() && r.value.height == df.height
    ensures r.Ok? ==> r.value.cols.Keys == df.cols.Keys + {RawName(a.name), a.name}
    ensures r.Ok? ==> forall k :: k in df.cols && k != a.name && k != RawName(a.name) ==> r.value.cols[k] == df.cols[k]
    ensures r.Ok? ==> r.value.cols[RawName(a.name)] == Numeric(raw)
    ensures r.Ok? ==> r.value.cols[a.name] == Numeric(Emitted(raw, normalize, ZWindow(a, normalize).value, shift, m))
  {
    var window :- ZWindow(a, normalize);
    var q := df.With(RawName(a.name), Numeric(raw));
    Ok(q.With(a.name, Numeric(Emitted(raw, normalize, window, shift, m))))
  }

  /** Without normalisation and without shift the signal column is the raw column. */
  lemma RunIdentity(df: Frame, a: Alpha, raw: Column, m: Maths)
    requires df.Valid() && |raw| == df.height
    ensures Run(df, a, raw, false, 0, m).Ok?
    ensures Run(df, a, raw, false, 0, m).value.cols[a.name] == Run(df, a, raw, false, 0, m).value.cols[RawName(a.name)]
  {
    var e := Emitted(raw, false, 1, 0, m);
    assert e == raw;
  }

  /** A normalised signal is clipped to [-4, 4] and is missing until both the z-score window
      and the shift have filled. */
  lemma EmittedRange(raw: Column, window: nat, shift: int, m: Maths)
    requires window >= 1
    ensures ColumnIn(Emitted(raw, true, window, shift, m), Closed(-4.0, 4.0))
    ensures forall t :: 0 <= t < |raw| && t + 1 < window + (if shift > 0 then shift else 0) ==>
      Emitted(raw, true, window, shift, m)[t].Null?
  {
    var z := RobustZScore(raw, window, m);
    var e := Emitted(raw, true, window, shift, m);
    forall t | 0 <= t < |raw| && e[t].Val? ensures -4.0 <= e[t].v <= 4.0 {
      if shift > 0 {
        assert e[t] == z[t - shift];
      }
    }
  }

  /** Causality: the signal at row t depends only on the raw rows up to t - shift. */
  lemma EmittedCausal(raw1: Column, raw2: Column, normalize: bool, window: nat, shift: int, t: nat, m: Maths)
    requires window >= 1 && |raw1| == |raw2| && t < |raw1|
    requires var s := if shift > 0 then shift else 0;
      s <= t && raw1[..t - s + 1] == raw2[..t - s + 1]
    ensures Emitted(raw1, normalize, window, shift, m)[t] == Emitted(raw2, normalize, window, shift, m)[t]
  {
    var s := if shift > 0 then shift else 0;
    var k := t - s + 1;
    if normalize {
      RobustZScorePrefix(raw1, window, k, m);
      RobustZScorePrefix(raw2, window, k, m);
      assert RobustZScore(raw1, window, m)[k - 1] == RobustZScore(raw1[..k], window, m)[k - 1];
      assert RobustZScore(raw2, window, m)[k - 1] == RobustZScore(raw2[..k], window, m)[k - 1];
    } else {
      assert raw1[k - 1] == raw1[..k][k - 1];
    }
  }

  // ---------------------------------------------------------------------------
  // run with its defaults
  // ---------------------------------------------------------------------------

  /** `run(df)`: the keyword defaults `normalize=True, shift=1` z-score the signal and delay
      it by one row. */
  function RunDefault(df: Frame, a: Alpha, raw: Column, m: Maths): (r: Result<Frame>)
    requires df.Valid() && |raw| == df.height
    ensures r.Ok? <==> Size(a.params, "z_window", 300).Ok?
    ensures r.Ok? ==> r.value.cols.Keys == df.cols.Keys + {RawName(a.name), a.name}
    ensures r.Ok? ==> r.value.cols[a.name] == Numeric(Emitted(raw, true, Size(a.params, "z_window", 300).value, 1, m))
  {
    Run(df, a, raw, true, 1, m)
  }

  /** By default the signal lies in [-4, 4] and is missing in the first z-window rows: the
      window fills at row z_window - 1 and the shift moves it one row later. */
  lemma RunDefaultRange(df: Frame, a: Alpha, raw: Column, m: Maths)
    requires df.Valid() && |raw| == df.height && RunDefault(df, a, raw, m).Ok?
    ensures var s := RunDefault(df, a, raw, m).value.cols[a.name].cells;
      && ColumnIn(s, Closed(-4.0, 4.0))
      && forall t :: 0 <= t < |s| && t < Size(a.params, "z_window", 300).value ==> s[t].Null?
  {
    EmittedRange(raw, Size(a.params, "z_window", 300).value, 1, m);
  }

  /** By default row t of the signal depends only on the raw rows before t: two raw signals
      that agree on rows 0 .. t - 1 give the same row t. */
  lemma RunDefaultCausal(df: Frame, a: Alpha, raw1: Column, raw2: Column, t: nat, m: Maths)
    requires df.Valid() && |raw1| == df.height && |raw2| == df.height && t < df.height
    requires RunDefault(df, a, raw1, m).Ok? && raw1[..t] == raw2[..t]
    ensures RunDefault(df, a, raw2, m).Ok?
    ensures RunDefault(df, a, raw1, m).value.cols[a.name].cells[t] == RunDefault(df, a, raw2, m).value.cols[a.name].cells[t]
  {
    var w := Size(a.params, "z_window", 300).value;
    if t > 0 {
      EmittedCausal(raw1, raw2, true, w, 1, t, m);
    }
  }
}
