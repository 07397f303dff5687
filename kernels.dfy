/** The columnar operators of Polars that the signals are built from, as pure
    functions over materialised columns.  A column is a sequence of cells; a
    cell is missing (`Null`), not-a-number (`NaN`, which here also stands for
    the infinities) or a finite real.  Rolling operators use Polars' default
    `min_periods`, which equals the window size: a window with a missing cell
    gives a missing result. */
module Kernels {
  import opened Elementary

  datatype Cell = Null | NaN | Val(v: real)

  type Column = seq<Cell>

  /** One entry of a boolean column, under Kleene's three-valued logic. */
  datatype Truth = Unknown | Known(b: bool)

  // ---------------------------------------------------------------------------
  // Element-wise operators
  // ---------------------------------------------------------------------------

  datatype Arith = Add | Sub | Mul | Div | Rem

  /** Null absorbs, then NaN absorbs; a division or remainder by zero yields NaN.
      The remainder takes the sign of the divisor, as Python's `%` does. */
  function Combine(op: Arith, a: Cell, b: Cell): Cell
  {
    if a.Null? || b.Null? then Null
    else if a.NaN? || b.NaN? then NaN
    else match op
      case Add => Val(a.v + b.v)
      case Sub => Val(a.v - b.v)
      case Mul => Val(a.v * b.v)
      case Div => if b.v == 0.0 then NaN else Val(a.v / b.v)
      case Rem => if b.v == 0.0 then NaN else Val(a.v - b.v * ((a.v / b.v).Floor as real))
  }

  function Zip(op: Arith, x: Column, y: Column): (r: Column)
    requires |x| == |y|
    ensures |r| == |x|
  {
    seq(|x|, t requires 0 <= t < |x| => Combine(op, x[t], y[t]))
  }

  /** A literal broadcast to a column of height `n`. */
  function Lit(c: real, n: nat): (r: Column)
    ensures |r| == n
  {
    seq(n, _ => Val(c))
  }

  /** `x op c` for a scalar `c`. */
  function Scalar(op: Arith, x: Column, c: real): (r: Column)
    ensures |r| == |x|
  {
    Zip(op, x, Lit(c, |x|))
  }

  /** `c op x` for a scalar `c`. */
  function ScalarLeft(op: Arith, c: real, x: Column): (r: Column)
    ensures |r| == |x|
  {
    Zip(op, Lit(c, |x|), x)
  }

  datatype Unary =
    | Abs | Square | Fourth | Sqrt | Ln | LogBase(base: real) | Exp | Sign
    | Clip(lo: real, hi: real) | FillNull(fill: real) | FillNaN(fill: real)

  function AbsReal(a: real): real
  {
    if a < 0.0 then -a else a
  }

  function ClipReal(a: real, lo: real, hi: real): real
  {
    if a < lo then lo else if a > hi then hi else a
  }

  /** Polars' element-wise functions.  A missing cell stays missing and NaN
      stays NaN except under the fills; `ln` of a non-positive number and
      `sqrt` of a negative one are NaN. */
  function Eval(op: Unary, a: Cell, m: Maths): Cell
  {
    if op.FillNull? then (if a.Null? then Val(op.fill) else a)
    else if op.FillNaN? then (if a.NaN? then Val(op.fill) else a)
    else if !a.Val? then a
    else match op
      case Abs => Val(AbsReal(a.v))
      case Square => Val(a.v * a.v)
      case Fourth => Val(a.v * a.v * a.v * a.v)
      case Sqrt => if a.v < 0.0 then NaN else Val(m.sqrt(a.v))
      case Ln => if a.v <= 0.0 then NaN else Val(m.ln(a.v))
      case LogBase(b) =>
        if a.v <= 0.0 || b <= 0.0 || m.ln(b) == 0.0 then NaN else Val(m.ln(a.v) / m.ln(b))
      case Exp => Val(m.exp(a.v))
      case Sign => Val(if a.v > 0.0 then 1.0 else if a.v < 0.0 then -1.0 else 0.0)
      case Clip(lo, hi) => Val(ClipReal(a.v, lo, hi))
      case FillNull(_) => a
      case FillNaN(_) => a
  }

  function Map(op: Unary, x: Column, m: Maths): (r: Column)
    ensures |r| == |x|
  {
    seq(|x|, t requires 0 <= t < |x| => Eval(op, x[t], m))
  }

  /** `x.fill_null(y)`: a missing cell takes the other column's cell. */
  function FillNullFrom(x: Column, y: Column): (r: Column)
    requires |x| == |y|
    ensures |r| == |x|
  {
    seq(|x|, t requires 0 <= t < |x| => if x[t].Null? then y[t] else x[t])
  }

  /** `pl.min_horizontal(x, y)`, which skips missing cells. */
  function MinHorizontal(x: Column, y: Column): (r: Column)
    requires |x| == |y|
    ensures |r| == |x|
  {
    seq(|x|, t requires 0 <= t < |x| =>
      if x[t].Null? then y[t]
      else if y[t].Null? then x[t]
      else if x[t].NaN? || y[t].NaN? then NaN
      else Val(if x[t].v <= y[t].v then x[t].v else y[t].v))
  }

  // ---------------------------------------------------------------------------
  // Comparisons and boolean columns
  // ---------------------------------------------------------------------------

  /** Polars orders NaN above every number. */
  predicate Above(a: Cell, b: Cell)
  {
    (a.NaN? && b.Val?) || (a.Val? && b.Val? && a.v > b.v)
  }

  /** `x > y`, or `x < y` when `greater` is false. */
  function Compare(x: Column, y: Column, greater: bool): (r: seq<Truth>)
    requires |x| == |y|
    ensures |r| == |x|
  {
    seq(|x|, t requires 0 <= t < |x| =>
      if x[t].Null? || y[t].Null? then Unknown
      else Known(if greater then Above(x[t], y[t]) else Above(y[t], x[t])))
  }

  function And(p: Truth, q: Truth): Truth
  {
    if p == Known(false) || q == Known(false) then Known(false)
    else if p.Unknown? || q.Unknown? then Unknown
    else Known(true)
  }

  function Or(p: Truth, q: Truth): Truth
  {
    if p == Known(true) || q == Known(true) then Known(true)
    else if p.Unknown? || q.Unknown? then Unknown
    else Known(false)
  }

  function AndAll(p: seq<Truth>, q: seq<Truth>): (r: seq<Truth>)
    requires |p| == |q|
    ensures |r| == |p|
  {
    seq(|p|, t requires 0 <= t < |p| => And(p[t], q[t]))
  }

  function OrAll(p: seq<Truth>, q: seq<Truth>): (r: seq<Truth>)
    requires |p| == |q|
    ensures |r| == |p|
  {
    seq(|p|, t requires 0 <= t < |p| => Or(p[t], q[t]))
  }

  /** `cast` of a boolean column to a numeric one. */
  function Cast(p: seq<Truth>): (r: Column)
    ensures |r| == |p|
  {
    seq(|p|, t requires 0 <= t < |p| =>
      match p[t]
      case Unknown => Null
      case Known(b) => Val(if b then 1.0 else 0.0))
  }

  // ---------------------------------------------------------------------------
  // Shifts, differences and fills along the time axis
  // ---------------------------------------------------------------------------

  /** `shift(k)`: row t takes row t-k; rows with no such source are missing. */
  function Shift(x: Column, k: int): (r: Column)
    ensures |r| == |x|
  {
    seq(|x|, t requires 0 <= t < |x| => if 0 <= t - k < |x| then x[t - k] else Null)
  }

  /** `diff(n)`: x[t] - x[t-n]. */
  function Diff(x: Column, n: int): (r: Column)
    ensures |r| == |x|
  {
    Zip(Sub, x, Shift(x, n))
  }

  /** The cell that `forward_fill` leaves at row t. */
  function Carry(x: Column, t: nat): Cell
    requires t < |x|
  {
    if !x[t].Null? || t == 0 then x[t] else Carry(x, t - 1)
  }

  function ForwardFill(x: Column): (r: Column)
    ensures |r| == |x|
  {
    seq(|x|, t requires 0 <= t < |x| => Carry(x, t))
  }

  /** Log returns of the forward-filled close, the first (missing) one read as 0. */
  function LogReturns(close: Column, m: Maths): (r: Column)
    ensures |r| == |close|
  {
    Map(FillNull(0.0), Diff(Map(Ln, ForwardFill(close), m), 1), m)
  }

  /** forward_fill leaves a cell missing exactly when every cell up to it is
      missing, and otherwise repeats the last non-missing cell. */
  lemma {:induction false} CarryIsLastSeen(x: Column, t: nat)
    requires t < |x|
    ensures Carry(x, t).Null? <==> forall i :: 0 <= i <= t ==> x[i].Null?
    ensures !Carry(x, t).Null? ==>
      exists j :: 0 <= j <= t && x[j] == Carry(x, t) && forall i :: j < i <= t ==> x[i].Null?
  {
    if !x[t].Null? {
    } else if t > 0 {
      CarryIsLastSeen(x, t - 1);
      if !Carry(x, t).Null? {
        var j :| 0 <= j <= t - 1 && x[j] == Carry(x, t - 1) && forall i :: j < i <= t - 1 ==> x[i].Null?;
        assert forall i :: j < i <= t ==> x[i].Null?;
      }
    }
  }

  // ---------------------------------------------------------------------------
  // Aggregates of finite reals
  // ---------------------------------------------------------------------------

  function Sum(s: seq<real>): real
  {
    if |s| == 0 then 0.0 else s[0] + Sum(s[1..])
  }

  function Mean(s: seq<real>): real
    requires |s| > 0
  {
    Sum(s) / (|s| as real)
  }

  /** Products of deviations from the centres `ca` and `cb`. */
  function CoDeviations(a: seq<real>, b: seq<real>, ca: real, cb: real): (r: seq<real>)
    requires |a| == |b|
    ensures |r| == |a|
  {
    seq(|a|, i requires 0 <= i < |a| => (a[i] - ca) * (b[i] - cb))
  }

  /** The sample (ddof = 1) covariance. */
  function SampleCov(a: seq<real>, b: seq<real>): real
    requires |a| == |b| >= 2
  {
    Sum(CoDeviations(a, b, Mean(a), Mean(b))) / ((|a| - 1) as real)
  }

  /** The sample (ddof = 1) variance. */
  function SampleVar(s: seq<real>): real
    requires |s| >= 2
  {
    SampleCov(s, s)
  }

  function Insert(x: real, s: seq<real>): (r: seq<real>)
    ensures multiset(r) == multiset(s) + multiset{x}
  {
    if |s| == 0 || x <= s[0] then [x] + s
    else
      assert s == [s[0]] + s[1..];
      [s[0]] + Insert(x, s[1..])
  }

  predicate Ascending(s: seq<real>)
  {
    forall i, j :: 0 <= i < j < |s| ==> s[i] <= s[j]
  }

  /** Inserting into an ascending sequence keeps it ascending. */
  lemma {:induction false} InsertAscending(x: real, s: seq<real>)
    requires Ascending(s)
    ensures Ascending(Insert(x, s))
  {
    if |s| > 0 && x > s[0] {
      var rest := Insert(x, s[1..]);
      assert Ascending(s[1..]);
      InsertAscending(x, s[1..]);
      InsertAtLeast(x, s[1..], s[0]);
      assert Insert(x, s) == [s[0]] + rest;
    }
  }

  /** Inserting a value of at least lo among values of at least lo gives values of at least lo. */
  lemma {:induction false} InsertAtLeast(x: real, s: seq<real>, lo: real)
    requires lo <= x && forall i :: 0 <= i < |s| ==> lo <= s[i]
    ensures forall i :: 0 <= i < |Insert(x, s)| ==> lo <= Insert(x, s)[i]
  {
    if |s| > 0 && x > s[0] {
      InsertAtLeast(x, s[1..], lo);
      assert Insert(x, s) == [s[0]] + Insert(x, s[1..]);
    }
  }

  /** Insertion sort: an ascending permutation of its input. */
  function Sort(s: seq<real>): (r: seq<real>)
    ensures multiset(r) == multiset(s) && Ascending(r)
  {
    if |s| == 0 then []
    else
      assert s == [s[0]] + s[1..];
      var sorted := Sort(s[1..]);
      InsertAscending(s[0], sorted);
      Insert(s[0], sorted)
  }

  /** The median; the mean of the two middle values for an even count. */
  function Median(s: seq<real>): real
    requires |s| > 0
  {
    var r := Sort(s);
    assert |r| == |multiset(r)| == |s|;
    var n := |s|;
    if n % 2 == 1 then r[n / 2] else (r[n / 2 - 1] + r[n / 2]) / 2.0
  }

  /** The path length |s1-s0| + ... + |s(n-1)-s(n-2)| of a sequence of prices. */
  function AbsSteps(s: seq<real>): (r: seq<real>)
    requires |s| >= 1
    ensures |r| == |s| - 1
  {
    seq(|s| - 1, i requires 0 <= i < |s| - 1 => AbsReal(s[i + 1] - s[i]))
  }

  // ---------------------------------------------------------------------------
  // Rolling windows
  // ---------------------------------------------------------------------------

  /** The window of size w ending at row t: incomplete (too early, or a
      missing cell), poisoned by a NaN, or full of finite values. */
  datatype Win = Incomplete | Poisoned | Full(vals: seq<real>)

  predicate Finite(cells: seq<Cell>)
  {
    forall i :: 0 <= i < |cells| ==> cells[i].Val?
  }

  function Reals(cells: seq<Cell>): (r: seq<real>)
    requires Finite(cells)
    ensures |r| == |cells|
  {
    seq(|cells|, i requires 0 <= i < |cells| => cells[i].v)
  }

  function WindowAt(x: Column, w: nat, t: nat): (r: Win)
    requires 1 <= w && t < |x|
    ensures r.Full? ==> |r.vals| == w && w <= t + 1
    ensures r.Full? ==> forall i :: 0 <= i < w ==> x[t + 1 - w + i] == Val(r.vals[i])
    ensures r.Full? <==> w <= t + 1 && forall i :: t + 1 - w <= i <= t ==> x[i].Val?
  {
    if t + 1 < w then Incomplete
    else
      var cells := x[t + 1 - w .. t + 1];
      if Null in cells then Incomplete
      else if NaN in cells then Poisoned
      else Full(Reals(cells))
  }

  datatype Agg = SumOf | MeanOf | VarOf | StdOf | MedianOf

  /** The aggregate of one full window; variance and standard deviation are
      the sample ones and are missing for a window of a single row. */
  function Aggregate(agg: Agg, v: seq<real>, m: Maths): Cell
    requires |v| > 0
  {
    match agg
    case SumOf => Val(Sum(v))
    case MeanOf => Val(Mean(v))
    case VarOf => if |v| < 2 then Null else Val(SampleVar(v))
    case StdOf => if |v| < 2 then Null else Val(m.sqrt(SampleVar(v)))
    case MedianOf => Val(Median(v))
  }

  function Summarise(agg: Agg, win: Win, m: Maths): Cell
    requires win.Full? ==> |win.vals| > 0
  {
    match win
    case Incomplete => Null
    case Poisoned => NaN
    case Full(v) => Aggregate(agg, v, m)
  }

  /** `rolling_sum`, `rolling_mean`, `rolling_var`, `rolling_std`, `rolling_median`. */
  function Rolling(agg: Agg, x: Column, w: nat, m: Maths): (r: Column)
    requires w >= 1
    ensures |r| == |x|
  {
    seq(|x|, t requires 0 <= t < |x| => Summarise(agg, WindowAt(x, w, t), m))
  }

  /** Pearson correlation of two equally long windows: missing for a single
      row, NaN when either standard deviation is zero. */
  function Pearson(a: seq<real>, b: seq<real>, m: Maths): Cell
    requires |a| == |b| > 0
  {
    if |a| < 2 then Null
    else
      var den := m.sqrt(SampleVar(a)) * m.sqrt(SampleVar(b));
      if den == 0.0 then NaN else Val(SampleCov(a, b) / den)
  }

  /** `pl.rolling_corr(x, y, window_size = w)`, which de-means each operand
      inside each window. */
  function RollingCorr(x: Column, y: Column, w: nat, m: Maths): (r: Column)
    requires w >= 1 && |x| == |y|
    ensures |r| == |x|
  {
    seq(|x|, t requires 0 <= t < |x| =>
      var wx, wy := WindowAt(x, w, t), WindowAt(y, w, t);
      if wx.Incomplete? || wy.Incomplete? then Null
      else if wx.Poisoned? || wy.Poisoned? then NaN
      else Pearson(wx.vals, wy.vals, m))
  }

  // ---------------------------------------------------------------------------
  // Exponentially weighted means
  // ---------------------------------------------------------------------------

  /** The smoothing factor of a span: alpha = 2 / (span + 1). */
  function SpanAlpha(span: real): (alpha: real)
    requires span >= 1.0
    ensures 0.0 < alpha <= 1.0
  {
    2.0 / (span + 1.0)
  }

  /** One step of the adjust=False recurrence y = alpha*x + (1-alpha)*y'. */
  function EwmStep(prev: Cell, c: Cell, alpha: real): Cell
  {
    match c
    case Null => prev
    case NaN => NaN
    case Val(x) =>
      match prev
      case Null => Val(x)
      case NaN => NaN
      case Val(y) => Val(alpha * x + (1.0 - alpha) * y)
  }

  /** The recurrence state after rows 0..t: missing until the first value,
      which it takes as is. */
  function EwmState(x: Column, alpha: real, t: nat): Cell
    requires t < |x|
  {
    EwmStep(if t == 0 then Null else EwmState(x, alpha, t - 1), x[t], alpha)
  }

  /** `ewm_mean(alpha, adjust=False)`. */
  function Ewm(x: Column, alpha: real): (r: Column)
    ensures |r| == |x|
  {
    seq(|x|, t requires 0 <= t < |x| => if x[t].Null? then Null else EwmState(x, alpha, t))
  }

  /** The same recurrence, computed in one forward pass with O(1) state per row. */
  method EwmStream(x: Column, alpha: real) returns (out: Column)
    ensures out == Ewm(x, alpha)
  {
    var state := Null;
    out := [];
    var t := 0;
    while t < |x|
      invariant 0 <= t <= |x| && |out| == t
      invariant forall i :: 0 <= i < t ==> out[i] == Ewm(x, alpha)[i]
      invariant state == if t == 0 then Null else EwmState(x, alpha, t - 1)
    {
      state := EwmStep(state, x[t], alpha);
      out := out + [if x[t].Null? then Null else state];
      t := t + 1;
    }
  }

  /** Running numerator and denominator of the adjust=True weighted mean
      sum((1-alpha)^i * x[t-i]) / sum((1-alpha)^i). */
  datatype Acc = Idle | Spoiled | Acc(num: real, den: real)

  function AdjustedStep(prev: Acc, c: Cell, alpha: real): Acc
  {
    match c
    case Null => prev
    case NaN => Spoiled
    case Val(x) =>
      match prev
      case Idle => Acc(x, 1.0)
      case Spoiled => Spoiled
      case Acc(n, d) => Acc(x + (1.0 - alpha) * n, 1.0 + (1.0 - alpha) * d)
  }

  function AdjustedState(x: Column, alpha: real, t: nat): (r: Acc)
    requires t < |x| && 0.0 < alpha <= 1.0
    ensures r.Acc? ==> r.den >= 1.0
    ensures r.Idle? <==> forall i :: 0 <= i <= t ==> x[i].Null?
  {
    var prev := if t == 0 then Idle else AdjustedState(x, alpha, t - 1);
    var r := AdjustedStep(prev, x[t], alpha);
    assert prev.Acc? ==> prev.den * (1.0 - alpha) >= 0.0;
    r
  }

  /** `ewm_mean(alpha)` with Polars' default adjust=True. */
  function EwmAdjusted(x: Column, alpha: real): (r: Column)
    requires 0.0 < alpha <= 1.0
    ensures |r| == |x|
  {
    seq(|x|, t requires 0 <= t < |x| =>
      if x[t].Null? then Null
      else match AdjustedState(x, alpha, t)
        case Idle => Null
        case Spoiled => NaN
        case Acc(n, d) => Val(n / d))
  }
}
