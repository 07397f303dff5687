/** Properties of the columnar operators in `Kernels` that the signal
    contracts are proved from: bounds of sums and means, the triangle
    inequality over a price path, the range and streaming form of the
    exponentially weighted means, order statistics and correlation. */
module KernelLaws {
  import opened Elementary
  import opened Kernels

  // ---------------------------------------------------------------------------
  // Intervals
  // ---------------------------------------------------------------------------

  /** An interval of the reals, each end open or closed. */
  datatype Interval = Interval(lo: real, loOpen: bool, hi: real, hiOpen: bool)
  {
    predicate Has(r: real)
    {
      (if loOpen then lo < r else lo <= r) && (if hiOpen then r < hi else r <= hi)
    }
  }

  function Closed(lo: real, hi: real): Interval { Interval(lo, false, hi, false) }

  function Open(lo: real, hi: real): Interval { Interval(lo, true, hi, true) }

  /** Every finite cell of x lies in i. */
  predicate ColumnIn(x: Column, i: Interval)
  {
    forall t :: 0 <= t < |x| && x[t].Val? ==> i.Has(x[t].v)
  }

  /** Every cell of x is missing or a finite value in i (no NaN). */
  predicate NullOrIn(x: Column, i: Interval)
  {
    forall t :: 0 <= t < |x| ==> x[t].Null? || (x[t].Val? && i.Has(x[t].v))
  }

  /** Every finite cell of x is at least lo. */
  predicate ColumnAtLeast(x: Column, lo: real)
  {
    forall t :: 0 <= t < |x| && x[t].Val? ==> lo <= x[t].v
  }

  /** A volume-like column: every cell missing or a non-negative value. */
  predicate NullOrNonNegative(x: Column)
  {
    forall t :: 0 <= t < |x| ==> x[t].Null? || (x[t].Val? && 0.0 <= x[t].v)
  }

  /** fill_null(0) turns a volume-like column into finite non-negative values. */
  lemma ZeroFilledVolume(x: Column, m: Maths)
    requires NullOrNonNegative(x)
    ensures Finite(Map(FillNull(0.0), x, m)) && ColumnAtLeast(Map(FillNull(0.0), x, m), 0.0)
  {
  }

  // ---------------------------------------------------------------------------
  // Sums and means
  // ---------------------------------------------------------------------------

  lemma {:induction false} SumAtLeast(s: seq<real>, lo: real)
    requires forall i :: 0 <= i < |s| ==> lo <= s[i]
    ensures (|s| as real) * lo <= Sum(s)
  {
    if |s| > 0 {
      SumAtLeast(s[1..], lo);
    }
  }

  lemma {:induction false} SumAtMost(s: seq<real>, hi: real)
    requires forall i :: 0 <= i < |s| ==> s[i] <= hi
    ensures Sum(s) <= (|s| as real) * hi
  {
    if |s| > 0 {
      SumAtMost(s[1..], hi);
    }
  }

  lemma {:induction false} SumAbove(s: seq<real>, lo: real)
    requires |s| > 0 && forall i :: 0 <= i < |s| ==> lo < s[i]
    ensures (|s| as real) * lo < Sum(s)
  {
    if |s| > 1 {
      SumAbove(s[1..], lo);
    }
  }

  lemma {:induction false} SumBelow(s: seq<real>, hi: real)
    requires |s| > 0 && forall i :: 0 <= i < |s| ==> s[i] < hi
    ensures Sum(s) < (|s| as real) * hi
  {
    if |s| > 1 {
      SumBelow(s[1..], hi);
    }
  }

  /** Pointwise smaller terms give a smaller sum. */
  lemma {:induction false} SumMonotone(a: seq<real>, b: seq<real>)
    requires |a| == |b| && forall i :: 0 <= i < |a| ==> a[i] <= b[i]
    ensures Sum(a) <= Sum(b)
  {
    if |a| > 0 {
      SumMonotone(a[1..], b[1..]);
    }
  }

  lemma ScaledBounds(total: real, n: real, lo: real, strict: bool)
    requires n > 0.0
    requires if strict then n * lo < total else n * lo <= total
    ensures if strict then lo < total / n else lo <= total / n
  {
    var q := total / n;
    assert q * n == total;
    assert (lo - q) * n == n * lo - total;
    if q < lo {
      PositiveProduct(lo - q, n);
    }
  }

  /** a / (d + eps) of two cells non-negative where they are values is non-negative where it is one. */
  lemma GuardedQuotientCell(a: Cell, d: Cell, eps: real)
    requires eps > 0.0 && (a.Val? ==> a.v >= 0.0) && (d.Val? ==> d.v >= 0.0)
    ensures var r := Combine(Div, a, Combine(Add, d, Val(eps)));
      r.Val? ==> r.v >= 0.0
  {
    if a.Val? && d.Val? {
      ScaledBounds(a.v, d.v + eps, 0.0, false);
    }
  }

  lemma NonNegativeProduct(a: real, b: real)
    requires a >= 0.0 && b >= 0.0
    ensures a * b >= 0.0
  {
  }

  lemma ScaledBoundsAbove(total: real, n: real, hi: real, strict: bool)
    requires n > 0.0
    requires if strict then total < n * hi else total <= n * hi
    ensures if strict then total / n < hi else total / n <= hi
  {
    ScaledBounds(-total, n, -hi, strict);
    assert -total / n == -(total / n);
  }

  /** Dividing a non-negative constant by a larger positive number gives a smaller quotient. */
  lemma QuotientAntitone(k: real, x: real, y: real)
    requires k >= 0.0 && 0.0 < x <= y
    ensures k / y <= k / x
  {
    var a, b := k / x, k / y;
    assert a * x == k && b * y == k;
    assert a >= 0.0;
    if b > a {
      PositiveProduct(b - a, y);
      NonNegativeProduct(a, y - x);
    }
  }

  /** Dividing by a fixed positive number keeps the order. */
  lemma QuotientMonotone(a: real, b: real, d: real)
    requires a <= b && d > 0.0
    ensures a / d <= b / d
  {
    assert d * (b / d) == b;
    ScaledBoundsAbove(a, d, b / d, false);
  }

  /** An interval is convex: the mean of values in it lies in it. */
  lemma MeanIn(s: seq<real>, i: Interval)
    requires |s| > 0 && forall k :: 0 <= k < |s| ==> i.Has(s[k])
    ensures i.Has(Mean(s))
  {
    var n := |s| as real;
    if i.loOpen {
      SumAbove(s, i.lo);
    } else {
      SumAtLeast(s, i.lo);
    }
    ScaledBounds(Sum(s), n, i.lo, i.loOpen);
    if i.hiOpen {
      SumBelow(s, i.hi);
    } else {
      SumAtMost(s, i.hi);
    }
    ScaledBoundsAbove(Sum(s), n, i.hi, i.hiOpen);
  }

  lemma SampleVarNonNegative(s: seq<real>)
    requires |s| >= 2
    ensures SampleVar(s) >= 0.0
  {
    var d := CoDeviations(s, s, Mean(s), Mean(s));
    forall k | 0 <= k < |d| ensures 0.0 <= d[k] {
      assert d[k] == (s[k] - Mean(s)) * (s[k] - Mean(s));
    }
    SumAtLeast(d, 0.0);
  }

  /** The median of values that are all at least lo is at least lo. */
  lemma MedianAtLeast(s: seq<real>, lo: real)
    requires |s| > 0 && forall k :: 0 <= k < |s| ==> lo <= s[k]
    ensures lo <= Median(s)
  {
    var r := Sort(s);
    assert |r| == |multiset(r)| == |s|;
    forall k | 0 <= k < |r| ensures lo <= r[k] {
      assert r[k] in multiset(r);
      assert r[k] in s;
    }
  }

  /** The median of a sequence of one repeated value is that value. */
  lemma MedianOfConstant(s: seq<real>, c: real)
    requires |s| > 0 && forall k :: 0 <= k < |s| ==> s[k] == c
    ensures Median(s) == c
  {
    var r := Sort(s);
    assert |r| == |multiset(r)| == |s|;
    forall k | 0 <= k < |r| ensures r[k] == c {
      assert r[k] in multiset(r);
      assert r[k] in s;
    }
  }

  /** Triangle inequality along a path: the net move is at most the path length. */
  lemma {:induction false} NetMoveAtMostPath(s: seq<real>)
    requires |s| >= 1
    ensures AbsReal(s[|s| - 1] - s[0]) <= Sum(AbsSteps(s))
    ensures 0.0 <= Sum(AbsSteps(s))
  {
    if |s| > 1 {
      NetMoveAtMostPath(s[1..]);
      assert AbsSteps(s)[1..] == AbsSteps(s[1..]);
    }
  }

  // ---------------------------------------------------------------------------
  // Rolling windows
  // ---------------------------------------------------------------------------

  lemma RollingMeanIn(x: Column, w: nat, i: Interval, m: Maths)
    requires w >= 1 && ColumnIn(x, i)
    ensures ColumnIn(Rolling(MeanOf, x, w, m), i)
  {
    var r := Rolling(MeanOf, x, w, m);
    forall t | 0 <= t < |r| && r[t].Val? ensures i.Has(r[t].v) {
      var win := WindowAt(x, w, t);
      forall k | 0 <= k < |win.vals| ensures i.Has(win.vals[k]) {
        assert x[t + 1 - w + k] == Val(win.vals[k]);
      }
      MeanIn(win.vals, i);
    }
  }

  lemma MeanAtLeast(s: seq<real>, lo: real)
    requires |s| > 0 && forall k :: 0 <= k < |s| ==> lo <= s[k]
    ensures lo <= Mean(s)
  {
    SumAtLeast(s, lo);
    ScaledBounds(Sum(s), |s| as real, lo, false);
  }

  lemma RollingMeanAtLeast(x: Column, w: nat, lo: real, m: Maths)
    requires w >= 1 && ColumnAtLeast(x, lo)
    ensures ColumnAtLeast(Rolling(MeanOf, x, w, m), lo)
  {
    var r := Rolling(MeanOf, x, w, m);
    forall t | 0 <= t < |r| && r[t].Val? ensures lo <= r[t].v {
      var win := WindowAt(x, w, t);
      forall k | 0 <= k < |win.vals| ensures lo <= win.vals[k] {
        assert x[t + 1 - w + k] == Val(win.vals[k]);
      }
      MeanAtLeast(win.vals, lo);
    }
  }

  lemma RollingSumAtLeast(x: Column, w: nat, lo: real, m: Maths)
    requires w >= 1 && ColumnAtLeast(x, lo)
    ensures ColumnAtLeast(Rolling(SumOf, x, w, m), (w as real) * lo)
  {
    var r := Rolling(SumOf, x, w, m);
    forall t | 0 <= t < |r| && r[t].Val? ensures (w as real) * lo <= r[t].v {
      var win := WindowAt(x, w, t);
      forall k | 0 <= k < |win.vals| ensures lo <= win.vals[k] {
        assert x[t + 1 - w + k] == Val(win.vals[k]);
      }
      SumAtLeast(win.vals, lo);
    }
  }

  /** On a column without missing or NaN cells, a rolling aggregate is
      missing exactly in the warm-up rows (for the variance and standard
      deviation: and in every row when the window is a single row). */
  lemma RollingWarmUp(agg: Agg, x: Column, w: nat, m: Maths)
    requires w >= 1 && Finite(x)
    ensures forall t :: 0 <= t < |x| ==>
      (Rolling(agg, x, w, m)[t].Null? <==> t + 1 < w || (w < 2 && (agg.VarOf? || agg.StdOf?)))
    ensures forall t :: 0 <= t < |x| ==> !Rolling(agg, x, w, m)[t].NaN?
  {
  }

  lemma RollingSumIn(x: Column, w: nat, lo: real, hi: real, m: Maths)
    requires w >= 1 && ColumnIn(x, Closed(lo, hi))
    ensures ColumnIn(Rolling(SumOf, x, w, m), Closed((w as real) * lo, (w as real) * hi))
  {
    var r := Rolling(SumOf, x, w, m);
    forall t | 0 <= t < |r| && r[t].Val? ensures (w as real) * lo <= r[t].v <= (w as real) * hi {
      var win := WindowAt(x, w, t);
      forall k | 0 <= k < |win.vals| ensures lo <= win.vals[k] <= hi {
        assert x[t + 1 - w + k] == Val(win.vals[k]);
      }
      SumAtLeast(win.vals, lo);
      SumAtMost(win.vals, hi);
    }
  }

  lemma RollingMedianAtLeast(x: Column, w: nat, lo: real, m: Maths)
    requires w >= 1 && forall t :: 0 <= t < |x| && x[t].Val? ==> lo <= x[t].v
    ensures forall t :: 0 <= t < |x| && Rolling(MedianOf, x, w, m)[t].Val? ==>
      lo <= Rolling(MedianOf, x, w, m)[t].v
  {
    var r := Rolling(MedianOf, x, w, m);
    forall t | 0 <= t < |r| && r[t].Val? ensures lo <= r[t].v {
      assert WindowAt(x, w, t).Full? && r[t] == Val(Median(WindowAt(x, w, t).vals));
      WindowAtLeast(x, w, t, lo);
      MedianAtLeast(WindowAt(x, w, t).vals, lo);
    }
  }

  /** A full window of a column bounded below by lo holds values of at least lo. */
  lemma WindowAtLeast(x: Column, w: nat, t: nat, lo: real)
    requires w >= 1 && t < |x| && forall i :: 0 <= i < |x| && x[i].Val? ==> lo <= x[i].v
    requires WindowAt(x, w, t).Full?
    ensures forall k :: 0 <= k < |WindowAt(x, w, t).vals| ==> lo <= WindowAt(x, w, t).vals[k]
  {
    var win := WindowAt(x, w, t);
    forall k | 0 <= k < |win.vals| ensures lo <= win.vals[k] {
      assert x[t + 1 - w + k] == Val(win.vals[k]);
    }
  }

  /** A defined rolling sum is the sum of a full window. */
  lemma RollingSumValue(x: Column, w: nat, t: nat, m: Maths)
    requires w >= 1 && t < |x| && Rolling(SumOf, x, w, m)[t].Val?
    ensures WindowAt(x, w, t).Full? && Rolling(SumOf, x, w, m)[t].v == Sum(WindowAt(x, w, t).vals)
  {
  }

  /** A boolean column cast to numbers holds no NaN, so no window over it is poisoned. */
  lemma RollingOfCastNeverNaN(agg: Agg, p: seq<Truth>, w: nat, m: Maths)
    requires w >= 1
    ensures forall t :: 0 <= t < |p| ==> !Rolling(agg, Cast(p), w, m)[t].NaN?
  {
    var x := Cast(p);
    forall t | 0 <= t < |p| ensures !Rolling(agg, x, w, m)[t].NaN? {
      if t + 1 >= w {
        assert forall i :: t + 1 - w <= i <= t ==> !x[i].NaN?;
        assert NaN !in x[t + 1 - w .. t + 1];
      }
    }
  }

  /** Rolling aggregates are causal: over the first k rows they are the first
      k rows of the aggregate over the whole column. */
  lemma RollingPrefix(agg: Agg, x: Column, w: nat, k: nat, m: Maths)
    requires w >= 1 && k <= |x|
    ensures Rolling(agg, x[..k], w, m) == Rolling(agg, x, w, m)[..k]
  {
    forall t | 0 <= t < k ensures Rolling(agg, x[..k], w, m)[t] == Rolling(agg, x, w, m)[t] {
      if t + 1 >= w {
        assert x[..k][t + 1 - w .. t + 1] == x[t + 1 - w .. t + 1];
      }
    }
  }

  /** Missing leading rows delay a rolling aggregate: if the first n rows are missing,
      so are the first n + w - 1 rows of the aggregate. */
  lemma RollingNullPrefix(agg: Agg, x: Column, w: nat, n: nat, m: Maths)
    requires w >= 1 && forall i :: 0 <= i < n && i < |x| ==> x[i].Null?
    ensures forall t :: 0 <= t < |x| && t + 1 < n + w ==> Rolling(agg, x, w, m)[t].Null?
  {
    forall t | 0 <= t < |x| && t + 1 < n + w ensures Rolling(agg, x, w, m)[t].Null? {
      if t + 1 >= w {
        assert x[t + 1 - w .. t + 1][0] == x[t + 1 - w];
      }
    }
  }

  /** A column missing in its first n rows and 0 after them has a rolling median that is
      missing in its first n + w - 1 rows and 0 after them. */
  lemma RollingMedianOfLateZeros(x: Column, w: nat, n: nat, m: Maths)
    requires w >= 1
    requires forall t :: 0 <= t < |x| ==> x[t] == if t < n then Null else Val(0.0)
    ensures forall t :: 0 <= t < |x| ==> Rolling(MedianOf, x, w, m)[t] == if t + 1 < n + w then Null else Val(0.0)
  {
    RollingNullPrefix(MedianOf, x, w, n, m);
    forall t | 0 <= t < |x| && t + 1 >= n + w ensures Rolling(MedianOf, x, w, m)[t] == Val(0.0) {
      var win := WindowAt(x, w, t);
      assert win.Full?;
      forall k | 0 <= k < w ensures win.vals[k] == 0.0 {
        assert x[t + 1 - w + k] == Val(win.vals[k]);
      }
      MedianOfConstant(win.vals, 0.0);
    }
  }

  /** The same for the rolling mean. */
  lemma RollingMeanOfLateZeros(x: Column, w: nat, n: nat, m: Maths)
    requires w >= 1
    requires forall t :: 0 <= t < |x| ==> x[t] == if t < n then Null else Val(0.0)
    ensures forall t :: 0 <= t < |x| ==> Rolling(MeanOf, x, w, m)[t] == if t + 1 < n + w then Null else Val(0.0)
  {
    RollingNullPrefix(MeanOf, x, w, n, m);
    forall t | 0 <= t < |x| && t + 1 >= n + w ensures Rolling(MeanOf, x, w, m)[t] == Val(0.0) {
      var win := WindowAt(x, w, t);
      assert win.Full?;
      forall k | 0 <= k < w ensures win.vals[k] == 0.0 {
        assert x[t + 1 - w + k] == Val(win.vals[k]);
      }
      SumOfConstant(win.vals, 0.0);
    }
  }

  /** Rolling sample variances are never negative. */
  lemma RollingVarNonNegative(x: Column, w: nat, m: Maths)
    requires w >= 1
    ensures ColumnAtLeast(Rolling(VarOf, x, w, m), 0.0)
  {
    forall t | 0 <= t < |x| && Rolling(VarOf, x, w, m)[t].Val?
      ensures Rolling(VarOf, x, w, m)[t].v >= 0.0
    {
      SampleVarNonNegative(WindowAt(x, w, t).vals);
    }
  }

  /** a / (b + eps) of two non-negative columns and a positive eps is non-negative. */
  lemma QuotientNonNegative(a: Column, b: Column, eps: real)
    requires |a| == |b| && eps > 0.0 && ColumnAtLeast(a, 0.0) && ColumnAtLeast(b, 0.0)
    ensures ColumnAtLeast(Zip(Div, a, Scalar(Add, b, eps)), 0.0)
  {
    var r := Zip(Div, a, Scalar(Add, b, eps));
    forall t | 0 <= t < |a| && r[t].Val? ensures r[t].v >= 0.0 {
      ScaledBounds(a[t].v, b[t].v + eps, 0.0, false);
    }
  }

  /** a / b of two non-negative columns is non-negative (a zero b gives NaN, not a value). */
  lemma RatioNonNegative(a: Column, b: Column)
    requires |a| == |b| && ColumnAtLeast(a, 0.0) && ColumnAtLeast(b, 0.0)
    ensures ColumnAtLeast(Zip(Div, a, b), 0.0)
  {
    var r := Zip(Div, a, b);
    forall t | 0 <= t < |a| && r[t].Val? ensures r[t].v >= 0.0 {
      ScaledBounds(a[t].v, b[t].v, 0.0, false);
    }
  }

  /** Squares are never negative. */
  lemma SquaresNonNegative(x: Column, m: Maths)
    ensures ColumnAtLeast(Map(Square, x, m), 0.0)
  {
    forall t | 0 <= t < |x| && x[t].Val? ensures x[t].v * x[t].v >= 0.0 {
      var a := x[t].v;
      if a < 0.0 { NonNegativeProduct(-a, -a); } else { NonNegativeProduct(a, a); }
    }
  }

  /** Sample variances are never negative, and so standard deviations are not. */
  lemma RollingSpreadNonNegative(x: Column, w: nat, m: Maths)
    requires w >= 1 && Lawful(m)
    ensures forall t :: 0 <= t < |x| && Rolling(VarOf, x, w, m)[t].Val? ==> Rolling(VarOf, x, w, m)[t].v >= 0.0
    ensures forall t :: 0 <= t < |x| && Rolling(StdOf, x, w, m)[t].Val? ==> Rolling(StdOf, x, w, m)[t].v >= 0.0
  {
    forall t | 0 <= t < |x| && Rolling(VarOf, x, w, m)[t].Val?
      ensures Rolling(VarOf, x, w, m)[t].v >= 0.0
    {
      SampleVarNonNegative(WindowAt(x, w, t).vals);
    }
  }

  /** A window of a column full of one value sums to w times it. */
  lemma {:induction false} SumOfConstant(s: seq<real>, c: real)
    requires forall k :: 0 <= k < |s| ==> s[k] == c
    ensures Sum(s) == (|s| as real) * c
  {
    if |s| > 0 {
      SumOfConstant(s[1..], c);
    }
  }

  /** forward_fill leaves a column without missing cells as it is. */
  lemma ForwardFillKeepsValues(x: Column)
    requires forall t :: 0 <= t < |x| ==> !x[t].Null?
    ensures ForwardFill(x) == x
  {
  }

  /** A constant positive close has log returns of 0 in every row. */
  lemma LogReturnsOfConstant(close: Column, c: real, m: Maths)
    requires c > 0.0 && forall t :: 0 <= t < |close| ==> close[t] == Val(c)
    ensures forall t :: 0 <= t < |close| ==> LogReturns(close, m)[t] == Val(0.0)
  {
    forall t | 0 <= t < |close| ensures ForwardFill(close)[t] == Val(c) {
    }
  }

  /** The rolling mean of a constant column is that constant after the warm-up. */
  lemma RollingMeanOfConstant(x: Column, w: nat, c: real, m: Maths)
    requires w >= 1 && forall t :: 0 <= t < |x| ==> x[t] == Val(c)
    ensures forall t :: 0 <= t < |x| ==> Rolling(MeanOf, x, w, m)[t] == if t + 1 < w then Null else Val(c)
  {
    forall t | 0 <= t < |x| && t + 1 >= w ensures Rolling(MeanOf, x, w, m)[t] == Val(c) {
      var win := WindowAt(x, w, t);
      assert win.Full?;
      forall i | 0 <= i < w ensures win.vals[i] == c {
        assert x[t + 1 - w + i] == Val(win.vals[i]);
      }
      SumOfConstant(win.vals, c);
      assert (w as real) * c / (w as real) == c;
    }
  }

  /** The adjust=False EMA of a constant column is that constant. */
  lemma EwmOfConstant(x: Column, alpha: real, c: real)
    requires 0.0 < alpha <= 1.0 && forall t :: 0 <= t < |x| ==> x[t] == Val(c)
    ensures forall t :: 0 <= t < |x| ==> Ewm(x, alpha)[t] == Val(c)
  {
    forall t | 0 <= t < |x| ensures Ewm(x, alpha)[t] == Val(c) {
      EwmStateIn(x, alpha, t, c, c);
    }
  }

  /** A sequence of one repeated value has sample variance 0. */
  lemma SampleVarOfConstant(s: seq<real>, c: real)
    requires |s| >= 2 && forall k :: 0 <= k < |s| ==> s[k] == c
    ensures SampleVar(s) == 0.0
  {
    SumOfConstant(s, c);
    var n := |s| as real;
    assert Sum(s) / n == c;
    var d := CoDeviations(s, s, Mean(s), Mean(s));
    SumOfConstant(d, 0.0);
  }

  /** The rolling variance of a constant column is 0 after the warm-up, and so is its square root. */
  lemma RollingSpreadOfConstant(x: Column, w: nat, c: real, m: Maths)
    requires w >= 2 && forall t :: 0 <= t < |x| ==> x[t] == Val(c)
    ensures forall t :: 0 <= t < |x| ==> Rolling(VarOf, x, w, m)[t] == if t + 1 < w then Null else Val(0.0)
    ensures Lawful(m) ==> forall t :: 0 <= t < |x| ==> Rolling(StdOf, x, w, m)[t] == if t + 1 < w then Null else Val(0.0)
  {
    forall t | 0 <= t < |x| && t + 1 >= w ensures SampleVar(WindowAt(x, w, t).vals) == 0.0 {
      var win := WindowAt(x, w, t);
      assert win.Full?;
      forall i | 0 <= i < w ensures win.vals[i] == c {
        assert x[t + 1 - w + i] == Val(win.vals[i]);
      }
      SampleVarOfConstant(win.vals, c);
    }
    if Lawful(m) {
      SqrtOfZero(m);
    }
  }

  /** rolling_corr(x, x) is 1 in every full window whose variance is positive. */
  lemma SelfCorrelation(x: Column, w: nat, t: nat, m: Maths)
    requires Lawful(m) && w >= 2 && t < |x|
    requires WindowAt(x, w, t).Full? && SampleVar(WindowAt(x, w, t).vals) > 0.0
    ensures RollingCorr(x, x, w, m)[t] == Val(1.0)
  {
    var a := WindowAt(x, w, t).vals;
    var v := SampleVar(a);
    assert m.sqrt(v) * m.sqrt(v) == v;
    assert SampleCov(a, a) == v;
    assert Pearson(a, a, m) == Val(v / v);
    assert v / v == 1.0;
  }

  // ---------------------------------------------------------------------------
  // Exponentially weighted means
  // ---------------------------------------------------------------------------

  lemma ConvexStep(alpha: real, x: real, y: real, lo: real, hi: real)
    requires 0.0 < alpha <= 1.0 && lo <= x <= hi && lo <= y <= hi
    ensures lo <= alpha * x + (1.0 - alpha) * y <= hi
  {
    NonNegativeProduct(alpha, x - lo);
    NonNegativeProduct(1.0 - alpha, y - lo);
    assert alpha * x + (1.0 - alpha) * y - lo == alpha * (x - lo) + (1.0 - alpha) * (y - lo);
    NonNegativeProduct(alpha, hi - x);
    NonNegativeProduct(1.0 - alpha, hi - y);
    assert hi - (alpha * x + (1.0 - alpha) * y) == alpha * (hi - x) + (1.0 - alpha) * (hi - y);
  }

  /** The adjust=False mean never leaves the range of the values it has read. */
  lemma {:induction false} EwmStateIn(x: Column, alpha: real, t: nat, lo: real, hi: real)
    requires t < |x| && 0.0 < alpha <= 1.0
    requires forall i :: 0 <= i <= t ==> x[i].Null? || (x[i].Val? && lo <= x[i].v <= hi)
    ensures EwmState(x, alpha, t).Null? || (EwmState(x, alpha, t).Val? && lo <= EwmState(x, alpha, t).v <= hi)
  {
    if t > 0 {
      EwmStateIn(x, alpha, t - 1, lo, hi);
      var prev := EwmState(x, alpha, t - 1);
      if x[t].Val? && prev.Val? {
        ConvexStep(alpha, x[t].v, prev.v, lo, hi);
      }
    }
  }

  lemma {:induction false} EwmStatePrefix(x: Column, alpha: real, k: nat, t: nat)
    requires t < k <= |x|
    ensures EwmState(x[..k], alpha, t) == EwmState(x, alpha, t)
  {
    if t > 0 {
      EwmStatePrefix(x, alpha, k, t - 1);
    }
  }

  /** Streaming equals batch: the mean over a prefix of the rows is the
      prefix of the mean over all rows. */
  lemma EwmPrefix(x: Column, alpha: real, k: nat)
    requires k <= |x|
    ensures Ewm(x[..k], alpha) == Ewm(x, alpha)[..k]
  {
    forall t | 0 <= t < k ensures Ewm(x[..k], alpha)[t] == Ewm(x, alpha)[t] {
      EwmStatePrefix(x, alpha, k, t);
    }
  }

  lemma {:induction false} AdjustedConstant(x: Column, alpha: real, c: real, t: nat)
    requires t < |x| && 0.0 < alpha <= 1.0
    requires forall i :: 0 <= i < |x| ==> x[i] == Val(c)
    ensures AdjustedState(x, alpha, t).Acc?
    ensures AdjustedState(x, alpha, t).num == c * AdjustedState(x, alpha, t).den
  {
    if t > 0 {
      AdjustedConstant(x, alpha, c, t - 1);
      var p := AdjustedState(x, alpha, t - 1);
      assert c + (1.0 - alpha) * (c * p.den) == c * (1.0 + (1.0 - alpha) * p.den);
    }
  }

  /** The adjust=True weighted mean of a constant column is that constant. */
  lemma AdjustedOfConstant(x: Column, alpha: real, c: real)
    requires 0.0 < alpha <= 1.0
    requires forall i :: 0 <= i < |x| ==> x[i] == Val(c)
    ensures forall t :: 0 <= t < |x| ==> EwmAdjusted(x, alpha)[t] == Val(c)
  {
    forall t | 0 <= t < |x| ensures EwmAdjusted(x, alpha)[t] == Val(c) {
      AdjustedConstant(x, alpha, c, t);
      var d := AdjustedState(x, alpha, t).den;
      assert c * d / d == c;
    }
  }
}
