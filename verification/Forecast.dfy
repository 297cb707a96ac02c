/** The forecasting arithmetic (analytics/forecasting/safe_service.py,
    analytics/forecasting/service.py), over reals and without rounding.
 */
module Forecast {
  import opened RealSums

  function Pow(b: real, k: nat): real {
    if k == 0 then 1.0 else b * Pow(b, k - 1)
  }

  // ----- exponentially weighted average -----

  function Ewma(alpha: real, v: seq<real>): real {
    if v == [] then 0.0
    else if |v| == 1 then v[0]
    else alpha * v[|v| - 1] + (1.0 - alpha) * Ewma(alpha, v[..|v| - 1])
  }

  /** The weight the `i`-th of `n` values has in the average; `decay` is 1 - alpha. */
  function Weight(alpha: real, decay: real, n: nat, i: nat): real
    requires i < n
  {
    if i == 0 then Pow(decay, n - 1) else alpha * Pow(decay, n - 1 - i)
  }

  /** The weighted sum of the first `k` of the values. */
  function Weighted(alpha: real, decay: real, v: seq<real>, k: nat): real
    requires k <= |v|
  {
    if k == 0 then 0.0 else Weighted(alpha, decay, v, k - 1) + Weight(alpha, decay, |v|, k - 1) * v[k - 1]
  }

  lemma WeightShrinks(alpha: real, decay: real, n: nat, i: nat)
    requires i < n
    ensures Weight(alpha, decay, n + 1, i) == Times(decay, Weight(alpha, decay, n, i))
  {
    if i > 0 {
      var p := Pow(decay, n - 1 - i);
      assert Pow(decay, n - i) == decay * p;
      assert alpha * (decay * p) == decay * (alpha * p);
    }
  }

  lemma WeightedLast(alpha: real, decay: real, v: seq<real>, k: nat)
    requires 0 < k <= |v|
    ensures Weighted(alpha, decay, v, k)
            == Weighted(alpha, decay, v, k - 1) + Times(Weight(alpha, decay, |v|, k - 1), v[k - 1])
  {
  }

  lemma ShrinkTerm(c: real, w: real, x: real, s: real, total: real)
    requires total == s + Times(w, x)
    ensures Times(c, s) + Times(Times(c, w), x) == Times(c, total)
  {
    assert c * (w * x) == (c * w) * x;
  }

  lemma {:induction false} WeightedShrinks(alpha: real, decay: real, v: seq<real>, x: real, k: nat)
    requires k <= |v|
    ensures Weighted(alpha, decay, v + [x], k) == Times(decay, Weighted(alpha, decay, v, k))
  {
    if k > 0 {
      hide Times;
      var i, n, u := k - 1, |v|, v + [x];
      WeightedShrinks(alpha, decay, v, x, i);
      WeightShrinks(alpha, decay, n, i);
      WeightedLast(alpha, decay, v, k);
      WeightedLast(alpha, decay, u, k);
      assert u[i] == v[i] && |u| == n + 1;
      hide *;
      ShrinkTerm(decay, Weight(alpha, decay, n, i), v[i],
                 Weighted(alpha, decay, v, i), Weighted(alpha, decay, v, k));
    }
  }

  lemma EwmaLast(alpha: real, decay: real, v: seq<real>)
    requires |v| > 1 && decay == 1.0 - alpha
    ensures Ewma(alpha, v) == Times(alpha, v[|v| - 1]) + Times(decay, Ewma(alpha, v[..|v| - 1]))
  {
  }

  /** The loop computes the sum in which each value weighs 1-alpha times as much as
      the next one. */
  lemma {:induction false} EwmaIsWeightedSum(alpha: real, decay: real, v: seq<real>)
    requires v != [] && decay == 1.0 - alpha
    ensures Ewma(alpha, v) == Weighted(alpha, decay, v, |v|)
    decreases |v|
  {
    var n := |v| - 1;
    if n > 0 {
      var pre, x := v[..n], v[n];
      hide Times;
      EwmaIsWeightedSum(alpha, decay, pre);
      WeightedShrinks(alpha, decay, pre, x, n);
      assert pre + [x] == v;
      assert Weight(alpha, decay, n + 1, n) == alpha;
      WeightedLast(alpha, decay, v, n + 1);
      EwmaLast(alpha, decay, v);
      hide *;
    }
  }

  lemma Blend(alpha: real, x: real, y: real, lo: real, hi: real)
    requires 0.0 <= alpha <= 1.0 && lo <= x <= hi && lo <= y <= hi
    ensures lo <= alpha * x + (1.0 - alpha) * y <= hi
  {
    ProductNonNegative(alpha, x - lo);
    ProductNonNegative(1.0 - alpha, y - lo);
    ProductNonNegative(alpha, hi - x);
    ProductNonNegative(1.0 - alpha, hi - y);
    assert alpha * x + (1.0 - alpha) * y - lo == alpha * (x - lo) + (1.0 - alpha) * (y - lo);
    assert hi - (alpha * x + (1.0 - alpha) * y) == alpha * (hi - x) + (1.0 - alpha) * (hi - y);
  }

  predicate Within(v: seq<real>, lo: real, hi: real) {
    forall i | 0 <= i < |v| :: lo <= v[i] <= hi
  }

  lemma {:induction false} EwmaWithin(alpha: real, v: seq<real>, lo: real, hi: real)
    requires 0.0 <= alpha <= 1.0 && v != [] && Within(v, lo, hi)
    ensures lo <= Ewma(alpha, v) <= hi
    decreases |v|
  {
    if |v| > 1 {
      EwmaWithin(alpha, v[..|v| - 1], lo, hi);
      Blend(alpha, v[|v| - 1], Ewma(alpha, v[..|v| - 1]), lo, hi);
    }
  }

  method ComputeEwma(alpha: real, values: seq<real>) returns (result: real)
    ensures result == Ewma(alpha, values)
  {
    if values == [] {
      return 0.0;
    }
    result := values[0];
    for i := 1 to |values|
      invariant result == Ewma(alpha, values[..i])
    {
      assert values[..i + 1][..i] == values[..i];
      result := alpha * values[i] + (1.0 - alpha) * result;
    }
    assert values[..|values|] == values;
  }

  // ----- the projection -----

  /** values[-width:]; width 0 means all of them. */
  function LastWindow(v: seq<real>, width: nat): seq<real> {
    if width == 0 || width >= |v| then v else v[|v| - width..]
  }

  function Projected(alpha: real, width: nat, v: seq<real>): real
    requires v != []
  {
    0.55 * Ewma(alpha, v) + 0.45 * Mean(LastWindow(v, width))
  }

  /** The sum of the last `m` values. */
  function LastSum(v: seq<real>, m: nat): real
    requires m <= |v|
  {
    if m == 0 then 0.0 else LastSum(v, m - 1) + v[|v| - m]
  }

  lemma {:induction false} LastSumIsSum(v: seq<real>, m: nat)
    requires m <= |v|
    ensures LastSum(v, m) == Sum(v[|v| - m..])
  {
    if m > 0 {
      LastSumIsSum(v, m - 1);
      assert v[|v| - m..] == [v[|v| - m]] + v[|v| - m + 1..];
      SumCons(v[|v| - m], v[|v| - m + 1..]);
    }
  }

  lemma {:induction false} SumCons(x: real, s: seq<real>)
    ensures Sum([x] + s) == x + Sum(s)
    decreases |s|
  {
    if s == [] {
      assert [x] + s == [x] && [x][..0] == [];
    } else {
      SumCons(x, s[..|s| - 1]);
      assert ([x] + s)[..|s|] == [x] + s[..|s| - 1];
    }
  }

  /** The projection weighs every value as the average does, and the last `width` of
      them, or all where there are fewer, with equal shares of 0.45 more. */
  lemma ProjectionIsWeightedSum(alpha: real, width: nat, v: seq<real>)
    requires v != []
    ensures var m := if width == 0 || width > |v| then |v| else width;
            Projected(alpha, width, v)
            == 0.55 * Weighted(alpha, 1.0 - alpha, v, |v|) + 0.45 * (LastSum(v, m) / m as real)
  {
    var m := if width == 0 || width > |v| then |v| else width;
    EwmaIsWeightedSum(alpha, 1.0 - alpha, v);
    LastSumIsSum(v, m);
    assert v[0..] == v;
    assert LastWindow(v, width) == v[|v| - m..];
    hide Ewma, Weighted, Sum, LastSum;
  }

  /** The projection stays within any bounds of the series. */
  lemma ProjectionWithin(alpha: real, width: nat, v: seq<real>, lo: real, hi: real)
    requires 0.0 <= alpha <= 1.0 && v != [] && Within(v, lo, hi)
    ensures lo <= Projected(alpha, width, v) <= hi
  {
    EwmaWithin(alpha, v, lo, hi);
    MeanWithin(LastWindow(v, width), lo, hi);
  }

  /** The recurrence of the forecast points: the k-th keeps alpha^k of the distance
      between the projection and the current value. */
  method ForecastPoints(alpha: real, projected: real, current: real, steps: nat) returns (points: seq<real>)
    ensures |points| == steps
    ensures forall k | 0 <= k < steps :: points[k] - current == Pow(alpha, k + 1) * (projected - current)
  {
    points := [];
    var cursor := projected;
    for step := 0 to steps
      invariant |points| == step && cursor - current == Pow(alpha, step) * (projected - current)
      invariant forall k | 0 <= k < step :: points[k] - current == Pow(alpha, k + 1) * (projected - current)
    {
      Fade(alpha, cursor, current, Pow(alpha, step), projected - current);
      cursor := alpha * cursor + (1.0 - alpha) * current;
      points := points + [cursor];
    }
  }

  lemma Fade(alpha: real, cursor: real, current: real, p: real, gap: real)
    requires cursor - current == p * gap
    ensures alpha * cursor + (1.0 - alpha) * current - current == (alpha * p) * gap
  {
    assert alpha * cursor + (1.0 - alpha) * current - current == alpha * (cursor - current);
  }

  lemma {:induction false} PowWithin(alpha: real, k: nat)
    requires 0.0 <= alpha <= 1.0
    ensures 0.0 <= Pow(alpha, k) <= 1.0
  {
    if k > 0 {
      PowWithin(alpha, k - 1);
      Blend(alpha, Pow(alpha, k - 1), 0.0, 0.0, 1.0);
    }
  }

  datatype Trend = Improving | Declining | Stable

  function TrendDirection(current: real, projected: real): Trend {
    if projected > current + 1.5 then Improving
    else if projected < current - 1.5 then Declining
    else Stable
  }

  /** No forecast point contradicts the trend: the points of a stable trend stay
      within 1.5 of the current value, those of the others on the trend's side. */
  lemma PointsFollowTrend(alpha: real, projected: real, current: real, k: nat, point: real)
    requires 0.0 <= alpha <= 1.0 && point - current == Pow(alpha, k) * (projected - current)
    ensures match TrendDirection(current, projected)
            case Improving => projected > current + 1.5 && current <= point <= projected
            case Declining => projected < current - 1.5 && projected <= point <= current
            case Stable => current - 1.5 <= projected <= current + 1.5 && current - 1.5 <= point <= current + 1.5
  {
    PowWithin(alpha, k);
    var p := Pow(alpha, k);
    if projected >= current {
      Blend(p, projected - current, 0.0, 0.0, projected - current);
    } else {
      Blend(p, projected - current, 0.0, projected - current, 0.0);
    }
  }

  // ----- least-squares slope -----

  /** The positions 0, 1, ..., n-1. */
  function Positions(n: nat): (x: seq<real>)
    ensures |x| == n && forall i | 0 <= i < n :: x[i] == i as real
  {
    if n == 0 then [] else Positions(n - 1) + [(n - 1) as real]
  }

  function Numerator(v: seq<real>): real
    requires v != []
  {
    Dot(Deviations(Positions(|v|)), Deviations(v))
  }

  function Denominator(n: nat): real
    requires n > 0
  {
    Dot(Deviations(Positions(n)), Deviations(Positions(n)))
  }

  function LinearTrend(v: seq<real>): real {
    if |v| < 2 then 0.0
    else Numerator(v) / (if Denominator(|v|) != 0.0 then Denominator(|v|) else 1.0)
  }

  lemma {:induction false} PositionsSum(n: nat)
    ensures 2.0 * Sum(Positions(n)) == Times(n as real, n as real - 1.0)
  {
    if n == 0 {
      assert Times(0.0, -1.0) == 0.0;
    } else {
      assert Positions(n) == Positions(n - 1) + [(n - 1) as real];
      hide *;
      PositionsSum(n - 1);
      SumExtend(Positions(n - 1), (n - 1) as real);
      NextTriangle(n as real);
      assert (n - 1) as real == n as real - 1.0;
    }
  }

  lemma NextTriangle(k: real)
    ensures Times(k - 1.0, k - 2.0) + 2.0 * (k - 1.0) == Times(k, k - 1.0)
  {
  }

  lemma MeanPosition(n: nat)
    requires n > 0
    ensures Mean(Positions(n)) == (n as real - 1.0) / 2.0
  {
    PositionsSum(n);
    MeanTimes(Positions(n));
    hide *;
    Halve(n as real, Sum(Positions(n)), Mean(Positions(n)));
  }

  lemma Halve(k: real, s: real, m: real)
    requires k > 0.0 && 2.0 * s == Times(k, k - 1.0) && Times(k, m) == s
    ensures m == (k - 1.0) / 2.0
  {
    var y := m - (k - 1.0) / 2.0;
    assert k * y == 0.0;
    Cancel(k, y, 0.0);
  }

  /** The denominator never needs its replacement. */
  lemma DenominatorPositive(n: nat)
    requires n >= 2
    ensures Denominator(n) > 0.0
  {
    MeanPosition(n);
    var d := Deviations(Positions(n));
    assert d[n - 1] > 0.0;
    DotSelfNonNegative(d[..n - 1]);
    ProductPositive(d[n - 1], d[n - 1]);
  }

  // linearity of Dot

  lemma {:induction false} DotNonNegative(x: seq<real>, y: seq<real>)
    requires |x| == |y| && forall i | 0 <= i < |x| :: x[i] * y[i] >= 0.0
    ensures Dot(x, y) >= 0.0
  {
    if x != [] {
      DotNonNegative(x[..|x| - 1], y[..|y| - 1]);
    }
  }

  lemma {:induction false} DotNonPositive(x: seq<real>, y: seq<real>)
    requires |x| == |y| && forall i | 0 <= i < |x| :: x[i] * y[i] <= 0.0
    ensures Dot(x, y) <= 0.0
  {
    if x != [] {
      DotNonPositive(x[..|x| - 1], y[..|y| - 1]);
    }
  }

  /** Centring the values about any constant gives the same numerator. */
  lemma NumeratorAbout(v: seq<real>, c: real)
    requires v != []
    ensures Numerator(v) == Dot(Deviations(Positions(|v|)), Minus(v, c))
  {
    var d := Deviations(Positions(|v|));
    DeviationsCancel(Positions(|v|));
    DotMinus(d, v, Mean(v));
    DotMinus(d, v, c);
  }

  predicate NonDecreasing(v: seq<real>) { forall i, j | 0 <= i <= j < |v| :: v[i] <= v[j] }
  predicate NonIncreasing(v: seq<real>) { forall i, j | 0 <= i <= j < |v| :: v[i] >= v[j] }

  lemma PositionSigns(n: nat, i: nat)
    requires i < n
    ensures var d := Deviations(Positions(n)); if i <= (n - 1) / 2 then d[i] <= 0.0 else d[i] >= 0.0
  {
    MeanPosition(n);
  }

  lemma SameSigns(d: real, e: real)
    requires (d <= 0.0 && e <= 0.0) || (d >= 0.0 && e >= 0.0)
    ensures d * e >= 0.0
  {
    if d <= 0.0 && e <= 0.0 { ProductNonNegative(-d, -e); } else { ProductNonNegative(d, e); }
  }

  lemma OppositeSigns(d: real, e: real)
    requires (d <= 0.0 && e >= 0.0) || (d >= 0.0 && e <= 0.0)
    ensures d * e <= 0.0
  {
    if d <= 0.0 && e >= 0.0 { ProductNonNegative(-d, e); } else { ProductNonNegative(d, -e); }
  }

  lemma NumeratorNonNegative(v: seq<real>)
    requires NonDecreasing(v) && v != []
    ensures Numerator(v) >= 0.0
  {
    var pivot := (|v| - 1) / 2;
    var d, e := Deviations(Positions(|v|)), Minus(v, v[pivot]);
    hide Dot, Mean;
    forall i | 0 <= i < |v| ensures d[i] * e[i] >= 0.0 {
      PositionSigns(|v|, i);
      SameSigns(d[i], e[i]);
    }
    NumeratorAbout(v, v[pivot]);
    DotNonNegative(d, e);
  }

  lemma NumeratorNonPositive(v: seq<real>)
    requires NonIncreasing(v) && v != []
    ensures Numerator(v) <= 0.0
  {
    var pivot := (|v| - 1) / 2;
    var d, e := Deviations(Positions(|v|)), Minus(v, v[pivot]);
    hide Dot, Mean;
    forall i | 0 <= i < |v| ensures d[i] * e[i] <= 0.0 {
      PositionSigns(|v|, i);
      OppositeSigns(d[i], e[i]);
    }
    NumeratorAbout(v, v[pivot]);
    DotNonPositive(d, e);
  }

  /** Chebyshev's sum inequality for the slope: its sign follows a monotone series. */
  lemma SlopeFollowsMonotoneSeries(v: seq<real>)
    ensures NonDecreasing(v) ==> LinearTrend(v) >= 0.0
    ensures NonIncreasing(v) ==> LinearTrend(v) <= 0.0
  {
    if |v| >= 2 {
      DenominatorPositive(|v|);
      if NonDecreasing(v) {
        NumeratorNonNegative(v);
        QuotientAtLeast(Numerator(v), Denominator(|v|), 0.0);
      }
      if NonIncreasing(v) {
        NumeratorNonPositive(v);
        QuotientAtMost(Numerator(v), Denominator(|v|), 0.0);
      }
    }
  }

  // ----- the slope is the least-squares one -----

  /** The errors of the line a + b*i. */
  function Errors(v: seq<real>, a: real, b: real): (e: seq<real>)
    ensures |e| == |v| && forall i | 0 <= i < |v| :: e[i] == v[i] - (a + b * i as real)
  {
    if v == [] then [] else
      var n := |v| - 1;
      Errors(v[..n], a, b) + [v[n] - (a + b * n as real)]
  }

  function SquaredError(v: seq<real>, a: real, b: real): real {
    Dot(Errors(v, a, b), Errors(v, a, b))
  }

  lemma LineTerm(d: real, x: real, q: real, k: real, dot: real, sum: real, dot': real, sum': real)
    requires dot' == dot + Times(d, x) && sum' == sum + d
    ensures Times(q, dot) + Times(k, sum) + Times(d, Times(q, x) + k) == Times(q, dot') + Times(k, sum')
  {
    assert d * (q * x + k) == q * (d * x) + k * d;
  }

  lemma {:induction false} DotOfLine(d: seq<real>, x: seq<real>, z: seq<real>, q: real, k: real)
    requires |d| == |x| == |z| && forall i | 0 <= i < |d| :: z[i] == Times(q, x[i]) + k
    ensures Dot(d, z) == Times(q, Dot(d, x)) + Times(k, Sum(d))
  {
    if d != [] {
      hide Times;
      var n := |d| - 1;
      DotOfLine(d[..n], x[..n], z[..n], q, k);
      DotLast(d, z);
      DotLast(d, x);
      SumLast(d);
      hide *;
      LineTerm(d[n], x[n], q, k, Dot(d[..n], x[..n]), Sum(d[..n]), Dot(d, x), Sum(d));
    }
  }

  lemma {:induction false} Pythagoras(e: seq<real>, f: seq<real>, z: seq<real>)
    requires |e| == |f| == |z| && forall i | 0 <= i < |e| :: e[i] == f[i] + z[i]
    ensures Dot(e, e) == Dot(f, f) + 2.0 * Dot(f, z) + Dot(z, z)
  {
    if e != [] {
      var n := |e| - 1;
      Pythagoras(e[..n], f[..n], z[..n]);
      assert (f[n] + z[n]) * (f[n] + z[n]) == f[n] * f[n] + 2.0 * (f[n] * z[n]) + z[n] * z[n];
    }
  }

  lemma LineError(value: real, i: real, a: real, b: real, mean: real, centre: real)
    ensures value - (a + b * i) == (value - mean) - b * (i - centre) + (mean - a - b * centre)
  {
    assert b * (i - centre) == b * i - b * centre;
  }

  /** The intercept of the line through the means. */
  function Intercept(v: seq<real>): real
    requires v != []
  {
    Mean(v) - LinearTrend(v) * Mean(Positions(|v|))
  }

  /** `s` and `a` are the slope and intercept of the line through the means that
      satisfies the normal equation, over positions `x` and values `y` centred about
      `c` and `m`. */
  predicate Fitted(v: seq<real>, x: seq<real>, y: seq<real>, c: real, m: real, s: real, a: real) {
    && |x| == |y| == |v|
    && (forall i | 0 <= i < |v| :: x[i] == i as real - c)
    && (forall i | 0 <= i < |v| :: y[i] == v[i] - m)
    && Sum(x) == 0.0 && Sum(y) == 0.0
    && a == m - s * c && Times(s, Dot(x, x)) == Dot(x, y)
  }

  /** The error of any line is that of the fitted one plus a line over the centred
      positions. */
  lemma OtherLine(value: real, i: real, a: real, s: real, a': real, b': real, m: real, c: real,
                  x: real, z: real, f: real, e: real)
    requires x == i - c && a == m - s * c && z == (s - b') * x + (m - a' - b' * c)
    requires f == value - (a + s * i) && e == value - (a' + b' * i)
    ensures e == f + z
  {
    assert (s - b') * x == s * i - s * c - b' * i + b' * c;
  }

  /** The values are `s` times the positions plus the errors. */
  predicate Split(y: seq<real>, x: seq<real>, f: seq<real>, s: real) {
    |y| == |x| == |f| && forall i | 0 <= i < |y| :: y[i] == Times(s, x[i]) + f[i]
  }

  lemma FitStep(s: real, x: real, f: real, xs: real, ys: real, fs: real, xs': real)
    requires ys == Times(s, xs) + fs && xs' == xs + x
    ensures ys + (Times(s, x) + f) == Times(s, xs') + (fs + f)
  {
  }

  lemma {:induction false} SumOfFit(y: seq<real>, x: seq<real>, f: seq<real>, s: real)
    requires Split(y, x, f, s)
    ensures Sum(y) == Times(s, Sum(x)) + Sum(f)
  {
    if y == [] {
      assert Times(s, 0.0) == 0.0;
    } else {
      hide Times;
      var n := |y| - 1;
      assert y[n] == Times(s, x[n]) + f[n];
      SumOfFit(y[..n], x[..n], f[..n], s);
      SumLast(y);
      SumLast(x);
      SumLast(f);
      hide *;
      FitStep(s, x[n], f[n], Sum(x[..n]), Sum(y[..n]), Sum(f[..n]), Sum(x));
    }
  }

  lemma FitProduct(s: real, x: real, f: real, xs: real, ys: real, fs: real, xs': real)
    requires ys == Times(s, xs) + fs && xs' == xs + Times(x, x)
    ensures ys + Times(x, Times(s, x) + f) == Times(s, xs') + (fs + Times(f, x))
  {
    assert x * (s * x + f) == s * (x * x) + f * x;
    assert s * (xs + x * x) == s * xs + s * (x * x);
  }

  lemma {:induction false} DotOfFit(y: seq<real>, x: seq<real>, f: seq<real>, s: real)
    requires Split(y, x, f, s)
    ensures Dot(x, y) == Times(s, Dot(x, x)) + Dot(f, x)
  {
    if y == [] {
      assert Times(s, 0.0) == 0.0;
    } else {
      hide Times;
      var n := |y| - 1;
      assert y[n] == Times(s, x[n]) + f[n];
      DotOfFit(y[..n], x[..n], f[..n], s);
      DotLast(x, y);
      DotLast(x, x);
      DotLast(f, x);
      hide *;
      FitProduct(s, x[n], f[n], Dot(x[..n], x[..n]), Dot(x[..n], y[..n]), Dot(f[..n], x[..n]), Dot(x, x));
    }
  }

  lemma LineSplit(value: real, i: real, a: real, s: real, m: real, c: real, x: real, y: real, f: real)
    requires x == i - c && a == m - s * c && y == value - m && f == value - (a + s * i)
    ensures y == Times(s, x) + f
  {
    assert s * x == s * i - s * c;
  }

  lemma FitSplits(v: seq<real>, x: seq<real>, y: seq<real>, c: real, m: real, s: real, a: real)
    requires Fitted(v, x, y, c, m, s, a)
    ensures Split(y, x, Errors(v, a, s), s)
  {
    hide Sum, Dot, Times;
    var f := Errors(v, a, s);
    forall i | 0 <= i < |v| ensures y[i] == Times(s, x[i]) + f[i] {
      LineSplit(v[i], i as real, a, s, m, c, x[i], y[i], f[i]);
    }
  }

  lemma ZeroTimes(s: real)
    ensures Times(s, 0.0) == 0.0
  {
  }

  lemma ErrorsCancel(y: seq<real>, x: seq<real>, f: seq<real>, s: real)
    requires Split(y, x, f, s)
    requires Sum(x) == 0.0 && Sum(y) == 0.0
    ensures Sum(f) == 0.0
  {
    hide *;
    SumOfFit(y, x, f, s);
    ZeroTimes(s);
  }

  lemma ErrorsUncorrelated(y: seq<real>, x: seq<real>, f: seq<real>, s: real)
    requires Split(y, x, f, s)
    requires |x| == |y| == |f| && Times(s, Dot(x, x)) == Dot(x, y)
    ensures Dot(f, x) == 0.0
  {
    hide *;
    DotOfFit(y, x, f, s);
  }

  /** The normal equations: the errors of the fitted line cancel out, and they are
      uncorrelated with the positions. */
  lemma FittedErrors(v: seq<real>, x: seq<real>, y: seq<real>, c: real, m: real, s: real, a: real)
    requires Fitted(v, x, y, c, m, s, a)
    ensures Sum(Errors(v, a, s)) == 0.0 && Dot(Errors(v, a, s), x) == 0.0
  {
    hide Sum, Dot, Times, Errors, Split;
    var f := Errors(v, a, s);
    FitSplits(v, x, y, c, m, s, a);
    ErrorsCancel(y, x, f, s);
    ErrorsUncorrelated(y, x, f, s);
  }

  lemma FittedIsBest(v: seq<real>, x: seq<real>, y: seq<real>, c: real, m: real, s: real, a: real, a': real, b': real)
    requires Fitted(v, x, y, c, m, s, a)
    ensures SquaredError(v, a, s) <= SquaredError(v, a', b')
  {
    var f, e := Errors(v, a, s), Errors(v, a', b');
    var q, k := s - b', m - a' - b' * c;
    var z := Scaled(x, q, k);
    hide Sum, Dot;
    forall i | 0 <= i < |v| ensures e[i] == f[i] + z[i] {
      OtherLine(v[i], i as real, a, s, a', b', m, c, x[i], z[i], f[i], e[i]);
    }
    FittedErrors(v, x, y, c, m, s, a);
    NoCorrelation(f, x, z, q, k);
    Pythagoras(e, f, z);
    DotSelfNonNegative(z);
  }

  /** No line fits the series better than the one with the computed slope through
      the means. */
  lemma SlopeMinimisesSquaredError(v: seq<real>, a: real, b: real)
    requires |v| >= 2
    ensures SquaredError(v, Intercept(v), LinearTrend(v)) <= SquaredError(v, a, b)
  {
    hide Sum, Dot;
    var x, y := Deviations(Positions(|v|)), Deviations(v);
    DeviationsCancel(v);
    DeviationsCancel(Positions(|v|));
    SlopeTimesDenominator(v);
    FittedIsBest(v, x, y, Mean(Positions(|v|)), Mean(v), LinearTrend(v), Intercept(v), a, b);
  }

  lemma NoCorrelation(f: seq<real>, x: seq<real>, z: seq<real>, q: real, k: real)
    requires |f| == |x| && Sum(f) == 0.0 && Dot(f, x) == 0.0 && z == Scaled(x, q, k)
    ensures Dot(f, z) == 0.0
  {
    DotOfLine(f, x, z, q, k);
  }

  function Scaled(x: seq<real>, q: real, k: real): (z: seq<real>)
    ensures |z| == |x| && forall i | 0 <= i < |x| :: z[i] == q * x[i] + k
  {
    if x == [] then [] else Scaled(x[..|x| - 1], q, k) + [q * x[|x| - 1] + k]
  }

  lemma SlopeTimesDenominator(v: seq<real>)
    requires |v| >= 2
    ensures Times(LinearTrend(v), Denominator(|v|)) == Numerator(v)
  {
    DenominatorPositive(|v|);
  }

  /** On a straight line the slope is the line's own. */
  lemma SlopeOfLine(v: seq<real>, a: real, b: real)
    requires |v| >= 2 && forall i | 0 <= i < |v| :: v[i] == a + b * i as real
    ensures LinearTrend(v) == b
  {
    var n := |v|;
    var x, centre := Deviations(Positions(n)), Mean(Positions(n));
    var y := Minus(v, a + b * centre);
    forall i | 0 <= i < n ensures y[i] == b * x[i] {
      LineError(v[i], i as real, a, b, a + b * centre, centre);
    }
    NumeratorAbout(v, a + b * centre);
    ScaledDot(x, y, b);
    DenominatorPositive(n);
    SlopeTimesDenominator(v);
    Cancel(Denominator(n), LinearTrend(v), b);
  }

  lemma {:induction false} ScaledDot(x: seq<real>, y: seq<real>, b: real)
    requires |x| == |y| && forall i | 0 <= i < |x| :: y[i] == b * x[i]
    ensures Dot(x, y) == b * Dot(x, x)
  {
    if x != [] {
      var n := |x| - 1;
      ScaledDot(x[..n], y[..n], b);
      assert x[n] * (b * x[n]) == b * (x[n] * x[n]);
      assert b * (Dot(x[..n], x[..n]) + x[n] * x[n]) == b * Dot(x[..n], x[..n]) + b * (x[n] * x[n]);
    }
  }
}
