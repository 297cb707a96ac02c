/** Sums, means and counting bounds over sequences of reals of any length. */
module RealSums {

  function Sum(x: seq<real>): real {
    if x == [] then 0.0 else Sum(x[..|x| - 1]) + x[|x| - 1]
  }

  /** The product by name: proofs that hide it treat products as plain terms. */
  function Times(a: real, b: real): real {
    a * b
  }

  function Dot(x: seq<real>, y: seq<real>): real
    requires |x| == |y|
  {
    if x == [] then 0.0 else Dot(x[..|x| - 1], y[..|y| - 1]) + Times(x[|x| - 1], y[|y| - 1])
  }

  lemma DotLast(x: seq<real>, y: seq<real>)
    requires |x| == |y| && x != []
    ensures Dot(x, y) == Dot(x[..|x| - 1], y[..|y| - 1]) + Times(x[|x| - 1], y[|y| - 1])
  {
    hide Times;
  }

  function Mean(x: seq<real>): real
    requires x != []
  {
    Sum(x) / |x| as real
  }

  lemma MeanTimes(x: seq<real>)
    requires x != []
    ensures Times(|x| as real, Mean(x)) == Sum(x)
  {
  }

  /** The differences to `m`. */
  function Minus(x: seq<real>, m: real): (d: seq<real>)
    ensures |d| == |x| && forall i | 0 <= i < |x| :: d[i] == x[i] - m
  {
    if x == [] then [] else Minus(x[..|x| - 1], m) + [x[|x| - 1] - m]
  }

  /** The differences to the mean. */
  function Deviations(x: seq<real>): (d: seq<real>)
    requires x != []
    ensures |d| == |x|
  {
    Minus(x, Mean(x))
  }

  lemma MinusInit(x: seq<real>, m: real)
    requires x != []
    ensures Minus(x, m)[..|x| - 1] == Minus(x[..|x| - 1], m)
  {
  }

  lemma {:induction false} SumMinus(x: seq<real>, m: real)
    ensures Sum(Minus(x, m)) == Sum(x) - Times(|x| as real, m)
  {
    if x == [] {
      assert Times(0.0, m) == 0.0;
    } else {
      var n, d := |x| - 1, Minus(x, m);
      SumMinus(x[..n], m);
      MinusInit(x, m);
      SumLast(x);
      SumLast(d);
      assert d[n] == x[n] - m && |d| == |x|;
      hide *;
      Successor(n, m);
    }
  }

  lemma DeviationsCancel(x: seq<real>)
    requires x != []
    ensures Sum(Minus(x, Mean(x))) == 0.0
  {
    SumMinus(x, Mean(x));
    MeanTimes(x);
    hide *;
  }

  lemma {:induction false} DotSelfNonNegative(x: seq<real>)
    ensures Dot(x, x) >= 0.0
  {
    if x != [] {
      DotSelfNonNegative(x[..|x| - 1]);
      SquareNonNegative(x[|x| - 1]);
    }
  }

  lemma MinusTerm(d: real, v: real, c: real, dv: real, sd: real, dv': real, sd': real)
    requires dv' == dv + Times(d, v) && sd' == sd + d
    ensures dv - Times(c, sd) + Times(d, v - c) == dv' - Times(c, sd')
  {
    assert d * (v - c) == d * v - c * d;
  }

  lemma {:induction false} DotMinus(d: seq<real>, v: seq<real>, c: real)
    requires |d| == |v|
    ensures Dot(d, Minus(v, c)) == Dot(d, v) - Times(c, Sum(d))
  {
    if d != [] {
      var n, w := |d| - 1, Minus(v, c);
      DotMinus(d[..n], v[..n], c);
      MinusInit(v, c);
      assert w[n] == v[n] - c;
      DotLast(d, w);
      DotLast(d, v);
      SumLast(d);
      hide *;
      MinusTerm(d[n], v[n], c, Dot(d[..n], v[..n]), Sum(d[..n]), Dot(d, v), Sum(d));
    }
  }

  lemma {:induction false} DotCommutes(x: seq<real>, y: seq<real>)
    requires |x| == |y|
    ensures Dot(x, y) == Dot(y, x)
  {
    if x != [] {
      DotCommutes(x[..|x| - 1], y[..|y| - 1]);
    }
  }

  lemma SquareOfOpposite(m: real)
    ensures Times(-m, -m) == Times(m, m)
  {
  }

  lemma SquareNonNegative(a: real)
    ensures a * a >= 0.0
  {
  }

  /** Cauchy-Schwarz against the constant sequence. */
  lemma {:induction false} SquareOfSum(x: seq<real>)
    ensures Sum(x) * Sum(x) <= |x| as real * Dot(x, x)
  {
    if x != [] {
      var pre, a := x[..|x| - 1], x[|x| - 1];
      SquareOfSum(pre);
      DotSelfNonNegative(pre);
      SquareStep(|pre|, Sum(pre), Dot(pre, pre), a);
    }
  }

  lemma SquareStep(n: nat, s: real, q: real, a: real)
    requires s * s <= n as real * q && q >= 0.0 && (n == 0 ==> s == 0.0)
    ensures (s + a) * (s + a) <= (n + 1) as real * (q + a * a)
  {
    var k := n as real;
    assert (s + a) * (s + a) == s * s + 2.0 * (s * a) + a * a;
    assert (k + 1.0) * (q + a * a) == k * q + q + k * (a * a) + a * a;
    if n == 0 {
      assert s * a == 0.0 && s * s == 0.0;
    } else {
      SquareNonNegative(s - k * a);
      assert (s - k * a) * (s - k * a) == s * s - 2.0 * (k * (s * a)) + k * (k * (a * a));
      assert k * (q + k * (a * a) - 2.0 * (s * a)) == k * q + k * (k * (a * a)) - 2.0 * (k * (s * a));
      PositiveFactor(k, q + k * (a * a) - 2.0 * (s * a));
    }
  }

  lemma PositiveFactor(k: real, y: real)
    requires k > 0.0 && k * y >= 0.0
    ensures y >= 0.0
  {
    assert y < 0.0 ==> k * y < 0.0;
  }

  lemma ProductPositive(a: real, b: real)
    requires a > 0.0 && b > 0.0
    ensures a * b > 0.0
  {
  }

  lemma SquareGrows(a: real, b: real)
    requires 0.0 <= a <= b
    ensures a * a <= b * b
  {
    assert b * b - a * a == (b - a) * (b + a);
  }

  lemma SquareGrowsStrictly(a: real, b: real)
    requires 0.0 <= a < b
    ensures a * a < b * b
  {
    var p, q := b - a, b + a;
    ProductPositive(p, q);
    assert b * b - a * a == p * q;
  }

  lemma ProductNonNegative(a: real, b: real)
    requires a >= 0.0 && b >= 0.0
    ensures a * b >= 0.0
  {
  }

  lemma Cancel(k: real, a: real, b: real)
    requires k > 0.0 && k * a == k * b
    ensures a == b
  {
    assert k * (a - b) == 0.0;
    PositiveFactor(k, a - b);
    PositiveFactor(k, b - a);
  }

  lemma SumExtend(x: seq<real>, a: real)
    ensures Sum(x + [a]) == Sum(x) + a
  {
    assert (x + [a])[..|x|] == x;
  }

  lemma QuotientAtMost(a: real, b: real, c: real)
    requires b > 0.0 && a <= b * c
    ensures a / b <= c
  {
    assert b * (a / b) == a;
    PositiveFactor(b, c - a / b);
  }

  lemma QuotientAtLeast(a: real, b: real, c: real)
    requires b > 0.0 && a >= b * c
    ensures a / b >= c
  {
    assert b * (a / b) == a;
    PositiveFactor(b, a / b - c);
  }

  // ----- counting -----

  /** How many entries exceed `t`. */
  function CountAbove(x: seq<real>, t: real): nat {
    if x == [] then 0 else CountAbove(x[..|x| - 1], t) + if x[|x| - 1] > t then 1 else 0
  }

  predicate NonNegative(x: seq<real>) {
    forall i | 0 <= i < |x| :: x[i] >= 0.0
  }

  lemma SumLast(x: seq<real>)
    requires x != []
    ensures Sum(x) == Sum(x[..|x| - 1]) + x[|x| - 1]
  {
  }

  lemma Successor(k: nat, t: real)
    ensures Times((k + 1) as real, t) == Times(k as real, t) + t
  {
  }

  /** Markov: the entries above `t` take up more than `t` each of the sum. */
  lemma {:induction false} Markov(x: seq<real>, t: real)
    requires NonNegative(x) && t >= 0.0
    ensures CountAbove(x, t) <= |x|
    ensures Sum(x) >= Times(CountAbove(x, t) as real, t)
    ensures CountAbove(x, t) > 0 ==> Sum(x) > Times(CountAbove(x, t) as real, t)
  {
    if x == [] {
      assert Times(0.0, t) == 0.0;
    } else {
      var pre, last := x[..|x| - 1], x[|x| - 1];
      assert NonNegative(pre) && last >= 0.0;
      Markov(pre, t);
      SumLast(x);
      assert CountAbove(x, t) == CountAbove(pre, t) + (if last > t then 1 else 0);
      hide *;
      Successor(CountAbove(pre, t), t);
    }
  }

  lemma {:induction false} SumNonNegative(x: seq<real>)
    requires NonNegative(x)
    ensures Sum(x) >= 0.0
  {
    if x != [] {
      SumNonNegative(x[..|x| - 1]);
    }
  }

  /** A mean lies between any bounds of the entries. */
  lemma MeanWithin(x: seq<real>, lo: real, hi: real)
    requires x != [] && forall i | 0 <= i < |x| :: lo <= x[i] <= hi
    ensures lo <= Mean(x) <= hi
  {
    SumWithin(x, lo, hi);
    QuotientAtLeast(Sum(x), |x| as real, lo);
    QuotientAtMost(Sum(x), |x| as real, hi);
  }

  lemma {:induction false} SumWithin(x: seq<real>, lo: real, hi: real)
    requires forall i | 0 <= i < |x| :: lo <= x[i] <= hi
    ensures |x| as real * lo <= Sum(x) <= |x| as real * hi
  {
    if x != [] {
      var n := |x| - 1;
      SumWithin(x[..n], lo, hi);
      assert |x| as real * lo == n as real * lo + lo && |x| as real * hi == n as real * hi + hi;
    }
  }
}
