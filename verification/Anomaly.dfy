/** The statistical tests of the anomaly detector (analytics/anomaly/detector.py),
    over reals and without rounding.
 */
module Anomaly {
  import opened Common
  import opened RealSums

  // ----- complaint spikes -----

  /** The population variance. */
  function Variance(x: seq<real>): real
    requires x != []
  {
    Dot(Deviations(x), Deviations(x)) / |x| as real
  }

  /** `root` is the population standard deviation. */
  predicate IsDeviation(root: real, x: seq<real>)
    requires x != []
  {
    root >= 0.0 && root * root == Variance(x)
  }

  /** The score of the latest count; a zero deviation is replaced by one. */
  function ZScore(x: seq<real>, root: real): real
    requires x != []
  {
    (x[|x| - 1] - Mean(x)) / (if root != 0.0 then root else 1.0)
  }

  datatype Severity = Medium | High

  /** The z-score test of one airline. */
  function Spike(x: seq<real>, root: real, threshold: real): Option<Severity> {
    if |x| < 5 then None
    else if ZScore(x, root) >= threshold then Some(if ZScore(x, root) >= 3.0 then High else Medium)
    else None
  }

  /** The squared distance of the last entry from the mean is at most n-1 variances. */
  lemma LastDeviation(x: seq<real>)
    requires x != []
    ensures var d := Deviations(x);
            d[|x| - 1] * d[|x| - 1] <= (|x| - 1) as real * Variance(x)
  {
    var d, n := Deviations(x), |x|;
    var rest, last := d[..n - 1], d[n - 1];
    var k := (n - 1) as real;
    DeviationsCancel(x);
    assert Sum(rest) == -last;
    SquareOfSum(rest);
    var q := Dot(rest, rest);
    assert last * last <= k * q;
    var v := Variance(x);
    assert n as real * v == q + last * last;
    assert (k + 1.0) * (last * last) == k * (last * last) + last * last;
    assert k * (n as real * v) == k * q + k * (last * last);
    assert (k + 1.0) * (k * v) == k * (n as real * v);
    assert (k + 1.0) * (k * v - last * last) >= 0.0;
    PositiveFactor(k + 1.0, k * v - last * last);
  }

  /** Samuelson's inequality for the z-score as it is computed. */
  lemma ZScoreIsBounded(x: seq<real>, root: real)
    requires x != [] && IsDeviation(root, x)
    ensures ZScore(x, root) * ZScore(x, root) <= (|x| - 1) as real
  {
    LastDeviation(x);
    var last, z := Deviations(x)[|x| - 1], ZScore(x, root);
    if root == 0.0 {
      assert Variance(x) == 0.0;
      SquareNonNegative(last);
      assert last * last == 0.0;
      assert z == last / 1.0 == last;
    } else {
      assert z * root == last;
      assert last * last == (z * z) * (root * root);
      var v := root * root;
      SquareGrowsStrictly(0.0, root);
      assert v * ((|x| - 1) as real - z * z) >= 0.0;
      PositiveFactor(v, (|x| - 1) as real - z * z);
    }
  }

  /** A spike at a threshold of at least t >= 0 needs more than t*t days; a "high"
      one at any threshold needs ten. */
  lemma SpikesNeedDays(x: seq<real>, root: real, threshold: real)
    requires x != [] ==> IsDeviation(root, x)
    ensures Spike(x, root, threshold).Some? && threshold >= 0.0 ==> |x| as real >= threshold * threshold + 1.0
    ensures Spike(x, root, threshold) == Some(High) ==> |x| >= 10
  {
    if Spike(x, root, threshold).Some? {
      ZScoreIsBounded(x, root);
      var z := ZScore(x, root);
      if threshold >= 0.0 {
        SquareGrows(threshold, z);
      }
      if z >= 3.0 {
        SquareGrows(3.0, z);
      }
    }
  }

  // ----- the bound is reached -----

  function Repeat(c: nat, n: nat): (x: seq<real>)
    ensures |x| == n && forall i | 0 <= i < n :: x[i] == c as real
  {
    if n == 0 then [] else Repeat(c, n - 1) + [c as real]
  }

  /** n-1 days with `c` complaints each and then one with one more.  A day without
      complaints has no entry in the series, so `c` is at least one. */
  function OneMore(n: nat, c: nat): (x: seq<real>)
    requires n >= 1
    ensures |x| == n
  {
    Repeat(c, n - 1) + [(c + 1) as real]
  }

  lemma {:induction false} ConstantSquares(d: seq<real>, c: real)
    requires forall i | 0 <= i < |d| :: d[i] == c
    ensures Dot(d, d) == Times(|d| as real, Times(c, c))
  {
    if d != [] {
      hide Times;
      var n := |d| - 1;
      ConstantSquares(d[..n], c);
      DotLast(d, d);
      Successor(n, Times(c, c));
    }
  }

  lemma {:induction false} RepeatSum(c: nat, n: nat)
    ensures Sum(Repeat(c, n)) == Times(n as real, c as real)
  {
    if n > 0 {
      hide Times;
      RepeatSum(c, n - 1);
      Successor(n - 1, c as real);
    } else {
      assert Times(0.0, c as real) == 0.0;
    }
  }

  lemma OneMoreSum(n: nat, c: nat)
    requires n >= 1
    ensures Sum(OneMore(n, c)) == Times(n as real, c as real) + 1.0
  {
    assert OneMore(n, c)[..n - 1] == Repeat(c, n - 1);
    RepeatSum(c, n - 1);
    Successor(n - 1, c as real);
    hide Times;
  }

  lemma VarianceTimes(x: seq<real>)
    requires x != []
    ensures Times(|x| as real, Variance(x)) == Dot(Deviations(x), Deviations(x))
  {
    hide Dot;
  }

  /** How far the mean lies above `c`. */
  function Excess(n: nat, c: nat): real
    requires n >= 1
  {
    Mean(OneMore(n, c)) - c as real
  }

  lemma ExcessTimes(n: real, m: real, c: real)
    requires Times(n, m) == Times(n, c) + 1.0
    ensures Times(n, m - c) == 1.0
  {
    assert n * (m - c) == n * m - n * c;
  }

  lemma OneMoreVariance(n: nat, c: nat)
    requires n >= 2
    ensures var e, last := Excess(n, c), Deviations(OneMore(n, c))[n - 1];
            && Times(n as real, e) == 1.0 && last == 1.0 - e
            && Times(n as real, Variance(OneMore(n, c))) == Times((n - 1) as real, Times(e, e)) + Times(last, last)
  {
    var x := OneMore(n, c);
    var d, e := Deviations(x), Excess(n, c);
    OneMoreSum(n, c);
    MeanTimes(x);
    assert d[n - 1] == 1.0 - e && forall i | 0 <= i < n - 1 :: d[i] == -e;
    assert e == Mean(x) - c as real;
    hide *;
    ExcessTimes(n as real, Mean(x), c as real);
    ConstantSquares(d[..n - 1], -e);
    SquareOfOpposite(e);
    DotLast(d, d);
    VarianceTimes(x);
  }

  /** One complaint more than on all earlier days: z*z is exactly n-1. */
  lemma OneMoreReachesTheBound(n: nat, c: nat, root: real)
    requires n >= 2 && c >= 1 && IsDeviation(root, OneMore(n, c))
    ensures var z := ZScore(OneMore(n, c), root);
            z * z == (n - 1) as real && z > 0.0
  {
    OneMoreVariance(n, c);
    var e, last := Excess(n, c), Deviations(OneMore(n, c))[n - 1];
    LoneAlgebra(n as real, e, last, Variance(OneMore(n, c)));
    LoneScore(n as real, e, last, root);
  }

  /** On k*k + 1 days the deviation is k/(k*k + 1) and the score exactly k. */
  lemma ScoreOnSquareDays(k: nat, c: nat)
    requires k >= 1 && c >= 1
    ensures var n := k * k + 1;
            var root := k as real / n as real;
            n >= 1 && IsDeviation(root, OneMore(n, c)) && ZScore(OneMore(n, c), root) == k as real
  {
    var n := k * k + 1;
    NatSquare(k);
    var x, root := OneMore(n, c), k as real / n as real;
    OneMoreVariance(n, c);
    var e, last := Excess(n, c), Deviations(x)[n - 1];
    LoneAlgebra(n as real, e, last, Variance(x));
    SquareDays(k as real, n as real, e, last, root);
    assert x[n - 1] - Mean(x) == last;
  }

  lemma NatSquare(k: nat)
    requires k >= 1
    ensures k * k >= 1 && (k * k + 1) as real == (k as real) * (k as real) + 1.0
  {
  }

  lemma SquareDays(k: real, n: real, e: real, last: real, root: real)
    requires k >= 1.0 && n == k * k + 1.0 && n * e == 1.0 && last == (n - 1.0) * e && root == k / n
    ensures root > 0.0 && root * root == last * e && last / root == k
  {
    assert n * root == k;
    assert n * (k * e) == k;
    Cancel(n, root, k * e);
    assert last == k * root;
    ProductPositive(n, n);
    PositiveFactor(n, root);
    assert root == 0.0 ==> n * root == 0.0;
    assert root * root == k * (k * (e * e)) == last * e;
    var q := last / root;
    assert root * q == last;
    Cancel(root, q, k);
  }

  lemma LoneAlgebra(k: real, m: real, last: real, v: real)
    requires k >= 2.0 && k * m == 1.0 && last == 1.0 - m
    requires k * v == (k - 1.0) * (m * m) + last * last
    ensures last == (k - 1.0) * m && v == last * m && m > 0.0 && last > 0.0
  {
    assert (k - 1.0) * m == k * m - m == last;
    assert (k - 1.0) * (m * m) == ((k - 1.0) * m) * m == last * m;
    assert last * m + last * last == last * (m + last) == last;
    assert k * (last * m) == last * (k * m) == last;
    Cancel(k, v, last * m);
    PositiveFactor(k, m);
    assert m == 0.0 ==> k * m == 0.0;
    ProductPositive(k - 1.0, m);
  }

  lemma LoneScore(k: real, m: real, last: real, root: real)
    requires m > 0.0 && last > 0.0 && last == (k - 1.0) * m && root >= 0.0 && root * root == last * m
    ensures root > 0.0 && (last / root) * (last / root) == k - 1.0 && last / root > 0.0
  {
    ProductPositive(last, m);
    assert root == 0.0 ==> root * root == 0.0;
    var z, v := last / root, last * m;
    assert z * root == last;
    assert v * (z * z) == (z * root) * (z * root) == last * last;
    assert v * (k - 1.0) == last * ((k - 1.0) * m) == last * last;
    Cancel(v, z * z, k - 1.0);
    PositiveFactor(root, z);
    assert z == 0.0 ==> z * root == 0.0;
  }

  /** Ten days can give a "high" spike and five a spike at the default threshold, so
      both bounds are the best possible. */
  lemma TenDaysSuffice(c: nat)
    requires c >= 1
    ensures IsDeviation(0.3, OneMore(10, c)) && Spike(OneMore(10, c), 0.3, 2.0) == Some(High)
    ensures IsDeviation(0.4, OneMore(5, c)) && Spike(OneMore(5, c), 0.4, 2.0) == Some(Medium)
  {
    hide OneMore, IsDeviation, ZScore;
    ScoreOnSquareDays(3, c);
    ScoreOnSquareDays(2, c);
    assert 3 as real / 10 as real == 0.3 && 2 as real / 5 as real == 0.4;
  }

  // ----- exploding topics -----

  datatype Topic = Topic(name: string, weight: real)

  function Weights(rows: seq<Topic>): (w: seq<real>)
    ensures |w| == |rows| && forall i | 0 <= i < |w| :: w[i] == rows[i].weight
  {
    if rows == [] then [] else Weights(rows[..|rows| - 1]) + [rows[|rows| - 1].weight]
  }

  /** The rows heavier than `t`, in order. */
  function Heavier(rows: seq<Topic>, t: real): seq<Topic> {
    if rows == [] then []
    else
      var r, last := Heavier(rows[..|rows| - 1], t), rows[|rows| - 1];
      if last.weight > t then r + [last] else r
  }

  /** Twice the mean weight. */
  function Cutoff(rows: seq<Topic>): real
    requires rows != []
  {
    Mean(Weights(rows)) * 2.0
  }

  /** The rows of the query, at most five, filtered and cut to two. */
  function ExplodingTopics(rows: seq<Topic>): seq<Topic> {
    if rows == [] then []
    else FirstTwo(Heavier(rows, Cutoff(rows)))
  }

  function FirstTwo(h: seq<Topic>): seq<Topic> {
    if |h| <= 2 then h else h[..2]
  }

  lemma {:induction false} HeavierCounts(rows: seq<Topic>, t: real)
    ensures |Heavier(rows, t)| == CountAbove(Weights(rows), t)
  {
    if rows != [] {
      HeavierCounts(rows[..|rows| - 1], t);
      assert Weights(rows)[..|rows| - 1] == Weights(rows[..|rows| - 1]);
    }
  }

  /** Fewer than half of any non-negative weights exceed twice their mean. */
  lemma FewExceedTwiceTheMean(x: seq<real>)
    requires x != [] && NonNegative(x)
    ensures 2 * CountAbove(x, Mean(x) * 2.0) < |x|
  {
    var m, n, k := Mean(x), |x|, CountAbove(x, Mean(x) * 2.0);
    SumNonNegative(x);
    MeanTimes(x);
    QuotientAtLeast(Sum(x), n as real, 0.0);
    assert m >= 0.0;
    hide *;
    Markov(x, m * 2.0);
    if k > 0 {
      UnderHalf(n as real, k as real, m, Sum(x));
    }
  }

  lemma UnderHalf(n: real, k: real, m: real, s: real)
    requires m >= 0.0 && Times(n, m) == s && s > Times(k, m * 2.0)
    ensures 2.0 * k < n
  {
    assert m * (n - 2.0 * k) > 0.0;
    PositiveFactor2(m, n - 2.0 * k);
  }

  lemma PositiveFactor2(m: real, y: real)
    requires m >= 0.0 && m * y > 0.0
    ensures y > 0.0
  {
    assert y <= 0.0 ==> m * y <= 0.0;
  }

  /** With at most five rows, as queried, and non-negative weights, as the table
      enforces, the final cut to two drops nothing. */
  lemma CutDropsNothing(rows: seq<Topic>)
    requires rows != [] && |rows| <= 5 && NonNegative(Weights(rows))
    ensures ExplodingTopics(rows) == Heavier(rows, Cutoff(rows))
  {
    hide Heavier, Cutoff, Weights;
    AtMostTwo(rows);
  }

  lemma {:induction false} HeavierAreHeavier(rows: seq<Topic>, t: real, x: Topic)
    ensures x in Heavier(rows, t) <==> x in rows && x.weight > t
  {
    if rows != [] {
      HeavierAreHeavier(rows[..|rows| - 1], t, x);
      assert rows == rows[..|rows| - 1] + [rows[|rows| - 1]];
    }
  }

  /** As queried, a topic explodes exactly when its weight, times the number of rows,
      exceeds twice the total weight. */
  lemma ExplodingTopicsAreExact(rows: seq<Topic>, x: Topic)
    requires |rows| <= 5 && NonNegative(Weights(rows))
    ensures x in ExplodingTopics(rows) <==>
              x in rows && Times(|rows| as real, x.weight) > 2.0 * Sum(Weights(rows))
  {
    if rows != [] {
      hide *;
      CutDropsNothing(rows);
      HeavierAreHeavier(rows, Cutoff(rows), x);
      CutoffIs(rows);
      OneOrMore(|rows|);
      ScaledCutoff(|rows| as real, Mean(Weights(rows)), x.weight, Sum(Weights(rows)));
    } else {
      assert ExplodingTopics(rows) == [];
    }
  }

  lemma CutoffIs(rows: seq<Topic>)
    requires rows != []
    ensures Cutoff(rows) == Mean(Weights(rows)) * 2.0
    ensures Times(|rows| as real, Mean(Weights(rows))) == Sum(Weights(rows))
  {
    MeanTimes(Weights(rows));
    hide Times, Mean, Sum, Weights;
  }

  lemma OneOrMore(n: nat)
    requires n > 0
    ensures n as real >= 1.0
  {
  }

  lemma ScaledCutoff(n: real, m: real, weight: real, total: real)
    requires n >= 1.0 && Times(n, m) == total
    ensures weight > m * 2.0 <==> Times(n, weight) > 2.0 * total
  {
    assert Times(n, weight) - 2.0 * total == n * (weight - m * 2.0);
    if weight > m * 2.0 {
      ProductPositive(n, weight - m * 2.0);
    } else {
      ProductNonNegative(n, m * 2.0 - weight);
      assert n * (weight - m * 2.0) == -(n * (m * 2.0 - weight));
    }
  }

  lemma AtMostTwo(rows: seq<Topic>)
    requires rows != [] && |rows| <= 6 && NonNegative(Weights(rows))
    ensures |Heavier(rows, Cutoff(rows))| <= 2
  {
    FewExceedTwiceTheMean(Weights(rows));
    HeavierCounts(rows, Cutoff(rows));
  }

  /** Seven rows of which the cut drops one. */
  lemma CutDropsOfSeven() returns (rows: seq<Topic>)
    ensures |rows| == 7 && NonNegative(Weights(rows)) && |Heavier(rows, Cutoff(rows))| >= 3
  {
    var b, o := Topic("b", 3.0), Topic("o", 0.0);
    rows := [b, b, b, o, o, o, o];
    SumOfFive(3.0, 0.0);
    var five := [] + [3.0] + [3.0] + [3.0] + [0.0] + [0.0];
    SumExtend(five, 0.0);
    SumExtend(five + [0.0], 0.0);
    var w := Weights(rows);
    assert w == five + [0.0] + [0.0];
    TwiceMean(w, 7.0, 9.0);
    HeavierTriple(rows, Cutoff(rows));
  }

  predicate Uncut(rows: seq<Topic>) {
    rows != [] && NonNegative(Weights(rows)) ==> ExplodingTopics(rows) == Heavier(rows, Cutoff(rows))
  }

  /** The query's row limit is safe for the cut exactly up to six; it is five. */
  lemma CutIsSafeExactlyUpTo(limit: nat)
    ensures (forall rows: seq<Topic> | |rows| <= limit :: Uncut(rows)) <==> limit <= 6
  {
    if limit <= 6 {
      forall rows: seq<Topic> | |rows| <= limit ensures Uncut(rows) {
        if rows != [] && NonNegative(Weights(rows)) {
          AtMostTwo(rows);
        }
      }
    } else {
      var rows := CutDropsOfSeven();
      assert ExplodingTopics(rows) == FirstTwo(Heavier(rows, Cutoff(rows)));
      assert |ExplodingTopics(rows)| <= 2;
      assert !Uncut(rows);
    }
  }

  lemma TwiceMean(w: seq<real>, n: real, total: real)
    requires w != [] && |w| as real == n && Sum(w) == total
    ensures Mean(w) * 2.0 == total * 2.0 / n
  {
    hide Sum;
  }

  lemma SumOfFive(a: real, b: real)
    ensures Sum([] + [a] + [a] + [a] + [b] + [b]) == 3.0 * a + 2.0 * b
  {
    SumExtend([], a);
    SumExtend([] + [a], a);
    SumExtend([] + [a] + [a], a);
    SumExtend([] + [a] + [a] + [a], b);
    SumExtend([] + [a] + [a] + [a] + [b], b);
  }

  lemma {:induction false} HeavierTriple(rows: seq<Topic>, t: real)
    requires forall i | 0 <= i < 3 && i < |rows| :: rows[i].weight > t
    ensures |Heavier(rows, t)| >= if |rows| <= 3 then |rows| else 3
    decreases |rows|
  {
    if rows != [] {
      HeavierTriple(rows[..|rows| - 1], t);
    }
  }
}
