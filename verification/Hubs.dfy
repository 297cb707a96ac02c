/** The hub statistics with a mathematical bound (analytics/hub_intelligence.py),
    without rounding: the concentration index, the monthly incidents and the
    critical-hub threshold.
 */
module Hubs {
  import opened Common
  import opened RealSums
  import opened Sorting

  function AsReals(counts: seq<nat>): (x: seq<real>)
    ensures |x| == |counts| && forall i | 0 <= i < |x| :: x[i] == counts[i] as real
  {
    if counts == [] then [] else AsReals(counts[..|counts| - 1]) + [counts[|counts| - 1] as real]
  }

  function Total(counts: seq<nat>): nat {
    if counts == [] then 0 else Total(counts[..|counts| - 1]) + counts[|counts| - 1]
  }

  lemma {:induction false} TotalIsSum(counts: seq<nat>)
    ensures Total(counts) as real == Sum(AsReals(counts))
  {
    if counts != [] {
      TotalIsSum(counts[..|counts| - 1]);
      assert AsReals(counts)[..|counts| - 1] == AsReals(counts[..|counts| - 1]);
    }
  }

  // ----- concentration -----

  lemma TimesPositive(a: real, b: real)
    requires a > 0.0 && b > 0.0
    ensures Times(a, b) > 0.0
  {
    ProductPositive(a, b);
  }

  lemma SquareIsPositive(s: real)
    requires s != 0.0
    ensures Times(s, s) > 0.0
  {
    hide Times;
    if s > 0.0 {
      TimesPositive(s, s);
    } else {
      TimesPositive(-s, -s);
      SquareOfOpposite(s);
    }
  }

  /** The sum of the squares over the square of the sum. */
  function Herfindahl(counts: seq<nat>): real {
    var x := AsReals(counts);
    if Sum(x) == 0.0 then 0.0
    else
      SquareIsPositive(Sum(x));
      Dot(x, x) / Times(Sum(x), Sum(x))
  }

  lemma ShareStep(hhi: real, total: real, square: real, cnt: real)
    requires total > 0.0 && Times(hhi, Times(total, total)) == square
    ensures Times(hhi + Times(cnt / total, cnt / total), Times(total, total)) == square + Times(cnt, cnt)
  {
    var share := cnt / total;
    assert share * total == cnt;
    assert (share * share) * (total * total) == (share * total) * (share * total);
  }

  lemma DivideBack(a: real, b: real, c: real)
    requires b > 0.0 && Times(a, b) == c
    ensures a == c / b
  {
    Cancel(b, a, c / b);
  }

  lemma ShareAdds(x: seq<real>, k: nat, hhi: real, total: real)
    requires k < |x| && total > 0.0 && Times(hhi, Times(total, total)) == Dot(x[..k], x[..k])
    ensures Times(hhi + Times(x[k] / total, x[k] / total), Times(total, total)) == Dot(x[..k + 1], x[..k + 1])
  {
    DotLast(x[..k + 1], x[..k + 1]);
    assert x[..k + 1][..k] == x[..k];
    hide *;
    ShareStep(hhi, total, Dot(x[..k], x[..k]), x[k]);
  }

  lemma {:induction false} NoLinks(counts: seq<nat>)
    ensures (forall i | 0 <= i < |counts| :: counts[i] == 0) ==> Total(counts) == 0
  {
    if counts != [] {
      NoLinks(counts[..|counts| - 1]);
    }
  }

  /** Adding up the squared shares one by one. */
  method Concentration(counts: seq<nat>) returns (hhi: real)
    ensures hhi == Herfindahl(counts)
    ensures (forall i | 0 <= i < |counts| :: counts[i] == 0) ==> hhi == 0.0
  {
    NoLinks(counts);
    ghost var x := AsReals(counts);
    TotalIsSum(counts);
    var totalLinks := Total(counts);
    var total := totalLinks as real;
    hhi := 0.0;
    if totalLinks > 0 {
      SquareIsPositive(total);
      assert Herfindahl(counts) == Dot(x, x) / Times(total, total);
      assert Times(0.0, Times(total, total)) == 0.0 && Dot(x[..0], x[..0]) == 0.0;
      hide Times, Dot, Herfindahl;
      for k := 0 to |counts|
        invariant Times(hhi, Times(total, total)) == Dot(x[..k], x[..k])
      {
        var share := counts[k] as real / total;
        ShareAdds(x, k, hhi, total);
        hhi := hhi + Times(share, share);
      }
      assert x[..|counts|] == x;
      DivideBack(hhi, Times(total, total), Dot(x, x));
    }
  }

  predicate Positive(x: seq<real>) {
    forall i | 0 <= i < |x| :: x[i] > 0.0
  }

  lemma SquareOfSumStep(s: real, q: real, a: real, s': real)
    requires s' == s + a && q <= Times(s, s) && s >= 0.0 && a > 0.0
    ensures q + Times(a, a) <= Times(s', s')
    ensures s > 0.0 ==> q + Times(a, a) < Times(s', s')
  {
    assert s' * s' == s * s + 2.0 * (s * a) + a * a;
    ProductNonNegative(s, a);
    if s > 0.0 { ProductPositive(s, a); }
  }

  lemma {:induction false} SquaresWithinSquare(x: seq<real>)
    requires Positive(x)
    ensures Sum(x) >= 0.0 && (x != [] ==> Sum(x) > 0.0)
    ensures Dot(x, x) <= Times(Sum(x), Sum(x))
    ensures |x| >= 2 ==> Dot(x, x) < Times(Sum(x), Sum(x))
  {
    if x != [] {
      hide Times;
      var pre, a := x[..|x| - 1], x[|x| - 1];
      SquaresWithinSquare(pre);
      DotLast(x, x);
      SumLast(x);
      SquareOfSumStep(Sum(pre), Dot(pre, pre), a, Sum(x));
    } else {
      assert Times(0.0, 0.0) == 0.0;
    }
  }

  lemma {:induction false} ZeroSquares(d: seq<real>)
    requires Dot(d, d) == 0.0
    ensures forall i | 0 <= i < |d| :: d[i] == 0.0
  {
    if d != [] {
      var pre, a := d[..|d| - 1], d[|d| - 1];
      DotLast(d, d);
      DotSelfNonNegative(pre);
      ZeroSquare(a, Dot(pre, pre));
      ZeroSquares(pre);
    }
  }

  lemma ZeroSquare(a: real, q: real)
    requires q >= 0.0 && q + Times(a, a) == 0.0
    ensures a == 0.0 && q == 0.0
  {
    if a != 0.0 { SquareIsPositive(a); } else { assert Times(0.0, 0.0) == 0.0; }
  }

  lemma {:induction false} ZerosDot(d: seq<real>)
    requires forall i | 0 <= i < |d| :: d[i] == 0.0
    ensures Dot(d, d) == 0.0
  {
    if d != [] {
      ZerosDot(d[..|d| - 1]);
    }
  }

  /** n times the squared deviations are n times the squares less the squared sum. */
  lemma DeviationSquares(x: seq<real>)
    requires x != []
    ensures var d := Minus(x, Mean(x));
            Times(|x| as real, Dot(d, d)) == Times(|x| as real, Dot(x, x)) - Times(Sum(x), Sum(x))
  {
    var m := Mean(x);
    var d := Minus(x, m);
    DeviationsCancel(x);
    MeanTimes(x);
    hide *;
    DotMinus(d, x, m);
    DotCommutes(d, x);
    DotMinus(x, x, m);
    SquaresFromMean(|x| as real, m, Sum(x), Dot(x, x), Dot(d, d), Sum(d));
  }

  lemma SquaresFromMean(n: real, m: real, s: real, q: real, dd: real, ds: real)
    requires ds == 0.0 && Times(n, m) == s && dd == q - Times(m, s) - Times(m, ds)
    ensures Times(n, dd) == Times(n, q) - Times(s, s)
  {
    assert n * (m * s) == (n * m) * s;
  }

  predicate Even(x: seq<real>) {
    forall i, j | 0 <= i < |x| && 0 <= j < |x| :: x[i] == x[j]
  }

  /** Cauchy-Schwarz with its case of equality. */
  lemma SquareOfSumIsReachedEvenly(x: seq<real>)
    requires x != []
    ensures Times(Sum(x), Sum(x)) == Times(|x| as real, Dot(x, x)) <==> Even(x)
  {
    var d := Minus(x, Mean(x));
    DeviationSquares(x);
    NonZeroFactor(|x| as real, Dot(d, d));
    if Dot(d, d) == 0.0 {
      ZeroSquares(d);
      forall i, j | 0 <= i < |x| && 0 <= j < |x| ensures x[i] == x[j] {
        assert d[i] == 0.0 && d[j] == 0.0;
      }
    }
    if Even(x) {
      MeanWithin(x, x[0], x[0]);
      ZerosDot(d);
    }
  }

  lemma NonZeroFactor(n: real, y: real)
    requires n > 0.0
    ensures Times(n, y) == 0.0 <==> y == 0.0
  {
    if n * y == 0.0 { Cancel(n, y, 0.0); }
  }

  /** Over n airports with links the index lies in [1/n, 1]; it is 1 exactly for a
      single airport and 1/n exactly when all have equally many links. */
  lemma HerfindahlIsBounded(counts: seq<nat>)
    requires counts != [] && forall i | 0 <= i < |counts| :: counts[i] > 0
    ensures 1.0 / |counts| as real <= Herfindahl(counts) <= 1.0
    ensures Herfindahl(counts) == 1.0 <==> |counts| == 1
    ensures Herfindahl(counts) == 1.0 / |counts| as real <==>
            forall i, j | 0 <= i < |counts| && 0 <= j < |counts| :: counts[i] == counts[j]
  {
    var x := AsReals(counts);
    EvenReals(counts);
    assert Positive(x);
    SquareIsPositive(1.0);
    hide Sum, Dot, Even, Positive, AsReals, Times;
    SquaresWithinSquare(x);
    SquareIsPositive(Sum(x));
    SumSquareBounds(x);
    RatioBounds(|x| as real, Dot(x, x), Times(Sum(x), Sum(x)));
  }

  lemma SumSquareBounds(x: seq<real>)
    requires x != [] && Positive(x)
    ensures Times(Sum(x), Sum(x)) <= Times(|x| as real, Dot(x, x))
    ensures Dot(x, x) == Times(Sum(x), Sum(x)) <==> |x| == 1
    ensures Times(Sum(x), Sum(x)) == Times(|x| as real, Dot(x, x)) <==> Even(x)
  {
    SquareOfSum(x);
    hide Dot, Sum;
    SquaresWithinSquare(x);
    SquareOfSumIsReachedEvenly(x);
    if |x| == 1 { SingleSquare(x); }
  }

  lemma EvenReals(counts: seq<nat>)
    ensures Even(AsReals(counts)) <==>
            forall i, j | 0 <= i < |counts| && 0 <= j < |counts| :: counts[i] == counts[j]
  {
    var x := AsReals(counts);
    if Even(x) {
      forall i, j | 0 <= i < |counts| && 0 <= j < |counts| ensures counts[i] == counts[j] {
        assert x[i] == x[j];
      }
    }
  }

  lemma SingleSquare(x: seq<real>)
    requires |x| == 1
    ensures Dot(x, x) == Times(Sum(x), Sum(x))
  {
    assert x[..0] == [];
  }

  lemma RatioBounds(n: real, q: real, ss: real)
    requires n >= 1.0 && ss > 0.0 && q <= ss && ss <= Times(n, q)
    ensures 1.0 / n <= q / ss <= 1.0
    ensures q / ss == 1.0 <==> q == ss
    ensures q / ss == 1.0 / n <==> ss == Times(n, q)
  {
    var r := q / ss;
    assert ss * r == q;
    QuotientAtMost(q, ss, 1.0);
    var u := 1.0 / n;
    assert n * u == 1.0;
    assert n * (ss * u) == ss * (n * u) == ss;
    PositiveFactor(n, q - ss * u);
    QuotientAtLeast(q, ss, u);
    if r == u { assert n * q == n * (ss * u); }
    if ss == n * q {
      Cancel(n, q, ss * u);
      Cancel(ss, r, u);
    }
  }

  // ----- monthly incidents -----

  datatype Severity = Medium | High | Critical

  datatype Incident = Incident(month: nat, complaints: nat, severity: Severity)

  function AtLeastOne(avg: real): real {
    if avg >= 1.0 then avg else 1.0
  }

  /** None for a month that is not reported. */
  function Grade(complaints: nat, avg: real): Option<Severity> {
    if complaints as real <= avg * 1.5 || complaints == 0 then None
    else
      var ratio := complaints as real / AtLeastOne(avg);
      Some(if ratio >= 3.0 then Critical else if ratio >= 2.0 then High else Medium)
  }

  function Reported(months: seq<nat>, avg: real): seq<Incident> {
    if months == [] then []
    else
      var n := |months| - 1;
      var g := Grade(months[n], avg);
      Reported(months[..n], avg) + if g.Some? then [Incident(n, months[n], g.value)] else []
  }

  /** The complaints per month of one airport, turned into incidents in month order. */
  method MonthlyIncidents(months: seq<nat>) returns (result: seq<Incident>)
    ensures result == Incidents(months)
    ensures forall i :: i in result <==> IsIncident(months, i)
    ensures forall j, k | 0 <= j < k < |result| :: result[j].month < result[k].month
  {
    result := [];
    if months == [] {
      AllIncidents(months);
      return;
    }
    TotalIsSum(months);
    var avg := Total(months) as real / |months| as real;
    var threshold := avg * 1.5;
    for month := 0 to |months|
      invariant result == Reported(months[..month], avg)
    {
      assert months[..month + 1][..month] == months[..month];
      var complaints := months[month];
      if complaints as real <= threshold || complaints == 0 {
        continue;
      }
      var ratio := complaints as real / AtLeastOne(avg);
      var severity := Medium;
      if ratio >= 3.0 {
        severity := Critical;
      } else if ratio >= 2.0 {
        severity := High;
      }
      result := result + [Incident(month, complaints, severity)];
    }
    assert months[..|months|] == months;
    hide *;
    AllIncidents(months);
  }

  lemma AllIncidents(months: seq<nat>)
    ensures var r := Incidents(months);
            && (forall i :: i in r <==> IsIncident(months, i))
            && (forall j, k | 0 <= j < k < |r| :: r[j].month < r[k].month)
  {
    hide *;
    IncidentsAreExact(months, Incident(0, 0, Medium));
    forall i ensures i in Incidents(months) <==> IsIncident(months, i) {
      IncidentsAreExact(months, i);
    }
  }

  function Incidents(months: seq<nat>): seq<Incident> {
    if months == [] then [] else Reported(months, Mean(AsReals(months)))
  }

  function CriticalCount(r: seq<Incident>): nat {
    if r == [] then 0
    else CriticalCount(r[..|r| - 1]) + if r[|r| - 1].severity == Critical then 1 else 0
  }

  function CountAtLeast(x: seq<real>, t: real): nat {
    if x == [] then 0 else CountAtLeast(x[..|x| - 1], t) + if x[|x| - 1] >= t then 1 else 0
  }

  /** The entries of at least `t` take up `t` each of the sum. */
  lemma {:induction false} MarkovAtLeast(x: seq<real>, t: real)
    requires NonNegative(x) && t >= 0.0
    ensures Sum(x) >= Times(CountAtLeast(x, t) as real, t)
  {
    if x != [] {
      hide Times;
      var pre := x[..|x| - 1];
      MarkovAtLeast(pre, t);
      SumLast(x);
      Successor(CountAtLeast(pre, t), t);
    } else {
      assert Times(0.0, t) == 0.0;
    }
  }

  /** The test for zero complaints in the filter is never the one that decides. */
  lemma GradeIsAThreshold(complaints: nat, avg: real)
    requires avg >= 0.0
    ensures Grade(complaints, avg).Some? <==> complaints as real > avg * 1.5
    ensures Grade(complaints, avg) == Some(Critical) <==> complaints as real >= 3.0 * AtLeastOne(avg)
  {
    var b, c := AtLeastOne(avg), complaints as real;
    var ratio := c / b;
    assert ratio * b == c;
    if ratio >= 3.0 { ProductNonNegative(ratio - 3.0, b); }
    if c >= 3.0 * b { QuotientAtLeast(c, b, 3.0); }
  }

  lemma GradeHigh(complaints: nat, avg: real)
    requires avg >= 0.0
    ensures Grade(complaints, avg) == Some(High) <==>
              && complaints as real > avg * 1.5
              && 2.0 * AtLeastOne(avg) <= complaints as real < 3.0 * AtLeastOne(avg)
  {
    var b, c := AtLeastOne(avg), complaints as real;
    var ratio := c / b;
    assert ratio * b == c;
    GradeIsAThreshold(complaints, avg);
    if ratio >= 2.0 { ProductNonNegative(ratio - 2.0, b); }
    if c >= 2.0 * b { QuotientAtLeast(c, b, 2.0); }
  }

  /** An incident in whole numbers, by the number of months and the total. */
  predicate IsIncident(months: seq<nat>, i: Incident) {
    var n, s := |months|, Total(months);
    var most := if s > n then s else n;
    && i.month < n && i.complaints == months[i.month]
    && 2 * (n * i.complaints) > 3 * s
    && i.severity == if n * i.complaints >= 3 * most then Critical
                     else if n * i.complaints >= 2 * most then High else Medium
  }

  lemma Scaled(n: real, a: real, b: real)
    requires n > 0.0
    ensures a > b <==> Times(n, a) > Times(n, b)
    ensures a >= b <==> Times(n, a) >= Times(n, b)
  {
    if a > b { ProductPositive(n, a - b); }
    if b > a { ProductPositive(n, b - a); }
  }

  lemma ScaledMost(n: real, avg: real, s: real)
    requires n > 0.0 && Times(n, avg) == s
    ensures Times(n, AtLeastOne(avg)) == if s > n then s else n
  {
    Scaled(n, avg, 1.0);
  }

  lemma TimesScales(n: real, k: real, x: real)
    ensures Times(n, k * x) == k * Times(n, x)
  {
  }

  lemma GradeInNumbers(n: nat, c: nat, s: nat, avg: real)
    requires n > 0 && avg >= 0.0 && Times(n as real, avg) == s as real
    ensures var most := if s > n then s else n;
            && (Grade(c, avg).Some? <==> 2 * (n * c) > 3 * s)
            && (Grade(c, avg).Some? ==>
                Grade(c, avg).value == if n * c >= 3 * most then Critical else if n * c >= 2 * most then High
                                       else Medium)
  {
    var r, x := n as real, c as real;
    GradeIsAThreshold(c, avg);
    GradeHigh(c, avg);
    ScaledMost(r, avg, s as real);
    Scaled(r, x, avg * 1.5);
    Scaled(r, x, 3.0 * AtLeastOne(avg));
    Scaled(r, x, 2.0 * AtLeastOne(avg));
    TimesScales(r, 1.5, avg);
    TimesScales(r, 3.0, AtLeastOne(avg));
    TimesScales(r, 2.0, AtLeastOne(avg));
    assert Times(r, x) == (n * c) as real;
    hide Times, Grade, AtLeastOne;
  }

  lemma {:induction false} ReportedAreGraded(months: seq<nat>, avg: real, i: Incident)
    ensures i in Reported(months, avg) <==>
              i.month < |months| && i.complaints == months[i.month] && Grade(i.complaints, avg) == Some(i.severity)
  {
    if months != [] {
      hide Grade;
      var n := |months| - 1;
      ReportedAreGraded(months[..n], avg, i);
    }
  }

  lemma {:induction false} ReportedInOrder(months: seq<nat>, avg: real)
    ensures forall j, k | 0 <= j < k < |Reported(months, avg)| ::
              Reported(months, avg)[j].month < Reported(months, avg)[k].month
    ensures forall k | 0 <= k < |Reported(months, avg)| :: Reported(months, avg)[k].month < |months|
  {
    if months != [] {
      hide Grade;
      ReportedInOrder(months[..|months| - 1], avg);
    }
  }

  /** The incidents are just the months with more than one and a half times the average,
      in order. */
  lemma IncidentsAreExact(months: seq<nat>, i: Incident)
    ensures i in Incidents(months) <==> IsIncident(months, i)
    ensures forall j, k | 0 <= j < k < |Incidents(months)| :: Incidents(months)[j].month < Incidents(months)[k].month
  {
    if months != [] {
      var x, avg := AsReals(months), Mean(AsReals(months));
      AverageTimes(months);
      TotalIsSum(months);
      assert Incidents(months) == Reported(months, avg);
      hide Times, Grade, Reported, Incidents, Sum, Mean, Total;
      ReportedInOrder(months, avg);
      ReportedAreGraded(months, avg, i);
      GradeInNumbers(|months|, i.complaints, Total(months), avg);
    }
  }

  lemma {:induction false} ReportedCounts(months: seq<nat>, avg: real)
    requires avg >= 0.0
    ensures |Reported(months, avg)| == CountAbove(AsReals(months), avg * 1.5)
    ensures CriticalCount(Reported(months, avg)) == CountAtLeast(AsReals(months), 3.0 * AtLeastOne(avg))
  {
    if months != [] {
      hide Grade;
      var n := |months| - 1;
      var pre := Reported(months[..n], avg);
      ReportedCounts(months[..n], avg);
      GradeIsAThreshold(months[n], avg);
      assert AsReals(months)[..n] == AsReals(months[..n]);
      var g := Grade(months[n], avg);
      if g.Some? {
        assert (pre + [Incident(n, months[n], g.value)])[..|pre|] == pre;
      } else {
        assert Reported(months, avg) == pre;
      }
    }
  }

  lemma AverageTimes(months: seq<nat>)
    requires months != []
    ensures var avg, x := Mean(AsReals(months)), AsReals(months);
            avg >= 0.0 && Times(|x| as real, avg) == Sum(x)
  {
    var x := AsReals(months);
    MeanTimes(x);
    SumNonNegative(x);
    QuotientAtLeast(Sum(x), |x| as real, 0.0);
  }

  lemma FewerThanTwoThirds(n: real, k: real, avg: real, s: real)
    requires avg >= 0.0 && Times(n, avg) == s && s > Times(k, avg * 1.5)
    ensures 3.0 * k < 2.0 * n
  {
    assert avg * (n - 1.5 * k) > 0.0;
    if n - 1.5 * k <= 0.0 { ProductNonNegative(avg, -(n - 1.5 * k)); }
  }

  lemma AtMostOneThird(n: real, k: real, avg: real, s: real)
    requires avg > 0.0 && Times(n, avg) == s && s >= Times(k, 3.0 * AtLeastOne(avg)) && k >= 0.0
    ensures 3.0 * k <= n
  {
    ProductNonNegative(k, AtLeastOne(avg) - avg);
    assert k * (3.0 * AtLeastOne(avg)) == 3.0 * (k * (AtLeastOne(avg) - avg)) + 3.0 * (k * avg);
    assert avg * (n - 3.0 * k) >= 0.0;
    PositiveFactor(avg, n - 3.0 * k);
  }

  lemma FlaggedAreFew(x: seq<real>, avg: real)
    requires x != [] && NonNegative(x) && avg >= 0.0 && Times(|x| as real, avg) == Sum(x)
    ensures 3 * CountAbove(x, avg * 1.5) < 2 * |x|
  {
    var flagged := CountAbove(x, avg * 1.5);
    hide CountAbove, Sum, Times;
    if flagged > 0 {
      Markov(x, avg * 1.5);
      FewerThanTwoThirds(|x| as real, flagged as real, avg, Sum(x));
    }
  }

  lemma CriticalAreFew(x: seq<real>, avg: real)
    requires x != [] && NonNegative(x) && avg >= 0.0 && Times(|x| as real, avg) == Sum(x)
    ensures 3 * CountAtLeast(x, 3.0 * AtLeastOne(avg)) <= |x|
  {
    var k, t := CountAtLeast(x, 3.0 * AtLeastOne(avg)), 3.0 * AtLeastOne(avg);
    assert t >= 3.0;
    hide CountAtLeast, Sum, Times, AtLeastOne;
    if k > 0 {
      MarkovAtLeast(x, t);
      SomethingPerOne(k, t);
      PositiveAverage(|x| as real, avg, Sum(x));
      AtMostOneThird(|x| as real, k as real, avg, Sum(x));
    }
  }

  lemma SomethingPerOne(k: nat, t: real)
    requires k > 0 && t > 0.0
    ensures Times(k as real, t) > 0.0
  {
    ProductPositive(k as real, t);
  }

  lemma PositiveAverage(n: real, avg: real, s: real)
    requires Times(n, avg) == s && s > 0.0 && avg >= 0.0
    ensures avg > 0.0
  {
    assert avg == 0.0 ==> n * avg == 0.0;
  }

  /** Fewer than two thirds of an airport's months are reported, and at most one third
      as critical. */
  lemma IncidentsAreFew(months: seq<nat>)
    requires months != []
    ensures 3 * |Incidents(months)| < 2 * |months|
    ensures 3 * CriticalCount(Incidents(months)) <= |months|
  {
    var x, avg := AsReals(months), Mean(AsReals(months));
    AverageTimes(months);
    assert NonNegative(x) && Incidents(months) == Reported(months, avg);
    hide *;
    ReportedCounts(months, avg);
    FlaggedAreFew(x, avg);
    CriticalAreFew(x, avg);
  }

  // ----- critical hubs -----

  predicate More(a: nat, b: nat) { a > b }

  /** sort(key=count, reverse=True). */
  function SortDescending(s: seq<nat>): seq<nat> {
    Sort(More, s)
  }

  predicate Descending(s: seq<nat>) {
    forall i, j | 0 <= i < j < |s| :: s[i] >= s[j]
  }

  function Reaching(s: seq<nat>, t: nat): nat {
    if s == [] then 0 else Reaching(s[..|s| - 1], t) + if s[|s| - 1] >= t then 1 else 0
  }

  lemma ReachingExtend(s: seq<nat>, x: nat, t: nat)
    ensures Reaching(s + [x], t) == Reaching(s, t) + if x >= t then 1 else 0
  {
    assert (s + [x])[..|s|] == s;
  }

  lemma {:induction false} InsertReaches(s: seq<nat>, x: nat, t: nat)
    ensures Reaching(Insert(More, s, x), t) == Reaching(s, t) + if x >= t then 1 else 0
  {
    if s == [] || !More(x, s[|s| - 1]) {
      ReachingExtend(s, x, t);
    } else {
      var pre, last := s[..|s| - 1], s[|s| - 1];
      InsertReaches(pre, x, t);
      ReachingExtend(Insert(More, pre, x), last, t);
    }
  }

  lemma {:induction false} SortReaches(s: seq<nat>, t: nat)
    ensures Reaching(Sort(More, s), t) == Reaching(s, t)
  {
    if s != [] {
      SortReaches(s[..|s| - 1], t);
      InsertReaches(Sort(More, s[..|s| - 1]), s[|s| - 1], t);
    }
  }

  lemma SortDescendingSorts(s: seq<nat>)
    ensures var r := SortDescending(s); Descending(r) && multiset(r) == multiset(s) && |r| == |s|
    ensures forall t: nat :: Reaching(SortDescending(s), t) == Reaching(s, t)
  {
    SortKeeps(More, s);
    SortOrders(More, s);
    forall t: nat ensures Reaching(SortDescending(s), t) == Reaching(s, t) {
      SortReaches(s, t);
    }
  }

  function TopTenth(n: nat): nat {
    if n / 10 >= 1 then n / 10 else 1
  }

  function Threshold(counts: seq<nat>): nat {
    if counts == [] then 0
    else
      SortDescendingSorts(counts);
      SortDescending(counts)[TopTenth(|counts|) - 1]
  }

  function Max1(t: nat): nat {
    if t == 0 then 1 else t
  }

  lemma ReachingStep(s: seq<nat>, k: nat, t: nat)
    requires k < |s|
    ensures Reaching(s[..k + 1], t) == Reaching(s[..k], t) + if s[k] >= t then 1 else 0
    ensures Reaching(s[..0], t) == 0 && s[..|s|] == s
  {
    assert s[..k + 1][..k] == s[..k];
  }

  method CountReaching(sorted: seq<nat>, threshold: nat) returns (critical: nat)
    ensures critical == Reaching(sorted, Max1(threshold))
  {
    critical := 0;
    assert Reaching(sorted[..0], Max1(threshold)) == 0;
    hide Reaching;
    for k := 0 to |sorted|
      invariant critical == Reaching(sorted[..k], Max1(threshold))
    {
      ReachingStep(sorted, k, Max1(threshold));
      if sorted[k] >= threshold && sorted[k] > 0 {
        critical := critical + 1;
      }
    }
    assert sorted[..|sorted|] == sorted;
  }

  /** The hubs with complaints that reach the count of the hub at the top-tenth place;
      the order of the list does not count. */
  method CriticalHubs(counts: seq<nat>) returns (critical: nat)
    ensures critical == Reaching(counts, Max1(Threshold(counts)))
    // a tenth of the hubs, but at least one, is critical where that many have complaints
    ensures counts != [] ==>
              var tenth := if |counts| < 10 then 1 else |counts| / 10;
              && (critical >= tenth <==> Reaching(counts, 1) >= tenth)
              && exists t: nat :: t > 0 && critical == Reaching(counts, t) && Reaching(counts, t + 1) < tenth
    ensures counts == [] ==> critical == 0
  {
    SortDescendingSorts(counts);
    var sorted := SortDescending(counts);
    var threshold := if sorted == [] then 0 else sorted[TopTenth(|sorted|) - 1];
    assert threshold == Threshold(counts);
    hide SortDescending, Descending, Reaching, Threshold;
    critical := CountReaching(sorted, threshold);
    if counts != [] {
      TopTenthIsCritical(counts);
      ReachingFalls(counts, Threshold(counts) + 1, Max1(Threshold(counts)) + 1);
      assert critical == Reaching(counts, Max1(Threshold(counts)));
    } else {
      NoneReach(Max1(Threshold(counts)));
    }
  }

  lemma NoneReach(t: nat)
    ensures Reaching([], t) == 0
  {
  }

  lemma {:induction false} RankCounts(s: seq<nat>, j: nat)
    requires Descending(s) && j < |s|
    ensures Reaching(s, s[j]) >= j + 1 && Reaching(s, s[j] + 1) <= j
    decreases |s|
  {
    var pre := s[..|s| - 1];
    if j < |pre| {
      RankCounts(pre, j);
    } else {
      AllReach(pre, s[j]);
      ReachingIsBounded(pre, s[j] + 1);
    }
  }

  lemma {:induction false} AllReach(s: seq<nat>, t: nat)
    requires forall i | 0 <= i < |s| :: s[i] >= t
    ensures Reaching(s, t) == |s|
  {
    if s != [] {
      AllReach(s[..|s| - 1], t);
    }
  }

  lemma {:induction false} ReachingIsBounded(s: seq<nat>, t: nat)
    ensures Reaching(s, t) <= |s|
  {
    if s != [] {
      ReachingIsBounded(s[..|s| - 1], t);
    }
  }

  lemma {:induction false} ReachingFalls(s: seq<nat>, t: nat, u: nat)
    requires t <= u
    ensures Reaching(s, u) <= Reaching(s, t)
  {
    if s != [] {
      ReachingFalls(s[..|s| - 1], t, u);
    }
  }

  /** A tenth of the hubs (and at least one) are critical exactly when that many have
      any complaint; fewer than that exceed the threshold. */
  lemma TopTenthIsCritical(counts: seq<nat>)
    requires counts != []
    ensures var k, t := if |counts| < 10 then 1 else |counts| / 10, Threshold(counts);
            && Reaching(counts, t + 1) < k
            && (Reaching(counts, Max1(t)) >= k <==> Reaching(counts, 1) >= k)
  {
    hide Reaching, SortDescending, Descending;
    SortDescendingSorts(counts);
    var k, t := TopTenth(|counts|), Threshold(counts);
    RankCounts(SortDescending(counts), k - 1);
    assert Reaching(SortDescending(counts), t) == Reaching(counts, t);
    assert Reaching(SortDescending(counts), t + 1) == Reaching(counts, t + 1);
    ReachingFalls(counts, 1, Max1(t));
  }
}
