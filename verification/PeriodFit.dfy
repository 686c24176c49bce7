/** Fitting a handover period to event intervals on a lattice
    (bin/redhat_monitor/redhat_auto_monitor.py). */
module PeriodFit {
  import opened Statistics

  /** An interval explained as `k` periods up to a residual. */
  datatype Hit = Hit(dt: real, residual: real, k: int)

  datatype Fit = Fit(
    period: real, score: real, fitRatio: real, oneCycleRatio: real,
    medianResidual: real, p95: real, inliers: nat, intervals: nat)

  /** Python raises ZeroDivisionError where a complexity penalty of zero divides. */
  datatype Outcome = NoFit | ZeroDivision | Fitted(fit: Fit)

  datatype Search = Search(tolerance: real, maxMultiple: int, skipPenalty: real)

  // --------------------------------------------------------------------- specification

  /** `lattice_residual` for a positive period; any other has an infinite residual. */
  function Lattice(dt: real, period: real): (h: Hit)
    requires period > 0.0
    ensures h.k >= 1 && h.residual >= 0.0
  {
    var n := Round(dt / period);
    var k := if n < 1 then 1 else n;
    Hit(dt, Abs(dt - k as real * period), k)
  }

  predicate Explains(dt: real, period: real, s: Search) {
    period > 0.0 && Lattice(dt, period).k <= s.maxMultiple && Lattice(dt, period).residual <= s.tolerance
  }

  predicate WithinTolerance(hs: seq<Hit>, tolerance: real) {
    forall i :: 0 <= i < |hs| ==> hs[i].k >= 1 && 0.0 <= hs[i].residual <= tolerance
  }

  /** The explained ones among the first `n` intervals. */
  function Hits(dts: seq<real>, n: nat, period: real, s: Search): (hs: seq<Hit>)
    requires n <= |dts|
    ensures |hs| <= n && (hs != [] ==> period > 0.0)
    ensures WithinTolerance(hs, s.tolerance)
  {
    if n == 0 then []
    else Hits(dts, n - 1, period, s) + if Explains(dts[n - 1], period, s) then [Lattice(dts[n - 1], period)] else []
  }

  function SumK(hs: seq<Hit>, n: nat): int
    requires n <= |hs|
  {
    if n == 0 then 0 else SumK(hs, n - 1) + hs[n - 1].k
  }

  function OneCycles(hs: seq<Hit>, n: nat): (r: nat)
    requires n <= |hs|
    ensures r <= n
  {
    if n == 0 then 0 else OneCycles(hs, n - 1) + if hs[n - 1].k == 1 then 1 else 0
  }

  function Residuals(hs: seq<Hit>): seq<real> {
    seq(|hs|, i requires 0 <= i < |hs| => hs[i].residual)
  }

  function Normalized(hs: seq<Hit>): seq<real>
    requires forall i :: 0 <= i < |hs| ==> hs[i].k >= 1
  {
    seq(|hs|, i requires 0 <= i < |hs| => hs[i].dt / hs[i].k as real)
  }

  function Ratio(a: int, b: int): real
    requires b > 0
  {
    a as real / b as real
  }

  /** One plus the penalty for explaining intervals by more than one period on average. */
  function Complexity(hs: seq<Hit>, penalty: real): real
    requires hs != []
  {
    var excess := Ratio(SumK(hs, |hs|), |hs|) - 1.0;
    1.0 + penalty * if excess < 0.0 then 0.0 else excess
  }

  function Grade(period: real, hs: seq<Hit>, n: nat, penalty: real): Outcome
    requires hs != [] && |hs| <= n
  {
    var c := Complexity(hs, penalty);
    if c == 0.0 then ZeroDivision
    else
      Fitted(Fit(period, Ratio(|hs|, n) / c, Ratio(|hs|, n), Ratio(OneCycles(hs, |hs|), |hs|),
                 Median(Residuals(hs)), Percentile(Residuals(hs), 95.0), |hs|, n))
  }

  /** The median normalised interval, the period of the refinement. */
  function Refined(hs: seq<Hit>): real
    requires hs != [] && forall i :: 0 <= i < |hs| ==> hs[i].k >= 1
  {
    Median(Normalized(hs))
  }

  /** The refinement is a real change and still explains something. */
  predicate Refines(dts: seq<real>, period: real, s: Search) {
    var hs := Hits(dts, |dts|, period, s);
    hs != [] && Abs(Refined(hs) - period) > 0.000000001 && Hits(dts, |dts|, Refined(hs), s) != []
  }

  /** The period and the hits a fit ends up with. */
  function Used(dts: seq<real>, period: real, s: Search): (u: (real, seq<Hit>))
    ensures |u.1| <= |dts| && WithinTolerance(u.1, s.tolerance) && (u.1 != [] ==> u.0 > 0.0)
  {
    var hs := Hits(dts, |dts|, period, s);
    if Refines(dts, period, s) then (Refined(hs), Hits(dts, |dts|, Refined(hs), s)) else (period, hs)
  }

  /** `score_period`: a fit, refined once around the median normalised interval. */
  function Score(dts: seq<real>, period: real, s: Search): Outcome {
    var hs := Hits(dts, |dts|, period, s);
    if hs == [] then NoFit
    else if Complexity(hs, s.skipPenalty) == 0.0 then ZeroDivision
    else
      var (refined, used) := Used(dts, period, s);
      Grade(refined, used, |dts|, s.skipPenalty)
  }

  // ------------------------------------------------------------------------- the bounds

  lemma {:induction false} SumKAtLeast(hs: seq<Hit>, n: nat)
    requires n <= |hs| && forall i :: 0 <= i < |hs| ==> hs[i].k >= 1
    ensures SumK(hs, n) >= n
  {
    if n > 0 {
      SumKAtLeast(hs, n - 1);
    }
  }

  lemma RatioBounds(a: int, b: int)
    requires b > 0
    ensures a >= 0 ==> Ratio(a, b) >= 0.0
    ensures a > 0 ==> Ratio(a, b) > 0.0
    ensures a >= b ==> Ratio(a, b) >= 1.0
    ensures a <= b ==> Ratio(a, b) <= 1.0
    ensures a > b ==> Ratio(a, b) > 1.0
  {
    var q, d := Ratio(a, b), b as real;
    assert q * d == a as real;
    Scaling(d, q, q - 1.0, a as real);
  }

  lemma QuotientExactly(r: real, c: real)
    requires r > 0.0 && c != 0.0
    ensures 0.0 < r / c <= r <==> c >= 1.0
  {
    FactorExactly(r / c, c, r);
  }

  lemma FactorExactly(q: real, c: real, r: real)
    requires q * c == r && r > 0.0
    ensures 0.0 < q <= r <==> c >= 1.0
  {
    if q > 0.0 {
      Scaling(q, c, c - 1.0, r);
    } else {
      SignOfFactor(q, c);
    }
  }

  lemma Scaling(q: real, c: real, e: real, r: real)
    requires q > 0.0 && c == 1.0 + e && q * c == r
    ensures r >= q <==> c >= 1.0
  {
    assert q * c == q + q * e;
    if e < 0.0 { assert q * e < 0.0; } else { assert q * e >= 0.0; }
  }

  lemma SignOfFactor(q: real, c: real)
    requires q <= 0.0 && q * c > 0.0
    ensures c < 0.0
  {
  }

  lemma PenaltyExactly(penalty: real, excess: real)
    requires excess >= 0.0
    ensures 1.0 + penalty * excess >= 1.0 <==> penalty >= 0.0 || excess == 0.0
  {
    if penalty < 0.0 && excess > 0.0 { assert penalty * excess < 0.0; }
    if penalty >= 0.0 { assert penalty * excess >= 0.0; }
  }

  lemma ScoreRule(r: real, penalty: real, excess: real, c: real)
    requires r > 0.0 && excess >= 0.0 && c == 1.0 + penalty * excess
    ensures (c != 0.0 && 0.0 < r / c <= r) <==> penalty >= 0.0 || excess == 0.0
  {
    PenaltyExactly(penalty, excess);
    if c != 0.0 { QuotientExactly(r, c); }
  }

  lemma GradeBoundedExactly(period: real, hs: seq<Hit>, n: nat, penalty: real)
    requires hs != [] && |hs| <= n && forall i :: 0 <= i < |hs| ==> hs[i].k >= 1
    ensures var g := Grade(period, hs, n, penalty);
            (g.Fitted? && 0.0 < g.fit.score <= g.fit.fitRatio) <==> penalty >= 0.0 || SumK(hs, |hs|) == |hs|
  {
    SumKAtLeast(hs, |hs|);
    RatioBounds(SumK(hs, |hs|), |hs|);
    RatioBounds(|hs|, n);
    var excess := Ratio(SumK(hs, |hs|), |hs|) - 1.0;
    assert excess == 0.0 <==> SumK(hs, |hs|) == |hs|;
    ScoreRule(Ratio(|hs|, n), penalty, excess, Complexity(hs, penalty));
  }

  /** Every interval is explained as a single period. */
  predicate SingleCycles(hs: seq<Hit>) {
    forall i :: 0 <= i < |hs| ==> hs[i].k == 1
  }

  lemma {:induction false} SingleCyclesSum(hs: seq<Hit>, n: nat)
    requires n <= |hs| && forall i :: 0 <= i < |hs| ==> hs[i].k >= 1
    ensures SumK(hs, n) == n <==> forall i :: 0 <= i < n ==> hs[i].k == 1
  {
    if n > 0 {
      SingleCyclesSum(hs, n - 1);
      SumKAtLeast(hs, n - 1);
    }
  }

  /** Where something is explained at all, the score is positive and at most the fit ratio if
      and only if the first pass divides and the skip penalty is not negative or the intervals
      used in the end all span a single period.  The command line accepts any penalty. */
  lemma ScoreBoundedExactly(dts: seq<real>, period: real, s: Search)
    requires Hits(dts, |dts|, period, s) != []
    ensures var f := Score(dts, period, s);
            (f.Fitted? && 0.0 < f.fit.score <= f.fit.fitRatio) <==>
              && Complexity(Hits(dts, |dts|, period, s), s.skipPenalty) != 0.0
              && (s.skipPenalty >= 0.0 || SingleCycles(Used(dts, period, s).1))
  {
    var (refined, used) := Used(dts, period, s);
    assert used != [];
    hide Refines, Used, Refined, Grade, SumK, Complexity;
    GradeBoundedExactly(refined, used, |dts|, s.skipPenalty);
    SingleCyclesSum(used, |used|);
  }

  ghost predicate Bounded(f: Fit, tolerance: real) {
    && 0.0 < f.score <= f.fitRatio <= 1.0 && 0.0 <= f.oneCycleRatio <= 1.0
    && 0.0 <= f.medianResidual <= tolerance && 0.0 <= f.p95 <= tolerance
    && f.period > 0.0 && 0 < f.inliers <= f.intervals
  }

  lemma GradeBounded(period: real, hs: seq<Hit>, n: nat, penalty: real, tolerance: real)
    requires hs != [] && |hs| <= n && period > 0.0 && penalty >= 0.0
    requires WithinTolerance(hs, tolerance)
    ensures Grade(period, hs, n, penalty).Fitted? && Bounded(Grade(period, hs, n, penalty).fit, tolerance)
  {
    GradeBoundedExactly(period, hs, n, penalty);
    RatioBounds(|hs|, n);
    RatioBounds(OneCycles(hs, |hs|), |hs|);
    var rs := Residuals(hs);
    MedianWithin(rs, 0.0, tolerance);
    PercentileWithin(rs, 95.0, 0.0, tolerance);
  }

  /** With a penalty that is not negative every fit has 0 < score <= fit ratio <= 1, a
      positive period, and median and 95th percentile residuals within the tolerance. */
  lemma FitIsBounded(dts: seq<real>, period: real, s: Search)
    requires s.skipPenalty >= 0.0
    ensures !Score(dts, period, s).ZeroDivision?
    ensures Score(dts, period, s).Fitted? ==> Bounded(Score(dts, period, s).fit, s.tolerance)
  {
    var hs := Hits(dts, |dts|, period, s);
    if hs != [] {
      GradeBounded(if period > 0.0 then period else 1.0, hs, |dts|, s.skipPenalty, s.tolerance);
      var (refined, used) := Used(dts, period, s);
      hide Refines, Refined;
      GradeBounded(refined, used, |dts|, s.skipPenalty, s.tolerance);
    }
  }

  /** Whatever the penalty, a fit has a positive period and its other bounds. */
  lemma FitIsSound(dts: seq<real>, period: real, s: Search)
    ensures var f := Score(dts, period, s);
            f.Fitted? ==>
              && f.fit.period > 0.0 && 0.0 < f.fit.fitRatio <= 1.0 && 0.0 <= f.fit.oneCycleRatio <= 1.0
              && 0.0 <= f.fit.medianResidual <= s.tolerance && 0.0 <= f.fit.p95 <= s.tolerance
  {
    if Hits(dts, |dts|, period, s) != [] {
      var (refined, used) := Used(dts, period, s);
      hide Refines, Refined;
      RatioBounds(|used|, |dts|);
      RatioBounds(OneCycles(used, |used|), |used|);
      MedianWithin(Residuals(used), 0.0, s.tolerance);
      PercentileWithin(Residuals(used), 95.0, 0.0, s.tolerance);
    }
  }

  /** A negative penalty can push the score of two exact double intervals to twice the fit
      ratio. */
  lemma NegativePenaltyBreaksBound()
    ensures var f := Score([2.0, 2.0], 1.0, Search(0.0, 6, -0.5));
            f.Fitted? && f.fit.fitRatio == 1.0 && f.fit.score == 2.0
  {
    var dts, ns, s := [2.0, 2.0], [2, 2], Search(0.0, 6, -0.5);
    MultiplesExact(dts, ns, 1.0, s);
    TwoHits(dts, ns, s);
  }

  lemma TwoHits(dts: seq<real>, ns: seq<int>, s: Search)
    requires dts == [2.0, 2.0] && ns == [2, 2] && s == Search(0.0, 6, -0.5) && Exact(dts, ns, 1.0, s)
    ensures var f := Score(dts, 1.0, s); f.Fitted? && f.fit.fitRatio == 1.0 && f.fit.score == 2.0
  {
    var hs := Hits(dts, 2, 1.0, s);
    ExactHits(dts, ns, 1.0, s, 2);
    ExactNormalized(dts, ns, 1.0, s, hs);
    assert Used(dts, 1.0, s) == (1.0, hs);
    assert SumK(hs, 0) == 0 && SumK(hs, 1) == 2 && SumK(hs, 2) == 4;
    assert Ratio(4, 2) == 2.0 && Ratio(2, 2) == 1.0;
    hide Hits, Used, Refines, Median, Percentile;
    assert Complexity(hs, -0.5) == 0.5;
  }

  // ---------------------------------------------------------------- divisors of a period

  /** The intervals are whole multiples `ns` of `q`, each within the search range. */
  ghost predicate Multiples(dts: seq<real>, ns: seq<int>, q: real, s: Search) {
    && |ns| == |dts| && q > 0.0 && s.tolerance >= 0.0
    && forall i :: 0 <= i < |dts| ==> 1 <= ns[i] <= s.maxMultiple && dts[i] == ns[i] as real * q
  }

  lemma Cancel(x: real, q: real)
    requires q != 0.0
    ensures x * q / q == x
  {
  }

  lemma MultipleExact(n: int, q: real, dt: real)
    requires q > 0.0 && n >= 1 && dt == n as real * q
    ensures Lattice(dt, q) == Hit(dt, 0.0, n) && dt / n as real == q
  {
    Cancel(n as real, q);
    Cancel(q, n as real);
    assert dt / q == n as real;
    RoundExact(n);
  }

  /** The same in terms of what the search finds. */
  ghost predicate Exact(dts: seq<real>, ns: seq<int>, q: real, s: Search) {
    && |ns| == |dts| && q > 0.0 && s.tolerance >= 0.0
    && (forall i :: 0 <= i < |dts| ==> 1 <= ns[i] <= s.maxMultiple && Lattice(dts[i], q) == Hit(dts[i], 0.0, ns[i]))
    && (forall i :: 0 <= i < |dts| ==> dts[i] / ns[i] as real == q)
  }

  lemma MultiplesExact(dts: seq<real>, ns: seq<int>, q: real, s: Search)
    requires Multiples(dts, ns, q, s)
    ensures Exact(dts, ns, q, s)
  {
    forall i | 0 <= i < |dts| ensures Lattice(dts[i], q) == Hit(dts[i], 0.0, ns[i]) && dts[i] / ns[i] as real == q {
      MultipleExact(ns[i], q, dts[i]);
    }
  }

  lemma {:induction false} ExactHits(dts: seq<real>, ns: seq<int>, q: real, s: Search, n: nat)
    requires Exact(dts, ns, q, s) && n <= |dts|
    ensures |Hits(dts, n, q, s)| == n
    ensures forall i :: 0 <= i < n ==> Hits(dts, n, q, s)[i] == Hit(dts[i], 0.0, ns[i])
  {
    if n > 0 { ExactHits(dts, ns, q, s, n - 1); }
  }

  function Sum(ns: seq<int>, n: nat): int
    requires n <= |ns|
  {
    if n == 0 then 0 else Sum(ns, n - 1) + ns[n - 1]
  }

  lemma {:induction false} SumOfHits(hs: seq<Hit>, ns: seq<int>, n: nat)
    requires n <= |hs| == |ns| && forall i :: 0 <= i < |hs| ==> hs[i].k == ns[i]
    ensures SumK(hs, n) == Sum(ns, n)
  {
    if n > 0 { SumOfHits(hs, ns, n - 1); }
  }

  lemma ExactNormalized(dts: seq<real>, ns: seq<int>, q: real, s: Search, hs: seq<Hit>)
    requires Exact(dts, ns, q, s) && |hs| == |dts| > 0
    requires forall i :: 0 <= i < |hs| ==> hs[i] == Hit(dts[i], 0.0, ns[i])
    ensures (forall i :: 0 <= i < |hs| ==> hs[i].k >= 1) && Median(Normalized(hs)) == q
  {
    var xs := Normalized(hs);
    forall i | 0 <= i < |xs| ensures xs[i] == q {
      assert xs[i] == dts[i] / ns[i] as real;
    }
    MedianWithin(xs, q, q);
  }

  /** Exact multiples are all explained; no refinement follows, and the score depends on the
      mean multiple only. */
  lemma ExactScore(dts: seq<real>, ns: seq<int>, q: real, s: Search)
    requires Exact(dts, ns, q, s) && dts != [] && s.skipPenalty >= 0.0
    ensures Score(dts, q, s).Fitted?
    ensures Score(dts, q, s).fit.fitRatio == 1.0
    ensures Score(dts, q, s).fit.score == Value(Sum(ns, |ns|), |ns|, s.skipPenalty)
  {
    var hs := Hits(dts, |dts|, q, s);
    ExactHits(dts, ns, q, s, |dts|);
    ExactNormalized(dts, ns, q, s, hs);
    assert Used(dts, q, s) == (q, hs);
    SumOfHits(hs, ns, |ns|);
    ExactGrade(q, hs, s.skipPenalty, s.tolerance);
  }

  lemma ExactGrade(q: real, hs: seq<Hit>, penalty: real, tolerance: real)
    requires hs != [] && q > 0.0 && penalty >= 0.0 && tolerance >= 0.0
    requires WithinTolerance(hs, tolerance)
    ensures var g := Grade(q, hs, |hs|, penalty);
            g.Fitted? && g.fit.fitRatio == 1.0 && g.fit.score == Value(SumK(hs, |hs|), |hs|, penalty)
  {
    SumKAtLeast(hs, |hs|);
    RatioBounds(SumK(hs, |hs|), |hs|);
    RatioBounds(|hs|, |hs|);
    GradeBounded(q, hs, |hs|, penalty, tolerance);
  }

  /** The score of intervals all explained by `sum` periods together. */
  function Value(sum: int, n: nat, penalty: real): real
    requires n > 0
  {
    var c := Penalised(sum, n, penalty);
    if c == 0.0 then 0.0 else 1.0 / c
  }

  function Penalised(sum: int, n: nat, penalty: real): real
    requires n > 0
  {
    1.0 + penalty * (Ratio(sum, n) - 1.0)
  }

  lemma PenaltyGrows(a: int, b: int, n: nat, penalty: real)
    requires n > 0 && n <= a < b && penalty > 0.0
    ensures Value(b, n, penalty) < Value(a, n, penalty)
  {
    var x, y := Ratio(a, n), Ratio(b, n);
    RatioBounds(a, n);
    assert x < y;
    Products(penalty, x - 1.0, y - x);
    assert penalty * (y - 1.0) == penalty * (x - 1.0) + penalty * (y - x);
    Reciprocal(Penalised(a, n, penalty), Penalised(b, n, penalty));
  }

  lemma Products(p: real, x: real, y: real)
    requires p > 0.0 && x >= 0.0 && y > 0.0
    ensures p * x >= 0.0 && p * y > 0.0
  {
  }

  lemma Reciprocal(c: real, d: real)
    requires 0.0 < c < d
    ensures 1.0 / d < 1.0 / c
  {
    var x, y := 1.0 / c, 1.0 / d;
    assert x * c == 1.0 && y * d == 1.0;
    Products(x, c, d - c);
    if y >= x { Products(d, y - x, c); }
  }

  lemma {:induction false} SumScales(ns: seq<int>, ms: seq<int>, d: int, n: nat)
    requires n <= |ns| == |ms| && forall i :: 0 <= i < |ns| ==> ms[i] == d * ns[i]
    ensures Sum(ms, n) == d * Sum(ns, n)
  {
    if n > 0 { SumScales(ns, ms, d, n - 1); }
  }

  lemma {:induction false} SumAtLeast(ns: seq<int>, n: nat)
    requires n <= |ns| && forall i :: 0 <= i < |ns| ==> ns[i] >= 1
    ensures Sum(ns, n) >= n
  {
    if n > 0 { SumAtLeast(ns, n - 1); }
  }

  lemma DivisorMultiple(k: int, period: real, d: int)
    requires d >= 2
    ensures k as real * period == (d * k) as real * (period / d as real)
  {
    var x, q := d as real, period / d as real;
    assert q * x == period;
    assert (d * k) as real == x * k as real;
  }

  lemma LowerValue(ks: seq<int>, ms: seq<int>, d: int, penalty: real)
    requires |ks| == |ms| > 0 && d >= 2 && penalty > 0.0
    requires forall i :: 0 <= i < |ks| ==> ks[i] >= 1 && ms[i] == d * ks[i]
    ensures Value(Sum(ms, |ms|), |ms|, penalty) < Value(Sum(ks, |ks|), |ks|, penalty)
  {
    SumScales(ks, ms, d, |ks|);
    SumAtLeast(ks, |ks|);
    var a := Sum(ks, |ks|);
    assert a < d * a;
    PenaltyGrows(a, Sum(ms, |ms|), |ks|, penalty);
  }

  /** Both periods explain all intervals, and `q` scores strictly below `p`. */
  ghost predicate ScoresBelow(dts: seq<real>, q: real, p: real, s: Search) {
    var f, g := Score(dts, p, s), Score(dts, q, s);
    f.Fitted? && g.Fitted? && g.fit.fitRatio == f.fit.fitRatio == 1.0 && g.fit.score < f.fit.score
  }

  lemma ExactScoresBelow(dts: seq<real>, ks: seq<int>, ms: seq<int>, p: real, q: real, d: int, s: Search)
    requires Exact(dts, ks, p, s) && Exact(dts, ms, q, s) && dts != [] && s.skipPenalty > 0.0 && d >= 2
    requires forall i :: 0 <= i < |ks| ==> ms[i] == d * ks[i]
    ensures ScoresBelow(dts, q, p, s)
  {
    ExactScore(dts, ks, p, s);
    ExactScore(dts, ms, q, s);
    LowerValue(ks, ms, d, s.skipPenalty);
  }

  /** A divisor of the true period explains the same intervals, but scores strictly lower:
      the subharmonic never wins against the fundamental. */
  lemma DivisorScoresLower(dts: seq<real>, ks: seq<int>, period: real, d: int, s: Search)
    requires Multiples(dts, ks, period, s) && dts != [] && s.skipPenalty > 0.0 && d >= 2
    requires forall i :: 0 <= i < |ks| ==> d * ks[i] <= s.maxMultiple
    ensures ScoresBelow(dts, period / d as real, period, s)
  {
    var ms := seq(|ks|, i requires 0 <= i < |ks| => d * ks[i]);
    DivisorMultiples(dts, ks, period, d, s, ms);
    MultiplesExact(dts, ks, period, s);
    MultiplesExact(dts, ms, period / d as real, s);
    ExactScoresBelow(dts, ks, ms, period, period / d as real, d, s);
  }

  lemma DivisorMultiples(dts: seq<real>, ks: seq<int>, period: real, d: int, s: Search, ms: seq<int>)
    requires Multiples(dts, ks, period, s) && d >= 2
    requires |ms| == |ks| && forall i :: 0 <= i < |ks| ==> ms[i] == d * ks[i] <= s.maxMultiple
    ensures period / d as real > 0.0 && Multiples(dts, ms, period / d as real, s)
  {
    var q := period / d as real;
    forall i | 0 <= i < |dts| ensures 1 <= ms[i] <= s.maxMultiple && dts[i] == ms[i] as real * q {
      DivisorMultiple(ks[i], period, d);
    }
  }

  // -------------------------------------------------------------------------- the loops

  /** The collection loop of `score_period`. */
  method CollectHits(dts: seq<real>, period: real, s: Search) returns (hs: seq<Hit>)
    ensures hs == Hits(dts, |dts|, period, s)
  {
    hs := [];
    for i := 0 to |dts|
      invariant hs == Hits(dts, i, period, s)
    {
      if period > 0.0 {
        var h := Lattice(dts[i], period);
        if h.k <= s.maxMultiple && h.residual <= s.tolerance { hs := hs + [h]; }
      }
    }
  }

  /** Intervals between successive events, without those that are not positive. */
  function Intervals(events: seq<real>, n: nat): (dts: seq<real>)
    requires n <= |events|
    ensures forall x :: x in dts ==> x > 0.0
  {
    if n <= 1 then []
    else Intervals(events, n - 1) + if events[n - 1] > events[n - 2] then [events[n - 1] - events[n - 2]] else []
  }

  /** With strictly increasing events, as the clustering reports them, the filter removes
      nothing: there is one interval between any two neighbours. */
  lemma {:induction false} FilterRemovesNothing(events: seq<real>, n: nat)
    requires n <= |events| && forall i, j :: 0 <= i < j < |events| ==> events[i] < events[j]
    ensures |Intervals(events, n)| == if n == 0 then 0 else n - 1
    ensures forall i :: 0 <= i < n - 1 ==> Intervals(events, n)[i] == events[i + 1] - events[i]
  {
    if n > 1 { FilterRemovesNothing(events, n - 1); }
  }

  /** In general it removes nothing if and only if every event is later than the one before. */
  lemma {:induction false} FilterRemovesNothingExactly(events: seq<real>, n: nat)
    requires 1 <= n <= |events|
    ensures |Intervals(events, n)| <= n - 1
    ensures |Intervals(events, n)| == n - 1 <==> forall i :: 1 <= i < n ==> events[i - 1] < events[i]
  {
    if n > 1 { FilterRemovesNothingExactly(events, n - 1); }
  }

  /** A fundamental that `dt` suggests as its `k`-th part, on the 1 ms grid. */
  predicate Suggests(dt: real, k: int, range: (real, real), c: real) {
    k >= 1 && range.0 <= dt / k as real <= range.1 && c == Grid(dt / k as real)
  }

  function Grid(p: real): real { Round(p * 1000.0) as real / 1000.0 }

  /** Some interval among the first `n` suggests `c`. */
  ghost predicate Candidate(c: real, dts: seq<real>, n: nat, range: (real, real), maxMultiple: int)
    requires n <= |dts|
  {
    exists i, k :: 0 <= i < n && 1 <= k <= maxMultiple && Suggests(dts[i], k, range, c)
  }

  method Suggestions(dt: real, range: (real, real), maxMultiple: int) returns (cs: set<real>)
    ensures forall c :: c in cs <==> exists k :: 1 <= k <= maxMultiple && Suggests(dt, k, range, c)
  {
    cs := {};
    var k := 1;
    while k <= maxMultiple
      invariant k >= 1
      invariant forall c :: c in cs <==> exists j :: 1 <= j <= maxMultiple && j < k && Suggests(dt, j, range, c)
      decreases maxMultiple - k
    {
      var p := dt / k as real;
      if range.0 <= p <= range.1 {
        assert Suggests(dt, k, range, Grid(p));
        cs := cs + {Grid(p)};
      }
      k := k + 1;
    }
  }

  /** The candidates of `estimate_period`. */
  method Candidates(dts: seq<real>, range: (real, real), maxMultiple: int) returns (cs: set<real>)
    ensures forall c :: c in cs <==> Candidate(c, dts, |dts|, range, maxMultiple)
  {
    cs := {};
    for i := 0 to |dts|
      invariant forall c :: c in cs <==> Candidate(c, dts, i, range, maxMultiple)
    {
      var more := Suggestions(dts[i], range, maxMultiple);
      cs := cs + more;
    }
  }

  // ----------------------------------------------------------------- choosing a candidate

  const Tie: real := 0.000000001

  /** A higher score wins, and within the tie margin the larger fundamental; the exception of
      a division by zero ends the search. */
  function Better(best: Outcome, fit: Outcome): Outcome {
    if best.ZeroDivision? || fit.ZeroDivision? then ZeroDivision
    else if !fit.Fitted? then best
    else if !best.Fitted? || fit.fit.score > best.fit.score then fit
    else if Abs(fit.fit.score - best.fit.score) < Tie && fit.fit.period > best.fit.period then fit
    else best
  }

  function Select(fits: seq<Outcome>, n: nat): Outcome
    requires n <= |fits|
  {
    if n == 0 then NoFit else Better(Select(fits, n - 1), fits[n - 1])
  }

  /** `best` is at most `margin` below `fit`. */
  predicate Close(best: Outcome, fit: Outcome, margin: real) {
    fit.Fitted? ==> best.Fitted? && best.fit.score >= fit.fit.score - margin
  }

  /** In whatever order the candidates come, the search fails if and only if one of them
      divides by zero; otherwise the winner is one of them and none beats it by more than one
      tie margin per candidate. */
  lemma {:induction false} WinnerIsNearBest(fits: seq<Outcome>, n: nat)
    requires n <= |fits|
    ensures Select(fits, n).ZeroDivision? <==> exists j :: 0 <= j < n && fits[j].ZeroDivision?
    ensures Select(fits, n).NoFit? <==> forall j :: 0 <= j < n ==> fits[j].NoFit?
    ensures Select(fits, n).Fitted? ==> Select(fits, n) in fits[..n]
    ensures !Select(fits, n).ZeroDivision? ==> forall j :: 0 <= j < n ==> Close(Select(fits, n), fits[j], n as real * Tie)
  {
    if n > 0 {
      WinnerIsNearBest(fits, n - 1);
      assert fits[..n] == fits[..n - 1] + [fits[n - 1]];
    }
  }

  lemma {:induction false} FailureStays(fits: seq<Outcome>, n: nat, m: nat)
    requires n <= m <= |fits| && Select(fits, n).ZeroDivision?
    ensures Select(fits, m).ZeroDivision?
  {
    if n < m { FailureStays(fits, n, m - 1); }
  }

  function Outcomes(order: seq<real>, score: real -> Outcome): seq<Outcome> {
    seq(|order|, i requires 0 <= i < |order| => score(order[i]))
  }

  /** The selection loop of `estimate_period`, over the candidates in the order in which the
      set yields them. */
  method SelectBest(order: seq<real>, score: real -> Outcome) returns (best: Outcome)
    ensures best == Select(Outcomes(order, score), |order|)
  {
    ghost var fits := Outcomes(order, score);
    best := NoFit;
    for i := 0 to |order|
      invariant best == Select(fits, i) && !best.ZeroDivision?
    {
      var fit := score(order[i]);
      assert fits[i] == fit;
      if fit.ZeroDivision? {
        FailureStays(fits, i + 1, |order|);
        return ZeroDivision;
      }
      if fit.Fitted? {
        if !best.Fitted? || fit.fit.score > best.fit.score {
          best := fit;
        } else if Abs(fit.fit.score - best.fit.score) < Tie {
          if fit.fit.period > best.fit.period { best := fit; }
        }
      }
    }
  }

  /** The winner of the selection is a fit of a candidate, and is close to all of them. */
  lemma Chosen(order: seq<real>, score: real -> Outcome, best: Outcome)
    requires best == Select(Outcomes(order, score), |order|)
    ensures best.ZeroDivision? <==> exists i :: 0 <= i < |order| && score(order[i]).ZeroDivision?
    ensures best.Fitted? ==> exists i :: 0 <= i < |order| && best == score(order[i])
    ensures best.NoFit? <==> forall i :: 0 <= i < |order| ==> score(order[i]).NoFit?
    ensures !best.ZeroDivision? ==> forall i :: 0 <= i < |order| ==> Close(best, score(order[i]), |order| as real * Tie)
  {
    var fits := Outcomes(order, score);
    WinnerIsNearBest(fits, |order|);
    assert forall i :: 0 <= i < |order| ==> fits[i] == score(order[i]);
    hide Select;
    if best.NoFit? {
      forall i | 0 <= i < |order| ensures score(order[i]).NoFit? { assert fits[i].NoFit?; }
    }
    if i :| 0 <= i < |order| && score(order[i]).ZeroDivision? { assert fits[i].ZeroDivision?; }
  }

  function Scorer(dts: seq<real>, s: Search): real -> Outcome {
    c => Score(dts, c, s)
  }

  /** What `estimate_period` promises about its winner: it fails exactly when a candidate
      divides by zero, finds none exactly when nothing fits, and otherwise is close to all. */
  ghost predicate Winner(best: Outcome, dts: seq<real>, order: seq<real>, s: Search) {
    && (best.ZeroDivision? <==> exists i :: 0 <= i < |order| && Scorer(dts, s)(order[i]).ZeroDivision?)
    && (best.NoFit? <==> forall i :: 0 <= i < |order| ==> Scorer(dts, s)(order[i]).NoFit?)
    && (best.Fitted? ==> best.fit.period > 0.0 && exists i :: 0 <= i < |order| && best == Scorer(dts, s)(order[i]))
    && (!best.ZeroDivision? ==> forall i :: 0 <= i < |order| ==> Close(best, Scorer(dts, s)(order[i]), |order| as real * Tie))
    && (s.skipPenalty >= 0.0 ==> !best.ZeroDivision? && (best.Fitted? ==> Bounded(best.fit, s.tolerance)))
  }

  /** What `estimate_period` can return for these events: none of too few, or the selection
      over the candidates in some order. */
  ghost predicate Answer(events: seq<real>, range: (real, real), s: Search, best: Outcome) {
    var dts := Intervals(events, |events|);
    if |events| < 3 || |dts| < 2 then best == NoFit
    else
      exists order ::
        && (forall c :: c in order <==> Candidate(c, dts, |dts|, range, s.maxMultiple))
        && best == Select(Outcomes(order, Scorer(dts, s)), |order|)
  }

  /** Whatever the order, a fit it returns has a positive period. */
  lemma AnswerIsSound(events: seq<real>, range: (real, real), s: Search, best: Outcome)
    requires Answer(events, range, s, best)
    ensures best.Fitted? ==> best.fit.period > 0.0
  {
    var dts := Intervals(events, |events|);
    if |events| >= 3 && |dts| >= 2 {
      var order :|
        && (forall c :: c in order <==> Candidate(c, dts, |dts|, range, s.maxMultiple))
        && best == Select(Outcomes(order, Scorer(dts, s)), |order|);
      hide Select, Outcomes;
      WinnerPromises(dts, order, s, best);
    }
  }

  /** `estimate_period`, with the candidate set in any order and with any penalty. */
  method EstimatePeriod(events: seq<real>, range: (real, real), s: Search, arrange: set<real> -> seq<real>)
    returns (best: Outcome, order: seq<real>)
    requires forall cs, c :: c in arrange(cs) <==> c in cs
    ensures Answer(events, range, s, best)
    ensures |events| < 3 || |Intervals(events, |events|)| < 2 ==> best == NoFit
    ensures |events| >= 3 && |Intervals(events, |events|)| >= 2 ==>
      var dts := Intervals(events, |events|);
      && (forall c :: c in order <==> Candidate(c, dts, |dts|, range, s.maxMultiple))
      && Winner(best, dts, order, s)
  {
    order := [];
    if |events| < 3 { return NoFit, order; }
    var dts := CollectIntervals(events);
    if |dts| < 2 { return NoFit, order; }
    var cs := Candidates(dts, range, s.maxMultiple);
    order := arrange(cs);
    best := SelectBest(order, Scorer(dts, s));
    WinnerPromises(dts, order, s, best);
  }

  lemma WinnerPromises(dts: seq<real>, order: seq<real>, s: Search, best: Outcome)
    requires best == Select(Outcomes(order, Scorer(dts, s)), |order|)
    ensures Winner(best, dts, order, s)
  {
    hide Score, Select;
    Chosen(order, Scorer(dts, s), best);
    if best.Fitted? {
      var i :| 0 <= i < |order| && best == Scorer(dts, s)(order[i]);
      FitIsSound(dts, order[i], s);
      if s.skipPenalty >= 0.0 { FitIsBounded(dts, order[i], s); }
    }
    if best.ZeroDivision? && s.skipPenalty >= 0.0 {
      var i :| 0 <= i < |order| && Scorer(dts, s)(order[i]).ZeroDivision?;
      FitIsBounded(dts, order[i], s);
    }
  }

  method CollectIntervals(events: seq<real>) returns (dts: seq<real>)
    ensures dts == Intervals(events, |events|)
  {
    dts := [];
    if events != [] {
      for i := 1 to |events|
        invariant dts == Intervals(events, i)
      {
        if events[i] > events[i - 1] { dts := dts + [events[i] - events[i - 1]]; }
      }
    }
  }
}
