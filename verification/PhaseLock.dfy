/** Phase residuals on a locked lattice and the choice of an anchor
    (bin/redhat_monitor/redhat_auto_monitor.py). */
module PhaseLock {
  import opened Statistics
  import opened Containers

  /** `signed_phase_error`, for a positive period. */
  function SignedError(event: real, anchor: real, period: real): real
    requires period > 0.0
  {
    event - (anchor + Round((event - anchor) / period) as real * period)
  }

  /** `phase_residual` within the tolerance; without a positive period it is infinite. */
  predicate OnLattice(event: real, anchor: real, period: real, tolerance: real) {
    period > 0.0 && Abs(SignedError(event, anchor, period)) <= tolerance
  }

  /** The error is what is left of the nearest lattice point: at most half a period. */
  lemma ErrorWithinHalfPeriod(event: real, anchor: real, period: real)
    requires period > 0.0
    ensures Abs(SignedError(event, anchor, period)) <= period / 2.0
    ensures SignedError(anchor, anchor, period) == 0.0
  {
    var x := (event - anchor) / period;
    var k := Round(x);
    HalfPeriod(event - anchor, period, x, k as real);
    assert SignedError(event, anchor, period) == event - anchor - k as real * period;
    assert (anchor - anchor) / period == 0.0;
    RoundExact(0);
  }

  lemma HalfPeriod(g: real, period: real, x: real, k: real)
    requires period > 0.0 && x * period == g && -0.5 <= x - k <= 0.5
    ensures -period / 2.0 <= g - k * period <= period / 2.0
  {
    Product(0.5 - (x - k), period);
    Product(0.5 + (x - k), period);
    assert (0.5 - (x - k)) * period == 0.5 * period - x * period + k * period;
    assert (0.5 + (x - k)) * period == 0.5 * period + x * period - k * period;
  }

  lemma Product(u: real, period: real)
    requires u >= 0.0 && period > 0.0
    ensures u * period >= 0.0
  {
  }

  /** Those of the first `n` events that lie on the lattice. */
  function Inliers(events: seq<real>, n: nat, anchor: real, period: real, tolerance: real): seq<real>
    requires n <= |events|
  {
    if n == 0 then []
    else Inliers(events, n - 1, anchor, period, tolerance)
         + if OnLattice(events[n - 1], anchor, period, tolerance) then [events[n - 1]] else []
  }

  lemma {:induction false} InliersExactly(events: seq<real>, n: nat, anchor: real, period: real, tolerance: real)
    requires n <= |events|
    ensures forall e :: e in Inliers(events, n, anchor, period, tolerance)
                    <==> e in events[..n] && OnLattice(e, anchor, period, tolerance)
  {
    if n > 0 {
      InliersExactly(events, n - 1, anchor, period, tolerance);
      assert events[..n] == events[..n - 1] + [events[n - 1]];
    }
  }

  function Max(s: seq<real>): real
    requires s != []
  {
    if |s| == 1 then s[0]
    else if s[|s| - 1] > Max(s[..|s| - 1]) then s[|s| - 1] else Max(s[..|s| - 1])
  }

  lemma {:induction false} MaxIsGreatest(s: seq<real>)
    requires s != []
    ensures Max(s) in s && forall x :: x in s ==> x <= Max(s)
  {
    if |s| > 1 {
      MaxIsGreatest(s[..|s| - 1]);
      assert s == s[..|s| - 1] + [s[|s| - 1]];
    }
  }

  /** The largest set of inliers any of the first `n` events has as an anchor; the first one
      found wins a tie. */
  function BestInliers(events: seq<real>, n: nat, period: real, tolerance: real): seq<real>
    requires n <= |events|
  {
    if n == 0 then []
    else
      var best := BestInliers(events, n - 1, period, tolerance);
      var inliers := Inliers(events, |events|, events[n - 1], period, tolerance);
      if |inliers| > |best| then inliers else best
  }

  /** `choose_initial_anchor`. */
  function ChooseAnchor(events: seq<real>, period: real, tolerance: real): Option<real> {
    var best := BestInliers(events, |events|, period, tolerance);
    if best == [] then None else Some(Max(best))
  }

  /** `newest_phase_consistent_event`. */
  function Newest(events: seq<real>, anchor: real, period: real, tolerance: real): Option<real> {
    var valid := Inliers(events, |events|, anchor, period, tolerance);
    if valid == [] then None else Some(Max(valid))
  }

  /** No event explains more of the others than the one chosen. */
  lemma {:induction false} BestInliersAreMost(events: seq<real>, n: nat, period: real, tolerance: real, i: nat)
    requires i < n <= |events|
    ensures |Inliers(events, |events|, events[i], period, tolerance)| <= |BestInliers(events, n, period, tolerance)|
  {
    if i < n - 1 { BestInliersAreMost(events, n - 1, period, tolerance, i); }
  }

  /** They are the inliers of one of the events. */
  lemma {:induction false} BestInliersOfSome(events: seq<real>, n: nat, period: real, tolerance: real) returns (i: nat)
    requires n <= |events| && BestInliers(events, n, period, tolerance) != []
    ensures i < n && BestInliers(events, n, period, tolerance) == Inliers(events, |events|, events[i], period, tolerance)
  {
    if |Inliers(events, |events|, events[n - 1], period, tolerance)| > |BestInliers(events, n - 1, period, tolerance)| {
      i := n - 1;
    } else {
      i := BestInliersOfSome(events, n - 1, period, tolerance);
    }
  }

  /** There is an anchor if and only if there is an event and the tolerance and the period
      make sense; then the second search finds one too, never an older one. */
  lemma AnchorFoundExactly(events: seq<real>, period: real, tolerance: real)
    ensures ChooseAnchor(events, period, tolerance).Some? <==> events != [] && period > 0.0 && tolerance >= 0.0
    ensures ChooseAnchor(events, period, tolerance).Some? ==>
      var a := ChooseAnchor(events, period, tolerance).value;
      && a in events && Newest(events, a, period, tolerance).Some?
      && Newest(events, a, period, tolerance).value in events && Newest(events, a, period, tolerance).value >= a
  {
    var best := BestInliers(events, |events|, period, tolerance);
    assert events[..|events|] == events;
    if best != [] {
      var i := BestInliersOfSome(events, |events|, period, tolerance);
      InliersExactly(events, |events|, events[i], period, tolerance);
      MaxIsGreatest(best);
      SelfInlier(events, Max(best), period, tolerance);
      MaxIsGreatest(Inliers(events, |events|, Max(best), period, tolerance));
    }
    if events != [] && period > 0.0 && tolerance >= 0.0 {
      SelfInlier(events, events[0], period, tolerance);
      BestInliersAreMost(events, |events|, period, tolerance, 0);
    }
  }

  lemma SelfInlier(events: seq<real>, a: real, period: real, tolerance: real)
    ensures a in events && period > 0.0 && tolerance >= 0.0 ==> a in Inliers(events, |events|, a, period, tolerance)
    ensures forall e :: e in Inliers(events, |events|, a, period, tolerance) ==>
              e in events && period > 0.0 && tolerance >= 0.0
  {
    InliersExactly(events, |events|, a, period, tolerance);
    assert events[..|events|] == events;
    if period > 0.0 { ErrorWithinHalfPeriod(a, a, period); }
  }

  /** The loop of `choose_initial_anchor`. */
  method FindAnchor(events: seq<real>, period: real, tolerance: real) returns (r: Option<real>)
    ensures r == ChooseAnchor(events, period, tolerance)
  {
    var best: seq<real> := [];
    for i := 0 to |events|
      invariant best == BestInliers(events, i, period, tolerance)
    {
      var inliers := Inliers(events, |events|, events[i], period, tolerance);
      if |inliers| > |best| { best := inliers; }
    }
    return if best == [] then None else Some(Max(best));
  }
}
