/** Cross-target clustering of gap events (bin/redhat_monitor/redhat_auto_monitor.py). */
module Clustering {
  import opened Statistics
  import PeriodFit

  datatype Point = Point(ts: real, target: int)

  datatype Common = Common(center: real, support: nat, supporters: set<int>)

  // ------------------------------------------------------------------ collecting points

  predicate Leq(p: Point, q: Point) {
    p.ts < q.ts || (p.ts == q.ts && p.target <= q.target)
  }

  ghost predicate Ordered(ps: seq<Point>) {
    forall i, j :: 0 <= i < j < |ps| ==> Leq(ps[i], ps[j])
  }

  function Place(ps: seq<Point>, p: Point): (r: seq<Point>)
    ensures |r| == |ps| + 1
  {
    if ps == [] || Leq(ps[|ps| - 1], p) then ps + [p]
    else Place(ps[..|ps| - 1], p) + [ps[|ps| - 1]]
  }

  /** `points.sort()`. */
  function Arrange(ps: seq<Point>): (r: seq<Point>)
    ensures |r| == |ps|
  {
    if ps == [] then [] else Place(Arrange(ps[..|ps| - 1]), ps[|ps| - 1])
  }

  lemma {:induction false} PlaceOrders(ps: seq<Point>, p: Point)
    requires Ordered(ps)
    ensures Ordered(Place(ps, p))
    ensures multiset(Place(ps, p)) == multiset(ps) + multiset{p}
  {
    if ps != [] {
      var init, last := ps[..|ps| - 1], ps[|ps| - 1];
      assert ps == init + [last];
      if !Leq(last, p) {
        PlaceOrders(init, p);
        var r := Place(init, p);
        forall i | 0 <= i < |r| ensures Leq(r[i], last) {
          assert r[i] in multiset(r);
          assert r[i] == p || r[i] in init;
        }
      }
    }
  }

  lemma {:induction false} ArrangeOrders(ps: seq<Point>)
    ensures Ordered(Arrange(ps)) && multiset(Arrange(ps)) == multiset(ps)
  {
    if ps != [] {
      var init, last := ps[..|ps| - 1], ps[|ps| - 1];
      assert ps == init + [last];
      ArrangeOrders(init);
      PlaceOrders(Arrange(init), last);
    }
  }

  /** A target's first `n` events that are not older than the cutoff. */
  function InWindow(events: seq<real>, n: nat, target: int, cutoff: real): seq<Point>
    requires n <= |events|
  {
    if n == 0 then []
    else InWindow(events, n - 1, target, cutoff) + if events[n - 1] >= cutoff then [Point(events[n - 1], target)] else []
  }

  function Collected(events: map<int, seq<real>>, targets: seq<int>, n: nat, cutoff: real): seq<Point>
    requires n <= |targets| && forall i :: 0 <= i < |targets| ==> targets[i] in events
  {
    if n == 0 then []
    else Collected(events, targets, n - 1, cutoff)
         + InWindow(events[targets[n - 1]], |events[targets[n - 1]]|, targets[n - 1], cutoff)
  }

  // --------------------------------------------------------------------------- clusters

  function Times(c: seq<Point>): seq<real> {
    seq(|c|, i requires 0 <= i < |c| => c[i].ts)
  }

  datatype Grouping = Grouping(done: seq<seq<Point>>, cur: seq<Point>)

  /** A point within the tolerance of the running median joins the cluster, any other opens
      the next one. */
  function Extend(g: Grouping, p: Point, tolerance: real): Grouping
    requires g.cur != []
  {
    if p.ts - Median(Times(g.cur)) <= tolerance then g.(cur := g.cur + [p])
    else Grouping(g.done + [g.cur], [p])
  }

  function Group(ps: seq<Point>, n: nat, tolerance: real): (g: Grouping)
    requires 1 <= n <= |ps|
    ensures g.cur != []
  {
    if n == 1 then Grouping([], [ps[0]]) else Extend(Group(ps, n - 1, tolerance), ps[n - 1], tolerance)
  }

  function Clusters(ps: seq<Point>, tolerance: real): seq<seq<Point>> {
    if ps == [] then []
    else var g := Group(ps, |ps|, tolerance); g.done + [g.cur]
  }

  function FlattenTo(cs: seq<seq<Point>>, n: nat): seq<Point>
    requires n <= |cs|
  {
    if n == 0 then [] else FlattenTo(cs, n - 1) + cs[n - 1]
  }

  function Flatten(cs: seq<seq<Point>>): seq<Point> {
    FlattenTo(cs, |cs|)
  }

  lemma {:induction false} FlattenPrefix(cs: seq<seq<Point>>, c: seq<Point>, n: nat)
    requires n <= |cs|
    ensures FlattenTo(cs + [c], n) == FlattenTo(cs, n)
  {
    if n > 0 { FlattenPrefix(cs, c, n - 1); }
  }

  lemma FlattenAppend(cs: seq<seq<Point>>, c: seq<Point>)
    ensures Flatten(cs + [c]) == Flatten(cs) + c
  {
    FlattenPrefix(cs, c, |cs|);
  }

  ghost predicate NoneEmpty(cs: seq<seq<Point>>) {
    forall i :: 0 <= i < |cs| ==> cs[i] != []
  }

  /** The grouping holds exactly these points, in this order. */
  ghost predicate Covers(g: Grouping, ps: seq<Point>) {
    g.cur != [] && NoneEmpty(g.done) && Flatten(g.done) + g.cur == ps
  }

  lemma ExtendCovers(g: Grouping, p: Point, tolerance: real, ps: seq<Point>)
    requires Covers(g, ps)
    ensures Covers(Extend(g, p, tolerance), ps + [p])
  {
    FlattenAppend(g.done, g.cur);
    assert Flatten(g.done) + (g.cur + [p]) == ps + [p];
  }

  lemma {:induction false} GroupCovers(ps: seq<Point>, n: nat, tolerance: real)
    requires 1 <= n <= |ps|
    ensures Covers(Group(ps, n, tolerance), ps[..n])
  {
    if n == 1 {
      assert ps[..1] == [ps[0]];
      assert FlattenTo([], 0) == [];
    } else {
      GroupCovers(ps, n - 1, tolerance);
      ExtendCovers(Group(ps, n - 1, tolerance), ps[n - 1], tolerance, ps[..n - 1]);
      assert ps[..n] == ps[..n - 1] + [ps[n - 1]];
    }
  }

  /** Every point is in exactly one cluster, in order, and no cluster is empty. */
  lemma ClustersPartition(ps: seq<Point>, tolerance: real)
    ensures Flatten(Clusters(ps, tolerance)) == ps
    ensures NoneEmpty(Clusters(ps, tolerance))
  {
    if ps != [] {
      GroupCovers(ps, |ps|, tolerance);
      assert ps[..|ps|] == ps;
      var g := Group(ps, |ps|, tolerance);
      FlattenAppend(g.done, g.cur);
    }
  }

  // ------------------------------------------------------------------------- separation

  /** All of `a` is strictly before all of `b`. */
  ghost predicate Earlier(a: seq<Point>, b: seq<Point>) {
    forall i, j :: 0 <= i < |a| && 0 <= j < |b| ==> a[i].ts < b[j].ts
  }

  ghost predicate Separated(cs: seq<seq<Point>>) {
    forall i, j :: 0 <= i < j < |cs| ==> Earlier(cs[i], cs[j])
  }

  ghost predicate Chronological(c: seq<Point>) {
    forall i, j :: 0 <= i < j < |c| ==> c[i].ts <= c[j].ts
  }

  /** What the running cluster knows about its last point. */
  ghost predicate JoinedInTime(c: seq<Point>, tolerance: real) {
    c != [] && (|c| > 1 ==> c[|c| - 1].ts - Median(Times(c[..|c| - 1])) <= tolerance)
  }

  /** A point that opens a new cluster is later than the last one of the old by more than the
      tolerance is below zero, so strictly later when it is not: the median the last point was
      measured against has only grown since. */
  lemma OpensLater(c: seq<Point>, p: Point, tolerance: real)
    requires Chronological(c) && JoinedInTime(c, tolerance)
    requires p.ts - Median(Times(c)) > tolerance
    ensures p.ts > c[|c| - 1].ts + if tolerance < 0.0 then tolerance else 0.0
  {
    var n := |c| - 1;
    if n == 0 {
      MedianWithin(Times(c), c[0].ts, c[0].ts);
    } else {
      var init := Times(c[..n]);
      assert Times(c) == init + [c[n].ts];
      MedianGrows(init, c[n].ts);
    }
  }

  /** The clusters so far are chronological and separated, and `next` is not before them. */
  ghost predicate Grouped(g: Grouping, tolerance: real) {
    && Chronological(g.cur) && JoinedInTime(g.cur, tolerance)
    && Separated(g.done + [g.cur])
  }

  /** A point no earlier than the last of `c` is after whatever `c` is after. */
  lemma EarlierThanPoint(a: seq<Point>, c: seq<Point>, p: Point)
    requires Earlier(a, c) && c != [] && p.ts >= c[|c| - 1].ts
    ensures Earlier(a, [p]) && Earlier(a, c + [p])
  {
    forall x | 0 <= x < |a| ensures a[x].ts < p.ts {
      assert a[x].ts < c[|c| - 1].ts;
    }
  }

  lemma JoinKeepsSeparated(done: seq<seq<Point>>, c: seq<Point>, p: Point)
    requires Separated(done + [c]) && c != [] && p.ts >= c[|c| - 1].ts
    ensures Separated(done + [c + [p]])
  {
    var before, after := done + [c], done + [c + [p]];
    forall i, j | 0 <= i < j < |after| ensures Earlier(after[i], after[j]) {
      assert Earlier(before[i], before[j]);
      if j == |done| { EarlierThanPoint(before[i], c, p); }
    }
  }

  lemma OpenKeepsSeparated(done: seq<seq<Point>>, c: seq<Point>, p: Point)
    requires Separated(done + [c]) && c != [] && Chronological(c) && p.ts > c[|c| - 1].ts
    ensures Separated(done + [c] + [[p]])
  {
    var before, after := done + [c], done + [c] + [[p]];
    forall i, j | 0 <= i < j < |after| ensures Earlier(after[i], after[j]) {
      if j < |before| {
        assert Earlier(before[i], before[j]);
      } else if i < |done| {
        assert Earlier(before[i], before[|done|]);
        EarlierThanPoint(before[i], c, p);
      }
    }
  }

  lemma ExtendKeepsGrouped(g: Grouping, p: Point, tolerance: real)
    requires Grouped(g, tolerance) && tolerance >= 0.0 && p.ts >= g.cur[|g.cur| - 1].ts
    ensures Grouped(Extend(g, p, tolerance), tolerance)
  {
    if p.ts - Median(Times(g.cur)) <= tolerance {
      assert (g.cur + [p])[..|g.cur|] == g.cur;
      JoinKeepsSeparated(g.done, g.cur, p);
    } else {
      OpensLater(g.cur, p, tolerance);
      OpenKeepsSeparated(g.done, g.cur, p);
    }
  }

  lemma {:induction false} GroupSeparates(ps: seq<Point>, n: nat, tolerance: real)
    requires Ordered(ps) && 1 <= n <= |ps| && tolerance >= 0.0
    ensures Grouped(Group(ps, n, tolerance), tolerance)
    ensures Group(ps, n, tolerance).cur[|Group(ps, n, tolerance).cur| - 1] == ps[n - 1]
  {
    if n > 1 {
      GroupSeparates(ps, n - 1, tolerance);
      assert Leq(ps[n - 2], ps[n - 1]);
      ExtendKeepsGrouped(Group(ps, n - 1, tolerance), ps[n - 1], tolerance);
    }
  }

  /** With a negative tolerance no point ever joins another. */
  lemma {:induction false} NegativeToleranceIsolates(ps: seq<Point>, n: nat, tolerance: real)
    requires Ordered(ps) && 1 <= n <= |ps| && tolerance < 0.0
    ensures var g := Group(ps, n, tolerance);
            && g.cur == [ps[n - 1]] && |g.done| == n - 1
            && forall i :: 0 <= i < n - 1 ==> g.done[i] == [ps[i]]
  {
    if n > 1 {
      NegativeToleranceIsolates(ps, n - 1, tolerance);
      assert Leq(ps[n - 2], ps[n - 1]);
      MedianWithin(Times([ps[n - 2]]), ps[n - 2].ts, ps[n - 2].ts);
    }
  }

  /** Clusters are strictly ordered in time, so equal timestamps are never split, if and only
      if the tolerance is not negative or no two points have the same timestamp. */
  lemma NeverSplitsExactly(ps: seq<Point>, tolerance: real)
    requires Ordered(ps)
    ensures Separated(Clusters(ps, tolerance))
            <==> tolerance >= 0.0 || forall i, j :: 0 <= i < j < |ps| ==> ps[i].ts != ps[j].ts
  {
    if ps != [] {
      if tolerance >= 0.0 {
        GroupSeparates(ps, |ps|, tolerance);
      } else {
        NegativeToleranceIsolates(ps, |ps|, tolerance);
        IsolatedSeparated(ps, Clusters(ps, tolerance));
      }
    }
  }

  lemma IsolatedSeparated(ps: seq<Point>, cs: seq<seq<Point>>)
    requires Ordered(ps) && |cs| == |ps| && forall i :: 0 <= i < |ps| ==> cs[i] == [ps[i]]
    ensures Separated(cs) <==> forall i, j :: 0 <= i < j < |ps| ==> ps[i].ts != ps[j].ts
  {
    forall i, j | 0 <= i < j < |ps| ensures Earlier(cs[i], cs[j]) <==> ps[i].ts != ps[j].ts {
      assert Leq(ps[i], ps[j]);
      if Earlier(cs[i], cs[j]) { assert cs[i][0].ts < cs[j][0].ts; }
    }
  }

  // -------------------------------------------------------------------------- reporting

  /** The first point of every target among the first `n`. */
  function Firsts(c: seq<Point>, n: nat): (r: seq<Point>)
    requires n <= |c|
  {
    if n == 0 then []
    else Firsts(c, n - 1) + if c[n - 1].target in Targets(c, n - 1) then [] else [c[n - 1]]
  }

  function Targets(c: seq<Point>, n: nat): set<int>
    requires n <= |c|
  {
    if n == 0 then {} else Targets(c, n - 1) + {c[n - 1].target}
  }

  lemma {:induction false} TargetsMembers(c: seq<Point>, n: nat)
    requires n <= |c|
    ensures |Firsts(c, n)| == |Targets(c, n)| && (n > 0 ==> |Firsts(c, n)| > 0)
  {
    if n > 0 {
      TargetsMembers(c, n - 1);
      var before, t := Targets(c, n - 1), c[n - 1].target;
      if t in before { assert before + {t} == before; } else { assert |before + {t}| == |before| + 1; }
    }
  }

  lemma {:induction false} FirstsAreMembers(c: seq<Point>, n: nat)
    requires n <= |c|
    ensures forall i :: 0 <= i < |Firsts(c, n)| ==> Firsts(c, n)[i] in c
  {
    if n > 0 { FirstsAreMembers(c, n - 1); }
  }

  /** One first point per supporter, all of them points of the cluster. */
  lemma FirstsSound(c: seq<Point>)
    ensures |Firsts(c, |c|)| == |Targets(c, |c|)| && (c != [] ==> Firsts(c, |c|) != [])
    ensures forall i :: 0 <= i < |Firsts(c, |c|)| ==> Firsts(c, |c|)[i] in c
  {
    TargetsMembers(c, |c|);
    FirstsAreMembers(c, |c|);
  }

  /** Every point has a first point of its target that is no later. */
  lemma {:induction false} FirstsAreEarliest(c: seq<Point>, n: nat, j: nat) returns (i: nat)
    requires j < n <= |c| && Chronological(c)
    ensures i < |Firsts(c, n)| && Firsts(c, n)[i].target == c[j].target && Firsts(c, n)[i].ts <= c[j].ts
  {
    var p := c[n - 1];
    if j < n - 1 {
      i := FirstsAreEarliest(c, n - 1, j);
    } else if p.target in Targets(c, n - 1) {
      var k := TargetSeen(c, n - 1, p.target);
      i := FirstsAreEarliest(c, n - 1, k);
    } else {
      i := |Firsts(c, n - 1)|;
    }
  }

  lemma {:induction false} TargetSeen(c: seq<Point>, n: nat, t: int) returns (k: nat)
    requires n <= |c| && t in Targets(c, n)
    ensures k < n && c[k].target == t
  {
    if c[n - 1].target == t { k := n - 1; } else { k := TargetSeen(c, n - 1, t); }
  }

  function Entry(c: seq<Point>): Common
    requires c != []
  {
    FirstsSound(c);
    Common(Median(Times(Firsts(c, |c|))), |Firsts(c, |c|)|, Targets(c, |c|))
  }

  function Reported(cs: seq<seq<Point>>, n: nat, minTargets: int): seq<Common>
    requires n <= |cs| && NoneEmpty(cs)
  {
    if n == 0 then []
    else Reported(cs, n - 1, minTargets)
         + if |Targets(cs[n - 1], |cs[n - 1]|)| < minTargets then [] else [Entry(cs[n - 1])]
  }

  /** A reported centre lies within its cluster. */
  lemma EntryWithin(c: seq<Point>, lo: real, hi: real)
    requires c != [] && forall i :: 0 <= i < |c| ==> lo <= c[i].ts <= hi
    ensures lo <= Entry(c).center <= hi
    ensures Entry(c).support == |Entry(c).supporters|
  {
    FirstsSound(c);
    var fs := Firsts(c, |c|);
    forall i | 0 <= i < |fs| ensures lo <= fs[i].ts <= hi {
      assert fs[i] in c;
    }
    MedianWithin(Times(fs), lo, hi);
  }

  ghost predicate AllBefore(c: seq<Point>, t: real) {
    forall i :: 0 <= i < |c| ==> c[i].ts < t
  }

  function Latest(c: seq<Point>, n: nat): (t: real)
    requires 1 <= n <= |c|
    ensures forall i :: 0 <= i < n ==> c[i].ts <= t
    ensures exists i :: 0 <= i < n && c[i].ts == t
  {
    if n == 1 then c[0].ts
    else if c[n - 1].ts > Latest(c, n - 1) then c[n - 1].ts else Latest(c, n - 1)
  }

  function Earliest(c: seq<Point>, n: nat): (t: real)
    requires 1 <= n <= |c|
    ensures forall i :: 0 <= i < n ==> c[i].ts >= t
    ensures exists i :: 0 <= i < n && c[i].ts == t
  {
    if n == 1 then c[0].ts
    else if c[n - 1].ts < Earliest(c, n - 1) then c[n - 1].ts else Earliest(c, n - 1)
  }

  lemma {:induction false} ReportedBefore(cs: seq<seq<Point>>, n: nat, minTargets: int, t: real)
    requires n <= |cs| && NoneEmpty(cs)
    requires forall i :: 0 <= i < n ==> AllBefore(cs[i], t)
    ensures forall k :: 0 <= k < |Reported(cs, n, minTargets)| ==> Reported(cs, n, minTargets)[k].center < t
  {
    if n > 0 {
      ReportedBefore(cs, n - 1, minTargets, t);
      var c := cs[n - 1];
      EntryWithin(c, Earliest(c, |c|), Latest(c, |c|));
    }
  }

  ghost predicate Increasing(es: seq<Common>) {
    forall j, k :: 0 <= j < k < |es| ==> es[j].center < es[k].center
  }

  /** Every reported event has enough distinct supporters. */
  lemma {:induction false} ReportedSupported(cs: seq<seq<Point>>, n: nat, minTargets: int)
    requires n <= |cs| && NoneEmpty(cs)
    ensures forall k :: 0 <= k < |Reported(cs, n, minTargets)| ==>
              var e := Reported(cs, n, minTargets)[k]; e.support == |e.supporters| >= minTargets
  {
    if n > 0 {
      ReportedSupported(cs, n - 1, minTargets);
      var c := cs[n - 1];
      EntryWithin(c, Earliest(c, |c|), Latest(c, |c|));
    }
  }

  lemma {:induction false} ReportedIncreasing(cs: seq<seq<Point>>, n: nat, minTargets: int)
    requires n <= |cs| && Separated(cs) && NoneEmpty(cs)
    ensures Increasing(Reported(cs, n, minTargets))
  {
    if n > 0 {
      ReportedIncreasing(cs, n - 1, minTargets);
      var c := cs[n - 1];
      var t := Earliest(c, |c|);
      EntryWithin(c, t, Latest(c, |c|));
      forall i | 0 <= i < n - 1 ensures AllBefore(cs[i], t) {
        assert Earlier(cs[i], c);
      }
      ReportedBefore(cs, n - 1, minTargets, t);
    }
  }

  /** Clusters of a single point are reported as they are, or not at all. */
  lemma {:induction false} ReportedSingles(ps: seq<Point>, cs: seq<seq<Point>>, n: nat, minTargets: int)
    requires n <= |ps| == |cs| && NoneEmpty(cs) && forall i :: 0 <= i < |ps| ==> cs[i] == [ps[i]]
    ensures minTargets > 1 ==> Reported(cs, n, minTargets) == []
    ensures minTargets <= 1 ==> |Reported(cs, n, minTargets)| == n
    ensures minTargets <= 1 ==> forall k :: 0 <= k < n ==> Reported(cs, n, minTargets)[k].center == ps[k].ts
  {
    if n > 0 {
      ReportedSingles(ps, cs, n - 1, minTargets);
      var c := cs[n - 1];
      assert Targets(c, 0) == {} && Targets(c, 1) == {ps[n - 1].target};
      EntryWithin(c, ps[n - 1].ts, ps[n - 1].ts);
    }
  }

  /** `cluster_common_events` on the points it has collected. */
  function CommonEvents(points: seq<Point>, tolerance: real, minTargets: int): seq<Common> {
    var cs := Clusters(Arrange(points), tolerance);
    ClustersPartition(Arrange(points), tolerance);
    Reported(cs, |cs|, minTargets)
  }

  ghost predicate DistinctTimes(ps: seq<Point>) {
    forall i, j :: 0 <= i < j < |ps| ==> ps[i].ts != ps[j].ts
  }

  /** Clusters are apart, or come with too few supporters to be reported. */
  ghost predicate KeptApart(points: seq<Point>, tolerance: real, minTargets: int) {
    tolerance >= 0.0 || minTargets > 1 || DistinctTimes(Arrange(points))
  }

  lemma SinglesIncrease(ps: seq<Point>, es: seq<Common>)
    requires Ordered(ps) && |es| == |ps| && forall k :: 0 <= k < |ps| ==> es[k].center == ps[k].ts
    ensures Increasing(es) <==> DistinctTimes(ps)
  {
    if DistinctTimes(ps) {
      forall j, k | 0 <= j < k < |es| ensures es[j].center < es[k].center { assert Leq(ps[j], ps[k]); }
    }
    if Increasing(es) {
      forall j, k | 0 <= j < k < |ps| ensures ps[j].ts != ps[k].ts { assert es[j].center < es[k].center; }
    }
  }

  /** Each reported event has enough distinct supporters, and the reported centres are strictly
      increasing if and only if the tolerance is not negative, one target alone is not enough
      to be reported, or no two events have the same time. */
  lemma CentresIncrease(points: seq<Point>, tolerance: real, minTargets: int)
    ensures var es := CommonEvents(points, tolerance, minTargets);
            && (forall k :: 0 <= k < |es| ==> es[k].support == |es[k].supporters| >= minTargets)
            && (Increasing(es) <==> KeptApart(points, tolerance, minTargets))
  {
    var ps := Arrange(points);
    var cs := Clusters(ps, tolerance);
    ArrangeOrders(points);
    NeverSplitsExactly(ps, tolerance);
    ClustersPartition(ps, tolerance);
    ReportedSupported(cs, |cs|, minTargets);
    if Separated(cs) {
      ReportedIncreasing(cs, |cs|, minTargets);
    } else {
      NegativeToleranceIsolates(ps, |ps|, tolerance);
      ReportedSingles(ps, cs, |cs|, minTargets);
      if minTargets <= 1 { SinglesIncrease(ps, Reported(cs, |cs|, minTargets)); }
    }
  }

  function Centres(es: seq<Common>): seq<real> {
    seq(|es|, i requires 0 <= i < |es| => es[i].center)
  }

  /** To be increasing is a matter of neighbours. */
  lemma {:induction false} Chain(es: seq<Common>, j: nat, k: nat)
    requires j < k < |es| && forall i :: 1 <= i < |es| ==> es[i - 1].center < es[i].center
    ensures es[j].center < es[k].center
  {
    if j < k - 1 { Chain(es, j, k - 1); }
  }

  /** So the filter for positive intervals in the period search removes nothing, under exactly
      the same condition. */
  lemma NoIntervalIsLost(points: seq<Point>, tolerance: real, minTargets: int)
    ensures var times := Centres(CommonEvents(points, tolerance, minTargets));
            times != [] ==> (|PeriodFit.Intervals(times, |times|)| == |times| - 1 <==> KeptApart(points, tolerance, minTargets))
  {
    CentresIncrease(points, tolerance, minTargets);
    var es := CommonEvents(points, tolerance, minTargets);
    var times := Centres(es);
    if times != [] {
      PeriodFit.FilterRemovesNothingExactly(times, |times|);
      hide CommonEvents, KeptApart;
      assert forall i :: 0 <= i < |es| ==> times[i] == es[i].center;
      if forall i :: 1 <= i < |es| ==> es[i - 1].center < es[i].center {
        forall j, k | 0 <= j < k < |es| ensures es[j].center < es[k].center { Chain(es, j, k); }
      }
    }
  }

  /** Every event of a listed target that is not older than the cutoff, and no other, is in
      exactly one cluster, as often as it occurred. */
  lemma EveryEventInOneCluster(events: map<int, seq<real>>, targets: seq<int>, cutoff: real, tolerance: real)
    requires forall i :: 0 <= i < |targets| ==> targets[i] in events
    ensures var points := Collected(events, targets, |targets|, cutoff);
            multiset(Flatten(Clusters(Arrange(points), tolerance))) == multiset(points)
  {
    var points := Collected(events, targets, |targets|, cutoff);
    ArrangeOrders(points);
    ClustersPartition(Arrange(points), tolerance);
  }

  // -------------------------------------------------------------------------- the loops

  method ClusterCommonEvents(events: map<int, seq<real>>, targets: seq<int>, now: real, window: real, tolerance: real, minTargets: int)
    returns (out: seq<Common>)
    requires forall i :: 0 <= i < |targets| ==> targets[i] in events
    ensures out == CommonEvents(Collected(events, targets, |targets|, now - window), tolerance, minTargets)
  {
    var points := CollectPoints(events, targets, now - window);
    points := Arrange(points);
    if points == [] { return []; }
    var clusters := GroupPoints(points, tolerance);
    ClustersPartition(points, tolerance);
    out := ReportClusters(clusters, minTargets);
  }

  method ReportClusters(clusters: seq<seq<Point>>, minTargets: int) returns (out: seq<Common>)
    requires NoneEmpty(clusters)
    ensures out == Reported(clusters, |clusters|, minTargets)
  {
    out := [];
    for i := 0 to |clusters|
      invariant out == Reported(clusters, i, minTargets)
    {
      var supporters := Targets(clusters[i], |clusters[i]|);
      if |supporters| >= minTargets { out := out + [Entry(clusters[i])]; }
    }
  }

  method GroupPoints(points: seq<Point>, tolerance: real) returns (clusters: seq<seq<Point>>)
    requires points != []
    ensures clusters == Clusters(points, tolerance)
  {
    clusters := [];
    var cur := [points[0]];
    for i := 1 to |points|
      invariant cur != [] && Grouping(clusters, cur) == Group(points, i, tolerance)
    {
      var center := Median(Times(cur));
      if points[i].ts - center <= tolerance {
        cur := cur + [points[i]];
      } else {
        clusters := clusters + [cur];
        cur := [points[i]];
      }
    }
    clusters := clusters + [cur];
  }

  method CollectPoints(events: map<int, seq<real>>, targets: seq<int>, cutoff: real) returns (points: seq<Point>)
    requires forall i :: 0 <= i < |targets| ==> targets[i] in events
    ensures points == Collected(events, targets, |targets|, cutoff)
  {
    points := [];
    for i := 0 to |targets|
      invariant points == Collected(events, targets, i, cutoff)
    {
      var es := events[targets[i]];
      ghost var before := points;
      for j := 0 to |es|
        invariant points == before + InWindow(es, j, targets[i], cutoff)
      {
        if es[j] >= cutoff { points := points + [Point(es[j], targets[i])]; }
      }
    }
  }
}
