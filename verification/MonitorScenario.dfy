/** A run of the monitor from its start into an error measured against an anchor that is no
    longer in force (bin/redhat_monitor/redhat_auto_monitor.py), with the fits the period
    search answers for the events of each round. */
module MonitorScenario {
  import opened Statistics
  import opened PhaseLock
  import opened Containers
  import PeriodFit
  import opened Monitor

  /** One target, three events, one fit and one event decide at once. */
  const HASTY := Args([1], 1, 0.2, 0.0, 0.0, 0.0, 0.0, 1, 1, 5.0, 5.0, 1, 30.0, 5.0, 1, 100.0, 5, 40.0, 0.0, 1.0, 1, 1, 0.8, 12,
                      3, 10.0, 30.0, 6, 0.3)
  const SEARCH := PeriodFit.Search(0.2, 6, 0.3)

  const BEFORE: seq<real> := [-30.0, -15.0, 0.0]
  const WITH_LATE: seq<real> := [-30.0, -15.0, 0.0, 15.1]
  const LOCKING_FIT := PeriodFit.Fit(15.0, 1.0, 1.0, 1.0, 0.0, 0.0, 2, 2)
  const LATE_FIT := PeriodFit.Fit(15.0, 1.0, 1.0, 1.0, 0.0, 0.09, 3, 3)

  const LOCKING := Turn(0.0, 0.0, {}, {}, {}, Analysis(10.0, 10.0, BEFORE, Some(LOCKING_FIT), [1], {}))
  const LATE := Turn(15.0, 20.0, {}, {}, {}, Analysis(16.0, 20.0, WITH_LATE, Some(LATE_FIT), [], {}))

  // ------------------------------------------------------------------------- the fits

  lemma Lattices()
    ensures PeriodFit.Lattice(15.0, 15.0) == PeriodFit.Hit(15.0, 0.0, 1)
    ensures PeriodFit.Lattice(15.1, 15.0) == PeriodFit.Hit(15.1, 0.1, 1)
    ensures PeriodFit.Lattice(15.0, 15.1) == PeriodFit.Hit(15.0, 0.1, 1)
    ensures PeriodFit.Lattice(15.1, 15.1) == PeriodFit.Hit(15.1, 0.0, 1)
  {
    assert Statistics.Round(15.0 / 15.0) == 1 && Statistics.Round(15.1 / 15.0) == 1;
    assert Statistics.Round(15.0 / 15.1) == 1 && Statistics.Round(15.1 / 15.1) == 1;
  }

  const ON_TIME := PeriodFit.Hit(15.0, 0.0, 1)

  lemma LockingHits()
    ensures PeriodFit.Hits([15.0, 15.0], 2, 15.0, SEARCH) == [ON_TIME, ON_TIME]
  {
    Lattices();
    hide PeriodFit.Lattice;
    assert PeriodFit.Hits([15.0, 15.0], 0, 15.0, SEARCH) == [];
    assert PeriodFit.Hits([15.0, 15.0], 1, 15.0, SEARCH) == [ON_TIME];
  }

  lemma LateHits()
    ensures PeriodFit.Hits([15.0, 15.0, 15.1], 3, 15.0, SEARCH) == [ON_TIME, ON_TIME, PeriodFit.Hit(15.1, 0.1, 1)]
  {
    var dts := [15.0, 15.0, 15.1];
    Lattices();
    hide PeriodFit.Lattice;
    assert PeriodFit.Hits(dts, 0, 15.0, SEARCH) == [];
    assert PeriodFit.Hits(dts, 1, 15.0, SEARCH) == [ON_TIME];
    assert PeriodFit.Hits(dts, 2, 15.0, SEARCH) == [ON_TIME, ON_TIME];
  }

  lemma LateHitsAbove()
    ensures PeriodFit.Hits([15.0, 15.0, 15.1], 3, 15.1, SEARCH)
            == [PeriodFit.Hit(15.0, 0.1, 1), PeriodFit.Hit(15.0, 0.1, 1), PeriodFit.Hit(15.1, 0.0, 1)]
  {
    var dts, h := [15.0, 15.0, 15.1], PeriodFit.Hit(15.0, 0.1, 1);
    Lattices();
    hide PeriodFit.Lattice;
    assert PeriodFit.Hits(dts, 0, 15.1, SEARCH) == [];
    assert PeriodFit.Hits(dts, 1, 15.1, SEARCH) == [h];
    assert PeriodFit.Hits(dts, 2, 15.1, SEARCH) == [h, h];
  }

  /** Single cycles cost nothing. */
  lemma NoPenalty(hs: seq<PeriodFit.Hit>)
    requires hs != [] && forall i :: 0 <= i < |hs| ==> hs[i].k == 1
    ensures PeriodFit.Complexity(hs, 0.3) == 1.0
  {
    PeriodFit.SingleCyclesSum(hs, |hs|);
    PeriodFit.RatioBounds(|hs|, |hs|);
  }

  lemma {:induction false} AllSingle(hs: seq<PeriodFit.Hit>, n: nat)
    requires n <= |hs| && forall i :: 0 <= i < |hs| ==> hs[i].k == 1
    ensures PeriodFit.OneCycles(hs, n) == n
  {
    if n > 0 { AllSingle(hs, n - 1); }
  }

  /** Three intervals, two of them exact: the median normalised interval is the period. */
  lemma MedianOfThree(x: real, y: real)
    requires x <= y
    ensures Median([x, x, y]) == x
  {
    SortIdentity([x, x, y]);
  }

  lemma LatePercentile()
    ensures Percentile([0.0, 0.0, 0.1], 95.0) == 0.09
  {
    SortIdentity([0.0, 0.0, 0.1]);
    assert Position(3, 95.0) == 1.9;
  }

  lemma LockingGrade()
    ensures PeriodFit.Grade(15.0, [ON_TIME, ON_TIME], 2, 0.3) == PeriodFit.Fitted(LOCKING_FIT)
  {
    var hs := [ON_TIME, ON_TIME];
    NoPenalty(hs);
    AllSingle(hs, 2);
    MedianWithin(PeriodFit.Residuals(hs), 0.0, 0.0);
    PercentileWithin(PeriodFit.Residuals(hs), 95.0, 0.0, 0.0);
    assert PeriodFit.Ratio(2, 2) == 1.0;
    hide PeriodFit.Complexity, PeriodFit.OneCycles, Median, Percentile;
  }

  lemma LateGrade(hs: seq<PeriodFit.Hit>)
    requires hs == [ON_TIME, ON_TIME, PeriodFit.Hit(15.1, 0.1, 1)]
    ensures PeriodFit.Grade(15.0, hs, 3, 0.3) == PeriodFit.Fitted(LATE_FIT)
  {
    NoPenalty(hs);
    AllSingle(hs, 3);
    assert PeriodFit.Residuals(hs) == [0.0, 0.0, 0.1];
    MedianOfThree(0.0, 0.1);
    LatePercentile();
    assert PeriodFit.Ratio(3, 3) == 1.0;
    hide PeriodFit.Complexity, PeriodFit.OneCycles, Median, Percentile;
  }

  lemma LockingScore()
    ensures PeriodFit.Score([15.0, 15.0], 15.0, SEARCH) == PeriodFit.Fitted(LOCKING_FIT)
  {
    var hs := [ON_TIME, ON_TIME];
    LockingHits();
    NoPenalty(hs);
    assert PeriodFit.Normalized(hs) == [15.0, 15.0];
    MedianWithin([15.0, 15.0], 15.0, 15.0);
    LockingGrade();
    hide PeriodFit.Hits, PeriodFit.Complexity, PeriodFit.Grade, Median;
    assert PeriodFit.Used([15.0, 15.0], 15.0, SEARCH) == (15.0, hs);
  }

  lemma LateRefined(hs: seq<PeriodFit.Hit>)
    requires |hs| == 3 && hs[0].dt == hs[1].dt == 15.0 && hs[2].dt == 15.1 && forall i :: 0 <= i < 3 ==> hs[i].k == 1
    ensures PeriodFit.Refined(hs) == 15.0
  {
    assert PeriodFit.Normalized(hs) == [15.0, 15.0, 15.1];
    MedianOfThree(15.0, 15.1);
    hide Median;
  }

  lemma LateUsed()
    ensures PeriodFit.Used([15.0, 15.0, 15.1], 15.0, SEARCH) == (15.0, [ON_TIME, ON_TIME, PeriodFit.Hit(15.1, 0.1, 1)])
    ensures PeriodFit.Used([15.0, 15.0, 15.1], 15.1, SEARCH) == (15.0, [ON_TIME, ON_TIME, PeriodFit.Hit(15.1, 0.1, 1)])
  {
    hide PeriodFit.Hits, PeriodFit.Refined;
    LateHits();
    LateHitsAbove();
    LateRefined([ON_TIME, ON_TIME, PeriodFit.Hit(15.1, 0.1, 1)]);
    LateRefined([PeriodFit.Hit(15.0, 0.1, 1), PeriodFit.Hit(15.0, 0.1, 1), PeriodFit.Hit(15.1, 0.0, 1)]);
  }

  /** Both candidates end in the same fit: the upper one is refined down to the period. */
  lemma LateScores()
    ensures PeriodFit.Score([15.0, 15.0, 15.1], 15.0, SEARCH) == PeriodFit.Fitted(LATE_FIT)
    ensures PeriodFit.Score([15.0, 15.0, 15.1], 15.1, SEARCH) == PeriodFit.Fitted(LATE_FIT)
  {
    hide PeriodFit.Hits, PeriodFit.Used, PeriodFit.Complexity, PeriodFit.Grade;
    var hs := [ON_TIME, ON_TIME, PeriodFit.Hit(15.1, 0.1, 1)];
    LateHits();
    LateHitsAbove();
    LateUsed();
    NoPenalty(hs);
    NoPenalty([PeriodFit.Hit(15.0, 0.1, 1), PeriodFit.Hit(15.0, 0.1, 1), PeriodFit.Hit(15.1, 0.0, 1)]);
    LateGrade(hs);
  }

  // -------------------------------------------------------------------- the candidates

  lemma OnGrid()
    ensures PeriodFit.Grid(15.0) == 15.0 && PeriodFit.Grid(15.1) == 15.1
  {
    RoundExact(15000);
    RoundExact(15100);
  }

  /** Between 10 and 30 seconds an interval of this size suggests only itself. */
  lemma SuggestsItself(dt: real, k: int, c: real)
    requires 15.0 <= dt <= 15.1 && PeriodFit.Grid(dt) == dt
    ensures PeriodFit.Suggests(dt, k, (10.0, 30.0), c) <==> k == 1 && c == dt
  {
    if k >= 2 { HalfIsBelow(dt, k); }
    hide PeriodFit.Grid;
  }

  lemma HalfIsBelow(dt: real, k: int)
    requires 15.0 <= dt <= 15.1 && k >= 2
    ensures dt / k as real < 10.0
  {
    var x := k as real;
    var q := dt / x;
    assert q * x == dt;
    if q >= 10.0 { Products(q, x); }
  }

  lemma Products(q: real, x: real)
    requires q >= 10.0 && x >= 2.0
    ensures q * x >= 20.0
  {
    assert q * (x - 2.0) >= 0.0;
  }

  lemma LockingCandidates(c: real)
    ensures PeriodFit.Candidate(c, [15.0, 15.0], 2, (10.0, 30.0), 6) <==> c in [15.0]
  {
    OnGrid();
    var dts := [15.0, 15.0];
    if PeriodFit.Candidate(c, dts, 2, (10.0, 30.0), 6) {
      var i, k :| 0 <= i < 2 && 1 <= k <= 6 && PeriodFit.Suggests(dts[i], k, (10.0, 30.0), c);
      SuggestsItself(dts[i], k, c);
    }
    if c == 15.0 {
      SuggestsItself(dts[0], 1, c);
      assert PeriodFit.Suggests(dts[0], 1, (10.0, 30.0), c);
    }
  }

  lemma LateCandidates(c: real)
    ensures PeriodFit.Candidate(c, [15.0, 15.0, 15.1], 3, (10.0, 30.0), 6) <==> c in [15.0, 15.1]
  {
    OnGrid();
    var dts := [15.0, 15.0, 15.1];
    if PeriodFit.Candidate(c, dts, 3, (10.0, 30.0), 6) {
      var i, k :| 0 <= i < 3 && 1 <= k <= 6 && PeriodFit.Suggests(dts[i], k, (10.0, 30.0), c);
      SuggestsItself(dts[i], k, c);
    }
    if c == 15.0 {
      SuggestsItself(dts[0], 1, c);
      assert PeriodFit.Suggests(dts[0], 1, (10.0, 30.0), c);
    }
    if c == 15.1 {
      SuggestsItself(dts[2], 1, c);
      assert PeriodFit.Suggests(dts[2], 1, (10.0, 30.0), c);
    }
  }

  lemma EventIntervals()
    ensures PeriodFit.Intervals(BEFORE, 3) == [15.0, 15.0] && PeriodFit.Intervals(WITH_LATE, 4) == [15.0, 15.0, 15.1]
  {
    PeriodFit.FilterRemovesNothing(BEFORE, 3);
    PeriodFit.FilterRemovesNothing(WITH_LATE, 4);
    hide PeriodFit.Intervals;
    assert PeriodFit.Intervals(BEFORE, 3)[0] == 15.0 && PeriodFit.Intervals(BEFORE, 3)[1] == 15.0;
    assert PeriodFit.Intervals(WITH_LATE, 4)[0] == 15.0 && PeriodFit.Intervals(WITH_LATE, 4)[1] == 15.0;
    assert PeriodFit.Intervals(WITH_LATE, 4)[2] == 15.1;
  }

  /** One fit for every candidate is the winner. */
  lemma {:induction false} SameFitWins(fits: seq<PeriodFit.Outcome>, n: nat, f: PeriodFit.Fit)
    requires 1 <= n <= |fits| && forall i :: 0 <= i < |fits| ==> fits[i] == PeriodFit.Fitted(f)
    ensures PeriodFit.Select(fits, n) == PeriodFit.Fitted(f)
  {
    if n > 1 { SameFitWins(fits, n - 1, f); } else { assert PeriodFit.Select(fits, 0) == PeriodFit.NoFit; }
  }

  /** Candidates that all score the same fit make it the answer. */
  lemma AnswerOf(events: seq<real>, dts: seq<real>, order: seq<real>, f: PeriodFit.Fit)
    requires |events| >= 3 && |dts| >= 2 && PeriodFit.Intervals(events, |events|) == dts && order != []
    requires forall c :: c in order <==> PeriodFit.Candidate(c, dts, |dts|, (10.0, 30.0), 6)
    requires forall i :: 0 <= i < |order| ==> PeriodFit.Score(dts, order[i], SEARCH) == PeriodFit.Fitted(f)
    ensures PeriodFit.Answer(events, (10.0, 30.0), SEARCH, PeriodFit.Fitted(f))
  {
    hide PeriodFit.Score, PeriodFit.Candidate, PeriodFit.Intervals, PeriodFit.Select;
    var fits := PeriodFit.Outcomes(order, PeriodFit.Scorer(dts, SEARCH));
    assert forall i :: 0 <= i < |order| ==> fits[i] == PeriodFit.Score(dts, order[i], SEARCH);
    SameFitWins(fits, |order|, f);
  }

  lemma LockingAnswer()
    ensures PeriodFit.Answer(BEFORE, (10.0, 30.0), SEARCH, PeriodFit.Fitted(LOCKING_FIT))
  {
    hide PeriodFit.Score, PeriodFit.Candidate, PeriodFit.Intervals, PeriodFit.Answer;
    EventIntervals();
    forall c ensures c in [15.0] <==> PeriodFit.Candidate(c, [15.0, 15.0], 2, (10.0, 30.0), 6) { LockingCandidates(c); }
    LockingScore();
    AnswerOf(BEFORE, [15.0, 15.0], [15.0], LOCKING_FIT);
  }

  lemma LateAnswer()
    ensures PeriodFit.Answer(WITH_LATE, (10.0, 30.0), SEARCH, PeriodFit.Fitted(LATE_FIT))
  {
    hide PeriodFit.Score, PeriodFit.Candidate, PeriodFit.Intervals, PeriodFit.Answer;
    EventIntervals();
    forall c ensures c in [15.0, 15.1] <==> PeriodFit.Candidate(c, [15.0, 15.0, 15.1], 3, (10.0, 30.0), 6) { LateCandidates(c); }
    LateScores();
    AnswerOf(WITH_LATE, [15.0, 15.0, 15.1], [15.0, 15.1], LATE_FIT);
  }

  /** Both rounds carry the fit the program computes for their events. */
  lemma RoundsAreAnswered()
    ensures Answered(HASTY, LOCKING.analysis) && Answered(HASTY, LATE.analysis)
  {
    LockingAnswer();
    LateAnswer();
    hide PeriodFit.Answer;
  }

  // ----------------------------------------------------------------------- the two rounds

  lemma OnTimeLattice(e: real, x: real)
    requires e in BEFORE && x in BEFORE
    ensures OnLattice(e, x, 15.0, 0.2)
  {
    var k := if e - x == 0.0 then 0 else if e - x == 15.0 then 1 else if e - x == 30.0 then 2 else if e - x == -15.0 then -1 else -2;
    assert e - x == k as real * 15.0;
    assert (e - x) / 15.0 == k as real;
    RoundExact(k);
  }

  /** The newest of the exact events is the anchor. */
  lemma AnchorIsNewest()
    ensures ActivationAnchor(HASTY, 15.0, BEFORE) == Some(0.0)
  {
    AnchorFoundExactly(BEFORE, 15.0, 0.2);
    var x := ChooseAnchor(BEFORE, 15.0, 0.2).value;
    assert BEFORE[2] == 0.0 && 0.0 in BEFORE && BEFORE[..3] == BEFORE;
    OnTimeLattice(0.0, x);
    InliersExactly(BEFORE, 3, x, 15.0, 0.2);
    MaxIsGreatest(Inliers(BEFORE, 3, x, 15.0, 0.2));
    hide ChooseAnchor, Inliers, Max, OnLattice;
  }

  /** The state in which the first analysis decides: one good fit on record. */
  function Recorded(k: Kernel): State {
    Start(HASTY, 0.0, 0.0, {1}, k).(nextAnalysis := 15.0, goodFits := [GoodFit(15.0, 10.0)])
  }

  lemma LockingRecords(k: Kernel)
    ensures RecordFit(HASTY, Start(HASTY, 0.0, 0.0, {1}, k).(nextAnalysis := 15.0), LOCKING.analysis) == Recorded(k)
    ensures MayActivate(HASTY, Recorded(k), LOCKING.analysis)
  {
    assert Push([], GoodFit(15.0, 10.0), 1) == [GoodFit(15.0, 10.0)];
  }

  lemma LockingTries(k: Kernel)
    ensures TryActivate(HASTY, Recorded(k), LOCKING.analysis) == Activate(HASTY, Recorded(k), LOCKING.analysis, 15.0, 0.0)
  {
    MedianWithin(Periods([GoodFit(15.0, 10.0)]), 15.0, 15.0);
    AnchorIsNewest();
    hide Median, ActivationAnchor, Activate;
  }

  lemma LockingActivates(k: Kernel)
    ensures Iterate(HASTY, Start(HASTY, 0.0, 0.0, {1}, k), LOCKING)
            == Activate(HASTY, Recorded(k), LOCKING.analysis, 15.0, 0.0)
  {
    hide RecordFit, MayActivate, TryActivate, Activate, Maintain;
    LockingRecords(k);
    LockingTries(k);
    var start := Start(HASTY, 0.0, 0.0, {1}, k);
    assert {1} - {} == {1};
    assert Wake(HASTY, start, LOCKING) == start;
  }

  /** The state right after the activation. */
  function Locked(k: Kernel): State {
    Activate(HASTY, Recorded(k), LOCKING.analysis, 15.0, 0.0)
  }

  const LATE_ERROR := Measured(15.1, 0.0, 0.1)

  lemma LateCounts(k: Kernel, m: State)
    requires m == Locked(k).(nextAnalysis := 25.0)
    ensures OnLattice(15.1, 0.0, 15.0, 0.2)
    ensures Count(HASTY, m, 15.1) == m.(errors := [LATE_ERROR], absErrors := [LATE_ERROR], lastValid := Some(15.1), session := [LATE_ERROR])
  {
    assert Statistics.Round(15.1 / 15.0) == 1;
    assert SignedError(15.1, 0.0, 15.0) == 0.1;
    hide OffsetMs, PeriodMs, Programmed;
  }

  lemma LateMoves(c: State)
    requires c.errors == [LATE_ERROR] && c.anchor == Some(0.0) && c.period == Some(15.0) && c.lastResync == Some(10.0)
    ensures ConsensusCrossed(HASTY, c) && ResyncDue(HASTY, c, 16.0) && Corrected(HASTY, c) == 0.1
  {
    SortIdentity(Errors([LATE_ERROR]));
    assert Consensus(c) == 0.1;
    assert SameSign(Errors(c.errors), 0, 0.1) == 0;
    assert SameSign(Errors(c.errors), 1, 0.1) == 1;
  }

  lemma LateIsFresh(m: State)
    requires m.anchor == Some(0.0) && m.period == Some(15.0) && m.lastValid == Some(0.0)
    requires OnLattice(15.1, 0.0, 15.0, 0.2)
    ensures Fresh(HASTY, m, WITH_LATE, 4) == [15.1]
  {
    hide OnLattice;
    assert Fresh(HASTY, m, WITH_LATE, 0) == [];
    assert Fresh(HASTY, m, WITH_LATE, 1) == [];
    assert Fresh(HASTY, m, WITH_LATE, 2) == [];
    assert Fresh(HASTY, m, WITH_LATE, 3) == [];
  }

  lemma LateResyncs(k: Kernel)
    ensures Iterate(HASTY, Locked(k), LATE).absErrors == [LATE_ERROR]
    ensures Iterate(HASTY, Locked(k), LATE).active && Iterate(HASTY, Locked(k), LATE).anchor == Some(0.1)
  {
    var m := Locked(k).(nextAnalysis := 25.0);
    LateCounts(k, m);
    LateIsFresh(m);
    var c := Count(HASTY, m, 15.1);
    LateMoves(c);
    assert Max([15.1]) == 15.1;
    assert Running([1], 0, {1}) == 0 && Running([1], 1, {1}) == 1;
    assert {1} - {} == {1};
    hide Fresh, Count, ConsensusCrossed, ResyncDue, Corrected, OffsetMs, PeriodMs, Programmed, OnLattice, SignedError;
    assert PhaseCheck(HASTY, m, LATE.analysis).anchor == Some(0.1);
  }

  /** A run into it: two rounds from the start, the first locking a 15 s period, the second
      with an event 0.1 s late that moves the anchor and leaves an error measured against the
      old one in that history. */
  lemma ResyncLeavesStaleError(k: Kernel)
    ensures HASTY.Valid() && TimelyRun([LOCKING, LATE], 0.0)
    ensures ProgramTurn(HASTY, LOCKING, 0.0) && ProgramTurn(HASTY, LATE, 10.0)
    ensures var m := Run(HASTY, Start(HASTY, 0.0, 0.0, {1}, k), [LOCKING, LATE]);
            m.active && m.anchor == Some(0.1) && m.absErrors == [LATE_ERROR] && !Current(m.absErrors, 0.1)
  {
    RoundsAreAnswered();
    LockingActivates(k);
    LateResyncs(k);
    hide Iterate, Start, Answered;
    var rest := [LOCKING, LATE][1..];
    assert rest == [LATE] && rest[1..] == [];
    assert Run(HASTY, Locked(k), [LATE]) == Iterate(HASTY, Locked(k), LATE);
    assert TimelyRun(rest, 10.0);
    assert [LATE_ERROR][0].anchor == 0.0;
  }
}
