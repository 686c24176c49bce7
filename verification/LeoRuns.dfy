/** What every run of the receive-window controller keeps, for any sequence of ACKs
    with non-decreasing clocks and stream position and fixed sysctls. */
module LeoRuns {
  import opened MachineInts
  import opened LeoParameters
  import opened LeoController

  // ------------------------------------------------------------------------- runs

  predicate Follows(before: Ack, a: Ack) {
    && before.nowReal <= a.nowReal
    && before.nowMono <= a.nowMono
    && before.rcvNxt <= a.rcvNxt
    && before.bytesReceived <= a.bytesReceived
  }

  ghost predicate Chronological(acks: seq<Ack>) {
    forall i :: 0 <= i < |acks| - 1 ==> Follows(acks[i], acks[i + 1])
  }

  /** Every ACK is handled under the snapshot that was in force before the first. */
  ghost predicate KeptThrough(c: Sysctls, s: LeoState, acks: seq<Ack>) {
    acks != [] ==>
      var n := |acks| - 1;
      KeptThrough(c, s, acks[..n]) && Kept(c, Run(c, s, acks[..n]), acks[n])
  }

  // ----------------------------------------------------------------------- stages

  /** Where a snapshot stands in its handover: waiting, PRE, DRAIN, OUTAGE, past the
      outage but before the boundary, RECOVERY. */
  function Stage(c: Sysctls, s: LeoState, now: ClockUs): nat {
    var pos := PeriodPosition(c, now);
    if s.recoveryStarted then 5
    else if pos < PreStart(c, s.snap) then 0
    else if pos < DrainStart(c, s.snap) then 1
    else if pos < OutageStart(c, s.snap) then 2
    else if pos < OutageEnd(c, s.snap) then 3
    else 4
  }

  function PhaseOf(stage: nat): Phase {
    if stage == 1 then PreHandover
    else if stage == 2 then Drain
    else if stage == 3 then Outage
    else if stage == 5 then Recovery
    else Normal
  }

  /** A snapshot in force at `now`: before the boundary until its ramp starts, then
      inside the ramp. */
  ghost predicate InForce(c: Sysctls, s: LeoState, now: ClockUs) {
    && Enabled(c) && c.periodMs > 0 && s.initialized && s.frozen
    && s.snap.minRwnd <= s.snap.startRwnd
    && s.snap.rttHalfUs == s.snap.rttUs / 2 && s.snap.outageUs <= s.snap.rttHalfUs
    && (if s.recoveryStarted
        then s.snap.periodId < PeriodId(c, now) && 0 <= now - s.recoveryStartUs < s.snap.recoveryUs
        else PeriodId(c, now) == s.snap.periodId)
  }

  ghost predicate FrozenInv(c: Sysctls, s: LeoState, now: ClockUs) {
    && InForce(c, s, now)
    && s.phase == PhaseOf(Stage(c, s, now))
    && (Controlling(s.phase) ==> s.preStarted)
    && (s.preStarted ==> Stage(c, s, now) >= 1 && s.snap.minRwnd <= s.captureWnd <= s.snap.startRwnd)
  }

  /** Holds of the state left behind by an ACK at real time `now`. */
  ghost predicate Inv(c: Sysctls, s: LeoState, now: ClockUs) {
    && (s.initialized ==> s.meas.rate > 0)
    && (s.frozen ==> FrozenInv(c, s, now))
    && (!s.frozen ==> s.phase == Normal)
  }

  lemma PeriodIdMonotone(c: Sysctls, x: ClockUs, y: ClockUs)
    requires x <= y
    ensures PeriodId(c, x) <= PeriodId(c, y)
    ensures PeriodId(c, x) == PeriodId(c, y) ==> PeriodPosition(c, x) <= PeriodPosition(c, y)
  {
    if c.periodMs > 0 {
      DivMonotone(ShiftedUs(c, x), ShiftedUs(c, y), PeriodUs(c));
      DivisionEquation(ShiftedUs(c, x), PeriodUs(c));
      DivisionEquation(ShiftedUs(c, y), PeriodUs(c));
    }
  }

  /** What `leo_maybe_freeze` and `leo_phase` leave behind. */
  ghost predicate PhaseFound(c: Sysctls, s: LeoState, now: ClockUs, a: Ack, p: PhaseStep) {
    && p.state.initialized && p.state.meas.rate > 0
    && (p.state.frozen ==> InForce(c, p.state, a.nowReal) && p.phase == PhaseOf(Stage(c, p.state, a.nowReal)))
    && (!p.state.frozen ==> p.phase == Normal)
    && (if Kept(c, s, a)
        then && p.state.snap == s.snap && p.state.frozen
             && Stage(c, s, now) <= Stage(c, p.state, a.nowReal)
             && p.state.preStarted == s.preStarted
             && p.state.captureWnd == s.captureWnd && p.state.captureRcvNxt == s.captureRcvNxt
        else p.state.frozen ==> !p.state.preStarted)
  }

  /** Before the boundary, the phase found is the one of the stage. */
  lemma PhaseBeforeBoundary(c: Sysctls, s: LeoState, a: Ack)
    requires c.periodMs > 0 && s.frozen && !s.recoveryStarted && PeriodId(c, a.nowReal) == s.snap.periodId
    ensures PhaseAt(c, s, a).state == s && PhaseAt(c, s, a).phase == PhaseOf(Stage(c, s, a.nowReal))
  {
  }

  /** A kept snapshot: the phase is the one of its stage, and the stage has not gone back. */
  lemma KeptPhase(c: Sysctls, s: LeoState, now: ClockUs, a: Ack)
    requires InForce(c, s, now) && now <= a.nowReal && Kept(c, s, a) && s.meas.rate > 0
    ensures PhaseFound(c, s, now, a, FindPhase(c, s, a))
  {
    PeriodIdMonotone(c, now, a.nowReal);
    assert FindPhase(c, s, a) == PhaseAt(c, s, a);
    if PeriodId(c, a.nowReal) == s.snap.periodId { PhaseBeforeBoundary(c, s, a); }
  }

  /** Without a kept snapshot `leo_maybe_freeze` leaves no snapshot or a fresh one. */
  lemma FreezeOrNot(c: Sysctls, s: LeoState, a: Ack)
    requires s.initialized && !Kept(c, s, a) && (s.frozen ==> c.periodMs > 0)
    ensures var f := MaybeFreeze(c, s, a);
            if f.frozen then c.periodMs > 0 && f == Freeze(c, s, a) else f == s.(frozen := false)
  {
  }

  lemma FreshInForce(c: Sysctls, s: LeoState, a: Ack)
    requires Enabled(c) && c.periodMs > 0 && s.initialized
    ensures InForce(c, Freeze(c, s, a), a.nowReal)
  {
  }

  /** Without a kept snapshot the ACK is handled unfrozen or under a fresh snapshot. */
  lemma FreshPhase(c: Sysctls, s: LeoState, now: ClockUs, a: Ack)
    requires Enabled(c) && !Kept(c, s, a) && Inv(c, s, now)
    ensures PhaseFound(c, s, now, a, FindPhase(c, s, a))
    ensures var p := FindPhase(c, s, a);
            p.state.frozen ==> p.state.snap == TakeSnapshot(c, p.state.meas, a)
  {
    if !s.initialized { FirstMeasurement(c, s, a); }
    var s0 := if s.initialized then s else Measure(c, s, a, Normal);
    FreezeOrNot(c, s0, a);
    var f := MaybeFreeze(c, s0, a);
    if f.frozen {
      FreshInForce(c, s0, a);
      PhaseBeforeBoundary(c, f, a);
    }
  }

  /** Neither freezing nor finding the phase touches the measurements. */
  lemma FindPhaseKeepsMeasurements(c: Sysctls, s: LeoState, a: Ack)
    requires s.initialized
    ensures FindPhase(c, s, a).state.meas == s.meas && FindPhase(c, s, a).state.initialized
  {
    var f := MaybeFreeze(c, s, a);
    assert f.meas == s.meas && f.initialized;
  }

  lemma MeasureKeepsControl(c: Sysctls, s: LeoState, a: Ack, phase: Phase)
    requires s.initialized && s.meas.rate > 0
    ensures var s' := Measure(c, s, a, phase);
            s'.meas.rate > 0 && s' == s.(meas := s'.meas)
  {
  }

  lemma FirstMeasurement(c: Sysctls, s: LeoState, a: Ack)
    requires !s.initialized
    ensures var s' := Measure(c, s, a, Normal);
            s'.initialized && s'.meas.rate > 0 && s' == INITIAL.(meas := s'.meas, initialized := true)
  {
  }

  /** Sampling and recording the baseline complete the invariant. */
  lemma SettleInv(c: Sysctls, s: LeoState, now: ClockUs, a: Ack, p: PhaseStep)
    requires Inv(c, s, now) && PhaseFound(c, s, now, a, p)
    ensures Inv(c, Settle(c, p, a, s.phase), a.nowReal)
    ensures Kept(c, s, a) ==> Advances(c, s, now, Settle(c, p, a, s.phase), a.nowReal)
  {
    MeasureKeepsControl(c, p.state, a, p.phase);
  }

  /** One ACK keeps the invariant; under a kept snapshot the stage never goes back and a
      recorded baseline is never replaced. */
  lemma StepInv(c: Sysctls, s: LeoState, now: ClockUs, a: Ack)
    requires Inv(c, s, now) && now <= a.nowReal
    ensures Inv(c, Step(c, s, a).state, a.nowReal)
    ensures Kept(c, s, a) ==> Advances(c, s, now, Step(c, s, a).state, a.nowReal)
  {
    if Enabled(c) {
      if Kept(c, s, a) { KeptPhase(c, s, now, a); } else { FreshPhase(c, s, now, a); }
      SettleInv(c, s, now, a, FindPhase(c, s, a));
    }
  }

  ghost predicate Advances(c: Sysctls, s: LeoState, now: ClockUs, s': LeoState, now': ClockUs) {
    && s'.frozen && s'.snap == s.snap
    && Stage(c, s, now) <= Stage(c, s', now')
    && (s.preStarted ==> s'.preStarted && s'.captureWnd == s.captureWnd && s'.captureRcvNxt == s.captureRcvNxt)
  }

  lemma {:induction false} RunInv(c: Sysctls, s: LeoState, first: Ack, acks: seq<Ack>)
    requires Inv(c, s, first.nowReal) && Chronological([first] + acks)
    ensures Inv(c, Run(c, s, acks), ([first] + acks)[|acks|].nowReal)
  {
    if acks != [] {
      var n := |acks| - 1;
      var all := [first] + acks;
      assert [first] + acks[..n] == all[..|all| - 1];
      RunInv(c, s, first, acks[..n]);
      assert Follows(all[n], all[n + 1]);
      StepInv(c, Run(c, s, acks[..n]), all[n].nowReal, acks[n]);
    }
  }

  // ------------------------------------------------------- order of the phases

  lemma {:induction false} StagesAdvance(c: Sysctls, s: LeoState, first: Ack, acks: seq<Ack>)
    requires Inv(c, s, first.nowReal) && s.frozen
    requires Chronological([first] + acks) && KeptThrough(c, s, acks)
    ensures Advances(c, s, first.nowReal, Run(c, s, acks), ([first] + acks)[|acks|].nowReal)
  {
    if acks != [] {
      var n := |acks| - 1;
      DropLast(c, s, first, acks);
      StagesAdvance(c, s, first, acks[..n]);
      var now := ([first] + acks[..n])[n].nowReal;
      RunInv(c, s, first, acks[..n]);
      var mid := Run(c, s, acks[..n]);
      StepInv(c, mid, now, acks[n]);
      AdvancesTransitive(c, s, first.nowReal, mid, now, Step(c, mid, acks[n]).state, acks[n].nowReal);
    }
  }

  /** Between two ACKs of one snapshot, however many ACKs lie between them, the stage
      does not go back, the snapshot is the same one and a baseline once recorded stands;
      the phase at either end is the one of the stage. */
  lemma PhasesInOrder(c: Sysctls, s: LeoState, first: Ack, acks: seq<Ack>)
    requires Inv(c, s, first.nowReal) && s.frozen
    requires Chronological([first] + acks) && KeptThrough(c, s, acks)
    ensures var s', now' := Run(c, s, acks), ([first] + acks)[|acks|].nowReal;
            && Advances(c, s, first.nowReal, s', now')
            && s.phase == PhaseOf(Stage(c, s, first.nowReal))
            && s'.phase == PhaseOf(Stage(c, s', now'))
  {
    StagesAdvance(c, s, first, acks);
    RunInv(c, s, first, acks);
  }

  lemma AdvancesTransitive(c: Sysctls, s: LeoState, t: ClockUs, s': LeoState, t': ClockUs, s'': LeoState, t'': ClockUs)
    requires Advances(c, s, t, s', t') && Advances(c, s', t', s'', t'')
    ensures Advances(c, s, t, s'', t'')
  {
  }

  lemma DropLast(c: Sysctls, s: LeoState, first: Ack, acks: seq<Ack>)
    requires acks != [] && Chronological([first] + acks) && KeptThrough(c, s, acks)
    ensures var n := |acks| - 1;
            && Chronological([first] + acks[..n]) && KeptThrough(c, s, acks[..n])
            && Kept(c, Run(c, s, acks[..n]), acks[n])
            && Follows(([first] + acks[..n])[n], acks[n])
  {
    var n := |acks| - 1;
    var all := [first] + acks;
    assert [first] + acks[..n] == all[..|all| - 1];
    assert Follows(all[n], all[n + 1]);
  }

  lemma RampStartsAtMinimum(s: LeoState, normalWin: U32)
    ensures RecoveryTarget(s, normalWin, 0) == s.snap.minRwnd || s.snap.recoveryUs == 0
  {
  }

  /** However long the blackout, the first ACK past the boundary starts the ramp at the
      frozen minimum, when the frozen ramp length is not zero. */
  lemma FirstAckAfterBoundaryStartsRamp(c: Sysctls, s: LeoState, now: ClockUs, a: Ack)
    requires Inv(c, s, now) && now <= a.nowReal
    requires s.frozen && !s.recoveryStarted && s.snap.recoveryUs > 0
    requires PeriodId(c, a.nowReal) != s.snap.periodId
    ensures var o := Step(c, s, a);
            && o.phase == Recovery && o.elapsed == 0
            && o.uncapped == s.snap.minRwnd
            && o.state.snap == s.snap && o.state.recoveryStartUs == a.nowReal
  {
    PeriodIdMonotone(c, now, a.nowReal);
    var p := FindPhase(c, s, a);
    assert p == PhaseStep(s.(recoveryStarted := true, recoveryStartUs := a.nowReal), Recovery, 0);
    MeasureKeepsControl(c, p.state, a, p.phase);
    RampStartsAtMinimum(Settle(c, p, a, s.phase), a.normalWin);
  }

  /** A running ramp is kept exactly until it has run its length, and inside it the
      phase is RECOVERY at the true elapsed time. */
  lemma RampRunsItsLength(c: Sysctls, s: LeoState, now: ClockUs, a: Ack)
    requires Inv(c, s, now) && now <= a.nowReal && s.frozen && s.recoveryStarted
    ensures Kept(c, s, a) <==> a.nowReal - s.recoveryStartUs < s.snap.recoveryUs
    ensures Kept(c, s, a) ==>
              var o := Step(c, s, a);
              o.phase == Recovery && o.elapsed == a.nowReal - s.recoveryStartUs && o.state.snap == s.snap
  {
    PeriodIdMonotone(c, now, a.nowReal);
    if Kept(c, s, a) {
      KeptPhase(c, s, now, a);
      var p := FindPhase(c, s, a);
      MeasureKeepsControl(c, p.state, a, p.phase);
    }
  }

  /** `leo_phase` never sees a frozen state whose ramp has expired. */
  lemma ExpiredRampUnreachable(c: Sysctls, s: LeoState, now: ClockUs, a: Ack)
    requires Enabled(c) && s.initialized && Inv(c, s, now) && now <= a.nowReal
    ensures var f := MaybeFreeze(c, s, a);
            f.frozen && f.recoveryStarted ==> Since(a.nowReal, f.recoveryStartUs) < f.snap.recoveryUs
  {
  }

  /** OUTAGE is confined to the frozen period and, when the period exceeds half a round
      trip, ends by the boundary without being cut. */
  lemma OutageEndsByBoundary(c: Sysctls, s: LeoState, now: ClockUs, a: Ack)
    requires Inv(c, s, now) && now <= a.nowReal && Enabled(c)
    requires Step(c, s, a).phase == Outage
    ensures var p := Step(c, s, a).state.snap;
            && PeriodId(c, a.nowReal) == p.periodId
            && PeriodPosition(c, a.nowReal) < OutageEnd(c, p) <= PeriodUs(c)
            && (PeriodUs(c) > p.rttHalfUs ==> OutageEnd(c, p) == OutageStart(c, p) + p.outageUs)
  {
    StepInv(c, s, now, a);
    var s' := Step(c, s, a).state;
    assert s'.phase == Outage;
    assert s'.frozen;
  }

  // ------------------------------------------------------------- early enough

  /** The freeze-ahead time is exactly the schedule that would be frozen, plus the guard. */
  lemma FreezeAheadCoversSchedule(c: Sysctls, m: Measurements, a: Ack)
    ensures var p := TakeSnapshot(c, m, a);
            FreezeAhead(c, m, a)
            == p.preUs + p.rttHalfUs + p.drainUs + p.guardUs + c.freezeGuardMs * USEC_PER_MSEC
  {
  }

  /** The measurements an ACK is handled under; the first one of a socket takes its own. */
  function MeasuredFor(c: Sysctls, s: LeoState, a: Ack): Measurements {
    if s.initialized then s.meas else Measure(c, s, a, Normal).meas
  }

  /** An ACK at or past the PRE start implied by the current measurements is never
      handled unfrozen: it takes the snapshot and runs its phase, also when it is the first
      of the socket and when the schedule saturates at the start of the period. */
  lemma FreezeIsEarlyEnough(c: Sysctls, s: LeoState, now: ClockUs, a: Ack)
    requires Enabled(c) && c.periodMs > 0 && Inv(c, s, now) && now <= a.nowReal
    requires !Kept(c, s, a)
    requires PreStart(c, TakeSnapshot(c, MeasuredFor(c, s, a), a)) <= PeriodPosition(c, a.nowReal)
    ensures var p := TakeSnapshot(c, MeasuredFor(c, s, a), a);
            var o := Step(c, s, a);
            && o.state.frozen && o.state.snap == p
            && (PeriodPosition(c, a.nowReal) < OutageEnd(c, p) ==> Controlling(o.phase))
  {
    FreezeAheadCoversSchedule(c, MeasuredFor(c, s, a), a);
    if !s.initialized { FirstMeasurement(c, s, a); }
    assert MaybeFreeze(c, if s.initialized then s else Measure(c, s, a, Normal), a).frozen;
    FreshPhase(c, s, now, a);
    var f := FindPhase(c, s, a);
    SettleInv(c, s, now, a, f);
    MeasureKeepsControl(c, f.state, a, f.phase);
  }

  // --------------------------------------------------------- targets and edges

  /** How far a controlled ACK stands below the captured window. */
  function Reduction(c: Sysctls, s: LeoState, a: Ack): nat
    requires s.snap.minRwnd <= s.captureWnd
  {
    var span := s.captureWnd - s.snap.minRwnd;
    var earned := Min(Received(s.captureRcvNxt, a), span);
    if s.phase != PreHandover then earned
    else if s.snap.preUs == 0 then 0
    else Min(Ramp(span, Max(0, PeriodPosition(c, a.nowReal) - PreStart(c, s.snap)), s.snap.preUs), earned)
  }

  lemma TargetOfState(c: Sysctls, s: LeoState, a: Ack, elapsed: U64)
    requires s.preStarted && s.snap.minRwnd <= s.captureWnd && Controlling(s.phase)
    requires s.phase == PreHandover ==> elapsed == PeriodPosition(c, a.nowReal) - PreStart(c, s.snap)
    ensures Target(s, a, s.phase, elapsed) == s.captureWnd - Reduction(c, s, a)
  {
    if s.phase == PreHandover {
      var span := s.captureWnd - s.snap.minRwnd;
      if span > 0 && s.snap.preUs > 0 {
        var planned := Ramp(span, elapsed, s.snap.preUs);
        assert Max(0, PeriodPosition(c, a.nowReal) - PreStart(c, s.snap)) == elapsed;
        assert Reduction(c, s, a) == Min(planned, Min(Received(s.captureRcvNxt, a), span));
      }
    } else {
      assert Trunc32(s.captureWnd - s.snap.minRwnd) == s.captureWnd - s.snap.minRwnd;
    }
  }

  lemma ElapsedInPre(c: Sysctls, s: LeoState, a: Ack)
    ensures var p := FindPhase(c, s, a);
            p.phase == PreHandover ==> p.elapsed == PeriodPosition(c, a.nowReal) - PreStart(c, p.state.snap)
  {
  }

  /** In PRE, DRAIN and OUTAGE the target is the captured window less the reduction:
      the planned ramp in PRE only delays what the received bytes allow. */
  lemma ControlledTarget(c: Sysctls, s: LeoState, now: ClockUs, a: Ack)
    requires Inv(c, s, now) && now <= a.nowReal && Enabled(c)
    requires Controlling(Step(c, s, a).phase)
    ensures var o := Step(c, s, a);
            && o.state.frozen && o.state.preStarted && o.state.phase == o.phase
            && o.state.snap.minRwnd <= o.state.captureWnd
            && o.uncapped == o.state.captureWnd - Reduction(c, o.state, a)
  {
    var p := FindPhase(c, s, a);
    StepInv(c, s, now, a);
    ElapsedInPre(c, s, a);
    if Kept(c, s, a) { KeptPhase(c, s, now, a); } else { FreshPhase(c, s, now, a); }
    MeasureKeepsControl(c, p.state, a, p.phase);
    TargetOfState(c, Settle(c, p, a, s.phase), a, p.elapsed);
  }

  /** A baseline recorded under a kept snapshot or at a controlled ACK is the ACK's own. */
  lemma BaselineRecordedOnce(c: Sysctls, s: LeoState, now: ClockUs, a: Ack)
    requires Inv(c, s, now) && now <= a.nowReal && Enabled(c)
    ensures var o := Step(c, s, a);
            && (Controlling(o.phase) ==> o.state.preStarted)
            && (Kept(c, s, a) && s.preStarted ==>
                  o.state.captureWnd == s.captureWnd && o.state.captureRcvNxt == s.captureRcvNxt)
            && (Controlling(o.phase) && !(Kept(c, s, a) && s.preStarted) ==>
                  && o.state.captureRcvNxt == Trunc32(a.rcvNxt)
                  && o.state.captureWnd == Max(Min(a.normalWin, o.state.snap.startRwnd), o.state.snap.minRwnd)
                  && o.uncapped == o.state.captureWnd)
  {
    StepInv(c, s, now, a);
    if Kept(c, s, a) { KeptPhase(c, s, now, a); } else { FreshPhase(c, s, now, a); }
    var p := FindPhase(c, s, a);
    MeasureKeepsControl(c, p.state, a, p.phase);
    if Controlling(p.phase) {
      ControlledTarget(c, s, now, a);
      ModularDifference(a.rcvNxt, a.rcvNxt);
    }
  }
}
