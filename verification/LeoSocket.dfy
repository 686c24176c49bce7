/** The per-socket state of redhat_kernel/tcp_redhat.c updated in place, routine by
    routine; each method is tied to the transition it performs. */
module LeoSocket {
  import opened MachineInts
  import opened LeoParameters
  import C = LeoController

  class DynamicState {
    const sysctls: Sysctls

    var meas: C.Measurements
    var snap: C.Snapshot
    var captureWnd: U32
    var captureRcvNxt: U32
    var preStarted: bool
    var recoveryStarted: bool
    var recoveryStartUs: ClockUs
    var initialized: bool
    var frozen: bool
    var phase: C.Phase

    function View(): C.LeoState
      reads this
    {
      C.LeoState(meas, snap, captureWnd, captureRcvNxt, preStarted, recoveryStarted, recoveryStartUs,
                 initialized, frozen, phase)
    }

    constructor (sysctls: Sysctls)
      ensures this.sysctls == sysctls && View() == C.INITIAL
    {
      this.sysctls := sysctls;
      meas, snap := C.NO_MEASUREMENTS, C.NO_SNAPSHOT;
      captureWnd, captureRcvNxt, preStarted := 0, 0, false;
      recoveryStarted, recoveryStartUs := false, 0;
      initialized, frozen, phase := false, false, C.Normal;
    }

    /** `leo_update_measurements`: the averages learn only in NORMAL. */
    method UpdateMeasurements(a: Ack, phaseNow: C.Phase)
      modifies this
      ensures View() == C.Measure(sysctls, old(View()), a, phaseNow)
    {
      if !initialized {
        snap := C.NO_SNAPSHOT;
        captureWnd, captureRcvNxt, preStarted := 0, 0, false;
        recoveryStarted, recoveryStartUs, frozen := false, 0, false;
        var rtt := ReceiverRtt(sysctls, a);
        meas := C.Measurements(a.nowMono, a.bytesReceived, FallbackRate(sysctls), rtt, rtt, a.normalWin);
        phase := C.Normal;
        initialized := true;
        return;
      }
      if C.Since(a.nowMono, meas.lastSampleUs) < Max(1, sysctls.sampleMs) * USEC_PER_MSEC {
        return;
      }
      var rtt := ReceiverRtt(sysctls, a);
      if phaseNow == C.Normal {
        meas := meas.(rate := Ewma(meas.rate, C.RateSample(meas, a), sysctls.ewmaShift));
      }
      meas := meas.(rttUs := rtt);
      if phaseNow == C.Normal {
        meas := meas.(rttBaselineUs := Ewma(meas.rttBaselineUs, rtt, sysctls.ewmaShift));
        meas := meas.(normalRwnd := Ewma(meas.normalRwnd, a.normalWin, sysctls.ewmaShift));
      }
      meas := meas.(lastBytes := a.bytesReceived, lastSampleUs := a.nowMono);
    }

    /** `leo_freeze_parameters`. */
    method FreezeParameters(a: Ack)
      modifies this
      ensures View() == C.Freeze(sysctls, old(View()), a)
    {
      snap := C.TakeSnapshot(sysctls, meas, a);
      preStarted, recoveryStarted, recoveryStartUs := false, false, 0;
      captureWnd, captureRcvNxt := 0, 0;
      frozen := true;
    }

    /** `leo_maybe_freeze`. */
    method MaybeFreeze(a: Ack)
      modifies this
      ensures View() == C.MaybeFreeze(sysctls, old(View()), a)
    {
      if sysctls.periodMs == 0 {
        return;
      }
      var until := PeriodUs(sysctls) - PeriodPosition(sysctls, a.nowReal);
      var ahead := C.FreezeAhead(sysctls, meas, a);
      if frozen && recoveryStarted && C.Since(a.nowReal, recoveryStartUs) >= snap.recoveryUs {
        frozen := false;
      }
      if frozen && snap.recoveryUs == 0 && PeriodId(sysctls, a.nowReal) != snap.periodId {
        frozen := false;
      }
      if !frozen && until <= ahead {
        FreezeParameters(a);
      }
    }

    /** `leo_phase`, which starts the ramp as a side effect. */
    method FindPhase(a: Ack) returns (phaseNow: C.Phase, elapsed: U64)
      modifies this
      ensures C.PhaseStep(View(), phaseNow, elapsed) == C.PhaseAt(sysctls, old(View()), a)
    {
      phaseNow, elapsed := C.Normal, 0;
      if !frozen || sysctls.periodMs == 0 {
        return;
      }
      var pos := PeriodPosition(sysctls, a.nowReal);
      var id := PeriodId(sysctls, a.nowReal);
      if id == snap.periodId {
        var outageStart := Monus(PeriodUs(sysctls), snap.rttHalfUs);
        var drainStart := Monus(outageStart, snap.drainUs + snap.guardUs);
        var preStart := Monus(drainStart, snap.preUs);
        if preStart <= pos < drainStart {
          return C.PreHandover, pos - preStart;
        }
        if drainStart <= pos < outageStart {
          return C.Drain, pos - drainStart;
        }
        if outageStart <= pos < Min(outageStart + snap.outageUs, PeriodUs(sysctls)) {
          return C.Outage, pos - outageStart;
        }
        return;
      }
      if id > snap.periodId && snap.recoveryUs != 0 {
        if !recoveryStarted {
          recoveryStarted, recoveryStartUs := true, a.nowReal;
          return C.Recovery, 0;
        }
        elapsed := C.Since(a.nowReal, recoveryStartUs);
        if elapsed < snap.recoveryUs {
          phaseNow := C.Recovery;
        }
      }
    }

    method RecordBaseline(a: Ack)
      modifies this`captureWnd, this`captureRcvNxt, this`preStarted
      ensures captureWnd == Max(Min(a.normalWin, snap.startRwnd), snap.minRwnd)
      ensures captureRcvNxt == Trunc32(a.rcvNxt) && preStarted
    {
      captureWnd := Min(a.normalWin, snap.startRwnd);
      captureWnd := Max(captureWnd, snap.minRwnd);
      captureRcvNxt := Trunc32(a.rcvNxt);
      preStarted := true;
    }

    /** `tcp_leo_dynamic_target`: the window never exceeds the ordinary one. */
    method DynamicTarget(a: Ack) returns (window: U32)
      modifies this
      ensures View() == C.Step(sysctls, old(View()), a).state
      ensures window == C.Step(sysctls, old(View()), a).window
      ensures window <= a.normalWin
    {
      if !C.Enabled(sysctls) {
        return a.normalWin;
      }
      var oldPhase := phase;
      if !initialized {
        UpdateMeasurements(a, C.Normal);
      }
      MaybeFreeze(a);
      var phaseNow, elapsed := FindPhase(a);
      Settle(a, oldPhase, phaseNow);
      window := Min(C.Target(View(), a, phase, elapsed), a.normalWin);
    }

    /** Sample under the phase found, then record the baseline the phase calls for. */
    method Settle(a: Ack, oldPhase: C.Phase, phaseNow: C.Phase)
      modifies this
      ensures View() == C.Settle(sysctls, C.PhaseStep(old(View()), phaseNow, 0), a, oldPhase)
    {
      UpdateMeasurements(a, phaseNow);
      if phaseNow == C.PreHandover && oldPhase != C.PreHandover {
        RecordBaseline(a);
      }
      if C.Controlling(phaseNow) && !preStarted {
        RecordBaseline(a);
      }
      phase := phaseNow;
    }
  }
}
