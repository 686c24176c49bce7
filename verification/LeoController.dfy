/** The state transition of redhat_kernel/tcp_redhat.c, one function per kernel routine
    that changes the per-socket state, and their composition for one outgoing ACK. */
module LeoController {
  import opened MachineInts
  import opened LeoParameters

  datatype Phase = Normal | PreHandover | Drain | Outage | Recovery

  datatype Measurements = Measurements(
    lastSampleUs: ClockUs, lastBytes: U64, rate: U64,
    rttUs: U32, rttBaselineUs: U32, normalRwnd: U32)

  /** The parameters frozen for one predicted handover. */
  datatype Snapshot = Snapshot(
    periodId: U64, rttUs: U32, rttHalfUs: U32, rate: U64, startRwnd: U32, minRwnd: U32,
    preUs: U32, outageUs: U32, drainUs: U32, recoveryUs: U32, guardUs: U32)

  datatype LeoState = LeoState(
    meas: Measurements, snap: Snapshot,
    captureWnd: U32, captureRcvNxt: U32, preStarted: bool,
    recoveryStarted: bool, recoveryStartUs: ClockUs,
    initialized: bool, frozen: bool, phase: Phase)

  const NO_MEASUREMENTS := Measurements(0, 0, 0, 0, 0, 0)
  const NO_SNAPSHOT := Snapshot(0, 0, 0, 0, 0, 0, 0, 0, 0, 0, 0)
  const INITIAL := LeoState(NO_MEASUREMENTS, NO_SNAPSHOT, 0, 0, false, false, 0, false, false, Normal)

  predicate Controlling(p: Phase) {
    p == PreHandover || p == Drain || p == Outage
  }

  function Since(now: ClockUs, before: ClockUs): U64 {
    Trunc64(now - before)
  }

  // ------------------------------------------------------------------ measurements

  function RateSample(m: Measurements, a: Ack): U64
    requires Since(a.nowMono, m.lastSampleUs) > 0
  {
    var bytes := Trunc64(a.bytesReceived - m.lastBytes);
    if bytes == 0 then 0
    else
      DivShrinks(Trunc64(bytes * USEC_PER_SEC), Since(a.nowMono, m.lastSampleUs));
      Trunc64(bytes * USEC_PER_SEC) / Since(a.nowMono, m.lastSampleUs)
  }

  /** A sample is due once the sampling interval has passed on the monotonic clock. */
  predicate SampleDue(c: Sysctls, m: Measurements, a: Ack) {
    Since(a.nowMono, m.lastSampleUs) >= Max(1, c.sampleMs) * USEC_PER_MSEC
  }

  function Measure(c: Sysctls, s: LeoState, a: Ack, phase: Phase): LeoState {
    if !s.initialized then
      INITIAL.(
        meas := Measurements(a.nowMono, a.bytesReceived, FallbackRate(c), ReceiverRtt(c, a), ReceiverRtt(c, a), a.normalWin),
        initialized := true)
    else if !SampleDue(c, s.meas, a) then s
    else
      var m := s.meas.(rttUs := ReceiverRtt(c, a), lastBytes := a.bytesReceived, lastSampleUs := a.nowMono);
      if phase != Normal then s.(meas := m)
      else s.(meas := m.(
        rate := Ewma(s.meas.rate, RateSample(s.meas, a), c.ewmaShift),
        rttBaselineUs := Ewma(s.meas.rttBaselineUs, ReceiverRtt(c, a), c.ewmaShift),
        normalRwnd := Ewma(s.meas.normalRwnd, a.normalWin, c.ewmaShift)))
  }

  // ------------------------------------------------------------------------ freeze

  function StartRwnd(c: Sysctls, m: Measurements, a: Ack): U32 {
    Max(Min(if m.normalRwnd != 0 then m.normalRwnd else a.normalWin, a.normalWin), MinRwnd(c, a))
  }

  function CurrentRtt(c: Sysctls, m: Measurements, a: Ack): U32 {
    if m.rttUs != 0 then m.rttUs else ReceiverRtt(c, a)
  }

  function CurrentRate(c: Sysctls, m: Measurements): U64 {
    if m.rate != 0 then m.rate else FallbackRate(c)
  }

  function FreezeAhead(c: Sysctls, m: Measurements, a: Ack): U64 {
    var rtt := CurrentRtt(c, m, a);
    CalcPre(c, StartRwnd(c, m, a), MinRwnd(c, a), CurrentRate(c, m)) + rtt / 2
    + CalcDrain(c, rtt) + c.freezeGuardMs * USEC_PER_MSEC + PredictionGuard(c)
  }

  function TakeSnapshot(c: Sysctls, m: Measurements, a: Ack): Snapshot {
    var rtt := CurrentRtt(c, m, a);
    var rate := CurrentRate(c, m);
    Snapshot(
      PeriodId(c, a.nowReal), rtt, rtt / 2, rate, StartRwnd(c, m, a), MinRwnd(c, a),
      CalcPre(c, StartRwnd(c, m, a), MinRwnd(c, a), rate),
      CalcOutage(c, rtt, m.rttBaselineUs), CalcDrain(c, rtt), CalcRecovery(c, rtt), PredictionGuard(c))
  }

  function Freeze(c: Sysctls, s: LeoState, a: Ack): LeoState {
    s.(snap := TakeSnapshot(c, s.meas, a), preStarted := false, recoveryStarted := false, recoveryStartUs := 0,
       captureWnd := 0, captureRcvNxt := 0, frozen := true)
  }

  /** The snapshot is released once its ramp has run its length or, without a ramp,
      once the period it was taken for is over. */
  predicate Released(c: Sysctls, s: LeoState, a: Ack) {
    || (s.recoveryStarted && Since(a.nowReal, s.recoveryStartUs) >= s.snap.recoveryUs)
    || (s.snap.recoveryUs == 0 && PeriodId(c, a.nowReal) != s.snap.periodId)
  }

  /** The snapshot in force before this ACK is still in force at it. */
  predicate Kept(c: Sysctls, s: LeoState, a: Ack) {
    s.frozen && !Released(c, s, a)
  }

  function MaybeFreeze(c: Sysctls, s: LeoState, a: Ack): LeoState {
    if c.periodMs == 0 then s
    else
      var s' := if s.frozen && Released(c, s, a) then s.(frozen := false) else s;
      if !s'.frozen && PeriodUs(c) - PeriodPosition(c, a.nowReal) <= FreezeAhead(c, s.meas, a)
      then Freeze(c, s', a) else s'
  }

  // ------------------------------------------------------------------------- phase

  function OutageStart(c: Sysctls, p: Snapshot): nat {
    Monus(PeriodUs(c), p.rttHalfUs)
  }

  function DrainStart(c: Sysctls, p: Snapshot): nat {
    Monus(OutageStart(c, p), p.drainUs + p.guardUs)
  }

  function PreStart(c: Sysctls, p: Snapshot): nat {
    Monus(DrainStart(c, p), p.preUs)
  }

  function OutageEnd(c: Sysctls, p: Snapshot): nat {
    Min(OutageStart(c, p) + p.outageUs, PeriodUs(c))
  }

  datatype PhaseStep = PhaseStep(state: LeoState, phase: Phase, elapsed: U64)

  /** `leo_phase`: the schedule before the boundary, the ramp after it. */
  function PhaseAt(c: Sysctls, s: LeoState, a: Ack): PhaseStep {
    if !s.frozen || c.periodMs == 0 then PhaseStep(s, Normal, 0)
    else
      var pos := PeriodPosition(c, a.nowReal);
      if PeriodId(c, a.nowReal) == s.snap.periodId then
        if PreStart(c, s.snap) <= pos < DrainStart(c, s.snap) then
          PhaseStep(s, PreHandover, pos - PreStart(c, s.snap))
        else if DrainStart(c, s.snap) <= pos < OutageStart(c, s.snap) then
          PhaseStep(s, Drain, pos - DrainStart(c, s.snap))
        else if OutageStart(c, s.snap) <= pos < OutageEnd(c, s.snap) then
          PhaseStep(s, Outage, pos - OutageStart(c, s.snap))
        else PhaseStep(s, Normal, 0)
      else if PeriodId(c, a.nowReal) > s.snap.periodId && s.snap.recoveryUs != 0 then
        if !s.recoveryStarted then
          PhaseStep(s.(recoveryStarted := true, recoveryStartUs := a.nowReal), Recovery, 0)
        else
          var elapsed := Since(a.nowReal, s.recoveryStartUs);
          PhaseStep(s, if elapsed < s.snap.recoveryUs then Recovery else Normal, elapsed)
      else PhaseStep(s, Normal, 0)
  }

  // ----------------------------------------------------------------------- targets

  /** Whether this ACK records the baseline the reduction is measured from. */
  predicate Captures(s: LeoState, oldPhase: Phase, phase: Phase) {
    || (phase == PreHandover && oldPhase != PreHandover)
    || (Controlling(phase) && !s.preStarted)
  }

  function Capture(s: LeoState, a: Ack, oldPhase: Phase, phase: Phase): LeoState {
    if Captures(s, oldPhase, phase) then
      s.(captureWnd := Max(Min(a.normalWin, s.snap.startRwnd), s.snap.minRwnd),
         captureRcvNxt := Trunc32(a.rcvNxt), preStarted := true)
    else s
  }

  function PreTarget(s: LeoState, a: Ack, elapsed: U64): U32 {
    if !s.preStarted then s.snap.startRwnd
    else if s.captureWnd <= s.snap.minRwnd then s.snap.minRwnd
    else if s.snap.preUs == 0 then s.captureWnd
    else
      var delta := s.captureWnd - s.snap.minRwnd;
      s.captureWnd - Min(Min(Ramp(delta, elapsed, s.snap.preUs), Received(s.captureRcvNxt, a)), delta)
  }

  /** The `u32` subtractions wrap unless the captured window is at least the minimum. */
  function SafeTarget(s: LeoState, a: Ack, desired: U32): U32 {
    var maxReduction := Min(Received(s.captureRcvNxt, a), Trunc32(s.captureWnd - s.snap.minRwnd));
    Max(desired, Trunc32(s.captureWnd - maxReduction))
  }

  function RecoveryTarget(s: LeoState, normalWin: U32, elapsed: U64): U32 {
    var end := Max(Min(normalWin, s.snap.startRwnd), s.snap.minRwnd);
    if s.snap.recoveryUs == 0 || end <= s.snap.minRwnd then end
    else s.snap.minRwnd + Ramp(end - s.snap.minRwnd, elapsed, s.snap.recoveryUs)
  }

  function Target(s: LeoState, a: Ack, phase: Phase, elapsed: U64): U32 {
    match phase
    case PreHandover => PreTarget(s, a, elapsed)
    case Drain => SafeTarget(s, a, s.snap.minRwnd)
    case Outage => SafeTarget(s, a, s.snap.minRwnd)
    case Recovery => RecoveryTarget(s, a.normalWin, elapsed)
    case Normal => a.normalWin
  }

  // -------------------------------------------------------------------- one ACK

  predicate Enabled(c: Sysctls) {
    c.rwndEnable && c.dynamicEnable && c.portMatches
  }

  /** State after the ACK, the phase it was handled in, the target before the final
      cap by the ordinary window, and the window returned. */
  datatype Outcome = Outcome(state: LeoState, phase: Phase, elapsed: U64, uncapped: U32, window: U32)

  /** Initialise on the first ACK, then release, freeze and find the phase. */
  function FindPhase(c: Sysctls, s: LeoState, a: Ack): PhaseStep {
    PhaseAt(c, MaybeFreeze(c, if s.initialized then s else Measure(c, s, a, Normal), a), a)
  }

  /** Sample under the phase found and record the baseline if it is due. */
  function Settle(c: Sysctls, p: PhaseStep, a: Ack, oldPhase: Phase): LeoState {
    Capture(Measure(c, p.state, a, p.phase), a, oldPhase, p.phase).(phase := p.phase)
  }

  function Step(c: Sysctls, s: LeoState, a: Ack): Outcome {
    if !Enabled(c) then Outcome(s, s.phase, 0, a.normalWin, a.normalWin)
    else
      var p := FindPhase(c, s, a);
      var s' := Settle(c, p, a, s.phase);
      var uncapped := Target(s', a, p.phase, p.elapsed);
      Outcome(s', p.phase, p.elapsed, uncapped, Min(uncapped, a.normalWin))
  }

  function Run(c: Sysctls, s: LeoState, acks: seq<Ack>): LeoState {
    if acks == [] then s
    else Step(c, Run(c, s, acks[..|acks| - 1]), acks[|acks| - 1]).state
  }
}
