/** A run through a whole handover with the default settings and a zero offset: every phase
    is reached under one snapshot, in order. */
module LeoScenario {
  import opened MachineInts
  import opened LeoParameters
  import opened LeoController
  import opened LeoRuns

  const DEFAULTS := Sysctls(
    true, true, true, 15000, 0, 4, 50, 50, 20, 300, 10, 80, 5, 10, 80, 70, 250, 3, 30, true, true, 20, 80, 1000, 7)

  /** The same with a segment count whose product with an MSS of 1024 wraps to zero. */
  const WRAPPING := DEFAULTS.(minSegs := 0x40_0000)

  predicate Modelled(c: Sysctls) { c == DEFAULTS || c == WRAPPING }

  function MinOf(c: Sysctls): U32 { if c == WRAPPING then 0 else 4096 }

  function PreOf(c: Sysctls): U32 { if c == WRAPPING then 32_000 else 31_868 }

  const MEASURED := Measurements(0, 0, 31_250_000, 50_000, 50_000, 1_000_000)

  function SnapshotOf(c: Sysctls): Snapshot {
    Snapshot(1, 50_000, 25_000, 31_250_000, 1_000_000, MinOf(c), PreOf(c), 25_000, 25_000, 25_000, 30_000)
  }

  /** An ACK at this time, with a 1 MB ordinary window and a 50 ms round trip. */
  function At(us: ClockUs): Ack {
    Ack(us, 0, 1_000_000, 0, 0, 1024, 400_000)
  }

  lemma MinOfIsMinimum(c: Sysctls, us: ClockUs)
    requires Modelled(c)
    ensures MinRwnd(c, At(us)) == MinOf(c)
  {
    assert Pow2(7) == 128;
    assert RoundUp(4096, 128) == 4096;
    assert RoundUp(0, 128) == 0;
  }

  lemma DefaultQuantities(c: Sysctls, us: ClockUs)
    requires Modelled(c)
    ensures ReceiverRtt(c, At(us)) == 50_000 && FallbackRate(c) == 31_250_000
    ensures PredictionGuard(c) == 30_000
    ensures CalcPre(c, 1_000_000, MinOf(c), 31_250_000) == PreOf(c)
    ensures CalcDrain(c, 50_000) == 25_000 && CalcRecovery(c, 50_000) == 25_000
    ensures CalcOutage(c, 50_000, 50_000) == 25_000
  {
  }

  lemma Position(c: Sysctls, us: ClockUs)
    requires Modelled(c)
    ensures PeriodPosition(c, us) == us % 15_000_000 && PeriodId(c, us) == us / 15_000_000 + 1
  {
  }

  lemma Measured(c: Sysctls, us: ClockUs, m: Measurements)
    requires m == MEASURED && Modelled(c)
    ensures StartRwnd(c, m, At(us)) == 1_000_000 && FreezeAhead(c, m, At(us)) == PreOf(c) + 130_000
    ensures us < 15_000_000 ==> TakeSnapshot(c, m, At(us)) == SnapshotOf(c)
  {
    hide MinRwnd, ReceiverRtt, FallbackRate, PredictionGuard, CalcPre, CalcDrain, CalcRecovery, CalcOutage, PeriodId;
    MinOfIsMinimum(c, us);
    DefaultQuantities(c, us);
    Position(c, us);
  }

  const WAITING := INITIAL.(meas := MEASURED, initialized := true)

  function CapturedBy(c: Sysctls): LeoState {
    WAITING.(snap := SnapshotOf(c), captureWnd := 1_000_000, preStarted := true, frozen := true, phase := PreHandover)
  }

  const CAPTURED := CapturedBy(DEFAULTS)
  const RAMPING := CAPTURED.(recoveryStarted := true, recoveryStartUs := 15_500_000, phase := Recovery)

  lemma StartsWaiting(c: Sysctls)
    requires Modelled(c)
    ensures Step(c, INITIAL, At(0)).state == WAITING && Step(c, INITIAL, At(0)).window == 1_000_000
  {
    hide MinRwnd, ReceiverRtt, FallbackRate, FreezeAhead, PeriodPosition, PeriodId;
    DefaultQuantities(c, 0);
    Position(c, 0);
    Measured(c, 0, MEASURED);
  }

  lemma Freezes(c: Sysctls)
    requires Modelled(c)
    ensures MaybeFreeze(c, WAITING, At(14_890_000)) == WAITING.(snap := SnapshotOf(c), frozen := true)
  {
    hide FreezeAhead, TakeSnapshot, PeriodPosition, PeriodId;
    Position(c, 14_890_000);
    Measured(c, 14_890_000, MEASURED);
  }

  lemma FindsPre(c: Sysctls)
    requires Modelled(c)
    ensures FindPhase(c, WAITING, At(14_890_000))
            == PhaseStep(WAITING.(snap := SnapshotOf(c), frozen := true), PreHandover, PreOf(c) - 30_000)
  {
    hide MaybeFreeze, PeriodPosition, PeriodId;
    Freezes(c);
    Position(c, 14_890_000);
  }

  lemma FreezesIntoPre(c: Sysctls)
    requires Modelled(c)
    ensures Step(c, WAITING, At(14_890_000)).state == CapturedBy(c) && Step(c, WAITING, At(14_890_000)).window == 1_000_000
  {
    hide FindPhase, PreTarget, RateSample;
    FindsPre(c);
    NothingReceived(CapturedBy(c), At(14_890_000), PreOf(c) - 30_000);
  }

  /** Without a byte received PRE does not reduce the window. */
  lemma NothingReceived(s: LeoState, a: Ack, elapsed: U64)
    requires s.preStarted && s.captureRcvNxt == 0 && a.rcvNxt == 0 && s.captureWnd == 1_000_000 && s.snap.minRwnd < 1_000_000
    ensures PreTarget(s, a, elapsed) == 1_000_000
  {
    assert Received(0, a) == 0;
  }

  /** The same ACK at this position of the stream. */
  function AtByte(us: ClockUs, rcvNxt: nat): Ack
    requires rcvNxt <= TWO_32
  {
    At(us).(rcvNxt := rcvNxt, bytesReceived := rcvNxt)
  }

  /** Before the boundary a kept snapshot only changes its phase. */
  lemma StaysBeforeBoundary(c: Sysctls, s: LeoState, a: Ack, phase: Phase)
    requires Modelled(c)
    requires s == CapturedBy(c).(phase := s.phase) && Controlling(s.phase) && 14_890_000 <= a.nowReal < 15_000_000
    requires a == At(a.nowReal).(rcvNxt := a.rcvNxt, bytesReceived := a.bytesReceived)
    requires phase == (if a.nowReal < 14_920_000 then PreHandover else if a.nowReal < 14_975_000 then Drain else Outage)
    requires s.phase == PreHandover || phase != PreHandover
    ensures Kept(c, s, a)
    ensures var o := Step(c, s, a);
            o.state == CapturedBy(c).(phase := phase) && o.phase == phase && o.window == Min(o.uncapped, 1_000_000)
            && (phase == Drain ==> o.uncapped == SafeTarget(o.state, a, MinOf(c)))
  {
    hide FreezeAhead, TakeSnapshot, PeriodPosition, PeriodId, PreTarget, SafeTarget, RateSample;
    Position(c, a.nowReal);
  }

  lemma RampStarts()
    ensures Step(DEFAULTS, CAPTURED.(phase := Outage), At(15_500_000)).state == RAMPING
    ensures Step(DEFAULTS, CAPTURED.(phase := Outage), At(15_500_000)).window == 4096
  {
    hide FreezeAhead, TakeSnapshot, PeriodPosition, PeriodId, RecoveryTarget, RateSample;
    Position(DEFAULTS, 15_500_000);
    RampStartsAtMinimum(RAMPING, 1_000_000);
  }

  lemma RampReleased()
    ensures MaybeFreeze(DEFAULTS, RAMPING, At(15_525_000)) == RAMPING.(frozen := false)
  {
    hide TakeSnapshot, FreezeAhead, PeriodPosition, PeriodId;
    Position(DEFAULTS, 15_525_000);
    Measured(DEFAULTS, 15_525_000, MEASURED);
  }

  lemma RampEnds()
    ensures Step(DEFAULTS, RAMPING, At(15_525_000)).state == RAMPING.(frozen := false, phase := Normal)
  {
    hide MaybeFreeze, PeriodPosition, PeriodId, RecoveryTarget, RateSample;
    RampReleased();
  }

  const HANDOVER := [At(0), At(14_890_000), At(14_930_000), At(14_980_000), At(15_500_000), At(15_525_000)]

  function After(n: nat): LeoState
    requires n <= 6
  {
    Run(DEFAULTS, INITIAL, HANDOVER[..n])
  }

  lemma AfterNext(n: nat)
    requires n < 6
    ensures After(n + 1) == Step(DEFAULTS, After(n), HANDOVER[n]).state && After(0) == INITIAL
  {
    assert HANDOVER[..n + 1][..n] == HANDOVER[..n];
  }

  /** NORMAL, PRE, DRAIN, OUTAGE, RECOVERY and NORMAL again: one snapshot and one baseline
      from the freeze to the end of the ramp, across a blackout of half a second. */
  lemma WholeHandover()
    ensures Chronological(HANDOVER)
    ensures After(1) == WAITING && After(2) == CAPTURED && After(3) == CAPTURED.(phase := Drain)
    ensures After(4) == CAPTURED.(phase := Outage) && After(5) == RAMPING
    ensures After(6) == RAMPING.(frozen := false, phase := Normal)
  {
    hide Step, After;
    StartsWaiting(DEFAULTS);
    FreezesIntoPre(DEFAULTS);
    StaysBeforeBoundary(DEFAULTS, CAPTURED, At(14_930_000), Drain);
    StaysBeforeBoundary(DEFAULTS, CAPTURED.(phase := Drain), At(14_980_000), Outage);
    RampStarts();
    RampEnds();
    AfterNext(0);
    AfterNext(1);
    AfterNext(2);
    AfterNext(3);
    AfterNext(4);
    AfterNext(5);
  }
}
