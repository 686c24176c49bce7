/** The averages of the controller over whole runs, and its periodic clock against the
    millisecond clock of the fixed controller and the offset programmed by the monitor. */
module LeoEstimates {
  import opened MachineInts
  import opened LeoParameters
  import opened LeoController
  import opened LeoRuns

  // ----------------------------------------------------------------------- averages

  function EwmaRun(avg: nat, samples: seq<nat>, shift: nat): nat {
    if samples == [] then avg
    else Ewma(EwmaRun(avg, samples[..|samples| - 1], shift), samples[|samples| - 1], shift)
  }

  /** An average stays inside any interval that holds everything fed to it, and never
      returns to zero. */
  lemma {:induction false} EwmaRunBetween(avg: nat, samples: seq<nat>, shift: nat, lo: nat, hi: nat)
    requires lo <= avg <= hi && forall i :: 0 <= i < |samples| ==> lo <= samples[i] <= hi
    ensures lo <= EwmaRun(avg, samples, shift) <= hi
    ensures avg > 0 ==> EwmaRun(avg, samples, shift) > 0
  {
    if samples != [] {
      EwmaRunBetween(avg, samples[..|samples| - 1], shift, lo, hi);
    }
  }

  function Distance(x: int, y: int): nat {
    if x <= y then y - x else x - y
  }

  /** Quotients of values at least `k` apart differ. */
  lemma FarQuotientsDiffer(x: nat, y: nat, k: int)
    requires k >= 1 && x + k <= y
    ensures x / k < y / k
  {
    DivisionEquation(x, k);
    DivModUnique(x + k, k, x / k + 1, x % k);
    DivMonotone(x + k, y, k);
  }

  lemma EwmaApproaches(avg: nat, x: nat, shift: nat)
    requires avg > 0
    ensures Distance(Ewma(avg, x, shift), x) <= Distance(avg, x)
    ensures Distance(avg, x) >= Pow2(Clamp(shift, 1, 8)) ==> Distance(Ewma(avg, x, shift), x) < Distance(avg, x)
  {
    var k := Pow2(Clamp(shift, 1, 8));
    if avg + k <= x { FarQuotientsDiffer(avg, x, k); }
    if x + k <= avg { FarQuotientsDiffer(x, avg, k); }
  }

  /** Fed a constant, the average comes within 2^shift of it in finitely many steps and
      stays there. */
  lemma {:induction false} EwmaConverges(avg: nat, x: nat, shift: nat, n: nat)
    requires n >= 1 && n >= Distance(avg, x)
    ensures Distance(EwmaRun(avg, seq(n, _ => x), shift), x) < Pow2(Clamp(shift, 1, 8))
  {
    EwmaDistance(avg, x, shift, n);
  }

  lemma {:induction false} EwmaDistance(avg: nat, x: nat, shift: nat, n: nat)
    requires n >= 1
    ensures Distance(EwmaRun(avg, seq(n, _ => x), shift), x)
            <= Max(Pow2(Clamp(shift, 1, 8)) - 1, Distance(avg, x) - n)
  {
    assert seq(n, _ => x)[..n - 1] == seq(n - 1, _ => x);
    var before := EwmaRun(avg, seq(n - 1, _ => x), shift);
    if before > 0 { EwmaApproaches(before, x, shift); }
    if n > 1 { EwmaDistance(avg, x, shift, n - 1); }
  }

  /** A rate sample is the whole number of bytes per second received since the last one, as
      long as the product stays inside 64 bits. */
  lemma RateSampleIsFloor(m: Measurements, a: Ack)
    requires m.lastBytes <= a.bytesReceived && m.lastSampleUs < a.nowMono
    requires (a.bytesReceived - m.lastBytes) * USEC_PER_SEC < TWO_64
    ensures var bytes, us := a.bytesReceived - m.lastBytes, a.nowMono - m.lastSampleUs;
            Since(a.nowMono, m.lastSampleUs) == us
            && RateSample(m, a) * us <= bytes * USEC_PER_SEC < (RateSample(m, a) + 1) * us
  {
    var bytes, us := a.bytesReceived - m.lastBytes, a.nowMono - m.lastSampleUs;
    DivModUnique(us, TWO_64, 0, us);
    DivModUnique(bytes, TWO_64, 0, bytes);
    DivModUnique(bytes * USEC_PER_SEC, TWO_64, 0, bytes * USEC_PER_SEC);
    DivisionEquation(bytes * USEC_PER_SEC, us);
    MulDiff(RateSample(m, a) + 1, RateSample(m, a), us);
  }

  /** Whether this ACK feeds the averages: a sample is due and the phase is NORMAL. */
  predicate Feeds(c: Sysctls, s: LeoState, a: Ack) {
    Enabled(c) && s.initialized && SampleDue(c, s.meas, a) && Step(c, s, a).phase == Normal
  }

  /** The averages move by one `Ewma` step at a feeding ACK and are held at every other,
      in particular in every phase but NORMAL. */
  lemma AveragesStep(c: Sysctls, s: LeoState, a: Ack)
    requires s.initialized
    ensures var m, m' := s.meas, Step(c, s, a).state.meas;
            if Feeds(c, s, a) then
              && m'.rate == Ewma(m.rate, RateSample(m, a), c.ewmaShift)
              && m'.rttBaselineUs == Ewma(m.rttBaselineUs, ReceiverRtt(c, a), c.ewmaShift)
              && m'.normalRwnd == Ewma(m.normalRwnd, a.normalWin, c.ewmaShift)
            else
              m'.rate == m.rate && m'.rttBaselineUs == m.rttBaselineUs && m'.normalRwnd == m.normalRwnd
  {
    if Enabled(c) {
      FindPhaseKeepsMeasurements(c, s, a);
    }
  }

  /** The values fed to the rate, baseline and window averages over a run. */
  function Fed(c: Sysctls, s: LeoState, acks: seq<Ack>): (seq<nat>, seq<nat>, seq<nat>) {
    if acks == [] then ([], [], [])
    else
      var n := |acks| - 1;
      var f := Fed(c, s, acks[..n]);
      var before := Run(c, s, acks[..n]);
      if !Feeds(c, before, acks[n]) then f
      else (f.0 + [RateSample(before.meas, acks[n])], f.1 + [ReceiverRtt(c, acks[n])], f.2 + [acks[n].normalWin])
  }

  /** Over any run each average is exactly the fold of what was fed to it. */
  lemma {:induction false} AveragesAreFolds(c: Sysctls, s: LeoState, acks: seq<Ack>)
    requires s.initialized
    ensures var s', f := Run(c, s, acks), Fed(c, s, acks);
            && s'.initialized
            && s'.meas.rate == EwmaRun(s.meas.rate, f.0, c.ewmaShift)
            && s'.meas.rttBaselineUs == EwmaRun(s.meas.rttBaselineUs, f.1, c.ewmaShift)
            && s'.meas.normalRwnd == EwmaRun(s.meas.normalRwnd, f.2, c.ewmaShift)
  {
    if acks != [] {
      var n := |acks| - 1;
      AveragesAreFolds(c, s, acks[..n]);
      var before := Run(c, s, acks[..n]);
      AveragesStep(c, before, acks[n]);
      assert Step(c, before, acks[n]).state.initialized by { StaysInitialized(c, before, acks[n]); }
      if Feeds(c, before, acks[n]) {
        var f := Fed(c, s, acks[..n]);
        assert (f.0 + [RateSample(before.meas, acks[n])])[..|f.0|] == f.0;
        assert (f.1 + [ReceiverRtt(c, acks[n])])[..|f.1|] == f.1;
        assert (f.2 + [acks[n].normalWin])[..|f.2|] == f.2;
      }
    }
  }

  ghost predicate Between(samples: seq<nat>, lo: nat, hi: nat) {
    forall i :: 0 <= i < |samples| ==> lo <= samples[i] <= hi
  }

  /** Over any run each average stays inside every interval that holds its initial value and
      all it was fed, and none ever returns to zero. */
  lemma AveragesWithinInputs(c: Sysctls, s: LeoState, acks: seq<Ack>, lo: (nat, nat, nat), hi: (nat, nat, nat))
    requires s.initialized
    requires lo.0 <= s.meas.rate <= hi.0 && Between(Fed(c, s, acks).0, lo.0, hi.0)
    requires lo.1 <= s.meas.rttBaselineUs <= hi.1 && Between(Fed(c, s, acks).1, lo.1, hi.1)
    requires lo.2 <= s.meas.normalRwnd <= hi.2 && Between(Fed(c, s, acks).2, lo.2, hi.2)
    ensures var m := Run(c, s, acks).meas;
            && lo.0 <= m.rate <= hi.0 && lo.1 <= m.rttBaselineUs <= hi.1 && lo.2 <= m.normalRwnd <= hi.2
            && (s.meas.rate > 0 ==> m.rate > 0) && (s.meas.rttBaselineUs > 0 ==> m.rttBaselineUs > 0)
            && (s.meas.normalRwnd > 0 ==> m.normalRwnd > 0)
  {
    AveragesAreFolds(c, s, acks);
    var f := Fed(c, s, acks);
    hide Run, Fed, EwmaRun;
    EwmaRunBetween(s.meas.rate, f.0, c.ewmaShift, lo.0, hi.0);
    EwmaRunBetween(s.meas.rttBaselineUs, f.1, c.ewmaShift, lo.1, hi.1);
    EwmaRunBetween(s.meas.normalRwnd, f.2, c.ewmaShift, lo.2, hi.2);
  }

  lemma StaysInitialized(c: Sysctls, s: LeoState, a: Ack)
    requires s.initialized
    ensures Step(c, s, a).state.initialized
  {
    if Enabled(c) {
      FindPhaseKeepsMeasurements(c, s, a);
    }
  }

  // -------------------------------------------------------------------------- clock

  /** `tcp_leo_rwnd_phase_ms`: the fixed controller's position, in milliseconds. */
  function PhaseMs(c: Sysctls, nowMs: nat): (r: U32)
    ensures c.periodMs > 0 ==> r < c.periodMs
  {
    if c.periodMs == 0 then 0
    else
      var rem, offset := nowMs % c.periodMs, c.offsetMs % c.periodMs;
      if rem >= offset then rem - offset else rem + c.periodMs - offset
  }

  lemma ScaledMod(x: int, p: int, r: int)
    requires p >= 1 && 0 <= r < 1000
    ensures (1000 * x + r) % (1000 * p) == 1000 * (x % p) + r
  {
    DivisionEquation(x, p);
    assert 1000 * x + r == (x / p) * (1000 * p) + (1000 * (x % p) + r);
    DivModUnique(1000 * x + r, 1000 * p, x / p, 1000 * (x % p) + r);
  }

  /** The millisecond position is the shifted time modulo the period. */
  lemma PhaseMsIsRemainder(c: Sysctls, nowMs: nat)
    requires c.periodMs > 0
    ensures PhaseMs(c, nowMs) == (nowMs + c.periodMs - c.offsetMs % c.periodMs) % c.periodMs
  {
    var p := c.periodMs;
    var off := c.offsetMs % p;
    DivisionEquation(nowMs, p);
    var q, rem := nowMs / p, nowMs % p;
    if rem >= off {
      assert nowMs + p - off == (q + 1) * p + (rem - off);
      DivModUnique(nowMs + p - off, p, q + 1, rem - off);
    } else {
      DivModUnique(nowMs + p - off, p, q, rem + p - off);
    }
  }

  /** The microsecond clock refines the millisecond clock read from the same nanoseconds,
      and id and position are quotient and remainder of one shifted time. */
  lemma MicrosecondClockRefines(c: Sysctls, ns: U64)
    requires c.periodMs > 0
    ensures PeriodPosition(c, ns / 1000) / 1000 == PhaseMs(c, ns / 1_000_000)
    ensures var us := ns / 1000;
            PeriodId(c, us) * PeriodUs(c) + PeriodPosition(c, us)
            == us + PeriodUs(c) - (c.offsetMs * USEC_PER_MSEC) % PeriodUs(c)
  {
    var us, ms := ns / 1000, ns / 1_000_000;
    var p, r := c.periodMs, us % 1000;
    assert us == 1000 * ms + r;
    ScaledMod(c.offsetMs, p, 0);
    ScaledMod(ms + p - c.offsetMs % p, p, r);
    PhaseMsIsRemainder(c, ms);
    assert ShiftedUs(c, us) == 1000 * (ms + p - c.offsetMs % p) + r;
    DivisionEquation(ShiftedUs(c, us), PeriodUs(c));
  }

  /** With the offset programmed by the monitor, the position is zero exactly at the
      anchor and at every multiple of the period from it. */
  lemma BoundaryIsAnchorLattice(c: Sysctls, anchorMs: nat, now: ClockUs)
    requires c.periodMs > 0 && c.offsetMs == anchorMs % c.periodMs
    ensures PeriodPosition(c, now) == 0 <==> exists k: int :: now == anchorMs * USEC_PER_MSEC + k * PeriodUs(c)
  {
    var p := PeriodUs(c);
    var q := anchorMs / c.periodMs;
    DivisionEquation(anchorMs, c.periodMs);
    ScaledMod(c.offsetMs, c.periodMs, 0);
    DivModUnique(c.offsetMs, c.periodMs, 0, c.offsetMs);
    var x := ShiftedUs(c, now);
    assert x == now + p - c.offsetMs * 1000;
    assert anchorMs * 1000 == q * p + c.offsetMs * 1000;
    DivisionEquation(x, p);
    if x % p == 0 {
      var k := x / p - 1 - q;
      assert now == anchorMs * USEC_PER_MSEC + k * p;
    }
    if k: int :| now == anchorMs * USEC_PER_MSEC + k * p {
      assert x == (q + k + 1) * p;
      DivModUnique(x, p, q + k + 1, 0);
    }
  }
}
