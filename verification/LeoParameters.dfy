/** The value computations of redhat_kernel/tcp_redhat.c: the periodic clock, the
    averages, the durations of the handover phases and the window targets. */
module LeoParameters {
  import opened MachineInts

  /** The sysctls the controller reads; fixed during a run. */
  datatype Sysctls = Sysctls(
    rwndEnable: bool, dynamicEnable: bool, portMatches: bool,
    periodMs: U32, offsetMs: U32, minSegs: U32,
    sampleMs: U31, freezeGuardMs: U31,
    preMinMs: U31, preMaxMs: U31,
    outageMinMs: U31, outageMaxMs: U31, outageGuardMs: U31,
    drainMinMs: U31, drainMaxMs: U31,
    fallbackRttMs: U31, fallbackRateMbps: U31, ewmaShift: U32,
    predictionGuardMs: U32, predictionGuardToOutage: bool,
    recoveryEnable: bool, recoveryMinMs: U31, recoveryMaxMs: U31,
    advMss: U16, rcvWscale: nat)

  /** What one outgoing ACK shows the controller.  `rcvNxt` is the position in the byte
      stream; the kernel field is its low 32 bits.  Clocks count microseconds of a
      64-bit nanosecond clock. */
  datatype Ack = Ack(
    nowReal: ClockUs, nowMono: ClockUs, normalWin: U32,
    rcvNxt: nat, bytesReceived: U64, rcvMss: U16, rttScaled: U32)

  type ClockUs = x: int | 0 <= x <= 18_446_744_073_709_551

  const USEC_PER_MSEC: int := 1000
  const USEC_PER_SEC: int := 1_000_000
  const TCP_MSS_DEFAULT: int := 536

  /** `TCP_MAX_WSCALE` bounds the negotiated shift (RFC 7323, section 2.3). */
  predicate Negotiated(c: Sysctls) {
    c.rcvWscale <= 14
  }

  // ---------------------------------------------------------------- periodic clock

  function PeriodUs(c: Sysctls): U64 {
    c.periodMs * USEC_PER_MSEC
  }

  /** The time both the position and the id are taken from; it stays inside `u64`. */
  function ShiftedUs(c: Sysctls, now: ClockUs): U64
    requires c.periodMs > 0
  {
    now + PeriodUs(c) - (c.offsetMs * USEC_PER_MSEC) % PeriodUs(c)
  }

  function PeriodPosition(c: Sysctls, now: ClockUs): U64 {
    if c.periodMs == 0 then 0 else ShiftedUs(c, now) % PeriodUs(c)
  }

  function PeriodId(c: Sysctls, now: ClockUs): U64 {
    if c.periodMs == 0 then 0
    else
      DivShrinks(ShiftedUs(c, now), PeriodUs(c));
      ShiftedUs(c, now) / PeriodUs(c)
  }

  // ---------------------------------------------------------------------- averages

  /** `leo_ewma_u32` and `leo_ewma_u64`: the same expression at two widths. */
  function Ewma(avg: nat, sample: nat, shift: nat): (r: nat)
    ensures Min(avg, sample) <= r <= Max(avg, sample)
    ensures avg > 0 ==> r > 0
  {
    if avg == 0 then sample
    else
      var k := Pow2(Clamp(shift, 1, 8));
      MovesTowards(avg, sample, k);
      avg - avg / k + sample / k
  }

  lemma MovesTowards(avg: nat, sample: nat, k: int)
    requires k >= 2 && avg > 0
    ensures Min(avg, sample) <= avg - avg / k + sample / k <= Max(avg, sample)
    ensures avg - avg / k + sample / k > 0
  {
    DivShrinks(avg, k);
    DivShrinks(sample, k);
    if avg <= sample {
      DivContracts(avg, sample, k);
    } else {
      DivContracts(sample, avg, k);
    }
  }

  lemma DivShrinks(x: nat, k: int)
    requires k >= 1
    ensures 0 <= x / k <= x
    ensures k >= 2 && x >= 1 ==> x / k < x
  {
  }

  /** Division moves two values no further apart than they were. */
  lemma DivContracts(x: nat, y: nat, k: int)
    requires k >= 1 && x <= y
    ensures 0 <= y / k - x / k <= y - x
  {
    DivMonotone(x, y, k);
    var q := y / k - x / k;
    DivisionEquation(x, k);
    DivisionEquation(y, k);
    MulDiff(y / k, x / k, k);
    if q >= 2 {
      assert (q - 1) * k >= q - 1 by { MulMonotone(1, k, q - 1); }
    }
  }

  // ------------------------------------------------------------ per-ACK quantities

  function MinRwnd(c: Sysctls, a: Ack): U32 {
    var mss := if a.rcvMss != 0 then a.rcvMss else if c.advMss != 0 then c.advMss else TCP_MSS_DEFAULT;
    Trunc32(RoundUp(Trunc32(Max(1, c.minSegs) * mss), Pow2(c.rcvWscale)))
  }

  function ReceiverRtt(c: Sysctls, a: Ack): U32 {
    var rtt := a.rttScaled / 8;
    if rtt != 0 then rtt else Trunc32(Max(1, c.fallbackRttMs) * USEC_PER_MSEC)
  }

  function FallbackRate(c: Sysctls): U64 {
    Max(1, c.fallbackRateMbps) * 1_000_000 / 8
  }

  // --------------------------------------------------------------- phase durations

  function CalcPre(c: Sysctls, startRwnd: U32, minRwnd: U32, rate: U64): U32 {
    var lo := Max(1, c.preMinMs) * USEC_PER_MSEC;
    var hi := Max(1, c.preMaxMs) * USEC_PER_MSEC;
    if startRwnd <= minRwnd || rate == 0 then Trunc32(lo)
    else Trunc32(Clamp((startRwnd - minRwnd) * USEC_PER_SEC / rate, Min(lo, hi), Max(lo, hi)))
  }

  function PredictionGuard(c: Sysctls): U32 {
    Trunc32(c.predictionGuardMs * USEC_PER_MSEC)
  }

  function CalcDrain(c: Sysctls, rtt: U32): U32 {
    var lo, hi := c.drainMinMs * USEC_PER_MSEC, c.drainMaxMs * USEC_PER_MSEC;
    Trunc32(Clamp(rtt / 2, Min(lo, hi), Max(lo, hi)))
  }

  function CalcRecovery(c: Sysctls, rtt: U32): U32 {
    var lo, hi := c.recoveryMinMs * USEC_PER_MSEC, c.recoveryMaxMs * USEC_PER_MSEC;
    if !c.recoveryEnable then 0
    else Trunc32(Clamp(rtt / 2, Min(lo, hi), Max(lo, hi)))
  }

  /** The last `min` keeps a receiver-side outage inside half a round trip. */
  function CalcOutage(c: Sysctls, rtt: U32, rttBaseline: U32): (r: U32)
    ensures r <= rtt / 2
  {
    var lo, hi := c.outageMinMs * USEC_PER_MSEC, c.outageMaxMs * USEC_PER_MSEC;
    var excess := if rtt > rttBaseline then (rtt - rttBaseline) / 2 else 0;
    var wanted := excess + c.outageGuardMs * USEC_PER_MSEC
                  + (if c.predictionGuardToOutage then PredictionGuard(c) else 0);
    Min(Clamp(wanted, Min(lo, hi), Max(lo, hi) + PredictionGuard(c)), rtt / 2)
  }

  // ----------------------------------------------------------------------- targets

  /** Share of `whole` due after `part` of `total`. */
  function Ramp(whole: U32, part: nat, total: U32): (r: U32)
    requires total > 0
    ensures r <= whole
    ensures part >= total ==> r == whole
  {
    RampBounds(whole, Min(part, total), total);
    whole * Min(part, total) / total
  }

  lemma RampBounds(whole: nat, part: nat, total: nat)
    requires 0 < total && part <= total
    ensures 0 <= whole * part / total <= whole
    ensures part == total ==> whole * part / total == whole
  {
    assert whole * part <= whole * total by { MulMonotone(part, total, whole); }
    DivMonotone(whole * part, whole * total, total);
    DivModUnique(whole * total, total, whole, 0);
  }

  lemma MulMonotone(a: nat, b: nat, k: nat)
    requires a <= b
    ensures k * a <= k * b
  {
  }

  lemma RampMonotone(whole: U32, part: nat, part': nat, total: U32)
    requires 0 < total && part <= part'
    ensures Ramp(whole, part, total) <= Ramp(whole, part', total)
  {
    var p, p' := Min(part, total), Min(part', total);
    MulMonotone(p, p', whole);
    DivMonotone(whole * p, whole * p', total);
  }

  /** Bytes since the captured position, as the kernel's `u32` difference. */
  function Received(captureRcvNxt: U32, a: Ack): U32 {
    Trunc32(Trunc32(a.rcvNxt) - captureRcvNxt)
  }
}
