/** `tcp_select_window` of redhat_kernel/tcp_output.c with the two controllers it
    consults: the fixed one beside it and the dynamic one of tcp_redhat.c. */
module ReceiveWindow {
  import opened MachineInts
  import opened LeoParameters
  import C = LeoController
  import LeoEstimates
  import LeoRuns
  import LeoSocket
  import LeoScenario
  import LeoTargets

  datatype Settings = Settings(
    leo: Sysctls, preMs: U32, outageMs: U32, recoveryMs: U32, fastRecovery: bool,
    shrinkWindow: bool, workaroundSignedWindows: bool)

  /** Windows that can be announced under the largest shift (RFC 7323, section 2.3). */
  type WindowSize = x: int | 0 <= x <= 0x4000_0000

  const MAX_TCP_WINDOW: int := 32767

  // -------------------------------------------------------------- fixed controller

  function FixedMinWindow(w: Settings, a: Ack): U32 {
    var mss := if a.rcvMss != 0 then a.rcvMss else if w.leo.advMss != 0 then w.leo.advMss else TCP_MSS_DEFAULT;
    Trunc32((if w.leo.minSegs == 0 then 1 else w.leo.minSegs) * mss)
  }

  function Share(whole: U32, part: nat, total: nat): (r: U32)
    requires part < total
    ensures r <= whole
  {
    RampBounds(whole, part, total);
    whole * part / total
  }

  /** The window in the four stretches of the period, for a normal window above the
      minimum.  The 32-bit end of the recovery may wrap; the range holds all the same. */
  function FixedSchedule(w: Settings, phase: U32, minWin: U32, normalWin: U32): (t: U32)
    requires 0 < w.leo.periodMs && minWin <= normalWin && phase < w.leo.periodMs
    ensures minWin <= t <= normalWin
  {
    var period := w.leo.periodMs;
    var pre := if w.preMs >= period then period - 1 else w.preMs;
    if pre > 0 && phase >= period - pre then
      normalWin - Share(normalWin - minWin, phase - (period - pre), pre)
    else if phase < w.outageMs then minWin
    else if w.recoveryMs > 0 && phase < Trunc32(w.outageMs + w.recoveryMs) then
      if w.fastRecovery then normalWin
      else minWin + Share(normalWin - minWin, phase - w.outageMs, w.recoveryMs)
    else normalWin
  }

  /** `tcp_leo_rwnd_target` at the ACK's own instant. */
  function FixedTarget(w: Settings, a: Ack, normalWin: U32): (t: U32)
    ensures Min(FixedMinWindow(w, a), normalWin) <= t <= normalWin
  {
    var minWin := FixedMinWindow(w, a);
    if !w.leo.rwndEnable || w.leo.periodMs == 0 || normalWin <= minWin then normalWin
    else FixedSchedule(w, LeoEstimates.PhaseMs(w.leo, a.nowReal / 1000), minWin, normalWin)
  }

  /** `tcp_leo_rwnd_clamp`; `drained` is the 32-bit count of bytes since the last update. */
  function FixedClamp(w: Settings, a: Ack, curWin: U32, newWin: U32, drained: U32): U32 {
    var target := FixedTarget(w, a, newWin);
    if !w.leo.rwndEnable || target >= newWin then newWin
    else if target < curWin then
      Min(newWin, if drained >= curWin - target then target else curWin - drained)
    else Min(newWin, target)
  }

  /** The clamp in one line. */
  lemma FixedClampExactly(w: Settings, a: Ack, curWin: U32, newWin: U32, drained: U32)
    requires w.leo.rwndEnable
    ensures var target := FixedTarget(w, a, newWin);
            FixedClamp(w, a, curWin, newWin, drained) == Min(newWin, Max(target, curWin - drained))
  {
  }

  // ------------------------------------------------------------------- window state

  /** What `tcp_select_window` keeps: the stream position and size of the last announced
      window, and the dynamic controller's state. */
  datatype Receiver = Receiver(rcvWup: nat, rcvWnd: U32, leo: C.LeoState)

  function Edge(r: Receiver): nat {
    r.rcvWup + r.rcvWnd
  }

  /** `tcp_receive_window`: the signed 32-bit distance to the edge, or zero. */
  function CurrentWindow(r: Receiver, rcvNxt: nat): U31 {
    var d := Trunc32(Edge(r) - rcvNxt);
    if d >= 0x8000_0000 then 0 else d
  }

  predicate Dynamic(w: Settings) {
    w.leo.rwndEnable && w.leo.dynamicEnable
  }

  predicate MayShrink(w: Settings) {
    w.shrinkWindow && w.leo.rcvWscale != 0
  }

  /** The window field: capped to what can be represented, then scaled. */
  function Wire(w: Settings, win: U32): (r: U16)
    requires Negotiated(w.leo)
    ensures r > 0 <==> win >= LeoTargets.Scale(w.leo)
  {
    var scale := LeoTargets.Scale(w.leo);
    var cap := if w.leo.rcvWscale == 0 && w.workaroundSignedWindows then MAX_TCP_WINDOW else 65535 * scale;
    WireBounds(Min(win, cap), scale, cap);
    Min(win, cap) / scale
  }

  lemma WireBounds(x: nat, scale: int, cap: int)
    requires scale >= 1 && x <= cap <= 65535 * scale && cap >= scale
    ensures 0 <= x / scale <= 65535
    ensures x / scale > 0 <==> x >= scale
  {
    DivMonotone(x, 65535 * scale, scale);
    DivModUnique(65535 * scale, scale, 65535, 0);
    DivisionEquation(x, scale);
    if x >= scale {
      DivMonotone(scale, x, scale);
      DivModUnique(scale, scale, 1, 0);
    } else {
      DivModUnique(x, scale, 0, x);
    }
  }

  /** The window chosen before scaling; `a.normalWin` is `__tcp_select_window`'s answer. */
  function NewWindow(w: Settings, r: Receiver, a: Ack): U32
    requires Negotiated(w.leo)
  {
    var cur := CurrentWindow(r, a.rcvNxt);
    if Dynamic(w) then C.Step(w.leo, r.leo, a).window
    else
      var win := FixedClamp(w, a, cur, a.normalWin, Trunc32(a.rcvNxt - r.rcvWup));
      if win < cur && !MayShrink(w) then
        LeoTargets.ScaleDividesRange(w.leo.rcvWscale);
        RoundUp(cur, LeoTargets.Scale(w.leo))
      else win
  }

  datatype Selected = Selected(receiver: Receiver, wire: U16)

  function Select(w: Settings, r: Receiver, a: Ack, outOfMemory: bool): Selected
    requires Negotiated(w.leo)
  {
    if outOfMemory then Selected(r.(rcvWup := a.rcvNxt, rcvWnd := 0), 0)
    else
      var win := NewWindow(w, r, a);
      var leo := if Dynamic(w) then C.Step(w.leo, r.leo, a).state else r.leo;
      Selected(Receiver(a.rcvNxt, win, leo), Wire(w, win))
  }

  /** `tcp_select_window` on the socket's own fields. */
  class TcpReceiver {
    const settings: Settings
    const leo: LeoSocket.DynamicState
    var rcvWup: nat
    var rcvWnd: U32

    function View(): Receiver
      reads this, leo
    {
      Receiver(rcvWup, rcvWnd, leo.View())
    }

    constructor (settings: Settings, isn: nat, window: U32)
      ensures this.settings == settings && leo.sysctls == settings.leo && fresh(leo)
      ensures View() == Receiver(isn, window, C.INITIAL)
    {
      this.settings := settings;
      leo := new LeoSocket.DynamicState(settings.leo);
      rcvWup, rcvWnd := isn, window;
    }

    method SelectWindow(a: Ack, outOfMemory: bool) returns (wire: U16)
      requires Negotiated(settings.leo) && leo.sysctls == settings.leo
      modifies this, leo
      ensures Selected(View(), wire) == Select(settings, old(View()), a, outOfMemory)
    {
      if outOfMemory {
        rcvWnd, rcvWup := 0, a.rcvNxt;
        return 0;
      }
      var cur := CurrentWindow(View(), a.rcvNxt);
      var win := a.normalWin;
      if Dynamic(settings) {
        win := leo.DynamicTarget(a);
      } else if settings.leo.rwndEnable {
        win := FixedClamp(settings, a, cur, win, Trunc32(a.rcvNxt - rcvWup));
      }
      if win < cur && !Dynamic(settings) && !MayShrink(settings) {
        LeoTargets.ScaleDividesRange(settings.leo.rcvWscale);
        win := RoundUp(cur, LeoTargets.Scale(settings.leo));
      }
      rcvWnd, rcvWup := win, a.rcvNxt;
      wire := Wire(settings, win);
    }
  }

  // ------------------------------------------------------------ the edge never left

  function SelectAll(w: Settings, r: Receiver, acks: seq<Ack>): Receiver
    requires Negotiated(w.leo)
  {
    if acks == [] then r
    else Select(w, SelectAll(w, r, acks[..|acks| - 1]), acks[|acks| - 1], false).receiver
  }

  /** The ordinary choice can be announced, and the stream does not run 2^31 bytes past
      the announced edge, so that signed sequence comparisons are exact. */
  ghost predicate Acceptable(w: Settings, r: Receiver, a: Ack) {
    && r.rcvWnd <= 0x4000_0000 && a.normalWin <= 0x4000_0000
    && r.rcvWup <= a.rcvNxt <= Edge(r) + 0x8000_0000
  }

  lemma CurrentWindowExactly(r: Receiver, rcvNxt: nat)
    requires r.rcvWnd <= 0x4000_0000 && r.rcvWup <= rcvNxt <= Edge(r) + 0x8000_0000
    ensures CurrentWindow(r, rcvNxt) == Max(0, Edge(r) - rcvNxt)
  {
    var d := Edge(r) - rcvNxt;
    if d >= 0 { DivModUnique(d, TWO_32, 0, d); } else { DivModUnique(d, TWO_32, -1, d + TWO_32); }
  }

  lemma AlignedWithinRange(cur: nat, k: nat)
    requires k <= 14 && cur <= 0x4000_0000
    ensures RoundUp(cur, Pow2(k)) <= 0x4000_0000
  {
    LeoTargets.ScaleDividesRange(k);
    if RoundUp(cur, Pow2(k)) > 0x4000_0000 {
      LeoTargets.MultiplesApart(0x4000_0000, RoundUp(cur, Pow2(k)), Pow2(k));
    }
  }

  /** Without permission to shrink, no ACK moves the right edge left. */
  lemma EdgeStaysRight(w: Settings, r: Receiver, a: Ack)
    requires Negotiated(w.leo) && !Dynamic(w) && !MayShrink(w) && Acceptable(w, r, a)
    ensures var r' := Select(w, r, a, false).receiver;
            Edge(r') >= Edge(r) && Edge(r') >= a.rcvNxt && r'.rcvWnd <= 0x4000_0000 && r'.rcvWup == a.rcvNxt
  {
    CurrentWindowExactly(r, a.rcvNxt);
    AlignedWithinRange(CurrentWindow(r, a.rcvNxt), w.leo.rcvWscale);
  }

  ghost predicate AllAcceptable(w: Settings, r: Receiver, acks: seq<Ack>)
    requires Negotiated(w.leo)
  {
    forall i :: 0 <= i < |acks| ==> Acceptable(w, SelectAll(w, r, acks[..i]), acks[i])
  }

  /** Over any run of ACKs outside the out-of-memory path the right edge never moves left
      (RFC 9293, section 3.8.6). */
  lemma {:induction false} EdgeStaysRightOverRuns(w: Settings, r: Receiver, acks: seq<Ack>)
    requires Negotiated(w.leo) && !Dynamic(w) && !MayShrink(w) && AllAcceptable(w, r, acks)
    ensures Edge(SelectAll(w, r, acks)) >= Edge(r)
  {
    if acks != [] {
      var n := |acks| - 1;
      assert forall i :: 0 <= i < n ==> acks[..n][..i] == acks[..i];
      EdgeStaysRightOverRuns(w, r, acks[..n]);
      EdgeStaysRight(w, SelectAll(w, r, acks[..n]), acks[n]);
    }
  }

  // ------------------------------------------------------- what the fixed clamp does

  /** The clamp's comment promises that the announced window is not reduced faster than
      bytes arrive.  `curWin` is already net of those bytes and they are subtracted again,
      so the promise is kept exactly when the target is no lower than it allows or no
      byte beyond the ordinary shrink has arrived. */
  lemma FixedClampKeepsEdgeExactly(w: Settings, a: Ack, curWin: U32, newWin: U32, drained: U32)
    requires w.leo.rwndEnable
    ensures FixedClamp(w, a, curWin, newWin, drained) >= Min(curWin, newWin)
            <==> (FixedTarget(w, a, newWin) >= Min(curWin, newWin) || drained <= Max(0, curWin - newWin))
  {
    FixedClampExactly(w, a, curWin, newWin, drained);
  }

  /** What remains true: where shrinking is permitted one ACK pulls the edge back by no
      more than the bytes received since the last update, unless ordinary TCP does. */
  lemma FixedClampRetreatBounded(w: Settings, r: Receiver, a: Ack)
    requires Negotiated(w.leo) && !Dynamic(w) && w.leo.rwndEnable && Acceptable(w, r, a)
    requires a.rcvNxt - r.rcvWup < TWO_32
    ensures var r' := Select(w, r, a, false).receiver;
            Edge(r') >= Min(a.rcvNxt + a.normalWin, Edge(r) - (a.rcvNxt - r.rcvWup))
  {
    CurrentWindowExactly(r, a.rcvNxt);
    DivModUnique(a.rcvNxt - r.rcvWup, TWO_32, 0, a.rcvNxt - r.rcvWup);
    FixedClampExactly(w, a, CurrentWindow(r, a.rcvNxt), a.normalWin, a.rcvNxt - r.rcvWup);
    if !MayShrink(w) { EdgeStaysRight(w, r, a); }
  }

  const SHRINKING := Settings(
    Sysctls(true, false, false, 15000, 0, 4, 50, 50, 20, 300, 10, 80, 5, 10, 80, 70, 250, 3, 30, true, true, 20, 80, 1000, 7),
    0, 100, 0, true, true, false)

  /** In the outage, 10000 bytes after a window of 100000 was announced, the edge moves
      left by exactly those 10000 bytes. */
  lemma FixedClampPullsEdgeBack(r: Receiver, a: Ack)
    requires r.rcvWup == 0 && r.rcvWnd == 100_000
    requires a.rcvNxt == 10_000 && a.normalWin == 100_000 && a.nowReal == 0 && a.rcvMss == 1000
    ensures Edge(r) == 100_000 && Edge(Select(SHRINKING, r, a, false).receiver) == 90_000
  {
    var w := SHRINKING;
    assert LeoEstimates.PhaseMs(w.leo, 0) == 0;
    CurrentWindowExactly(r, a.rcvNxt);
    assert FixedMinWindow(w, a) == 4000;
    assert FixedTarget(w, a, 100_000) == 4000;
    assert CurrentWindow(r, a.rcvNxt) == 90_000;
    assert FixedClamp(w, a, 90_000, 100_000, 10_000) == 80_000;
  }

  // ------------------------------------------------------------- no zero window sent

  lemma {:induction false} ControllerStateOverRuns(w: Settings, r: Receiver, acks: seq<Ack>)
    requires Negotiated(w.leo) && Dynamic(w)
    ensures SelectAll(w, r, acks).leo == C.Run(w.leo, r.leo, acks)
  {
    if acks != [] { ControllerStateOverRuns(w, r, acks[..|acks| - 1]); }
  }

  /** With the dynamic controller on, the window field of an ACK is zero only if ordinary
      TCP's would be, in every run whose minimum window does not wrap. */
  lemma WireNeverZeroUnlessOrdinary(w: Settings, r: Receiver, acks: seq<Ack>, a: Ack)
    requires Negotiated(w.leo) && Dynamic(w) && r.leo == C.INITIAL
    requires LeoRuns.Chronological(acks + [a])
    requires forall b :: b in acks + [a] ==> 0 < LeoTargets.MinProduct(w.leo, b) <= TWO_32 - LeoTargets.Scale(w.leo)
    ensures Select(w, SelectAll(w, r, acks), a, false).wire == 0 ==> Wire(w, a.normalWin) == 0
  {
    ControllerStateOverRuns(w, r, acks);
    LeoTargets.NeverCreatesZeroWindow(w.leo, acks, a);
  }

  // ------------------------------------------------- the edge under dynamic control

  /** An ACK that records a baseline announces the smaller of the captured and the ordinary
      window; it pulls the edge left if and only if that is below the current window. */
  lemma CaptureMovesEdgeExactly(w: Settings, r: Receiver, now: ClockUs, a: Ack)
    requires Negotiated(w.leo) && Dynamic(w) && w.leo.portMatches && Acceptable(w, r, a)
    requires LeoRuns.Inv(w.leo, r.leo, now) && now <= a.nowReal && LeoTargets.Capturing(w.leo, r.leo, a)
    ensures var r' := Select(w, r, a, false).receiver;
            && Edge(r') == a.rcvNxt + Min(r'.leo.captureWnd, a.normalWin)
            && (Edge(r') < Edge(r) <==> Min(r'.leo.captureWnd, a.normalWin) < CurrentWindow(r, a.rcvNxt))
  {
    LeoRuns.BaselineRecordedOnce(w.leo, r.leo, now, a);
    LeoTargets.NormalIsOrdinary(w.leo, r.leo, a);
    CurrentWindowExactly(r, a.rcvNxt);
    hide C.Step, Wire, LeoRuns.Inv;
  }

  /** From a capturing ACK on, as long as its snapshot is kept, the announced edge stays at or
      right of the smaller of the captured edge and the ordinary one; during the ramp if the
      bytes the reduction stands for have arrived. */
  lemma EdgeUntilNextSnapshot(w: Settings, r: Receiver, now: ClockUs, a: Ack, between: seq<Ack>, a': Ack)
    requires Negotiated(w.leo) && Dynamic(w) && LeoTargets.SinceCapture(w.leo, r.leo, now, a, between, a')
    ensures var d := C.Step(w.leo, r.leo, a).state;
            var m := SelectAll(w, Select(w, r, a, false).receiver, between);
            C.Step(w.leo, m.leo, a').phase != C.Recovery || a'.rcvNxt - a.rcvNxt >= d.captureWnd - d.snap.minRwnd ==>
              Edge(Select(w, m, a', false).receiver) >= Min(a.rcvNxt + d.captureWnd, a'.rcvNxt + a'.normalWin)
  {
    hide C.Step, C.Run, Wire, LeoTargets.SinceCapture;
    ControllerStateOverRuns(w, Select(w, r, a, false).receiver, between);
    LeoTargets.EdgeSinceCapture(w.leo, r.leo, now, a, between, a');
  }

  const SCENARIO := Settings(LeoScenario.DEFAULTS, 0, 0, 0, true, true, false)

  /** The ramp does pull the edge back otherwise: with no byte received since the capture, the
      first ACK after the blackout moves it from 1_000_000 to 4096. */
  lemma RampPullsEdgeBack(r: Receiver)
    requires r == Receiver(0, 0, C.INITIAL)
    ensures Edge(SelectAll(SCENARIO, r, LeoScenario.HANDOVER[..2])) == 1_000_000
    ensures Edge(SelectAll(SCENARIO, r, LeoScenario.HANDOVER[..5])) == 4096
  {
    hide C.Step, Wire, C.Run, LeoScenario.CapturedBy;
    var acks := LeoScenario.HANDOVER;
    assert acks[..2][..1] == acks[..1] && acks[..5][..4] == acks[..4];
    LeoScenario.WholeHandover();
    LeoScenario.FreezesIntoPre(LeoScenario.DEFAULTS);
    LeoScenario.RampStarts();
    ControllerStateOverRuns(SCENARIO, r, acks[..1]);
    ControllerStateOverRuns(SCENARIO, r, acks[..4]);
  }
}
