/** What the window targets guarantee over a run: they only fall inside one handover,
    they never pull the right edge back before the final cap, they reach the minimum in
    time, and they never create a zero window. */
module LeoTargets {
  import opened MachineInts
  import opened LeoParameters
  import opened LeoController
  import opened LeoRuns
  import LeoScenario

  // ------------------------------------------------- one handover, many ACKs apart

  /** `capture` is the stream position of the recorded baseline. */
  predicate CapturedAt(s: LeoState, capture: nat, a: Ack) {
    s.captureRcvNxt == Trunc32(capture) && capture <= a.rcvNxt
  }

  lemma ReceivedBytes(s: LeoState, capture: nat, a: Ack)
    requires CapturedAt(s, capture, a)
    ensures Received(s.captureRcvNxt, a) <= a.rcvNxt - capture
    ensures a.rcvNxt - capture < TWO_32 ==> Received(s.captureRcvNxt, a) == a.rcvNxt - capture
  {
    ModularDifference(a.rcvNxt, capture);
  }

  lemma ReductionWithinReceived(c: Sysctls, s: LeoState, a: Ack)
    requires s.snap.minRwnd <= s.captureWnd
    ensures Reduction(c, s, a) <= Received(s.captureRcvNxt, a)
  {
  }

  /** In PRE both ACKs are measured on the same ramp. */
  lemma PlannedGrows(c: Sysctls, s: LeoState, a: Ack, s': LeoState, a': Ack)
    requires s.phase == PreHandover && s'.phase == PreHandover && s.snap == s'.snap
    requires s.captureWnd == s'.captureWnd && s.snap.minRwnd <= s.captureWnd
    requires PeriodPosition(c, a.nowReal) <= PeriodPosition(c, a'.nowReal)
    requires Received(s.captureRcvNxt, a) <= Received(s'.captureRcvNxt, a')
    ensures Reduction(c, s, a) <= Reduction(c, s', a')
  {
    if s.snap.preUs > 0 {
      RampMonotone(s.captureWnd - s.snap.minRwnd,
                   Max(0, PeriodPosition(c, a.nowReal) - PreStart(c, s.snap)),
                   Max(0, PeriodPosition(c, a'.nowReal) - PreStart(c, s.snap)), s.snap.preUs);
    }
  }

  /** The reduction grows with the stage, the position and the bytes received. */
  lemma ReductionGrows(c: Sysctls, s: LeoState, a: Ack, s': LeoState, a': Ack, capture: nat)
    requires FrozenInv(c, s, a.nowReal) && FrozenInv(c, s', a'.nowReal)
    requires Controlling(s.phase) && Controlling(s'.phase)
    requires Advances(c, s, a.nowReal, s', a'.nowReal) && Follows(a, a')
    requires CapturedAt(s, capture, a) && a'.rcvNxt - capture < TWO_32
    ensures Reduction(c, s, a) <= Reduction(c, s', a')
  {
    ReceivedBytes(s, capture, a);
    ReceivedBytes(s', capture, a');
    PeriodIdMonotone(c, a.nowReal, a'.nowReal);
    if s'.phase == PreHandover { PlannedGrows(c, s, a, s', a'); }
  }

  /** The state of two controlled ACKs of one snapshot, and of the ACKs between them. */
  ghost predicate SameHandover(c: Sysctls, s: LeoState, now: ClockUs, a: Ack, between: seq<Ack>, a': Ack) {
    var o := Step(c, s, a);
    && Enabled(c) && Inv(c, s, now) && now <= a.nowReal
    && Chronological([a] + between + [a'])
    && KeptThrough(c, o.state, between + [a'])
    && Controlling(o.phase) && Controlling(Step(c, Run(c, o.state, between), a').phase)
  }

  lemma {:induction false} StreamAdvances(acks: seq<Ack>)
    requires Chronological(acks) && |acks| > 0
    ensures Follows(acks[0], acks[|acks| - 1])
  {
    var n := |acks| - 1;
    if n > 0 {
      StreamAdvances(acks[..n]);
      assert Follows(acks[n - 1], acks[n]);
    }
  }

  /** A controlled ACK that ends a run, in terms of the state the run started from. */
  lemma HandoverEnd(c: Sysctls, s: LeoState, first: Ack, between: seq<Ack>, a: Ack)
    requires Enabled(c) && Inv(c, s, first.nowReal)
    requires Chronological([first] + (between + [a]))
    requires Controlling(Step(c, Run(c, s, between), a).phase)
    ensures var o := Step(c, Run(c, s, between), a);
            && o.state == Run(c, s, between + [a])
            && FrozenInv(c, o.state, a.nowReal)
            && o.state.snap.minRwnd <= o.state.captureWnd
            && o.uncapped == o.state.captureWnd - Reduction(c, o.state, a)
  {
    var all := [first] + (between + [a]);
    var n := |between|;
    assert (between + [a])[..n] == between;
    assert [first] + between == all[..n + 1];
    RunInv(c, s, first, between);
    assert Follows(all[n], all[n + 1]);
    ControlledTarget(c, Run(c, s, between), all[n].nowReal, a);
    StepInv(c, Run(c, s, between), all[n].nowReal, a);
  }

  /** Both ends of a handover stand under the same snapshot and the same baseline. */
  lemma HandoverEnds(c: Sysctls, s: LeoState, now: ClockUs, a: Ack, between: seq<Ack>, a': Ack)
    requires SameHandover(c, s, now, a, between, a')
    ensures var o, o' := Step(c, s, a), Step(c, Run(c, Step(c, s, a).state, between), a');
            && FrozenInv(c, o.state, a.nowReal) && FrozenInv(c, o'.state, a'.nowReal)
            && Advances(c, o.state, a.nowReal, o'.state, a'.nowReal) && Follows(a, a')
            && o.state.snap.minRwnd <= o.state.captureWnd
            && o.uncapped == o.state.captureWnd - Reduction(c, o.state, a)
            && o'.uncapped == o'.state.captureWnd - Reduction(c, o'.state, a')
  {
    var o := Step(c, s, a);
    var acks := between + [a'];
    assert [a] + between + [a'] == [a] + acks;
    StepInv(c, s, now, a);
    ControlledTarget(c, s, now, a);
    StreamAdvances([a] + acks);
    HandoverEnd(c, o.state, a, between, a');
    PhasesInOrder(c, o.state, a, acks);
  }

  /** Across PRE, DRAIN and OUTAGE of one snapshot the target before the cap never
      increases, however many ACKs lie between, up to 2^32 bytes after the capture. */
  lemma TargetNeverIncreases(c: Sysctls, s: LeoState, now: ClockUs, a: Ack, between: seq<Ack>, a': Ack, capture: nat)
    requires SameHandover(c, s, now, a, between, a')
    requires CapturedAt(Step(c, s, a).state, capture, a) && a'.rcvNxt - capture < TWO_32
    ensures Step(c, Run(c, Step(c, s, a).state, between), a').uncapped <= Step(c, s, a).uncapped
  {
    HandoverEnds(c, s, now, a, between, a');
    ReductionGrows(c, Step(c, s, a).state, a, Step(c, Run(c, Step(c, s, a).state, between), a').state, a', capture);
  }

  /** From the captured window on, the right edge announced before the cap stays at or
      right of where it was at the capture; no bound on the bytes is needed. */
  lemma RightEdgeNeverMovesLeft(c: Sysctls, s: LeoState, now: ClockUs, a: Ack, between: seq<Ack>, a': Ack, capture: nat)
    requires SameHandover(c, s, now, a, between, a')
    requires CapturedAt(Step(c, s, a).state, capture, a)
    ensures var o, o' := Step(c, s, a), Step(c, Run(c, Step(c, s, a).state, between), a');
            && a.rcvNxt + o.uncapped >= capture + o.state.captureWnd
            && a'.rcvNxt + o'.uncapped >= capture + o.state.captureWnd
  {
    HandoverEnds(c, s, now, a, between, a');
    var o, o' := Step(c, s, a), Step(c, Run(c, Step(c, s, a).state, between), a');
    ReceivedBytes(o.state, capture, a);
    ReceivedBytes(o'.state, capture, a');
    ReductionWithinReceived(c, o.state, a);
    ReductionWithinReceived(c, o'.state, a');
  }

  // ------------------------------------------- from the capture to the end of the ramp

  /** This ACK records the baseline. */
  predicate Capturing(c: Sysctls, s: LeoState, a: Ack) {
    Controlling(Step(c, s, a).phase) && !(Kept(c, s, a) && s.preStarted)
  }

  /** A run under the snapshot of a capturing ACK. */
  ghost predicate SinceCapture(c: Sysctls, s: LeoState, now: ClockUs, a: Ack, between: seq<Ack>, a': Ack) {
    && Enabled(c) && Inv(c, s, now) && now <= a.nowReal && Capturing(c, s, a)
    && Chronological([a] + between + [a'])
    && KeptThrough(c, Step(c, s, a).state, between + [a'])
  }

  lemma SinceCaptureEnds(c: Sysctls, s: LeoState, now: ClockUs, a: Ack, between: seq<Ack>, a': Ack)
    requires SinceCapture(c, s, now, a, between, a')
    ensures var o, o' := Step(c, s, a), Step(c, Run(c, Step(c, s, a).state, between), a');
            && o'.state.snap == o.state.snap && CapturedAt(o.state, a.rcvNxt, a)
            && (o'.phase != Normal ==> o'.uncapped >= o.state.snap.minRwnd)
  {
    var o := Step(c, s, a);
    var acks := between + [a'];
    var all := [a] + acks;
    var n := |between|;
    StepInv(c, s, now, a);
    BaselineRecordedOnce(c, s, now, a);
    assert [a] + between + [a'] == all && acks[..n] == between;
    PhasesInOrder(c, o.state, a, acks);
    assert [a] + between == all[..n + 1];
    RunInv(c, o.state, a, between);
    assert Follows(all[n], all[n + 1]);
    hide Step, Inv, Stage, InForce;
    TargetAboveMinimum(c, Run(c, o.state, between), all[n].nowReal, a');
    assert Run(c, o.state, acks) == Step(c, Run(c, o.state, between), a').state;
  }

  lemma NormalIsOrdinary(c: Sysctls, s: LeoState, a: Ack)
    ensures Step(c, s, a).phase == Normal && Enabled(c) ==> Step(c, s, a).uncapped == a.normalWin
    ensures Step(c, s, a).window == Min(Step(c, s, a).uncapped, a.normalWin)
  {
    hide FindPhase, Settle;
  }

  /** As long as the snapshot is kept the edge stays at or right of the captured one, or of
      what ordinary TCP would announce, in every phase but the ramp; in the ramp too, if the
      bytes the reduction stands for have arrived. */
  lemma EdgeSinceCapture(c: Sysctls, s: LeoState, now: ClockUs, a: Ack, between: seq<Ack>, a': Ack)
    requires SinceCapture(c, s, now, a, between, a')
    ensures var d, o' := Step(c, s, a).state, Step(c, Run(c, Step(c, s, a).state, between), a');
            o'.phase != Recovery || a'.rcvNxt - a.rcvNxt >= d.captureWnd - d.snap.minRwnd ==>
              a'.rcvNxt + o'.window >= Min(a.rcvNxt + d.captureWnd, a'.rcvNxt + a'.normalWin)
  {
    hide Step, Inv, Run, Kept, Chronological, KeptThrough, CapturedAt, Stage;
    var d := Step(c, s, a).state;
    var m := Run(c, d, between);
    SinceCaptureEnds(c, s, now, a, between, a');
    NormalIsOrdinary(c, m, a');
    if Controlling(Step(c, m, a').phase) {
      assert SameHandover(c, s, now, a, between, a');
      RightEdgeNeverMovesLeft(c, s, now, a, between, a', a.rcvNxt);
    }
  }

  /** The first ACK past the boundary starts the ramp at the minimum whatever has arrived: it
      keeps the edge if and only if the bytes the whole reduction stands for have arrived, or
      ordinary TCP announces no more than the minimum. */
  lemma FirstRampAckKeepsEdgeExactly(c: Sysctls, s: LeoState, now: ClockUs, a: Ack, capture: nat)
    requires Inv(c, s, now) && now <= a.nowReal && s.frozen && s.preStarted && capture <= a.rcvNxt
    requires !s.recoveryStarted && s.snap.recoveryUs > 0 && PeriodId(c, a.nowReal) != s.snap.periodId
    ensures a.rcvNxt + Step(c, s, a).window >= Min(capture + s.captureWnd, a.rcvNxt + a.normalWin)
            <==> a.rcvNxt - capture >= s.captureWnd - s.snap.minRwnd || a.normalWin <= s.snap.minRwnd
  {
    FirstAckAfterBoundaryStartsRamp(c, s, now, a);
    NormalIsOrdinary(c, s, a);
    hide Step;
  }

  // ------------------------------------------------------- the bound of 2^32 bytes

  function LastTime(acks: seq<Ack>): ClockUs {
    if acks == [] then 0 else acks[|acks| - 1].nowReal
  }

  /** A run of a new socket whose last ACKs are two controlling ones of one snapshot. */
  ghost predicate Handover(c: Sysctls, before: seq<Ack>, a: Ack, between: seq<Ack>, a': Ack) {
    && Chronological(before + [a] + between + [a'])
    && SameHandover(c, Run(c, INITIAL, before), LastTime(before), a, between, a')
  }

  /** Less than `bytes` bytes after the capture the target has not risen in between. */
  ghost predicate HandoverFalls(c: Sysctls, before: seq<Ack>, a: Ack, between: seq<Ack>, a': Ack, capture: nat, bytes: nat) {
    var o := Step(c, Run(c, INITIAL, before), a);
    Handover(c, before, a, between, a') && CapturedAt(o.state, capture, a) && a'.rcvNxt - capture <= bytes ==>
      Step(c, Run(c, o.state, between), a').uncapped <= o.uncapped
  }

  ghost predicate TargetNeverIncreasesWithin(bytes: nat) {
    forall c, before, a, between, a', capture :: HandoverFalls(c, before, a, between, a', capture, bytes)
  }

  /** The window the last of these ACKs announces. */
  function WindowAfter(c: Sysctls, acks: seq<Ack>): U32
    requires acks != []
  {
    Step(c, Run(c, INITIAL, acks[..|acks| - 1]), acks[|acks| - 1]).window
  }

  /** No ACK acknowledges bytes beyond the window announced before it. */
  ghost predicate InsideWindows(c: Sysctls, acks: seq<Ack>) {
    |acks| > 1 ==>
      var n := |acks| - 1;
      InsideWindows(c, acks[..n]) && acks[n].rcvNxt <= acks[n - 1].rcvNxt + WindowAfter(c, acks[..n])
  }

  /** A run that a sender inside the windows can cause, and the state it leads to. */
  ghost predicate Leads(c: Sysctls, acks: seq<Ack>, s: LeoState, window: U32) {
    && acks != [] && Chronological(acks) && InsideWindows(c, acks)
    && Run(c, INITIAL, acks) == s && WindowAfter(c, acks) == window
  }

  lemma LeadsOn(c: Sysctls, acks: seq<Ack>, s: LeoState, window: U32, a: Ack)
    requires Leads(c, acks, s, window) && Follows(acks[|acks| - 1], a) && a.rcvNxt <= acks[|acks| - 1].rcvNxt + window
    ensures Leads(c, acks + [a], Step(c, s, a).state, Step(c, s, a).window)
  {
    var all, n := acks + [a], |acks|;
    assert all[..n] == acks && all[n] == a && all[n - 1] == acks[n - 1];
    forall i | 0 <= i < n ensures Follows(all[i], all[i + 1]) {
      if i < n - 1 { assert Follows(acks[i], acks[i + 1]); }
    }
    hide Step, Follows;
  }

  lemma FirstLeads(c: Sysctls, a: Ack)
    ensures Leads(c, [a], Step(c, INITIAL, a).state, Step(c, INITIAL, a).window)
  {
    assert [a][..0] == [];
    assert Run(c, INITIAL, []) == INITIAL;
    hide Step;
  }

  lemma CaptureFollows()
    ensures LeoScenario.HANDOVER[..2] == [LeoScenario.At(0)] + [LeoScenario.At(14_890_000)]
    ensures Follows([LeoScenario.At(0)][0], LeoScenario.At(14_890_000))
    ensures LeoScenario.At(14_890_000).rcvNxt == [LeoScenario.At(0)][0].rcvNxt
  {
  }

  /** The scenario up to its capture is such a run. */
  lemma LeadsToCapture(c: Sysctls)
    requires LeoScenario.Modelled(c)
    ensures Leads(c, LeoScenario.HANDOVER[..2], LeoScenario.CapturedBy(c), 1_000_000)
  {
    hide Step, LeoScenario.CapturedBy, Leads, Follows, LeoScenario.At;
    LeoScenario.StartsWaiting(c);
    LeoScenario.FreezesIntoPre(c);
    FirstLeads(c, LeoScenario.At(0));
    CaptureFollows();
    LeadsOn(c, [LeoScenario.At(0)], LeoScenario.WAITING, 1_000_000, LeoScenario.At(14_890_000));
  }

  /** The `k`-th ACK of the drain: 4096 bytes after the one before. */
  function DrainAck(k: nat): Ack
    requires k <= 0x10_0000
  {
    LeoScenario.AtByte(14_930_000, 4096 * k)
  }

  function Drains(k: nat): seq<Ack>
    requires k <= 0x10_0000
  {
    if k == 0 then LeoScenario.HANDOVER[..2] else Drains(k - 1) + [DrainAck(k)]
  }

  function DrainState(k: nat): LeoState {
    if k == 0 then LeoScenario.CAPTURED else LeoScenario.CAPTURED.(phase := Drain)
  }

  /** The `k`-th ACK of the drain keeps the snapshot and announces at least 4096 bytes. */
  lemma DrainStep(k: nat)
    requires 1 <= k <= 0x10_0000
    ensures var c, s, a := LeoScenario.DEFAULTS, DrainState(k - 1), DrainAck(k);
            && Kept(c, s, a) && Step(c, s, a).state == DrainState(k) && Step(c, s, a).phase == Drain
            && Step(c, s, a).uncapped == SafeTarget(DrainState(k), a, 4096) && 4096 <= Step(c, s, a).window
  {
    hide Step, Kept, SafeTarget;
    LeoScenario.StaysBeforeBoundary(LeoScenario.DEFAULTS, DrainState(k - 1), DrainAck(k), Drain);
    SafeAboveDesired(DrainState(k), DrainAck(k), 4096);
  }

  lemma SafeAboveDesired(s: LeoState, a: Ack, desired: U32)
    ensures SafeTarget(s, a, desired) >= desired
  {
  }

  /** The ACK before the `k`-th one of the drain. */
  function AckBefore(k: nat): Ack
    requires 1 <= k <= 0x10_0000
  {
    if k == 1 then LeoScenario.At(14_890_000) else DrainAck(k - 1)
  }

  lemma DrainFollows(k: nat)
    requires 1 <= k <= 0x10_0000
    ensures Follows(AckBefore(k), DrainAck(k)) && DrainAck(k).rcvNxt == AckBefore(k).rcvNxt + 4096
  {
  }

  /** The drain stays inside the windows: 4096 bytes are always announced. */
  lemma {:induction false} DrainsLead(k: nat) returns (window: U32)
    requires k <= 0x10_0000
    ensures window >= 4096 && Drains(k) != []
    ensures k < 0x10_0000 ==> Drains(k)[|Drains(k)| - 1] == AckBefore(k + 1)
    ensures Leads(LeoScenario.DEFAULTS, Drains(k), DrainState(k), window)
  {
    var c := LeoScenario.DEFAULTS;
    hide Leads, Step, Kept, LeoScenario.CapturedBy, DrainState, DrainAck, Follows;
    if k == 0 {
      LeadsToCapture(c);
      StartOfDrain();
      window := 1_000_000;
    } else {
      var before := DrainsLead(k - 1);
      DrainStep(k);
      DrainFollows(k);
      LeadsOn(c, Drains(k - 1), DrainState(k - 1), before, DrainAck(k));
      window := Step(c, DrainState(k - 1), DrainAck(k)).window;
    }
  }

  lemma StartOfDrain()
    ensures DrainState(0) == LeoScenario.CapturedBy(LeoScenario.DEFAULTS)
    ensures Drains(0) == LeoScenario.HANDOVER[..2] && AckBefore(1) == LeoScenario.At(14_890_000)
  {
  }

  lemma WrapTargets(s: LeoState, a: Ack, a': Ack)
    requires s.captureWnd == 1_000_000 && s.snap.minRwnd == 4096 && s.captureRcvNxt == 0
    requires a.rcvNxt == TWO_32 - 4096 && a'.rcvNxt == TWO_32
    ensures SafeTarget(s, a, 4096) == 4096 && SafeTarget(s, a', 4096) == 1_000_000
  {
    ReceivedBytes(s, 0, a);
    DivModUnique(TWO_32, TWO_32, 1, 0);
    assert Received(0, a') == 0 && Received(0, a) == TWO_32 - 4096;
  }

  lemma LeadsInv(c: Sysctls, acks: seq<Ack>, s: LeoState, window: U32)
    requires Leads(c, acks, s, window)
    ensures Inv(c, s, LastTime(acks))
  {
    var first := acks[0];
    assert Chronological([first] + acks) by {
      forall i | 0 <= i < |acks| ensures Follows(([first] + acks)[i], ([first] + acks)[i + 1]) {
        if i > 0 { assert Follows(acks[i - 1], acks[i]); }
      }
    }
    InitialInv(c, first.nowReal);
    hide Run, Inv;
    RunInv(c, INITIAL, first, acks);
  }

  lemma InitialInv(c: Sysctls, now: ClockUs)
    ensures Inv(c, INITIAL, now)
  {
  }

  lemma KeptThroughOne(c: Sysctls, d: LeoState, a: Ack)
    requires Kept(c, d, a)
    ensures Run(c, d, []) == d && KeptThrough(c, d, [] + [a])
  {
    hide Kept;
    var acks := [] + [a];
    assert acks[..0] == [] && acks[0] == a;
    assert KeptThrough(c, d, []);
  }

  lemma TwoAcks(c: Sysctls, before: seq<Ack>, s: LeoState, d: LeoState, a: Ack, a': Ack)
    requires Enabled(c) && Run(c, INITIAL, before) == s && Inv(c, s, LastTime(before)) && LastTime(before) <= a.nowReal
    requires Chronological(before + [a] + [] + [a']) && Chronological([a] + [] + [a'])
    requires Step(c, s, a).state == d && Run(c, d, []) == d && KeptThrough(c, d, [] + [a'])
    requires Controlling(Step(c, s, a).phase) && Controlling(Step(c, d, a').phase)
    ensures Handover(c, before, a, [], a') && Run(c, Step(c, s, a).state, []) == d
  {
    hide Run, Step, Inv, Chronological, KeptThrough, Controlling, Enabled;
  }

  /** In a run of a new socket with the default settings (and a zero offset) whose bytes all
      arrive inside the announced windows, the drain target stands at the minimum, and at the
      wrap it jumps back up to the captured window. */
  lemma DrainRisesAtWrap(k: nat) returns (before: seq<Ack>)
    requires k == 0x10_0000
    ensures var c, a, a' := LeoScenario.DEFAULTS, DrainAck(k - 1), DrainAck(k);
            var o := Step(c, Run(c, INITIAL, before), a);
            && Handover(c, before, a, [], a') && InsideWindows(c, before + [a] + [] + [a'])
            && CapturedAt(o.state, 0, a) && a'.rcvNxt == TWO_32
            && o.uncapped == 4096 && Step(c, Run(c, o.state, []), a').uncapped == 1_000_000
  {
    var c, a, a' := LeoScenario.DEFAULTS, DrainAck(k - 1), DrainAck(k);
    hide Step, Kept, Inv, Run, KeptThrough, Handover, SafeTarget, LeoScenario.CapturedBy, InsideWindows, DrainState, DrainAck, Drains,
         Chronological, Follows, Controlling;
    before := Drains(k - 2);
    var w := DrainsLead(k - 2);
    var w' := DrainsLead(k);
    DrainStep(k - 1);
    DrainStep(k);
    AtTheWrap(k);
    LeadsInv(c, before, DrainState(k - 2), w);
    KeptThroughOne(c, DrainState(k - 1), a');
    TwoMoreDrains(k);
    TwoAcks(c, before, DrainState(k - 2), DrainState(k - 1), a, a');
  }

  lemma TwoMoreDrains(k: nat)
    requires 2 <= k <= 0x10_0000
    ensures Drains(k) == Drains(k - 2) + [DrainAck(k - 1)] + [] + [DrainAck(k)]
  {
    hide DrainAck;
    assert Drains(k) == Drains(k - 1) + [DrainAck(k)];
  }

  lemma AtTheWrap(k: nat)
    requires k == 0x10_0000
    ensures var a, a' := DrainAck(k - 1), DrainAck(k);
            && SafeTarget(DrainState(k - 1), a, 4096) == 4096 && SafeTarget(DrainState(k), a', 4096) == 1_000_000
            && CapturedAt(DrainState(k - 1), 0, a) && a'.rcvNxt == TWO_32
            && LastTime(Drains(k - 2)) <= a.nowReal && Chronological([a] + [] + [a'])
            && Controlling(Drain) && Enabled(LeoScenario.DEFAULTS)
  {
    var a, a' := DrainAck(k - 1), DrainAck(k);
    WrapTargets(DrainState(k), a, a');
    assert DrainState(k - 1) == DrainState(k);
    assert [a] + [] + [a'] == [a, a'];
    hide SafeTarget;
  }

  /** With a wrapped minimum the drain closes the window: two ACKs after the start of a new
      socket the captured megabyte has arrived, and zero is announced while ordinary TCP
      would announce another one. */
  lemma WrappedMinimumClosesWindow() returns (acks: seq<Ack>, a: Ack)
    ensures var c := LeoScenario.WRAPPING;
            && Negotiated(c) && MinProduct(c, a) == 0
            && Chronological(acks + [a]) && InsideWindows(c, acks + [a])
            && a.normalWin == 1_000_000 && Step(c, Run(c, INITIAL, acks), a).window == 0
  {
    hide Step, SafeTarget, LeoScenario.CapturedBy, Leads, Run;
    var c := LeoScenario.WRAPPING;
    acks, a := LeoScenario.HANDOVER[..2], LeoScenario.AtByte(14_930_000, 1_000_000);
    LeadsToCapture(c);
    LeadsOn(c, acks, LeoScenario.CapturedBy(c), 1_000_000, a);
    ClosesWindow(acks, a);
  }

  lemma ClosesWindow(acks: seq<Ack>, a: Ack)
    requires a == LeoScenario.AtByte(14_930_000, 1_000_000)
    requires var c, s := LeoScenario.WRAPPING, LeoScenario.CapturedBy(LeoScenario.WRAPPING);
             acks != [] && Leads(c, acks, s, 1_000_000) && Leads(c, acks + [a], Step(c, s, a).state, Step(c, s, a).window)
    ensures var c := LeoScenario.WRAPPING;
            Chronological(acks + [a]) && InsideWindows(c, acks + [a]) && Step(c, Run(c, INITIAL, acks), a).window == 0
  {
    hide Step, SafeTarget, Run, Chronological, InsideWindows, WindowAfter;
    var c, s := LeoScenario.WRAPPING, LeoScenario.CapturedBy(LeoScenario.WRAPPING);
    LeoScenario.StaysBeforeBoundary(c, s, a, Drain);
    AllReceived(s.(phase := Drain), a);
  }

  lemma AllReceived(s: LeoState, a: Ack)
    requires s.captureWnd == 1_000_000 && s.snap.minRwnd == 0 && s.captureRcvNxt == 0 && a.rcvNxt == 1_000_000
    ensures SafeTarget(s, a, 0) == 0
  {
    ReceivedBytes(s, 0, a);
  }

  /** The same for runs whose bytes all arrive inside the announced windows. */
  ghost predicate TargetNeverIncreasesInside(bytes: nat) {
    forall c, before, a, between, a', capture ::
      InsideWindows(c, before + [a] + between + [a']) ==> HandoverFalls(c, before, a, between, a', capture, bytes)
  }

  /** Over every run of a new socket the target falls through a handover for at most `bytes`
      bytes after the capture if and only if the 32-bit received counter cannot wrap in it;
      keeping to the announced windows makes no difference. */
  lemma DrainMonotoneExactly(bytes: nat)
    ensures TargetNeverIncreasesWithin(bytes) <==> bytes < TWO_32
    ensures TargetNeverIncreasesInside(bytes) <==> bytes < TWO_32
  {
    hide Run, Step, SameHandover, CapturedAt, Chronological, InsideWindows;
    if bytes < TWO_32 {
      forall c, before, a, between, a', capture ensures HandoverFalls(c, before, a, between, a', capture, bytes) {
        var s := Run(c, INITIAL, before);
        if Handover(c, before, a, between, a') && CapturedAt(Step(c, s, a).state, capture, a) && a'.rcvNxt - capture <= bytes {
          TargetNeverIncreases(c, s, LastTime(before), a, between, a', capture);
        }
      }
    } else {
      RisesWithin(bytes);
    }
  }

  lemma RisesWithin(bytes: nat)
    requires bytes >= TWO_32
    ensures !TargetNeverIncreasesWithin(bytes) && !TargetNeverIncreasesInside(bytes)
  {
    hide Run, Step, Handover, CapturedAt, InsideWindows, Drains;
    var k := 0x10_0000;
    var before := DrainRisesAtWrap(k);
    assert !HandoverFalls(LeoScenario.DEFAULTS, before, DrainAck(k - 1), [], DrainAck(k), 0, bytes);
  }

  // ----------------------------------------------------------- reaching the minimum

  /** If PRE was not cut short and data has arrived at the frozen rate for its length,
      DRAIN stands less than rate/10^6 + 1 bytes above the minimum. */
  lemma DrainStartsNearMinimum(c: Sysctls, s: LeoState, now: ClockUs, a: Ack)
    requires Inv(c, s, now) && now <= a.nowReal && Enabled(c)
    requires var o := Step(c, s, a);
             var p := o.state.snap;
             && (o.phase == Drain || o.phase == Outage)
             && p.rate > 0
             && (p.startRwnd - p.minRwnd) * USEC_PER_SEC / p.rate <= p.preUs
             && Received(o.state.captureRcvNxt, a) >= p.rate * p.preUs / USEC_PER_SEC
    ensures var o := Step(c, s, a);
            (o.uncapped - o.state.snap.minRwnd) * USEC_PER_SEC < o.state.snap.rate + USEC_PER_SEC
  {
    ControlledTarget(c, s, now, a);
    StepInv(c, s, now, a);
    var o := Step(c, s, a);
    var p := o.state.snap;
    hide Step, Stage, InForce;
    var received := Received(o.state.captureRcvNxt, a);
    NearMinimum(p.startRwnd - p.minRwnd, p.rate, p.preUs, received);
    assert o.uncapped - p.minRwnd <= Max(0, p.startRwnd - p.minRwnd - received);
  }

  lemma NearMinimum(span: nat, rate: nat, preUs: nat, received: nat)
    requires rate > 0 && span * USEC_PER_SEC / rate <= preUs && received >= rate * preUs / USEC_PER_SEC
    ensures (span - received) * USEC_PER_SEC < rate + USEC_PER_SEC
  {
    var q := span * USEC_PER_SEC / rate;
    DivisionEquation(span * USEC_PER_SEC, rate);
    assert q * rate <= preUs * rate by { MulMonotone(q, preUs, rate); }
    DivisionEquation(rate * preUs, USEC_PER_SEC);
    assert rate * preUs == preUs * rate;
  }

  // ------------------------------------------------------------------------- recovery

  /** During the ramp the target rises from the frozen minimum to the smaller of ordinary
      and frozen window, never falling, and is there when the ramp has run its length. */
  lemma RecoveryRises(s: LeoState, normalWin: U32, elapsed: U64, elapsed': U64)
    requires elapsed <= elapsed' && s.snap.minRwnd <= s.snap.startRwnd
    ensures var end := Max(Min(normalWin, s.snap.startRwnd), s.snap.minRwnd);
            && s.snap.minRwnd <= RecoveryTarget(s, normalWin, elapsed) <= RecoveryTarget(s, normalWin, elapsed') <= end
            && (elapsed' >= s.snap.recoveryUs ==> RecoveryTarget(s, normalWin, elapsed') == end)
  {
    var end := Max(Min(normalWin, s.snap.startRwnd), s.snap.minRwnd);
    if s.snap.recoveryUs > 0 { RampMonotone(end - s.snap.minRwnd, elapsed, elapsed', s.snap.recoveryUs); }
  }

  // ------------------------------------------------------------------- zero windows

  function Scale(c: Sysctls): int {
    Pow2(c.rcvWscale)
  }

  /** The product of segments and MSS, as the kernel's `u32` product. */
  function MinProduct(c: Sysctls, a: Ack): U32 {
    Trunc32(Max(1, c.minSegs) * (if a.rcvMss != 0 then a.rcvMss else if c.advMss != 0 then c.advMss else TCP_MSS_DEFAULT))
  }

  lemma ScaleDividesRange(k: nat)
    requires k <= 14
    ensures TWO_32 % Pow2(k) == 0 && Pow2(k) <= 16384 && 0x4000_0000 % Pow2(k) == 0
  {
    assert Pow2(0) == 1;
    assert Pow2(1) == 2;
    assert Pow2(2) == 4;
    assert Pow2(3) == 8;
    assert Pow2(4) == 16;
    assert Pow2(5) == 32;
    assert Pow2(6) == 64;
    assert Pow2(7) == 128;
    assert Pow2(8) == 256;
    assert Pow2(9) == 512;
    assert Pow2(10) == 1024;
    assert Pow2(11) == 2048;
    assert Pow2(12) == 4096;
    assert Pow2(13) == 8192;
    assert Pow2(14) == 16384;
  }

  /** Multiples of `d` are at least `d` apart. */
  lemma MultiplesApart(x: int, y: int, d: int)
    requires d >= 1 && x % d == 0 && y % d == 0 && x < y
    ensures x + d <= y
  {
    DivisionEquation(x, d);
    DivisionEquation(y, d);
    MulDiff(y / d, x / d, d);
    if y / d <= x / d {
      assert (x / d - y / d) * d >= 0;
      MulDiff(x / d, y / d, d);
    } else {
      MulGrows(y / d - x / d, d);
    }
  }

  lemma MinimumRounds(c: Sysctls, a: Ack)
    ensures MinRwnd(c, a) == Trunc32(RoundUp(MinProduct(c, a), Scale(c)))
  {
    hide RoundUp, Pow2;
  }

  /** The minimum window is at least one scaling unit exactly when the 32-bit product is
      not zero and rounding it up does not wrap. */
  lemma MinimumIsOneUnitExactly(c: Sysctls, a: Ack)
    requires Negotiated(c)
    ensures MinRwnd(c, a) >= Scale(c) <==> 0 < MinProduct(c, a) <= TWO_32 - Scale(c)
  {
    hide MinRwnd, MinProduct, Pow2, RoundUp;
    MinimumRounds(c, a);
    var p, d := MinProduct(c, a), Scale(c);
    var r := RoundUp(p, d);
    ScaleDividesRange(c.rcvWscale);
    assert (TWO_32 - d) % d == 0 by { SubMultiple(TWO_32, d); }
    if p <= TWO_32 - d {
      if r > TWO_32 - d { MultiplesApart(TWO_32 - d, r, d); }
      assert MinRwnd(c, a) == r;
      if 0 < p { if r < d { MultiplesApart(0, r, d); } }
      if p == 0 { if r > 0 { MultiplesApart(0, r, d); } }
    } else {
      if r < TWO_32 { MultiplesApart(r, TWO_32, d); }
      if r > TWO_32 { MultiplesApart(TWO_32, r, d); }
      assert MinRwnd(c, a) == 0;
    }
  }

  lemma SubMultiple(x: int, d: int)
    requires d >= 1 && x % d == 0
    ensures (x - d) % d == 0
  {
    DivisionEquation(x, d);
    MulDiff(x / d, 1, d);
    DivModUnique(x - d, d, x / d - 1, 0);
  }

  /** Up to 65535 segments the product cannot wrap. */
  lemma MinimumNeverWrapsForFewSegments(c: Sysctls, a: Ack)
    requires Negotiated(c) && c.minSegs <= 65535
    ensures MinRwnd(c, a) >= Scale(c)
  {
    hide MinRwnd, RoundUp, Pow2;
    MinimumIsOneUnitExactly(c, a);
    ScaleDividesRange(c.rcvWscale);
    var mss := if a.rcvMss != 0 then a.rcvMss else if c.advMss != 0 then c.advMss else TCP_MSS_DEFAULT;
    var segs := Max(1, c.minSegs);
    MulMonotone(mss, 65535, segs);
    MulMonotone(segs, 65535, 65535);
    MulMonotone(1, mss, segs);
  }

  ghost predicate UnitInv(c: Sysctls, s: LeoState) {
    s.frozen ==> s.snap.minRwnd >= Scale(c)
  }

  /** Every phase's target stays at or above the frozen minimum. */
  lemma TargetAboveMinimum(c: Sysctls, s: LeoState, now: ClockUs, a: Ack)
    requires Inv(c, s, now) && now <= a.nowReal && Enabled(c)
    ensures var o := Step(c, s, a); o.phase != Normal ==> o.state.frozen && o.uncapped >= o.state.snap.minRwnd
  {
    StepInv(c, s, now, a);
    if Controlling(Step(c, s, a).phase) { ControlledTarget(c, s, now, a); }
  }

  lemma SnapshotComesFromAnAck(c: Sysctls, s: LeoState, now: ClockUs, a: Ack)
    requires Inv(c, s, now) && now <= a.nowReal && Enabled(c) && Step(c, s, a).state.frozen
    ensures Step(c, s, a).state.snap.minRwnd == if Kept(c, s, a) then s.snap.minRwnd else MinRwnd(c, a)
  {
    if Kept(c, s, a) { KeptPhase(c, s, now, a); } else { FreshPhase(c, s, now, a); }
    var p := FindPhase(c, s, a);
    MeasureKeepsControl(c, p.state, a, p.phase);
  }

  /** In every run whose ACKs have an unwrapped minimum, an ordinary window that is not
      zero after scaling gives a controlled window that is not zero after scaling. */
  lemma {:induction false} NeverCreatesZeroWindow(c: Sysctls, acks: seq<Ack>, a: Ack)
    requires Negotiated(c) && Chronological(acks + [a])
    requires forall b :: b in acks + [a] ==> 0 < MinProduct(c, b) <= TWO_32 - Scale(c)
    ensures UnitInv(c, Step(c, Run(c, INITIAL, acks), a).state)
    ensures a.normalWin >= Scale(c) ==> Step(c, Run(c, INITIAL, acks), a).window >= Scale(c)
  {
    var s := Run(c, INITIAL, acks);
    var n := |acks|;
    assert a in acks + [a];
    var now := if n == 0 then 0 else acks[n - 1].nowReal;
    assert Inv(c, s, now) && now <= a.nowReal && UnitInv(c, s) by {
      if n > 0 {
        assert acks[..n - 1] + [acks[n - 1]] == acks;
        assert forall i :: 0 <= i < n ==> (acks + [a])[i] == acks[i];
        assert Chronological(acks) by {
          forall i | 0 <= i < n - 1 ensures Follows(acks[i], acks[i + 1]) {
            assert Follows((acks + [a])[i], (acks + [a])[i + 1]);
          }
        }
        forall b | b in acks ensures 0 < MinProduct(c, b) <= TWO_32 - Scale(c) { assert b in acks + [a]; }
        NeverCreatesZeroWindow(c, acks[..n - 1], acks[n - 1]);
        var first := acks[0].(nowReal := 0, nowMono := 0, rcvNxt := 0, bytesReceived := 0);
        assert Chronological([first] + acks) by {
          forall i | 0 <= i < n ensures Follows(([first] + acks)[i], ([first] + acks)[i + 1]) {
            if i > 0 { assert Follows(acks[i - 1], acks[i]); }
          }
        }
        RunInv(c, INITIAL, first, acks);
        assert Follows((acks + [a])[n - 1], (acks + [a])[n]);
      }
    }
    if Enabled(c) {
      MinimumIsOneUnitExactly(c, a);
      TargetAboveMinimum(c, s, now, a);
      if Step(c, s, a).state.frozen { SnapshotComesFromAnAck(c, s, now, a); }
    }
  }

  predicate KeepsOpen(c: Sysctls, s: LeoState, a: Ack) {
    a.normalWin >= Scale(c) ==> Min(SafeTarget(s, a, s.snap.minRwnd), a.normalWin) >= Scale(c)
  }

  /** The condition is exact: DRAIN keeps every open window open if and only if the
      frozen minimum is at least one scaling unit. */
  lemma DrainKeepsWindowOpenExactly(c: Sysctls, s: LeoState)
    requires Negotiated(c) && s.snap.minRwnd <= s.captureWnd
    ensures (forall a: Ack :: KeepsOpen(c, s, a)) <==> s.snap.minRwnd >= Scale(c)
  {
    if s.snap.minRwnd < Scale(c) {
      ScaleDividesRange(c.rcvWscale);
      var a := Ack(0, 0, TWO_32 - 1, s.captureRcvNxt + (s.captureWnd - s.snap.minRwnd), 0, 0, 0);
      DrainReachesMinimum(s, a);
      assert !KeepsOpen(c, s, a);
    } else {
      forall a: Ack ensures KeepsOpen(c, s, a) {
      }
    }
  }

  lemma DrainReachesMinimum(s: LeoState, a: Ack)
    requires s.snap.minRwnd <= s.captureWnd && a.rcvNxt == s.captureRcvNxt + (s.captureWnd - s.snap.minRwnd)
    ensures SafeTarget(s, a, s.snap.minRwnd) == s.snap.minRwnd
  {
    DivModUnique(s.captureRcvNxt, TWO_32, 0, s.captureRcvNxt);
    ReceivedBytes(s, s.captureRcvNxt, a);
    assert Trunc32(s.captureWnd - s.snap.minRwnd) == s.captureWnd - s.snap.minRwnd;
  }

  /** 2^22 segments of 1024 bytes wrap to a zero minimum. */
  lemma MinimumCanWrapToZero(c: Sysctls, a: Ack)
    requires c.minSegs == 0x40_0000 && a.rcvMss == 1024 && c.rcvWscale == 7
    ensures MinRwnd(c, a) == 0
  {
    assert MinProduct(c, a) == 0;
    MinimumIsOneUnitExactly(c, a);
    ScaleDividesRange(7);
    if RoundUp(0, Scale(c)) > 0 { MultiplesApart(0, RoundUp(0, Scale(c)), Scale(c)); }
  }
}
