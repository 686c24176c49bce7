/** The four-mode controller that locks a period and programs the kernel
    (bin/redhat_monitor/redhat_auto_monitor.py, `main`), managing the kernel and with every
    sysctl write succeeding. */
module Monitor {
  import opened Statistics
  import opened PhaseLock
  import opened Containers
  import PeriodFit

  datatype Mode = Learning | Confirm | Sleep | Validate

  /** The sysctls the monitor writes. */
  datatype Kernel = Kernel(enable: int, dynamicEnable: int, periodMs: int, offsetMs: int)

  /** A counted event, the anchor in force at that time and its signed error. */
  datatype Measured = Measured(event: real, anchor: real, error: real)

  /** A good period fit and when it was made. */
  datatype GoodFit = GoodFit(period: real, at: real)

  /** A write of kernel timing: period and phase on activation, the phase alone later. */
  datatype Timing = Timing(at: real, period: real, full: bool)

  /** `session` lists the events that session_valid_events counts, `timings` the kernel
      timing writes since the start. */
  datatype State = State(
    active: bool, mode: Mode, period: Option<real>, anchor: Option<real>, lastValid: Option<real>,
    programmed: Option<(int, int)>, lastResync: Option<real>,
    lastDisable: Option<real>, lastDisabledPeriod: Option<real>, learningStarted: real,
    goodFits: seq<GoodFit>, errors: seq<Measured>, absErrors: seq<Measured>, mismatch: int,
    targets: seq<int>, deadline: Option<real>, session: seq<Measured>, nextValidation: Option<real>,
    nextAnalysis: real, procs: set<int>, kernel: Kernel, timings: seq<Timing>)

  datatype Args = Args(
    allTargets: seq<int>, minTargets: int, tolerance: real, minScore: real, minFitRatio: real,
    learnSeconds: real, cooldownCycles: real, lockWindow: nat, lockMinFits: nat, analysisEvery: real,
    confirmCycles: real, confirmMin: int, validationMinutes: real, validationCycles: real, validationMin: int,
    relearnThresholdMs: real, relearnCount: int,
    resyncThresholdMs: real, resyncMinCycles: real, resyncAlpha: real,
    consensusWindow: nat, consensusMin: nat, signRatio: real, guardWindow: nat,
    minEvents: int, periodMin: real, periodMax: real, maxMultiple: int, skipPenalty: real)
  {
    /** What `parse_args` guarantees. */
    predicate Valid() {
      && 1 <= minTargets && 1 <= lockMinFits <= lockWindow && 1 <= consensusMin <= consensusWindow
      && 1 <= confirmMin && 1 <= validationMin && 1 <= guardWindow
    }
  }

  /** One analysis: the clocks, the common events, the fit if there is one, the targets
      chosen for an activation and the probes that start for a relearning. */
  datatype Analysis = Analysis(
    wall: real, mono: real, times: seq<real>, fit: Option<PeriodFit.Fit>, selected: seq<int>, restarted: set<int>)
  {
    /** Fits have a positive period. */
    predicate Valid() { fit.Some? ==> fit.value.period > 0.0 }
  }

  /** The fit is what `estimate_period` answers for these events, if they are enough and it
      does not fail. */
  ghost predicate Answered(a: Args, i: Analysis) {
    if |i.times| < a.minEvents then i.fit.None?
    else
      exists best ::
        && PeriodFit.Answer(i.times, (a.periodMin, a.periodMax), PeriodFit.Search(a.tolerance, a.maxMultiple, a.skipPenalty), best)
        && !best.ZeroDivision? && i.fit == if best.Fitted? then Some(best.fit) else None
  }

  /** So the analyses the program makes are among those the runs below range over. */
  lemma AnsweredIsValid(a: Args, i: Analysis)
    requires Answered(a, i)
    ensures i.Valid()
  {
    if i.fit.Some? {
      var s := PeriodFit.Search(a.tolerance, a.maxMultiple, a.skipPenalty);
      var best :| PeriodFit.Answer(i.times, (a.periodMin, a.periodMax), s, best)
        && !best.ZeroDivision? && i.fit == if best.Fitted? then Some(best.fit) else None;
      PeriodFit.AnswerIsSound(i.times, (a.periodMin, a.periodMax), s, best);
    }
  }

  /** One round of the main loop. */
  datatype Turn = Turn(preWall: real, preMono: real, started: set<int>, fallback: set<int>, died: set<int>, analysis: Analysis)

  // ---------------------------------------------------------------------------- kernel

  function AtLeastOne(x: int): int { if x < 1 then 1 else x }

  function PeriodMs(period: real): (r: int)
    ensures r >= 1
  {
    AtLeastOne(Statistics.Round(period * 1000.0))
  }

  function OffsetMs(period: real, anchor: real): int {
    Statistics.Round(anchor * 1000.0) % PeriodMs(period)
  }

  /** The kernel after every single write of `program_redhat`. */
  function ProgramWrites(k: Kernel, period: real, anchor: real): seq<Kernel> {
    var k1 := k.(periodMs := PeriodMs(period));
    var k2 := k1.(offsetMs := OffsetMs(period, anchor));
    var k3 := k2.(enable := 1);
    [k1, k2, k3, k3.(dynamicEnable := 1)]
  }

  /** Timing is written first and enabling last: from a disabled kernel, no write exposes a
      mixture of old and new parameters. */
  lemma NeverMixedParameters(k: Kernel, period: real, anchor: real)
    requires k.enable == 0 && k.dynamicEnable == 0
    ensures forall i :: 0 <= i < 4 ==>
      var s := ProgramWrites(k, period, anchor)[i];
      (s.enable == 0 && s.dynamicEnable == 0)
      || (s.periodMs == PeriodMs(period) && s.offsetMs == OffsetMs(period, anchor) && 0 <= s.offsetMs < s.periodMs)
  {
  }

  function Programmed(k: Kernel, period: real, anchor: real): Kernel {
    ProgramWrites(k, period, anchor)[3]
  }

  // ------------------------------------------------------------------------ transitions

  /** Appending to a deque of bounded length. */
  function Push<T>(s: seq<T>, x: T, most: nat): seq<T> {
    var r := s + [x];
    if |r| > most then r[|r| - most..] else r
  }

  /** A number of locked periods later. */
  function After(mono: real, cycles: real, period: real): real { mono + cycles * period }

  function EnterLearning(a: Args, m: State, wall: real, mono: real, started: set<int>): State {
    State(
      false, Learning, None, None, None, None, None,
      if m.period.Some? then Some(wall) else m.lastDisable,
      if m.period.Some? then m.period else m.lastDisabledPeriod,
      wall, [], [], [], 0, a.allTargets, None, [], None, mono + a.analysisEvery, started,
      m.kernel.(enable := 0, dynamicEnable := 0), m.timings)
  }

  function EnterSleep(a: Args, m: State, mono: real): State {
    m.(procs := {}, mode := Sleep, deadline := None, session := [], nextValidation := Some(mono + a.validationMinutes * 60.0))
  }

  function StartValidation(a: Args, m: State, wall: real, mono: real, started: set<int>, fallback: set<int>): State {
    if m.period.None? || |started| < a.minTargets then EnterLearning(a, m, wall, mono, fallback)
    else
      m.(procs := started, mode := Validate, deadline := Some(After(mono, a.validationCycles, m.period.value)),
         session := [], errors := [], absErrors := [],
         nextAnalysis := mono + if a.analysisEvery < 1.0 then a.analysisEvery else 1.0)
  }

  function Needed(a: Args, mode: Mode): int {
    if mode.Confirm? then a.confirmMin else a.validationMin
  }

  predicate SessionOver(m: State, mono: real) {
    m.active && (m.mode.Confirm? || m.mode.Validate?) && m.deadline.Some? && mono >= m.deadline.value
  }

  function Finish(a: Args, m: State, wall: real, mono: real, restarted: set<int>): State {
    if |m.session| >= Needed(a, m.mode) then EnterSleep(a, m, mono) else EnterLearning(a, m, wall, mono, restarted)
  }

  predicate LearningFitGood(a: Args, i: Analysis) {
    && i.fit.Some? && i.fit.value.score >= a.minScore && i.fit.value.fitRatio >= a.minFitRatio
    && i.fit.value.p95 <= a.tolerance
  }

  predicate StructureGood(a: Args, i: Analysis) {
    i.fit.Some? && i.fit.value.fitRatio >= a.minFitRatio && i.fit.value.p95 <= a.tolerance
  }

  predicate LearnedLongEnough(a: Args, m: State, wall: real) {
    wall - m.learningStarted >= a.learnSeconds
  }

  predicate CooledDown(a: Args, m: State, wall: real) {
    m.lastDisable.Some? && m.lastDisabledPeriod.Some? && a.cooldownCycles > 0.0
    ==> wall - m.lastDisable.value >= a.cooldownCycles * m.lastDisabledPeriod.value
  }

  function Periods(fits: seq<GoodFit>): seq<real> {
    seq(|fits|, i requires 0 <= i < |fits| => fits[i].period)
  }

  function RecordFit(a: Args, m: State, i: Analysis): State {
    if !m.active && LearningFitGood(a, i) then m.(goodFits := Push(m.goodFits, GoodFit(i.fit.value.period, i.wall), a.lockWindow))
    else m
  }

  predicate MayActivate(a: Args, m: State, i: Analysis) {
    && !m.active && LearningFitGood(a, i) && LearnedLongEnough(a, m, i.wall) && CooledDown(a, m, i.wall)
    && |m.goodFits| >= a.lockMinFits && m.goodFits != []
  }

  /** The newest event on the lattice that explains most events. */
  function ActivationAnchor(a: Args, period: real, times: seq<real>): Option<real> {
    match ChooseAnchor(times, period, a.tolerance)
    case None => None
    case Some(x) => Newest(times, x, period, a.tolerance)
  }

  function Activate(a: Args, m: State, i: Analysis, period: real, anchor: real): State {
    m.(active := true, mode := Confirm, period := Some(period), anchor := Some(anchor), lastValid := Some(anchor),
       lastResync := Some(i.wall), mismatch := 0, errors := [], absErrors := [],
       targets := if |i.selected| >= a.minTargets then i.selected else a.allTargets,
       programmed := Some((PeriodMs(period), OffsetMs(period, anchor))),
       kernel := Programmed(m.kernel, period, anchor), timings := m.timings + [Timing(i.wall, period, true)],
       deadline := Some(After(i.mono, a.confirmCycles, period)), session := [], nextValidation := None)
  }

  function CheckPeriod(a: Args, m: State, i: Analysis): State
    requires m.period.Some?
  {
    if !StructureGood(a, i) then m
    else if Abs(i.fit.value.period - m.period.value) * 1000.0 >= a.relearnThresholdMs then m.(mismatch := m.mismatch + 1)
    else m.(mismatch := 0)
  }

  /** The common events on the lattice that are newer than the last one counted. */
  function Fresh(a: Args, m: State, times: seq<real>, n: nat): (newer: seq<real>)
    requires m.period.Some? && m.anchor.Some? && n <= |times|
    ensures newer != [] ==> m.period.value > 0.0
  {
    if n == 0 then []
    else
      var e := times[n - 1];
      Fresh(a, m, times, n - 1)
      + if OnLattice(e, m.anchor.value, m.period.value, a.tolerance)
           && (m.lastValid.None? || e > m.lastValid.value + 0.000001) then [e] else []
  }

  function Count(a: Args, m: State, event: real): State
    requires m.period.Some? && m.anchor.Some? && m.period.value > 0.0
  {
    var x := Measured(event, m.anchor.value, SignedError(event, m.anchor.value, m.period.value));
    m.(errors := Push(m.errors, x, a.consensusWindow), absErrors := Push(m.absErrors, x, a.guardWindow),
       lastValid := Some(event), session := m.session + [x])
  }

  function Errors(xs: seq<Measured>): seq<real> {
    seq(|xs|, i requires 0 <= i < |xs| => xs[i].error)
  }

  function SameSign(xs: seq<real>, n: nat, sign: real): nat
    requires n <= |xs|
  {
    if n == 0 then 0
    else SameSign(xs, n - 1, sign) + if (sign > 0.0 && xs[n - 1] > 0.0) || (sign < 0.0 && xs[n - 1] < 0.0) then 1 else 0
  }

  function Consensus(m: State): real {
    if m.errors == [] then 0.0 else Median(Errors(m.errors))
  }

  predicate ConsensusCrossed(a: Args, m: State) {
    && m.errors != [] && |m.errors| >= a.consensusMin
    && Abs(Consensus(m)) * 1000.0 >= a.resyncThresholdMs
    && SameSign(Errors(m.errors), |m.errors|, Consensus(m)) as real / |m.errors| as real >= a.signRatio
  }

  predicate ResyncDue(a: Args, m: State, wall: real)
    requires m.period.Some?
  {
    m.lastResync.None? || wall - m.lastResync.value >= a.resyncMinCycles * m.period.value
  }

  function Alpha(a: Args): real {
    if a.resyncAlpha < 0.0 then 0.0 else if a.resyncAlpha > 1.0 then 1.0 else a.resyncAlpha
  }

  /** The anchor after applying the chosen part of the consensus error. */
  function Corrected(a: Args, m: State): real
    requires m.anchor.Some?
  {
    m.anchor.value + Consensus(m) * Alpha(a)
  }

  function Resync(a: Args, m: State, wall: real): State
    requires m.period.Some? && m.anchor.Some?
  {
    if !ConsensusCrossed(a, m) || !ResyncDue(a, m, wall) then m
    else
      var anchor := Corrected(a, m);
      var offset := OffsetMs(m.period.value, anchor);
      m.(kernel := m.kernel.(offsetMs := offset),
         programmed := if m.programmed.Some? then Some((m.programmed.value.0, offset)) else None,
         anchor := Some(anchor), lastResync := Some(wall), errors := [],
         timings := m.timings + [Timing(wall, m.period.value, false)])
  }

  function PhaseCheck(a: Args, m: State, i: Analysis): State
    requires m.period.Some? && m.anchor.Some?
  {
    var newer := Fresh(a, m, i.times, |i.times|);
    if newer == [] then m else Resync(a, Count(a, m, Max(newer)), i.wall)
  }

  function Running(targets: seq<int>, n: nat, procs: set<int>): nat
    requires n <= |targets|
  {
    if n == 0 then 0 else Running(targets, n - 1, procs) + if targets[n - 1] in procs then 1 else 0
  }

  /** The active part of an analysis. */
  function Maintain(a: Args, m: State, i: Analysis): State
    requires m.period.Some? && m.anchor.Some?
  {
    var m' := CheckPeriod(a, m, i);
    if m'.mismatch >= a.relearnCount then EnterLearning(a, m', i.wall, i.mono, i.restarted)
    else
      var c := PhaseCheck(a, m', i);
      if SessionOver(c, i.mono) then Finish(a, c, i.wall, i.mono, i.restarted)
      else if Running(c.targets, |c.targets|, c.procs) < a.minTargets then EnterLearning(a, c, i.wall, i.mono, i.restarted)
      else c
  }

  function TryActivate(a: Args, m: State, i: Analysis): State
    requires m.goodFits != []
  {
    var period := Median(Periods(m.goodFits));
    match ActivationAnchor(a, period, i.times)
    case None => m
    case Some(anchor) => Activate(a, m, i, period, anchor)
  }

  function Analyse(a: Args, m: State, i: Analysis): State
  {
    var m' := RecordFit(a, m.(nextAnalysis := i.mono + a.analysisEvery), i);
    if MayActivate(a, m', i) then TryActivate(a, m', i)
    else if m'.active && m'.period.Some? && m'.anchor.Some? then Maintain(a, m', i)
    else m'
  }

  /** The wake-up for a due validation, and the probes that died since. */
  function Wake(a: Args, m: State, r: Turn): State {
    var m' := if m.active && m.mode.Sleep? && m.nextValidation.Some? && r.preMono >= m.nextValidation.value
              then StartValidation(a, m, r.preWall, r.preMono, r.started, r.fallback) else m;
    m'.(procs := m'.procs - r.died)
  }

  function Iterate(a: Args, m: State, r: Turn): State
  {
    var m', i := Wake(a, m, r), r.analysis;
    if m'.active && m'.mode.Sleep? then m'
    else if i.mono < m'.nextAnalysis then
      if SessionOver(m', i.mono) then Finish(a, m', i.wall, i.mono, i.restarted) else m'
    else Analyse(a, m', i)
  }

  function Start(a: Args, wall: real, mono: real, started: set<int>, k: Kernel): State {
    State(
      false, Learning, None, None, None, None, None, None, None, wall, [], [], [], 0,
      a.allTargets, None, [], None, mono + a.analysisEvery, started, k.(enable := 0, dynamicEnable := 0), [])
  }

  // ------------------------------------------------------------------------- invariants

  /** Active, out of learning, locked and enabled in the kernel are all the same. */
  ghost predicate Modes(m: State) {
    && (m.active <==> !m.mode.Learning?) && (m.active <==> m.period.Some?) && (m.active <==> m.anchor.Some?)
    && m.kernel.enable == (if m.active then 1 else 0) && m.kernel.dynamicEnable == (if m.active then 1 else 0)
  }

  /** While active the kernel runs on the rounded period and the anchor modulo it. */
  ghost predicate KernelMatches(m: State) {
    m.active && m.period.Some? && m.anchor.Some? ==>
      && m.period.value > 0.0
      && m.kernel.periodMs == PeriodMs(m.period.value) && m.kernel.offsetMs == OffsetMs(m.period.value, m.anchor.value)
      && m.programmed == Some((m.kernel.periodMs, m.kernel.offsetMs))
  }

  ghost predicate Probing(m: State) {
    && (m.mode.Sleep? ==> m.procs == {} && m.session == [] && m.deadline.None? && m.nextValidation.Some?)
    && (m.mode.Confirm? || m.mode.Validate? ==> m.deadline.Some?)
    && (m.mode.Learning? ==> m.session == [] && m.errors == [] && m.absErrors == [])
  }

  /** A measurement against the lattice it names, within the tolerance. */
  ghost predicate Sound(x: Measured, period: real, tolerance: real) {
    period > 0.0 && x.error == SignedError(x.event, x.anchor, period) && Abs(x.error) <= tolerance
  }

  /** The events of the session are sound and strictly increasing, the last one is the
      last valid event. */
  ghost predicate Backed(a: Args, m: State) {
    m.active && m.period.Some? ==>
      && m.lastValid.Some?
      && (forall j :: 0 <= j < |m.session| ==> Sound(m.session[j], m.period.value, a.tolerance))
      && (forall j, k :: 0 <= j < k < |m.session| ==> m.session[j].event < m.session[k].event)
      && (m.session != [] ==> m.session[|m.session| - 1].event == m.lastValid.value)
  }

  /** Every stored phase error was measured against the current anchor. */
  ghost predicate Current(xs: seq<Measured>, anchor: real) {
    forall j :: 0 <= j < |xs| ==> xs[j].anchor == anchor
  }

  ghost predicate ErrorsCurrent(a: Args, m: State) {
    m.active && m.period.Some? && m.anchor.Some? ==>
      Current(m.errors, m.anchor.value) && forall j :: 0 <= j < |m.errors| ==> Sound(m.errors[j], m.period.value, a.tolerance)
  }

  /** A phase write keeps its distance from the timing write before it. */
  ghost predicate Apart(a: Args, x: Timing, y: Timing) {
    !y.full ==> x.period == y.period && y.at - x.at >= a.resyncMinCycles * y.period
  }

  ghost predicate Spaced(a: Args, ts: seq<Timing>) {
    && (ts != [] ==> ts[0].full)
    && forall j, k :: 0 <= j < |ts| - 1 && k == j + 1 ==> Apart(a, ts[j], ts[k])
  }

  ghost predicate TimingsKnown(a: Args, m: State) {
    && Spaced(a, m.timings)
    && (m.active ==>
         && m.timings != [] && m.period == Some(m.timings[|m.timings| - 1].period)
         && m.lastResync == Some(m.timings[|m.timings| - 1].at))
  }

  /** Every recorded good fit was made since learning began. */
  ghost predicate Learned(a: Args, m: State, now: real) {
    && m.learningStarted <= now && |m.goodFits| <= a.lockWindow
    && forall j :: 0 <= j < |m.goodFits| ==> m.learningStarted <= m.goodFits[j].at <= now && m.goodFits[j].period > 0.0
  }

  /** The two histories are deques of bounded length. */
  ghost predicate Limited(a: Args, m: State) {
    |m.errors| <= a.consensusWindow && |m.absErrors| <= a.guardWindow
  }

  ghost predicate Inv(a: Args, m: State, now: real) {
    && Limited(a, m)
    && Modes(m) && KernelMatches(m) && Probing(m) && Backed(a, m) && ErrorsCurrent(a, m)
    && TimingsKnown(a, m) && Learned(a, m, now)
  }

  // ----------------------------------------------------------------------- preservation

  lemma LearningInv(a: Args, m: State, wall: real, mono: real, started: set<int>, now: real)
    requires Inv(a, m, now)
    ensures Inv(a, EnterLearning(a, m, wall, mono, started), wall)
  {
  }

  lemma SleepInv(a: Args, m: State, mono: real, now: real)
    requires Inv(a, m, now) && m.active
    ensures Inv(a, EnterSleep(a, m, mono), now)
  {
  }

  lemma ValidationInv(a: Args, m: State, wall: real, mono: real, started: set<int>, fallback: set<int>, now: real)
    requires Inv(a, m, now) && m.active && now <= wall
    ensures Inv(a, StartValidation(a, m, wall, mono, started, fallback), wall)
  {
    if |started| < a.minTargets { LearningInv(a, m, wall, mono, fallback, now); }
  }

  lemma FinishInv(a: Args, m: State, wall: real, mono: real, restarted: set<int>, now: real)
    requires Inv(a, m, now) && m.active && now <= wall
    ensures Inv(a, Finish(a, m, wall, mono, restarted), wall)
  {
    LearningInv(a, m, wall, mono, restarted, now);
    SleepInv(a, m, mono, now);
  }

  /** What is in a deque after a push was there before or is the new value. */
  lemma PushKeeps<T>(s: seq<T>, x: T, most: nat)
    requires most >= 1 && |s| <= most
    ensures |Push(s, x, most)| <= most
    ensures Push(s, x, most) != [] && Push(s, x, most)[|Push(s, x, most)| - 1] == x
    ensures forall j :: 0 <= j < |Push(s, x, most)| ==> Push(s, x, most)[j] in s + [x]
  {
  }

  lemma PushMembers<T>(s: seq<T>, x: T, most: nat, j: nat)
    requires most >= 1 && j < |Push(s, x, most)|
    ensures Push(s, x, most)[j] == x || exists k :: 0 <= k < |s| && Push(s, x, most)[j] == s[k]
  {
    var d := |s + [x]| - |Push(s, x, most)|;
    if j + d < |s| { assert Push(s, x, most)[j] == s[j + d]; }
  }

  lemma RecordFitInv(a: Args, m: State, i: Analysis, now: real)
    requires Inv(a, m, now) && a.Valid() && i.Valid() && now <= i.wall
    ensures Inv(a, RecordFit(a, m, i), i.wall)
  {
    if !m.active && LearningFitGood(a, i) {
      var x := GoodFit(i.fit.value.period, i.wall);
      var r := Push(m.goodFits, x, a.lockWindow);
      forall j | 0 <= j < |r| ensures m.learningStarted <= r[j].at <= i.wall && r[j].period > 0.0 {
        PushMembers(m.goodFits, x, a.lockWindow, j);
      }
    }
  }

  lemma MedianPositive(fits: seq<GoodFit>)
    requires fits != [] && forall j :: 0 <= j < |fits| ==> fits[j].period > 0.0
    ensures Median(Periods(fits)) > 0.0
  {
    var s := Periods(fits);
    var lo := Least(s);
    MedianWithin(s, lo, Most(s));
  }

  function Least(s: seq<real>): (r: real)
    requires s != []
    ensures forall i :: 0 <= i < |s| ==> r <= s[i]
    ensures exists i :: 0 <= i < |s| && r == s[i]
  {
    if |s| == 1 then s[0]
    else
      var t := Least(s[..|s| - 1]);
      assert forall i :: 0 <= i < |s| - 1 ==> s[..|s| - 1][i] == s[i];
      if s[|s| - 1] < t then s[|s| - 1] else t
  }

  function Most(s: seq<real>): (r: real)
    requires s != []
    ensures forall i :: 0 <= i < |s| ==> s[i] <= r
    ensures exists i :: 0 <= i < |s| && r == s[i]
  {
    if |s| == 1 then s[0]
    else
      var t := Most(s[..|s| - 1]);
      assert forall i :: 0 <= i < |s| - 1 ==> s[..|s| - 1][i] == s[i];
      if s[|s| - 1] > t then s[|s| - 1] else t
  }

  lemma SpacedAppend(a: Args, ts: seq<Timing>, t: Timing)
    requires Spaced(a, ts) && (if ts == [] then t.full else Apart(a, ts[|ts| - 1], t))
    ensures Spaced(a, ts + [t])
  {
    var r := ts + [t];
    forall j, k | 0 <= j < |r| - 1 && k == j + 1 ensures Apart(a, r[j], r[k]) {
      if k < |ts| { assert Apart(a, ts[j], ts[k]); }
    }
  }

  lemma ActivateInv(a: Args, m: State, i: Analysis, period: real, anchor: real, now: real)
    requires Inv(a, m, now) && !m.active && period > 0.0
    ensures Inv(a, Activate(a, m, i, period, anchor), now)
  {
    SpacedAppend(a, m.timings, Timing(i.wall, period, true));
  }

  lemma CheckPeriodInv(a: Args, m: State, i: Analysis, now: real)
    requires Inv(a, m, now) && m.active
    ensures Inv(a, CheckPeriod(a, m, i), now)
  {
  }

  lemma {:induction false} FreshExactly(a: Args, m: State, times: seq<real>, n: nat)
    requires m.period.Some? && m.anchor.Some? && n <= |times|
    ensures forall e :: e in Fresh(a, m, times, n) ==>
      OnLattice(e, m.anchor.value, m.period.value, a.tolerance) && (m.lastValid.None? || e > m.lastValid.value)
  {
    if n > 0 { FreshExactly(a, m, times, n - 1); }
  }

  lemma CountBacked(a: Args, m: State, event: real)
    requires Backed(a, m) && m.active && m.period.Some? && m.anchor.Some?
    requires OnLattice(event, m.anchor.value, m.period.value, a.tolerance)
    requires m.lastValid.Some? ==> event > m.lastValid.value
    ensures Backed(a, Count(a, m, event))
  {
    var s := m.session;
    if s != [] {
      forall j | 0 <= j < |s| ensures s[j].event <= m.lastValid.value {
        if j < |s| - 1 { assert s[j].event < s[|s| - 1].event; }
      }
    }
  }

  lemma CountErrors(a: Args, m: State, event: real)
    requires ErrorsCurrent(a, m) && m.active && m.period.Some? && m.anchor.Some? && a.Valid()
    requires OnLattice(event, m.anchor.value, m.period.value, a.tolerance)
    ensures ErrorsCurrent(a, Count(a, m, event)) && Count(a, m, event).errors != []
  {
    var x := Measured(event, m.anchor.value, SignedError(event, m.anchor.value, m.period.value));
    var r := Push(m.errors, x, a.consensusWindow);
    forall j | 0 <= j < |r| ensures r[j].anchor == m.anchor.value && Sound(r[j], m.period.value, a.tolerance) {
      PushMembers(m.errors, x, a.consensusWindow, j);
    }
  }

  lemma CountInv(a: Args, m: State, event: real, now: real)
    requires Inv(a, m, now) && m.active && m.period.Some? && m.anchor.Some? && a.Valid() && !m.mode.Sleep?
    requires OnLattice(event, m.anchor.value, m.period.value, a.tolerance)
    requires m.lastValid.Some? ==> event > m.lastValid.value
    ensures Inv(a, Count(a, m, event), now)
  {
    CountBacked(a, m, event);
    CountErrors(a, m, event);
    var x := Measured(event, m.anchor.value, SignedError(event, m.anchor.value, m.period.value));
    PushKeeps(m.errors, x, a.consensusWindow);
    PushKeeps(m.absErrors, x, a.guardWindow);
  }

  lemma ResyncInv(a: Args, m: State, wall: real, now: real)
    requires Inv(a, m, now) && m.active && m.period.Some? && m.anchor.Some?
    ensures Inv(a, Resync(a, m, wall), now)
  {
    if ConsensusCrossed(a, m) && ResyncDue(a, m, wall) {
      SpacedAppend(a, m.timings, Timing(wall, m.period.value, false));
    }
  }

  lemma PhaseCheckInv(a: Args, m: State, i: Analysis, now: real)
    requires Inv(a, m, now) && m.active && m.period.Some? && m.anchor.Some? && a.Valid() && !m.mode.Sleep?
    ensures Inv(a, PhaseCheck(a, m, i), now)
  {
    var newer := Fresh(a, m, i.times, |i.times|);
    if newer != [] {
      FreshExactly(a, m, i.times, |i.times|);
      MaxIsGreatest(newer);
      CountInv(a, m, Max(newer), now);
      ResyncInv(a, Count(a, m, Max(newer)), i.wall, now);
    }
  }

  lemma MaintainInv(a: Args, m: State, i: Analysis, now: real)
    requires Inv(a, m, now) && m.active && m.period.Some? && m.anchor.Some? && a.Valid() && !m.mode.Sleep? && now <= i.wall
    ensures Inv(a, Maintain(a, m, i), i.wall)
  {
    CheckPeriodInv(a, m, i, now);
    var m' := CheckPeriod(a, m, i);
    LearningInv(a, m', i.wall, i.mono, i.restarted, now);
    PhaseCheckInv(a, m', i, now);
    var c := PhaseCheck(a, m', i);
    LearningInv(a, c, i.wall, i.mono, i.restarted, now);
    if SessionOver(c, i.mono) { FinishInv(a, c, i.wall, i.mono, i.restarted, now); }
  }

  lemma TryActivateInv(a: Args, m: State, i: Analysis, now: real)
    requires Inv(a, m, now) && !m.active && m.goodFits != []
    ensures Inv(a, TryActivate(a, m, i), now)
  {
    MedianPositive(m.goodFits);
    var period := Median(Periods(m.goodFits));
    var anchor := ActivationAnchor(a, period, i.times);
    if anchor.Some? { ActivateInv(a, m, i, period, anchor.value, now); }
  }

  lemma ScheduleInv(a: Args, m: State, next: real, now: real)
    requires Inv(a, m, now)
    ensures Inv(a, m.(nextAnalysis := next), now)
  {
  }

  lemma MaintainOrIdleInv(a: Args, m: State, i: Analysis, now: real)
    requires Inv(a, m, now) && a.Valid() && !m.mode.Sleep? && now <= i.wall
    ensures m.active && m.period.Some? && m.anchor.Some? ==> Inv(a, Maintain(a, m, i), i.wall)
  {
    if m.active { MaintainInv(a, m, i, now); }
  }

  lemma AnalyseInv(a: Args, m: State, i: Analysis, now: real)
    requires Inv(a, m, now) && a.Valid() && i.Valid() && !m.mode.Sleep? && now <= i.wall
    ensures Inv(a, Analyse(a, m, i), i.wall)
  {
    hide Maintain, TryActivate, CooledDown;
    var t := m.(nextAnalysis := i.mono + a.analysisEvery);
    ScheduleInv(a, m, t.nextAnalysis, now);
    RecordFitInv(a, t, i, now);
    var m' := RecordFit(a, t, i);
    MaintainOrIdleInv(a, m', i, i.wall);
    if MayActivate(a, m', i) { TryActivateInv(a, m', i, i.wall); }
  }

  lemma WakeInv(a: Args, m: State, r: Turn, now: real)
    requires Inv(a, m, now) && now <= r.preWall
    ensures Inv(a, Wake(a, m, r), r.preWall)
  {
    if m.active && m.mode.Sleep? { ValidationInv(a, m, r.preWall, r.preMono, r.started, r.fallback, now); }
  }

  predicate Timely(r: Turn, now: real) {
    now <= r.preWall <= r.analysis.wall && r.analysis.Valid()
  }

  /** A round whose clocks go on and whose fit is the program's own. */
  ghost predicate ProgramTurn(a: Args, r: Turn, now: real) {
    now <= r.preWall <= r.analysis.wall && Answered(a, r.analysis)
  }

  lemma ProgramTurnIsTimely(a: Args, r: Turn, now: real)
    requires ProgramTurn(a, r, now)
    ensures Timely(r, now)
  {
    AnsweredIsValid(a, r.analysis);
  }

  lemma IterateInv(a: Args, m: State, r: Turn, now: real)
    requires Inv(a, m, now) && a.Valid() && Timely(r, now)
    ensures Inv(a, Iterate(a, m, r), r.analysis.wall)
  {
    WakeInv(a, m, r, now);
    var m', i := Wake(a, m, r), r.analysis;
    if SessionOver(m', i.mono) { FinishInv(a, m', i.wall, i.mono, i.restarted, r.preWall); }
    if !m'.mode.Sleep? { AnalyseInv(a, m', i, r.preWall); }
  }

  /** A run of the main loop with a wall clock that does not go back. */
  ghost predicate TimelyRun(rs: seq<Turn>, now: real)
    decreases |rs|
  {
    rs == [] || (Timely(rs[0], now) && TimelyRun(rs[1..], rs[0].analysis.wall))
  }

  /** The state after a run, and the wall clock at its end. */
  function Run(a: Args, m: State, rs: seq<Turn>): State
    decreases |rs|
  {
    if rs == [] then m else Run(a, Iterate(a, m, rs[0]), rs[1..])
  }

  function EndOf(rs: seq<Turn>, now: real): real {
    if rs == [] then now else rs[|rs| - 1].analysis.wall
  }

  lemma {:induction false} RunInv(a: Args, m: State, rs: seq<Turn>, now: real)
    requires a.Valid() && Inv(a, m, now) && TimelyRun(rs, now)
    ensures Inv(a, Run(a, m, rs), EndOf(rs, now))
    decreases |rs|
  {
    hide Iterate, Inv;
    if rs != [] {
      IterateInv(a, m, rs[0], now);
      RunInv(a, Iterate(a, m, rs[0]), rs[1..], rs[0].analysis.wall);
    }
  }

  lemma StartInv(a: Args, wall: real, mono: real, started: set<int>, k: Kernel)
    ensures Inv(a, Start(a, wall, mono, started, k), wall)
  {
  }

  /** At every step boundary of every run: active is the same as not learning, as having a
      period and an anchor, and as both kernel enables being on; the kernel then runs on the
      rounded locked period and anchor; a sleeping monitor has no probes; sessions are backed
      by sound events; stored phase errors are current; phase writes keep their distance. */
  lemma EveryRun(a: Args, wall: real, mono: real, started: set<int>, k: Kernel, rs: seq<Turn>)
    requires a.Valid() && TimelyRun(rs, wall)
    ensures var m := Run(a, Start(a, wall, mono, started, k), rs);
            && Modes(m) && KernelMatches(m) && Probing(m) && Backed(a, m) && ErrorsCurrent(a, m) && Spaced(a, m.timings)
            && Limited(a, m)
  {
    hide Run, Start;
    StartInv(a, wall, mono, started, k);
    RunInv(a, Start(a, wall, mono, started, k), rs, wall);
  }

  // ------------------------------------------------------------------------- activation

  lemma CooldownUnchanged(a: Args, m: State, m': State, wall: real)
    requires m'.lastDisable == m.lastDisable && m'.lastDisabledPeriod == m.lastDisabledPeriod
    requires m'.learningStarted == m.learningStarted
    ensures CooledDown(a, m', wall) == CooledDown(a, m, wall) && LearnedLongEnough(a, m', wall) == LearnedLongEnough(a, m, wall)
  {
  }

  lemma TryActivatesExactly(a: Args, m: State, i: Analysis)
    requires !m.active && m.goodFits != [] && forall j :: 0 <= j < |m.goodFits| ==> m.goodFits[j].period > 0.0
    ensures TryActivate(a, m, i).active <==> i.times != [] && a.tolerance >= 0.0
  {
    MedianPositive(m.goodFits);
    AnchorFoundExactly(i.times, Median(Periods(m.goodFits)), a.tolerance);
    hide Median, ChooseAnchor, Newest;
  }

  /** An analysis while learning activates if and only if the fit is good, learning and the
      cooldown have lasted long enough, enough good fits are on record and there is an event
      to anchor on. */
  lemma ActivatesExactly(a: Args, m: State, i: Analysis, now: real)
    requires Inv(a, m, now) && a.Valid() && i.Valid() && !m.active && now <= i.wall
    ensures var fits := Push(m.goodFits, GoodFit(if i.fit.Some? then i.fit.value.period else 0.0, i.wall), a.lockWindow);
            Analyse(a, m, i).active <==>
              && LearningFitGood(a, i) && LearnedLongEnough(a, m, i.wall) && CooledDown(a, m, i.wall)
              && |fits| >= a.lockMinFits && i.times != [] && a.tolerance >= 0.0
  {
    hide Maintain, TryActivate, CooledDown, LearnedLongEnough;
    var t := m.(nextAnalysis := i.mono + a.analysisEvery);
    ScheduleInv(a, m, t.nextAnalysis, now);
    RecordFitInv(a, t, i, now);
    var m' := RecordFit(a, t, i);
    CooldownUnchanged(a, m, m', i.wall);
    if MayActivate(a, m', i) { TryActivatesExactly(a, m', i); }
  }

  /** An activation locks the median of the good fits made since learning began, anchors on
      one of the common events, and starts a confirmation. */
  lemma ActivationIsEarned(a: Args, m: State, i: Analysis, now: real)
    requires Inv(a, m, now) && a.Valid() && i.Valid() && !m.active && now <= i.wall && Analyse(a, m, i).active
    ensures var m' := Analyse(a, m, i);
            && m'.mode.Confirm? && m'.session == [] && |m'.goodFits| >= a.lockMinFits
            && (forall j :: 0 <= j < |m'.goodFits| ==> m.learningStarted <= m'.goodFits[j].at <= i.wall)
            && m'.period == Some(Median(Periods(m'.goodFits)))
            && m'.anchor.Some? && m'.anchor.value in i.times && m'.anchor == m'.lastValid
            && m'.timings == m.timings + [Timing(i.wall, m'.period.value, true)]
  {
    var t := m.(nextAnalysis := i.mono + a.analysisEvery);
    ScheduleInv(a, m, t.nextAnalysis, now);
    RecordFitInv(a, t, i, now);
    var m' := RecordFit(a, t, i);
    AnchorFoundExactly(i.times, Median(Periods(m'.goodFits)), a.tolerance);
  }

  // --------------------------------------------------------------------------- sessions

  /** At least the required number of strictly increasing events, each within tolerance of
      the lattice it was counted on, by the end of the session. */
  ghost predicate SessionBacked(a: Args, c: State, mono: real) {
    && c.active && c.period.Some? && |c.session| >= Needed(a, c.mode) >= 1
    && (forall j :: 0 <= j < |c.session| ==> Sound(c.session[j], c.period.value, a.tolerance))
    && (forall j, k :: 0 <= j < k < |c.session| ==> c.session[j].event < c.session[k].event)
    && c.deadline.Some? && mono >= c.deadline.value
  }

  lemma FinishBacked(a: Args, c: State, wall: real, mono: real, restarted: set<int>, now: real)
    requires Inv(a, c, now) && a.Valid() && SessionOver(c, mono) && Finish(a, c, wall, mono, restarted).mode.Sleep?
    ensures SessionBacked(a, c, mono)
  {
  }

  /** The state in which an analysis decides about the session. */
  function Checked(a: Args, m: State, i: Analysis): State
    requires m.period.Some? && m.anchor.Some?
  {
    PhaseCheck(a, CheckPeriod(a, m, i), i)
  }

  lemma PhaseCheckKeepsMode(a: Args, m: State, i: Analysis)
    requires m.period.Some? && m.anchor.Some?
    ensures var c := PhaseCheck(a, m, i);
            c.mode == m.mode && c.active == m.active && c.period == m.period && c.deadline == m.deadline && c.mismatch == m.mismatch
  {
  }

  lemma MaintainSleepBacked(a: Args, m: State, i: Analysis, now: real)
    requires Inv(a, m, now) && m.active && m.period.Some? && m.anchor.Some? && a.Valid() && !m.mode.Sleep?
    requires Maintain(a, m, i).mode.Sleep?
    ensures SessionBacked(a, Checked(a, m, i), i.mono)
  {
    CheckPeriodInv(a, m, i, now);
    var m' := CheckPeriod(a, m, i);
    PhaseCheckInv(a, m', i, now);
    PhaseCheckKeepsMode(a, m', i);
    FinishBacked(a, PhaseCheck(a, m', i), i.wall, i.mono, i.restarted, now);
  }

  /** The state in which a round decides about the session. */
  function BeforeDecision(a: Args, m: State, i: Analysis): State
    requires m.period.Some? && m.anchor.Some?
  {
    if i.mono < m.nextAnalysis then m else Checked(a, m.(nextAnalysis := i.mono + a.analysisEvery), i)
  }

  lemma AnalyseSleepIsMaintain(a: Args, m: State, i: Analysis, now: real)
    requires Inv(a, m, now) && !m.mode.Sleep? && Analyse(a, m, i).mode.Sleep?
    ensures m.active && Analyse(a, m, i) == Maintain(a, m.(nextAnalysis := i.mono + a.analysisEvery), i)
  {
    hide Maintain, ActivationAnchor, Programmed, PeriodMs, OffsetMs, Median, LearningFitGood, LearnedLongEnough, CooledDown;
  }

  /** The monitor goes to sleep only at the end of a backed session. */
  lemma SleepIsBacked(a: Args, m: State, r: Turn, now: real)
    requires Inv(a, m, now) && a.Valid() && Timely(r, now)
    requires !Wake(a, m, r).mode.Sleep? && Iterate(a, m, r).mode.Sleep?
    ensures var m' := Wake(a, m, r);
            && m'.active && m'.period.Some? && m'.anchor.Some? && m'.period.value > 0.0
            && SessionBacked(a, BeforeDecision(a, m', r.analysis), r.analysis.mono)
  {
    hide PhaseCheck, CheckPeriod, ActivationAnchor, CooledDown, Limited;
    WakeInv(a, m, r, now);
    var m', i := Wake(a, m, r), r.analysis;
    if i.mono < m'.nextAnalysis {
      FinishBacked(a, m', i.wall, i.mono, i.restarted, r.preWall);
    } else {
      AnalyseSleepIsMaintain(a, m', i, r.preWall);
      ScheduleInv(a, m', i.mono + a.analysisEvery, r.preWall);
      MaintainSleepBacked(a, m'.(nextAnalysis := i.mono + a.analysisEvery), i, r.preWall);
    }
  }

  lemma MaintainEndsSession(a: Args, m: State, i: Analysis)
    requires m.period.Some? && m.anchor.Some? && SessionOver(m, i.mono)
    ensures Maintain(a, m, i).mode.Sleep? || Maintain(a, m, i).mode.Learning?
  {
    PhaseCheckKeepsMode(a, CheckPeriod(a, m, i), i);
  }

  /** A session never outlives its deadline: a round at or after it leaves the mode. */
  lemma SessionsEnd(a: Args, m: State, r: Turn, now: real)
    requires Inv(a, m, now) && a.Valid() && Timely(r, now) && SessionOver(Wake(a, m, r), r.analysis.mono)
    ensures Iterate(a, m, r).mode.Sleep? || Iterate(a, m, r).mode.Learning?
  {
    hide PhaseCheck, CheckPeriod, ActivationAnchor, CooledDown, Limited;
    WakeInv(a, m, r, now);
    MaintainEndsSession(a, Wake(a, m, r).(nextAnalysis := r.analysis.mono + a.analysisEvery), r.analysis);
  }

  // ----------------------------------------------------------------------------- phases

  lemma ConsensusWithin(a: Args, m: State)
    requires ErrorsCurrent(a, m) && m.active && m.period.Some? && m.anchor.Some?
    ensures ConsensusCrossed(a, m) ==> Abs(Consensus(m)) <= a.tolerance
  {
    if m.errors != [] {
      var es := Errors(m.errors);
      forall j | 0 <= j < |es| ensures -a.tolerance <= es[j] <= a.tolerance {
        assert Sound(m.errors[j], m.period.value, a.tolerance);
      }
      MedianWithin(es, -a.tolerance, a.tolerance);
    }
  }

  lemma PartOf(x: real, alpha: real, y: real)
    requires 0.0 <= alpha <= 1.0 && y == x * alpha && x >= 0.0
    ensures 0.0 <= y <= x
  {
    MulBetween(x, alpha);
  }

  lemma ZeroProduct(x: real, alpha: real)
    ensures x * alpha == 0.0 <==> x == 0.0 || alpha == 0.0
  {
    if x != 0.0 && alpha != 0.0 { assert x * alpha / alpha == x; }
  }

  /** Applying a part of an error within the tolerance. */
  lemma Shifted(anchor: real, x: real, alpha: real, tolerance: real, moved: real)
    requires 0.0 <= alpha <= 1.0 && Abs(x) <= tolerance && moved == anchor + x * alpha
    ensures Abs(moved - anchor) <= tolerance && (moved != anchor <==> x != 0.0 && alpha != 0.0)
  {
    var y := x * alpha;
    ZeroProduct(x, alpha);
    if x >= 0.0 { PartOf(x, alpha, y); } else { PartOf(-x, alpha, -y); }
  }

  lemma ResyncAnchor(a: Args, m: State, wall: real)
    requires m.period.Some? && m.anchor.Some?
    ensures Resync(a, m, wall).period == m.period
    ensures Resync(a, m, wall).anchor == if ConsensusCrossed(a, m) && ResyncDue(a, m, wall) then Some(Corrected(a, m)) else m.anchor
  {
    hide ConsensusCrossed, ResyncDue, Corrected, OffsetMs;
  }

  lemma CorrectedShifts(a: Args, m: State)
    requires m.anchor.Some? && Abs(Consensus(m)) <= a.tolerance
    ensures Abs(Corrected(a, m) - m.anchor.value) <= a.tolerance
    ensures Corrected(a, m) != m.anchor.value <==> Consensus(m) != 0.0 && Alpha(a) != 0.0
  {
    hide Consensus;
    Shifted(m.anchor.value, Consensus(m), Alpha(a), a.tolerance, Corrected(a, m));
  }

  /** The consensus is strong and late enough to be applied, and not zero. */
  predicate Moves(a: Args, m: State, wall: real)
    requires m.period.Some?
  {
    ConsensusCrossed(a, m) && ResyncDue(a, m, wall) && Consensus(m) != 0.0 && Alpha(a) != 0.0
  }

  ghost predicate Near(m: State, m': State, tolerance: real) {
    && m.anchor.Some? && m'.anchor.Some? && m'.period == m.period
    && (m'.anchor == m.anchor || Abs(m'.anchor.value - m.anchor.value) <= tolerance)
  }

  /** A resynchronisation moves the anchor by at most the tolerance, and exactly when there
      is something to apply. */
  lemma ResyncMovesLittle(a: Args, m: State, wall: real)
    requires ErrorsCurrent(a, m) && m.active && m.period.Some? && m.anchor.Some?
    ensures Near(m, Resync(a, m, wall), a.tolerance)
    ensures Resync(a, m, wall).anchor != m.anchor <==> Moves(a, m, wall)
  {
    hide ConsensusCrossed, ResyncDue, Consensus, Alpha, Resync, Corrected;
    ResyncAnchor(a, m, wall);
    ConsensusWithin(a, m);
    if ConsensusCrossed(a, m) && ResyncDue(a, m, wall) { CorrectedShifts(a, m); }
  }

  lemma PhaseCheckMovesLittle(a: Args, m: State, i: Analysis)
    requires ErrorsCurrent(a, m) && a.Valid() && m.active && m.period.Some? && m.anchor.Some? && m.period.value > 0.0
    ensures Near(m, PhaseCheck(a, m, i), a.tolerance)
  {
    var newer := Fresh(a, m, i.times, |i.times|);
    if newer != [] {
      FreshExactly(a, m, i.times, |i.times|);
      MaxIsGreatest(newer);
      CountErrors(a, m, Max(newer));
      ResyncMovesLittle(a, Count(a, m, Max(newer)), i.wall);
    }
  }

  lemma MaintainMovesLittle(a: Args, m: State, i: Analysis)
    requires ErrorsCurrent(a, m) && a.Valid() && m.active && m.period.Some? && m.anchor.Some? && m.period.value > 0.0
    requires Maintain(a, m, i).active
    ensures Near(m, Maintain(a, m, i), a.tolerance)
  {
    hide PhaseCheck;
    PhaseCheckMovesLittle(a, CheckPeriod(a, m, i), i);
  }

  /** While it stays active, an analysis keeps the period and moves the anchor by at most the
      tolerance. */
  lemma AnchorMovesLittle(a: Args, m: State, i: Analysis, now: real)
    requires Inv(a, m, now) && a.Valid() && m.active && Analyse(a, m, i).active
    ensures Near(m, Analyse(a, m, i), a.tolerance)
  {
    hide Maintain;
    MaintainMovesLittle(a, m.(nextAnalysis := i.mono + a.analysisEvery), i);
  }

  /** The history behind the prediction guard is not cleared by a resynchronisation.  If it
      was current before an event is counted, it is current after the phase check if and only
      if no resynchronisation moves the anchor. */
  lemma AbsErrorsCurrentExactly(a: Args, m: State, event: real, wall: real, now: real)
    requires Inv(a, m, now) && m.active && m.period.Some? && m.anchor.Some? && a.Valid()
    requires OnLattice(event, m.anchor.value, m.period.value, a.tolerance)
    requires Current(m.absErrors, m.anchor.value)
    ensures var c := Count(a, m, event);
            && Resync(a, c, wall).anchor.Some?
            && (Current(Resync(a, c, wall).absErrors, Resync(a, c, wall).anchor.value) <==> !Moves(a, c, wall))
  {
    var x := Measured(event, m.anchor.value, SignedError(event, m.anchor.value, m.period.value));
    var c := Count(a, m, event);
    PushKeeps(m.absErrors, x, a.guardWindow);
    forall j | 0 <= j < |c.absErrors| ensures c.absErrors[j].anchor == m.anchor.value {
      PushMembers(m.absErrors, x, a.guardWindow, j);
    }
    CountErrors(a, m, event);
    ResyncMovesLittle(a, c, wall);
    assert c.absErrors[|c.absErrors| - 1] == x;
  }

  // ------------------------------------------------ the absolute errors over a whole run

  /** The `n` newest errors were measured against the current anchor, and the one before
      them was not. */
  ghost predicate NewestCurrent(m: State, n: nat) {
    m.active && m.anchor.Some? ==>
      && (forall j {:trigger m.absErrors[j]} :: 0 <= j < |m.absErrors| && |m.absErrors| - n <= j ==> m.absErrors[j].anchor == m.anchor.value)
      && (n < |m.absErrors| ==> m.absErrors[|m.absErrors| - 1 - n].anchor != m.anchor.value)
  }

  /** Events counted since a resynchronisation last moved the anchor, after an analysis. */
  function SinceAnalysis(a: Args, m: State, i: Analysis, n: nat): nat {
    if m.active && m.period.Some? && m.anchor.Some? then
      var c := CheckPeriod(a, m, i);
      var newer := Fresh(a, c, i.times, |i.times|);
      if c.mismatch >= a.relearnCount || newer == [] then n
      else if Moves(a, Count(a, c, Max(newer)), i.wall) then 0
      else n + 1
    else n
  }

  function SinceRound(a: Args, m: State, r: Turn, n: nat): nat {
    var m', i := Wake(a, m, r), r.analysis;
    if (m'.active && m'.mode.Sleep?) || i.mono < m'.nextAnalysis then n
    else SinceAnalysis(a, m'.(nextAnalysis := i.mono + a.analysisEvery), i, n)
  }

  /** The same over a run. */
  function Since(a: Args, m: State, rs: seq<Turn>, n: nat): nat
    decreases |rs|
  {
    if rs == [] then n else Since(a, Iterate(a, m, rs[0]), rs[1..], SinceRound(a, m, rs[0], n))
  }

  lemma PushAt<T>(s: seq<T>, x: T, most: nat, j: nat)
    requires most >= 1 && |s| <= most && j < |Push(s, x, most)| - 1
    ensures |Push(s, x, most)| - 1 <= |s|
    ensures Push(s, x, most)[j] == s[j + (|s| + 1 - |Push(s, x, most)|)]
  {
  }

  lemma PushNewest(s: seq<Measured>, x: Measured, most: nat, n: nat, anchor: real)
    requires most >= 1 && |s| <= most && x.anchor == anchor
    requires forall j :: 0 <= j < |s| && |s| - n <= j ==> s[j].anchor == anchor
    requires n < |s| ==> s[|s| - 1 - n].anchor != anchor
    ensures var r := Push(s, x, most);
            && (forall j :: 0 <= j < |r| && |r| - (n + 1) <= j ==> r[j].anchor == anchor)
            && (n + 1 < |r| ==> r[|r| - 2 - n].anchor != anchor)
  {
    var r := Push(s, x, most);
    PushKeeps(s, x, most);
    forall j | 0 <= j < |r| && |r| - (n + 1) <= j ensures r[j].anchor == anchor {
      if j < |r| - 1 { PushAt(s, x, most, j); }
    }
    if n + 1 < |r| { PushAt(s, x, most, |r| - 2 - n); }
  }

  lemma CountNewest(a: Args, m: State, event: real, n: nat)
    requires a.Valid() && Limited(a, m) && NewestCurrent(m, n) && m.active && m.period.Some? && m.anchor.Some? && m.period.value > 0.0
    ensures var c := Count(a, m, event);
            NewestCurrent(c, n + 1) && c.absErrors != [] && c.absErrors[|c.absErrors| - 1].anchor == m.anchor.value
  {
    var x := Measured(event, m.anchor.value, SignedError(event, m.anchor.value, m.period.value));
    PushNewest(m.absErrors, x, a.guardWindow, n, m.anchor.value);
    PushKeeps(m.absErrors, x, a.guardWindow);
    hide SignedError;
  }

  lemma ResyncKeepsAbsErrors(a: Args, m: State, wall: real)
    requires m.period.Some? && m.anchor.Some?
    ensures Resync(a, m, wall).absErrors == m.absErrors && Resync(a, m, wall).active == m.active
  {
    hide ConsensusCrossed, ResyncDue, Corrected, OffsetMs;
  }

  lemma CountKeepsLock(a: Args, m: State, event: real)
    requires m.period.Some? && m.anchor.Some? && m.period.value > 0.0
    ensures var c := Count(a, m, event); c.active == m.active && c.period == m.period && c.anchor == m.anchor
  {
    hide SignedError;
  }

  /** A move starts the count again at the error that caused it. */
  lemma MoveRestarts(c: State, r: State, n: nat, moved: bool)
    requires c.anchor.Some? && r.anchor.Some? && r.active == c.active && r.absErrors == c.absErrors
    requires c.absErrors != [] && c.absErrors[|c.absErrors| - 1].anchor == c.anchor.value
    requires NewestCurrent(c, n) && (moved <==> r.anchor != c.anchor)
    ensures NewestCurrent(r, if moved then 0 else n)
  {
  }

  lemma CountThenResyncNewest(a: Args, m: State, event: real, wall: real, n: nat)
    requires a.Valid() && Limited(a, m) && ErrorsCurrent(a, m) && NewestCurrent(m, n)
    requires m.active && m.period.Some? && m.anchor.Some? && m.period.value > 0.0
    requires OnLattice(event, m.anchor.value, m.period.value, a.tolerance)
    ensures var c := Count(a, m, event);
            c.period.Some? && c.anchor.Some? && NewestCurrent(Resync(a, c, wall), if Moves(a, c, wall) then 0 else n + 1)
  {
    hide Count, Resync, Moves, NewestCurrent, ErrorsCurrent, Limited, OnLattice;
    CountKeepsLock(a, m, event);
    CountErrors(a, m, event);
    CountNewest(a, m, event, n);
    var c := Count(a, m, event);
    ResyncMovesLittle(a, c, wall);
    ResyncKeepsAbsErrors(a, c, wall);
    MoveRestarts(c, Resync(a, c, wall), n + 1, Moves(a, c, wall));
  }

  lemma NewestFresh(a: Args, m: State, times: seq<real>)
    requires m.period.Some? && m.anchor.Some? && Fresh(a, m, times, |times|) != []
    ensures m.period.value > 0.0 && OnLattice(Max(Fresh(a, m, times, |times|)), m.anchor.value, m.period.value, a.tolerance)
  {
    hide OnLattice;
    FreshExactly(a, m, times, |times|);
    MaxIsGreatest(Fresh(a, m, times, |times|));
  }

  lemma PhaseCheckNewest(a: Args, m: State, i: Analysis, n: nat)
    requires a.Valid() && Limited(a, m) && ErrorsCurrent(a, m) && NewestCurrent(m, n) && m.active && m.period.Some? && m.anchor.Some?
    ensures var newer := Fresh(a, m, i.times, |i.times|);
            NewestCurrent(PhaseCheck(a, m, i),
                          if newer == [] then n else if Moves(a, Count(a, m, Max(newer)), i.wall) then 0 else n + 1)
  {
    hide Count, Resync, Moves, Fresh, Max, NewestCurrent, ErrorsCurrent, Limited, OnLattice;
    var newer := Fresh(a, m, i.times, |i.times|);
    if newer != [] {
      NewestFresh(a, m, i.times);
      CountThenResyncNewest(a, m, Max(newer), i.wall, n);
    }
  }

  lemma CheckPeriodNewest(a: Args, m: State, i: Analysis, n: nat)
    requires NewestCurrent(m, n) && Limited(a, m) && ErrorsCurrent(a, m) && m.period.Some?
    ensures var c := CheckPeriod(a, m, i);
            NewestCurrent(c, n) && Limited(a, c) && ErrorsCurrent(a, c)
            && c.active == m.active && c.period == m.period && c.anchor == m.anchor
  {
  }

  /** Falling asleep or back to learning does not disturb it. */
  lemma AfterCheckNewest(a: Args, c: State, i: Analysis, n: nat)
    requires NewestCurrent(c, n)
    ensures NewestCurrent(Finish(a, c, i.wall, i.mono, i.restarted), n)
    ensures NewestCurrent(EnterLearning(a, c, i.wall, i.mono, i.restarted), n)
  {
  }

  lemma MaintainNewest(a: Args, m: State, i: Analysis, n: nat)
    requires a.Valid() && Limited(a, m) && ErrorsCurrent(a, m) && NewestCurrent(m, n) && m.active && m.period.Some? && m.anchor.Some?
    ensures NewestCurrent(Maintain(a, m, i), SinceAnalysis(a, m, i, n))
  {
    hide PhaseCheck, CheckPeriod, NewestCurrent, ErrorsCurrent, Limited, Moves, Count, Finish, EnterLearning, Fresh, Max;
    CheckPeriodNewest(a, m, i, n);
    var c := CheckPeriod(a, m, i);
    PhaseCheckNewest(a, c, i, n);
    AfterCheckNewest(a, c, i, n);
    if c.mismatch < a.relearnCount { AfterCheckNewest(a, PhaseCheck(a, c, i), i, SinceAnalysis(a, m, i, n)); }
  }

  lemma ActivateNewest(a: Args, m: State, i: Analysis, n: nat)
    requires m.goodFits != [] && !m.active
    ensures NewestCurrent(TryActivate(a, m, i), n)
  {
    hide ActivationAnchor, Median, PeriodMs, OffsetMs, Programmed;
  }

  /** What the rest needs of the invariant. */
  lemma InvLocks(a: Args, m: State, now: real)
    requires Inv(a, m, now)
    ensures Limited(a, m) && ErrorsCurrent(a, m)
    ensures (m.active <==> m.period.Some?) && (m.active <==> m.anchor.Some?) && (m.mode.Sleep? ==> m.active)
  {
  }

  lemma RecordNewest(a: Args, m: State, i: Analysis, next: real, n: nat)
    requires NewestCurrent(m, n) && Limited(a, m) && ErrorsCurrent(a, m)
    ensures var t := m.(nextAnalysis := next);
            && NewestCurrent(t, n) && Limited(a, t) && ErrorsCurrent(a, t)
            && NewestCurrent(RecordFit(a, t, i), n)
            && (m.active ==> RecordFit(a, t, i) == t)
            && RecordFit(a, t, i).active == m.active && RecordFit(a, t, i).period == m.period && RecordFit(a, t, i).anchor == m.anchor
  {
  }

  lemma AnalyseNewest(a: Args, m: State, i: Analysis, n: nat)
    requires a.Valid() && Limited(a, m) && ErrorsCurrent(a, m) && NewestCurrent(m, n)
    requires (m.active <==> m.period.Some?) && (m.active <==> m.anchor.Some?)
    ensures NewestCurrent(Analyse(a, m, i), SinceAnalysis(a, m.(nextAnalysis := i.mono + a.analysisEvery), i, n))
  {
    hide Maintain, TryActivate, NewestCurrent, Limited, ErrorsCurrent, RecordFit, LearningFitGood, LearnedLongEnough, CooledDown;
    RecordNewest(a, m, i, i.mono + a.analysisEvery, n);
    var t := m.(nextAnalysis := i.mono + a.analysisEvery);
    var m' := RecordFit(a, t, i);
    if m.active {
      MaintainNewest(a, t, i, n);
    } else if MayActivate(a, m', i) {
      ActivateNewest(a, m', i, n);
    }
  }

  lemma WakeNewest(a: Args, m: State, r: Turn, n: nat)
    requires NewestCurrent(m, n)
    ensures NewestCurrent(Wake(a, m, r), n)
  {
  }

  lemma IterateNewest(a: Args, m: State, r: Turn, n: nat, now: real)
    requires a.Valid() && Inv(a, m, now) && Timely(r, now) && NewestCurrent(m, n)
    ensures NewestCurrent(Iterate(a, m, r), SinceRound(a, m, r, n))
  {
    hide Inv, Analyse, Wake, Finish, NewestCurrent, SinceAnalysis, Limited, ErrorsCurrent;
    WakeInv(a, m, r, now);
    WakeNewest(a, m, r, n);
    var m', i := Wake(a, m, r), r.analysis;
    InvLocks(a, m', r.preWall);
    AfterCheckNewest(a, m', i, n);
    AnalyseNewest(a, m', i, n);
  }

  lemma {:induction false} RunNewest(a: Args, m: State, rs: seq<Turn>, n: nat, now: real)
    requires a.Valid() && Inv(a, m, now) && TimelyRun(rs, now) && NewestCurrent(m, n)
    ensures NewestCurrent(Run(a, m, rs), Since(a, m, rs, n))
    decreases |rs|
  {
    hide Iterate, Inv, NewestCurrent, SinceRound;
    if rs != [] {
      IterateNewest(a, m, rs[0], n, now);
      IterateInv(a, m, rs[0], now);
      RunNewest(a, Iterate(a, m, rs[0]), rs[1..], SinceRound(a, m, rs[0], n), rs[0].analysis.wall);
    }
  }

  /** Over every run: the absolute errors behind the prediction guard were all measured against
      the anchor in force if and only if there are no more of them than events have been counted
      since a resynchronisation last moved the anchor. */
  lemma AbsErrorsCurrentOverRuns(a: Args, wall: real, mono: real, started: set<int>, k: Kernel, rs: seq<Turn>)
    requires a.Valid() && TimelyRun(rs, wall)
    ensures var start := Start(a, wall, mono, started, k);
            var m := Run(a, start, rs);
            m.active && m.anchor.Some? ==> (Current(m.absErrors, m.anchor.value) <==> |m.absErrors| <= Since(a, start, rs, 0))
  {
    var start := Start(a, wall, mono, started, k);
    StartInv(a, wall, mono, started, k);
    assert NewestCurrent(start, 0);
    hide Run, Since, Start, Inv;
    RunNewest(a, start, rs, 0, wall);
  }
}
