/** The controller of bin/redhat_monitor/redhat_auto_monitor.py as its `main` keeps it:
    variables that nested functions and the loop body update in place. */
module MonitorLoop {
  import opened Statistics
  import opened PhaseLock
  import opened Containers
  import M = Monitor

  class Controller {
    const args: M.Args
    /** The nonlocal variables. */
    var s: M.State
    var sessionValidEvents: nat

    /** The counter counts the session's events, and a locked period is positive. */
    ghost predicate Valid()
      reads this
    {
      sessionValidEvents == |s.session| && (s.period.Some? ==> s.period.value > 0.0)
    }

    constructor (args: M.Args, wall: real, mono: real, started: set<int>, k: M.Kernel)
      ensures Valid() && this.args == args && s == M.Start(args, wall, mono, started, k)
      ensures M.Inv(args, s, wall)
    {
      this.args := args;
      s := M.Start(args, wall, mono, started, k);
      sessionValidEvents := 0;
      new;
      M.StartInv(args, wall, mono, started, k);
    }

    /** `program_redhat`, one sysctl at a time. */
    method ProgramRedhat(period: real, anchor: real)
      modifies this`s
      ensures s == old(s).(kernel := M.Programmed(old(s).kernel, period, anchor),
                           programmed := Some((M.PeriodMs(period), M.OffsetMs(period, anchor))))
    {
      var periodMs := M.PeriodMs(period);
      var anchorMs := Statistics.Round(anchor * 1000.0);
      var offsetMs := anchorMs % periodMs;
      SetKernel(s.kernel.(periodMs := periodMs));
      SetKernel(s.kernel.(offsetMs := offsetMs));
      SetKernel(s.kernel.(enable := 1));
      SetKernel(s.kernel.(dynamicEnable := 1));
      s := s.(programmed := Some((periodMs, offsetMs)));
    }

    /** `sysctl_write`. */
    method SetKernel(k: M.Kernel)
      modifies this`s
      ensures s == old(s).(kernel := k)
    {
      s := s.(kernel := k);
    }

    method EnterLearning(wall: real, mono: real, started: set<int>)
      modifies this
      ensures Valid() && s == M.EnterLearning(args, old(s), wall, mono, started)
    {
      var previousPeriod := s.period;
      SetKernel(s.kernel.(enable := 0));
      SetKernel(s.kernel.(dynamicEnable := 0));
      s := s.(active := false, mode := M.Learning, period := None, anchor := None, lastValid := None);
      s := s.(programmed := None, lastResync := None, mismatch := 0);
      s := s.(errors := [], absErrors := [], goodFits := [], targets := args.allTargets);
      s := s.(deadline := None, session := [], nextValidation := None);
      sessionValidEvents := 0;
      s := s.(learningStarted := wall);
      if previousPeriod.Some? { s := s.(lastDisable := Some(wall), lastDisabledPeriod := previousPeriod); }
      s := s.(procs := started, nextAnalysis := mono + args.analysisEvery);
    }

    method EnterSleep(mono: real)
      requires Valid()
      modifies this
      ensures Valid() && s == M.EnterSleep(args, old(s), mono)
    {
      s := s.(procs := {});
      s := s.(mode := M.Sleep);
      s := s.(deadline := None, session := []);
      sessionValidEvents := 0;
      s := s.(nextValidation := Some(mono + args.validationMinutes * 60.0));
    }

    method StartValidation(wall: real, mono: real, started: set<int>, fallback: set<int>)
      requires Valid()
      modifies this
      ensures Valid() && s == M.StartValidation(args, old(s), wall, mono, started, fallback)
    {
      if s.period.None? {
        EnterLearning(wall, mono, fallback);
        return;
      }
      s := s.(procs := started);
      if |s.procs| < args.minTargets {
        EnterLearning(wall, mono, fallback);
        return;
      }
      hide M.After;
      s := s.(mode := M.Validate);
      s := s.(deadline := Some(M.After(mono, args.validationCycles, s.period.value)), session := []);
      sessionValidEvents := 0;
      s := s.(errors := [], absErrors := []);
      s := s.(nextAnalysis := mono + if args.analysisEvery < 1.0 then args.analysisEvery else 1.0);
    }

    /** The end of a confirmation or validation. */
    method Finish(wall: real, mono: real, restarted: set<int>)
      requires Valid()
      modifies this
      ensures Valid() && s == M.Finish(args, old(s), wall, mono, restarted)
    {
      var needed := if s.mode.Confirm? then args.confirmMin else args.validationMin;
      if sessionValidEvents >= needed { EnterSleep(mono); } else { EnterLearning(wall, mono, restarted); }
    }

    /** The activation attempt of an analysis with enough good fits. */
    method TryActivate(i: M.Analysis)
      requires Valid() && s.goodFits != [] && forall j :: 0 <= j < |s.goodFits| ==> s.goodFits[j].period > 0.0
      modifies this
      ensures Valid() && s == M.TryActivate(args, old(s), i)
    {
      M.MedianPositive(s.goodFits);
      hide Median, ChooseAnchor, Newest;
      var candidate := Median(M.Periods(s.goodFits));
      var latticeAnchor := FindAnchor(i.times, candidate, args.tolerance);
      if latticeAnchor.None? { return; }
      var anchor := Newest(i.times, latticeAnchor.value, candidate, args.tolerance);
      if anchor.None? { return; }
      Lock(i, candidate, anchor.value);
    }

    /** Takes the period and the anchor over and starts the confirmation. */
    method Lock(i: M.Analysis, candidate: real, anchor: real)
      requires Valid() && candidate > 0.0
      modifies this
      ensures Valid() && s == M.Activate(args, old(s), i, candidate, anchor)
    {
      hide M.PeriodMs, M.OffsetMs, M.Programmed, M.After;
      s := s.(active := true, mode := M.Confirm, period := Some(candidate), anchor := Some(anchor));
      s := s.(lastValid := Some(anchor), lastResync := Some(i.wall), mismatch := 0);
      s := s.(errors := [], absErrors := []);
      s := s.(targets := if |i.selected| >= args.minTargets then i.selected else args.allTargets);
      ProgramRedhat(candidate, anchor);
      s := s.(timings := s.timings + [M.Timing(i.wall, candidate, true)]);
      s := s.(deadline := Some(M.After(i.mono, args.confirmCycles, candidate)), session := [], nextValidation := None);
      sessionValidEvents := 0;
    }

    /** The list comprehension over the common events. */
    method ValidEvents(times: seq<real>) returns (valid: seq<real>)
      requires s.period.Some? && s.anchor.Some?
      ensures valid == M.Fresh(args, s, times, |times|)
    {
      valid := [];
      for n := 0 to |times|
        invariant valid == M.Fresh(args, s, times, n)
      {
        if OnLattice(times[n], s.anchor.value, s.period.value, args.tolerance)
           && (s.lastValid.None? || times[n] > s.lastValid.value + 0.000001) {
          valid := valid + [times[n]];
        }
      }
    }

    method CountEvent(event: real)
      requires Valid() && s.period.Some? && s.anchor.Some?
      modifies this
      ensures Valid() && s == M.Count(args, old(s), event)
      ensures s.period == old(s).period && s.anchor == old(s).anchor
    {
      hide SignedError;
      var x := M.Measured(event, s.anchor.value, SignedError(event, s.anchor.value, s.period.value));
      s := s.(errors := M.Push(s.errors, x, args.consensusWindow));
      s := s.(absErrors := M.Push(s.absErrors, x, args.guardWindow));
      s := s.(lastValid := Some(event), session := s.session + [x]);
      sessionValidEvents := sessionValidEvents + 1;
    }

    /** The consensus over the retained phase errors. */
    method ConsensusOver() returns (consensus: real, crossed: bool)
      ensures consensus == M.Consensus(s) && crossed == M.ConsensusCrossed(args, s)
    {
      consensus, crossed := 0.0, false;
      if s.errors != [] {
        consensus := Median(M.Errors(s.errors));
        if |s.errors| >= args.consensusMin {
          var sameSign := CountSign(M.Errors(s.errors), consensus);
          var signRatio := sameSign as real / |s.errors| as real;
          crossed := Abs(consensus) * 1000.0 >= args.resyncThresholdMs && signRatio >= args.signRatio;
        }
      }
    }

    method CountSign(xs: seq<real>, sign: real) returns (n: nat)
      ensures n == M.SameSign(xs, |xs|, sign)
    {
      n := 0;
      for i := 0 to |xs|
        invariant n == M.SameSign(xs, i, sign)
      {
        if (sign > 0.0 && xs[i] > 0.0) || (sign < 0.0 && xs[i] < 0.0) { n := n + 1; }
      }
    }

    /** `program_redhat_phase_only` and its bookkeeping. */
    method ApplyCorrection(wall: real, corrected: real)
      requires Valid() && s.period.Some? && s.anchor.Some?
      requires M.ConsensusCrossed(args, s) && M.ResyncDue(args, s, wall) && corrected == M.Corrected(args, s)
      modifies this
      ensures Valid() && s == M.Resync(args, old(s), wall)
    {
      hide M.ConsensusCrossed, M.ResyncDue, M.Corrected, M.OffsetMs;
      var offset := M.OffsetMs(s.period.value, corrected);
      SetKernel(s.kernel.(offsetMs := offset));
      if s.programmed.Some? { s := s.(programmed := Some((s.programmed.value.0, offset))); }
      s := s.(anchor := Some(corrected), lastResync := Some(wall), errors := []);
      s := s.(timings := s.timings + [M.Timing(wall, s.period.value, false)]);
    }

    method PhaseCheck(i: M.Analysis)
      requires Valid() && s.period.Some? && s.anchor.Some?
      modifies this
      ensures Valid() && s == M.PhaseCheck(args, old(s), i)
    {
      hide M.Resync, M.Count, M.Fresh, Max;
      var valid := ValidEvents(i.times);
      if valid == [] { return; }
      CountEvent(Max(valid));
      ResyncIfDue(i.wall);
    }

    method ResyncIfDue(wall: real)
      requires Valid() && s.period.Some? && s.anchor.Some?
      modifies this
      ensures Valid() && s == M.Resync(args, old(s), wall)
    {
      hide M.ConsensusCrossed, M.Consensus, M.OffsetMs;
      var consensus, crossed := ConsensusOver();
      var due := s.lastResync.None? || wall - s.lastResync.value >= args.resyncMinCycles * s.period.value;
      if crossed && due {
        var alpha := if args.resyncAlpha < 0.0 then 0.0 else if args.resyncAlpha > 1.0 then 1.0 else args.resyncAlpha;
        ApplyCorrection(wall, s.anchor.value + consensus * alpha);
      }
    }

    /** The active part of an analysis. */
    method Maintain(i: M.Analysis)
      requires Valid() && s.active && s.period.Some? && s.anchor.Some?
      modifies this
      ensures Valid() && s == M.Maintain(args, old(s), i)
    {
      hide M.PhaseCheck;
      if M.StructureGood(args, i) {
        if Abs(i.fit.value.period - s.period.value) * 1000.0 >= args.relearnThresholdMs {
          s := s.(mismatch := s.mismatch + 1);
        } else {
          s := s.(mismatch := 0);
        }
      }
      if s.mismatch >= args.relearnCount {
        EnterLearning(i.wall, i.mono, i.restarted);
        return;
      }
      PhaseCheck(i);
      if s.active && (s.mode.Confirm? || s.mode.Validate?) && s.deadline.Some? && i.mono >= s.deadline.value {
        Finish(i.wall, i.mono, i.restarted);
        return;
      }
      var running := CountRunning();
      if running < args.minTargets { EnterLearning(i.wall, i.mono, i.restarted); }
    }

    method CountRunning() returns (n: nat)
      ensures n == M.Running(s.targets, |s.targets|, s.procs)
    {
      n := 0;
      for j := 0 to |s.targets|
        invariant n == M.Running(s.targets, j, s.procs)
      {
        if s.targets[j] in s.procs { n := n + 1; }
      }
    }

    method RecordFit(i: M.Analysis)
      modifies this`s
      ensures s == M.RecordFit(args, old(s), i)
    {
      if !s.active && M.LearningFitGood(args, i) {
        s := s.(goodFits := M.Push(s.goodFits, M.GoodFit(i.fit.value.period, i.wall), args.lockWindow));
      }
    }

    method Analyse(i: M.Analysis, ghost now: real)
      requires Valid() && args.Valid() && i.Valid() && M.Inv(args, s, now) && now <= i.wall && !s.mode.Sleep?
      modifies this
      ensures Valid() && s == M.Analyse(args, old(s), i)
    {
      hide M.Maintain, M.TryActivate;
      ghost var t := old(s).(nextAnalysis := i.mono + args.analysisEvery);
      M.ScheduleInv(args, old(s), t.nextAnalysis, now);
      M.RecordFitInv(args, t, i, now);
      s := s.(nextAnalysis := i.mono + args.analysisEvery);
      RecordFit(i);
      var learnedLongEnough := i.wall - s.learningStarted >= args.learnSeconds;
      var reactivationAllowed := true;
      if s.lastDisable.Some? && s.lastDisabledPeriod.Some? && args.cooldownCycles > 0.0 {
        reactivationAllowed := i.wall - s.lastDisable.value >= args.cooldownCycles * s.lastDisabledPeriod.value;
      }
      var goodFit := !s.active && M.LearningFitGood(args, i) && learnedLongEnough && reactivationAllowed
                     && |s.goodFits| >= args.lockMinFits;
      if goodFit {
        TryActivate(i);
      } else if s.active && s.period.Some? && s.anchor.Some? {
        Maintain(i);
      }
    }

    /** One round of the main loop keeps the invariant of the controller. */
    method Iterate(r: M.Turn, ghost now: real)
      requires Valid() && args.Valid() && M.Timely(r, now) && M.Inv(args, s, now)
      modifies this
      ensures Valid() && s == M.Iterate(args, old(s), r) && M.Inv(args, s, r.analysis.wall)
    {
      hide M.Analyse, M.Finish, M.StartValidation;
      M.WakeInv(args, s, r, now);
      M.IterateInv(args, s, r, now);
      var i := r.analysis;
      if s.active && s.mode.Sleep? && s.nextValidation.Some? && r.preMono >= s.nextValidation.value {
        StartValidation(r.preWall, r.preMono, r.started, r.fallback);
      }
      s := s.(procs := s.procs - r.died);
      assert s == M.Wake(args, old(s), r);
      if s.active && s.mode.Sleep? { return; }
      if i.mono < s.nextAnalysis {
        if s.active && (s.mode.Confirm? || s.mode.Validate?) && s.deadline.Some? && i.mono >= s.deadline.value {
          Finish(i.wall, i.mono, i.restarted);
        }
        return;
      }
      Analyse(i, r.preWall);
    }
  }
}
