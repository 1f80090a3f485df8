/** What convergence owes to timing. When reboots may be considered before a machine was looked at, the
    bound on reboots holds from exactly those states in which no mismatch can come to be told. */
module Timing {
  import opened Wire
  import opened Specs
  import opened Machine
  import opened Reconcile
  import opened System
  import opened Convergence

  /** Where a mismatch can come to be told although nobody acts out of turn: it is told; or the machine runs
      something that, looked at, is one; or it is about to do so, by a reboot that was asked for or by a wipe. */
  predicate Exposed(w: World, s: Sys) requires s.omni.Some? {
    var accessible := s.status.Some? && s.status.value.v.agentAccessible;
    var hidden := s.status.Some? && !s.status.value.v.agentAccessible;
    if NeedsWipe(s) then Allocated(s.omni.value) || s.phys != RunsAgent || hidden || RebootPending(s)
    else if !Needed(s) then false
    else
      match Mode(w, s)
      case AgentPXE => s.phys != RunsAgent || hidden || RebootPending(s)
      case TalosPXE => s.phys == RunsAgent || accessible
      case TalosDisk => false
  }

  /** There is a BMC, and it stays: the operator's, or the agent's for good. */
  predicate KeepsBMC(s: Sys) { s.bmc.Some? && HasBMC(s.bmc.value.v) && (s.user.None? ==> AgentDerived(s.bmc.value.v)) }

  /** Not exposed; and a machine that has no BMC configuration yet is not coming up into the agent to be
      exposed there. */
  predicate Quiet(w: World, s: Sys) {
    && Fixed(s) && !Exposed(w, s)
    && (s.phys == Booting && s.bmc.None? && Needed(s) ==> Fits(w, s))
  }

  function PendingReboots(s: Sys): nat requires s.omni.Some? { if RebootPending(s) then 1 else 0 }

  /** A step that keeps a machine quiet, and pays for what it reboots. */
  ghost predicate StaysQuiet(w: World, s: Sys, m: Move)
    requires s.omni.Some?
  {
    Quiet(w, m.s) && Count(m.facts, Reboots) + PendingReboots(m.s) <= PendingReboots(s)
  }

  /** Where no mismatch is told, the reboot loop reboots for a pending request or not at all. */
  lemma {:induction false} UntimedReason(w: World, s: Sys, e: Event) returns (r: RebootResult)
    requires Quiet(w, s) && e.RunReboot? && Truthful(w, s, e, false)
    ensures r == RebootOf(w, s, e)
    ensures if r.acts == [] then r.verdict == Saved ==> r.rb == OrElse(s.reboot, NO_REBOOT_STATUS)
            else
              && s.bmc.Some? && RebootPending(s)
              && (HasBMC(s.bmc.value.v) ==>
                    && r.verdict == Saved && r.rb.lastRebootId == s.omni.value.requestedRebootId
                    && r.acts[|r.acts| - 1].RebootCall? && r.acts[|r.acts| - 1].ok)
  {
    r := RebootOf(w, s, e);
    if s.bmc.Some? {
      AnyConfiguration(s.omni, s.bmc.value.v, NO_BMC.f, s.wipe, w.cfg.alwaysNetboot);
    }
    WipingIsForTheAgent(w, s);
    hide RequiredBootMode, TimeSinceLastPowerOn;
  }

  /** With a BMC, or with nothing pending, a reboot reconcile keeps a machine quiet. */
  lemma {:induction false} QuietReboot(w: World, s: Sys, e: Event)
    requires Quiet(w, s) && e.RunReboot? && Truthful(w, s, e, false)
    requires (s.bmc.Some? && HasBMC(s.bmc.value.v)) || !RebootPending(s)
    ensures StaysQuiet(w, s, MoveOf(w, s, e))
  {
    hide MoveOf, RebootOf, RebootTransform, Truthful, Count, RequiredBootMode, RequiresPowerOn, RequiresWipe, HasBMC;
    var r := UntimedReason(w, s, e);
    RebootRan(w, s, e, r);
  }

  lemma {:induction false} QuietPower(w: World, s: Sys, e: Event)
    requires Quiet(w, s) && e.RunPower? && Truthful(w, s, e, true)
    ensures StaysQuiet(w, s, MoveOf(w, s, e))
  {
    hide MoveOf, PowerOf, Truthful, Physically, Count, RequiredBootMode;
    var r := PowerReason(w, s, e);
    PowerRan(w, s, e, r);
    CountAtMostOne(MoveOf(w, s, e).facts, Reboots);
  }

  lemma {:induction false} QuietBoot(w: World, s: Sys)
    requires Quiet(w, s)
    ensures StaysQuiet(w, s, MoveOf(w, s, BootUp))
  {
    hide Count, RequiredBootMode, RequiresPowerOn, RequiresWipe;
    CountNone(MoveOf(w, s, BootUp).facts, Reboots);
    if s.phys == Booting {
      BootFits(w, s);
    }
  }

  lemma {:induction false} QuietSight(w: World, s: Sys, e: Event)
    requires Quiet(w, s) && (e.AgentEvent? || e.Poll? || e.PXEBooted?) && Truthful(w, s, e, true)
    ensures StaysQuiet(w, s, MoveOf(w, s, e))
  {
    hide MoveOf, Truthful, Count, RequiredBootMode, RequiresPowerOn, RequiresWipe;
    SightOutcome(w, s, e);
    CountNone(MoveOf(w, s, e).facts, Reboots);
  }

  lemma {:induction false} QuietWipe(w: World, s: Sys, e: Event)
    requires Quiet(w, s) && e.RunWipe? && Truthful(w, s, e, true)
    ensures StaysQuiet(w, s, MoveOf(w, s, e))
  {
    hide Count, RequiredBootMode;
    CountNone(MoveOf(w, s, e).facts, Reboots);
  }

  lemma {:induction false} QuietBMC(w: World, s: Sys, e: Event)
    requires Quiet(w, s) && e.RunBMC? && Truthful(w, s, e, true)
    ensures StaysQuiet(w, s, MoveOf(w, s, e))
  {
    hide MoveOf, BMCTransform, Count, RequiredBootMode, RequiresPowerOn, RequiresWipe;
    var r := BMCRan(w, s, e);
  }

  lemma {:induction false} QuietOther(w: World, s: Sys, e: Event)
    requires Quiet(w, s)
    requires e.Tick? || e.RemoveFinalizers? || e.TearDownStatus? || e.TearDownBMC? || e.DropOutputs?
    ensures StaysQuiet(w, s, MoveOf(w, s, e))
  {
    hide Count, RequiredBootMode, RequiresPowerOn, RequiresWipe;
    CountNone([], Reboots);
  }

  lemma {:induction false} QuietMove(w: World, s: Sys, e: Event)
    requires Quiet(w, s) && Truthful(w, s, e, false)
    requires (s.bmc.Some? && HasBMC(s.bmc.value.v)) || !RebootPending(s)
    ensures StaysQuiet(w, s, MoveOf(w, s, e))
  {
    hide MoveOf, Count, Exposed, Fits;
    if e.RunReboot? { QuietReboot(w, s, e); }
    else if e.RunPower? { QuietPower(w, s, e); }
    else if e.RunBMC? { QuietBMC(w, s, e); }
    else if e.RunWipe? { QuietWipe(w, s, e); }
    else if e.BootUp? { QuietBoot(w, s); }
    else if e.AgentEvent? || e.Poll? || e.PXEBooted? { QuietSight(w, s, e); }
    else { QuietOther(w, s, e); }
  }

  lemma {:induction false} QuietStep(w: World, s: Sys, e: Event)
    requires Quiet(w, s) && Truthful(w, s, e, false)
    requires (s.bmc.Some? && HasBMC(s.bmc.value.v)) || !RebootPending(s)
    ensures var t := Step(w, s, e);
      && Quiet(w, t) && PendingReboots(t) <= PendingReboots(s)
      && Count(t.log, Reboots) + PendingReboots(t) <= Count(s.log, Reboots) + PendingReboots(s)
  {
    hide MoveOf, Truthful, Count, RequiredBootMode, RequiresPowerOn, RequiresWipe, HasBMC;
    QuietMove(w, s, e);
    assert MoveOf(w, s, e).s.log == s.log by { Frame(w, s, e); }
    CountAppend(s.log, MoveOf(w, s, e).facts, Reboots);
  }

  /** A BMC that stays is there after every BMC configuration reconcile. */
  lemma {:induction false} BMCStays(cfg: Config, im: InfraMachine, ms: Option<MachineStatusFields>,
                                    user: Option<Option<UserConfig>>,
                                    bmc: BMCConfigurationFields, calls: BMCCalls)
    requires HasBMC(bmc) && (user.None? ==> AgentDerived(bmc))
    ensures var r := BMCTransform(cfg, im, ms, user, bmc, calls);
            r.verdict == Saved ==> HasBMC(r.bmc) && (user.None? ==> AgentDerived(r.bmc))
  {
  }

  lemma {:induction false} KeepsBMCStep(w: World, s: Sys, e: Event)
    requires Fixed(s) && KeepsBMC(s) && Truthful(w, s, e, false)
    ensures KeepsBMC(Step(w, s, e))
  {
    hide BMCTransform, HasBMC, AgentDerived;
    if e.RunBMC? {
      BMCStays(w.cfg, s.omni.value, Values(s.status), s.user, s.bmc.value.v, e.bmcCalls);
    } else if !e.TearDownBMC? {
      hide MoveOf;
      Frame(w, s, e);
    }
  }

  lemma {:induction false} QuietRun(w: World, s: Sys, es: seq<Event>)
    requires Quiet(w, s) && TruthfulRun(w, s, es, false) && (KeepsBMC(s) || !RebootPending(s))
    ensures Quiet(w, Run(w, s, es)) && RebootsIn(w, s, es) + PendingReboots(Run(w, s, es)) <= PendingReboots(s)
    ensures PendingReboots(Run(w, s, es)) <= PendingReboots(s)
    ensures KeepsBMC(s) ==> KeepsBMC(Run(w, s, es))
    decreases |es|
  {
    if es != [] {
      hide Count, Exposed, Fits, Step, Truthful, RebootPending, HasBMC, AgentDerived;
      var t := Run(w, s, es[..|es| - 1]);
      QuietRun(w, s, es[..|es| - 1]);
      QuietStep(w, t, es[|es| - 1]);
      if KeepsBMC(s) {
        KeepsBMCStep(w, t, es[|es| - 1]);
      }
    }
  }

  /** Whatever its BMC configuration is or becomes, a quiet machine with no reboot pending is not rebooted. */
  lemma {:induction false} QuietIsNotRebooted(w: World, s: Sys, es: seq<Event>)
    requires Quiet(w, s) && !RebootPending(s) && TruthfulRun(w, s, es, false)
    ensures RebootsIn(w, s, es) == 0 && Quiet(w, Run(w, s, es)) && !RebootPending(Run(w, s, es))
  {
    QuietRun(w, s, es);
    LogGrows(w, s, es);
  }

  lemma {:induction false} LogGrows(w: World, s: Sys, es: seq<Event>)
    ensures RebootsIn(w, s, es) >= 0
    decreases |es|
  {
    if es != [] {
      hide MoveOf, Count;
      var t, e := Run(w, s, es[..|es| - 1]), es[|es| - 1];
      LogGrows(w, s, es[..|es| - 1]);
      assert MoveOf(w, t, e).s.log == t.log by { Frame(w, t, e); }
      CountAppend(t.log, MoveOf(w, t, e).facts, Reboots);
    }
  }

  // ------------------------------------------------------------------------- exposed

  /** A step of no count. */
  lemma {:induction false} Then(w: World, s: Sys, base: seq<Event>, e: Event) returns (longer: seq<Event>)
    requires TruthfulRun(w, s, base, false) && Truthful(w, Run(w, s, base), e, false)
    ensures TruthfulRun(w, s, longer, false) && Run(w, s, longer) == Step(w, Run(w, s, base), e)
  {
    longer := base + [e];
    RunLast(w, s, base, e, false);
  }

  /** Told something that is a mismatch, the reboot loop loops. */
  lemma {:induction false} LookExposes(w: World, s: Sys, connected: bool)
    requires Fixed(s) && s.bmc.Some? && HasBMC(s.bmc.value.v) && Needed(s) && ModeMismatch(Mode(w, s), connected)
    ensures var t := Step(w, s, AgentEvent(connected)); Looping(w, t) && t.log == s.log
  {
    hide RequiredBootMode, RequiresPowerOn, HasBMC;
    assert s.log + [] == s.log;
  }

  /** An accessible machine of Omni's, wiped, is to leave the agent. */
  lemma {:induction false} WipeExposes(w: World, s: Sys) returns (t: Sys, base: seq<Event>)
    requires Fixed(s) && s.bmc.Some? && HasBMC(s.bmc.value.v) && NeedsWipe(s) && Allocated(s.omni.value) &&
             s.phys == RunsAgent
    ensures TruthfulRun(w, s, base, false) && t == Run(w, s, base) && Looping(w, t) &&
            Count(t.log, Reboots) == Count(s.log, Reboots)
  {
    var look, wipe := AgentEvent(true), RunWipe(true);
    assert Run(w, s, []) == s && TruthfulRun(w, s, [], false);
    base := Then(w, s, [], look);
    var seen := Step(w, s, look);
    assert s.log + [] == s.log;
    WipeTakes(w, seen);
    base := Then(w, s, base, wipe);
    t := Step(w, seen, wipe);
  }

  lemma {:induction false} WipeTakes(w: World, s: Sys)
    requires Fixed(s) && s.bmc.Some? && HasBMC(s.bmc.value.v) && NeedsWipe(s) && Allocated(s.omni.value) &&
             s.phys == RunsAgent
    requires s.status.Some? && s.status.value.v.agentAccessible
    ensures var t := Step(w, s, RunWipe(true)); Looping(w, t) && Count(t.log, Reboots) == Count(s.log, Reboots)
  {
    hide HasBMC, Count;
    var m := MoveOf(w, s, RunWipe(true));
    CountNone(m.facts, Reboots);
    CountAppend(s.log, m.facts, Reboots);
  }

  /** A reboot that was asked for leaves a machine coming up; looked at, it does not answer. */
  lemma {:induction false} RebootExposes(w: World, s: Sys) returns (t: Sys, base: seq<Event>)
    requires Fixed(s) && s.bmc.Some? && HasBMC(s.bmc.value.v) && Needed(s) && Mode(w, s) == AgentPXE &&
             RebootPending(s) && s.phys == RunsAgent
    requires w.cfg.minRebootInterval < TWO63
    ensures TruthfulRun(w, s, base, false) && t == Run(w, s, base) && Looping(w, t) &&
            Count(t.log, Reboots) == Count(s.log, Reboots) + 1
  {
    hide Step, Truthful, Run, TruthfulRun, Count, Looping, RebootPending, Mode;
    assert Run(w, s, []) == s && TruthfulRun(w, s, [], false) by { StartsTruthful(w, s); }
    var look := AgentEvent(true);
    var s1 := LookedAt(w, s);
    base := Then(w, s, [], look);
    var wait := Tick(Wait(w, s1));
    var s2 := Waited(w, s1);
    base := Then(w, s, base, wait);
    var s3 := Rebooted(w, s2);
    base := Then(w, s, base, Cycle(s2));
    LookTrue(w, s3);
    LookExposes(w, s3, false);
    base := Then(w, s, base, AgentEvent(false));
    t := Step(w, s3, AgentEvent(false));
  }

  lemma {:induction false} StartsTruthful(w: World, s: Sys)
    ensures Run(w, s, []) == s && TruthfulRun(w, s, [], false)
  {
  }

  /** A machine that is needed in the agent, and has a BMC and a reboot pending. */
  predicate Due(w: World, s: Sys) {
    Fixed(s) && s.bmc.Some? && HasBMC(s.bmc.value.v) && Needed(s) && Mode(w, s) == AgentPXE && RebootPending(s) &&
      s.phys == RunsAgent
  }

  lemma {:induction false} LookedAt(w: World, s: Sys) returns (t: Sys)
    requires Due(w, s)
    ensures t == Step(w, s, AgentEvent(true)) && Due(w, t) && t.status.Some? && t.log == s.log &&
            Truthful(w, s, AgentEvent(true), false)
  {
    hide RequiredBootMode, RequiresPowerOn, HasBMC;
    t := Step(w, s, AgentEvent(true));
    assert s.log + [] == s.log;
  }

  lemma {:induction false} Waited(w: World, s: Sys) returns (t: Sys)
    requires Due(w, s) && s.status.Some? && w.cfg.minRebootInterval < TWO63
    ensures var wait := Tick(Wait(w, s));
            && t == Step(w, s, wait) && Due(w, t) && t.status.Some? && CooledDown(w, t) && t.log == s.log
            && Truthful(w, s, wait, false)
  {
    hide CooledDown, RequiredBootMode, RequiresPowerOn, HasBMC;
    t := Step(w, s, Tick(Wait(w, s)));
    assert s.log + [] == s.log;
    assert t == s.(now := s.now + Wait(w, s));
    WaitCools(w, s);
  }

  lemma {:induction false} Rebooted(w: World, s: Sys) returns (t: Sys)
    requires Due(w, s) && s.status.Some? && CooledDown(w, s)
    ensures t == Step(w, s, Cycle(s)) && Truthful(w, s, Cycle(s), false)
    ensures Fixed(t) && t.bmc.Some? && HasBMC(t.bmc.value.v) && Needed(t) && Mode(w, t) == AgentPXE && t.phys == Booting
    ensures Count(t.log, Reboots) == Count(s.log, Reboots) + 1
  {
    var e := Cycle(s);
    t := Step(w, s, e);
    DueReboots(w, s);
    hide MoveOf, RebootOf, RequiredBootMode, RequiresPowerOn, HasBMC, Count;
    RebootRan(w, s, e, RebootOf(w, s, e));
    assert MoveOf(w, s, e).s.log == s.log by { Frame(w, s, e); }
    CountAppend(s.log, MoveOf(w, s, e).facts, Reboots);
  }

  lemma {:induction false} LookTrue(w: World, s: Sys)
    requires s.phys == Booting
    ensures Truthful(w, s, AgentEvent(false), false)
  {
  }

  lemma {:induction false} DueReboots(w: World, s: Sys)
    requires Due(w, s) && s.status.Some? && CooledDown(w, s)
    ensures var r := RebootOf(w, s, Cycle(s));
      && |r.acts| > 0 && r.acts[|r.acts| - 1].RebootCall? && r.verdict == Saved
      && Physically(w, s, r.acts).phys == Booting
  {
    hide RequiredBootMode, TimeSinceLastPowerOn, RequiresPowerOn;
  }

  /** From an exposed state to one from which the reboot loop loops, after at most one reboot. */
  lemma {:induction false} ExposedLoops(w: World, s: Sys) returns (base: seq<Event>, c: nat)
    requires Fixed(s) && KeepsBMC(s) && Exposed(w, s) && w.cfg.minRebootInterval < TWO63
    ensures TruthfulRun(w, s, base, false) && Looping(w, Run(w, s, base))
    ensures c <= 1 && Count(Run(w, s, base).log, Reboots) == Count(s.log, Reboots) + c
  {
    hide HasBMC, Step, Truthful, Run, TruthfulRun, Count, Mode;
    StartsTruthful(w, s);
    WipingIsForTheAgent(w, s);
    c := 0;
    if s.status.Some? && ModeMismatch(Mode(w, s), s.status.value.v.agentAccessible) {
      base := [];
    } else if ModeMismatch(Mode(w, s), s.phys == RunsAgent) {
      LookIsTruthful(w, s);
      LookExposes(w, s, s.phys == RunsAgent);
      base := Then(w, s, [], AgentEvent(s.phys == RunsAgent));
    } else if RebootPending(s) {
      var t;
      t, base := RebootExposes(w, s);
      c := 1;
    } else {
      var t;
      t, base := WipeExposes(w, s);
    }
  }

  lemma {:induction false} LookIsTruthful(w: World, s: Sys)
    ensures Truthful(w, s, AgentEvent(s.phys == RunsAgent), false)
  {
  }

  lemma {:induction false} ExposedReboots(w: World, s: Sys, n: nat) returns (es: seq<Event>)
    requires Fixed(s) && KeepsBMC(s) && Exposed(w, s) && w.cfg.minRebootInterval < TWO63
    ensures TruthfulRun(w, s, es, false) && RebootsIn(w, s, es) == n
  {
    hide Step, Truthful, Run, TruthfulRun, Count, Looping, Exposed, KeepsBMC;
    StartsTruthful(w, s);
    var base, c := ExposedLoops(w, s);
    if n == 0 {
      es := [];
    } else {
      es := RebootForever(w, s, base, n - c, false);
    }
  }

  /** The timing assumption, exactly: without it, the bound on reboots still holds of a machine with a BMC if and
      only if the machine is not exposed, and then not more than the one reboot asked for is sent. From an
      exposed one, runs of truthful answers reboot any number of times. */
  lemma {:induction false} BoundedUntimedUnlessExposed(w: World, s: Sys)
    requires Fixed(s) && KeepsBMC(s) && w.cfg.minRebootInterval < TWO63
    ensures (forall es :: TruthfulRun(w, s, es, false) ==> RebootsIn(w, s, es) <= 2) <==> !Exposed(w, s)
    ensures !Exposed(w, s) ==>
              forall es :: TruthfulRun(w, s, es, false) ==> RebootsIn(w, s, es) <= if RebootPending(s) then 1 else 0
    ensures Exposed(w, s) ==> forall n: nat :: CanReboot(w, s, n, false)
  {
    hide TruthfulRun, RebootsIn, Exposed, HasBMC, AgentDerived, RebootPending, Fits;
    if Exposed(w, s) {
      forall n: nat
        ensures CanReboot(w, s, n, false)
      {
        var es := ExposedReboots(w, s, n);
      }
      var es := ExposedReboots(w, s, 3);
    } else {
      forall es | TruthfulRun(w, s, es, false)
        ensures RebootsIn(w, s, es) <= if RebootPending(s) then 1 else 0
      {
        QuietRun(w, s, es);
      }
    }
  }

  /** And in any case: from a mismatch that has been told and is not looked at again, true or stale, runs of
      truthful answers reboot any number of times. */
  lemma {:induction false} TimingMatters(w: World, s: Sys, n: nat)
    requires Looping(w, s) && w.cfg.minRebootInterval < TWO63
    ensures CanReboot(w, s, n, false)
  {
    hide Step, Truthful, Count, Looping;
    StartsTruthful(w, s);
    var es := RebootForever(w, s, [], n, false);
  }
}
