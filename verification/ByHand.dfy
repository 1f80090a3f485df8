/** Manually powered machines without the timing assumption. Their agent is the only channel, so a reboot is
    asked of it whenever it is told to be accessible, whether it still is or not. */
module ByHand {
  import opened Wire
  import opened Specs
  import opened Machine
  import opened Reconcile
  import opened System
  import opened Convergence
  import opened Timing

  /** Manually powered, and staying so. */
  predicate KeepsManual(s: Sys) {
    && s.bmc.Some? && s.bmc.value.v.manual.Some?
    && if s.user.None? then AgentDerived(s.bmc.value.v) else s.user.value.None?
  }

  /** Needed in Talos over the network. */
  predicate TalosWanted(w: World, s: Sys) requires s.omni.Some? {
    !NeedsWipe(s) && Needed(s) && Mode(w, s) == TalosPXE
  }

  predicate Told(s: Sys) { s.status.Some? && s.status.value.v.agentAccessible }

  /** An agent that has gone is told to be there while there is a reason to reboot; or can come to be told so: the
      machine runs the agent, or is coming up into it, and is to leave it for Talos, at once or when it is wiped. */
  predicate Beckons(w: World, s: Sys) requires s.omni.Some? {
    || (Told(s) && s.phys != RunsAgent && (RebootPending(s) || TalosWanted(w, s)))
    || (s.phys == RunsAgent && (TalosWanted(w, s) || (NeedsWipe(s) && Allocated(s.omni.value))))
    || (s.phys == Booting && NeedsWipe(s) && Allocated(s.omni.value))
  }

  predicate AtPeace(w: World, s: Sys) { Fixed(s) && KeepsManual(s) && !Beckons(w, s) }

  ghost predicate StaysAtPeace(w: World, s: Sys, m: Move)
    requires s.omni.Some?
  {
    AtPeace(w, m.s) && Count(m.facts, Reboots) + PendingReboots(m.s) <= PendingReboots(s)
  }

  // ------------------------------------------------------------------------- at peace

  /** What the reboot transform does with a manually powered machine: it asks an agent told to be accessible, when a
      reboot is pending or the machine is wanted in Talos. */
  lemma {:induction false} AsksTheAgent(w: World, s: Sys, e: Event) returns (r: RebootResult)
    requires Fixed(s) && KeepsManual(s) && e.RunReboot? && Truthful(w, s, e, false)
    ensures r == RebootOf(w, s, e)
    ensures if r.acts == [] then r.verdict == Saved ==> r.rb == OrElse(s.reboot, NO_REBOOT_STATUS)
            else
              && Told(s) && (RebootPending(s) || TalosWanted(w, s)) && r.acts == [AgentRebootCall(s.phys == RunsAgent)]
              && if s.phys == RunsAgent then r.verdict == Saved && r.rb.lastRebootId == s.omni.value.requestedRebootId
                 else r.verdict == Failed
  {
    r := RebootOf(w, s, e);
    AnyConfiguration(s.omni, s.bmc.value.v, NO_BMC.f, s.wipe, w.cfg.alwaysNetboot);
    WipingIsForTheAgent(w, s);
    hide RequiredBootMode, TimeSinceLastPowerOn, AgentDerived;
  }

  lemma {:induction false} PeaceReboot(w: World, s: Sys, e: Event)
    requires AtPeace(w, s) && e.RunReboot? && Truthful(w, s, e, false)
    ensures StaysAtPeace(w, s, MoveOf(w, s, e))
  {
    hide MoveOf, RebootOf, RebootTransform, Truthful, Count, RequiredBootMode, RequiresPowerOn, RequiresWipe,
         AgentDerived;
    var r := AsksTheAgent(w, s, e);
    RebootRan(w, s, e, r);
  }

  /** Nobody switches it. */
  lemma {:induction false} PeacePower(w: World, s: Sys, e: Event)
    requires AtPeace(w, s) && e.RunPower?
    ensures StaysAtPeace(w, s, MoveOf(w, s, e))
  {
    hide Count, RequiredBootMode, RequiresPowerOn, RequiresWipe, AgentDerived;
    CountNone([], Reboots);
  }

  lemma {:induction false} PeaceBoot(w: World, s: Sys)
    requires AtPeace(w, s)
    ensures StaysAtPeace(w, s, MoveOf(w, s, BootUp))
  {
    hide Count, RequiredBootMode, RequiresPowerOn, RequiresWipe, AgentDerived;
    CountNone(MoveOf(w, s, BootUp).facts, Reboots);
    if s.phys == Booting {
      BootFits(w, s);
    }
  }

  lemma {:induction false} PeaceSight(w: World, s: Sys, e: Event)
    requires AtPeace(w, s) && (e.AgentEvent? || e.Poll? || e.PXEBooted?) && Truthful(w, s, e, true)
    ensures StaysAtPeace(w, s, MoveOf(w, s, e))
  {
    hide MoveOf, Truthful, Count, RequiredBootMode, RequiresPowerOn, RequiresWipe, AgentDerived;
    SightOutcome(w, s, e);
    CountNone(MoveOf(w, s, e).facts, Reboots);
  }

  lemma {:induction false} PeaceWipe(w: World, s: Sys, e: Event)
    requires AtPeace(w, s) && e.RunWipe? && Truthful(w, s, e, true)
    ensures StaysAtPeace(w, s, MoveOf(w, s, e))
  {
    hide Count, RequiredBootMode, AgentDerived;
    CountNone(MoveOf(w, s, e).facts, Reboots);
  }

  lemma {:induction false} ManualStays(cfg: Config, im: InfraMachine, ms: Option<MachineStatusFields>,
                                       user: Option<Option<UserConfig>>,
                                       bmc: BMCConfigurationFields, calls: BMCCalls)
    requires if user.None? then AgentDerived(bmc) else user.value.None?
    ensures BMCTransform(cfg, im, ms, user, bmc, calls).verdict != Saved
  {
  }

  lemma {:induction false} PeaceBMC(w: World, s: Sys, e: Event)
    requires AtPeace(w, s) && e.RunBMC? && Truthful(w, s, e, true)
    ensures StaysAtPeace(w, s, MoveOf(w, s, e))
  {
    hide MoveOf, BMCTransform, Count, RequiredBootMode, RequiresPowerOn, RequiresWipe, AgentDerived;
    var r := BMCRan(w, s, e);
    ManualStays(w.cfg, s.omni.value, Values(s.status), s.user, s.bmc.value.v, e.bmcCalls);
  }

  lemma {:induction false} PeaceOther(w: World, s: Sys, e: Event)
    requires AtPeace(w, s)
    requires e.Tick? || e.RemoveFinalizers? || e.TearDownStatus? || e.TearDownBMC? || e.DropOutputs?
    ensures StaysAtPeace(w, s, MoveOf(w, s, e))
  {
    hide Count, RequiredBootMode, RequiresPowerOn, RequiresWipe, AgentDerived;
    CountNone([], Reboots);
  }

  lemma {:induction false} PeaceMove(w: World, s: Sys, e: Event)
    requires AtPeace(w, s) && Truthful(w, s, e, false)
    ensures StaysAtPeace(w, s, MoveOf(w, s, e))
  {
    hide MoveOf, Count, Beckons, KeepsManual;
    if e.RunReboot? { PeaceReboot(w, s, e); }
    else if e.RunPower? { PeacePower(w, s, e); }
    else if e.RunBMC? { PeaceBMC(w, s, e); }
    else if e.RunWipe? { PeaceWipe(w, s, e); }
    else if e.BootUp? { PeaceBoot(w, s); }
    else if e.AgentEvent? || e.Poll? || e.PXEBooted? { PeaceSight(w, s, e); }
    else { PeaceOther(w, s, e); }
  }

  lemma {:induction false} PeaceStep(w: World, s: Sys, e: Event)
    requires AtPeace(w, s) && Truthful(w, s, e, false)
    ensures var t := Step(w, s, e);
            AtPeace(w, t) && Count(t.log, Reboots) + PendingReboots(t) <= Count(s.log, Reboots) + PendingReboots(s)
  {
    hide MoveOf, Truthful, Count, RequiredBootMode, RequiresPowerOn, RequiresWipe, AgentDerived;
    PeaceMove(w, s, e);
    assert MoveOf(w, s, e).s.log == s.log by { Frame(w, s, e); }
    CountAppend(s.log, MoveOf(w, s, e).facts, Reboots);
  }

  lemma {:induction false} PeaceRun(w: World, s: Sys, es: seq<Event>)
    requires AtPeace(w, s) && TruthfulRun(w, s, es, false)
    ensures AtPeace(w, Run(w, s, es)) && RebootsIn(w, s, es) + PendingReboots(Run(w, s, es)) <= PendingReboots(s)
    decreases |es|
  {
    if es != [] {
      hide Count, KeepsManual, Beckons, Step, Truthful, RebootPending;
      PeaceRun(w, s, es[..|es| - 1]);
      PeaceStep(w, Run(w, s, es[..|es| - 1]), es[|es| - 1]);
    }
  }

  // ------------------------------------------------------------------------- beckoning

  /** An agent that has gone is asked to reboot the machine, fails, and is asked again. */
  predicate Calling(w: World, s: Sys) {
    && Fixed(s) && s.bmc.Some? && s.bmc.value.v.manual.Some? && Told(s) && s.phys != RunsAgent
    && (RebootPending(s) || TalosWanted(w, s))
  }

  /** A reboot reconcile past the cooldown asks the agent that is told to be there. */
  lemma {:induction false} Calls(w: World, s: Sys)
    requires Fixed(s) && s.bmc.Some? && s.bmc.value.v.manual.Some? && Told(s) && (RebootPending(s) || TalosWanted(w, s))
    requires CooledDown(w, s)
    ensures var r := RebootOf(w, s, Cycle(s));
      && r.acts == [AgentRebootCall(s.phys == RunsAgent)]
      && r.verdict == if s.phys == RunsAgent then Saved else Failed
  {
    AnyConfiguration(s.omni, s.bmc.value.v, NO_BMC.f, s.wipe, w.cfg.alwaysNetboot);
    hide RequiredBootMode, TimeSinceLastPowerOn, RequiresPowerOn;
  }

  /** One wait and one call: one more reboot, and an agent that has gone still told to be there. */
  lemma {:induction false} WaitAndCall(w: World, s: Sys)
    requires Fixed(s) && s.bmc.Some? && s.bmc.value.v.manual.Some? && Told(s) && w.cfg.minRebootInterval < TWO63
    requires TalosWanted(w, s) || (s.phys != RunsAgent && RebootPending(s))
    ensures var wait := Tick(Wait(w, s));
            var u := Step(w, s, wait);
            var t := Step(w, u, Cycle(u));
      && Truthful(w, s, wait, false) && Truthful(w, u, Cycle(u), false)
      && Calling(w, t) && Count(t.log, Reboots) == Count(s.log, Reboots) + 1
  {
    hide CooledDown, Count, RequiredBootMode, RequiresPowerOn, RequiresWipe;
    var u := Step(w, s, Tick(Wait(w, s)));
    assert u == s.(now := s.now + Wait(w, s)) by { assert s.log + [] == s.log; }
    WaitCools(w, s);
    Calls(w, u);
    CallRan(w, u);
  }

  lemma {:induction false} CallRan(w: World, s: Sys)
    requires Fixed(s) && s.bmc.Some? && s.bmc.value.v.manual.Some? && Told(s)
    requires TalosWanted(w, s) || (s.phys != RunsAgent && RebootPending(s))
    requires var r := RebootOf(w, s, Cycle(s));
      && r.acts == [AgentRebootCall(s.phys == RunsAgent)]
      && r.verdict == if s.phys == RunsAgent then Saved else Failed
    ensures var t := Step(w, s, Cycle(s)); Calling(w, t) && Count(t.log, Reboots) == Count(s.log, Reboots) + 1
  {
    hide MoveOf, RebootOf, Count, RequiredBootMode, RequiresPowerOn, RequiresWipe;
    RebootRan(w, s, Cycle(s), RebootOf(w, s, Cycle(s)));
    assert MoveOf(w, s, Cycle(s)).s.log == s.log by { Frame(w, s, Cycle(s)); }
    CountAppend(s.log, MoveOf(w, s, Cycle(s)).facts, Reboots);
  }

  lemma {:induction false} CallsForever(w: World, s: Sys, base: seq<Event>, n: nat) returns (es: seq<Event>)
    requires TruthfulRun(w, s, base, false) && Calling(w, Run(w, s, base)) && w.cfg.minRebootInterval < TWO63
    ensures TruthfulRun(w, s, es, false) && Calling(w, Run(w, s, es))
    ensures Count(Run(w, s, es).log, Reboots) == Count(Run(w, s, base).log, Reboots) + n
  {
    if n == 0 {
      es := base;
    } else {
      var before := CallsForever(w, s, base, n - 1);
      var t := Run(w, s, before);
      WaitAndCall(w, t);
      hide Run, TruthfulRun, Truthful, Step, Count, RebootPending, TalosWanted;
      es := Then(w, s, before, Tick(Wait(w, t)));
      es := Then(w, s, es, Cycle(Step(w, t, Tick(Wait(w, t)))));
    }
  }

  /** A machine in the agent that is wanted in Talos is asked to leave, and goes; the agent is still told to be
      there. */
  lemma {:induction false} CallsAway(w: World, s: Sys, base: seq<Event>) returns (es: seq<Event>)
    requires var t := Run(w, s, base);
      && Fixed(t) && t.bmc.Some? && t.bmc.value.v.manual.Some? && t.phys == RunsAgent && Told(t) && TalosWanted(w, t)
    requires TruthfulRun(w, s, base, false) && w.cfg.minRebootInterval < TWO63
    ensures TruthfulRun(w, s, es, false) && Calling(w, Run(w, s, es))
    ensures Count(Run(w, s, es).log, Reboots) == Count(Run(w, s, base).log, Reboots) + 1
  {
    var t := Run(w, s, base);
    WaitAndCall(w, t);
    hide Run, TruthfulRun, Truthful, Step, Count, TalosWanted;
    es := Then(w, s, base, Tick(Wait(w, t)));
    es := Then(w, s, es, Cycle(Step(w, t, Tick(Wait(w, t)))));
  }

  /** The agent connects. */
  lemma {:induction false} Connects(w: World, s: Sys)
    requires Fixed(s) && s.phys == RunsAgent
    ensures var t := Step(w, s, AgentEvent(true));
      && Truthful(w, s, AgentEvent(true), false) && Fixed(t) && Told(t) && t.phys == RunsAgent && t.log == s.log
      && t.omni == s.omni && t.wipe == s.wipe && t.bmc == s.bmc
  {
    assert s.log + [] == s.log;
  }

  lemma {:induction false} Wipes(w: World, s: Sys)
    requires Fixed(s) && s.phys == RunsAgent && Told(s) && NeedsWipe(s) && Allocated(s.omni.value) && s.bmc.Some?
    ensures var t := Step(w, s, RunWipe(true));
      && Truthful(w, s, RunWipe(true), false) && Fixed(t) && Told(t) && t.phys == RunsAgent && t.bmc == s.bmc
      && TalosWanted(w, t) && Count(t.log, Reboots) == Count(s.log, Reboots)
  {
    hide Count;
    var m := MoveOf(w, s, RunWipe(true));
    CountNone(m.facts, Reboots);
    CountAppend(s.log, m.facts, Reboots);
  }

  /** A machine that needs wiping comes up in the agent. */
  lemma {:induction false} ComesUp(w: World, s: Sys)
    requires Fixed(s) && s.phys == Booting && NeedsWipe(s)
    ensures var t := Step(w, s, BootUp);
      && Truthful(w, s, BootUp, false) && Fixed(t) && t.phys == RunsAgent && NeedsWipe(t) && t.omni == s.omni
      && t.bmc == s.bmc && Count(t.log, Reboots) == Count(s.log, Reboots)
  {
    hide Count;
    var m := MoveOf(w, s, BootUp);
    CountNone(m.facts, Reboots);
    CountAppend(s.log, m.facts, Reboots);
  }

  lemma {:induction false} BeckoningCalls(w: World, s: Sys) returns (base: seq<Event>, c: nat)
    requires Fixed(s) && KeepsManual(s) && Beckons(w, s) && w.cfg.minRebootInterval < TWO63
    ensures TruthfulRun(w, s, base, false) && Calling(w, Run(w, s, base))
    ensures c <= 1 && Count(Run(w, s, base).log, Reboots) == Count(s.log, Reboots) + c
  {
    hide Step, Truthful, Run, TruthfulRun, Count, Mode, Needed, NeedsWipe;
    StartsTruthful(w, s);
    base, c := [], 0;
    if !(Told(s) && s.phys != RunsAgent && (RebootPending(s) || TalosWanted(w, s))) {
      c := 1;
      var t := s;
      if t.phys == Booting {
        ComesUp(w, t);
        base := Then(w, s, base, BootUp);
        t := Step(w, t, BootUp);
      }
      Connects(w, t);
      StillWanted(w, t, Step(w, t, AgentEvent(true)));
      base := Then(w, s, base, AgentEvent(true));
      t := Step(w, t, AgentEvent(true));
      if NeedsWipe(t) {
        Wipes(w, t);
        base := Then(w, s, base, RunWipe(true));
        t := Step(w, t, RunWipe(true));
      }
      base := CallsAway(w, s, base);
    }
  }

  /** What is wanted depends on Omni's record and the wipe status. */
  lemma {:induction false} StillWanted(w: World, s: Sys, t: Sys)
    requires s.omni.Some? && t.omni == s.omni && t.wipe == s.wipe
    ensures NeedsWipe(t) == NeedsWipe(s) && TalosWanted(w, t) == TalosWanted(w, s)
  {
  }

  lemma {:induction false} BeckoningReboots(w: World, s: Sys, n: nat) returns (es: seq<Event>)
    requires Fixed(s) && KeepsManual(s) && Beckons(w, s) && w.cfg.minRebootInterval < TWO63
    ensures TruthfulRun(w, s, es, false) && RebootsIn(w, s, es) == n
  {
    hide Step, Truthful, Run, TruthfulRun, Count, Calling, Beckons, KeepsManual;
    StartsTruthful(w, s);
    var base, c := BeckoningCalls(w, s);
    if n == 0 {
      es := [];
    } else {
      es := CallsForever(w, s, base, n - c);
    }
  }

  /** Without the timing assumption, the bound on reboots, failed ones included, holds of a machine that stays
      manually powered if and only if it does not beckon, and then not more than the one reboot asked for is sent.
      One that does is called any number of times. */
  lemma {:induction false} BoundedByHandUnlessBeckoning(w: World, s: Sys)
    requires Fixed(s) && KeepsManual(s) && w.cfg.minRebootInterval < TWO63
    ensures (forall es :: TruthfulRun(w, s, es, false) ==> RebootsIn(w, s, es) <= 2) <==> !Beckons(w, s)
    ensures !Beckons(w, s) ==>
              forall es :: TruthfulRun(w, s, es, false) ==> RebootsIn(w, s, es) <= if RebootPending(s) then 1 else 0
    ensures Beckons(w, s) ==> forall n: nat :: CanReboot(w, s, n, false)
  {
    hide TruthfulRun, RebootsIn, Beckons, KeepsManual, RebootPending;
    if Beckons(w, s) {
      forall n: nat
        ensures CanReboot(w, s, n, false)
      {
        var es := BeckoningReboots(w, s, n);
      }
      var es := BeckoningReboots(w, s, 3);
    } else {
      forall es | TruthfulRun(w, s, es, false)
        ensures RebootsIn(w, s, es) <= if RebootPending(s) then 1 else 0
      {
        PeaceRun(w, s, es);
      }
    }
  }
}
