/** Convergence from the other side: every machine with a BMC that converges can be brought where Omni wants it,
    and the bounds on its reboots and power switches are met by runs that do no more than that. */
module Reaching {
  import opened Wire
  import opened Specs
  import opened Machine
  import opened Reconcile
  import opened System
  import opened Convergence

  /** Looked at, past its cooldown, and reachable over its BMC. */
  predicate Ready(w: World, s: Sys) { Inv(w, s) && s.seen && CooledDown(w, s) && Equipped(s) }

  predicate Equipped(s: Sys) { s.bmc.Some? && HasBMC(s.bmc.value.v) }

  /** What neither time, looks nor boots change. */
  predicate Unmoved(s: Sys, t: Sys) {
    && t.omni == s.omni && t.user == s.user && t.bmc == s.bmc && t.wipe == s.wipe
    && t.reboot == s.reboot && t.power == s.power
    && Count(t.log, Reboots) == Count(s.log, Reboots) && Count(t.log, Switches) == Count(s.log, Switches)
  }

  /** The machine is up and running what it should. */
  predicate Up(w: World, s: Sys) {
    s.phys != Off && s.phys != Booting && !ModeMismatch(Mode(w, s), s.phys == RunsAgent)
  }

  // ------------------------------------------------------------------------- one event

  /** The run goes on by one event. */
  lemma {:induction false} Next(w: World, s: Sys, base: seq<Event>, e: Event) returns (es: seq<Event>, t: Sys)
    requires TruthfulRun(w, s, base, true) && Truthful(w, Run(w, s, base), e, true)
    ensures TruthfulRun(w, s, es, true) && t == Run(w, s, es) == Step(w, Run(w, s, base), e)
  {
    es := base + [e];
    t := Run(w, s, es);
    RunLast(w, s, base, e, true);
  }

  lemma {:induction false} Starts(w: World, s: Sys)
    ensures Run(w, s, []) == s && TruthfulRun(w, s, [], true)
  {
  }

  /** A step that leaves no fact of a reboot or a switch changes neither count. */
  lemma {:induction false} CountsStay(w: World, s: Sys, e: Event)
    requires forall f <- MoveOf(w, s, e).facts :: !Reboots(f) && !Switches(f)
    ensures var t := Step(w, s, e);
            Count(t.log, Reboots) == Count(s.log, Reboots) && Count(t.log, Switches) == Count(s.log, Switches)
  {
    hide MoveOf, Count;
    var facts := MoveOf(w, s, e).facts;
    assert MoveOf(w, s, e).s.log == s.log by { Frame(w, s, e); }
    CountNone(facts, Reboots);
    CountNone(facts, Switches);
    CountAppend(s.log, facts, Reboots);
    CountAppend(s.log, facts, Switches);
  }

  lemma {:induction false} Boots(w: World, s: Sys)
    requires Inv(w, s) && Equipped(s) && s.phys == Booting
    ensures var t := Step(w, s, BootUp); Unmoved(s, t) && Up(w, t) && Inv(w, t) && Truthful(w, s, BootUp, true)
  {
    hide Count, RequiredBootMode, HasBMC, Unwakeable;
    CountsStay(w, s, BootUp);
    BootFits(w, s);
    InvStep(w, s, BootUp);
  }

  lemma {:induction false} InvStep(w: World, s: Sys, e: Event)
    requires Inv(w, s) && Truthful(w, s, e, true)
    ensures Inv(w, Step(w, s, e))
  {
    hide MoveOf, Truthful, Count, Unwakeable;
    SpendLogged(w, s, e);
  }

  lemma {:induction false} Looks(w: World, s: Sys)
    requires Inv(w, s) && Equipped(s) && s.phys != Booting
    ensures var look := AgentEvent(s.phys == RunsAgent);
            var t := Step(w, s, look);
      && Truthful(w, s, look, true) && Unmoved(s, t) && Inv(w, t) && t.seen && t.phys == s.phys && t.now == s.now
  {
    hide Count, HasBMC, Unwakeable;
    var look := AgentEvent(s.phys == RunsAgent);
    InvStep(w, s, look);
    assert s.log + [] == s.log;
  }

  lemma {:induction false} Waits(w: World, s: Sys)
    requires Inv(w, s) && Equipped(s) && s.seen && w.cfg.minRebootInterval < TWO63
    ensures var wait := Tick(Wait(w, s));
            var t := Step(w, s, wait);
      && Truthful(w, s, wait, true) && Unmoved(s, t) && Ready(w, t) && t.phys == s.phys
  {
    hide Count, HasBMC, Unwakeable, CooledDown;
    var wait := Tick(Wait(w, s));
    InvStep(w, s, wait);
    assert Step(w, s, wait) == s.(now := s.now + Wait(w, s)) by { assert s.log + [] == s.log; }
    WaitCools(w, s);
  }

  /** Boot if booting, look, wait. */
  lemma {:induction false} GetsReady(w: World, s: Sys, base: seq<Event>) returns (es: seq<Event>, t: Sys)
    requires TruthfulRun(w, s, base, true) && w.cfg.minRebootInterval < TWO63
    requires Inv(w, Run(w, s, base)) && Equipped(Run(w, s, base))
    ensures TruthfulRun(w, s, es, true) && t == Run(w, s, es) && Ready(w, t) && Unmoved(Run(w, s, base), t)
    ensures if Run(w, s, base).phys == Booting then Up(w, t) else t.phys == Run(w, s, base).phys
  {
    hide Run, TruthfulRun, Step, Truthful, Count, HasBMC, Unwakeable, Fixed, Sighted, CooledDown, RequiredBootMode;
    t := Run(w, s, base);
    es := base;
    if t.phys == Booting {
      Boots(w, t);
      es, t := Next(w, s, es, BootUp);
    }
    Looks(w, t);
    es, t := Next(w, s, es, AgentEvent(t.phys == RunsAgent));
    Waits(w, t);
    es, t := Next(w, s, es, Tick(Wait(w, t)));
  }

  // ------------------------------------------------------------------------- one loop

  /** A reconcile that has a reason to reboot does. */
  lemma {:induction false} RebootsNow(w: World, s: Sys)
    requires Ready(w, s) && (RebootPending(s) || (Needed(s) && ModeMismatch(Mode(w, s), s.phys == RunsAgent)))
    ensures var r := RebootOf(w, s, Cycle(s)); |r.acts| > 0 && r.acts[|r.acts| - 1].RebootCall? && r.verdict == Saved
  {
    AnyConfiguration(s.omni, s.bmc.value.v, NO_BMC.f, s.wipe, w.cfg.alwaysNetboot);
    hide RequiredBootMode, TimeSinceLastPowerOn, RequiresPowerOn;
  }

  /** And that is what changes: the machine comes up, unless it is off and power cycling does not wake it. */
  lemma {:induction false} RebootTakes(w: World, s: Sys)
    requires Ready(w, s) && (RebootPending(s) || (Needed(s) && ModeMismatch(Mode(w, s), s.phys == RunsAgent)))
    ensures var t := Step(w, s, Cycle(s));
      && Truthful(w, s, Cycle(s), true) && Inv(w, t) && Equipped(t)
      && t.omni == s.omni && t.user == s.user && t.wipe == s.wipe && t.power == s.power && !RebootPending(t)
      && (if s.phys == Off && !w.cycleWakes then t.phys == Off else t.phys == Booting)
      && Count(t.log, Reboots) == Count(s.log, Reboots) + 1 && Count(t.log, Switches) == Count(s.log, Switches)
  {
    var e := Cycle(s);
    var r := RebootReason(w, s, e);
    RebootsNow(w, s);
    RebootBrings(w, s, r.acts);
    hide MoveOf, RebootOf, Physically, Count, RequiredBootMode, RequiresPowerOn, RequiresWipe, HasBMC, Unwakeable,
         CooledDown;
    InvStep(w, s, e);
    RebootRan(w, s, e, r);
    assert MoveOf(w, s, e).s.log == s.log && MoveOf(w, s, e).s.power == s.power by { Frame(w, s, e); }
    CountAppend(s.log, MoveOf(w, s, e).facts, Reboots);
    CountAppend(s.log, MoveOf(w, s, e).facts, Switches);
  }

  lemma {:induction false} WipeTakes(w: World, s: Sys)
    requires Ready(w, s) && NeedsWipe(s) && s.phys == RunsAgent
    ensures var t := Step(w, s, RunWipe(true));
      && Truthful(w, s, RunWipe(true), true) && Ready(w, t) && !NeedsWipe(t) && (Needed(t) <==> Allocated(s.omni.value))
      && t.omni == s.omni && t.user == s.user && t.bmc == s.bmc && t.reboot == s.reboot && t.power == s.power
      && t.phys == s.phys && (Needed(t) ==> Mode(w, t) == TalosPXE)
      && Count(t.log, Reboots) == Count(s.log, Reboots) && Count(t.log, Switches) == Count(s.log, Switches)
  {
    hide Count, HasBMC, Unwakeable, TimeSinceLastPowerOn;
    InvStep(w, s, RunWipe(true));
    CountsStay(w, s, RunWipe(true));
  }

  function Switching(s: Sys): Event { RunPower(PowerCalls(GOOD_ENV, Some(s.phys != Off), true, true, true), 0, 0) }

  /** A reconcile that has a reason to switch does. */
  lemma {:induction false} SwitchesNow(w: World, s: Sys, on: bool)
    requires Ready(w, s)
    requires if on then s.phys == Off && (Needed(s) || s.omni.value.preferred == PreferOn) && !HeldOff(s)
             else s.phys != Off && !Needed(s) && s.omni.value.preferred == PreferOff
    ensures var r := PowerOf(w, s, Switching(s));
            |r.acts| > 0 && if on then r.acts[|r.acts| - 1].PowerOnCall? else r.acts[|r.acts| - 1].PowerOffCall?
  {
    var op := OrElse(s.power, NO_POWER_OPERATION);
    assert TimeSinceLastPowerOn(s.now, Some(op), s.reboot) >= w.cfg.minRebootInterval;
    hide RequiredBootMode, TimeSinceLastPowerOn, RequiresPowerOn, IsPowerOffActive;
  }

  lemma {:induction false} SwitchTakes(w: World, s: Sys, on: bool)
    requires Ready(w, s)
    requires if on then s.phys == Off && (Needed(s) || s.omni.value.preferred == PreferOn) && !HeldOff(s)
             else s.phys != Off && !Needed(s) && s.omni.value.preferred == PreferOff
    ensures var t := Step(w, s, Switching(s));
      && Truthful(w, s, Switching(s), true) && Inv(w, t) && Equipped(t)
      && t.omni == s.omni && t.user == s.user && t.bmc == s.bmc && t.wipe == s.wipe && t.reboot == s.reboot
      && t.phys == (if on then Booting else Off)
      && Count(t.log, Switches) == Count(s.log, Switches) + 1 && Count(t.log, Reboots) == Count(s.log, Reboots)
  {
    hide MoveOf, PowerOf, Physically, Count, RequiredBootMode, RequiresPowerOn, RequiresWipe, HasBMC, Unwakeable,
         CooledDown;
    var e := Switching(s);
    var r := PowerReason(w, s, e);
    SwitchesNow(w, s, on);
    InvStep(w, s, e);
    PowerRan(w, s, e, r);
    assert MoveOf(w, s, e).s.log == s.log by { Frame(w, s, e); }
    CountAtMostOne(MoveOf(w, s, e).facts, Reboots);
    CountAtMostOne(MoveOf(w, s, e).facts, Switches);
    CountAppend(s.log, MoveOf(w, s, e).facts, Reboots);
    CountAppend(s.log, MoveOf(w, s, e).facts, Switches);
  }

  // ------------------------------------------------------------------------- a loop, and ready again

  /** A reason to reboot: one reboot, and ready again. */
  lemma {:induction false} RebootAndReady(w: World, s: Sys, base: seq<Event>) returns (es: seq<Event>, t: Sys)
    requires TruthfulRun(w, s, base, true) && w.cfg.minRebootInterval < TWO63 && Ready(w, Run(w, s, base))
    requires var u := Run(w, s, base); RebootPending(u) || (Needed(u) && ModeMismatch(Mode(w, u), u.phys == RunsAgent))
    ensures TruthfulRun(w, s, es, true) && t == Run(w, s, es) && Ready(w, t)
    ensures var u := Run(w, s, base);
      && t.omni == u.omni && t.user == u.user && t.wipe == u.wipe && t.power == u.power && !RebootPending(t)
      && (if u.phys == Off && !w.cycleWakes then t.phys == Off else Up(w, t))
      && Count(t.log, Reboots) == Count(u.log, Reboots) + 1 && Count(t.log, Switches) == Count(u.log, Switches)
  {
    hide Run, TruthfulRun, Step, Truthful, Count, Ready, Inv, Equipped, Up, Mode, Needed;
    var u := Run(w, s, base);
    RebootTakes(w, u);
    es, t := Next(w, s, base, Cycle(u));
    es, t := GetsReady(w, s, es);
  }

  /** A reason to switch: one switch, and ready again. */
  lemma {:induction false} SwitchAndReady(w: World, s: Sys, base: seq<Event>, on: bool) returns (es: seq<Event>, t: Sys)
    requires TruthfulRun(w, s, base, true) && w.cfg.minRebootInterval < TWO63 && Ready(w, Run(w, s, base))
    requires var u := Run(w, s, base);
             if on then u.phys == Off && (Needed(u) || u.omni.value.preferred == PreferOn) && !HeldOff(u)
             else u.phys != Off && !Needed(u) && u.omni.value.preferred == PreferOff
    ensures TruthfulRun(w, s, es, true) && t == Run(w, s, es) && Ready(w, t)
    ensures var u := Run(w, s, base);
      && t.omni == u.omni && t.user == u.user && t.wipe == u.wipe && t.reboot == u.reboot
      && (if on then Up(w, t) else t.phys == Off)
      && Count(t.log, Switches) == Count(u.log, Switches) + 1 && Count(t.log, Reboots) == Count(u.log, Reboots)
  {
    hide Run, TruthfulRun, Step, Truthful, Count, Ready, Inv, Equipped, Up, Needed, HeldOff;
    var u := Run(w, s, base);
    SwitchTakes(w, u, on);
    es, t := Next(w, s, base, Switching(u));
    es, t := GetsReady(w, s, es);
  }

  lemma {:induction false} WipeOnce(w: World, s: Sys, base: seq<Event>) returns (es: seq<Event>, t: Sys)
    requires TruthfulRun(w, s, base, true) && Ready(w, Run(w, s, base))
    requires NeedsWipe(Run(w, s, base)) && Run(w, s, base).phys == RunsAgent
    ensures TruthfulRun(w, s, es, true) && t == Run(w, s, es) && Ready(w, t)
    ensures var u := Run(w, s, base);
      && t.omni == u.omni && t.user == u.user && t.reboot == u.reboot && t.power == u.power && t.phys == u.phys
      && !NeedsWipe(t) && (Needed(t) <==> Allocated(u.omni.value)) && (Needed(t) ==> Mode(w, t) == TalosPXE)
      && Count(t.log, Reboots) == Count(u.log, Reboots) && Count(t.log, Switches) == Count(u.log, Switches)
  {
    hide Run, TruthfulRun, Step, Truthful, Count, Ready, Mode, Needed, NeedsWipe;
    WipeTakes(w, Run(w, s, base));
    es, t := Next(w, s, base, RunWipe(true));
  }

  // ------------------------------------------------------------------------- into the goal

  /** Ready and wiped. */
  lemma {:induction false} GetsWiped(w: World, s: Sys, base: seq<Event>) returns (es: seq<Event>, t: Sys)
    requires TruthfulRun(w, s, base, true) && w.cfg.minRebootInterval < TWO63 && Ready(w, Run(w, s, base))
    ensures TruthfulRun(w, s, es, true) && t == Run(w, s, es) && Ready(w, t) && !NeedsWipe(t)
  {
    t := Run(w, s, base);
    es := base;
    if NeedsWipe(t) {
      WipingIsForTheAgent(w, t);
      hide Run, TruthfulRun, Count, RequiredBootMode, RequiresPowerOn, RequiresWipe, HasBMC;
      if t.phys != RunsAgent {
        var u := t;
        es, t := RebootAndReady(w, s, es);
        assert NeedsWipe(t) && Mode(w, t) == Mode(w, u);
      }
      es, t := WipeOnce(w, s, es);
    }
  }

  /** And rebooted as asked, or as needed. */
  lemma {:induction false} GetsRebooted(w: World, s: Sys, base: seq<Event>) returns (es: seq<Event>, t: Sys)
    requires TruthfulRun(w, s, base, true) && w.cfg.minRebootInterval < TWO63
    requires Ready(w, Run(w, s, base)) && !NeedsWipe(Run(w, s, base))
    ensures TruthfulRun(w, s, es, true) && t == Run(w, s, es) && Ready(w, t) && !NeedsWipe(t) && Settled(w, t)
  {
    hide Run, TruthfulRun, Count, RequiredBootMode, RequiresPowerOn, RequiresWipe, HasBMC;
    t := Run(w, s, base);
    es := base;
    if RebootPending(t) || (Needed(t) && ModeMismatch(Mode(w, t), t.phys == RunsAgent)) {
      es, t := RebootAndReady(w, s, es);
    }
  }

  /** And powered as wanted. */
  lemma {:induction false} GetsPowered(w: World, s: Sys, base: seq<Event>) returns (es: seq<Event>, t: Sys)
    requires TruthfulRun(w, s, base, true) && w.cfg.minRebootInterval < TWO63
    requires var u := Run(w, s, base); Ready(w, u) && !NeedsWipe(u) && Settled(w, u)
    ensures TruthfulRun(w, s, es, true) && t == Run(w, s, es) && AtGoal(w, t)
  {
    hide Run, TruthfulRun, Count, RequiredBootMode, RequiresPowerOn, HasBMC, HeldOff;
    t := Run(w, s, base);
    es := base;
    var on := t.phys == Off && (Needed(t) || t.omni.value.preferred == PreferOn) && !HeldOff(t);
    if on || (t.phys != Off && !Needed(t) && t.omni.value.preferred == PreferOff) {
      es, t := SwitchAndReady(w, s, es, on);
    }
  }

  /** From every state that converges and has a BMC, a truthful and timely run leads where Omni wants the machine;
      and from there it stays. */
  lemma {:induction false} ReachesGoal(w: World, s: Sys) returns (es: seq<Event>)
    requires Inv(w, s) && Equipped(s) && w.cfg.minRebootInterval < TWO63
    ensures TruthfulRun(w, s, es, true) && AtGoal(w, Run(w, s, es))
  {
    hide Run, TruthfulRun, Ready, AtGoal, Inv, Equipped, Settled, NeedsWipe;
    var t;
    Starts(w, s);
    es, t := GetsReady(w, s, []);
    es, t := GetsWiped(w, s, es);
    es, t := GetsRebooted(w, s, es);
    es, t := GetsPowered(w, s, es);
  }

  // ------------------------------------------------------------------------- the bounds are met

  /** An allocated machine that is not in the agent is rebooted into it to be wiped, and out of it once it is. */
  lemma {:induction false} TwoReboots(w: World, s: Sys) returns (es: seq<Event>)
    requires Inv(w, s) && Equipped(s) && w.cfg.minRebootInterval < TWO63
    requires NeedsWipe(s) && Allocated(s.omni.value) && (s.phys == RunsTalos || s.phys == RunsOther)
    ensures TruthfulRun(w, s, es, true) && RebootsIn(w, s, es) == 2
  {
    Starts(w, s);
    var t;
    WipingIsForTheAgent(w, s);
    hide Run, TruthfulRun, Count, RequiredBootMode, RequiresPowerOn, RequiresWipe, HasBMC;
    es, t := GetsReady(w, s, []);
    assert Needed(t) && Mode(w, t) == AgentPXE;
    es, t := RebootAndReady(w, s, es);
    assert NeedsWipe(t) && Mode(w, t) == AgentPXE;
    es, t := WipeOnce(w, s, es);
    es, t := RebootAndReady(w, s, es);
  }

  /** A machine nobody uses, preferred off and off, is powered on to be wiped, and off again. */
  lemma {:induction false} OnToBeWiped(w: World, s: Sys) returns (es: seq<Event>, t: Sys)
    requires Inv(w, s) && Equipped(s) && w.cfg.minRebootInterval < TWO63 && s.phys == Off && !HeldOff(s)
    requires NeedsWipe(s) && !Allocated(s.omni.value) && s.omni.value.preferred == PreferOff
    ensures TruthfulRun(w, s, es, true) && t == Run(w, s, es) && Ready(w, t) && t.phys == Off && !Needed(t)
    ensures t.omni == s.omni && RebootPending(t) == RebootPending(s)
    ensures Count(t.log, Switches) == Count(s.log, Switches) + 2
  {
    Starts(w, s);
    WipingIsForTheAgent(w, s);
    hide Run, TruthfulRun, Count, RequiredBootMode, RequiresPowerOn, RequiresWipe, HasBMC, IsPowerOffActive,
         Acknowledge;
    es, t := GetsReady(w, s, []);
    es, t := SwitchAndReady(w, s, es, true);
    assert NeedsWipe(t) && Mode(w, t) == AgentPXE;
    es, t := WipeOnce(w, s, es);
    es, t := SwitchAndReady(w, s, es, false);
  }

  /** And off once more after the reboot that was asked for has woken it. */
  lemma {:induction false} ThreeSwitches(w: World, s: Sys) returns (es: seq<Event>)
    requires Inv(w, s) && Equipped(s) && w.cfg.minRebootInterval < TWO63 && w.cycleWakes
    requires NeedsWipe(s) && !Allocated(s.omni.value) && s.omni.value.preferred == PreferOff
    requires s.phys == Off && RebootPending(s) && !HeldOff(s)
    ensures TruthfulRun(w, s, es, true) && SwitchesIn(w, s, es) == 3
  {
    hide Run, TruthfulRun, Count, RequiredBootMode, RequiresPowerOn, RequiresWipe, HasBMC, HeldOff;
    var t;
    es, t := OnToBeWiped(w, s);
    es, t := RebootAndReady(w, s, es);
    assert !Needed(t);
    es, t := SwitchAndReady(w, s, es, false);
  }

  /** Such machines exist, so two and three are the best bounds there are. */
  lemma {:induction false} BoundsAreMet() returns (w: World, s: Sys, es: seq<Event>, t: Sys, fs: seq<Event>)
    ensures Inv(w, s) && TruthfulRun(w, s, es, true) && RebootsIn(w, s, es) == 2
    ensures Inv(w, t) && TruthfulRun(w, t, fs, true) && SwitchesIn(w, t, fs) == 3
  {
    hide TruthfulRun, RebootsIn, SwitchesIn;
    w := World(Config(0, false, false, BootIPXEExit), true);
    var bmc := BMCConfigurationFields(None, Some(Msg(APIFields([1]), [])), false, None);
    var used := InfraMachine(Running, Accepted, false, [1], [1], 0, [], [], PreferOther, []);
    var unused := InfraMachine(Running, Accepted, false, [], [1], 0, [1], [], PreferOff, []);
    s := INIT.(omni := Some(used), bmc := Some(Res(bmc, Running, false)), phys := RunsOther);
    t := INIT.(omni := Some(unused), bmc := Some(Res(bmc, Running, false)), phys := Off);
    es := TwoReboots(w, s);
    fs := ThreeSwitches(w, t);
  }
}
