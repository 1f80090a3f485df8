/** With Omni's wishes fixed and every call answered truthfully, the loops settle, from a machine just
    accepted on: no interleaving of polls, BMC configuration, wipes, power and reboot reconciles reboots
    a machine more than twice or switches its power more than three times, exactly when it is not a
    machine that power cycling cannot wake. And when no loop has anything left to do, the machine is
    where Omni wants it. */
module Convergence {
  import opened Wire
  import opened Specs
  import opened Machine
  import opened Reconcile
  import opened System

  // ------------------------------------------------------------------------- the setting

  /** Omni wants something of the machine, and neither it nor its resources are going away. Whether and how
      its BMC is configured yet is open. */
  predicate Fixed(s: Sys) {
    && s.omni.Some? && s.omni.value.phase == Running && Admitted(s.omni.value)
    && (s.bmc.Some? ==> s.bmc.value.phase == Running)
    && (s.status.Some? ==> s.status.value.phase == Running)
  }

  /** A machine that was looked at since it last changed is reported as it is. */
  predicate Sighted(s: Sys) {
    s.seen ==> s.status.Some? && s.phys != Booting && (s.status.value.v.agentAccessible <==> s.phys == RunsAgent)
  }

  predicate CooledDown(w: World, s: Sys) {
    TimeSinceLastPowerOn(s.now, s.power, Some(OrElse(s.reboot, NO_REBOOT_STATUS))) >= w.cfg.minRebootInterval
  }

  predicate TruthfulPoll(s: Sys, calls: PollCalls) {
    calls.agent == (s.phys == RunsAgent) && calls.isPoweredOn == Some(s.phys != Off)
  }

  predicate TruthfulPower(s: Sys, calls: PowerCalls) {
    calls.isPoweredOn == Some(s.phys != Off) && calls.setPXE && calls.powerOn && calls.powerOff
  }

  predicate TruthfulReboot(s: Sys, calls: RebootCalls) {
    calls.setPXE && calls.reboot && calls.agentReboot == (s.phys == RunsAgent)
  }

  /** By the time the reboot interval has passed, a machine has come up and been looked at. */
  predicate Timely(w: World, s: Sys) { CooledDown(w, s) ==> s.seen }

  /** Omni, the operator and people keep still, calls succeed where they can, and answers are true: the
      agent answers only while the machine runs it, and an agent that cannot be reached is not taken for a
      machine without BMC. Where `timely` is asked for, reboots are also considered in time. */
  predicate Truthful(w: World, s: Sys, e: Event, timely: bool) {
    match e
    case OmniPut(_) => false
    case OmniRemoved => false
    case UserPut(_) => false
    case HumanPower(_) => false
    case AgentEvent(connected) => connected == (s.phys == RunsAgent)
    case Poll(calls) => TruthfulPoll(s, calls)
    case PXEBooted(calls) => TruthfulPoll(s, calls)
    case RunBMC(calls, _) => s.phys == RunsAgent || (calls.reported.AgentError? && !calls.reported.internal)
    case RunWipe(ok) => ok == (s.phys == RunsAgent)
    case RunPower(calls, _, _) => TruthfulPower(s, calls)
    case RunReboot(calls, _, _) => TruthfulReboot(s, calls) && (timely ==> Timely(w, s))
    case _ => true
  }

  predicate TruthfulRun(w: World, s: Sys, es: seq<Event>, timely: bool)
    decreases |es|
  {
    es == [] || (TruthfulRun(w, s, es[..|es| - 1], timely) &&
                 Truthful(w, Run(w, s, es[..|es| - 1]), es[|es| - 1], timely))
  }

  /** The boot handler and the controllers agree: what the handler sends an accepted machine into is never
      what the reboot loop would reboot it out of. */
  lemma {:induction false} HandlerAgrees(im: InfraMachine, bmc: Option<BMCConfigurationFields>,
                                         wipe: Option<WipeStatusFields>,
                                         alwaysNetboot: bool, how: BootFromDisk)
    requires Admitted(im)
    ensures !ModeMismatch(RequiredBootMode(Some(im), bmc, wipe, alwaysNetboot),
                          AfterDecision(MakeBootDecision(Some(im), bmc, wipe, alwaysNetboot, how)) == RunsAgent)
  {
  }

  // ------------------------------------------------------------------------- the measures

  /** The boot mode required once the BMC is configured. Which configuration it is does not matter. */
  function Mode(w: World, s: Sys): BootMode { RequiredBootMode(s.omni, Some(NO_BMC.f), s.wipe, w.cfg.alwaysNetboot) }

  lemma {:induction false} AnyConfiguration(im: Option<InfraMachine>, a: BMCConfigurationFields,
                                            b: BMCConfigurationFields,
                                            wipe: Option<WipeStatusFields>, alwaysNetboot: bool)
    ensures RequiredBootMode(im, Some(a), wipe, alwaysNetboot) == RequiredBootMode(im, Some(b), wipe, alwaysNetboot)
  {
  }

  predicate NeedsWipe(s: Sys) { RequiresWipe(s.omni, s.wipe) }

  predicate Needed(s: Sys) requires s.omni.Some? { RequiresPowerOn(s.omni.value, s.wipe) }

  predicate RebootPending(s: Sys)
    requires s.omni.Some?
  {
    OrElse(s.reboot, NO_REBOOT_STATUS).lastRebootId != s.omni.value.requestedRebootId
  }

  /** What the machine runs, or is coming up into, is what it should: the handler sends a machine without BMC
      configuration into the agent. */
  predicate Fits(w: World, s: Sys) {
    if s.phys == Booting then s.bmc.Some? || !ModeMismatch(Mode(w, s), true)
    else !ModeMismatch(Mode(w, s), s.phys == RunsAgent)
  }

  /** No reboot is left to do before the next wipe. */
  predicate Settled(w: World, s: Sys) requires s.omni.Some? { !RebootPending(s) && (Needed(s) ==> Fits(w, s)) }

  function RebootsLeft(w: World, s: Sys): (n: nat)
    requires s.omni.Some?
    ensures n <= 2
  {
    (if NeedsWipe(s) then 1 else 0) + (if Settled(w, s) then 0 else 1)
  }

  function SwitchesLeft(s: Sys): (n: nat)
    requires s.omni.Some?
    ensures n <= 3
  {
    var im, off := s.omni.value, if s.phys == Off then 1 else 0;
    if NeedsWipe(s) then off + (if im.preferred == PreferOff && !Allocated(im) then 2 else 0)
    else if Needed(s) || im.preferred == PreferOn then off
    else if im.preferred == PreferOff then 1 - off + (if RebootPending(s) then 1 else 0)
    else 0
  }

  predicate Reboots(f: Fact) {
    f.Acted? && f.acts != [] && (f.acts[|f.acts| - 1].RebootCall? || f.acts[|f.acts| - 1].AgentRebootCall?)
  }

  predicate Switches(f: Fact) {
    f.Acted? && f.acts != [] && (f.acts[|f.acts| - 1].PowerOnCall? || f.acts[|f.acts| - 1].PowerOffCall?)
  }

  function Count(log: seq<Fact>, p: Fact -> bool): nat {
    if log == [] then 0 else Count(log[..|log| - 1], p) + (if p(log[|log| - 1]) then 1 else 0)
  }

  lemma {:induction false} CountAppend(log: seq<Fact>, facts: seq<Fact>, p: Fact -> bool)
    ensures Count(log + facts, p) == Count(log, p) + Count(facts, p)
    decreases |facts|
  {
    if facts == [] {
      assert log + facts == log;
    } else {
      var n := |facts| - 1;
      CountAppend(log, facts[..n], p);
      assert (log + facts)[..|log| + n] == log + facts[..n];
    }
  }

  lemma {:induction false} CountNone(facts: seq<Fact>, p: Fact -> bool)
    requires forall f <- facts :: !p(f)
    ensures Count(facts, p) == 0
    decreases |facts|
  {
    if facts != [] {
      CountNone(facts[..|facts| - 1], p);
    }
  }

  function Held(s: Sys): BMCConfigurationFields { if s.bmc.Some? then s.bmc.value.v else NO_BMC.f }

  /** The operator's configuration is what the next reconcile stores. */
  predicate Storing(s: Sys) { s.user.Some? && s.user.value.Some? && s.status.Some? && s.status.value.v.agentAccessible }

  /** There is a BMC to send reboots to, or there will be without the machine changing. */
  predicate Reachable(s: Sys) {
    (s.bmc.Some? && HasBMC(s.bmc.value.v)) || (Storing(s) && HasBMC(StoreUserProvided(s.user.value.value, Held(s))))
  }

  /** A needed machine that is off, that must come up in the agent, and that a power cycle leaves off. */
  predicate Unwakeable(w: World, s: Sys) requires s.omni.Some? {
    !w.cycleWakes && s.phys == Off && Needed(s) && Mode(w, s) == AgentPXE && Reachable(s)
  }

  predicate Inv(w: World, s: Sys) { Fixed(s) && Sighted(s) && !Unwakeable(w, s) }

  /** One step spends what it does from the two measures. */
  ghost predicate Spends(w: World, s: Sys, m: Move)
    requires s.omni.Some?
  {
    && Inv(w, m.s)
    && Count(m.facts, Reboots) + RebootsLeft(w, m.s) <= RebootsLeft(w, s)
    && Count(m.facts, Switches) + SwitchesLeft(m.s) <= SwitchesLeft(s)
  }

  // ------------------------------------------------------------------------- the steps

  lemma {:induction false} CountAtMostOne(facts: seq<Fact>, p: Fact -> bool)
    requires |facts| <= 1
    ensures Count(facts, p) == if facts != [] && p(facts[0]) then 1 else 0
  {
  }

  lemma {:induction false} CountPair(f: Fact, rest: seq<Fact>, p: Fact -> bool)
    requires !p(f) && |rest| <= 1
    ensures Count([f] + rest, p) == if rest != [] && p(rest[0]) then 1 else 0
  {
    CountAppend([f], rest, p);
    CountAtMostOne([f], p);
    CountAtMostOne(rest, p);
  }

  /** What a truthful reboot reconcile does: nothing, or one reboot, for a reason. */
  lemma {:induction false} RebootOutcome(cfg: Config, im: InfraMachine, bmc: BMCConfigurationFields,
                                         wipe: Option<WipeStatusFields>,
                                         op: Option<PowerOperation>, ms: Option<MachineStatusFields>, rb: RebootStatus,
                                         calls: RebootCalls, now: int, stamp: int, runsAgent: bool)
    requires Admitted(im) && calls.setPXE && calls.reboot && calls.agentReboot == runsAgent
    requires ms.Some? ==>
               ms.value.agentAccessible == runsAgent || TimeSinceLastPowerOn(now, op, Some(rb)) < cfg.minRebootInterval
    ensures var r := RebootTransform(cfg, im, Some(bmc), wipe, op, ms, rb, calls, now, stamp);
            var mode := RequiredBootMode(Some(im), Some(bmc), wipe, cfg.alwaysNetboot);
      if r.acts == [] then r.rb == rb
      else
        && TimeSinceLastPowerOn(now, op, Some(rb)) >= cfg.minRebootInterval
        && (rb.lastRebootId != im.requestedRebootId || (RequiresPowerOn(im, wipe) && ModeMismatch(mode, runsAgent)))
        && r.verdict == Saved && r.rb.lastRebootId == im.requestedRebootId
        && (if IsManuallyPowered(Some(bmc)) then runsAgent && r.acts[|r.acts| - 1] == AgentRebootCall(true)
            else HasBMC(bmc) && r.acts[|r.acts| - 1].RebootCall? && r.acts[|r.acts| - 1].ok)
  {
  }

  /** The last call is a reboot that was sent, over the machine's BMC or to the agent it runs. */
  predicate SentReboot(s: Sys, acts: seq<Action>)
    requires s.bmc.Some? && acts != []
  {
    if IsManuallyPowered(Values(s.bmc)) then s.phys == RunsAgent && acts[|acts| - 1] == AgentRebootCall(true)
    else HasBMC(s.bmc.value.v) && acts[|acts| - 1].RebootCall? && acts[|acts| - 1].ok
  }

  /** Which brings the machine up again, unless it is off and power cycling does not wake it. */
  lemma {:induction false} RebootBrings(w: World, s: Sys, acts: seq<Action>)
    requires s.bmc.Some? && acts != [] && SentReboot(s, acts)
    ensures var t := Physically(w, s, acts);
            if s.phys == Off && !w.cycleWakes then t == s && HasBMC(s.bmc.value.v) else t.phys == Booting && !t.seen
  {
  }

  /** Why a truthful reboot reconcile reboots. */
  lemma {:induction false} RebootReason(w: World, s: Sys, e: Event) returns (r: RebootResult)
    requires Fixed(s) && Sighted(s) && e.RunReboot? && Truthful(w, s, e, true)
    ensures r == RebootOf(w, s, e)
    ensures if r.acts == [] then r.verdict == Saved ==> r.rb == OrElse(s.reboot, NO_REBOOT_STATUS)
            else
              && s.bmc.Some? && s.phys != Booting
              && (RebootPending(s) || (Needed(s) && ModeMismatch(Mode(w, s), s.phys == RunsAgent)))
              && r.verdict == Saved && r.rb.lastRebootId == s.omni.value.requestedRebootId
              && SentReboot(s, r.acts)
  {
    r := RebootOf(w, s, e);
    if s.bmc.Some? {
      hide RebootTransform, TimeSinceLastPowerOn, RequiredBootMode, RequiresPowerOn, RequiresWipe, HasBMC;
      AnyConfiguration(s.omni, s.bmc.value.v, NO_BMC.f, s.wipe, w.cfg.alwaysNetboot);
      RebootOutcome(w.cfg, s.omni.value, s.bmc.value.v, s.wipe, s.power, Values(s.status),
                    OrElse(s.reboot, NO_REBOOT_STATUS),
                    e.rebootCalls, s.now, s.now + e.callDelay + e.stampDelay, s.phys == RunsAgent);
    }
  }

  /** And what it changes. */
  lemma {:induction false} RebootRan(w: World, s: Sys, e: Event, r: RebootResult)
    requires Fixed(s) && e.RunReboot? && r == RebootOf(w, s, e)
    requires r.acts != [] ==> r.acts[|r.acts| - 1].RebootCall? || r.acts[|r.acts| - 1].AgentRebootCall?
    ensures var t := MoveOf(w, s, e).s;
      && Fixed(t) && SameWishes(s, t)
      && t.reboot == (if r.verdict == Saved then Some(r.rb) else s.reboot)
      && t.phys == Physically(w, s, r.acts).phys && t.seen == Physically(w, s, r.acts).seen
    ensures Count(MoveOf(w, s, e).facts, Switches) == 0
    ensures Count(MoveOf(w, s, e).facts, Reboots) == if r.acts == [] then 0 else 1
  {
    hide MoveOf, RebootOf, Physically, Count;
    RebootShape(w, s, e);
    var rest := Did(RebootLoop, s.now + e.callDelay, r.acts, r.verdict);
    CountPair(FinalizersAdded(s.status.Some?, s.bmc.Some?), rest, Reboots);
    CountPair(FinalizersAdded(s.status.Some?, s.bmc.Some?), rest, Switches);
  }

  /** Two states that differ in what the machine does, and in what the three loops have recorded. */
  predicate SameWishes(s: Sys, t: Sys) {
    && t.omni == s.omni && t.user == s.user && t.wipe == s.wipe
    && Values(t.bmc) == Values(s.bmc) && Values(t.status) == Values(s.status)
  }

  /** A reboot that is sent pays for itself. */
  lemma {:induction false} RebootPays(w: World, s: Sys, t: Sys)
    requires Inv(w, s) && SameWishes(s, t) && Fixed(t)
    requires s.bmc.Some? && s.phys != Booting
    requires RebootPending(s) || (Needed(s) && ModeMismatch(Mode(w, s), s.phys == RunsAgent))
    requires t.reboot.Some? && t.reboot.value.lastRebootId == s.omni.value.requestedRebootId
    requires if s.phys == Off && !w.cycleWakes then t.phys == Off && t.seen == s.seen && HasBMC(s.bmc.value.v)
             else t.phys == Booting && !t.seen
    ensures Inv(w, t) && RebootsLeft(w, t) < RebootsLeft(w, s) && SwitchesLeft(t) <= SwitchesLeft(s)
  {
    hide RequiredBootMode, RequiresPowerOn, RequiresWipe, HasBMC, StoreUserProvided;
  }

  lemma {:induction false} SpendReboot(w: World, s: Sys, e: Event)
    requires Inv(w, s) && e.RunReboot? && Truthful(w, s, e, true)
    ensures Spends(w, s, MoveOf(w, s, e))
  {
    assert Physically(w, s, []) == s;
    hide MoveOf, RebootOf, Physically, Count, Mode, Needed, NeedsWipe, HasBMC, RebootsLeft, SwitchesLeft, Unwakeable;
    var r := RebootReason(w, s, e);
    RebootRan(w, s, e, r);
    if r.acts == [] {
      IdlePays(w, s, MoveOf(w, s, e).s);
    } else {
      RebootBrings(w, s, r.acts);
      RebootPays(w, s, MoveOf(w, s, e).s);
    }
  }

  /** What changes nothing about the machine costs nothing. */
  lemma {:induction false} IdlePays(w: World, s: Sys, t: Sys)
    requires Inv(w, s) && SameWishes(s, t) && Fixed(t) && t.phys == s.phys && t.seen == s.seen
    requires OrElse(t.reboot, NO_REBOOT_STATUS).lastRebootId == OrElse(s.reboot, NO_REBOOT_STATUS).lastRebootId
    ensures Inv(w, t) && RebootsLeft(w, t) == RebootsLeft(w, s) && SwitchesLeft(t) == SwitchesLeft(s)
  {
    hide RequiredBootMode, RequiresPowerOn, RequiresWipe, HasBMC, StoreUserProvided;
  }

  /** What a truthful power reconcile does: nothing, or one switch, for a reason. */
  lemma {:induction false} PowerOutcome(cfg: Config, im: InfraMachine, bmc: Option<BMCConfigurationFields>,
                                        wipe: Option<WipeStatusFields>,
                                        rb: Option<RebootStatus>, op: PowerOperation, calls: PowerCalls, now: int,
                                        stamp: int)
    requires Admitted(im) && calls.isPoweredOn.Some? && calls.setPXE && calls.powerOn && calls.powerOff
    ensures var acts := PowerTransform(cfg, im, bmc, wipe, rb, op, calls, now, stamp).acts;
      acts != [] ==>
        bmc.Some? &&
        match acts[|acts| - 1]
        case PowerOnCall(_, ok, _) => ok && !calls.isPoweredOn.value &&
          (RequiresPowerOn(im, wipe) || im.preferred == PreferOn)
        case PowerOffCall(_, ok) => ok && calls.isPoweredOn.value && !RequiresPowerOn(im, wipe) &&
          im.preferred == PreferOff
        case IsPoweredOnCall(_) => true
        case _ => false
  {
  }

  /** Why a truthful power reconcile switches. */
  lemma {:induction false} PowerReason(w: World, s: Sys, e: Event) returns (r: PowerResult)
    requires Fixed(s) && e.RunPower? && Truthful(w, s, e, true)
    ensures r == PowerOf(w, s, e)
    ensures r.acts != [] ==> s.bmc.Some?
    ensures r.acts != [] ==>
              match r.acts[|r.acts| - 1]
              case PowerOnCall(_, ok, _) => ok && s.phys == Off && (Needed(s) || s.omni.value.preferred == PreferOn)
              case PowerOffCall(_, ok) => ok && s.phys != Off && !Needed(s) && s.omni.value.preferred == PreferOff
              case IsPoweredOnCall(_) => true
              case _ => false
    ensures var t := Physically(w, s, r.acts);
            if r.acts == [] || r.acts[|r.acts| - 1].IsPoweredOnCall? then t == s
            else !t.seen && t.phys == if r.acts[|r.acts| - 1].PowerOnCall? then Booting else Off
  {
    hide PowerTransform, RequiresPowerOn;
    r := PowerOf(w, s, e);
    PowerOutcome(w.cfg, s.omni.value, Values(s.bmc), s.wipe, s.reboot, OrElse(s.power, NO_POWER_OPERATION),
                 e.powerCalls, s.now, s.now + e.callDelay + e.stampDelay);
  }

  /** And what it changes. */
  lemma {:induction false} PowerRan(w: World, s: Sys, e: Event, r: PowerResult)
    requires Fixed(s) && e.RunPower? && r == PowerOf(w, s, e)
    ensures var t := MoveOf(w, s, e).s;
      && t.omni == s.omni && t.user == s.user && t.bmc == s.bmc && t.status == s.status && t.wipe == s.wipe
      && t.reboot == s.reboot
      && t.phys == Physically(w, s, r.acts).phys && t.seen == Physically(w, s, r.acts).seen
    ensures MoveOf(w, s, e).facts == Did(PowerLoop, s.now + e.callDelay, r.acts, r.verdict)
  {
    hide MoveOf, PowerOf, Physically;
    PowerShape(w, s, e);
  }

  /** A switch pays for itself. */
  lemma {:induction false} SwitchPays(w: World, s: Sys, t: Sys, on: bool)
    requires Inv(w, s) && SameWishes(s, t) && Fixed(t) && t.reboot == s.reboot && !t.seen
    requires if on then s.phys == Off && t.phys == Booting && (Needed(s) || s.omni.value.preferred == PreferOn)
             else s.phys != Off && t.phys == Off && !Needed(s) && s.omni.value.preferred == PreferOff
    requires on ==> s.bmc.Some?
    ensures Inv(w, t) && RebootsLeft(w, t) <= RebootsLeft(w, s) && SwitchesLeft(t) < SwitchesLeft(s)
  {
    WipingIsForTheAgent(w, s);
    hide RequiredBootMode, RequiresPowerOn, RequiresWipe, HasBMC, StoreUserProvided;
  }

  lemma {:induction false} WipingIsForTheAgent(w: World, s: Sys)
    requires Fixed(s)
    ensures NeedsWipe(s) ==> Mode(w, s) == AgentPXE && Needed(s)
  {
  }

  lemma {:induction false} SpendPower(w: World, s: Sys, e: Event)
    requires Inv(w, s) && e.RunPower? && Truthful(w, s, e, true)
    ensures Spends(w, s, MoveOf(w, s, e))
  {
    hide PowerOf, MoveOf, Physically, Count, Mode, Needed, NeedsWipe, HasBMC, RebootsLeft, SwitchesLeft, Unwakeable;
    var r := PowerReason(w, s, e);
    PowerRan(w, s, e, r);
    CountAtMostOne(MoveOf(w, s, e).facts, Reboots);
    CountAtMostOne(MoveOf(w, s, e).facts, Switches);
    if r.acts == [] || r.acts[|r.acts| - 1].IsPoweredOnCall? {
      IdlePays(w, s, MoveOf(w, s, e).s);
    } else {
      SwitchPays(w, s, MoveOf(w, s, e).s, r.acts[|r.acts| - 1].PowerOnCall?);
    }
  }

  lemma {:induction false} SpendWipe(w: World, s: Sys, e: Event)
    requires Inv(w, s) && e.RunWipe? && Truthful(w, s, e, true)
    ensures Spends(w, s, MoveOf(w, s, e))
  {
    hide Count, RequiredBootMode, Reachable;
    var m := MoveOf(w, s, e);
    CountNone(m.facts, Reboots);
    CountNone(m.facts, Switches);
    if m.s.wipe != s.wipe {
      assert NeedsWipe(s) && !NeedsWipe(m.s) && s.phys == RunsAgent && !IsInstalled(m.s.omni, m.s.wipe);
    } else {
      assert m.s == s;
    }
  }

  /** Where the handler sends a machine fits: any machine once its BMC is configured, and before that one that
      belongs in the agent. */
  lemma {:induction false} BootFits(w: World, s: Sys)
    requires Fixed(s) && s.phys == Booting
    ensures Fits(w, s) ==> Fits(w, MoveOf(w, s, BootUp).s)
  {
    if s.bmc.Some? {
      AnyConfiguration(s.omni, s.bmc.value.v, NO_BMC.f, s.wipe, w.cfg.alwaysNetboot);
      HandlerAgrees(s.omni.value, Values(s.bmc), s.wipe, w.cfg.alwaysNetboot, w.cfg.bootFromDisk);
      hide RequiredBootMode;
    }
  }

  lemma {:induction false} SpendBoot(w: World, s: Sys)
    requires Inv(w, s)
    ensures Spends(w, s, MoveOf(w, s, BootUp))
  {
    hide Count, Fits, RequiredBootMode, RequiresPowerOn, RequiresWipe, Reachable;
    var m := MoveOf(w, s, BootUp);
    CountNone(m.facts, Reboots);
    CountNone(m.facts, Switches);
    if s.phys == Booting {
      BootFits(w, s);
    }
  }

  /** A truthful poll sees the agent where it runs, and calls nothing but the power state. */
  lemma {:induction false} PollSees(s: Sys, bmc: Option<BMCConfigurationFields>, calls: PollCalls)
    requires TruthfulPoll(s, calls)
    ensures var r := PollSingle(bmc, calls);
      && r.agentAccessible == (s.phys == RunsAgent)
      && |r.acts| <= 1 && forall a <- r.acts :: a.IsPoweredOnCall?
  {
    hide GetClient;
  }

  /** What a look changes: what is known about the machine, which is then true, or as it was. */
  predicate Looked(s: Sys, t: Sys) {
    && t == s.(status := t.status, seen := t.seen)
    && (t.status.Some? ==> t.status.value.phase == Running)
    && (Sighted(s) ==> Sighted(t))
    && (Storing(t) ==> Storing(s) || s.phys == RunsAgent)
    && (s.status.Some? ==> t.status.Some?)
    && (t.status.Some? ==>
          var told := t.status.value.v.agentAccessible;
          told == (s.phys == RunsAgent) || (s.status.Some? && told == s.status.value.v.agentAccessible))
  }

  lemma {:induction false} AgentLooks(s: Sys, connected: bool)
    requires Fixed(s) && connected == (s.phys == RunsAgent)
    ensures Looked(s, AgentEventMove(s, connected).s) && AgentEventMove(s, connected).facts == []
  {
  }

  lemma {:induction false} PollLooks(s: Sys, calls: PollCalls)
    requires Fixed(s) && TruthfulPoll(s, calls)
    ensures Looked(s, PollMove(s, calls).s)
  {
    hide PollSingle, TruthfulPoll;
    PollSees(s, Values(s.bmc), calls);
  }

  lemma {:induction false} PXEBootLooks(s: Sys, calls: PollCalls)
    requires Fixed(s) && TruthfulPoll(s, calls)
    ensures Looked(s, PXEBootedMove(s, calls).s)
  {
    hide PollSingle, TruthfulPoll;
    PollSees(s, Values(s.bmc), calls);
  }

  /** Looking at a machine makes no calls that count. */
  lemma {:induction false} SightOutcome(w: World, s: Sys, e: Event)
    requires Fixed(s) && (e.AgentEvent? || e.Poll? || e.PXEBooted?) && Truthful(w, s, e, true)
    ensures Looked(s, MoveOf(w, s, e).s) && forall f <- MoveOf(w, s, e).facts :: !Reboots(f) && !Switches(f)
  {
    hide AgentEventMove, PollMove, PXEBootedMove, Looked, TruthfulPoll;
    if e.AgentEvent? {
      AgentLooks(s, e.connected);
    } else {
      HarmlessCalls(w, s, e);
      if e.Poll? { PollLooks(s, e.pollCalls); } else { PXEBootLooks(s, e.pollCalls); }
    }
  }

  lemma {:induction false} SpendSight(w: World, s: Sys, e: Event)
    requires Inv(w, s) && (e.AgentEvent? || e.Poll? || e.PXEBooted?) && Truthful(w, s, e, true)
    ensures Spends(w, s, MoveOf(w, s, e))
  {
    SightOutcome(w, s, e);
    hide MoveOf, Truthful, Count, RequiredBootMode, RequiresPowerOn, RequiresWipe, HasBMC, StoreUserProvided;
    CountNone(MoveOf(w, s, e).facts, Reboots);
    CountNone(MoveOf(w, s, e).facts, Switches);
  }

  /** Configuring the BMC of a machine that is off takes the operator, and settles the matter. */
  lemma {:induction false} ConfiguresOnce(cfg: Config, im: InfraMachine, ms: Option<MachineStatusFields>,
                                          user: Option<Option<UserConfig>>,
                                          bmc: BMCConfigurationFields, calls: BMCCalls)
    requires calls.reported.AgentError? && !calls.reported.internal
    requires BMCTransform(cfg, im, ms, user, bmc, calls).verdict == Saved
    ensures var r := BMCTransform(cfg, im, ms, user, bmc, calls);
      && ms.Some? && ms.value.agentAccessible && user.Some? && user.value.Some?
      && r.bmc == StoreUserProvided(user.value.value, bmc) && StoreUserProvided(user.value.value, r.bmc) == r.bmc
  {
  }

  /** What a BMC configuration reconcile changes. */
  lemma {:induction false} BMCRan(w: World, s: Sys, e: Event) returns (r: BMCResult)
    requires Fixed(s) && e.RunBMC?
    ensures r == BMCTransform(w.cfg, s.omni.value, Values(s.status), s.user, Held(s), e.bmcCalls)
    ensures var t := MoveOf(w, s, e).s;
      && t.omni == s.omni && t.user == s.user && t.wipe == s.wipe && t.status == s.status && t.reboot == s.reboot
      && t.phys == s.phys && t.seen == s.seen && t.power == s.power
      && if r.verdict == Saved then t.bmc.Some? && t.bmc.value.phase == Running && t.bmc.value.v == r.bmc
         else t.bmc == s.bmc
    ensures Count(MoveOf(w, s, e).facts, Reboots) == 0 && Count(MoveOf(w, s, e).facts, Switches) == 0
  {
    hide BMCTransform, Count;
    r := BMCTransform(w.cfg, s.omni.value, Values(s.status), s.user, Held(s), e.bmcCalls);
    HarmlessCalls(w, s, e);
    CountNone(MoveOf(w, s, e).facts, Reboots);
    CountNone(MoveOf(w, s, e).facts, Switches);
  }

  /** Configuring costs nothing. */
  lemma {:induction false} ConfiguringPays(w: World, s: Sys, t: Sys)
    requires Inv(w, s) && Fixed(t) && t.omni == s.omni && t.wipe == s.wipe
    requires t.status == s.status && t.reboot == s.reboot
    requires t.phys == s.phys && t.seen == s.seen && (s.bmc.Some? ==> t.bmc.Some?)
    requires s.phys == Off ==> (Reachable(t) ==> Reachable(s))
    ensures Inv(w, t) && RebootsLeft(w, t) <= RebootsLeft(w, s) && SwitchesLeft(t) == SwitchesLeft(s)
  {
    hide RequiredBootMode, RequiresPowerOn, RequiresWipe, Reachable;
  }

  lemma {:induction false} SpendBMC(w: World, s: Sys, e: Event)
    requires Inv(w, s) && e.RunBMC? && Truthful(w, s, e, true)
    ensures Spends(w, s, MoveOf(w, s, e))
  {
    hide MoveOf, BMCTransform, Count, RebootsLeft, SwitchesLeft, Unwakeable, HasBMC, StoreUserProvided;
    var r := BMCRan(w, s, e);
    if s.phys != RunsAgent && r.verdict == Saved {
      ConfiguresOnce(w.cfg, s.omni.value, Values(s.status), s.user, Held(s), e.bmcCalls);
    }
    ConfiguringPays(w, s, MoveOf(w, s, e).s);
  }

  lemma {:induction false} SpendOther(w: World, s: Sys, e: Event)
    requires Inv(w, s) && Truthful(w, s, e, true)
    requires e.Tick? || e.RemoveFinalizers? || e.TearDownStatus? || e.TearDownBMC? || e.DropOutputs?
    ensures Spends(w, s, MoveOf(w, s, e))
  {
    hide Count, RequiredBootMode, RequiresPowerOn, RequiresWipe, HasBMC, StoreUserProvided;
    CountNone([], Reboots);
    CountNone([], Switches);
  }

  lemma {:induction false} SpendStep(w: World, s: Sys, e: Event)
    requires Inv(w, s) && Truthful(w, s, e, true)
    ensures Spends(w, s, MoveOf(w, s, e))
  {
    hide MoveOf;
    if e.RunReboot? { SpendReboot(w, s, e); }
    else if e.RunPower? { SpendPower(w, s, e); }
    else if e.RunBMC? { SpendBMC(w, s, e); }
    else if e.RunWipe? { SpendWipe(w, s, e); }
    else if e.BootUp? { SpendBoot(w, s); }
    else if e.AgentEvent? || e.Poll? || e.PXEBooted? { SpendSight(w, s, e); }
    else { SpendOther(w, s, e); }
  }

  function RebootsIn(w: World, s: Sys, es: seq<Event>): int {
    Count(Run(w, s, es).log, Reboots) - Count(s.log, Reboots)
  }

  function SwitchesIn(w: World, s: Sys, es: seq<Event>): int {
    Count(Run(w, s, es).log, Switches) - Count(s.log, Switches)
  }

  lemma {:induction false} SpendLogged(w: World, s: Sys, e: Event)
    requires Inv(w, s) && Truthful(w, s, e, true)
    ensures var t := Step(w, s, e);
      && Inv(w, t)
      && Count(t.log, Reboots) + RebootsLeft(w, t) <= Count(s.log, Reboots) + RebootsLeft(w, s)
      && Count(t.log, Switches) + SwitchesLeft(t) <= Count(s.log, Switches) + SwitchesLeft(s)
  {
    hide Count, MoveOf, Truthful, RequiredBootMode, RequiresWipe, RequiresPowerOn;
    SpendStep(w, s, e);
    assert MoveOf(w, s, e).s.log == s.log by { Frame(w, s, e); }
    CountAppend(s.log, MoveOf(w, s, e).facts, Reboots);
    CountAppend(s.log, MoveOf(w, s, e).facts, Switches);
  }

  lemma {:induction false} SpendRun(w: World, s: Sys, es: seq<Event>)
    requires Inv(w, s) && TruthfulRun(w, s, es, true)
    ensures Inv(w, Run(w, s, es))
    ensures RebootsIn(w, s, es) + RebootsLeft(w, Run(w, s, es)) <= RebootsLeft(w, s) <= 2
    ensures SwitchesIn(w, s, es) + SwitchesLeft(Run(w, s, es)) <= SwitchesLeft(s) <= 3
    decreases |es|
  {
    if es != [] {
      hide Count, Fixed, Sighted, Unwakeable, RebootsLeft, SwitchesLeft, Step, Truthful;
      SpendRun(w, s, es[..|es| - 1]);
      SpendLogged(w, Run(w, s, es[..|es| - 1]), es[|es| - 1]);
    }
  }

  // ------------------------------------------------------------------------- exactly when

  const GOOD_ENV := ClientEnv(true, true, true, true)

  /** The wait after which the cooldown lets a reboot through. */
  function Wait(w: World, s: Sys): nat {
    var missing := w.cfg.minRebootInterval + LastPowerOn(s.power, Some(OrElse(s.reboot, NO_REBOOT_STATUS))) - s.now;
    if missing > 0 then missing else 0
  }

  lemma {:induction false} WaitCools(w: World, s: Sys)
    requires w.cfg.minRebootInterval < TWO63
    ensures CooledDown(w, s.(now := s.now + Wait(w, s)))
  {
  }

  /** The reboot loop finds a reason to reboot in what it has been told, and has a BMC to do it over. */
  predicate Looping(w: World, s: Sys) {
    && Fixed(s) && s.bmc.Some? && HasBMC(s.bmc.value.v) && s.status.Some?
    && Needed(s) && ModeMismatch(Mode(w, s), s.status.value.v.agentAccessible)
  }

  /** And what it has been told is true, and will stay so. */
  predicate Stuck(w: World, s: Sys) { Looping(w, s) && !w.cycleWakes && s.phys == Off && s.seen }

  function Cycle(s: Sys): Event { RunReboot(RebootCalls(GOOD_ENV, true, true, s.phys == RunsAgent), 0, 0) }

  lemma {:induction false} CycleReboots(w: World, s: Sys)
    requires Looping(w, s) && CooledDown(w, s)
    ensures var r := RebootOf(w, s, Cycle(s)); |r.acts| > 0 && r.acts[|r.acts| - 1].RebootCall? && r.verdict == Saved
  {
    AnyConfiguration(s.omni, s.bmc.value.v, NO_BMC.f, s.wipe, w.cfg.alwaysNetboot);
    hide RequiredBootMode, TimeSinceLastPowerOn, RequiresPowerOn;
  }

  /** Nothing the loop has been told changes by rebooting: so it reboots again. A machine that is off, and
      stays off, does not answer, so that is even true. */
  lemma {:induction false} CycleKeepsLooping(w: World, s: Sys)
    requires Looping(w, s) && CooledDown(w, s)
    ensures Looping(w, MoveOf(w, s, Cycle(s)).s) && Count(MoveOf(w, s, Cycle(s)).facts, Reboots) == 1
    ensures Stuck(w, s) ==> Stuck(w, MoveOf(w, s, Cycle(s)).s)
  {
    CycleReboots(w, s);
    RebootShape(w, s, Cycle(s));
    hide MoveOf, RebootOf, RequiredBootMode, RequiresPowerOn, HasBMC, Count;
    var r := RebootOf(w, s, Cycle(s));
    CountPair(FinalizersAdded(s.status.Some?, true), Did(RebootLoop, s.now, r.acts, r.verdict), Reboots);
  }

  lemma {:induction false} RunLast(w: World, s: Sys, es: seq<Event>, e: Event, timely: bool)
    ensures Run(w, s, es + [e]) == Step(w, Run(w, s, es), e)
    ensures TruthfulRun(w, s, es + [e], timely) <==>
            TruthfulRun(w, s, es, timely) && Truthful(w, Run(w, s, es), e, timely)
  {
    hide Truthful, Step;
    assert (es + [e])[..|es|] == es;
  }

  lemma {:induction false} WaitAndCycle(w: World, s: Sys, timely: bool)
    requires Looping(w, s) && (timely ==> Stuck(w, s)) && w.cfg.minRebootInterval < TWO63
    ensures var wait := Tick(Wait(w, s));
            var u := Step(w, s, wait);
            var t := Step(w, u, Cycle(u));
      && Truthful(w, s, wait, timely) && Truthful(w, u, Cycle(u), timely)
      && Looping(w, t) && (timely ==> Stuck(w, t)) && Count(t.log, Reboots) == Count(s.log, Reboots) + 1
  {
    hide CooledDown, Count;
    var wait := Tick(Wait(w, s));
    var u := Step(w, s, wait);
    assert u == s.(now := s.now + Wait(w, s)) by { assert s.log + [] == s.log; }
    WaitCools(w, s);
    CycleKeepsLooping(w, u);
    hide RunRebootMove;
    assert MoveOf(w, u, Cycle(u)).s.log == u.log by { Frame(w, u, Cycle(u)); }
    CountAppend(u.log, MoveOf(w, u, Cycle(u)).facts, Reboots);
  }

  lemma {:induction false} RebootForever(w: World, s: Sys, base: seq<Event>, n: nat, timely: bool)
    returns (es: seq<Event>)
    requires TruthfulRun(w, s, base, timely) && Looping(w, Run(w, s, base)) && w.cfg.minRebootInterval < TWO63
    requires timely ==> Stuck(w, Run(w, s, base))
    ensures TruthfulRun(w, s, es, timely) && Looping(w, Run(w, s, es)) && (timely ==> Stuck(w, Run(w, s, es)))
    ensures Count(Run(w, s, es).log, Reboots) == Count(Run(w, s, base).log, Reboots) + n
  {
    if n == 0 {
      es := base;
    } else {
      hide Run, TruthfulRun, Truthful, Looping, Stuck, Step, Count;
      var before := RebootForever(w, s, base, n - 1, timely);
      var t := Run(w, s, before);
      var wait := Tick(Wait(w, t));
      WaitAndCycle(w, t, timely);
      es := before + [wait] + [Cycle(Step(w, t, wait))];
      RunLast(w, s, before, wait, timely);
      RunLast(w, s, before + [wait], Cycle(Step(w, t, wait)), timely);
    }
  }

  ghost predicate CanReboot(w: World, s: Sys, n: nat, timely: bool) {
    exists es :: TruthfulRun(w, s, es, timely) && RebootsIn(w, s, es) == n
  }

  /** However the loops interleave, two reboots suffice: unless the machine is off, needed in the
      agent, and not woken by a power cycle. Then there are runs with any number of them. */
  lemma {:induction false} ConvergesUnlessUnwakeable(w: World, s: Sys)
    requires Fixed(s) && Sighted(s) && w.cfg.minRebootInterval < TWO63
    ensures (forall es :: TruthfulRun(w, s, es, true) ==> RebootsIn(w, s, es) <= 2) <==> !Unwakeable(w, s)
    ensures !Unwakeable(w, s) ==> forall es :: TruthfulRun(w, s, es, true) ==> SwitchesIn(w, s, es) <= 3
    ensures Unwakeable(w, s) ==> forall n: nat :: CanReboot(w, s, n, true)
  {
    hide TruthfulRun, RebootsIn, SwitchesIn, Unwakeable;
    if Unwakeable(w, s) {
      forall n: nat
        ensures CanReboot(w, s, n, true)
      {
        var es := EndlessReboots(w, s, n);
      }
      var es := EndlessReboots(w, s, 3);
    } else {
      forall es | TruthfulRun(w, s, es, true)
        ensures RebootsIn(w, s, es) <= 2 && SwitchesIn(w, s, es) <= 3
      {
        SpendRun(w, s, es);
      }
    }
  }

  const UNREACHABLE := BMCCalls(AgentError(false, false), None, false, None)

  /** The operator's configuration is stored, if it is not yet; a first look is taken, in case the machine
      has not been looked at; and then there are reboots without end. */
  lemma {:induction false} EndlessReboots(w: World, s: Sys, n: nat) returns (es: seq<Event>)
    requires Fixed(s) && Sighted(s) && Unwakeable(w, s) && w.cfg.minRebootInterval < TWO63
    ensures TruthfulRun(w, s, es, true) && RebootsIn(w, s, es) == n
  {
    var base, t := StoreAndLook(w, s);
    es := RebootForever(w, s, base, n, true);
  }

  lemma {:induction false} StoreAndLook(w: World, s: Sys) returns (base: seq<Event>, t: Sys)
    requires Fixed(s) && Unwakeable(w, s)
    ensures TruthfulRun(w, s, base, true) && t == Run(w, s, base) && Stuck(w, t) && t.log == s.log
  {
    var look := AgentEvent(false);
    assert Run(w, s, []) == s && TruthfulRun(w, s, [], true);
    if s.bmc.Some? && HasBMC(s.bmc.value.v) {
      base := [] + [look];
      RunLast(w, s, [], look, true);
      t := LookIfOff(w, s);
    } else {
      var store := RunBMC(UNREACHABLE, false);
      var stored := StoreNow(w, s);
      base := [] + [store] + [look];
      RunLast(w, s, [], store, true);
      RunLast(w, s, [] + [store], look, true);
      t := LookIfOff(w, stored);
    }
  }

  lemma {:induction false} LookIfOff(w: World, s: Sys) returns (t: Sys)
    requires Fixed(s) && Unwakeable(w, s) && s.bmc.Some? && HasBMC(s.bmc.value.v)
    ensures t == Step(w, s, AgentEvent(false)) && Stuck(w, t) && t.log == s.log
  {
    hide RequiredBootMode;
    t := Step(w, s, AgentEvent(false));
    assert s.log + [] == s.log;
  }

  lemma {:induction false} StoreNow(w: World, s: Sys) returns (t: Sys)
    requires Fixed(s) && Unwakeable(w, s) && !(s.bmc.Some? && HasBMC(s.bmc.value.v))
    ensures t == Step(w, s, RunBMC(UNREACHABLE, false)) && Fixed(t) && Unwakeable(w, t) && t.bmc.Some? &&
            HasBMC(t.bmc.value.v) && t.log == s.log
  {
    hide RequiredBootMode;
    t := Step(w, s, RunBMC(UNREACHABLE, false));
    assert s.log + [] == s.log;
  }

  // ------------------------------------------------------------------------- where it settles

  /** None of the three loops that act on a machine has anything left to do. */
  ghost predicate AtRest(w: World, s: Sys, wiped: bool, power: PowerCalls, reboot: RebootCalls)
    requires Fixed(s)
  {
    var im := s.omni.value;
    var rb := OrElse(s.reboot, NO_REBOOT_STATUS);
    && WipeTransform(im, Values(s.status), OrElse(s.wipe, NO_WIPE_STATUS.f), wiped).acts == []
    && RebootTransform(w.cfg, im, Values(s.bmc), s.wipe, s.power, Values(s.status), rb, reboot, s.now, s.now).acts == []
    && forall a <- PowerTransform(w.cfg, im, Values(s.bmc), s.wipe, s.reboot, OrElse(s.power, NO_POWER_OPERATION),
                                  power, s.now, s.now).acts ::
         !a.PowerOnCall? && !a.PowerOffCall?
  }

  /** Omni's power-off request holds, or will as soon as it is acknowledged. */
  predicate HeldOff(s: Sys) requires s.omni.Some? {
    IsPowerOffActive(s.omni, Some(Acknowledge(s.omni.value, OrElse(s.power, NO_POWER_OPERATION))))
  }

  /** Where Omni wants the machine: wiped, rebooted as asked, running what is required if it is needed,
      and otherwise powered as preferred. */
  predicate Goal(w: World, s: Sys)
    requires Fixed(s)
  {
    var im := s.omni.value;
    && s.wipe.Some? && s.wipe.value.initialWipeDone && s.wipe.value.lastWipeId == im.wipeId
    && OrElse(s.reboot, NO_REBOOT_STATUS).lastRebootId == im.requestedRebootId
    && (Needed(s) && Mode(w, s) == AgentPXE ==> s.phys == RunsAgent)
    && (Needed(s) && Mode(w, s) == TalosPXE ==> s.phys != RunsAgent)
    && (Needed(s) || im.preferred == PreferOn ==> s.phys != Off || HeldOff(s))
    && (!Needed(s) && im.preferred == PreferOff ==> s.phys == Off)
  }

  lemma {:induction false} WipeRests(im: InfraMachine, ms: MachineStatusFields, wipe: Option<WipeStatusFields>,
                                     ok: bool)
    requires Admitted(im)
    ensures WipeTransform(im, Some(ms), OrElse(wipe, NO_WIPE_STATUS.f), ok).acts == [] <==>
            !RequiresWipe(Some(im), wipe) || !ms.agentAccessible
  {
  }

  lemma {:induction false} RebootRests(cfg: Config, im: InfraMachine, bmc: BMCConfigurationFields,
                                       wipe: Option<WipeStatusFields>,
                                       op: Option<PowerOperation>, ms: MachineStatusFields, rb: RebootStatus,
                                       calls: RebootCalls, now: int)
    requires Admitted(im) && TimeSinceLastPowerOn(now, op, Some(rb)) >= cfg.minRebootInterval
    requires bmc.manual.None? && GetClient(bmc, calls.env).Some?
    ensures RebootTransform(cfg, im, Some(bmc), wipe, op, Some(ms), rb, calls, now, now).acts == [] <==>
            rb.lastRebootId == im.requestedRebootId &&
            !(RequiresPowerOn(im, wipe) && ModeMismatch(RequiredBootMode(Some(im), Some(bmc), wipe, cfg.alwaysNetboot),
                                                        ms.agentAccessible))
  {
  }

  lemma {:induction false} PowerRests(cfg: Config, im: InfraMachine, bmc: BMCConfigurationFields,
                                      wipe: Option<WipeStatusFields>,
                                      rb: Option<RebootStatus>, op: PowerOperation, calls: PowerCalls, now: int,
                                      stamp: int)
    requires Admitted(im) && TimeSinceLastPowerOn(now, Some(op), rb) >= cfg.minRebootInterval
    requires bmc.manual.None? && GetClient(bmc, calls.env).Some? && calls.isPoweredOn.Some? && calls.setPXE
    ensures var needed, on := RequiresPowerOn(im, wipe), calls.isPoweredOn.value;
      (forall a <- PowerTransform(cfg, im, Some(bmc), wipe, rb, op, calls, now, stamp).acts ::
         !a.PowerOnCall? && !a.PowerOffCall?) <==>
      && (needed || im.preferred == PreferOn ==> on || IsPowerOffActive(Some(im), Some(Acknowledge(im, op))))
      && (!needed && im.preferred == PreferOff ==> !on)
  {
    hide RequiredBootMode, RequiresPowerOn, IsPowerOffActive;
    var acts := PowerTransform(cfg, im, Some(bmc), wipe, rb, op, calls, now, stamp).acts;
    assert acts[|acts| - 1] in acts;
  }

  /** A machine with a BMC, looked at and past its cooldown, is at rest exactly where Omni wants it. */
  lemma {:induction false} RestIsGoal(w: World, s: Sys, wiped: bool, power: PowerCalls, reboot: RebootCalls)
    requires Fixed(s) && Sighted(s) && s.seen && CooledDown(w, s) && s.bmc.Some? && !IsManuallyPowered(Values(s.bmc))
    requires TruthfulPower(s, power) && GetClient(s.bmc.value.v, power.env).Some?
    requires TruthfulReboot(s, reboot) && GetClient(s.bmc.value.v, reboot.env).Some?
    ensures AtRest(w, s, wiped, power, reboot) <==> Goal(w, s)
  {
    var im, rb, op := s.omni.value, OrElse(s.reboot, NO_REBOOT_STATUS), OrElse(s.power, NO_POWER_OPERATION);
    assert TimeSinceLastPowerOn(s.now, Some(op), s.reboot) >= w.cfg.minRebootInterval;
    AnyConfiguration(s.omni, s.bmc.value.v, NO_BMC.f, s.wipe, w.cfg.alwaysNetboot);
    WipeRests(im, s.status.value.v, s.wipe, wiped);
    RebootRests(w.cfg, im, s.bmc.value.v, s.wipe, s.power, s.status.value.v, rb, reboot, s.now);
    PowerRests(w.cfg, im, s.bmc.value.v, s.wipe, s.reboot, op, power, s.now, s.now);
    hide TimeSinceLastPowerOn, PowerTransform, RebootTransform, WipeTransform, Acknowledge, IsPowerOffActive;
  }

  /** A manually powered machine is at rest exactly when its agent, the only channel to it, has nothing left to
      do: nothing is asked of a machine that does not run the agent, and one that does has been wiped, has
      been rebooted as asked, and is not needed in Talos. */
  lemma {:induction false} ManualRest(w: World, s: Sys, wiped: bool, power: PowerCalls, reboot: RebootCalls)
    requires Fixed(s) && Sighted(s) && s.seen && CooledDown(w, s) && IsManuallyPowered(Values(s.bmc))
    ensures AtRest(w, s, wiped, power, reboot) <==>
            (s.phys == RunsAgent ==> !NeedsWipe(s) && !RebootPending(s) && !(Needed(s) && Mode(w, s) == TalosPXE))
  {
    AnyConfiguration(s.omni, s.bmc.value.v, NO_BMC.f, s.wipe, w.cfg.alwaysNetboot);
    WipeRests(s.omni.value, s.status.value.v, s.wipe, wiped);
    hide RequiredBootMode, TimeSinceLastPowerOn, WipeTransform, RequiresPowerOn;
  }

  // ------------------------------------------------------------------------- and stays

  predicate AtGoal(w: World, s: Sys) { Fixed(s) && Sighted(s) && s.bmc.Some? && Goal(w, s) }

  lemma {:induction false} GoalSpendsNothing(w: World, s: Sys)
    requires AtGoal(w, s)
    ensures Inv(w, s) && RebootsLeft(w, s) == 0
    ensures SwitchesLeft(s) == 0 || (s.phys == Off && HeldOff(s))
  {
    hide RequiredBootMode, RequiresPowerOn, HasBMC, IsPowerOffActive, StoreUserProvided;
  }

  /** Under a request that holds, or will as soon as it is acknowledged, nothing is powered on. */
  lemma {:induction false} HeldTransform(cfg: Config, im: InfraMachine, bmc: Option<BMCConfigurationFields>,
                                         wipe: Option<WipeStatusFields>, rb: Option<RebootStatus>, op: PowerOperation,
                                         calls: PowerCalls, now: int, stamp: int)
    ensures var r := PowerTransform(cfg, im, bmc, wipe, rb, op, calls, now, stamp);
      && (IsPowerOffActive(Some(im), Some(Acknowledge(im, op))) ==> forall a <- r.acts :: !a.PowerOnCall?)
      && (r.verdict == Saved ==>
            IsPowerOffActive(Some(im), Some(Acknowledge(im, r.op))) ==
              IsPowerOffActive(Some(im), Some(Acknowledge(im, op))))
  {
    hide RequiredBootMode, RequiresPowerOn, GetClient;
  }

  lemma {:induction false} GoalThroughReboot(w: World, s: Sys, e: Event)
    requires AtGoal(w, s) && e.RunReboot? && Truthful(w, s, e, true)
    ensures AtGoal(w, MoveOf(w, s, e).s)
  {
    GoalSpendsNothing(w, s);
    var r := RebootReason(w, s, e);
    assert r.acts == [];
    hide MoveOf, RebootOf, RequiredBootMode, RequiresPowerOn, IsPowerOffActive;
    RebootRan(w, s, e, r);
    assert MoveOf(w, s, e).s.power == s.power by { Frame(w, s, e); }
  }

  /** Where Omni wants it, a machine is not switched. */
  lemma {:induction false} GoalSwitchesNothing(w: World, s: Sys, e: Event) returns (r: PowerResult)
    requires AtGoal(w, s) && e.RunPower? && Truthful(w, s, e, true)
    ensures r == PowerOf(w, s, e) && (r.acts == [] || r.acts[|r.acts| - 1].IsPoweredOnCall?)
    ensures Physically(w, s, r.acts) == s
    ensures r.verdict == Saved ==>
              IsPowerOffActive(s.omni, Some(Acknowledge(s.omni.value, r.op))) == HeldOff(s)
  {
    hide PowerTransform, MoveOf, RequiredBootMode, RequiresPowerOn, IsPowerOffActive, Acknowledge, Physically;
    r := PowerReason(w, s, e);
    HeldTransform(w.cfg, s.omni.value, Values(s.bmc), s.wipe, s.reboot, OrElse(s.power, NO_POWER_OPERATION),
                  e.powerCalls, s.now, s.now + e.callDelay + e.stampDelay);
    assert r.acts != [] ==> r.acts[|r.acts| - 1] in r.acts;
  }

  lemma {:induction false} GoalThroughPower(w: World, s: Sys, e: Event)
    requires AtGoal(w, s) && e.RunPower? && Truthful(w, s, e, true)
    ensures AtGoal(w, MoveOf(w, s, e).s) && Count(MoveOf(w, s, e).facts, Switches) == 0
  {
    hide MoveOf, PowerOf, Physically, Count, RequiredBootMode, RequiresPowerOn, IsPowerOffActive, Acknowledge;
    var r := GoalSwitchesNothing(w, s, e);
    PowerRan(w, s, e, r);
    CountAtMostOne(MoveOf(w, s, e).facts, Switches);
    assert MoveOf(w, s, e).s.power == (if r.verdict == Saved then Some(r.op) else s.power) by { PowerShape(w, s, e); }
  }

  lemma {:induction false} GoalThroughBoot(w: World, s: Sys)
    requires AtGoal(w, s)
    ensures AtGoal(w, MoveOf(w, s, BootUp).s)
  {
    hide RequiredBootMode, RequiresPowerOn, IsPowerOffActive;
    if s.phys == Booting {
      BootFits(w, s);
    }
  }

  lemma {:induction false} GoalThroughSight(w: World, s: Sys, e: Event)
    requires AtGoal(w, s) && (e.AgentEvent? || e.Poll? || e.PXEBooted?) && Truthful(w, s, e, true)
    ensures AtGoal(w, MoveOf(w, s, e).s)
  {
    SightOutcome(w, s, e);
    hide MoveOf, Truthful, RequiredBootMode, RequiresPowerOn, IsPowerOffActive;
  }

  lemma {:induction false} GoalThroughOther(w: World, s: Sys, e: Event)
    requires AtGoal(w, s) && Truthful(w, s, e, true)
    requires !e.RunReboot? && !e.RunPower? && !e.BootUp? && !e.AgentEvent? && !e.Poll? && !e.PXEBooted?
    ensures AtGoal(w, MoveOf(w, s, e).s)
  {
    hide RequiredBootMode, RequiresPowerOn, IsPowerOffActive, BMCTransform;
  }

  lemma {:induction false} OnlyPowerSwitches(w: World, s: Sys, e: Event)
    requires Fixed(s) && Sighted(s) && !e.RunPower? && Truthful(w, s, e, true)
    ensures Count(MoveOf(w, s, e).facts, Switches) == 0
  {
    hide MoveOf, RebootOf, Count;
    if e.RunReboot? {
      var r := RebootReason(w, s, e);
      RebootRan(w, s, e, r);
    } else {
      if e.RunBMC? || e.RunWipe? || e.Poll? || e.PXEBooted? {
        HarmlessCalls(w, s, e);
      } else {
        Frame(w, s, e);
        RemovesNothing(w, s, e);
      }
      CountNone(MoveOf(w, s, e).facts, Switches);
    }
  }

  /** The record stays, so there is no farewell. */
  lemma {:induction false} RemovesNothing(w: World, s: Sys, e: Event)
    requires Fixed(s)
    ensures e.RemoveFinalizers? ==> MoveOf(w, s, e).facts == []
  {
  }

  lemma {:induction false} GoalMove(w: World, s: Sys, e: Event)
    requires AtGoal(w, s) && Truthful(w, s, e, true)
    ensures AtGoal(w, MoveOf(w, s, e).s)
    ensures Count(MoveOf(w, s, e).facts, Reboots) == 0 && Count(MoveOf(w, s, e).facts, Switches) == 0
  {
    hide MoveOf, Count, Goal, Unwakeable, RebootsLeft, SwitchesLeft;
    GoalSpendsNothing(w, s);
    SpendStep(w, s, e);
    if e.RunPower? {
      GoalThroughPower(w, s, e);
    } else {
      OnlyPowerSwitches(w, s, e);
      if e.RunReboot? { GoalThroughReboot(w, s, e); }
      else if e.BootUp? { GoalThroughBoot(w, s); }
      else if e.AgentEvent? || e.Poll? || e.PXEBooted? { GoalThroughSight(w, s, e); }
      else { GoalThroughOther(w, s, e); }
    }
  }

  lemma {:induction false} GoalStep(w: World, s: Sys, e: Event)
    requires AtGoal(w, s) && Truthful(w, s, e, true)
    ensures var t := Step(w, s, e);
      && AtGoal(w, t) && Count(t.log, Reboots) == Count(s.log, Reboots)
      && Count(t.log, Switches) == Count(s.log, Switches)
  {
    hide MoveOf, Truthful, Count, RequiredBootMode, RequiresPowerOn, RequiresWipe, IsPowerOffActive;
    GoalMove(w, s, e);
    assert MoveOf(w, s, e).s.log == s.log by { Frame(w, s, e); }
    CountAppend(s.log, MoveOf(w, s, e).facts, Reboots);
    CountAppend(s.log, MoveOf(w, s, e).facts, Switches);
  }

  /** Where Omni wants it, a machine stays: no truthful run from there reboots it or switches its power again,
      held off or not, and every state of the run is where Omni wants it. */
  lemma {:induction false} GoalLasts(w: World, s: Sys, es: seq<Event>)
    requires AtGoal(w, s) && TruthfulRun(w, s, es, true)
    ensures AtGoal(w, Run(w, s, es)) && RebootsIn(w, s, es) == 0 && SwitchesIn(w, s, es) == 0
    decreases |es|
  {
    if es != [] {
      hide Count, AtGoal, Step, Truthful;
      GoalLasts(w, s, es[..|es| - 1]);
      GoalStep(w, Run(w, s, es[..|es| - 1]), es[|es| - 1]);
    }
  }
}
