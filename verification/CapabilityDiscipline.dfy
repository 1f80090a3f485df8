/** What the provider asks of a BMC client over whole runs: nothing the client cannot do, and no boot
    that should come from the network without the network boot having been set first. */
module CapabilityDiscipline {
  import opened Wire
  import opened Specs
  import opened Machine
  import opened Reconcile
  import opened System

  /** The call is within what its client can do. Agent calls need no client. */
  predicate Capable(a: Action) {
    match a
    case IsPoweredOnCall(c) => CapabilitiesOf(c).powerState
    case SetPXEBootOnceCall(c, _) => CapabilitiesOf(c).bootDeviceControl
    case PowerOnCall(c, _, _) => CapabilitiesOf(c).powerControl
    case PowerOffCall(c, _) => CapabilitiesOf(c).powerControl
    case RebootCall(c, _, _) => CapabilitiesOf(c).reboot
    case _ => true
  }

  /** The client whose machine this call starts or restarts, if it does. */
  function Starts(a: Action): Option<Client> {
    match a
    case PowerOnCall(c, _, _) => Some(c)
    case RebootCall(c, _, _) => Some(c)
    case _ => None
  }

  predicate WantsPXE(a: Action) { (a.PowerOnCall? || a.RebootCall?) && a.needsPXE }

  /** A call within its client's means, and if it starts the machine from the network, right after the
      same client took the network boot. */
  predicate DisciplinedAt(acts: seq<Action>, i: nat)
    requires i < |acts|
  {
    Capable(acts[i]) && (WantsPXE(acts[i]) ==> i > 0 && acts[i - 1] == SetPXEBootOnceCall(acts[i].client, true))
  }

  /** Every call of one reconcile. */
  ghost predicate Disciplined(acts: seq<Action>) {
    forall i :: 0 <= i < |acts| ==> DisciplinedAt(acts, i)
  }

  /** Machines are started from the network exactly when their required boot mode says so. */
  ghost predicate StartsAs(acts: seq<Action>, mode: BootMode) {
    forall a <- acts :: Starts(a).Some? ==> (WantsPXE(a) <==> RequiresPXEBoot(mode))
  }

  lemma {:induction false} One(a: Action)
    requires Capable(a) && !WantsPXE(a)
    ensures Disciplined([a])
  {
  }

  lemma {:induction false} More(acts: seq<Action>, a: Action)
    requires Disciplined(acts) && Capable(a)
    requires WantsPXE(a) ==> acts != [] && acts[|acts| - 1] == SetPXEBootOnceCall(a.client, true)
    ensures Disciplined(acts + [a])
  {
    hide Capable;
    var longer := acts + [a];
    forall i | 0 <= i < |longer|
      ensures DisciplinedAt(longer, i)
    {
      assert i < |acts| ==> DisciplinedAt(acts, i);
    }
  }

  lemma {:induction false} AskedIsDisciplined(c: Client, mode: BootMode)
    requires CapabilitiesOf(c) == FULL
    ensures Disciplined([IsPoweredOnCall(c)]) && StartsAs([IsPoweredOnCall(c)], mode)
  {
    One(IsPoweredOnCall(c));
  }

  lemma {:induction false} SwitchIsDisciplined(cfg: Config, im: InfraMachine, bmc: BMCConfigurationFields,
                                               wipe: Option<WipeStatusFields>,
                                               rb: Option<RebootStatus>, op: PowerOperation, calls: PowerCalls,
                                               now: int, stamp: int, c: Client)
    requires calls.isPoweredOn.Some? && CapabilitiesOf(c) == FULL
    ensures var acts := PowerSwitch(cfg, im, bmc, wipe, rb, op, calls, now, stamp, c).acts;
            Disciplined(acts) && StartsAs(acts, RequiredBootMode(Some(im), Some(bmc), wipe, cfg.alwaysNetboot))
  {
    hide RequiredBootMode, IsPowerOffActive, RequiresPowerOn, TimeSinceLastPowerOn, RequeueDelay, Disciplined;
    var pxe := RequiresPXEBoot(RequiredBootMode(Some(im), Some(bmc), wipe, cfg.alwaysNetboot));
    var asked := [IsPoweredOnCall(c)];
    One(asked[0]);
    More(asked, PowerOffCall(c, calls.powerOff));
    More(asked, SetPXEBootOnceCall(c, calls.setPXE));
    if pxe && calls.setPXE {
      More(asked + [SetPXEBootOnceCall(c, true)], PowerOnCall(c, calls.powerOn, true));
    } else if !pxe {
      More(asked, PowerOnCall(c, calls.powerOn, false));
    }
  }

  lemma {:induction false} PowerIsDisciplined(cfg: Config, im: InfraMachine, bmc: Option<BMCConfigurationFields>,
                                              wipe: Option<WipeStatusFields>,
                                              rb: Option<RebootStatus>, op: PowerOperation, calls: PowerCalls,
                                              now: int, stamp: int)
    ensures var acts := PowerTransform(cfg, im, bmc, wipe, rb, op, calls, now, stamp).acts;
            Disciplined(acts) && StartsAs(acts, RequiredBootMode(Some(im), bmc, wipe, cfg.alwaysNetboot))
  {
    var mode := RequiredBootMode(Some(im), bmc, wipe, cfg.alwaysNetboot);
    assert Disciplined([]) && StartsAs([], mode);
    hide GetClient, RequiredBootMode, PowerSwitch, Disciplined, StartsAs;
    if bmc.Some? && GetClient(bmc.value, calls.env).Some? &&
      CapabilitiesOf(GetClient(bmc.value, calls.env).value).powerState {
      var c := GetClient(bmc.value, calls.env).value;
      AskedIsDisciplined(c, mode);
      if calls.isPoweredOn.Some? {
        SwitchIsDisciplined(cfg, im, bmc.value, wipe, rb, Acknowledge(im, op), calls, now, stamp, c);
      }
    }
  }

  lemma {:induction false} ChannelIsDisciplined(bmc: BMCConfigurationFields, needsPXE: bool, agentAccessible: bool,
                                                calls: RebootCalls)
    ensures var acts := RebootOverAnyChannel(bmc, needsPXE, agentAccessible, calls).acts;
            Disciplined(acts) && forall a <- acts :: Starts(a).Some? ==> (WantsPXE(a) <==> needsPXE)
  {
    assert Disciplined([]);
    hide GetClient, Disciplined;
    if GetClient(bmc, calls.env).Some? {
      var c := GetClient(bmc, calls.env).value;
      One(AgentRebootCall(calls.agentReboot));
      if CapabilitiesOf(c).reboot {
        One(SetPXEBootOnceCall(c, calls.setPXE));
        if needsPXE && calls.setPXE {
          More([SetPXEBootOnceCall(c, true)], RebootCall(c, calls.reboot, true));
        } else if !needsPXE {
          One(RebootCall(c, calls.reboot, false));
          assert [] + [RebootCall(c, calls.reboot, false)] == [RebootCall(c, calls.reboot, false)];
        }
      }
    }
  }

  lemma {:induction false} RebootIsDisciplined(cfg: Config, im: InfraMachine, bmc: Option<BMCConfigurationFields>,
                                               wipe: Option<WipeStatusFields>, op: Option<PowerOperation>,
                                               ms: Option<MachineStatusFields>, rb: RebootStatus, calls: RebootCalls,
                                               now: int, stamp: int)
    ensures var acts := RebootTransform(cfg, im, bmc, wipe, op, ms, rb, calls, now, stamp).acts;
            Disciplined(acts) && StartsAs(acts, RequiredBootMode(Some(im), bmc, wipe, cfg.alwaysNetboot))
    ensures var acts := AttemptRebootOnRemoval(cfg, im, bmc, ms, calls, now);
            Disciplined(acts) && StartsAs(acts, AgentPXE)
  {
    hide RebootOverAnyChannel;
    if bmc.Some? && ms.Some? {
      ChannelIsDisciplined(bmc.value, RequiresPXEBoot(RequiredBootMode(Some(im), bmc, wipe, cfg.alwaysNetboot)),
                           ms.value.agentAccessible, calls);
      ChannelIsDisciplined(bmc.value, true, false, calls);
    }
  }

  /** One step, from any state whatever: the calls it makes are disciplined, and start the machine as the
      boot mode required of it at that moment, or towards the agent when it is going away. */
  ghost predicate DisciplinedIn(w: World, s: Sys, f: Fact) {
    f.Acted? ==>
      && Disciplined(f.acts)
      && StartsAs(f.acts, if f.loop == RemovalLoop then AgentPXE
                  else RequiredBootMode(s.omni, Values(s.bmc), s.wipe, w.cfg.alwaysNetboot))
  }

  lemma {:induction false} PollIsDisciplined(bmc: Option<BMCConfigurationFields>, calls: PollCalls, mode: BootMode)
    ensures Disciplined(PollSingle(bmc, calls).acts) && StartsAs(PollSingle(bmc, calls).acts, mode)
  {
    if bmc.Some? && !IsManuallyPowered(bmc) && GetClient(bmc.value, calls.env).Some? {
      CapabilitiesAllOrNothing(bmc.value, calls.env);
      One(IsPoweredOnCall(GetClient(bmc.value, calls.env).value));
    }
  }

  lemma {:induction false} RebootStepIsDisciplined(w: World, s: Sys, e: Event)
    requires e.RunReboot? || e.RemoveFinalizers?
    ensures forall f <- MoveOf(w, s, e).facts :: DisciplinedIn(w, s, f)
  {
    hide RebootTransform, AttemptRebootOnRemoval, Physically, Disciplined, StartsAs;
    if s.omni.Some? {
      RebootIsDisciplined(w.cfg, s.omni.value, Values(s.bmc), s.wipe, s.power, Values(s.status),
                          OrElse(s.reboot, NO_REBOOT_STATUS),
                          e.rebootCalls, s.now, if e.RunReboot? then s.now + e.callDelay + e.stampDelay else s.now);
    }
  }

  lemma {:induction false} PowerStepIsDisciplined(w: World, s: Sys, e: Event)
    requires e.RunPower? && s.omni.Some? && s.omni.value.phase == Running
    ensures forall f <- MoveOf(w, s, e).facts :: DisciplinedIn(w, s, f)
  {
    hide MoveOf, PowerTransform, Physically, Disciplined, StartsAs, RequiredBootMode;
    PowerShape(w, s, e);
    PowerIsDisciplined(w.cfg, s.omni.value, Values(s.bmc), s.wipe, s.reboot, OrElse(s.power, NO_POWER_OPERATION),
                       e.powerCalls, s.now, s.now + e.callDelay + e.stampDelay);
  }

  /** A reconcile of one call that needs no capability, and starts nothing. */
  lemma {:induction false} Plain(a: Action, mode: BootMode)
    requires a.SetPowerManagementCall? || a.WipeDisksCall?
    ensures Disciplined([a]) && StartsAs([a], mode)
  {
    One(a);
  }

  lemma {:induction false} OtherStepIsDisciplined(w: World, s: Sys, e: Event)
    requires e.RunBMC? || e.RunWipe? || e.Poll? || e.PXEBooted?
    ensures forall f <- MoveOf(w, s, e).facts :: DisciplinedIn(w, s, f)
  {
    hide MoveOf, PollSingle, Disciplined, StartsAs, RequiredBootMode;
    HarmlessCalls(w, s, e);
    var mode := RequiredBootMode(s.omni, Values(s.bmc), s.wipe, w.cfg.alwaysNetboot);
    var facts := MoveOf(w, s, e).facts;
    if e.Poll? || e.PXEBooted? {
      PollIsDisciplined(Values(s.bmc), e.pollCalls, mode);
      PollIsDisciplined(Values(s.bmc), e.pollCalls, AgentPXE);
    } else if facts != [] {
      assert facts[0] in facts && facts[0].acts == [facts[0].acts[0]];
      Plain(facts[0].acts[0], mode);
      Plain(facts[0].acts[0], AgentPXE);
    }
  }

  lemma {:induction false} StepIsDisciplined(w: World, s: Sys, e: Event)
    ensures forall f <- MoveOf(w, s, e).facts :: DisciplinedIn(w, s, f)
  {
    if e.RunPower? && (s.omni.None? || s.omni.value.phase == TearingDown) {
      assert MoveOf(w, s, e).facts == [];
    } else {
      hide MoveOf;
      if e.RunReboot? || e.RemoveFinalizers? { RebootStepIsDisciplined(w, s, e); }
      else if e.RunPower? { PowerStepIsDisciplined(w, s, e); }
      else if e.RunBMC? || e.RunWipe? || e.Poll? || e.PXEBooted? { OtherStepIsDisciplined(w, s, e); }
      else { Frame(w, s, e); }
    }
  }

  /** In every run: no call is made on a client that lacks the capability, and every start under a
      network boot mode follows the same client's successful network boot setting, in the same reconcile. */
  lemma {:induction false} RunsAreDisciplined(w: World, es: seq<Event>)
    ensures forall f <- Run(w, INIT, es).log :: f.Acted? ==> Disciplined(f.acts)
    decreases |es|
  {
    if es != [] {
      var n := |es| - 1;
      RunsAreDisciplined(w, es[..n]);
      StepIsDisciplined(w, Run(w, INIT, es[..n]), es[n]);
      Frame(w, Run(w, INIT, es[..n]), es[n]);
    }
  }
}
