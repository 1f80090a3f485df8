/** A power-off request of Omni's keeps the power loop from starting a machine, from its acknowledgement
    until its wipe id changes; what can start the machine nevertheless; and exactly what it takes for a
    request outlived by its wipe id to come back to life. */
module PowerOffLatch {
  import opened Wire
  import opened Specs
  import opened Machine
  import opened Reconcile
  import opened System

  predicate PowersOn(f: Fact) { f.Acted? && exists a <- f.acts :: a.PowerOnCall? }

  predicate Acknowledged(s: Sys, r: Text, w: Text) {
    s.power.Some? && s.power.value.lastPowerOffId == r && s.power.value.wipeIdAtPowerOff == w
  }

  /** Nothing is acknowledged but request `r` at wipe id `w`, and nothing else is what Omni asks for. The status
      and the record may be gone for the time being. */
  predicate Latched(s: Sys, r: Text, w: Text) {
    && (s.power.Some? ==> Acknowledged(s, r, w))
    && (s.omni.Some? ==> s.omni.value.powerOffRequestId == r && s.omni.value.wipeId == w)
  }

  predicate KeepsAsking(e: Event, r: Text, w: Text) { e.OmniPut? ==> e.im.powerOffRequestId == r && e.im.wipeId == w }

  /** Under a request that is honoured, or is once it is acknowledged, the power transform sends no power-on. */
  lemma {:induction false} LatchedTransform(cfg: Config, im: InfraMachine, bmc: Option<BMCConfigurationFields>,
                                            wipe: Option<WipeStatusFields>, rb: Option<RebootStatus>,
                                            op: PowerOperation,
                                            calls: PowerCalls, now: int, stamp: int)
    requires IsPowerOffActive(Some(im), Some(Acknowledge(im, op)))
    ensures var r := PowerTransform(cfg, im, bmc, wipe, rb, op, calls, now, stamp);
      && (forall a <- r.acts :: !a.PowerOnCall?)
      && (r.verdict == Saved ==>
            r.op.lastPowerOffId == im.powerOffRequestId && r.op.wipeIdAtPowerOff == im.wipeId)
  {
    hide RequiredBootMode, RequiresPowerOn, GetClient;
  }

  lemma {:induction false} RebootsPowerNothingOn(cfg: Config, im: InfraMachine, bmc: Option<BMCConfigurationFields>,
                                                 wipe: Option<WipeStatusFields>, op: Option<PowerOperation>,
                                                 ms: Option<MachineStatusFields>, rb: RebootStatus, calls: RebootCalls,
                                                 now: int, stamp: int)
    ensures forall a <- RebootTransform(cfg, im, bmc, wipe, op, ms, rb, calls, now, stamp).acts :: !a.PowerOnCall?
    ensures forall a <- AttemptRebootOnRemoval(cfg, im, bmc, ms, calls, now) :: !a.PowerOnCall?
  {
  }

  lemma {:induction false} RebootLoopPowersNothingOn(w: World, s: Sys, e: Event)
    requires e.RunReboot? || e.RemoveFinalizers?
    ensures forall f <- MoveOf(w, s, e).facts :: !PowersOn(f)
  {
    hide RebootTransform, AttemptRebootOnRemoval, Physically;
    if s.omni.Some? {
      RebootsPowerNothingOn(w.cfg, s.omni.value, Values(s.bmc), s.wipe, s.power, Values(s.status),
                            OrElse(s.reboot, NO_REBOOT_STATUS),
                            e.rebootCalls, s.now, if e.RunReboot? then s.now + e.callDelay + e.stampDelay else s.now);
    }
  }

  /** No other loop sends a power-on. A reboot may start a machine all the same: see `Wakes`. */
  lemma {:induction false} OnlyPowerLoopPowersOn(w: World, s: Sys, e: Event)
    requires !e.RunPower?
    ensures forall f <- MoveOf(w, s, e).facts :: !PowersOn(f)
  {
    if e.RunReboot? || e.RemoveFinalizers? {
      hide MoveOf;
      RebootLoopPowersNothingOn(w, s, e);
    } else if e.RunBMC? || e.RunWipe? || e.Poll? || e.PXEBooted? {
      hide MoveOf;
      HarmlessCalls(w, s, e);
    } else {
      hide MoveOf;
      Frame(w, s, e);
    }
  }

  lemma {:induction false} LatchHoldsPower(world: World, s: Sys, e: Event, r: Text, w: Text)
    requires Latched(s, r, w) && r != [] && e.RunPower? && s.omni.Some? && s.omni.value.phase == Running
    ensures forall a <- PowerOf(world, s, e).acts :: !a.PowerOnCall?
    ensures PowerOf(world, s, e).verdict == Saved ==>
              var op := PowerOf(world, s, e).op; op.lastPowerOffId == r && op.wipeIdAtPowerOff == w
  {
    hide PowerTransform;
    LatchedTransform(world.cfg, s.omni.value, Values(s.bmc), s.wipe, s.reboot, OrElse(s.power, NO_POWER_OPERATION),
                     e.powerCalls, s.now, s.now + e.callDelay + e.stampDelay);
  }

  lemma {:induction false} LatchHoldsStep(world: World, s: Sys, e: Event, r: Text, w: Text)
    requires Latched(s, r, w) && r != [] && KeepsAsking(e, r, w)
    ensures Latched(Step(world, s, e), r, w)
    ensures Acknowledged(s, r, w) && !e.DropOutputs? ==> Acknowledged(Step(world, s, e), r, w)
    ensures forall f <- MoveOf(world, s, e).facts :: !PowersOn(f)
  {
    if e.RunPower? {
      if s.omni.Some? && s.omni.value.phase == Running {
        hide MoveOf, PowerOf, Physically;
        PowerShape(world, s, e);
        LatchHoldsPower(world, s, e, r, w);
      }
    } else {
      OnlyPowerLoopPowersOn(world, s, e);
      Frame(world, s, e);
      if !e.OmniPut? && !e.OmniRemoved? {
        hide MoveOf;
      }
    }
  }

  /** While Omni asks for `r` under wipe id `w` and nothing else, no power-on is sent, whatever becomes of the
      statuses; and while those are kept, the request stays acknowledged. */
  lemma {:induction false} LatchHolds(world: World, s: Sys, es: seq<Event>, r: Text, w: Text)
    requires Latched(s, r, w) && r != [] && forall e <- es :: KeepsAsking(e, r, w)
    ensures Latched(Run(world, s, es), r, w)
    ensures Acknowledged(s, r, w) && (forall e <- es :: !e.DropOutputs?) ==> Acknowledged(Run(world, s, es), r, w)
    ensures s.log <= Run(world, s, es).log
    ensures forall i :: |s.log| <= i < |Run(world, s, es).log| ==> !PowersOn(Run(world, s, es).log[i])
    decreases |es|
  {
    if es != [] {
      var n := |es| - 1;
      LatchHolds(world, s, es[..n], r, w);
      var t := Run(world, s, es[..n]);
      assert es[n] in es;
      LatchHoldsStep(world, t, es[n], r, w);
      Frame(world, t, es[n]);
      assert Run(world, s, es).log == t.log + MoveOf(world, t, es[n]).facts;
    }
  }

  // ------------------------------------------------------------------------- staying off

  /** A reboot can be sent over the BMC, set to come up from the network if it should. */
  predicate ReachesBMC(bmc: Option<Res<BMCConfigurationFields>>, calls: RebootCalls, pxe: bool) {
    && bmc.Some? && !IsManuallyPowered(Values(bmc)) && GetClient(bmc.value.v, calls.env).Some?
    && (pxe ==> calls.setPXE) && calls.reboot
  }

  /** The reboot transform reboots: the machine runs something else than required while it is needed, or a
      reboot was asked for, and the cooldown is over. */
  predicate RebootWakes(w: World, s: Sys, calls: RebootCalls) {
    && s.omni.Some? && s.omni.value.phase == Running && Admitted(s.omni.value)
    && !Refuses(s.status) && !Refuses(s.bmc) && s.status.Some?
    && ReachesBMC(s.bmc, calls, RequiresPXEBoot(RequiredBootMode(s.omni, Values(s.bmc), s.wipe, w.cfg.alwaysNetboot)))
    && (RequiresReboot(w.cfg, s.omni.value, s.bmc.value.v, s.wipe, s.status.value.v.agentAccessible)
        || OrElse(s.reboot, NO_REBOOT_STATUS).lastRebootId != s.omni.value.requestedRebootId)
    && TimeSinceLastPowerOn(s.now, s.power, Some(OrElse(s.reboot, NO_REBOOT_STATUS))) >= w.cfg.minRebootInterval
  }

  /** The farewell reboots. */
  predicate FarewellWakes(w: World, s: Sys, calls: RebootCalls) {
    && s.omni.Some? && s.omni.value.phase == TearingDown
    && s.status.Some? && !s.status.value.v.agentAccessible && ReachesBMC(s.bmc, calls, true)
    && TimeSinceLastPowerOn(s.now, None, None) >= w.cfg.minRebootInterval
  }

  /** What starts a machine that is off under an honoured request: a person, or a BMC reboot where power
      cycling wakes. Every part can be checked before the step. */
  predicate Wakes(w: World, s: Sys, e: Event) {
    match e
    case HumanPower(on) => on
    case RunReboot(calls, _, _) => w.cycleWakes && RebootWakes(w, s, calls)
    case RemoveFinalizers(calls, _, _) => w.cycleWakes && FarewellWakes(w, s, calls)
    case _ => false
  }

  /** The last call is a reboot sent over the BMC. */
  predicate CyclesPower(acts: seq<Action>) { acts != [] && acts[|acts| - 1].RebootCall? && acts[|acts| - 1].ok }

  lemma {:induction false} CyclesExactly(cfg: Config, im: InfraMachine, bmc: BMCConfigurationFields,
                                         op: Option<PowerOperation>, pxe: bool,
                                         accessible: bool, rb: Option<RebootStatus>, calls: RebootCalls, now: int,
                                         stamp: int)
    ensures CyclesPower(Reboot(cfg, im, bmc, op, pxe, accessible, rb, calls, now, stamp).acts) <==>
            TimeSinceLastPowerOn(now, op, rb) >= cfg.minRebootInterval &&
              ReachesBMC(Some(Res(bmc, Running, false)), calls, pxe)
  {
    hide TimeSinceLastPowerOn;
  }

  lemma {:induction false} OffExactly(w: World, s: Sys, acts: seq<Action>)
    requires s.phys == Off && forall a <- acts :: !a.PowerOnCall?
    ensures Physically(w, s, acts).phys != Off <==> w.cycleWakes && CyclesPower(acts)
  {
    assert acts != [] ==> acts[|acts| - 1] in acts;
  }

  lemma {:induction false} OffThroughReboot(w: World, s: Sys, e: Event)
    requires s.phys == Off && e.RunReboot?
    ensures MoveOf(w, s, e).s.phys != Off <==> Wakes(w, s, e)
  {
    hide Reboot, TimeSinceLastPowerOn, GetClient, RequiredBootMode, RequiresReboot, Physically;
    forall t: Sys, acts: seq<Action> { PhysicallyOnly(w, t, acts); }
    if s.omni.Some? && s.omni.value.phase == Running && !Refuses(s.status) && !Refuses(s.bmc) {
      var im, rb, stamp := s.omni.value, OrElse(s.reboot, NO_REBOOT_STATUS), s.now + e.callDelay + e.stampDelay;
      var r := RebootTransform(w.cfg, im, Values(s.bmc), s.wipe, s.power, Values(s.status), rb, e.rebootCalls, s.now,
                               stamp);
      RebootsPowerNothingOn(w.cfg, im, Values(s.bmc), s.wipe, s.power, Values(s.status), rb, e.rebootCalls, s.now,
                            stamp);
      forall t: Sys | t.phys == Off { OffExactly(w, t, r.acts); }
      if s.bmc.Some? && s.status.Some? {
        var pxe := RequiresPXEBoot(RequiredBootMode(s.omni, Values(s.bmc), s.wipe, w.cfg.alwaysNetboot));
        CyclesExactly(w.cfg, im, s.bmc.value.v, s.power, pxe, s.status.value.v.agentAccessible, Some(rb),
                      e.rebootCalls, s.now, stamp);
      }
    }
  }

  lemma {:induction false} OffThroughFarewell(w: World, s: Sys, e: Event)
    requires s.phys == Off && e.RemoveFinalizers?
    ensures MoveOf(w, s, e).s.phys != Off <==> Wakes(w, s, e)
  {
    hide Reboot, TimeSinceLastPowerOn, GetClient, RequiredBootMode, Physically;
    if s.omni.Some? && s.omni.value.phase == TearingDown {
      var im := s.omni.value;
      var acts := AttemptRebootOnRemoval(w.cfg, im, Values(s.bmc), Values(s.status), e.rebootCalls, s.now);
      RebootsPowerNothingOn(w.cfg, im, Values(s.bmc), s.wipe, s.power, Values(s.status), NO_REBOOT_STATUS,
                            e.rebootCalls, s.now, s.now);
      OffExactly(w, s, acts);
      if s.bmc.Some? && s.status.Some? {
        CyclesExactly(w.cfg, im, s.bmc.value.v, None, true, false, None, e.rebootCalls, s.now, s.now);
      }
    }
  }

  lemma {:induction false} OffThroughPower(w: World, s: Sys, e: Event, r: Text, wipeId: Text)
    requires Latched(s, r, wipeId) && r != [] && s.phys == Off && e.RunPower?
    ensures MoveOf(w, s, e).s.phys == Off
  {
    if s.omni.Some? && s.omni.value.phase == Running {
      hide MoveOf, PowerOf, Physically;
      PowerShape(w, s, e);
      LatchHoldsPower(w, s, e, r, wipeId);
      OffExactly(w, s, PowerOf(w, s, e).acts);
      NoCycle(w, s, e);
    }
  }

  /** The power transform sends no reboots. */
  lemma {:induction false} NoCycle(w: World, s: Sys, e: Event)
    requires e.RunPower? && s.omni.Some?
    ensures !CyclesPower(PowerOf(w, s, e).acts)
  {
  }

  /** Nothing else moves a machine that is off, but people. */
  lemma {:induction false} OffThroughOther(w: World, s: Sys, e: Event)
    requires s.phys == Off && !e.RunReboot? && !e.RemoveFinalizers? && !e.RunPower? && !e.HumanPower?
    ensures MoveOf(w, s, e).s.phys == Off
  {
    hide BMCTransform, WipeTransform, PollSingle, MakeBootDecision;
  }

  lemma {:induction false} OffStep(world: World, s: Sys, e: Event, r: Text, w: Text)
    requires Latched(s, r, w) && r != [] && KeepsAsking(e, r, w) && s.phys == Off
    ensures Step(world, s, e).phys != Off <==> Wakes(world, s, e)
  {
    if !e.HumanPower? {
      hide MoveOf, RebootWakes, FarewellWakes;
      if e.RunReboot? { OffThroughReboot(world, s, e); }
      else if e.RemoveFinalizers? { OffThroughFarewell(world, s, e); }
      else if e.RunPower? { OffThroughPower(world, s, e, r, w); }
      else { OffThroughOther(world, s, e); }
    }
  }

  /** So an honoured request does not keep a machine off: one that is off under it, with a reboot asked for, comes
      up with the next reboot reconcile, where power cycling wakes. */
  lemma {:induction false} HonouredYetWoken() returns (world: World, s: Sys, e: Event)
    ensures Latched(s, [1], [2]) && Honoured(s, [1]) && KeepsAsking(e, [1], [2]) && s.phys == Off && e.RunReboot?
    ensures Wakes(world, s, e) && Step(world, s, e).phys == Booting && Latched(Step(world, s, e), [1], [2])
  {
    hide MoveOf;
    var im := InfraMachine(Running, Accepted, false, [], [2], 0, [3], [1], PreferOther, []);
    var bmc := BMCConfigurationFields(None, Some(Msg(APIFields([4]), [])), false, None);
    var wiped := WipeStatusFields([2], 0, true, []);
    world := World(Config(0, false, false, BootIPXEExit), true);
    s := INIT.(omni := Some(im), bmc := Some(Res(bmc, Running, true)),
               status := Some(Res(NO_MACHINE_STATUS.f, Running, true)), wipe := Some(wiped),
               power := Some(PowerOperation(POWER_STATE_OFF, None, [1], [2])));
    e := RunReboot(RebootCalls(ClientEnv(false, false, true, false), true, true, false), 0, 0);
    assert Wakes(world, s, e);
    OffThroughReboot(world, s, e);
    OffComesUp(world, s, e);
    LatchHoldsStep(world, s, e, [1], [2]);
  }

  lemma {:induction false} OffComesUp(w: World, s: Sys, e: Event)
    requires s.phys == Off && e.RunReboot?
    ensures MoveOf(w, s, e).s.phys == Off || MoveOf(w, s, e).s.phys == Booting
  {
    hide RebootTransform;
  }

  ghost predicate OffThroughout(world: World, s: Sys, es: seq<Event>) {
    forall k :: 0 <= k <= |es| ==> Run(world, s, es[..k]).phys == Off
  }

  ghost predicate NothingWakes(world: World, s: Sys, es: seq<Event>) {
    forall k :: 0 <= k < |es| ==> !Wakes(world, Run(world, s, es[..k]), es[k])
  }

  lemma {:induction false} OneMore(world: World, s: Sys, es: seq<Event>)
    requires es != []
    ensures var n := |es| - 1;
      && (OffThroughout(world, s, es) <==> OffThroughout(world, s, es[..n]) && Run(world, s, es).phys == Off)
      && (NothingWakes(world, s, es) <==>
          NothingWakes(world, s, es[..n]) && !Wakes(world, Run(world, s, es[..n]), es[n]))
  {
    hide Run, Wakes;
    var n := |es| - 1;
    var before := es[..n];
    assert es[..|es|] == es && before[..n] == before;
    assert forall k :: 0 <= k <= n ==> before[..k] == es[..k];
    assert forall k :: 0 <= k < n ==> before[k] == es[k];
  }

  /** A machine that is off under an honoured request stays off through a run exactly when no step of it
      wakes the machine. Where power cycling does not wake, that takes a person. */
  lemma {:induction false} StaysOffUnlessWoken(world: World, s: Sys, es: seq<Event>, r: Text, w: Text)
    requires Latched(s, r, w) && r != [] && s.phys == Off && forall e <- es :: KeepsAsking(e, r, w)
    ensures OffThroughout(world, s, es) <==> NothingWakes(world, s, es)
    decreases |es|
  {
    if es == [] {
      assert forall k :: 0 <= k <= |es| ==> es[..k] == [];
    } else {
      hide Wakes, Step, Latched, KeepsAsking;
      var n := |es| - 1;
      StaysOffUnlessWoken(world, s, es[..n], r, w);
      OneMore(world, s, es);
      LatchHolds(world, s, es[..n], r, w);
      assert es[n] in es && es[..n][..n] == es[..n];
      var t := Run(world, s, es[..n]);
      if t.phys == Off {
        OffStep(world, t, es[n], r, w);
      }
    }
  }

  // ------------------------------------------------------------------------- stale requests

  /** The request `r` is being honoured. */
  predicate Honoured(s: Sys, r: Text) { IsPowerOffActive(s.omni, s.power) && s.power.value.lastPowerOffId == r }

  /** If `r` is the request acknowledged last, that was under `w`, which is not the machine's wipe id now. */
  predicate Outlived(s: Sys, r: Text, w: Text) {
    && (s.power.Some? && s.power.value.lastPowerOffId == r ==> s.power.value.wipeIdAtPowerOff == w)
    && (s.omni.Some? ==> s.omni.value.wipeId != w)
  }

  /** Wipe ids are not reused. */
  predicate MovesOn(e: Event, w: Text) { e.OmniPut? ==> e.im.wipeId != w }

  /** The power transform will take up `r`: Omni asks for it while another request, or none, was
      acknowledged last, the BMC says whether the machine is on, and if the machine is then to be switched
      off, its cooldown is over and it lets itself be. */
  predicate Reacknowledges(world: World, s: Sys, e: Event, r: Text) {
    && e.RunPower? && s.omni.Some? && s.omni.value.phase == Running && Admitted(s.omni.value)
    && s.omni.value.powerOffRequestId == r && OrElse(s.power, NO_POWER_OPERATION).lastPowerOffId != r
    && s.bmc.Some? && !IsManuallyPowered(Values(s.bmc)) && GetClient(s.bmc.value.v, e.powerCalls.env).Some?
    && e.powerCalls.isPoweredOn.Some?
    && (e.powerCalls.isPoweredOn.value && !RequiresPowerOn(s.omni.value, s.wipe) &&
        s.omni.value.preferred == PreferOff ==>
          && TimeSinceLastPowerOn(s.now, Some(OrElse(s.power, NO_POWER_OPERATION)),
                                  s.reboot) >= world.cfg.minRebootInterval
          && e.powerCalls.powerOff)
  }

  lemma {:induction false} TransformAcks(cfg: Config, im: InfraMachine, bmc: Option<BMCConfigurationFields>,
                                         wipe: Option<WipeStatusFields>, rb: Option<RebootStatus>, op: PowerOperation,
                                         calls: PowerCalls, now: int, stamp: int)
    ensures var r := PowerTransform(cfg, im, bmc, wipe, rb, op, calls, now, stamp);
      r.verdict == Saved ==>
        r.op.lastPowerOffId == Acknowledge(im, op).lastPowerOffId &&
          r.op.wipeIdAtPowerOff == Acknowledge(im, op).wipeIdAtPowerOff
  {
  }

  /** Taking up a new request saves exactly under the guard of `Reacknowledges`: the request being active at
      once, the machine is not powered on. */
  lemma {:induction false} TakingUpSaves(cfg: Config, im: InfraMachine, bmc: Option<BMCConfigurationFields>,
                                         wipe: Option<WipeStatusFields>, rb: Option<RebootStatus>, op: PowerOperation,
                                         calls: PowerCalls, now: int, stamp: int)
    requires im.powerOffRequestId != [] && im.powerOffRequestId != op.lastPowerOffId
    ensures PowerTransform(cfg, im, bmc, wipe, rb, op, calls, now, stamp).verdict == Saved <==>
      && Admitted(im) && bmc.Some? && !IsManuallyPowered(bmc) && GetClient(bmc.value, calls.env).Some?
      && calls.isPoweredOn.Some?
      && (calls.isPoweredOn.value && !RequiresPowerOn(im, wipe) && im.preferred == PreferOff ==>
            TimeSinceLastPowerOn(now, Some(op), rb) >= cfg.minRebootInterval && calls.powerOff)
  {
    hide RequiredBootMode, RequiresPowerOn;
  }

  lemma {:induction false} OutlivedPower(world: World, s: Sys, e: Event, r: Text, w: Text)
    requires Outlived(s, r, w) && e.RunPower? && r != [] && s.omni.Some? && s.omni.value.phase == Running
    ensures Outlived(Step(world, s, e), r, w) <==> !Reacknowledges(world, s, e, r)
    ensures Reacknowledges(world, s, e, r) ==> Honoured(Step(world, s, e), r)
  {
    hide MoveOf, PowerTransform, Physically, GetClient, TimeSinceLastPowerOn, RequiresPowerOn;
    var op, stamp := OrElse(s.power, NO_POWER_OPERATION), s.now + e.callDelay + e.stampDelay;
    PowerShape(world, s, e);
    TransformAcks(world.cfg, s.omni.value, Values(s.bmc), s.wipe, s.reboot, op, e.powerCalls, s.now, stamp);
    if s.omni.value.powerOffRequestId == r && op.lastPowerOffId != r {
      TakingUpSaves(world.cfg, s.omni.value, Values(s.bmc), s.wipe, s.reboot, op, e.powerCalls, s.now, stamp);
    }
  }

  lemma {:induction false} OutlivedStep(world: World, s: Sys, e: Event, r: Text, w: Text)
    requires Outlived(s, r, w) && MovesOn(e, w) && r != []
    ensures Outlived(Step(world, s, e), r, w) <==> !Reacknowledges(world, s, e, r)
    ensures Reacknowledges(world, s, e, r) ==> Honoured(Step(world, s, e), r)
  {
    if e.RunPower? && s.omni.Some? && s.omni.value.phase == Running {
      OutlivedPower(world, s, e, r, w);
    } else if !e.RunPower? {
      Frame(world, s, e);
      if !e.OmniPut? && !e.OmniRemoved? {
        hide MoveOf;
      }
    }
  }

  /** The states a run passes through, the last one included. */
  ghost predicate Ever(world: World, s: Sys, es: seq<Event>, r: Text) {
    exists k :: 0 <= k <= |es| && Honoured(Run(world, s, es[..k]), r)
  }

  ghost predicate EverReacknowledged(world: World, s: Sys, es: seq<Event>, r: Text) {
    exists k :: 0 <= k < |es| && Reacknowledges(world, Run(world, s, es[..k]), es[k], r)
  }

  lemma {:induction false} OutlivedThrough(world: World, s: Sys, es: seq<Event>, r: Text, w: Text, k: nat)
    requires Outlived(s, r, w) && r != [] && k <= |es| && forall e <- es :: MovesOn(e, w)
    requires forall i :: 0 <= i < k ==> !Reacknowledges(world, Run(world, s, es[..i]), es[i], r)
    ensures Outlived(Run(world, s, es[..k]), r, w)
    decreases k
  {
    if k > 0 {
      hide Reacknowledges, Outlived, MovesOn, Step;
      OutlivedThrough(world, s, es, r, w, k - 1);
      assert es[k - 1] in es;
      assert es[..k][..k - 1] == es[..k - 1];
      OutlivedStep(world, Run(world, s, es[..k - 1]), es[k - 1], r, w);
    }
  }

  /** Once the wipe id has left `w`, and never returns to it, the request acknowledged under `w` is honoured
      again in a run if and only if some reconcile of the run finds it asked for while another is the one
      acknowledged last. */
  lemma {:induction false} StaleUnlessReacknowledged(world: World, s: Sys, es: seq<Event>, r: Text, w: Text)
    requires Outlived(s, r, w) && r != [] && forall e <- es :: MovesOn(e, w)
    ensures Ever(world, s, es, r) <==> EverReacknowledged(world, s, es, r)
  {
    if EverReacknowledged(world, s, es, r) {
      var k := FirstReack(world, s, es, r);
      OutlivedThrough(world, s, es, r, w, k);
      assert es[k] in es;
      OutlivedStep(world, Run(world, s, es[..k]), es[k], r, w);
      assert es[..k + 1][..k] == es[..k];
      assert Honoured(Run(world, s, es[..k + 1]), r);
    } else {
      forall k | 0 <= k <= |es|
        ensures !Honoured(Run(world, s, es[..k]), r)
      {
        OutlivedThrough(world, s, es, r, w, k);
      }
    }
  }

  lemma {:induction false} FirstReack(world: World, s: Sys, es: seq<Event>, r: Text) returns (k: nat)
    requires EverReacknowledged(world, s, es, r)
    ensures k < |es| && Reacknowledges(world, Run(world, s, es[..k]), es[k], r)
    ensures forall i :: 0 <= i < k ==> !Reacknowledges(world, Run(world, s, es[..i]), es[i], r)
  {
    hide Reacknowledges, Run;
    k := 0;
    while !Reacknowledges(world, Run(world, s, es[..k]), es[k], r)
      invariant 0 <= k < |es|
      invariant forall i :: 0 <= i < k ==> !Reacknowledges(world, Run(world, s, es[..i]), es[i], r)
      decreases |es| - k
    {
      k := k + 1;
    }
  }

  // ------------------------------------------------------------------------- by what Omni asks for

  /** Omni asks only for requests in `asked`, under wipe ids other than `w`. */
  predicate AsksOnly(e: Event, asked: set<Text>, w: Text) {
    MovesOn(e, w) && (e.OmniPut? ==> e.im.powerOffRequestId in asked)
  }

  /** And the provider keeps its statuses meanwhile: the machine does not leave and come back. */
  predicate AsksStaying(e: Event, asked: set<Text>, w: Text) { AsksOnly(e, asked, w) && !e.DropOutputs? }

  predicate AskedNow(s: Sys, asked: set<Text>) { s.omni.Some? ==> s.omni.value.powerOffRequestId in asked }

  /** `r` is not asked for, or nothing but `r` and no request are. */
  predicate AskedAlone(r: Text, asked: set<Text>) { r !in asked || asked <= {r, []} }

  predicate Retired(s: Sys, asked: set<Text>, r: Text, w: Text) {
    Outlived(s, r, w) && AskedNow(s, asked) && (r in asked ==> Acknowledged(s, r, w))
  }

  lemma {:induction false} RetiredPower(world: World, s: Sys, e: Event, asked: set<Text>, r: Text)
    requires e.RunPower? && AskedNow(s, asked) && AskedAlone(r, asked) && r in asked
    requires s.power.Some? && s.power.value.lastPowerOffId == r
    ensures var t := MoveOf(world, s, e).s;
      && t.power.Some? && t.power.value.lastPowerOffId == r
      && t.power.value.wipeIdAtPowerOff == s.power.value.wipeIdAtPowerOff
  {
    if s.omni.Some? && s.omni.value.phase == Running {
      hide MoveOf, PowerTransform, Physically;
      PowerShape(world, s, e);
      TransformAcks(world.cfg, s.omni.value, Values(s.bmc), s.wipe, s.reboot, s.power.value,
                    e.powerCalls, s.now, s.now + e.callDelay + e.stampDelay);
    }
  }

  lemma {:induction false} RetiredStep(world: World, s: Sys, e: Event, asked: set<Text>, r: Text, w: Text)
    requires Retired(s, asked, r, w) && AsksOnly(e, asked, w) && AskedAlone(r, asked) && r != []
    requires r in asked ==> !e.DropOutputs?
    ensures Retired(Step(world, s, e), asked, r, w)
  {
    assert !Reacknowledges(world, s, e, r);
    OutlivedStep(world, s, e, r, w);
    Frame(world, s, e);
    if !e.OmniPut? && !e.OmniRemoved? {
      hide MoveOf, Outlived, Reacknowledges;
      if e.RunPower? && r in asked {
        RetiredPower(world, s, e, asked, r);
      }
    }
  }

  lemma {:induction false} RetiredThrough(world: World, s: Sys, es: seq<Event>, asked: set<Text>, r: Text, w: Text)
    requires Retired(s, asked, r, w) && AskedAlone(r, asked) && r != [] && forall e <- es :: AsksOnly(e, asked, w)
    requires r in asked ==> forall e <- es :: !e.DropOutputs?
    ensures Retired(Run(world, s, es), asked, r, w)
    decreases |es|
  {
    if es != [] {
      hide AsksOnly, Step;
      var n := |es| - 1;
      RetiredThrough(world, s, es[..n], asked, r, w);
      assert es[n] in es;
      RetiredStep(world, Run(world, s, es[..n]), es[n], asked, r, w);
    }
  }

  /** Acknowledged under a wipe id that Omni has left for good, a request is never honoured again: if it is not
      asked for, in any continuation whatever; and if it is asked for alone, while the machine stays. */
  lemma {:induction false} NeverHonouredAgain(world: World, s: Sys, es: seq<Event>, asked: set<Text>, r: Text, w: Text)
    requires Retired(s, asked, r, w) && r != [] && AskedAlone(r, asked)
    requires forall e <- es :: AsksOnly(e, asked, w)
    requires r in asked ==> forall e <- es :: AsksStaying(e, asked, w)
    ensures !Ever(world, s, es, r)
  {
    forall k | 0 <= k <= |es|
      ensures !Honoured(Run(world, s, es[..k]), r)
    {
      assert forall e <- es[..k] :: e in es;
      RetiredThrough(world, s, es[..k], asked, r, w);
    }
  }

  lemma {:induction false} RunOfFour(world: World, s: Sys, a: Event, b: Event, c: Event, d: Event)
    ensures Run(world, s, [a, b, c, d]) == Step(world, Step(world, Step(world, Step(world, s, a), b), c), d)
  {
    hide Step;
    assert [a, b, c, d][..3] == [a, b, c] && [a, b, c][..2] == [a, b] && [a, b][..1] == [a] && [a][..0] == [];
    assert Run(world, s, []) == s;
    assert Run(world, s, [a]) == Step(world, s, a);
    assert Run(world, s, [a, b]) == Step(world, Step(world, s, a), b);
    assert Run(world, s, [a, b, c]) == Step(world, Step(world, Step(world, s, a), b), c);
  }

  /** Omni's record of a machine, its request and wipe id replaced, and the machine made eligible. */
  function Asking(im: InfraMachine, request: Text, wipeId: Text): InfraMachine {
    im.(phase := Running, acceptance := Accepted, cordoned := false, powerOffRequestId := request, wipeId := wipeId)
  }

  /** The machine is off; nothing else needs to succeed. */
  const FINDS_IT_OFF := RunPower(PowerCalls(ClientEnv(true, true, true, true), Some(false), false, false, false), 0, 0)

  lemma {:induction false} TakesUp(world: World, s: Sys, r: Text)
    requires s.omni.Some? && s.omni.value.phase == Running && Admitted(s.omni.value) && s.bmc.Some? &&
             HasBMC(s.bmc.value.v)
    requires s.omni.value.powerOffRequestId == r && r != [] && OrElse(s.power, NO_POWER_OPERATION).lastPowerOffId != r
    ensures var t := Step(world, s, FINDS_IT_OFF);
      && Acknowledged(t, r, s.omni.value.wipeId) && t.omni == s.omni && t.bmc == s.bmc
  {
    hide PowerTransform, Physically;
    forall t: Sys, acts: seq<Action> { PhysicallyOnly(world, t, acts); }
    TakingUpSaves(world.cfg, s.omni.value, Values(s.bmc), s.wipe, s.reboot, OrElse(s.power, NO_POWER_OPERATION),
                  FINDS_IT_OFF.powerCalls, s.now, s.now);
    TransformAcks(world.cfg, s.omni.value, Values(s.bmc), s.wipe, s.reboot, OrElse(s.power, NO_POWER_OPERATION),
                  FINDS_IT_OFF.powerCalls, s.now, s.now);
  }

  /** The run that brings a request back: acknowledged under `w1`, it is honoured under `w2` once Omni has
      asked for `other` and then for it again. Fresh wipe ids alone do not retire it. */
  lemma {:induction false} ReissuedRequestIsHonouredAgain(world: World, s: Sys, r: Text, other: Text, w1: Text,
                                                          w2: Text)
    requires Acknowledged(s, r, w1) && w1 != w2 && r != [] && other != [] && other != r
    requires s.omni.Some? && s.omni.value.phase == Running && s.bmc.Some? && HasBMC(s.bmc.value.v)
    ensures var im := s.omni.value;
            var es := [OmniPut(Asking(im, other, w2)), FINDS_IT_OFF, OmniPut(Asking(im, r, w2)), FINDS_IT_OFF];
            Honoured(Run(world, s, es), r) && Run(world, s, es).omni.value.wipeId == w2
  {
    var im := s.omni.value;
    var a, b := OmniPut(Asking(im, other, w2)), OmniPut(Asking(im, r, w2));
    RunOfFour(world, s, a, FINDS_IT_OFF, b, FINDS_IT_OFF);
    hide RunPowerMove, Run;
    var s1 := Step(world, s, a);
    TakesUp(world, s1, other);
    var s2 := Step(world, s1, FINDS_IT_OFF);
    var s3 := Step(world, s2, b);
    TakesUp(world, s3, r);
  }

  /** While the machine stays, and whatever Omni asks for from a set it chooses, no run ever honours the request
      again: if and only if the request is not in that set, or nothing but it and no request is. */
  lemma {:induction false} RetiredExactly(world: World, s: Sys, asked: set<Text>, r: Text, w: Text)
    requires Acknowledged(s, r, w) && r != [] && s.bmc.Some? && HasBMC(s.bmc.value.v)
    requires s.omni.Some? && s.omni.value.phase == Running && s.omni.value.wipeId != w && AskedNow(s, asked)
    ensures (forall es :: (forall e <- es :: AsksStaying(e, asked, w)) ==> !Ever(world, s, es, r)) <==>
            AskedAlone(r, asked)
  {
    if AskedAlone(r, asked) {
      forall es: seq<Event> | forall e <- es :: AsksStaying(e, asked, w)
        ensures !Ever(world, s, es, r)
      {
        NeverHonouredAgain(world, s, es, asked, r, w);
      }
    } else {
      var other :| other in asked && other != r && other != [];
      var im, w2 := s.omni.value, s.omni.value.wipeId;
      var es := [OmniPut(Asking(im, other, w2)), FINDS_IT_OFF, OmniPut(Asking(im, r, w2)), FINDS_IT_OFF];
      ReissuedRequestIsHonouredAgain(world, s, r, other, w, w2);
      assert forall e <- es :: AsksStaying(e, asked, w);
      assert es[..4] == es;
      assert Ever(world, s, es, r);
    }
  }

  // ------------------------------------------------------------------------- leaving and coming back

  /** Omni's record of a machine that is going away, and of one that is back. */
  function Record(phase: Phase, request: Text, wipeId: Text): InfraMachine {
    InfraMachine(phase, Accepted, false, [], wipeId, 0, [], request, PreferOther, [])
  }

  const UNANSWERED := RebootCalls(ClientEnv(false, false, false, false), false, false, false)

  /** One more event that Omni may see. */
  lemma {:induction false} And(world: World, s: Sys, es: seq<Event>, e: Event, asked: set<Text>, w: Text)
    returns (longer: seq<Event>, t: Sys)
    requires (forall f <- es :: AsksOnly(f, asked, w)) && AsksOnly(e, asked, w)
    ensures forall f <- longer :: AsksOnly(f, asked, w)
    ensures t == Run(world, s, longer) == Step(world, Run(world, s, es), e)
  {
    hide AsksOnly, Step, Run;
    longer := es + [e];
    t := Run(world, s, longer);
    RunNext(world, s, es, e);
  }

  /** The farewell lets go of both resources. */
  lemma {:induction false} Farewell(world: World, s: Sys)
    requires s.omni.Some? && s.omni.value.phase == TearingDown
    ensures var t := Step(world, s, RemoveFinalizers(UNANSWERED, true, true));
      && t.omni == s.omni && t.user == s.user
      && (t.status.Some? ==> !t.status.value.held) && (t.bmc.Some? ==> !t.bmc.value.held)
  {
    hide AttemptRebootOnRemoval, Physically;
    forall t: Sys, acts: seq<Action> { PhysicallyOnly(world, t, acts); }
  }

  /** A machine that Omni gives up leaves nothing behind. */
  lemma {:induction false} Leaves(world: World, s: Sys, r: Text, w: Text) returns (es: seq<Event>, t: Sys)
    ensures t == Run(world, s, es) && forall e <- es :: AsksOnly(e, {r}, w)
    ensures t.omni.None? && t.user.None? && t.bmc.None? && t.status.None? && t.power.None?
  {
    var other := w + [0];
    assert |other| != |w|;
    hide Run, Step, AttemptRebootOnRemoval;
    assert Run(world, s, []) == s by { RunOfNone(world, s); }
    es, t := And(world, s, [], UserPut(None), {r}, w);
    GivenUp(world, s, r, other);
    es, t := And(world, s, es, OmniPut(Record(TearingDown, r, other)), {r}, w);
    es, t := And(world, s, es, RemoveFinalizers(UNANSWERED, true, true), {r}, w);
    es, t := And(world, s, es, TearDownStatus, {r}, w);
    es, t := And(world, s, es, TearDownBMC, {r}, w);
    es, t := And(world, s, es, DropOutputs, {r}, w);
    es, t := And(world, s, es, OmniRemoved, {r}, w);
  }

  lemma {:induction false} RunOfNone(world: World, s: Sys)
    ensures Run(world, s, []) == s
  {
  }

  /** The seven steps of leaving. */
  lemma {:induction false} GivenUp(world: World, s: Sys, r: Text, wipeId: Text)
    ensures var s1 := Step(world, s, UserPut(None));
            var s2 := Step(world, s1, OmniPut(Record(TearingDown, r, wipeId)));
            var s3 := Step(world, s2, RemoveFinalizers(UNANSWERED, true, true));
            var s4 := Step(world, s3, TearDownStatus);
            var s5 := Step(world, s4, TearDownBMC);
            var s6 := Step(world, s5, DropOutputs);
            var s7 := Step(world, s6, OmniRemoved);
            s7.omni.None? && s7.user.None? && s7.bmc.None? && s7.status.None? && s7.power.None?
  {
    hide RemoveFinalizersMove;
    var s1 := Step(world, s, UserPut(None));
    var s2 := Step(world, s1, OmniPut(Record(TearingDown, r, wipeId)));
    Farewell(world, s2);
  }

  const FOUND_BMC := RunBMC(BMCCalls(Reported(false, Some(([], 0))), Some([]), true, None), true)

  /** A machine that comes back under a wipe id other than `w`, and still asked to be off by `r`: its agent
      connects, its BMC is configured anew, and the request is acknowledged anew. */
  lemma {:induction false} ComesBack(world: World, s: Sys, r: Text, wipeId: Text)
    requires s.omni.None? && s.user.None? && s.bmc.None? && s.status.None? && s.power.None? && r != []
    ensures var s1 := Step(world, s, OmniPut(Record(Running, r, wipeId)));
            var s2 := Step(world, s1, AgentEvent(true));
            var s3 := Step(world, s2, FOUND_BMC);
            Honoured(Step(world, s3, FINDS_IT_OFF), r)
  {
    hide RunPowerMove;
    var s1 := Step(world, s, OmniPut(Record(Running, r, wipeId)));
    var s2 := Step(world, s1, AgentEvent(true));
    var s3 := Step(world, s2, FOUND_BMC);
    TakesUp(world, s3, r);
  }

  /** Asked for alone, and under wipe ids that never were `w`, a request comes back to life when the machine leaves
      and comes back: from any state, since what was acknowledged is then forgotten. */
  lemma {:induction false} ReturningRevives(world: World, s: Sys, r: Text, w: Text) returns (es: seq<Event>)
    requires r != []
    ensures (forall e <- es :: AsksOnly(e, {r}, w)) && Honoured(Run(world, s, es), r)
  {
    hide Run, Step, Honoured;
    var wipeId, t := w + [0], s;
    assert |wipeId| != |w|;
    es, t := Leaves(world, s, r, w);
    ComesBack(world, t, r, wipeId);
    es, t := And(world, s, es, OmniPut(Record(Running, r, wipeId)), {r}, w);
    es, t := And(world, s, es, AgentEvent(true), {r}, w);
    es, t := And(world, s, es, FOUND_BMC, {r}, w);
    es, t := And(world, s, es, FINDS_IT_OFF, {r}, w);
  }

  /** Over all continuations, the machine's leaving and coming back included, a request whose wipe id Omni has left
      for good is never honoured again if and only if Omni does not ask for it. */
  lemma {:induction false} RetiredForGood(world: World, s: Sys, asked: set<Text>, r: Text, w: Text)
    requires Outlived(s, r, w) && AskedNow(s, asked) && r != []
    ensures (forall es :: (forall e <- es :: AsksOnly(e, asked, w)) ==> !Ever(world, s, es, r)) <==> r !in asked
  {
    if r !in asked {
      forall es: seq<Event> | forall e <- es :: AsksOnly(e, asked, w)
        ensures !Ever(world, s, es, r)
      {
        NeverHonouredAgain(world, s, es, asked, r, w);
      }
    } else {
      var es := ReturningRevives(world, s, r, w);
      assert forall e <- es :: AsksOnly(e, {r}, w) ==> AsksOnly(e, asked, w);
      assert es[..|es|] == es;
      assert Ever(world, s, es, r);
    }
  }

  /** A request that is not honoured does not keep a needed machine down. */
  lemma {:induction false} UnhonouredRequestPowersOn(cfg: Config, im: InfraMachine, bmc: BMCConfigurationFields,
                                                     wipe: Option<WipeStatusFields>,
                                                     rb: Option<RebootStatus>, op: PowerOperation, calls: PowerCalls,
                                                     now: int, stamp: int)
    requires Admitted(im) && (RequiresPowerOn(im, wipe) || im.preferred == PreferOn)
    requires GetClient(bmc, calls.env).Some? && !IsManuallyPowered(Some(bmc))
    requires calls.isPoweredOn == Some(false) && calls.setPXE && calls.powerOn
    ensures var acts := PowerTransform(cfg, im, Some(bmc), wipe, rb, op, calls, now, stamp).acts;
            (exists a <- acts :: a.PowerOnCall?) <==>
            im.powerOffRequestId == [] ||
            (im.powerOffRequestId == op.lastPowerOffId && im.wipeId != op.wipeIdAtPowerOff)
  {
    CapabilitiesAllOrNothing(bmc, calls.env);
    var acts := PowerTransform(cfg, im, Some(bmc), wipe, rb, op, calls, now, stamp).acts;
    assert acts[|acts| - 1] in acts;
  }
}
