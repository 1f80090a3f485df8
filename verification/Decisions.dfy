/** Every decision of the provider, told from what it is given: when a machine boots into what, is needed, wiped,
    configured, rebooted and switched, and over which client. Each case is stated both ways, in the terms of Omni's
    record and the provider's resources, so that none is left to the function that decides it. */
module Decisions {
  import opened Wire
  import opened Specs
  import opened Machine
  import opened Reconcile

  // ------------------------------------------------------------------------- machines

  /** Wiped for the wipe id Omni asks for now. */
  predicate Wiped(im: InfraMachine, wipe: Option<WipeStatusFields>) {
    wipe.Some? && wipe.value.initialWipeDone && wipe.value.lastWipeId == im.wipeId
  }

  /** Omni reported an install that the last wipe does not know of. */
  predicate InstalledSince(im: InfraMachine, wipe: Option<WipeStatusFields>) {
    if wipe.None? then im.installEventId != 0 else im.installEventId > wipe.value.lastWipeInstallEventId
  }

  /** Omni's to use: staying, accepted, allocated, configured and wiped. */
  predicate Usable(im: InfraMachine, bmc: Option<BMCConfigurationFields>, wipe: Option<WipeStatusFields>) {
    && im.phase == Running && im.acceptance == Accepted && im.clusterTalosVersion != [] && bmc.Some? && Wiped(im, wipe)
  }

  /** Each boot mode, and when it is required. A rejected machine is left to its disk, a usable one gets Talos, from its
      disk if it is installed there and may boot from it, and any other machine goes to the agent. */
  lemma {:induction false} BootModeExactly(im: Option<InfraMachine>, bmc: Option<BMCConfigurationFields>,
                                           wipe: Option<WipeStatusFields>, alwaysNetboot: bool)
    ensures var mode := RequiredBootMode(im, bmc, wipe, alwaysNetboot);
            var rejected := im.Some? && im.value.acceptance == Rejected;
            var usable := im.Some? && Usable(im.value, bmc, wipe);
      && (mode == TalosDisk <==> rejected || (usable && InstalledSince(im.value, wipe) && !alwaysNetboot))
      && (mode == TalosPXE <==> usable && (!InstalledSince(im.value, wipe) || alwaysNetboot))
      && (mode == AgentPXE <==> !rejected && !usable)
      && (RequiresPXEBoot(mode) <==> mode != TalosDisk)
  {
  }

  /** Allocated, not wiped, or installed since. */
  predicate Needed(im: InfraMachine, wipe: Option<WipeStatusFields>) {
    im.clusterTalosVersion != [] || !Wiped(im, wipe) || InstalledSince(im, wipe)
  }

  /** A machine may be off only when it is not needed. */
  lemma {:induction false} NeededExactly(im: InfraMachine, wipe: Option<WipeStatusFields>)
    ensures RequiresPowerOn(im, wipe) <==> Needed(im, wipe)
    ensures RequiresWipe(Some(im), wipe) <==> !Wiped(im, wipe)
    ensures IsInstalled(Some(im), wipe) <==> InstalledSince(im, wipe)
  {
  }

  /** A request is honoured exactly while it is the one Omni makes and was acknowledged under the wipe id of now. */
  lemma {:induction false} HonouredExactly(im: InfraMachine, op: PowerOperation)
    ensures IsPowerOffActive(Some(im), Some(op)) <==>
            im.powerOffRequestId != [] && op.lastPowerOffId == im.powerOffRequestId && op.wipeIdAtPowerOff == im.wipeId
    ensures !IsPowerOffActive(None, Some(op)) && !IsPowerOffActive(Some(im), None)
  {
  }

  /** Each answer of the boot handler, and when it is given. A cordoned or rejected machine is left alone. */
  lemma {:induction false} AnswersExactly(im: Option<InfraMachine>, bmc: Option<BMCConfigurationFields>,
                                          wipe: Option<WipeStatusFields>, alwaysNetboot: bool, how: BootFromDisk)
    ensures var answer := MakeBootDecision(im, bmc, wipe, alwaysNetboot, how);
            var leftAlone := im.Some? && (im.value.cordoned || im.value.acceptance == Rejected);
            var usable := im.Some? && Usable(im.value, bmc, wipe);
      && (answer == NotFound <==> leftAlone)
      && (answer == BootAgent <==> !leftAlone && !usable)
      && (answer.BootDisk? <==> !leftAlone && usable && InstalledSince(im.value, wipe) && !alwaysNetboot)
      && (answer.BootDisk? ==> answer.how == how)
      && (answer.BootTalosNet? <==> !leftAlone && usable && (!InstalledSince(im.value, wipe) || alwaysNetboot))
      && (answer.BootTalosNet? ==> answer.version == im.value.clusterTalosVersion)
  {
  }

  // ------------------------------------------------------------------------- clients

  /** Each client, and when it is chosen: manual power first, then the HTTP API, then Redfish where it is forced or
      found, then IPMI; and none where the one that is to be used cannot be reached. */
  lemma {:induction false} ClientExactly(bmc: BMCConfigurationFields, env: ClientEnv)
    ensures var client := GetClient(bmc, env);
            var redfish := env.redfishAlways || env.redfishAvailable;
      && (client == Some(ManualClient) <==> bmc.manual.Some?)
      && (client == Some(APIClient) <==> bmc.manual.None? && bmc.api.Some? && env.apiReachable)
      && (client == Some(RedfishClient) <==> bmc.manual.None? && bmc.api.None? && bmc.ipmi.Some? && redfish)
      && (client == Some(IPMIClient) <==>
            bmc.manual.None? && bmc.api.None? && bmc.ipmi.Some? && !redfish && env.ipmiReachable)
      && (client == None <==>
            && bmc.manual.None?
            && (if bmc.api.Some? then !env.apiReachable else bmc.ipmi.Some? ==> !redfish && !env.ipmiReachable))
  {
  }

  // ------------------------------------------------------------------------- wiping

  /** A wipe is sent exactly to an accepted, not cordoned machine whose agent is told accessible and that is not wiped
      for its wipe id; it is the only call, and what it was for is recorded exactly when it succeeds. */
  lemma {:induction false} WipesExactly(im: InfraMachine, ms: Option<MachineStatusFields>, wipe: WipeStatusFields,
                                        ok: bool)
    ensures var r := WipeTransform(im, ms, wipe, ok);
            var due := && im.acceptance == Accepted && !im.cordoned && ms.Some? && ms.value.agentAccessible
                       && !Wiped(im, Some(wipe));
      && r.acts == (if due then [WipeDisksCall(ok, im.wipeId, im.installEventId)] else [])
      && (r.verdict == Saved <==> due && ok) && (r.verdict == Skipped <==> !due)
      && r.wipe == if due && ok then WipeStatusFields(im.wipeId, im.installEventId, true, im.nodeUniqueToken) else wipe
  {
  }

  // ------------------------------------------------------------------------- BMC configuration

  /** An accepted, not cordoned machine whose agent is told accessible. */
  predicate Approachable(im: InfraMachine, ms: Option<MachineStatusFields>) {
    im.acceptance == Accepted && !im.cordoned && ms.Some? && ms.value.agentAccessible
  }

  /** Nobody has said yet how the machine is powered: no operator's configuration, and none recorded from an agent. */
  predicate Open(user: Option<Option<UserConfig>>, bmc: BMCConfigurationFields) {
    && user.None?
    && (bmc.manuallyConfigured || (bmc.api.None? && bmc.ipmi.None? && bmc.manual.None?))
  }

  /** The agent says, in one of the two ways it can, that there is no BMC. */
  predicate SaysNoBMC(reported: PowerManagement) {
    reported == AgentError(true, true) || reported == Reported(false, None)
  }

  /** When a machine becomes manually powered: exactly when the provider allows it, the agent says that there is no BMC,
      and nobody has said otherwise. */
  lemma {:induction false} ManualExactly(cfg: Config, im: InfraMachine, ms: Option<MachineStatusFields>,
                                         user: Option<Option<UserConfig>>,
                                         bmc: BMCConfigurationFields, calls: BMCCalls)
    ensures var r := BMCTransform(cfg, im, ms, user, bmc, calls);
            var manual := && Approachable(im, ms) && Open(user, bmc) && cfg.allowMachinesWithoutBMC
                          && SaysNoBMC(calls.reported);
      && (bmc.manual.None? ==> (r.verdict == Saved && r.bmc.manual.Some? <==> manual))
      && (manual ==> r == BMCResult(bmc.(manuallyConfigured := false, manual := Some(NO_MANUAL)), Saved, []))
  {
  }

  /** The agent offers a way to power the machine, and credentials for it can be made. */
  predicate Settable(cfg: Config, calls: BMCCalls) {
    && calls.reported.Reported? && (calls.reported.api || calls.reported.ipmi.Some?)
    && (calls.reported.ipmi.Some? ==> calls.password.Some?)
  }

  /** When credentials are set on the agent, and when what it reports is recorded. */
  lemma {:induction false} DerivesExactly(cfg: Config, im: InfraMachine, ms: Option<MachineStatusFields>,
                                          user: Option<Option<UserConfig>>,
                                          bmc: BMCConfigurationFields, calls: BMCCalls)
    ensures var r := BMCTransform(cfg, im, ms, user, bmc, calls);
            var sets := Approachable(im, ms) && Open(user, bmc) && Settable(cfg, calls);
            var password := if calls.reported.Reported? && calls.reported.ipmi.Some? then calls.password else None;
      && r.acts == (if sets then [SetPowerManagementCall(calls.accepted, password)] else [])
      && (sets ==> (r.verdict == Saved <==> calls.accepted && (calls.reported.api ==> calls.address.Some?)))
      && (sets && r.verdict == Saved ==>
            && !r.bmc.manuallyConfigured && r.bmc.manual == bmc.manual
            && (if calls.reported.api then r.bmc.api == Some(Msg(APIFields(calls.address.value), []))
                else r.bmc.api == bmc.api)
            && (if calls.reported.ipmi.None? then r.bmc.ipmi == bmc.ipmi
                else
                  var (address, port) := calls.reported.ipmi.value;
                  r.bmc.ipmi == Some(Msg(IPMIFields(address, port, IPMI_USERNAME, calls.password.value), []))))
  {
  }

  /** When the transform leaves the configuration to the operator, as it is, or to another attempt. */
  lemma {:induction false} ConfiguresExactly(cfg: Config, im: InfraMachine, ms: Option<MachineStatusFields>,
                                             user: Option<Option<UserConfig>>,
                                             bmc: BMCConfigurationFields, calls: BMCCalls)
    ensures var r := BMCTransform(cfg, im, ms, user, bmc, calls);
      && (Approachable(im, ms) && user.Some? ==>
            r == if user.value.Some? then BMCResult(StoreUserProvided(user.value.value, bmc), Saved, [])
                 else BMCResult(bmc, Failed, []))
      && (r.verdict == Skipped <==> !Approachable(im, ms) || (user.None? && !Open(user, bmc)))
      && (r.verdict == Saved && user.None? ==>
            || (cfg.allowMachinesWithoutBMC && SaysNoBMC(calls.reported))
            || (Settable(cfg, calls) && calls.accepted))
  {
  }

  // ------------------------------------------------------------------------- rebooting

  /** What the machine is told to run is not what it should. It is to be fixed only while the machine is needed, into
      the agent or out of it; getting an installed machine onto its disk is left to Omni. */
  predicate Mismatched(cfg: Config, im: InfraMachine, bmc: Option<BMCConfigurationFields>,
                       wipe: Option<WipeStatusFields>,
                       accessible: bool)
  {
    && Needed(im, wipe)
    && im.acceptance != Rejected
    && (if Usable(im, bmc, wipe) then accessible && WantsNetwork(cfg, im, bmc, wipe) else !accessible)
  }

  /** To come up from the network: anything but an installed machine that may boot from its disk. */
  predicate WantsNetwork(cfg: Config, im: InfraMachine, bmc: Option<BMCConfigurationFields>,
                         wipe: Option<WipeStatusFields>)
  {
    !Usable(im, bmc, wipe) || !InstalledSince(im, wipe) || cfg.alwaysNetboot
  }

  lemma {:induction false} MismatchedExactly(cfg: Config, im: InfraMachine, bmc: BMCConfigurationFields,
                                             wipe: Option<WipeStatusFields>, accessible: bool)
    ensures RequiresReboot(cfg, im, bmc, wipe, accessible) <==> Mismatched(cfg, im, Some(bmc), wipe, accessible)
    ensures im.acceptance != Rejected ==>
              (RequiresPXEBoot(RequiredBootMode(Some(im), Some(bmc), wipe, cfg.alwaysNetboot)) <==>
                 WantsNetwork(cfg, im, Some(bmc), wipe))
  {
  }

  /** No power-on and no reboot is recorded within the interval. */
  predicate Rested(interval: int, now: nat, op: Option<PowerOperation>, rb: Option<RebootStatus>) {
    && (op.Some? && op.value.lastPowerOnTimestamp.Some? ==> Past(interval, now, op.value.lastPowerOnTimestamp.value))
    && (rb.Some? && rb.value.lastRebootTimestamp.Some? ==> Past(interval, now, rb.value.lastRebootTimestamp.value))
  }

  /** The least duration there is holds of all times, as differences saturate there. */
  predicate Past(interval: int, now: nat, t: int) { now - t >= interval || interval <= -TWO63 }

  /** A difference of times is a duration: the nearest there is. */
  lemma {:induction false} ElapsedExactly(now: int, past: int)
    ensures var d := TimeSince(now, past);
      && -TWO63 <= d < TWO63
      && (-TWO63 <= now - past < TWO63 ==> d == now - past)
      && (now - past >= TWO63 ==> d == TWO63 - 1) && (now - past < -TWO63 ==> d == -TWO63)
  {
  }

  /** The cooldown check, for every duration. */
  lemma {:induction false} RestedExactly(interval: int, now: nat, op: Option<PowerOperation>, rb: Option<RebootStatus>)
    requires interval < TWO63
    ensures TimeSinceLastPowerOn(now, op, rb) >= interval <==> Rested(interval, now, op, rb)
  {
  }

  /** The reboot of a rested machine over a client: the network first where it is wanted, then the reboot. */
  function Cycle(client: Client, network: bool, calls: RebootCalls): seq<Action> {
    if !network then [RebootCall(client, calls.reboot, false)]
    else if !calls.setPXE then [SetPXEBootOnceCall(client, false)]
    else [SetPXEBootOnceCall(client, true), RebootCall(client, calls.reboot, true)]
  }

  /** What a reboot transform sends: nothing unless there is a reason and the machine is rested; over the BMC where
      there is one; and to the agent only where there is none and the agent is told accessible. */
  lemma {:induction false} RebootsExactly(cfg: Config, im: InfraMachine, bmc: BMCConfigurationFields,
                                          wipe: Option<WipeStatusFields>,
                                          op: Option<PowerOperation>, ms: MachineStatusFields, rb: RebootStatus,
                                          calls: RebootCalls, now: nat, stamp: int)
    requires cfg.minRebootInterval < TWO63
    ensures var r := RebootTransform(cfg, im, Some(bmc), wipe, op, Some(ms), rb, calls, now, stamp);
            var reason := Mismatched(cfg, im, Some(bmc), wipe, ms.agentAccessible) ||
                          rb.lastRebootId != im.requestedRebootId;
            var due := im.acceptance == Accepted && !im.cordoned && reason &&
                       Rested(cfg.minRebootInterval, now, op, Some(rb));
            var client := GetClient(bmc, calls.env);
      && (!due ==> r.acts == [])
      && (due && bmc.manual.Some? ==>
            r.acts == if ms.agentAccessible then [AgentRebootCall(calls.agentReboot)] else [])
      && (due && bmc.manual.None? ==>
            r.acts == if client.None? then []
                      else Cycle(client.value, WantsNetwork(cfg, im, Some(bmc), wipe), calls))
  {
    hide TimeSinceLastPowerOn, RequiresReboot, RequiredBootMode, RequiresPXEBoot, Mismatched, WantsNetwork;
    RestedExactly(cfg.minRebootInterval, now, op, Some(rb));
    MismatchedExactly(cfg, im, bmc, wipe, ms.agentAccessible);
  }

  /** A reboot that was carried out. */
  predicate Rebooted(acts: seq<Action>) {
    acts != [] && var last := acts[|acts| - 1]; (last.RebootCall? || last.AgentRebootCall?) && last.ok
  }

  /** How a reboot transform ends, and what it records: the request is acknowledged exactly when a reboot was carried
      out, with the time of that. */
  lemma {:induction false} RecordsExactly(cfg: Config, im: InfraMachine, bmc: Option<BMCConfigurationFields>,
                                          wipe: Option<WipeStatusFields>,
                                          op: Option<PowerOperation>, ms: Option<MachineStatusFields>, rb: RebootStatus,
                                          calls: RebootCalls, now: nat, stamp: int)
    requires cfg.minRebootInterval < TWO63
    ensures var r := RebootTransform(cfg, im, bmc, wipe, op, ms, rb, calls, now, stamp);
            var open := im.acceptance == Accepted && !im.cordoned && bmc.Some? && ms.Some?;
            var reason := open && (Mismatched(cfg, im, bmc, wipe, ms.value.agentAccessible) ||
                                   rb.lastRebootId != im.requestedRebootId);
            var rested := Rested(cfg.minRebootInterval, now, op, Some(rb));
      && r.rb == (if Rebooted(r.acts) then RebootStatus(im.requestedRebootId, Some(stamp)) else rb)
      && (r.verdict == Saved <==> (open && !reason) || Rebooted(r.acts))
      && (r.verdict.Requeued? <==> reason && !rested)
      && (r.verdict == Skipped <==>
            !open || (reason && rested && bmc.value.manual.Some? && !ms.value.agentAccessible))
  {
    hide TimeSinceLastPowerOn, RequiresReboot, RequiredBootMode, RequiresPXEBoot, Mismatched, WantsNetwork;
    RestedExactly(cfg.minRebootInterval, now, op, Some(rb));
    if bmc.Some? && ms.Some? {
      MismatchedExactly(cfg, im, bmc.value, wipe, ms.value.agentAccessible);
    }
  }

  /** What the farewell sends: one reboot towards the network, over the BMC, to a machine whose agent is not told
      accessible. */
  lemma {:induction false} PartsExactly(cfg: Config, im: InfraMachine, bmc: Option<BMCConfigurationFields>,
                                        ms: Option<MachineStatusFields>, calls: RebootCalls, now: nat)
    requires cfg.minRebootInterval < TWO63
    ensures var acts := AttemptRebootOnRemoval(cfg, im, bmc, ms, calls, now);
            var due := bmc.Some? && ms.Some? && !ms.value.agentAccessible && bmc.value.manual.None?
                       && GetClient(bmc.value, calls.env).Some?;
            acts == if due then Cycle(GetClient(bmc.value, calls.env).value, true, calls) else []
  {
    hide TimeSinceLastPowerOn;
    RestedExactly(cfg.minRebootInterval, now, None, None);
  }

  // ------------------------------------------------------------------------- switching

  /** Whether the power transform leaves a power-off request standing. Any request but one acknowledged under another
      wipe id stands, as a new one is acknowledged on the spot. */
  predicate Stands(im: InfraMachine, op: PowerOperation) {
    im.powerOffRequestId != [] && (op.lastPowerOffId == im.powerOffRequestId ==> op.wipeIdAtPowerOff == im.wipeId)
  }

  /** What the acknowledgement leaves. */
  lemma {:induction false} AcknowledgesExactly(im: InfraMachine, op: PowerOperation)
    ensures var ack := Acknowledge(im, op);
      && (IsPowerOffActive(Some(im), Some(ack)) <==> Stands(im, op))
      && ack.lastPowerOperation == op.lastPowerOperation && ack.lastPowerOnTimestamp == op.lastPowerOnTimestamp
      && ack.lastPowerOffId == (if im.powerOffRequestId == [] then op.lastPowerOffId else im.powerOffRequestId)
      && ack.wipeIdAtPowerOff == (if im.powerOffRequestId in {[], op.lastPowerOffId} then op.wipeIdAtPowerOff
                                  else im.wipeId)
  {
  }

  /** A machine the provider may ask for its power state, over which client, and what it says. */
  predicate Told(im: InfraMachine, bmc: Option<BMCConfigurationFields>, calls: PowerCalls, client: Client, on: bool) {
    && im.acceptance == Accepted && !im.cordoned && bmc.Some? && bmc.value.manual.None?
    && GetClient(bmc.value, calls.env) == Some(client) && calls.isPoweredOn == Some(on)
  }

  /** A machine that is off is switched on exactly when no power-off request stands and it is needed or wanted on, from
      the network first where that is wanted; otherwise it is left off. */
  lemma {:induction false} SwitchesOnExactly(cfg: Config, im: InfraMachine, bmc: Option<BMCConfigurationFields>,
                                             wipe: Option<WipeStatusFields>,
                                             rb: Option<RebootStatus>, op: PowerOperation, calls: PowerCalls, now: nat,
                                             stamp: int, client: Client)
    requires Told(im, bmc, calls, client, false)
    ensures var r, ack := PowerTransform(cfg, im, bmc, wipe, rb, op, calls, now, stamp), Acknowledge(im, op);
            var network := WantsNetwork(cfg, im, bmc, wipe);
            var asked := [IsPoweredOnCall(client)];
      if Stands(im, op) || (!Needed(im, wipe) && im.preferred != PreferOn) then r == PowerResult(ack, Saved, asked)
      else if network && !calls.setPXE then
        r == PowerResult(ack, Failed, asked + [SetPXEBootOnceCall(client, false)])
      else
        && r.acts == (if network then asked + [SetPXEBootOnceCall(client, true)] else asked) +
                     [PowerOnCall(client, calls.powerOn, network)]
        && r.verdict == (if calls.powerOn then Saved else Failed)
        && r.op == if !calls.powerOn then ack
                   else ack.(lastPowerOperation := POWER_STATE_ON, lastPowerOnTimestamp := Some(stamp))
  {
    hide Acknowledge;
    AcknowledgesExactly(im, op);
  }

  /** A machine that is on is switched off exactly when it is not needed, wanted off, and rested. */
  lemma {:induction false} SwitchesOffExactly(cfg: Config, im: InfraMachine, bmc: Option<BMCConfigurationFields>,
                                              wipe: Option<WipeStatusFields>,
                                              rb: Option<RebootStatus>, op: PowerOperation, calls: PowerCalls, now: nat,
                                              stamp: int, client: Client)
    requires cfg.minRebootInterval < TWO63 && Told(im, bmc, calls, client, true)
    ensures var r, ack := PowerTransform(cfg, im, bmc, wipe, rb, op, calls, now, stamp), Acknowledge(im, op);
            var rested := Rested(cfg.minRebootInterval, now, Some(op), rb);
            var asked := [IsPoweredOnCall(client)];
      if Needed(im, wipe) || im.preferred != PreferOff then r == PowerResult(ack, Saved, asked)
      else if !rested then r.op == ack && r.verdict.Requeued? && r.acts == asked
      else if !calls.powerOff then r == PowerResult(ack, Failed, asked + [PowerOffCall(client, false)])
      else r == PowerResult(ack.(lastPowerOperation := POWER_STATE_OFF), Saved, asked + [PowerOffCall(client, true)])
  {
    hide TimeSinceLastPowerOn;
    var ack := Acknowledge(im, op);
    RestedExactly(cfg.minRebootInterval, now, Some(ack), rb);
  }

  /** A machine whose power state nobody tells is switched by nobody; a request is acknowledged all the same, but never
      saved. */
  lemma {:induction false} UntoldExactly(cfg: Config, im: InfraMachine, bmc: Option<BMCConfigurationFields>,
                                         wipe: Option<WipeStatusFields>,
                                         rb: Option<RebootStatus>, op: PowerOperation, calls: PowerCalls, now: nat,
                                         stamp: int)
    requires forall client, on :: !Told(im, bmc, calls, client, on)
    ensures var r := PowerTransform(cfg, im, bmc, wipe, rb, op, calls, now, stamp);
            var open := im.acceptance == Accepted && !im.cordoned && bmc.Some?;
      && r.op == (if open then Acknowledge(im, op) else op)
      && (r.verdict == Skipped <==> !open || bmc.value.manual.Some?)
      && (r.verdict == Failed <==> open && bmc.value.manual.None?)
      && r.acts == if open && bmc.value.manual.None? && GetClient(bmc.value, calls.env).Some?
                   then [IsPoweredOnCall(GetClient(bmc.value, calls.env).value)] else []
  {
    if && im.acceptance == Accepted && !im.cordoned && bmc.Some? && bmc.value.manual.None?
       && GetClient(bmc.value, calls.env).Some? && calls.isPoweredOn.Some? {
      assert Told(im, bmc, calls, GetClient(bmc.value, calls.env).value, calls.isPoweredOn.value);
    }
  }
}
