/** One reconcile of each controller as a function: what it calls, in order, what it leaves in its
    output resource, and whether that output is saved. Calls into the BMC, the agent and the clock
    are inputs. The imperative transforms in `Controllers` are proved against these. */
module Reconcile {
  import opened Wire
  import opened Specs
  import opened Machine

  /** The provider's own settings. Durations are nanoseconds. */
  datatype Config = Config(minRebootInterval: int, alwaysNetboot: bool, allowMachinesWithoutBMC: bool,
                           bootFromDisk: BootFromDisk)

  const SECOND := 1_000_000_000

  /** How a transform returns. The output resource is saved only on `Saved`. */
  datatype Verdict = Saved | Skipped | Requeued(delay: int) | Failed

  /** A call leaving the provider, with its success. `needsPXE` records whether the reconcile wanted
      the machine to come up from the network. */
  datatype Action =
    | IsPoweredOnCall(client: Client)
    | SetPXEBootOnceCall(client: Client, ok: bool)
    | PowerOnCall(client: Client, ok: bool, needsPXE: bool)
    | PowerOffCall(client: Client, ok: bool)
    | RebootCall(client: Client, ok: bool, needsPXE: bool)
    | AgentRebootCall(ok: bool)
    | WipeDisksCall(ok: bool, wipeId: Text, installEventId: uint64)
    | SetPowerManagementCall(ok: bool, password: Option<Text>)

  // ------------------------------------------------------------------------- time

  /** Go's zero time, the year 1, and the saturating difference of two times. */
  const ZERO_TIME := -62_135_596_800 * SECOND

  function TimeSince(now: int, past: int): int {
    if now - past >= TWO63 then TWO63 - 1 else if now - past < -TWO63 then -TWO63 else now - past
  }

  function LastPowerOn(op: Option<PowerOperation>, rb: Option<RebootStatus>): int {
    var on := if op.Some? && op.value.lastPowerOnTimestamp.Some? then op.value.lastPowerOnTimestamp.value
      else ZERO_TIME;
    if rb.Some? && rb.value.lastRebootTimestamp.Some? && rb.value.lastRebootTimestamp.value > on
    then rb.value.lastRebootTimestamp.value else on
  }

  function TimeSinceLastPowerOn(now: int, op: Option<PowerOperation>, rb: Option<RebootStatus>): int {
    TimeSince(now, LastPowerOn(op, rb))
  }

  /** The requeue delay, in wrapping 64-bit arithmetic. */
  function RequeueDelay(interval: int, elapsed: int): int {
    Int64(Int64(interval - elapsed) + SECOND)
  }

  // ------------------------------------------------------------------------- power operation

  datatype PowerCalls = PowerCalls(env: ClientEnv, isPoweredOn: Option<bool>, setPXE: bool, powerOn: bool,
                                   powerOff: bool)

  datatype PowerResult = PowerResult(op: PowerOperation, verdict: Verdict, acts: seq<Action>)

  /** A new power-off request is acknowledged together with the wipe id it was made under. */
  function Acknowledge(im: InfraMachine, op: PowerOperation): PowerOperation {
    if im.powerOffRequestId != [] && im.powerOffRequestId != op.lastPowerOffId
    then op.(lastPowerOffId := im.powerOffRequestId, wipeIdAtPowerOff := im.wipeId)
    else op
  }

  /** `now` is the wall clock at the cooldown check, `stamp` the injected clock when a power-on is recorded. */
  function PowerTransform(cfg: Config, im: InfraMachine, bmc: Option<BMCConfigurationFields>,
                          wipe: Option<WipeStatusFields>,
                          rb: Option<RebootStatus>, op: PowerOperation, calls: PowerCalls, now: int,
                          stamp: int): PowerResult
  {
    if !Admitted(im) || bmc.None? then PowerResult(op, Skipped, [])
    else
      var ack := Acknowledge(im, op);
      match GetClient(bmc.value, calls.env)
      case None => PowerResult(ack, Failed, [])
      case Some(client) =>
        var capabilities := CapabilitiesOf(client);
        if !(capabilities.powerControl && capabilities.powerState) then PowerResult(ack, Skipped, [])
        else if calls.isPoweredOn.None? then PowerResult(ack, Failed, [IsPoweredOnCall(client)])
        else PowerSwitch(cfg, im, bmc.value, wipe, rb, ack, calls, now, stamp, client)
  }

  /** The three-way switch of the power transform, the machine's power state being known. */
  function PowerSwitch(cfg: Config, im: InfraMachine, bmc: BMCConfigurationFields, wipe: Option<WipeStatusFields>,
                       rb: Option<RebootStatus>, op: PowerOperation, calls: PowerCalls, now: int, stamp: int,
                       client: Client): PowerResult
    requires calls.isPoweredOn.Some?
  {
    var on, needed := calls.isPoweredOn.value, RequiresPowerOn(im, wipe);
    var asked := [IsPoweredOnCall(client)];
    if !on && !IsPowerOffActive(Some(im), Some(op)) && (needed || im.preferred == PreferOn) then
      var pxe := RequiresPXEBoot(RequiredBootMode(Some(im), Some(bmc), wipe, cfg.alwaysNetboot));
      var prepared := if pxe then asked + [SetPXEBootOnceCall(client, calls.setPXE)] else asked;
      if pxe && !calls.setPXE then PowerResult(op, Failed, prepared)
      else if !calls.powerOn then PowerResult(op, Failed, prepared + [PowerOnCall(client, false, pxe)])
      else PowerResult(op.(lastPowerOperation := POWER_STATE_ON, lastPowerOnTimestamp := Some(stamp)),
                       Saved, prepared + [PowerOnCall(client, true, pxe)])
    else if on && !needed && im.preferred == PreferOff then
      var elapsed := TimeSinceLastPowerOn(now, Some(op), rb);
      if elapsed < cfg.minRebootInterval then PowerResult(op, Requeued(RequeueDelay(cfg.minRebootInterval, elapsed)),
                                                          asked)
      else if !calls.powerOff then PowerResult(op, Failed, asked + [PowerOffCall(client, false)])
      else PowerResult(op.(lastPowerOperation := POWER_STATE_OFF), Saved, asked + [PowerOffCall(client, true)])
    else PowerResult(op, Saved, asked)
  }

  // ------------------------------------------------------------------------- reboot

  datatype RebootCalls = RebootCalls(env: ClientEnv, setPXE: bool, reboot: bool, agentReboot: bool)

  datatype RebootResult = RebootResult(rb: RebootStatus, verdict: Verdict, acts: seq<Action>)

  datatype ChannelResult = ChannelResult(verdict: Verdict, acts: seq<Action>)

  function RebootOverAnyChannel(bmc: BMCConfigurationFields, needsPXE: bool, agentAccessible: bool,
                                calls: RebootCalls): ChannelResult {
    match GetClient(bmc, calls.env)
    case None => ChannelResult(Failed, [])
    case Some(client) =>
      if CapabilitiesOf(client).reboot then
        var setPXE := needsPXE && CapabilitiesOf(client).bootDeviceControl;
        var prepared := if setPXE then [SetPXEBootOnceCall(client, calls.setPXE)] else [];
        if setPXE && !calls.setPXE then ChannelResult(Failed, prepared)
        else ChannelResult(if calls.reboot then Saved
                           else Failed, prepared + [RebootCall(client, calls.reboot, needsPXE)])
      else if agentAccessible then ChannelResult(if calls.agentReboot then Saved
                                                 else Failed, [AgentRebootCall(calls.agentReboot)])
      else ChannelResult(Skipped, [])
  }

  /** `now` is the clock at the cooldown check, `stamp` the clock when the reboot is recorded. */
  function Reboot(cfg: Config, im: InfraMachine, bmc: BMCConfigurationFields, op: Option<PowerOperation>,
                  needsPXE: bool,
                  agentAccessible: bool, rb: Option<RebootStatus>, calls: RebootCalls, now: int,
                  stamp: int): RebootResult
  {
    var held := if rb.Some? then rb.value else NO_REBOOT_STATUS;
    var elapsed := TimeSinceLastPowerOn(now, op, rb);
    if elapsed < cfg.minRebootInterval then RebootResult(held, Requeued(RequeueDelay(cfg.minRebootInterval, elapsed)),
                                                         [])
    else
      var sent := RebootOverAnyChannel(bmc, needsPXE, agentAccessible, calls);
      if sent.verdict == Saved
      then RebootResult(RebootStatus(im.requestedRebootId, Some(stamp)), Saved, sent.acts)
      else RebootResult(held, sent.verdict, sent.acts)
  }

  const NO_REBOOT_STATUS := RebootStatus([], None)
  const NO_POWER_OPERATION := PowerOperation(POWER_STATE_UNKNOWN, None, [], [])

  /** Whether the machine runs something else than it is required to, as far as the provider may fix
      it: booting from disk is left to Omni. */
  predicate ModeMismatch(mode: BootMode, agentAccessible: bool) {
    (mode == AgentPXE && !agentAccessible) || (mode == TalosPXE && agentAccessible)
  }

  predicate RequiresReboot(cfg: Config, im: InfraMachine, bmc: BMCConfigurationFields, wipe: Option<WipeStatusFields>,
                           agentAccessible: bool) {
    && RequiresPowerOn(im, wipe)
    && ModeMismatch(RequiredBootMode(Some(im), Some(bmc), wipe, cfg.alwaysNetboot), agentAccessible)
  }

  function RebootTransform(cfg: Config, im: InfraMachine, bmc: Option<BMCConfigurationFields>,
                           wipe: Option<WipeStatusFields>,
                           op: Option<PowerOperation>, ms: Option<MachineStatusFields>, rb: RebootStatus,
                           calls: RebootCalls, now: int, stamp: int): RebootResult
  {
    if !Admitted(im) || bmc.None? || ms.None? then RebootResult(rb, Skipped, [])
    else
      var pxe := RequiresPXEBoot(RequiredBootMode(Some(im), bmc, wipe, cfg.alwaysNetboot));
      if RequiresReboot(cfg, im, bmc.value, wipe, ms.value.agentAccessible) || rb.lastRebootId != im.requestedRebootId
      then Reboot(cfg, im, bmc.value, op, pxe, ms.value.agentAccessible, Some(rb), calls, now, stamp)
      else RebootResult(rb, Saved, [])
  }

  /** The parting reboot of a machine that is going away: towards the agent, with no history to cool
      down from and no status to record it in; whatever it returns is only logged. */
  function AttemptRebootOnRemoval(cfg: Config, im: InfraMachine, bmc: Option<BMCConfigurationFields>,
                                  ms: Option<MachineStatusFields>, calls: RebootCalls, now: int): seq<Action>
  {
    if bmc.None? || ms.None? || ms.value.agentAccessible then []
    else Reboot(cfg, im, bmc.value, None, true, false, None, calls, now, now).acts
  }

  // ------------------------------------------------------------------------- wipe

  datatype WipeResult = WipeResult(wipe: WipeStatusFields, verdict: Verdict, acts: seq<Action>)

  function WipeTransform(im: InfraMachine, ms: Option<MachineStatusFields>, wipe: WipeStatusFields,
                         ok: bool): WipeResult {
    if !Admitted(im) || ms.None? || !RequiresWipe(Some(im), Some(wipe)) || !ms.value.agentAccessible
    then WipeResult(wipe, Skipped, [])
    else if !ok then WipeResult(wipe, Failed, [WipeDisksCall(false, im.wipeId, im.installEventId)])
    else WipeResult(WipeStatusFields(im.wipeId, im.installEventId, true, im.nodeUniqueToken), Saved,
                    [WipeDisksCall(true, im.wipeId, im.installEventId)])
  }

  // ------------------------------------------------------------------------- BMC configuration

  const IPMI_USERNAME: Text := [116, 97, 108, 111, 115, 45, 97, 103, 101, 110, 116] // "talos-agent"
  const IPMI_DEFAULT_PORT: uint32 := 623

  datatype UserIPMI = UserIPMI(address: Text, port: uint32, username: Text, password: Text)
  datatype UserConfig = UserConfig(ipmi: Option<UserIPMI>, api: Option<Text>)

  /** The agent's answer about power management. `internal` and `mentionsIPMI` are the two marks by
      which an error is taken to mean that there is no BMC at all. */
  datatype PowerManagement =
    | AgentError(internal: bool, mentionsIPMI: bool)
    | Reported(api: bool, ipmi: Option<(Text, uint32)>)

  /** `password` is what the generator returned; `address` what the API state directory holds. */
  datatype BMCCalls = BMCCalls(reported: PowerManagement, password: Option<Text>, accepted: bool, address: Option<Text>)

  datatype BMCResult = BMCResult(bmc: BMCConfigurationFields, verdict: Verdict, acts: seq<Action>)

  predicate HasNoBMC(cfg: Config, pm: PowerManagement) {
    cfg.allowMachinesWithoutBMC &&
    match pm
    case AgentError(internal, mentionsIPMI) => internal && mentionsIPMI
    case Reported(api, ipmi) => !api && ipmi.None?
  }

  function StoreUserProvided(user: UserConfig, bmc: BMCConfigurationFields): BMCConfigurationFields {
    var ipmi := if user.ipmi.None? then bmc.ipmi else
      Some(Msg(IPMIFields(user.ipmi.value.address,
                          if user.ipmi.value.port == 0 then IPMI_DEFAULT_PORT else user.ipmi.value.port,
                          user.ipmi.value.username, user.ipmi.value.password), []));
    var api := if user.api.None? then bmc.api else Some(Msg(APIFields(user.api.value), []));
    BMCConfigurationFields(ipmi, api, true, None)
  }

  /** `user` is the operator's BMC config resource, if there is one, with its possibly missing body. */
  function BMCTransform(cfg: Config, im: InfraMachine, ms: Option<MachineStatusFields>,
                        user: Option<Option<UserConfig>>,
                        bmc: BMCConfigurationFields, calls: BMCCalls): BMCResult
  {
    if !Admitted(im) || ms.None? || !ms.value.agentAccessible then BMCResult(bmc, Skipped, [])
    else if user.Some? then
      if user.value.None? then BMCResult(bmc, Failed, [])
      else BMCResult(StoreUserProvided(user.value.value, bmc), Saved, [])
    else if AgentDerived(bmc) then BMCResult(bmc, Skipped, [])
    else if HasNoBMC(cfg, calls.reported) then
      BMCResult(bmc.(manuallyConfigured := false, manual := Some(NO_MANUAL)), Saved, [])
    else if calls.reported.AgentError? then BMCResult(bmc, Failed, [])
    else DeriveFromAgent(bmc, calls)
  }

  /** Recorded from the agent's report rather than from the operator. */
  predicate AgentDerived(bmc: BMCConfigurationFields) {
    !bmc.manuallyConfigured && (bmc.api.Some? || bmc.ipmi.Some? || bmc.manual.Some?)
  }

  /** Sets fresh credentials on the agent, then records them. An API address that cannot be read
      fails the transform after the agent has taken the new password. */
  function DeriveFromAgent(bmc: BMCConfigurationFields, calls: BMCCalls): BMCResult
    requires calls.reported.Reported?
  {
    var ipmi := calls.reported.ipmi;
    if !calls.reported.api && ipmi.None? then BMCResult(bmc, Failed, [])
    else if ipmi.Some? && calls.password.None? then BMCResult(bmc, Failed, [])
    else
      var password := if ipmi.Some? then calls.password else None;
      var acts := [SetPowerManagementCall(calls.accepted, password)];
      var derived := bmc.(manuallyConfigured := false);
      if !calls.accepted then BMCResult(bmc, Failed, acts)
      else if calls.reported.api && calls.address.None? then BMCResult(derived, Failed, acts)
      else
        var withAPI := if calls.reported.api then derived.(api := Some(Msg(APIFields(calls.address.value), [])))
          else derived;
        var full := if ipmi.None? then withAPI else
          withAPI.(ipmi := Some(Msg(IPMIFields(ipmi.value.0, ipmi.value.1, IPMI_USERNAME, password.value), [])));
        BMCResult(full, Saved, acts)
  }

  // ------------------------------------------------------------------------- machine status

  /** `agent` is whether the agent's tunnel is up and it answered a ping. */
  datatype PollCalls = PollCalls(env: ClientEnv, isPoweredOn: Option<bool>, agent: bool)

  datatype PollResult = PollResult(powerState: int32, agentAccessible: bool, acts: seq<Action>)

  function PollSingle(bmc: Option<BMCConfigurationFields>, calls: PollCalls): PollResult {
    var manual := IsManuallyPowered(bmc);
    var client := if bmc.None? || manual then None else GetClient(bmc.value, calls.env);
    var acts := if client.None? then [] else [IsPoweredOnCall(client.value)];
    var power :=
      if client.None? || calls.isPoweredOn.None? then POWER_STATE_UNKNOWN
      else if calls.isPoweredOn.value then POWER_STATE_ON else POWER_STATE_OFF;
    var accessible := power != POWER_STATE_OFF && calls.agent;
    PollResult(if manual && accessible then POWER_STATE_ON else power, accessible, acts)
  }
}
