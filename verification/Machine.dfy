/** What a machine is required to be doing, decided from the Omni record and the provider's own
    resources, and what its BMC client can do. */
module Machine {
  import opened Wire
  import opened Specs

  datatype Acceptance = Pending | Accepted | Rejected

  datatype Phase = Running | TearingDown

  /** Omni's preferred power state is an open enum; the provider compares it with on and off only. */
  datatype Preferred = PreferOff | PreferOn | PreferOther

  /** The Omni record of a machine. */
  datatype InfraMachine = InfraMachine(
    phase: Phase,
    acceptance: Acceptance,
    cordoned: bool,
    clusterTalosVersion: Text,
    wipeId: Text,
    installEventId: uint64,
    requestedRebootId: Text,
    powerOffRequestId: Text,
    preferred: Preferred,
    nodeUniqueToken: Text)

  /** Timestamps are nanoseconds since the Unix epoch. */
  datatype RebootStatus = RebootStatus(lastRebootId: Text, lastRebootTimestamp: Option<int>)

  datatype PowerOperation = PowerOperation(
    lastPowerOperation: int32, lastPowerOnTimestamp: Option<int>, lastPowerOffId: Text, wipeIdAtPowerOff: Text)

  const POWER_STATE_UNKNOWN: int32 := 0
  const POWER_STATE_OFF: int32 := 1
  const POWER_STATE_ON: int32 := 2

  predicate KnownPower(state: int32) {
    state == POWER_STATE_UNKNOWN || state == POWER_STATE_OFF || state == POWER_STATE_ON
  }

  datatype BootMode = AgentPXE | TalosPXE | TalosDisk

  // ------------------------------------------------------------------------- predicates

  predicate Allocated(im: InfraMachine) { im.clusterTalosVersion != [] }

  predicate IsManuallyPowered(bmc: Option<BMCConfigurationFields>) {
    bmc.Some? && bmc.value.manual.Some?
  }

  /** There is a BMC to talk to. */
  predicate HasBMC(bmc: BMCConfigurationFields) { bmc.manual.None? && (bmc.ipmi.Some? || bmc.api.Some?) }

  predicate IsInstalled(im: Option<InfraMachine>, wipe: Option<WipeStatusFields>) {
    im.Some? && im.value.installEventId > (if wipe.Some? then wipe.value.lastWipeInstallEventId else 0)
  }

  predicate RequiresWipe(im: Option<InfraMachine>, wipe: Option<WipeStatusFields>) {
    im.None? || wipe.None? || !wipe.value.initialWipeDone || im.value.wipeId != wipe.value.lastWipeId
  }

  function RequiredBootMode(im: Option<InfraMachine>, bmc: Option<BMCConfigurationFields>,
                            wipe: Option<WipeStatusFields>, alwaysNetboot: bool): BootMode
  {
    var acceptance := if im.None? then Pending else im.value.acceptance;
    var tearingDown := im.Some? && im.value.phase == TearingDown;
    var owned := im.Some? && Allocated(im.value);
    if acceptance == Rejected then TalosDisk
    else if tearingDown || acceptance == Pending || !owned || bmc.None? || RequiresWipe(im, wipe) then AgentPXE
    else if IsInstalled(im, wipe) && !alwaysNetboot then TalosDisk
    else TalosPXE
  }

  predicate RequiresPXEBoot(mode: BootMode) { mode == AgentPXE || mode == TalosPXE }

  predicate RequiresPowerOn(im: InfraMachine, wipe: Option<WipeStatusFields>) {
    Allocated(im) || IsInstalled(Some(im), wipe) || RequiresWipe(Some(im), wipe)
  }

  predicate IsPowerOffActive(im: Option<InfraMachine>, op: Option<PowerOperation>) {
    && im.Some? && op.Some?
    && op.value.lastPowerOffId != []
    && op.value.lastPowerOffId == im.value.powerOffRequestId
    && op.value.wipeIdAtPowerOff == im.value.wipeId
  }

  predicate Admitted(im: InfraMachine) { im.acceptance == Accepted && !im.cordoned }

  /** A machine is sent to Talos exactly when it is rejected, or is Omni's to use: recorded, not going
      away, accepted, allocated, configured, and wiped for the wipe id Omni asks for now. */
  lemma {:induction false} TalosOnlyAfterWipe(im: Option<InfraMachine>, bmc: Option<BMCConfigurationFields>,
                                              wipe: Option<WipeStatusFields>, alwaysNetboot: bool)
    ensures RequiredBootMode(im, bmc, wipe, alwaysNetboot) != AgentPXE <==>
            im.Some? &&
            (im.value.acceptance == Rejected ||
             (&& im.value.phase == Running && im.value.acceptance == Accepted && Allocated(im.value)
              && bmc.Some? && wipe.Some? && wipe.value.initialWipeDone && wipe.value.lastWipeId == im.value.wipeId))
  {
  }

  // ------------------------------------------------------------------------- the boot handler

  /** The ways of booting from disk. Answering "not found" is one: iPXE then gives up and the firmware
      goes on to the next boot device. */
  datatype BootFromDisk = Boot404 | BootIPXEExit | BootSANDisk

  /** What the iPXE handler answers: one of the boot modes, or nothing for a cordoned or rejected machine.
      A disk boot by "not found" is the same response as the latter, given for another reason. */
  datatype BootDecision = NotFound | BootAgent | BootTalosNet(version: Text) | BootDisk(how: BootFromDisk)

  function MakeBootDecision(im: Option<InfraMachine>, bmc: Option<BMCConfigurationFields>,
                            wipe: Option<WipeStatusFields>, alwaysNetboot: bool, how: BootFromDisk): BootDecision
  {
    if im.Some? && im.value.cordoned then NotFound
    else if im.Some? && im.value.acceptance == Rejected then NotFound
    else
      match RequiredBootMode(im, bmc, wipe, alwaysNetboot)
      case AgentPXE => BootAgent
      case TalosPXE => BootTalosNet(im.value.clusterTalosVersion)
      case TalosDisk => BootDisk(how)
  }

  // ------------------------------------------------------------------------- BMC clients

  datatype Capabilities = Capabilities(powerState: bool, powerControl: bool, bootDeviceControl: bool, reboot: bool)

  const FULL := Capabilities(true, true, true, true)
  const NOTHING := Capabilities(false, false, false, false)

  datatype Client = ManualClient | APIClient | RedfishClient | IPMIClient

  function CapabilitiesOf(client: Client): Capabilities {
    if client == ManualClient then NOTHING else FULL
  }

  /** The outside facts client construction depends on. */
  datatype ClientEnv = ClientEnv(redfishAlways: bool, redfishAvailable: bool, apiReachable: bool, ipmiReachable: bool)

  function GetClient(bmc: BMCConfigurationFields, env: ClientEnv): Option<Client> {
    if bmc.ipmi.None? && bmc.api.None? && bmc.manual.None? then None
    else if bmc.manual.Some? then Some(ManualClient)
    else if bmc.api.Some? then (if env.apiReachable then Some(APIClient) else None)
    else if env.redfishAlways || env.redfishAvailable then Some(RedfishClient)
    else if env.ipmiReachable then Some(IPMIClient)
    else None
  }

  /** A client can do everything or nothing, and nothing exactly when the machine is manually powered. */
  lemma {:induction false} CapabilitiesAllOrNothing(bmc: BMCConfigurationFields, env: ClientEnv)
    requires GetClient(bmc, env).Some?
    ensures var c := CapabilitiesOf(GetClient(bmc, env).value);
            (c == FULL || c == NOTHING) && (c == NOTHING <==> IsManuallyPowered(Some(bmc)))
  {
  }
}
