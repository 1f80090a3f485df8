/** The controllers' transforms as they run: calls in order, fields written one at a time, early
    returns. Each is proved against its function in `Reconcile`, which is what the run properties
    are stated about. */
module Controllers {
  import opened Wire
  import opened Specs
  import opened SpecsCodec
  import opened Machine
  import opened Reconcile

  /** One reconcile's connection to the outside. The answers are given; the calls are recorded. */
  class Session {
    var acts: seq<Action>

    constructor ()
      ensures acts == []
    {
      acts := [];
    }

    method Call(a: Action)
      modifies this
      ensures acts == old(acts) + [a]
    {
      acts := acts + [a];
    }
  }

  // ------------------------------------------------------------------------- power operation

  class PowerOperationSpec {
    var lastPowerOperation: int32
    var lastPowerOnTimestamp: Option<int>
    var lastPowerOffId: Text
    var wipeIdAtPowerOff: Text

    constructor ()
      ensures Value() == NO_POWER_OPERATION
    {
      lastPowerOperation, lastPowerOnTimestamp, lastPowerOffId, wipeIdAtPowerOff := POWER_STATE_UNKNOWN, None, [], [];
    }

    function Value(): PowerOperation
      reads this
    {
      PowerOperation(lastPowerOperation, lastPowerOnTimestamp, lastPowerOffId, wipeIdAtPowerOff)
    }

    /** The power operation transform. The acknowledgement is written before anything can fail; it is
        the runtime that drops it when the transform does. */
    method Transform(cfg: Config, im: InfraMachine, bmc: Option<BMCConfigurationFields>, wipe: Option<WipeStatusFields>,
                     rb: Option<RebootStatus>, calls: PowerCalls, now: int, stamp: int, session: Session)
                       returns (verdict: Verdict)
      modifies this, session
      ensures var r := PowerTransform(cfg, im, bmc, wipe, rb, old(Value()), calls, now, stamp);
              verdict == r.verdict && Value() == r.op && session.acts == old(session.acts) + r.acts
    {
      ghost var before := session.acts;
      hide PowerSwitch, RequiresPowerOn, GetClient, IsPowerOffActive;
      assert before + [] == before;
      if !Admitted(im) || bmc.None? {
        return Skipped;
      }
      var requiresPowerOn := RequiresPowerOn(im, wipe);
      if im.powerOffRequestId != [] && im.powerOffRequestId != lastPowerOffId {
        lastPowerOffId := im.powerOffRequestId;
        wipeIdAtPowerOff := im.wipeId;
      }
      assert Value() == Acknowledge(im, old(Value()));
      var powerOffActive := IsPowerOffActive(Some(im), Some(Value()));
      var client := GetClient(bmc.value, calls.env);
      if client.None? {
        return Failed;
      }
      var capabilities := CapabilitiesOf(client.value);
      if !(capabilities.powerControl && capabilities.powerState) {
        return Skipped;
      }
      verdict := Switch(cfg, im, bmc.value, wipe, rb, calls, now, stamp, client.value, powerOffActive, requiresPowerOn,
                        session);
    }

    /** Asks for the power state and brings it where it should be. */
    method Switch(cfg: Config, im: InfraMachine, bmc: BMCConfigurationFields, wipe: Option<WipeStatusFields>,
                  rb: Option<RebootStatus>,
                  calls: PowerCalls, now: int, stamp: int, client: Client, powerOffActive: bool, requiresPowerOn: bool,
                  session: Session)
      returns (verdict: Verdict)
      requires powerOffActive == IsPowerOffActive(Some(im), Some(Value())) &&
               requiresPowerOn == RequiresPowerOn(im, wipe)
      modifies this, session
      ensures calls.isPoweredOn.None? ==>
                verdict == Failed && Value() == old(Value()) &&
                  session.acts == old(session.acts) + [IsPoweredOnCall(client)]
      ensures calls.isPoweredOn.Some? ==>
                var r := PowerSwitch(cfg, im, bmc, wipe, rb, old(Value()), calls, now, stamp, client);
                verdict == r.verdict && Value() == r.op && session.acts == old(session.acts) + r.acts
    {
      hide RequiredBootMode, RequiresPowerOn, TimeSinceLastPowerOn, IsPowerOffActive;
      ghost var before, asked := session.acts, [IsPoweredOnCall(client)];
      session.Call(IsPoweredOnCall(client));
      if calls.isPoweredOn.None? {
        return Failed;
      }
      var isPoweredOn := calls.isPoweredOn.value;
      if !isPoweredOn && !powerOffActive && (requiresPowerOn || im.preferred == PreferOn) {
        var mode := RequiredBootMode(Some(im), Some(bmc), wipe, cfg.alwaysNetboot);
        if RequiresPXEBoot(mode) {
          session.Call(SetPXEBootOnceCall(client, calls.setPXE));
          asked := asked + [SetPXEBootOnceCall(client, calls.setPXE)];
          assert session.acts == before + asked;
          if !calls.setPXE {
            return Failed;
          }
        }
        session.Call(PowerOnCall(client, calls.powerOn, RequiresPXEBoot(mode)));
        assert session.acts == before + (asked + [PowerOnCall(client, calls.powerOn, RequiresPXEBoot(mode))]);
        if !calls.powerOn {
          return Failed;
        }
        lastPowerOperation := POWER_STATE_ON;
        lastPowerOnTimestamp := Some(stamp);
      } else if isPoweredOn && !requiresPowerOn && im.preferred == PreferOff {
        var elapsed := TimeSinceLastPowerOn(now, Some(Value()), rb);
        if elapsed < cfg.minRebootInterval {
          return Requeued(RequeueDelay(cfg.minRebootInterval, elapsed));
        }
        session.Call(PowerOffCall(client, calls.powerOff));
        assert session.acts == before + (asked + [PowerOffCall(client, calls.powerOff)]);
        if !calls.powerOff {
          return Failed;
        }
        lastPowerOperation := POWER_STATE_OFF;
      }
      return Saved;
    }
  }

  // ------------------------------------------------------------------------- reboot

  class RebootStatusSpec {
    var lastRebootId: Text
    var lastRebootTimestamp: Option<int>

    constructor ()
      ensures Value() == NO_REBOOT_STATUS
    {
      lastRebootId, lastRebootTimestamp := [], None;
    }

    function Value(): RebootStatus
      reads this
    {
      RebootStatus(lastRebootId, lastRebootTimestamp)
    }

    method Transform(cfg: Config, im: InfraMachine, bmc: Option<BMCConfigurationFields>, wipe: Option<WipeStatusFields>,
                     op: Option<PowerOperation>, ms: Option<MachineStatusFields>, calls: RebootCalls, now: int,
                     stamp: int,
                     session: Session) returns (verdict: Verdict)
      modifies this, session
      ensures var r := RebootTransform(cfg, im, bmc, wipe, op, ms, old(Value()), calls, now, stamp);
              verdict == r.verdict && Value() == r.rb && session.acts == old(session.acts) + r.acts
    {
      hide RequiredBootMode, RequiresPowerOn, Reboot;
      ghost var before := session.acts;
      assert before + [] == before;
      if !Admitted(im) || bmc.None? || ms.None? {
        return Skipped;
      }
      var mode := RequiredBootMode(Some(im), bmc, wipe, cfg.alwaysNetboot);
      var accessible := ms.value.agentAccessible;
      var requiresReboot := RequiresPowerOn(im, wipe) &&
        ((mode == AgentPXE && !accessible) || (mode == TalosPXE && accessible));
      if requiresReboot {
        verdict := DoReboot(cfg, im, bmc.value, op, RequiresPXEBoot(mode), accessible, this, calls, now, stamp,
                            session);
        return;
      }
      if lastRebootId != im.requestedRebootId {
        verdict := DoReboot(cfg, im, bmc.value, op, RequiresPXEBoot(mode), accessible, this, calls, now, stamp,
                            session);
        return;
      }
      return Saved;
    }
  }

  function HeldBy(rb: RebootStatusSpec?): Option<RebootStatus>
    reads rb
  {
    if rb == null then None else Some(rb.Value())
  }

  /** Cools down, reboots, and records it where there is a status to record it in. */
  method DoReboot(cfg: Config, im: InfraMachine, bmc: BMCConfigurationFields, op: Option<PowerOperation>,
                  needsPXE: bool,
                agentAccessible: bool, rb: RebootStatusSpec?, calls: RebootCalls, now: int, stamp: int,
                session: Session)
    returns (verdict: Verdict)
    modifies rb, session
    ensures var r := Reboot(cfg, im, bmc, op, needsPXE, agentAccessible, old(HeldBy(rb)), calls, now, stamp);
            && verdict == r.verdict && session.acts == old(session.acts) + r.acts
            && (rb != null ==> rb.Value() == r.rb)
  {
    hide TimeSinceLastPowerOn, RebootOverAnyChannel;
    var elapsed := TimeSinceLastPowerOn(now, op, HeldBy(rb));
    if elapsed < cfg.minRebootInterval {
      assert session.acts + [] == session.acts;
      return Requeued(RequeueDelay(cfg.minRebootInterval, elapsed));
    }
    var sent := DoRebootOverAnyChannel(bmc, needsPXE, agentAccessible, calls, session);
    if sent != Saved {
      return sent;
    }
    if rb != null {
      rb.lastRebootId := im.requestedRebootId;
      rb.lastRebootTimestamp := Some(stamp);
    }
    return Saved;
  }

  /** The BMC where it can reboot, else an agent that is there, else a human. */
  method DoRebootOverAnyChannel(bmc: BMCConfigurationFields, needsPXE: bool, agentAccessible: bool, calls: RebootCalls,
                                session: Session)
    returns (verdict: Verdict)
    modifies session
    ensures var r := RebootOverAnyChannel(bmc, needsPXE, agentAccessible, calls);
            verdict == r.verdict && session.acts == old(session.acts) + r.acts
  {
    hide GetClient;
    assert session.acts + [] == session.acts;
    var client := GetClient(bmc, calls.env);
    if client.None? {
      return Failed;
    }
    var capabilities := CapabilitiesOf(client.value);
    if capabilities.reboot {
      if needsPXE && capabilities.bootDeviceControl {
        session.Call(SetPXEBootOnceCall(client.value, calls.setPXE));
        if !calls.setPXE {
          return Failed;
        }
      }
      session.Call(RebootCall(client.value, calls.reboot, needsPXE));
      return if calls.reboot then Saved else Failed;
    }
    if agentAccessible {
      session.Call(AgentRebootCall(calls.agentReboot));
      return if calls.agentReboot then Saved else Failed;
    }
    return Skipped;
  }

  method DoAttemptRebootOnRemoval(cfg: Config, im: InfraMachine, bmc: Option<BMCConfigurationFields>,
                                  ms: Option<MachineStatusFields>,
                                calls: RebootCalls, now: int, session: Session)
    modifies session
    ensures session.acts == old(session.acts) + AttemptRebootOnRemoval(cfg, im, bmc, ms, calls, now)
  {
    assert session.acts + [] == session.acts;
    if bmc.None? || ms.None? || ms.value.agentAccessible {
      return;
    }
    var _ := DoReboot(cfg, im, bmc.value, None, true, false, null, calls, now, now, session);
  }

  // ------------------------------------------------------------------------- wipe

  method TransformWipeStatus(im: InfraMachine, ms: Option<MachineStatusFields>, wipe: WipeStatusSpec, ok: bool,
                             session: Session)
    returns (verdict: Verdict)
    modifies wipe, session
    ensures var r := WipeTransform(im, ms, old(wipe.Value().f), ok);
            && verdict == r.verdict && session.acts == old(session.acts) + r.acts
            && wipe.Value() == Msg(r.wipe, old(wipe.unknownFields))
  {
    assert session.acts + [] == session.acts;
    if !Admitted(im) || ms.None? || !RequiresWipe(Some(im), Some(wipe.Value().f)) || !ms.value.agentAccessible {
      return Skipped;
    }
    session.Call(WipeDisksCall(ok, im.wipeId, im.installEventId));
    if !ok {
      return Failed;
    }
    wipe.initialWipeDone := true;
    wipe.lastWipeId := im.wipeId;
    wipe.lastWipeInstallEventId := im.installEventId;
    wipe.wipedNodeUniqueToken := im.nodeUniqueToken;
    return Saved;
  }

  // ------------------------------------------------------------------------- BMC configuration

  const IPMI_PASSWORD_LENGTH := 16

  /** a-z, A-Z and 0-9. */
  function Runes(): seq<byte> {
    seq(26, i requires 0 <= i < 26 => (97 + i) as byte) + seq(26, i requires 0 <= i < 26 => (65 + i) as byte) +
      seq(10, i requires 0 <= i < 10 => (48 + i) as byte)
  }

  /** The password the draws spell, or none when one of them failed. */
  method GenerateIPMIPassword(draws: seq<Option<nat>>) returns (password: Option<Text>)
    requires |draws| == IPMI_PASSWORD_LENGTH
    requires forall d <- draws :: d.Some? ==> d.value < |Runes()|
    ensures password.None? <==> None in draws
    ensures password.Some? ==>
              && |password.value| == IPMI_PASSWORD_LENGTH
              && forall i :: 0 <= i < IPMI_PASSWORD_LENGTH ==> password.value[i] == Runes()[draws[i].value]
  {
    var b: seq<byte> := [];
    for i := 0 to IPMI_PASSWORD_LENGTH
      invariant |b| == i
      invariant forall j :: 0 <= j < i ==> draws[j].Some? && b[j] == Runes()[draws[j].value]
    {
      if draws[i].None? {
        return None;
      }
      assert draws[i] in draws;
      b := b + [Runes()[draws[i].value]];
    }
    return Some(b);
  }

  /** The operator's configuration replaces what it mentions and ends manual power. */
  method StoreUserProvidedBMCConfig(user: UserConfig, bmc: BMCConfigurationSpec)
    modifies bmc
    ensures bmc.Value() == Msg(StoreUserProvided(user, old(bmc.Value().f)), old(bmc.unknownFields))
    ensures bmc.ipmi == old(bmc.ipmi) || fresh(bmc.ipmi)
    ensures bmc.api == old(bmc.api) || fresh(bmc.api)
  {
    bmc.manuallyConfigured := true;
    bmc.manual := null;
    if user.ipmi.Some? {
      var given := user.ipmi.value;
      var ipmi := new IPMISpec();
      ipmi.address, ipmi.username, ipmi.password := given.address, given.username, given.password;
      ipmi.port := if given.port == 0 then IPMI_DEFAULT_PORT else given.port;
      bmc.ipmi := ipmi;
    }
    if user.api.Some? {
      var api := new APISpec();
      api.address := user.api.value;
      bmc.api := api;
    }
  }

  /** Sets fresh credentials on the agent. */
  method EnsurePowerManagementOnAgent(calls: BMCCalls, session: Session) returns (ok: bool, password: Option<Text>)
    requires calls.reported.Reported?
    modifies session
    ensures var r := DeriveFromAgent(NO_BMC.f, calls);
            && session.acts == old(session.acts) + r.acts
            && (ok <==> r.acts != [] && calls.accepted)
            && (ok ==> password == if calls.reported.ipmi.Some? then calls.password else None)
  {
    assert session.acts + [] == session.acts;
    if !calls.reported.api && calls.reported.ipmi.None? {
      return false, None;
    }
    if calls.reported.ipmi.Some? {
      password := calls.password;
      if password.None? {
        return false, None;
      }
    } else {
      password := None;
    }
    session.Call(SetPowerManagementCall(calls.accepted, password));
    ok := calls.accepted;
  }

  method TransformBMCConfiguration(cfg: Config, im: InfraMachine, ms: Option<MachineStatusFields>,
                                   user: Option<Option<UserConfig>>,
                                   bmc: BMCConfigurationSpec, calls: BMCCalls, session: Session)
                                     returns (verdict: Verdict)
    modifies bmc, session
    ensures var r := BMCTransform(cfg, im, ms, user, old(bmc.Value().f), calls);
            && verdict == r.verdict && session.acts == old(session.acts) + r.acts
            && bmc.Value() == Msg(r.bmc, old(bmc.unknownFields))
  {
    assert session.acts + [] == session.acts;
    if !Admitted(im) || ms.None? || !ms.value.agentAccessible {
      return Skipped;
    }
    if user.Some? {
      if user.value.None? {
        return Failed;
      }
      StoreUserProvidedBMCConfig(user.value.value, bmc);
      return Saved;
    }
    var alreadyInitialized := !bmc.manuallyConfigured && (bmc.api != null || bmc.ipmi != null || bmc.manual != null);
    if alreadyInitialized {
      return Skipped;
    }
    if HasNoBMC(cfg, calls.reported) {
      bmc.manuallyConfigured := false;
      bmc.manual := new ManualSpec();
      return Saved;
    }
    if calls.reported.AgentError? {
      return Failed;
    }
    verdict := RecordFromAgent(bmc, calls, session);
  }

  method RecordFromAgent(bmc: BMCConfigurationSpec, calls: BMCCalls, session: Session) returns (verdict: Verdict)
    requires calls.reported.Reported?
    modifies bmc, session
    ensures var r := DeriveFromAgent(old(bmc.Value().f), calls);
            && verdict == r.verdict && session.acts == old(session.acts) + r.acts
            && bmc.Value() == Msg(r.bmc, old(bmc.unknownFields))
  {
    var ok, password := EnsurePowerManagementOnAgent(calls, session);
    if !ok {
      return Failed;
    }
    bmc.manuallyConfigured := false;
    if calls.reported.api {
      if calls.address.None? {
        return Failed;
      }
      var api := new APISpec();
      api.address := calls.address.value;
      bmc.api := api;
    }
    if calls.reported.ipmi.Some? {
      var ipmi := new IPMISpec();
      ipmi.address, ipmi.port := calls.reported.ipmi.value.0, calls.reported.ipmi.value.1;
      ipmi.username, ipmi.password := IPMI_USERNAME, password.value;
      bmc.ipmi := ipmi;
    }
    return Saved;
  }
}
