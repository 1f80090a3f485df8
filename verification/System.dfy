/** The control loops of one machine as a transition system. A run is any sequence of events, in any
    order; each event that finds its precondition missing leaves the state as it is. The COSI runtime
    enters through three facts: a transform's output is saved only when it returns nil, a reconcile is
    one atomic step, and a resource is destroyed only when it is torn down and holds no finalizer. */
module System {
  import opened Wire
  import opened Specs
  import opened Machine
  import opened Reconcile

  /** A provider resource with its phase, and whether the reboot controller's finalizer is on it. */
  datatype Res<T> = Res(v: T, phase: Phase, held: bool)

  /** What the machine is physically doing. */
  datatype Physical = Off | Booting | RunsAgent | RunsTalos | RunsOther

  datatype Loop = BMCLoop | WipeLoop | PowerLoop | RebootLoop | RemovalLoop | StatusLoop

  /** The history of a run. `Acted` holds one reconcile's calls, in order, with the time they left. */
  datatype Fact =
    | Acted(loop: Loop, at: int, acts: seq<Action>, verdict: Verdict)
    | FinalizersAdded(status: bool, bmc: bool)
    | RemovalAttempted(sawStatus: bool, sawBMC: bool)
    | StatusDestroyed
    | BMCDestroyed
    | BootAnswered(decision: BootDecision, im: Option<InfraMachine>)
    | InstallSeen(id: uint64)
    | OutputsDropped

  datatype Sys = Sys(
    now: nat,
    omni: Option<InfraMachine>,
    user: Option<Option<UserConfig>>,
    bmc: Option<Res<BMCConfigurationFields>>,
    status: Option<Res<MachineStatusFields>>,
    wipe: Option<WipeStatusFields>,
    reboot: Option<RebootStatus>,
    power: Option<PowerOperation>,
    phys: Physical,
    seen: bool,
    agentPassword: Option<Text>,
    log: seq<Fact>)

  /** The provider's settings, and whether power-cycling a machine that is off turns it on. */
  datatype World = World(cfg: Config, cycleWakes: bool)

  datatype Event =
    | OmniPut(im: InfraMachine)
    | OmniRemoved
    | UserPut(user: Option<Option<UserConfig>>)
    | Tick(d: nat)
    | RunBMC(bmcCalls: BMCCalls, applied: bool)
    | RunWipe(wiped: bool)
    | RunPower(powerCalls: PowerCalls, callDelay: nat, stampDelay: nat)
    | RunReboot(rebootCalls: RebootCalls, callDelay: nat, stampDelay: nat)
    | RemoveFinalizers(rebootCalls: RebootCalls, statusOk: bool, bmcOk: bool)
    | TearDownStatus
    | TearDownBMC
    | DropOutputs
    | AgentEvent(connected: bool)
    | Poll(pollCalls: PollCalls)
    | PXEBooted(pollCalls: PollCalls)
    | BootUp
    | HumanPower(on: bool)

  const INIT := Sys(0, None, None, None, None, None, None, None, Off, false, None, [])

  function Values<T>(r: Option<Res<T>>): Option<T> { if r.Some? then Some(r.value.v) else None }

  /** What an event does: the new state, and what is added to the history. */
  datatype Move = Move(s: Sys, facts: seq<Fact>)

  /** A reconcile's calls leave a fact when there were any. */
  function Did(loop: Loop, at: int, acts: seq<Action>, verdict: Verdict): seq<Fact> {
    if acts == [] then [] else [Acted(loop, at, acts, verdict)]
  }

  // ------------------------------------------------------------------------- Omni and the clock

  /** Omni creates or updates its record. A record being torn down stays so until it is removed. */
  function OmniPutMove(s: Sys, im: InfraMachine): Move {
    if s.omni.Some? && s.omni.value.phase == TearingDown && im.phase == Running then Move(s, [])
    else
      var was := if s.omni.Some? then s.omni.value.installEventId else 0;
      Move(s.(omni := Some(im)), if im.installEventId > was then [InstallSeen(im.installEventId)] else [])
  }

  /** The record disappears once every controller has let go of it. */
  function OmniRemovedMove(s: Sys): Move {
    if && s.omni.Some? && s.omni.value.phase == TearingDown
       && s.bmc.None? && s.status.None? && s.wipe.None? && s.reboot.None? && s.power.None?
    then Move(s.(omni := None), []) else Move(s, [])
  }

  // ------------------------------------------------------------------------- the transforms

  function RunBMCMove(w: World, s: Sys, calls: BMCCalls, applied: bool): Move {
    var held := if s.bmc.Some? then s.bmc.value else Res(NO_BMC.f, Running, false);
    if s.omni.None? || held.phase == TearingDown then Move(s, [])
    else
      var r := BMCTransform(w.cfg, s.omni.value, Values(s.status), s.user, held.v, calls);
      Move(s.(bmc := if r.verdict == Saved then Some(held.(v := r.bmc)) else s.bmc,
              agentPassword := PasswordAfter(s.agentPassword, r.acts, applied)),
           Did(BMCLoop, s.now, r.acts, r.verdict))
  }

  /** The agent takes a password when the call succeeds, and may take it when the call fails. */
  function PasswordAfter(before: Option<Text>, acts: seq<Action>, applied: bool): Option<Text> {
    if acts != [] && acts[0].SetPowerManagementCall? && acts[0].password.Some? && (acts[0].ok || applied)
    then acts[0].password else before
  }

  function RunWipeMove(s: Sys, ok: bool): Move {
    if s.omni.None? || s.omni.value.phase == TearingDown then Move(s, [])
    else
      var r := WipeTransform(s.omni.value, Values(s.status), OrElse(s.wipe, NO_WIPE_STATUS.f), ok);
      Move(if r.verdict == Saved then s.(wipe := Some(r.wipe)) else s, Did(WipeLoop, s.now, r.acts, r.verdict))
  }

  function RunPowerMove(w: World, s: Sys, calls: PowerCalls, callDelay: nat, stampDelay: nat): Move {
    if s.omni.None? || s.omni.value.phase == TearingDown then Move(s, [])
    else
      var stamp := s.now + callDelay + stampDelay;
      var r := PowerTransform(w.cfg, s.omni.value, Values(s.bmc), s.wipe, s.reboot,
                              OrElse(s.power, NO_POWER_OPERATION), calls, s.now, stamp);
      var later := s.(now := if r.acts == [] then s.now else stamp);
      Move(Physically(w, if r.verdict == Saved then later.(power := Some(r.op)) else later, r.acts),
           Did(PowerLoop, s.now + callDelay, r.acts, r.verdict))
  }

  /** Finalizers first: adding one to a resource that is being torn down fails the transform. */
  function RunRebootMove(w: World, s: Sys, calls: RebootCalls, callDelay: nat, stampDelay: nat): Move {
    if s.omni.None? || s.omni.value.phase == TearingDown || Refuses(s.status) then Move(s, [])
    else if Refuses(s.bmc) then Move(s.(status := Hold(s.status)), [FinalizersAdded(s.status.Some?, false)])
    else
      var r := RebootTransform(w.cfg, s.omni.value, Values(s.bmc), s.wipe, s.power, Values(s.status),
                               OrElse(s.reboot, NO_REBOOT_STATUS), calls, s.now, s.now + callDelay + stampDelay);
      var held := s.(status := Hold(s.status), bmc := Hold(s.bmc),
                     now := if r.acts == [] then s.now else s.now + callDelay + stampDelay);
      Move(Physically(w, if r.verdict == Saved then held.(reboot := Some(r.rb)) else held, r.acts),
           [FinalizersAdded(s.status.Some?, s.bmc.Some?)] + Did(RebootLoop, s.now + callDelay, r.acts, r.verdict))
  }

  predicate Refuses<T>(r: Option<Res<T>>) { r.Some? && !r.value.held && r.value.phase == TearingDown }

  function Hold<T>(r: Option<Res<T>>): Option<Res<T>> { if r.Some? then Some(r.value.(held := true)) else None }

  function Release<T>(r: Option<Res<T>>): Option<Res<T>> { if r.Some? then Some(r.value.(held := false)) else None }

  /** The physical effect of successful power calls. */
  function Physically(w: World, s: Sys, acts: seq<Action>): Sys {
    if acts == [] then s
    else
      match acts[|acts| - 1]
      case PowerOnCall(_, true, _) => if s.phys == Off then s.(phys := Booting, seen := false) else s
      case PowerOffCall(_, true) => s.(phys := Off, seen := false)
      case RebootCall(_, true, _) => if s.phys != Off || w.cycleWakes then s.(phys := Booting, seen := false) else s
      case AgentRebootCall(true) => if s.phys == RunsAgent then s.(phys := Booting, seen := false) else s
      case _ => s
  }

  // ------------------------------------------------------------------------- teardown

  /** The reboot controller's farewell: one reboot attempt, then the finalizers come off, unless a removal
      fails; the farewell is then repeated, attempt included. */
  function RemoveFinalizersMove(w: World, s: Sys, calls: RebootCalls, statusOk: bool, bmcOk: bool): Move {
    if s.omni.None? || s.omni.value.phase == Running then Move(s, [])
    else
      var acts := AttemptRebootOnRemoval(w.cfg, s.omni.value, Values(s.bmc), Values(s.status), calls, s.now);
      var statusGone := statusOk || s.status.None? || !s.status.value.held;
      Move(Physically(w, s, acts).(status := if statusGone then Release(s.status) else s.status,
                                   bmc := if statusGone && bmcOk then Release(s.bmc) else s.bmc),
           [RemovalAttempted(s.status.Some?, s.bmc.Some?)] + Did(RemovalLoop, s.now, acts, Saved))
  }

  /** `reconcileTearingDown`: mark the MachineStatus, destroy it once nobody holds it. */
  function TearDownStatusMove(s: Sys): Move {
    if s.status.None? || (s.omni.Some? && s.omni.value.phase == Running) then Move(s, [])
    else if s.status.value.held then Move(s.(status := Some(s.status.value.(phase := TearingDown))), [])
    else Move(s.(status := None), [StatusDestroyed])
  }

  function TearDownBMCMove(s: Sys): Move {
    if s.bmc.None? || (s.omni.Some? && s.omni.value.phase == Running) then Move(s, [])
    else if s.bmc.value.held then Move(s.(bmc := Some(s.bmc.value.(phase := TearingDown))), [])
    else Move(s.(bmc := None), [BMCDestroyed])
  }

  /** The outputs nobody else holds go with the Omni record. */
  function DropOutputsMove(s: Sys): Move {
    if s.omni.None? || s.omni.value.phase == Running then Move(s, [])
    else Move(s.(wipe := None, reboot := None, power := None), [OutputsDropped])
  }

  // ------------------------------------------------------------------------- machine status events

  /** A MachineStatus write creates the resource, and leaves one being torn down alone. */
  function WriteStatus(s: Sys, v: MachineStatusFields): Sys {
    if s.status.Some? && s.status.value.phase == TearingDown then s
    else s.(status := Some(if s.status.Some? then s.status.value.(v := v) else Res(v, Running, false)))
  }

  function StatusOf(s: Sys): MachineStatusFields { OrElse(Values(s.status), NO_MACHINE_STATUS.f) }

  function AgentEventMove(s: Sys, connected: bool): Move {
    Move(WriteStatus(s, StatusOf(s).(agentAccessible := connected)).(seen := s.seen || s.phys != Booting), [])
  }

  function PollMove(s: Sys, calls: PollCalls): Move {
    if s.status.None? || s.status.value.phase == TearingDown then Move(s, [])
    else
      var r := PollSingle(Values(s.bmc), calls);
      Move(WriteStatus(s, StatusOf(s).(agentAccessible := r.agentAccessible,
                                       powerState := r.powerState)).(seen := s.seen || s.phys != Booting),
           Did(StatusLoop, s.now, r.acts, Saved))
  }

  /** A first boot request marks the machine discovered and polls it once. */
  function PXEBootedMove(s: Sys, calls: PollCalls): Move {
    if s.status.Some? && s.status.value.phase == TearingDown then Move(s, [])
    else
      var s' := WriteStatus(s, StatusOf(s).(initialized := true));
      if StatusOf(s).initialized then Move(s', []) else PollMove(s', calls)
  }

  // ------------------------------------------------------------------------- the machine itself

  function AfterDecision(d: BootDecision): Physical {
    match d
    case BootAgent => RunsAgent
    case BootTalosNet(_) => RunsTalos
    case BootDisk(_) => RunsTalos
    case NotFound => RunsOther
  }

  /** A booting machine asks the handler and does as it is told. */
  function BootUpMove(w: World, s: Sys): Move {
    if s.phys != Booting then Move(s, [])
    else
      var d := MakeBootDecision(s.omni, Values(s.bmc), s.wipe, w.cfg.alwaysNetboot, w.cfg.bootFromDisk);
      Move(s.(phys := AfterDecision(d), seen := false), [BootAnswered(d, s.omni)])
  }

  function HumanPowerMove(s: Sys, on: bool): Move {
    if !on then Move(s.(phys := Off, seen := false), [])
    else if s.phys == Off then Move(s.(phys := Booting, seen := false), [])
    else Move(s, [])
  }

  function MoveOf(w: World, s: Sys, e: Event): Move {
    match e
    case OmniPut(im) => OmniPutMove(s, im)
    case OmniRemoved => OmniRemovedMove(s)
    case UserPut(user) => Move(s.(user := user), [])
    case Tick(d) => Move(s.(now := s.now + d), [])
    case RunBMC(calls, applied) => RunBMCMove(w, s, calls, applied)
    case RunWipe(ok) => RunWipeMove(s, ok)
    case RunPower(calls, callDelay, stampDelay) => RunPowerMove(w, s, calls, callDelay, stampDelay)
    case RunReboot(calls, callDelay, stampDelay) => RunRebootMove(w, s, calls, callDelay, stampDelay)
    case RemoveFinalizers(calls, statusOk, bmcOk) => RemoveFinalizersMove(w, s, calls, statusOk, bmcOk)
    case TearDownStatus => TearDownStatusMove(s)
    case TearDownBMC => TearDownBMCMove(s)
    case DropOutputs => DropOutputsMove(s)
    case AgentEvent(connected) => AgentEventMove(s, connected)
    case Poll(calls) => PollMove(s, calls)
    case PXEBooted(calls) => PXEBootedMove(s, calls)
    case BootUp => BootUpMove(w, s)
    case HumanPower(on) => HumanPowerMove(s, on)
  }

  function Step(w: World, s: Sys, e: Event): Sys {
    var m := MoveOf(w, s, e);
    m.s.(log := s.log + m.facts)
  }

  /** The event a fact can come from. */
  predicate ComesFrom(f: Fact, e: Event) {
    match f
    case Acted(BMCLoop, _, _, _) => e.RunBMC?
    case Acted(WipeLoop, _, _, _) => e.RunWipe?
    case Acted(PowerLoop, _, _, _) => e.RunPower?
    case Acted(RebootLoop, _, _, _) => e.RunReboot?
    case Acted(RemovalLoop, _, _, _) => e.RemoveFinalizers?
    case Acted(StatusLoop, _, _, _) => e.Poll? || e.PXEBooted?
    case FinalizersAdded(_, _) => e.RunReboot?
    case RemovalAttempted(_, _) => e.RemoveFinalizers?
    case StatusDestroyed => e.TearDownStatus?
    case BMCDestroyed => e.TearDownBMC?
    case BootAnswered(_, _) => e.BootUp?
    case InstallSeen(_) => e.OmniPut?
    case OutputsDropped => e.DropOutputs?
  }

  /** What each event may touch, and the facts it may leave. */
  predicate Framed(s: Sys, m: Move, e: Event) {
    && (!e.OmniPut? && !e.OmniRemoved? ==> m.s.omni == s.omni)
    && (!e.UserPut? ==> m.s.user == s.user)
    && (!e.RunBMC? && !e.TearDownBMC? ==> Values(m.s.bmc) == Values(s.bmc))
    && (!e.RunBMC? ==> m.s.agentPassword == s.agentPassword)
    && (!e.RunWipe? && !e.DropOutputs? ==> m.s.wipe == s.wipe)
    && (!e.RunPower? && !e.DropOutputs? ==> m.s.power == s.power)
    && (!e.RunReboot? && !e.DropOutputs? ==> m.s.reboot == s.reboot)
    && (e.DropOutputs? ==> m.s == s || m.s == s.(wipe := None, power := None, reboot := None))
    && s.now <= m.s.now
    && m.s.log == s.log
    && (forall f <- m.facts :: ComesFrom(f, e))
  }

  lemma {:induction false} PhysicallyOnly(w: World, s: Sys, acts: seq<Action>)
    ensures Physically(w, s, acts) == s.(phys := Physically(w, s, acts).phys, seen := Physically(w, s, acts).seen)
  {
  }

  lemma {:induction false} FrameReboot(w: World, s: Sys, e: Event)
    requires e.RunReboot?
    ensures Framed(s, RunRebootMove(w, s, e.rebootCalls, e.callDelay, e.stampDelay), e)
  {
    hide RebootTransform, Physically;
    forall t: Sys, acts: seq<Action> { PhysicallyOnly(w, t, acts); }
  }

  lemma {:induction false} FrameRemoval(w: World, s: Sys, e: Event)
    requires e.RemoveFinalizers?
    ensures Framed(s, RemoveFinalizersMove(w, s, e.rebootCalls, e.statusOk, e.bmcOk), e)
  {
    hide AttemptRebootOnRemoval, Physically;
    forall t: Sys, acts: seq<Action> { PhysicallyOnly(w, t, acts); }
  }

  lemma {:induction false} FramePower(w: World, s: Sys, e: Event)
    requires e.RunPower?
    ensures Framed(s, RunPowerMove(w, s, e.powerCalls, e.callDelay, e.stampDelay), e)
  {
    hide PowerTransform, Physically;
    forall t: Sys, acts: seq<Action> { PhysicallyOnly(w, t, acts); }
  }

  lemma {:induction false} FrameAgentEvent(w: World, s: Sys, e: Event)
    requires e.AgentEvent?
    ensures Framed(s, AgentEventMove(s, e.connected), e)
  {
  }

  lemma {:induction false} FramePoll(s: Sys, calls: PollCalls, e: Event)
    requires e.Poll? || e.PXEBooted?
    ensures Framed(s, PollMove(s, calls), e)
  {
    hide PollSingle;
  }

  /** Discovery writes the machine status, and then polls or does not. */
  lemma {:induction false} FramePXEBooted(s: Sys, e: Event)
    requires e.PXEBooted?
    ensures Framed(s, PXEBootedMove(s, e.pollCalls), e)
  {
    hide PollMove;
    var s' := WriteStatus(s, StatusOf(s).(initialized := true));
    FramePoll(s', e.pollCalls, e);
  }

  lemma {:induction false} FrameConfig(w: World, s: Sys, e: Event)
    requires e.RunBMC? || e.RunWipe? || e.BootUp?
    ensures Framed(s, MoveOf(w, s, e), e)
  {
    hide BMCTransform, WipeTransform, MakeBootDecision;
  }

  lemma {:induction false} Frame(w: World, s: Sys, e: Event)
    ensures Framed(s, MoveOf(w, s, e), e)
  {
    hide RunBMCMove, RunWipeMove, BootUpMove, AgentEventMove, PollMove, PXEBootedMove, RunRebootMove,
         RemoveFinalizersMove, RunPowerMove;
    match e
    case RunReboot(_, _, _) => FrameReboot(w, s, e);
    case RemoveFinalizers(_, _, _) => FrameRemoval(w, s, e);
    case RunPower(_, _, _) => FramePower(w, s, e);
    case AgentEvent(_) => FrameAgentEvent(w, s, e);
    case Poll(calls) => FramePoll(s, calls, e);
    case PXEBooted(_) => FramePXEBooted(s, e);
    case RunBMC(_, _) => FrameConfig(w, s, e);
    case RunWipe(_) => FrameConfig(w, s, e);
    case BootUp => FrameConfig(w, s, e);
    case _ =>
  }

  /** What calls do to the machine depends on the machine only. */
  lemma {:induction false} PhysicallyAlike(w: World, s: Sys, t: Sys, acts: seq<Action>)
    requires s.phys == t.phys && s.seen == t.seen
    ensures Physically(w, s, acts).phys == Physically(w, t, acts).phys &&
            Physically(w, s, acts).seen == Physically(w, t, acts).seen
  {
  }

  /** The calls of the loops that neither reboot nor switch power. */
  predicate Harmless(e: Event, a: Action) {
    match e
    case RunBMC(_, _) => a.SetPowerManagementCall?
    case RunWipe(_) => a.WipeDisksCall?
    case _ => a.IsPoweredOnCall?
  }

  lemma {:induction false} BMCIsHarmless(cfg: Config, im: InfraMachine, ms: Option<MachineStatusFields>,
                                         user: Option<Option<UserConfig>>, bmc: BMCConfigurationFields, calls: BMCCalls)
    ensures var acts := BMCTransform(cfg, im, ms, user, bmc, calls).acts;
            |acts| <= 1 && (acts != [] ==> acts[0].SetPowerManagementCall?)
  {
  }

  lemma {:induction false} WipeIsHarmless(im: InfraMachine, ms: Option<MachineStatusFields>, wipe: WipeStatusFields,
                                          ok: bool)
    ensures var acts := WipeTransform(im, ms, wipe, ok).acts; |acts| <= 1 && (acts != [] ==> acts[0].WipeDisksCall?)
  {
  }

  lemma {:induction false} PollIsHarmless(bmc: Option<BMCConfigurationFields>, calls: PollCalls)
    ensures var acts := PollSingle(bmc, calls).acts; |acts| <= 1 && (acts != [] ==> acts[0].IsPoweredOnCall?)
  {
  }

  /** Each leaves at most one fact, of at most one call. */
  lemma {:induction false} HarmlessCalls(w: World, s: Sys, e: Event)
    requires e.RunBMC? || e.RunWipe? || e.Poll? || e.PXEBooted?
    ensures var facts := MoveOf(w, s, e).facts;
            |facts| <= 1 && forall f <- facts :: f.Acted? && |f.acts| == 1 && Harmless(e, f.acts[0])
    ensures e.Poll? || e.PXEBooted? ==>
              forall f <- MoveOf(w, s, e).facts :: f.acts == PollSingle(Values(s.bmc), e.pollCalls).acts
  {
    hide BMCTransform, WipeTransform, PollSingle;
    if e.RunBMC? {
      var held := if s.bmc.Some? then s.bmc.value.v else NO_BMC.f;
      if s.omni.Some? {
        BMCIsHarmless(w.cfg, s.omni.value, Values(s.status), s.user, held, e.bmcCalls);
      }
    } else if e.RunWipe? {
      if s.omni.Some? {
        WipeIsHarmless(s.omni.value, Values(s.status), OrElse(s.wipe, NO_WIPE_STATUS.f), e.wiped);
      }
    } else {
      PollIsHarmless(Values(s.bmc), e.pollCalls);
    }
  }

  /** The power transform's result in this step. */
  function PowerOf(w: World, s: Sys, e: Event): PowerResult
    requires e.RunPower? && s.omni.Some?
  {
    PowerTransform(w.cfg, s.omni.value, Values(s.bmc), s.wipe, s.reboot, OrElse(s.power, NO_POWER_OPERATION),
                   e.powerCalls, s.now, s.now + e.callDelay + e.stampDelay)
  }

  /** A power reconcile changes the status, the clock, and whatever the calls do to the machine. */
  lemma {:induction false} PowerShape(w: World, s: Sys, e: Event)
    requires e.RunPower? && s.omni.Some? && s.omni.value.phase == Running
    ensures var r, m := PowerOf(w, s, e), MoveOf(w, s, e);
      && m.s.omni == s.omni && m.s.user == s.user && m.s.bmc == s.bmc && m.s.status == s.status
      && m.s.wipe == s.wipe && m.s.reboot == s.reboot && m.s.agentPassword == s.agentPassword && m.s.log == s.log
      && m.s.power == (if r.verdict == Saved then Some(r.op) else s.power)
      && m.s.now == (if r.acts == [] then s.now else s.now + e.callDelay + e.stampDelay)
      && m.s.phys == Physically(w, s, r.acts).phys && m.s.seen == Physically(w, s, r.acts).seen
      && m.facts == Did(PowerLoop, s.now + e.callDelay, r.acts, r.verdict)
  {
    hide PowerTransform, Physically;
    var r, stamp := PowerOf(w, s, e), s.now + e.callDelay + e.stampDelay;
    var later := s.(now := if r.acts == [] then s.now else stamp);
    var saved := if r.verdict == Saved then later.(power := Some(r.op)) else later;
    PhysicallyOnly(w, saved, r.acts);
    PhysicallyAlike(w, saved, s, r.acts);
  }

  /** The reboot transform's result in this step. */
  function RebootOf(w: World, s: Sys, e: Event): RebootResult
    requires e.RunReboot? && s.omni.Some?
  {
    RebootTransform(w.cfg, s.omni.value, Values(s.bmc), s.wipe, s.power, Values(s.status),
                    OrElse(s.reboot, NO_REBOOT_STATUS),
                    e.rebootCalls, s.now, s.now + e.callDelay + e.stampDelay)
  }

  /** A reboot reconcile that gets its finalizers. */
  lemma {:induction false} RebootShape(w: World, s: Sys, e: Event)
    requires e.RunReboot? && s.omni.Some? && s.omni.value.phase == Running && !Refuses(s.status) && !Refuses(s.bmc)
    ensures var r, m := RebootOf(w, s, e), MoveOf(w, s, e);
      && m.s.omni == s.omni && m.s.user == s.user && m.s.bmc == Hold(s.bmc) && m.s.status == Hold(s.status)
      && m.s.wipe == s.wipe && m.s.power == s.power && m.s.agentPassword == s.agentPassword && m.s.log == s.log
      && m.s.reboot == (if r.verdict == Saved then Some(r.rb) else s.reboot)
      && m.s.now == (if r.acts == [] then s.now else s.now + e.callDelay + e.stampDelay)
      && m.s.phys == Physically(w, s, r.acts).phys && m.s.seen == Physically(w, s, r.acts).seen
      && m.facts == [FinalizersAdded(s.status.Some?, s.bmc.Some?)] +
        Did(RebootLoop, s.now + e.callDelay, r.acts, r.verdict)
  {
    hide RebootTransform, Physically;
    var r, stamp := RebootOf(w, s, e), s.now + e.callDelay + e.stampDelay;
    var held := s.(status := Hold(s.status), bmc := Hold(s.bmc), now := if r.acts == [] then s.now else stamp);
    var saved := if r.verdict == Saved then held.(reboot := Some(r.rb)) else held;
    PhysicallyOnly(w, saved, r.acts);
    PhysicallyAlike(w, saved, s, r.acts);
  }

  /** A run, newest event last. */
  function Run(w: World, s: Sys, es: seq<Event>): Sys
    decreases |es|
  {
    if es == [] then s else Step(w, Run(w, s, es[..|es| - 1]), es[|es| - 1])
  }

  lemma {:induction false} RunNext(w: World, s: Sys, es: seq<Event>, e: Event)
    ensures Run(w, s, es + [e]) == Step(w, Run(w, s, es), e)
  {
    hide Step;
    assert (es + [e])[..|es|] == es;
  }
}
