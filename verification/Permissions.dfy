/** What may be done to which machine, over whole runs: every call a loop sends is told from the state it was sent in,
    and a machine that is not accepted, or is cordoned, is left alone. */
module Permissions {
  import opened Wire
  import opened Specs
  import opened Machine
  import opened Reconcile
  import opened System
  import opened Decisions

  /** The event a fact of a run's history was left by. */
  lemma {:induction false} Origin(w: World, es: seq<Event>, i: nat) returns (k: nat)
    requires i < |Run(w, INIT, es).log|
    ensures k < |es|
    ensures var s := Run(w, INIT, es[..k]);
            s.log <= Run(w, INIT, es).log && |s.log| <= i < |s.log| + |MoveOf(w, s, es[k]).facts| &&
            MoveOf(w, s, es[k]).facts[i - |s.log|] == Run(w, INIT, es).log[i]
    decreases |es|
  {
    hide MoveOf;
    var n := |es| - 1;
    var before := Run(w, INIT, es[..n]);
    Frame(w, before, es[n]);
    if i >= |before.log| {
      k := n;
    } else {
      k := Origin(w, es[..n], i);
      assert es[..n][..k] == es[..k];
    }
  }

  // ------------------------------------------------------------------------- whose calls

  /** The calls each loop makes. */
  predicate Makes(loop: Loop, a: Action) {
    match loop
    case BMCLoop => a.SetPowerManagementCall?
    case WipeLoop => a.WipeDisksCall?
    case PowerLoop => a.IsPoweredOnCall? || a.SetPXEBootOnceCall? || a.PowerOnCall? || a.PowerOffCall?
    case RebootLoop => a.SetPXEBootOnceCall? || a.RebootCall? || a.AgentRebootCall?
    case RemovalLoop => a.SetPXEBootOnceCall? || a.RebootCall?
    case StatusLoop => a.IsPoweredOnCall?
  }

  predicate Own(f: Fact) { f.Acted? ==> forall a <- f.acts :: Makes(f.loop, a) }

  lemma {:induction false} OwnPower(w: World, s: Sys, e: Event)
    requires e.RunPower?
    ensures forall f <- MoveOf(w, s, e).facts :: Own(f)
  {
    hide Physically, TimeSinceLastPowerOn, RequiredBootMode, GetClient, Acknowledge, RequiresPowerOn, IsPowerOffActive;
  }

  lemma {:induction false} OwnReboot(w: World, s: Sys, e: Event)
    requires e.RunReboot?
    ensures forall f <- MoveOf(w, s, e).facts :: Own(f)
  {
    hide Physically, TimeSinceLastPowerOn, RequiredBootMode, GetClient, RequiresReboot;
  }

  lemma {:induction false} OwnFarewell(w: World, s: Sys, e: Event)
    requires e.RemoveFinalizers?
    ensures forall f <- MoveOf(w, s, e).facts :: Own(f)
  {
    hide Physically, TimeSinceLastPowerOn, GetClient;
  }

  /** No loop makes another's calls. */
  lemma {:induction false} CallsAreOwn(w: World, s: Sys, e: Event)
    ensures forall f <- MoveOf(w, s, e).facts :: Own(f)
  {
    hide MoveOf;
    Frame(w, s, e);
    if e.RunPower? {
      OwnPower(w, s, e);
    } else if e.RunReboot? {
      OwnReboot(w, s, e);
    } else if e.RemoveFinalizers? {
      OwnFarewell(w, s, e);
    } else if e.RunBMC? || e.RunWipe? || e.Poll? || e.PXEBooted? {
      HarmlessCalls(w, s, e);
    }
  }

  // ------------------------------------------------------------------------- wiping

  /** To be wiped: recorded, staying, accepted, not cordoned, its agent told accessible, not wiped for its wipe id. */
  predicate ToBeWiped(s: Sys) {
    && s.omni.Some? && s.omni.value.phase == Running && s.omni.value.acceptance == Accepted && !s.omni.value.cordoned
    && s.status.Some? && s.status.value.v.agentAccessible
    && !Wiped(s.omni.value, s.wipe)
  }

  predicate WipeSent(f: Fact) { f.Acted? && exists a <- f.acts :: a.WipeDisksCall? }

  lemma {:induction false} WipeReconcile(w: World, s: Sys, ok: bool)
    ensures var m := RunWipeMove(s, ok);
            if !ToBeWiped(s) then m == Move(s, [])
            else
              var im := s.omni.value;
              && m.facts == [Acted(WipeLoop, s.now, [WipeDisksCall(ok, im.wipeId, im.installEventId)],
                                   if ok then Saved else Failed)]
              && m.s == if !ok then s
                        else s.(wipe := Some(WipeStatusFields(im.wipeId, im.installEventId, true, im.nodeUniqueToken)))
  {
    if s.omni.Some? {
      WipesExactly(s.omni.value, Values(s.status), OrElse(s.wipe, NO_WIPE_STATUS.f), ok);
    }
  }

  /** Only a wipe reconcile wipes, and exactly the machines to be wiped. */
  lemma {:induction false} WipeStep(w: World, s: Sys, e: Event)
    ensures (exists f <- MoveOf(w, s, e).facts :: WipeSent(f)) <==> e.RunWipe? && ToBeWiped(s)
  {
    if e.RunWipe? {
      WipeReconcile(w, s, e.wiped);
      if ToBeWiped(s) {
        var f := MoveOf(w, s, e).facts[0];
        assert f.acts[0].WipeDisksCall?;
        assert WipeSent(f);
      }
    } else {
      hide MoveOf;
      Frame(w, s, e);
      CallsAreOwn(w, s, e);
    }
  }

  /** In every run, each wipe was of a machine to be wiped at that moment. */
  lemma {:induction false} WipedOnlyIfToBe(w: World, es: seq<Event>, i: nat) returns (k: nat)
    requires i < |Run(w, INIT, es).log| && WipeSent(Run(w, INIT, es).log[i])
    ensures k < |es| && es[k].RunWipe?
    ensures var s := Run(w, INIT, es[..k]); ToBeWiped(s) && s.log == Run(w, INIT, es).log[..i]
  {
    hide MoveOf;
    k := Origin(w, es, i);
    var s := Run(w, INIT, es[..k]);
    WipeStep(w, s, es[k]);
    HarmlessCalls(w, s, es[k]);
  }

  // ------------------------------------------------------------------------- machines that are left alone

  /** Not accepted by Omni, or cordoned, or not recorded at all. */
  predicate OffLimits(s: Sys) { s.omni.None? || s.omni.value.acceptance != Accepted || s.omni.value.cordoned }

  lemma {:induction false} TransformsSkip(w: World, s: Sys, e: Event)
    requires OffLimits(s) && (e.RunBMC? || e.RunWipe? || e.RunPower?)
    ensures MoveOf(w, s, e) == Move(s, [])
  {
    hide DeriveFromAgent, PowerSwitch;
  }

  /** The reboot loop puts its finalizers on, and that is all. */
  lemma {:induction false} RebootSkips(w: World, s: Sys, e: Event)
    requires OffLimits(s) && e.RunReboot?
    ensures var m := MoveOf(w, s, e);
      && m.s == s.(status := m.s.status, bmc := m.s.bmc)
      && Values(m.s.status) == Values(s.status) && Values(m.s.bmc) == Values(s.bmc)
      && forall f <- m.facts :: f.FinalizersAdded?
  {
    hide Reboot;
  }

  /** No loop calls anything for such a machine, except that it is still polled and, once it goes, sent off by the
      farewell; and nothing is recorded of it by the loops that act. */
  lemma {:induction false} OffLimitsStep(w: World, s: Sys, e: Event)
    requires OffLimits(s)
    ensures var m := MoveOf(w, s, e);
      && (forall f <- m.facts :: f.Acted? ==> f.loop == StatusLoop || f.loop == RemovalLoop)
      && (e.RunBMC? || e.RunWipe? || e.RunPower? ==> m == Move(s, []))
      && (e.RunReboot? ==>
            m.s == s.(status := m.s.status, bmc := m.s.bmc) &&
            Values(m.s.status) == Values(s.status) && Values(m.s.bmc) == Values(s.bmc))
      && (!e.RemoveFinalizers? && !e.BootUp? && !e.HumanPower? ==> m.s.phys == s.phys)
  {
    if e.RunBMC? || e.RunWipe? || e.RunPower? {
      TransformsSkip(w, s, e);
    } else if e.RunReboot? {
      RebootSkips(w, s, e);
    } else if !e.RemoveFinalizers? && !e.BootUp? && !e.HumanPower? {
      hide PollSingle;
    } else {
      hide MoveOf;
      Frame(w, s, e);
    }
  }

  /** In every run, each call but a poll's and the farewell's was made for a machine that was accepted and not cordoned
      at that moment. */
  lemma {:induction false} CalledOnlyIfAllowed(w: World, es: seq<Event>, i: nat) returns (k: nat)
    requires i < |Run(w, INIT, es).log|
    requires var f := Run(w, INIT, es).log[i]; f.Acted? && f.loop != StatusLoop && f.loop != RemovalLoop
    ensures k < |es| && ComesFrom(Run(w, INIT, es).log[i], es[k])
    ensures !OffLimits(Run(w, INIT, es[..k]))
  {
    hide MoveOf;
    k := Origin(w, es, i);
    var s := Run(w, INIT, es[..k]);
    Frame(w, s, es[k]);
    if OffLimits(s) {
      OffLimitsStep(w, s, es[k]);
    }
  }

  // ------------------------------------------------------------------------- booting

  /** Recorded, and cordoned or rejected. */
  predicate Shunned(im: Option<InfraMachine>) { im.Some? && (im.value.cordoned || im.value.acceptance == Rejected) }

  /** What a booting machine comes up in. */
  lemma {:induction false} BootStep(w: World, s: Sys)
    ensures s.phys != Booting ==> MoveOf(w, s, BootUp) == Move(s, [])
    ensures s.phys == Booting ==>
      var m := MoveOf(w, s, BootUp);
      var usable := s.omni.Some? && Usable(s.omni.value, Values(s.bmc), s.wipe);
      && (m.s.phys == RunsOther <==> Shunned(s.omni))
      && (m.s.phys == RunsAgent <==> !Shunned(s.omni) && !usable)
      && (m.s.phys == RunsTalos <==> !Shunned(s.omni) && usable)
      && |m.facts| == 1 && m.facts[0].BootAnswered? && m.facts[0].im == s.omni
      && (m.facts[0].decision == NotFound <==> Shunned(s.omni))
      && (m.facts[0].decision == BootAgent <==> !Shunned(s.omni) && !usable)
  {
    hide MakeBootDecision;
    AnswersExactly(s.omni, Values(s.bmc), s.wipe, w.cfg.alwaysNetboot, w.cfg.bootFromDisk);
  }

  /** Calls leave a machine as it is, switch it off, or start it. */
  lemma {:induction false} CallsStart(w: World, s: Sys, e: Event)
    requires e.RunPower? || e.RunReboot? || e.RemoveFinalizers?
    ensures MoveOf(w, s, e).s.phys in {s.phys, Off, Booting}
  {
    hide PowerTransform, RebootTransform, AttemptRebootOnRemoval, Physically;
    forall t: Sys, acts: seq<Action>
      ensures Physically(w, t, acts).phys in {t.phys, Off, Booting}
    {
      CallsStartOnly(w, t, acts);
    }
  }

  lemma {:induction false} CallsStartOnly(w: World, s: Sys, acts: seq<Action>)
    ensures Physically(w, s, acts).phys in {s.phys, Off, Booting}
  {
  }

  /** A machine comes up only by the handler's answer; in the agent or Talos only if it is not shunned. */
  lemma {:induction false} ComesUpOnlyIfAllowed(w: World, s: Sys, e: Event)
    ensures var was, now := s.phys, MoveOf(w, s, e).s.phys;
            now != was && (now == RunsAgent || now == RunsTalos) ==> e.BootUp? && was == Booting && !Shunned(s.omni)
  {
    if e.BootUp? {
      hide MoveOf;
      BootStep(w, s);
    } else if e.RunPower? || e.RunReboot? || e.RemoveFinalizers? {
      hide MoveOf;
      CallsStart(w, s, e);
    } else {
      hide BMCTransform, WipeTransform, PollSingle;
    }
  }

  /** In every run, the handler's answers are as they should be for the machine of that moment. */
  lemma {:induction false} AnsweredOnlyIfAllowed(w: World, es: seq<Event>, i: nat) returns (k: nat)
    requires i < |Run(w, INIT, es).log| && Run(w, INIT, es).log[i].BootAnswered?
    ensures k < |es| && es[k].BootUp?
    ensures var s, f := Run(w, INIT, es[..k]), Run(w, INIT, es).log[i];
            var usable := s.omni.Some? && Usable(s.omni.value, Values(s.bmc), s.wipe);
      && f.im == s.omni
      && (f.decision == NotFound <==> Shunned(f.im))
      && (f.decision == BootAgent <==> !Shunned(f.im) && !usable)
  {
    hide MoveOf;
    k := Origin(w, es, i);
    var s := Run(w, INIT, es[..k]);
    Frame(w, s, es[k]);
    assert ComesFrom(MoveOf(w, s, es[k]).facts[i - |s.log|], es[k]);
    BootStep(w, s);
  }

  // ------------------------------------------------------------------------- configuring

  /** To be asked how it is powered: recorded, accepted, not cordoned, its agent told accessible, its configuration not
      torn down, and nobody having said yet. */
  predicate ToBeAsked(s: Sys) {
    && s.omni.Some? && Approachable(s.omni.value, Values(s.status))
    && (s.bmc.Some? ==> s.bmc.value.phase == Running)
    && Open(s.user, if s.bmc.Some? then s.bmc.value.v else NO_BMC.f)
  }

  predicate CredentialsSent(f: Fact) { f.Acted? && exists a <- f.acts :: a.SetPowerManagementCall? }

  lemma {:induction false} BMCReconcile(w: World, s: Sys, calls: BMCCalls, applied: bool)
    ensures var m := RunBMCMove(w, s, calls, applied);
            var password := if calls.reported.Reported? && calls.reported.ipmi.Some? then calls.password else None;
      && (if ToBeAsked(s) && Settable(w.cfg, calls) then
            |m.facts| == 1 && m.facts[0].Acted? && m.facts[0].acts == [SetPowerManagementCall(calls.accepted, password)]
          else m.facts == [])
      && (m.s.agentPassword == if m.facts != [] && password.Some? && (calls.accepted || applied) then password
                               else s.agentPassword)
  {
    var held := if s.bmc.Some? then s.bmc.value else Res(NO_BMC.f, Running, false);
    if s.omni.Some? {
      hide BMCTransform;
      DerivesExactly(w.cfg, s.omni.value, Values(s.status), s.user, held.v, calls);
    }
  }

  /** Credentials are set on the agent by the BMC loop only, and exactly on the machines to be asked, when there is a
      way to power them. */
  lemma {:induction false} CredentialsStep(w: World, s: Sys, e: Event)
    ensures (exists f <- MoveOf(w, s, e).facts :: CredentialsSent(f)) <==>
            e.RunBMC? && ToBeAsked(s) && Settable(w.cfg, e.bmcCalls)
  {
    if e.RunBMC? {
      hide RunBMCMove;
      BMCReconcile(w, s, e.bmcCalls, e.applied);
      if ToBeAsked(s) && Settable(w.cfg, e.bmcCalls) {
        var f := MoveOf(w, s, e).facts[0];
        assert f.acts[0].SetPowerManagementCall?;
        assert CredentialsSent(f);
      }
    } else {
      hide MoveOf;
      Frame(w, s, e);
      CallsAreOwn(w, s, e);
    }
  }

  predicate ManuallyPowered(s: Sys) { s.bmc.Some? && s.bmc.value.v.manual.Some? }

  /** A machine becomes manually powered by the BMC loop only, and exactly when it is to be asked, the provider allows
      machines without a BMC, and the agent says that there is none. */
  lemma {:induction false} ManualStep(w: World, s: Sys, e: Event)
    requires !ManuallyPowered(s)
    ensures ManuallyPowered(Step(w, s, e)) <==>
            e.RunBMC? && ToBeAsked(s) && w.cfg.allowMachinesWithoutBMC && SaysNoBMC(e.bmcCalls.reported)
  {
    if e.RunBMC? {
      var held := if s.bmc.Some? then s.bmc.value else Res(NO_BMC.f, Running, false);
      if s.omni.Some? {
        hide BMCTransform;
        ManualExactly(w.cfg, s.omni.value, Values(s.status), s.user, held.v, e.bmcCalls);
      }
    } else if e.TearDownBMC? {
    } else {
      hide MoveOf;
      Frame(w, s, e);
    }
  }

  /** In every run, a provider that does not allow machines without a BMC never holds a manual configuration. */
  lemma {:induction false} NeverManualUnlessAllowed(w: World, es: seq<Event>)
    requires !w.cfg.allowMachinesWithoutBMC
    ensures !ManuallyPowered(Run(w, INIT, es))
    decreases |es|
  {
    if es != [] {
      NeverManualUnlessAllowed(w, es[..|es| - 1]);
      ManualStep(w, Run(w, INIT, es[..|es| - 1]), es[|es| - 1]);
    }
  }

  // ------------------------------------------------------------------------- what is told of a machine

  /** What a poll makes of a machine's status. */
  predicate PolledAs(s: Sys, calls: PollCalls, was: MachineStatusFields, now: MachineStatusFields) {
    var r := PollSingle(Values(s.bmc), calls);
    now == MachineStatusFields(r.agentAccessible, r.powerState, was.initialized)
  }

  /** The status of a machine is told by the agent's events, by polls, and by the first boot request, which is followed
      by a poll; a status that is being torn down is told no more, and no other event tells anything. */
  lemma {:induction false} ToldExactly(w: World, s: Sys, e: Event)
    ensures var m := MoveOf(w, s, e);
            var was := if s.status.Some? then s.status.value.v
              else MachineStatusFields(false, POWER_STATE_UNKNOWN, false);
            var going := s.status.Some? && s.status.value.phase == TearingDown;
            var t := m.s.status;
      && (!e.AgentEvent? && !e.Poll? && !e.PXEBooted? ==> t.None? || (s.status.Some? && t.value.v == s.status.value.v))
      && (going && (e.AgentEvent? || e.Poll? || e.PXEBooted?) ==> t == s.status)
      && (e.AgentEvent? && !going ==>
            t.Some? && t.value.v == MachineStatusFields(e.connected, was.powerState, was.initialized))
      && (e.Poll? && (s.status.None? || going) ==> m == Move(s, []))
      && (e.Poll? && s.status.Some? && !going ==> t.Some? && PolledAs(s, e.pollCalls, was, t.value.v))
      && (e.PXEBooted? && !going ==>
            && t.Some?
            && if was.initialized then t.value.v == was
               else PolledAs(s, e.pollCalls, was.(initialized := true), t.value.v))
      && (s.status.None? && t.Some? ==> t.value.phase == Running && !t.value.held)
  {
    hide PollSingle;
    if e.RunPower? || e.RunReboot? || e.RemoveFinalizers? {
      hide PowerTransform, RebootTransform, AttemptRebootOnRemoval, Physically;
      forall x: Sys, acts: seq<Action> { PhysicallyOnly(w, x, acts); }
    } else if e.RunBMC? || e.RunWipe? || e.BootUp? {
      hide BMCTransform, WipeTransform, MakeBootDecision;
    }
  }
}
