/** The life of a BMC configuration over whole runs: operator credentials end manual power, a
    configuration taken from the agent is final, and the password it holds is the one on the machine. */
module BMCLifecycle {
  import opened Wire
  import opened Specs
  import opened Machine
  import opened Reconcile
  import opened System

  function PasswordOf(bmc: BMCConfigurationFields): Option<Text> {
    if bmc.ipmi.Some? then Some(bmc.ipmi.value.f.password) else None
  }

  /** The stored password, where there is one, is the one the agent took last. */
  predicate InSync(bmc: BMCConfigurationFields, agentPassword: Option<Text>) {
    bmc.ipmi.Some? ==> PasswordOf(bmc) == agentPassword
  }

  /** Operator-provided means not manually powered, and everything stored says how the machine is powered
      or that the operator provided it. */
  predicate Settled(bmc: BMCConfigurationFields) {
    (bmc.manuallyConfigured ==> bmc.manual.None?) && (bmc.manuallyConfigured || AgentDerived(bmc))
  }

  predicate Sound(s: Sys) { s.bmc.Some? ==> Settled(s.bmc.value.v) }

  /** What the transform keeps, from the fresh resource on. */
  lemma {:induction false} TransformSettles(cfg: Config, im: InfraMachine, ms: Option<MachineStatusFields>,
                                            user: Option<Option<UserConfig>>,
                                            bmc: BMCConfigurationFields, calls: BMCCalls)
    requires bmc == NO_BMC.f || Settled(bmc)
    ensures var r := BMCTransform(cfg, im, ms, user, bmc, calls); r.verdict == Saved ==> Settled(r.bmc)
  {
  }

  lemma {:induction false} SoundStep(w: World, s: Sys, e: Event)
    requires Sound(s)
    ensures Sound(Step(w, s, e))
  {
    if e.RunBMC? {
      hide BMCTransform, Settled;
      if s.omni.Some? {
        var held := if s.bmc.Some? then s.bmc.value.v else NO_BMC.f;
        TransformSettles(w.cfg, s.omni.value, Values(s.status), s.user, held, e.bmcCalls);
      }
    } else if !e.TearDownBMC? {
      hide MoveOf, Settled;
      Frame(w, s, e);
    }
  }

  /** In every run: operator-provided and manually powered exclude each other. */
  lemma {:induction false} OperatorEndsManualPower(w: World, es: seq<Event>)
    ensures Sound(Run(w, INIT, es))
    decreases |es|
  {
    if es != [] {
      OperatorEndsManualPower(w, es[..|es| - 1]);
      SoundStep(w, Run(w, INIT, es[..|es| - 1]), es[|es| - 1]);
    }
  }

  // ------------------------------------------------------------------------- final once derived

  predicate NoOperator(e: Event) { e.UserPut? ==> e.user.None? }

  /** The configuration is still the one, or it has been destroyed since. */
  ghost predicate UnlessDestroyed(s: Sys, from: nat, bmc: BMCConfigurationFields) {
    && s.user.None? && from <= |s.log|
    && (Values(s.bmc) == Some(bmc) || BMCDestroyed in s.log[from..])
  }

  lemma {:induction false} FinalStep(w: World, s: Sys, e: Event, from: nat, bmc: BMCConfigurationFields)
    requires UnlessDestroyed(s, from, bmc) && AgentDerived(bmc) && NoOperator(e)
    ensures UnlessDestroyed(Step(w, s, e), from, bmc)
  {
    Frame(w, s, e);
    var facts := MoveOf(w, s, e).facts;
    assert (s.log + facts)[from..] == s.log[from..] + facts;
    if e.TearDownBMC? {
      if !s.bmc.Some? {
        assert facts == [];
      }
    } else if !e.RunBMC? && !e.UserPut? {
      hide MoveOf;
    }
  }

  /** From any state with no operator configuration in sight, a configuration derived from the agent
      stays as it is until it is destroyed. */
  lemma {:induction false} DerivedIsFinal(w: World, s: Sys, es: seq<Event>)
    requires s.bmc.Some? && AgentDerived(s.bmc.value.v) && s.user.None? && forall e <- es :: NoOperator(e)
    ensures UnlessDestroyed(Run(w, s, es), |s.log|, s.bmc.value.v)
    decreases |es|
  {
    if es != [] {
      var n := |es| - 1;
      DerivedIsFinal(w, s, es[..n]);
      assert es[n] in es;
      FinalStep(w, Run(w, s, es[..n]), es[n], |s.log|, s.bmc.value.v);
    }
  }

  // ------------------------------------------------------------------------- the password on the machine

  predicate Known(s: Sys) {
    && s.user.None?
    && (s.bmc.Some? ==> AgentDerived(s.bmc.value.v) && InSync(s.bmc.value.v, s.agentPassword))
  }

  /** Whether an agent-derived configuration is in sync when it is recorded: unless the agent reports no
      IPMI while the resource still holds somebody else's credentials. */
  lemma {:induction false} InSyncWhenRecorded(cfg: Config, im: InfraMachine, ms: Option<MachineStatusFields>,
                                              bmc: BMCConfigurationFields, calls: BMCCalls,
                                              agentPassword: Option<Text>, applied: bool)
    requires BMCTransform(cfg, im, ms, None, bmc, calls).verdict == Saved
    ensures var r := BMCTransform(cfg, im, ms, None, bmc, calls);
      && AgentDerived(r.bmc)
      && (InSync(r.bmc, PasswordAfter(agentPassword, r.acts, applied)) <==>
            (calls.reported.Reported? && calls.reported.ipmi.Some?) || InSync(bmc, agentPassword))
  {
  }

  lemma {:induction false} KnownStep(w: World, s: Sys, e: Event)
    requires Known(s) && NoOperator(e)
    ensures Known(Step(w, s, e))
  {
    Frame(w, s, e);
    if e.RunBMC? {
      if s.bmc.Some? {
        assert s.omni.None? || BMCTransform(w.cfg, s.omni.value, Values(s.status), None, s.bmc.value.v,
                                            e.bmcCalls).verdict == Skipped;
      } else if s.omni.Some? && BMCTransform(w.cfg, s.omni.value, Values(s.status), None, NO_BMC.f,
                                             e.bmcCalls).verdict == Saved {
        InSyncWhenRecorded(w.cfg, s.omni.value, Values(s.status), NO_BMC.f, e.bmcCalls, s.agentPassword, e.applied);
        hide BMCTransform;
      } else {
        hide BMCTransform;
      }
    } else if !e.TearDownBMC? && !e.UserPut? {
      hide MoveOf;
    }
  }

  /** In every run without operator credentials, a stored IPMI password is the one last set on the
      machine, whatever attempts failed half-way before. */
  lemma {:induction false} PasswordIsOnTheMachine(w: World, es: seq<Event>)
    requires forall e <- es :: NoOperator(e)
    ensures Known(Run(w, INIT, es))
    decreases |es|
  {
    if es != [] {
      var n := |es| - 1;
      PasswordIsOnTheMachine(w, es[..n]);
      assert es[n] in es;
      KnownStep(w, Run(w, INIT, es[..n]), es[n]);
    }
  }

  /** What a client is built from: the agent's report with the credentials it accepted, under the
      provider's own user name. */
  lemma {:induction false} DerivedAsReported(cfg: Config, im: InfraMachine, ms: Option<MachineStatusFields>,
                                             calls: BMCCalls, env: ClientEnv)
    requires BMCTransform(cfg, im, ms, None, NO_BMC.f, calls).verdict == Saved && !HasNoBMC(cfg, calls.reported)
    ensures var r := BMCTransform(cfg, im, ms, None, NO_BMC.f, calls);
      && r.acts == [SetPowerManagementCall(true, PasswordOf(r.bmc))] && r.bmc.manual.None?
      && (r.bmc.ipmi.Some? <==> calls.reported.ipmi.Some?)
      && (r.bmc.ipmi.Some? ==>
            var ipmi := r.bmc.ipmi.value.f;
            (ipmi.address, ipmi.port) == calls.reported.ipmi.value && ipmi.username == IPMI_USERNAME &&
              Some(ipmi.password) == calls.password)
      && (r.bmc.api.Some? <==> calls.reported.api)
      && (r.bmc.api.Some? ==> Some(r.bmc.api.value.f.address) == calls.address)
      && (GetClient(r.bmc, env).Some? ==> CapabilitiesOf(GetClient(r.bmc, env).value) == FULL)
  {
  }

  /** What the operator gives is what is used, a missing port being IPMI's own; what the operator leaves out
      stays, except that the machine is not manually powered any more. */
  lemma {:induction false} OperatorIsObeyed(user: UserConfig, bmc: BMCConfigurationFields, env: ClientEnv)
    ensures var r := StoreUserProvided(user, bmc);
      && (user.ipmi.None? ==> r.ipmi == bmc.ipmi) && (user.api.None? ==> r.api == bmc.api)
      && (user.ipmi.Some? ==>
            && r.ipmi.Some? && r.ipmi.value.f.port != 0
            && (user.ipmi.value.port != 0 ==> r.ipmi.value.f.port == user.ipmi.value.port)
            && r.ipmi.value.f == IPMIFields(user.ipmi.value.address, r.ipmi.value.f.port, user.ipmi.value.username,
                                            user.ipmi.value.password))
      && (user.api.Some? ==> r.api.Some? && r.api.value.f.address == user.api.value)
      && GetClient(r, env) != Some(ManualClient)
      && StoreUserProvided(user, r) == r
  {
  }

  /** With operator credentials this fails: withdrawn, they stay behind in a configuration that claims
      to come from an agent which reports an API only, and which is then final. */
  lemma {:induction false} WithdrawnCredentialsStay(cfg: Config, im: InfraMachine, ms: MachineStatusFields,
                                                    user: UserConfig, address: Text)
    requires Admitted(im) && ms.agentAccessible && user.ipmi.Some?
    ensures var given := BMCTransform(cfg, im, Some(ms), Some(Some(user)), NO_BMC.f,
                                      BMCCalls(AgentError(false, false), None, false, None));
            var later := BMCTransform(cfg, im, Some(ms), None, given.bmc,
                                      BMCCalls(Reported(true, None), None, true, Some(address)));
            && given.verdict == Saved && later.verdict == Saved && AgentDerived(later.bmc)
            && PasswordOf(later.bmc) == Some(user.ipmi.value.password)
            && PasswordAfter(None, later.acts, true) == None
  {
  }
}
