/** No machine is handed to Talos on disks that were not wiped for the wipe id Omni asks for, in any
    run; and a machine counts as installed exactly when Omni saw an install after its last wipe. */
module WipeSafety {
  import opened Wire
  import opened Specs
  import opened Machine
  import opened Reconcile
  import opened System

  /** A disk wipe that succeeded: the wipe id and the install event id it was done under. */
  datatype Wipe = Wipe(id: Text, event: uint64)

  function WipeIn(f: Fact): Option<Wipe> {
    if f.Acted? && f.loop == WipeLoop && |f.acts| == 1 && f.acts[0].WipeDisksCall? && f.acts[0].ok
    then Some(Wipe(f.acts[0].wipeId, f.acts[0].installEventId)) else None
  }

  /** The most recent successful wipe. */
  function LastWipe(log: seq<Fact>): Option<Wipe> {
    if log == [] then None
    else if WipeIn(log[|log| - 1]).Some? then WipeIn(log[|log| - 1])
    else LastWipe(log[..|log| - 1])
  }

  predicate TellsTalos(f: Fact) { f.BootAnswered? && (f.decision.BootTalosNet? || f.decision.BootDisk?) }

  /** Every answer that boots Talos was given to a machine last wiped for the id it carried then. */
  ghost predicate TalosOnlyOnWipedDisks(log: seq<Fact>) {
    forall i :: 0 <= i < |log| && TellsTalos(log[i]) ==>
      log[i].im.Some? && LastWipe(log[..i]).Some? && LastWipe(log[..i]).value.id == log[i].im.value.wipeId
  }

  /** The persisted wipe status is the record of the most recent successful wipe. */
  ghost predicate StatusIsLastWipe(s: Sys) {
    s.wipe.Some? ==>
      s.wipe.value.initialWipeDone &&
      LastWipe(s.log) == Some(Wipe(s.wipe.value.lastWipeId, s.wipe.value.lastWipeInstallEventId))
  }

  ghost predicate Safe(s: Sys) { StatusIsLastWipe(s) && TalosOnlyOnWipedDisks(s.log) }

  lemma {:induction false} Append(log: seq<Fact>, f: Fact)
    ensures LastWipe(log + [f]) == if WipeIn(f).Some? then WipeIn(f) else LastWipe(log)
    ensures TalosOnlyOnWipedDisks(log) && !TellsTalos(f) ==> TalosOnlyOnWipedDisks(log + [f])
    ensures TalosOnlyOnWipedDisks(log) && TellsTalos(f) && f.im.Some? && LastWipe(log).Some? &&
            LastWipe(log).value.id == f.im.value.wipeId
            ==> TalosOnlyOnWipedDisks(log + [f])
  {
    var l := log + [f];
    assert l[..|l| - 1] == log;
    assert forall i :: 0 <= i < |log| ==> l[..i] == log[..i] && l[i] == log[i];
  }

  predicate Quiet(facts: seq<Fact>) { forall f <- facts :: WipeIn(f).None? && !TellsTalos(f) }

  lemma {:induction false} AppendQuiet(log: seq<Fact>, facts: seq<Fact>)
    requires Quiet(facts)
    ensures LastWipe(log + facts) == LastWipe(log)
    ensures TalosOnlyOnWipedDisks(log) ==> TalosOnlyOnWipedDisks(log + facts)
    decreases |facts|
  {
    if facts == [] {
      assert log + facts == log;
    } else {
      var n := |facts| - 1;
      AppendQuiet(log, facts[..n]);
      Append(log + facts[..n], facts[n]);
      assert log + facts[..n] + [facts[n]] == log + facts;
    }
  }

  lemma {:induction false} SafeStep(w: World, s: Sys, e: Event)
    requires Safe(s)
    ensures Safe(Step(w, s, e))
  {
    if e.RunWipe? {
      SafeWipe(s, e.wiped);
    } else if e.BootUp? {
      SafeBoot(w, s);
    } else {
      hide MoveOf;
      Frame(w, s, e);
      AppendQuiet(s.log, MoveOf(w, s, e).facts);
    }
  }

  lemma {:induction false} SafeBoot(w: World, s: Sys)
    requires Safe(s)
    ensures Safe(Step(w, s, BootUp))
  {
    var facts := BootUpMove(w, s).facts;
    if facts == [] {
      assert s.log + facts == s.log;
    } else {
      TalosOnlyAfterWipe(s.omni, Values(s.bmc), s.wipe, w.cfg.alwaysNetboot);
      Append(s.log, facts[0]);
    }
  }

  lemma {:induction false} SafeWipe(s: Sys, ok: bool)
    requires Safe(s)
    ensures var m := RunWipeMove(s, ok); Safe(m.s.(log := s.log + m.facts))
  {
    var facts := RunWipeMove(s, ok).facts;
    if facts == [] {
      assert s.log + facts == s.log;
    } else {
      Append(s.log, facts[0]);
    }
  }

  /** In every run, the wipe status names the last successful wipe, and every boot into Talos was
      answered on disks wiped for the id of that moment. */
  lemma {:induction false} WipeSafety(w: World, es: seq<Event>)
    ensures StatusIsLastWipe(Run(w, INIT, es)) && TalosOnlyOnWipedDisks(Run(w, INIT, es).log)
    decreases |es|
  {
    if es != [] {
      WipeSafety(w, es[..|es| - 1]);
      SafeStep(w, Run(w, INIT, es[..|es| - 1]), es[|es| - 1]);
    }
  }

  // ------------------------------------------------------------------------- installed

  /** Whether Omni reported an install after the last wipe. */
  predicate InstallSinceWipe(log: seq<Fact>) {
    log != [] &&
    (log[|log| - 1].InstallSeen? || (WipeIn(log[|log| - 1]).None? && InstallSinceWipe(log[..|log| - 1])))
  }

  /** Omni's install event ids never go back while it keeps the record. */
  predicate InstallsAscend(s: Sys, e: Event) {
    e.OmniPut? && s.omni.Some? ==> e.im.installEventId >= s.omni.value.installEventId
  }

  predicate AscendingRun(w: World, es: seq<Event>)
    decreases |es|
  {
    es == [] || (AscendingRun(w, es[..|es| - 1]) && InstallsAscend(Run(w, INIT, es[..|es| - 1]), es[|es| - 1]))
  }

  predicate Tracked(s: Sys) {
    s.wipe.Some? ==>
      && s.omni.Some?
      && s.omni.value.installEventId >= s.wipe.value.lastWipeInstallEventId
      && (IsInstalled(s.omni, s.wipe) <==> InstallSinceWipe(s.log))
  }

  lemma {:induction false} AppendOther(log: seq<Fact>, facts: seq<Fact>)
    requires forall f <- facts :: WipeIn(f).None? && !f.InstallSeen?
    ensures InstallSinceWipe(log + facts) == InstallSinceWipe(log)
    decreases |facts|
  {
    if facts == [] {
      assert log + facts == log;
    } else {
      var n := |facts| - 1;
      AppendOther(log, facts[..n]);
      assert (log + facts)[..|log| + n] == log + facts[..n];
    }
  }

  lemma {:induction false} TrackedStep(w: World, s: Sys, e: Event)
    requires Tracked(s) && InstallsAscend(s, e)
    ensures Tracked(Step(w, s, e))
  {
    if e.RunWipe? {
      TrackedWipe(s, e.wiped);
    } else if e.OmniPut? {
      TrackedPut(s, e.im);
    } else if !e.OmniRemoved? {
      hide MoveOf;
      Frame(w, s, e);
      AppendOther(s.log, MoveOf(w, s, e).facts);
    } else {
      assert s.log + [] == s.log;
    }
  }

  lemma {:induction false} TrackedWipe(s: Sys, ok: bool)
    requires Tracked(s)
    ensures var m := RunWipeMove(s, ok); Tracked(m.s.(log := s.log + m.facts))
  {
    var facts := RunWipeMove(s, ok).facts;
    if facts == [] {
      assert s.log + facts == s.log;
    } else {
      assert (s.log + facts)[..|s.log|] == s.log;
    }
  }

  lemma {:induction false} TrackedPut(s: Sys, im: InfraMachine)
    requires Tracked(s) && InstallsAscend(s, OmniPut(im))
    ensures var m := OmniPutMove(s, im); Tracked(m.s.(log := s.log + m.facts))
  {
    var facts := OmniPutMove(s, im).facts;
    if facts == [] {
      assert s.log + facts == s.log;
    } else {
      assert (s.log + facts)[..|s.log|] == s.log;
    }
  }

  /** A wiped machine counts as installed exactly when Omni reported an install after its last wipe. */
  lemma {:induction false} InstalledIffSeenSinceWipe(w: World, es: seq<Event>)
    requires AscendingRun(w, es)
    ensures Tracked(Run(w, INIT, es))
    decreases |es|
  {
    if es != [] {
      InstalledIffSeenSinceWipe(w, es[..|es| - 1]);
      TrackedStep(w, Run(w, INIT, es[..|es| - 1]), es[|es| - 1]);
    }
  }

  // ------------------------------------------------------------------------- what boot answers promise

  /** A saved wipe settles the matter: the machine is wiped, counts as not installed, carries the token it
      was wiped under, and is not wiped again for the same wish. */
  lemma {:induction false} WipeSettles(im: InfraMachine, ms: Option<MachineStatusFields>, wipe: WipeStatusFields,
                                       again: bool)
    requires WipeTransform(im, ms, wipe, true).verdict == Saved
    ensures var r := WipeTransform(im, ms, wipe, true);
      && !RequiresWipe(Some(im), Some(r.wipe)) && !IsInstalled(Some(im), Some(r.wipe))
      && r.wipe.wipedNodeUniqueToken == im.nodeUniqueToken
      && WipeTransform(im, ms, r.wipe, again) == WipeResult(r.wipe, Skipped, [])
  {
  }

  /** What an answer that boots Talos says of the machine it was given to, with the history before it. */
  ghost predicate Warranted(cfg: Config, log: seq<Fact>, f: Fact) {
    TellsTalos(f) ==>
      && f.im.Some? && f.im.value.acceptance == Accepted && !f.im.value.cordoned && f.im.value.phase == Running
      && f.im.value.clusterTalosVersion != []
      && f.decision == if InstallSinceWipe(log) && !cfg.alwaysNetboot then BootDisk(cfg.bootFromDisk)
                       else BootTalosNet(f.im.value.clusterTalosVersion)
  }

  ghost predicate AllWarranted(cfg: Config, log: seq<Fact>) {
    forall i :: 0 <= i < |log| ==> Warranted(cfg, log[..i], log[i])
  }

  lemma {:induction false} AppendWarranted(cfg: Config, log: seq<Fact>, facts: seq<Fact>)
    requires AllWarranted(cfg, log)
    requires (forall f <- facts :: !TellsTalos(f)) || (|facts| == 1 && Warranted(cfg, log, facts[0]))
    ensures AllWarranted(cfg, log + facts)
  {
    var longer := log + facts;
    forall i | 0 <= i < |longer|
      ensures Warranted(cfg, longer[..i], longer[i])
    {
      if i < |log| {
        assert longer[..i] == log[..i];
      } else {
        assert longer[i] in facts;
        assert i == |log| ==> longer[..i] == log;
      }
    }
  }

  lemma {:induction false} WarrantedStep(w: World, s: Sys, e: Event)
    requires AllWarranted(w.cfg, s.log) && Tracked(s)
    ensures AllWarranted(w.cfg, Step(w, s, e).log)
  {
    hide AllWarranted;
    Frame(w, s, e);
    if e.BootUp? {
      TalosOnlyAfterWipe(s.omni, Values(s.bmc), s.wipe, w.cfg.alwaysNetboot);
    } else {
      hide MoveOf;
    }
    AppendWarranted(w.cfg, s.log, MoveOf(w, s, e).facts);
  }

  /** In every run with ascending install ids: a machine is sent to Talos only while it is accepted, allocated,
      staying and not cordoned; then to its disk, the configured way, exactly when an install was reported after its
      last wipe and the disk may be booted from, and otherwise to the network, in the version it is allocated. */
  lemma {:induction false} TalosIsWarranted(w: World, es: seq<Event>)
    requires AscendingRun(w, es)
    ensures AllWarranted(w.cfg, Run(w, INIT, es).log)
    decreases |es|
  {
    if es != [] {
      TalosIsWarranted(w, es[..|es| - 1]);
      InstalledIffSeenSinceWipe(w, es[..|es| - 1]);
      WarrantedStep(w, Run(w, INIT, es[..|es| - 1]), es[|es| - 1]);
    }
  }
}
