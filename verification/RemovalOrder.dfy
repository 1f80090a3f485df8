/** A machine that is going away gets its parting reboot while the provider can still see it: once the
    reboot controller has run with them present, neither the machine status nor the BMC configuration
    is destroyed before that controller's finalizer removal has made its attempt. */
module RemovalOrder {
  import opened Wire
  import opened Specs
  import opened Machine
  import opened Reconcile
  import opened System

  datatype Kind = OfStatus | OfBMC

  predicate Holds(k: Kind, f: Fact) { f.FinalizersAdded? && (if k == OfStatus then f.status else f.bmc) }

  predicate Destroys(k: Kind, f: Fact) { if k == OfStatus then f.StatusDestroyed? else f.BMCDestroyed? }

  predicate Saw(k: Kind, f: Fact) { f.RemovalAttempted? && (if k == OfStatus then f.sawStatus else f.sawBMC) }

  /** The reboot controller took a finalizer and has not made its removal attempt since. */
  predicate Owed(k: Kind, log: seq<Fact>) {
    log != [] &&
    (Holds(k, log[|log| - 1]) || (!log[|log| - 1].RemovalAttempted? && Owed(k, log[..|log| - 1])))
  }

  /** Nothing is destroyed while an attempt is owed, and an attempt that is owed finds the resource. */
  ghost predicate InOrder(k: Kind, log: seq<Fact>) {
    forall j :: 0 <= j < |log| && Owed(k, log[..j]) ==>
      !Destroys(k, log[j]) && (log[j].RemovalAttempted? ==> Saw(k, log[j]))
  }

  predicate Held(k: Kind, s: Sys) {
    if k == OfStatus then s.status.Some? && s.status.value.held else s.bmc.Some? && s.bmc.value.held
  }

  ghost predicate Kept(k: Kind, s: Sys) { InOrder(k, s.log) && (Owed(k, s.log) ==> Held(k, s)) }

  lemma {:induction false} Append(k: Kind, log: seq<Fact>, f: Fact)
    requires InOrder(k, log)
    requires Owed(k, log) ==> !Destroys(k, f) && (f.RemovalAttempted? ==> Saw(k, f))
    ensures InOrder(k, log + [f])
    ensures Owed(k, log + [f]) == (Holds(k, f) || (!f.RemovalAttempted? && Owed(k, log)))
  {
    var l := log + [f];
    assert l[..|log|] == log;
    assert forall j :: 0 <= j < |log| ==> l[..j] == log[..j] && l[j] == log[j];
  }

  /** Facts that neither hold, attempt nor destroy. */
  predicate Aside(k: Kind, f: Fact) { !Holds(k, f) && !f.RemovalAttempted? && !Destroys(k, f) }

  lemma {:induction false} AppendAside(k: Kind, log: seq<Fact>, facts: seq<Fact>)
    requires InOrder(k, log) && forall f <- facts :: Aside(k, f)
    ensures InOrder(k, log + facts) && Owed(k, log + facts) == Owed(k, log)
    decreases |facts|
  {
    if facts == [] {
      assert log + facts == log;
    } else {
      var n := |facts| - 1;
      AppendAside(k, log, facts[..n]);
      assert facts[n] in facts && Aside(k, facts[n]);
      Append(k, log + facts[..n], facts[n]);
      assert log + facts[..n] + [facts[n]] == log + facts;
    }
  }

  /** One leading fact that matters, followed by calls. */
  lemma {:induction false} AppendLead(k: Kind, log: seq<Fact>, f: Fact, rest: seq<Fact>)
    requires InOrder(k, log) && forall g <- rest :: Aside(k, g)
    requires Owed(k, log) ==> !Destroys(k, f) && (f.RemovalAttempted? ==> Saw(k, f))
    ensures InOrder(k, log + ([f] + rest))
    ensures Owed(k, log + ([f] + rest)) == (Holds(k, f) || (!f.RemovalAttempted? && Owed(k, log)))
  {
    Append(k, log, f);
    AppendAside(k, log + [f], rest);
    assert log + [f] + rest == log + ([f] + rest);
  }

  lemma {:induction false} KeptReboot(k: Kind, w: World, s: Sys, e: Event)
    requires Kept(k, s) && e.RunReboot?
    ensures Kept(k, Step(w, s, e))
  {
    hide Owed, InOrder;
    if s.omni.None? || s.omni.value.phase == TearingDown || Refuses(s.status) {
      assert s.log + [] == s.log;
    } else if Refuses(s.bmc) {
      Append(k, s.log, FinalizersAdded(s.status.Some?, false));
    } else {
      KeptRebootRan(k, w, s, e);
    }
  }

  lemma {:induction false} KeptRebootRan(k: Kind, w: World, s: Sys, e: Event)
    requires Kept(k, s) && e.RunReboot?
    requires s.omni.Some? && s.omni.value.phase == Running && !Refuses(s.status) && !Refuses(s.bmc)
    ensures Kept(k, Step(w, s, e))
  {
    hide MoveOf, RebootOf, Physically, Owed, InOrder;
    RebootShape(w, s, e);
    var r := RebootOf(w, s, e);
    AppendLead(k, s.log, FinalizersAdded(s.status.Some?, s.bmc.Some?),
               Did(RebootLoop, s.now + e.callDelay, r.acts, r.verdict));
  }

  lemma {:induction false} KeptRemoval(k: Kind, w: World, s: Sys, e: Event)
    requires Kept(k, s) && e.RemoveFinalizers?
    ensures Kept(k, Step(w, s, e))
  {
    hide AttemptRebootOnRemoval, Physically, Owed, InOrder;
    forall t: Sys, acts: seq<Action> { PhysicallyOnly(w, t, acts); }
    var facts := MoveOf(w, s, e).facts;
    if facts == [] {
      assert s.log + facts == s.log;
    } else {
      assert facts == [facts[0]] + facts[1..];
      AppendLead(k, s.log, facts[0], facts[1..]);
    }
  }

  lemma {:induction false} KeptTeardown(k: Kind, w: World, s: Sys, e: Event)
    requires Kept(k, s) && (e.TearDownStatus? || e.TearDownBMC?)
    ensures Kept(k, Step(w, s, e))
  {
    hide Owed, InOrder;
    var facts := MoveOf(w, s, e).facts;
    if facts == [] {
      assert s.log + facts == s.log;
    } else {
      assert facts == [facts[0]];
      Append(k, s.log, facts[0]);
    }
  }

  /** Every other event keeps the finalizers where they are. */
  lemma {:induction false} OthersKeepHeld(k: Kind, w: World, s: Sys, e: Event)
    requires !e.RunReboot? && !e.RemoveFinalizers? && !e.TearDownStatus? && !e.TearDownBMC?
    ensures Held(k, s) ==> Held(k, MoveOf(w, s, e).s)
  {
    hide BMCTransform, WipeTransform, PowerTransform, PollSingle, MakeBootDecision, Physically;
    forall t: Sys, acts: seq<Action> { PhysicallyOnly(w, t, acts); }
  }

  lemma {:induction false} KeptStep(k: Kind, w: World, s: Sys, e: Event)
    requires Kept(k, s)
    ensures Kept(k, Step(w, s, e))
  {
    if e.RunReboot? {
      KeptReboot(k, w, s, e);
    } else if e.RemoveFinalizers? {
      KeptRemoval(k, w, s, e);
    } else if e.TearDownStatus? || e.TearDownBMC? {
      KeptTeardown(k, w, s, e);
    } else {
      hide MoveOf, Owed, InOrder;
      Frame(w, s, e);
      OthersKeepHeld(k, w, s, e);
      AppendAside(k, s.log, MoveOf(w, s, e).facts);
    }
  }

  lemma {:induction false} KeptInRun(k: Kind, w: World, es: seq<Event>)
    ensures Kept(k, Run(w, INIT, es))
    decreases |es|
  {
    if es != [] {
      KeptInRun(k, w, es[..|es| - 1]);
      KeptStep(k, w, Run(w, INIT, es[..|es| - 1]), es[|es| - 1]);
    }
  }

  lemma {:induction false} OwedSince(k: Kind, log: seq<Fact>, i: nat) returns (a: nat)
    requires i < |log| && Holds(k, log[i]) && !Owed(k, log)
    ensures i < a < |log| && log[a].RemovalAttempted?
    decreases |log|
  {
    var n := |log| - 1;
    if log[n].RemovalAttempted? && i < n {
      a := n;
    } else {
      assert log[..n][i] == log[i];
      a := OwedSince(k, log[..n], i);
    }
  }

  /** In every run: between a reboot transform that found the resource and the resource's destruction
      there is a removal attempt; and the first attempt after such a transform still finds it. */
  lemma {:induction false} AttemptBeforeDestruction(k: Kind, w: World, es: seq<Event>, i: nat, j: nat)
    requires i < j < |Run(w, INIT, es).log|
    requires Holds(k, Run(w, INIT, es).log[i])
    ensures Destroys(k, Run(w, INIT, es).log[j]) ==>
            exists a :: i < a < j && Run(w, INIT, es).log[a].RemovalAttempted?
    ensures Run(w, INIT, es).log[j].RemovalAttempted? &&
            (forall a :: i < a < j ==> !Run(w, INIT, es).log[a].RemovalAttempted?)
            ==> Saw(k, Run(w, INIT, es).log[j])
  {
    KeptInRun(k, w, es);
    var log := Run(w, INIT, es).log;
    if !Owed(k, log[..j]) {
      assert log[..j][i] == log[i];
      var a := OwedSince(k, log[..j], i);
      assert log[..j][a] == log[a];
    }
  }

  // ------------------------------------------------------------------------- who holds what, and until when

  predicate Staying(s: Sys) { s.omni.Some? && s.omni.value.phase == Running }

  predicate Going(s: Sys) { s.omni.Some? && s.omni.value.phase == TearingDown }

  /** A step that keeps both resources as they are, but for who holds them. */
  predicate KeepsBoth(s: Sys, t: Sys) {
    && t.status.Some? == s.status.Some? && t.bmc.Some? == s.bmc.Some?
    && (t.status.Some? ==> t.status.value == s.status.value.(held := Held(OfStatus, t)))
    && (t.bmc.Some? ==> t.bmc.value == s.bmc.value.(held := Held(OfBMC, t)))
  }

  /** The reboot loop takes hold of both resources of a machine that stays, the machine status first, and of nothing
      that is already going. */
  lemma {:induction false} TakesExactly(w: World, s: Sys, e: Event)
    requires e.RunReboot?
    ensures var t := MoveOf(w, s, e).s;
            var first := Staying(s) && s.status.Some? && s.status.value.phase == Running;
            var second := && Staying(s) && s.bmc.Some? && s.bmc.value.phase == Running
                          && (s.status.Some? && s.status.value.phase == TearingDown ==> Held(OfStatus, s));
      && KeepsBoth(s, t)
      && (Held(OfStatus, t) <==> Held(OfStatus, s) || first)
      && (Held(OfBMC, t) <==> Held(OfBMC, s) || second)
  {
    if !Staying(s) || Refuses(s.status) || Refuses(s.bmc) {
      hide RebootTransform, Physically;
    } else {
      hide MoveOf, RebootOf, Physically;
      RebootShape(w, s, e);
    }
  }

  /** The farewell lets go of both, in the same order, of each exactly when its removal succeeds. */
  lemma {:induction false} ReleasesExactly(w: World, s: Sys, e: Event)
    requires e.RemoveFinalizers?
    ensures var t := MoveOf(w, s, e).s;
      && KeepsBoth(s, t)
      && (Held(OfStatus, t) <==> Held(OfStatus, s) && !(Going(s) && e.statusOk))
      && (Held(OfBMC, t) <==> Held(OfBMC, s) && !(Going(s) && e.bmcOk && (e.statusOk || !Held(OfStatus, s))))
  {
    hide AttemptRebootOnRemoval, Physically;
    forall t: Sys, acts: seq<Action> { PhysicallyOnly(w, t, acts); }
  }

  /** A resource whose machine is going or gone is marked while it is held, and destroyed once it is not; nothing else
      is touched, and nothing of a machine that stays. */
  lemma {:induction false} TearsDownExactly(w: World, s: Sys, e: Event)
    requires e.TearDownStatus? || e.TearDownBMC?
    ensures var m, k := MoveOf(w, s, e), if e.TearDownStatus? then OfStatus else OfBMC;
            var there := if k == OfStatus then s.status.Some? else s.bmc.Some?;
      && m.s == (if k == OfStatus then s.(status := m.s.status) else s.(bmc := m.s.bmc))
      && (Staying(s) || !there ==> m == Move(s, []))
      && (!Staying(s) && there && !Held(k, s) ==>
            && (if k == OfStatus then m.s.status.None? else m.s.bmc.None?)
            && m.facts == [if k == OfStatus then StatusDestroyed else BMCDestroyed])
      && (!Staying(s) && Held(k, s) ==>
            && m.facts == []
            && (if k == OfStatus then m.s.status == Some(Res(s.status.value.v, TearingDown, true))
                else m.s.bmc == Some(Res(s.bmc.value.v, TearingDown, true))))
  {
  }
}
