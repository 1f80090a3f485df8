/** The minimum reboot interval, over whole runs: nothing the reboot transform or a power-off does
    comes sooner than the interval after the latest recorded reboot or power-on, so reboots are spaced
    and a window of time holds only so many. */
module Cooldown {
  import opened Wire
  import opened Specs
  import opened Machine
  import opened Reconcile
  import opened System

  /** A reboot or power-on that was carried out and recorded. */
  predicate RebootRecorded(f: Fact) { f.Acted? && f.loop == RebootLoop && f.verdict == Saved }

  predicate PowerOnRecorded(f: Fact) {
    f.Acted? && f.loop == PowerLoop && f.verdict == Saved && f.acts != [] && f.acts[|f.acts| - 1].PowerOnCall?
  }

  /** A call that has to wait out the interval: any reboot attempt of the transform, any power-off. */
  predicate MustWait(f: Fact) {
    f.Acted? && (f.loop == RebootLoop || (f.loop == PowerLoop && f.acts != [] && f.acts[|f.acts| - 1].PowerOffCall?))
  }

  /** The times of the recorded events of one sort since the statuses were last dropped. */
  function Times(log: seq<Fact>, p: Fact -> bool): seq<int> {
    if log == [] then []
    else
      var f, rest := log[|log| - 1], log[..|log| - 1];
      if f.OutputsDropped? then []
      else if f.Acted? && p(f) then Times(rest, p) + [f.at]
      else Times(rest, p)
  }

  predicate After(t: int, times: seq<int>, interval: int) { times != [] ==> t >= times[|times| - 1] + interval }

  /** Every call that has to wait did, whether it then succeeded or not. */
  ghost predicate Waited(log: seq<Fact>, interval: int) {
    forall j :: 0 <= j < |log| && MustWait(log[j]) ==>
      After(log[j].at, Times(log[..j], RebootRecorded), interval) &&
        After(log[j].at, Times(log[..j], PowerOnRecorded), interval)
  }

  /** The statuses are not older than what they record, and not ahead of the clock. */
  ghost predicate Stamped(s: Sys) {
    var reboots, powerOns := Times(s.log, RebootRecorded), Times(s.log, PowerOnRecorded);
    && (reboots != [] ==>
          s.reboot.Some? && s.reboot.value.lastRebootTimestamp.Some? &&
            reboots[|reboots| - 1] <= s.reboot.value.lastRebootTimestamp.value)
    && (powerOns != [] ==>
          s.power.Some? && s.power.value.lastPowerOnTimestamp.Some? &&
            powerOns[|powerOns| - 1] <= s.power.value.lastPowerOnTimestamp.value)
    && (s.reboot.Some? && s.reboot.value.lastRebootTimestamp.Some? ==>
        0 <= s.reboot.value.lastRebootTimestamp.value <= s.now)
    && (s.power.Some? && s.power.value.lastPowerOnTimestamp.Some? ==>
        0 <= s.power.value.lastPowerOnTimestamp.value <= s.now)
  }

  ghost predicate Cool(w: World, s: Sys) { Stamped(s) && Waited(s.log, w.cfg.minRebootInterval) }

  lemma {:induction false} Append(log: seq<Fact>, f: Fact, interval: int)
    ensures Times(log + [f], RebootRecorded) ==
            if f.OutputsDropped? then [] else if RebootRecorded(f) then Times(log, RebootRecorded) + [f.at]
            else Times(log, RebootRecorded)
    ensures Times(log + [f], PowerOnRecorded) ==
            if f.OutputsDropped? then [] else if PowerOnRecorded(f) then Times(log, PowerOnRecorded) + [f.at]
            else Times(log, PowerOnRecorded)
    ensures Waited(log, interval)
        && (MustWait(f) ==>
              After(f.at, Times(log, RebootRecorded), interval) && After(f.at, Times(log, PowerOnRecorded), interval))
        ==> Waited(log + [f], interval)
  {
    var l := log + [f];
    assert l[..|log|] == log;
    assert forall j :: 0 <= j < |log| ==> l[..j] == log[..j] && l[j] == log[j];
  }

  predicate Aside(f: Fact) { !RebootRecorded(f) && !PowerOnRecorded(f) && !MustWait(f) && !f.OutputsDropped? }

  lemma {:induction false} AppendAside(log: seq<Fact>, facts: seq<Fact>, interval: int)
    requires forall f <- facts :: Aside(f)
    ensures Times(log + facts, RebootRecorded) == Times(log, RebootRecorded)
    ensures Times(log + facts, PowerOnRecorded) == Times(log, PowerOnRecorded)
    ensures Waited(log, interval) ==> Waited(log + facts, interval)
    decreases |facts|
  {
    if facts == [] {
      assert log + facts == log;
    } else {
      var n := |facts| - 1;
      assert facts[n] in facts && Aside(facts[n]);
      AppendAside(log, facts[..n], interval);
      Append(log + facts[..n], facts[n], interval);
      assert log + facts[..n] + [facts[n]] == log + facts;
    }
  }

  /** An elapsed time that passes the check is a real one: with no timestamp ahead of the clock,
      saturation never lets a call through early. */
  lemma {:induction false} ElapsedIsReal(now: nat, op: Option<PowerOperation>, rb: Option<RebootStatus>, interval: int)
    requires op.Some? && op.value.lastPowerOnTimestamp.Some? ==> op.value.lastPowerOnTimestamp.value <= now
    requires rb.Some? && rb.value.lastRebootTimestamp.Some? ==> rb.value.lastRebootTimestamp.value <= now
    requires TimeSinceLastPowerOn(now, op, rb) >= interval
    ensures op.Some? && op.value.lastPowerOnTimestamp.Some? ==> now >= op.value.lastPowerOnTimestamp.value + interval
    ensures rb.Some? && rb.value.lastRebootTimestamp.Some? ==> now >= rb.value.lastRebootTimestamp.value + interval
  {
  }

  /** What the reboot transform promises the clock: calls only past the interval, and a stamp at the end. */
  lemma {:induction false} RebootChecks(cfg: Config, im: InfraMachine, bmc: Option<BMCConfigurationFields>,
                                        wipe: Option<WipeStatusFields>,
                                        op: Option<PowerOperation>, ms: Option<MachineStatusFields>, rb: RebootStatus,
                                        calls: RebootCalls, now: int, stamp: int)
    ensures var r := RebootTransform(cfg, im, bmc, wipe, op, ms, rb, calls, now, stamp);
      && (r.acts != [] ==> TimeSinceLastPowerOn(now, op, Some(rb)) >= cfg.minRebootInterval)
      && (r.verdict == Saved ==> if r.acts == [] then r.rb == rb else r.rb.lastRebootTimestamp == Some(stamp))
  {
  }

  lemma {:induction false} PowerChecks(cfg: Config, im: InfraMachine, bmc: Option<BMCConfigurationFields>,
                                       wipe: Option<WipeStatusFields>,
                                       rb: Option<RebootStatus>, op: PowerOperation, calls: PowerCalls, now: int,
                                       stamp: int)
    ensures var r := PowerTransform(cfg, im, bmc, wipe, rb, op, calls, now, stamp);
      && (r.acts != [] && r.acts[|r.acts| - 1].PowerOffCall? ==>
          TimeSinceLastPowerOn(now, Some(op), rb) >= cfg.minRebootInterval)
      && (r.verdict == Saved ==>
            r.op.lastPowerOnTimestamp ==
            (if r.acts != [] && r.acts[|r.acts| - 1].PowerOnCall? then Some(stamp) else op.lastPowerOnTimestamp))
  {
  }

  /** The last operation recorded is the last one sent. */
  lemma {:induction false} OperationIsRecorded(cfg: Config, im: InfraMachine, bmc: Option<BMCConfigurationFields>,
                                               wipe: Option<WipeStatusFields>,
                                               rb: Option<RebootStatus>, op: PowerOperation, calls: PowerCalls,
                                               now: int, stamp: int)
    requires PowerTransform(cfg, im, bmc, wipe, rb, op, calls, now, stamp).verdict == Saved
    ensures var r := PowerTransform(cfg, im, bmc, wipe, rb, op, calls, now, stamp);
      r.acts != [] &&
      match r.acts[|r.acts| - 1]
      case PowerOnCall(_, ok, _) => ok && r.op.lastPowerOperation == POWER_STATE_ON
      case PowerOffCall(_, ok) => ok && r.op.lastPowerOperation == POWER_STATE_OFF
      case _ => r.op.lastPowerOperation == op.lastPowerOperation
  {
    hide RequiredBootMode, RequiresPowerOn, GetClient, TimeSinceLastPowerOn, IsPowerOffActive;
  }

  /** A fact that does not matter here, and at most one that may. */
  lemma {:induction false} AppendPair(log: seq<Fact>, held: Fact, rest: seq<Fact>, interval: int)
    requires Aside(held) && |rest| <= 1 && (rest != [] ==> !rest[0].OutputsDropped?)
    requires Waited(log, interval)
    requires rest != [] && MustWait(rest[0]) ==>
               After(rest[0].at, Times(log, RebootRecorded), interval) &&
                 After(rest[0].at, Times(log, PowerOnRecorded), interval)
    ensures Waited(log + ([held] + rest), interval)
    ensures Times(log + ([held] + rest), RebootRecorded) ==
            if rest != [] && RebootRecorded(rest[0]) then Times(log, RebootRecorded) + [rest[0].at]
            else Times(log, RebootRecorded)
    ensures Times(log + ([held] + rest), PowerOnRecorded) ==
            if rest != [] && PowerOnRecorded(rest[0]) then Times(log, PowerOnRecorded) + [rest[0].at]
            else Times(log, PowerOnRecorded)
  {
    hide Times, Waited;
    Append(log, held, interval);
    if rest == [] {
      assert [held] + rest == [held];
    } else {
      Append(log + [held], rest[0], interval);
      assert log + [held] + [rest[0]] == log + ([held] + rest);
    }
  }

  lemma {:induction false} CoolReboot(w: World, s: Sys, e: Event)
    requires Cool(w, s) && e.RunReboot?
    ensures Cool(w, Step(w, s, e))
  {
    hide Times, Waited;
    if s.omni.None? || s.omni.value.phase == TearingDown || Refuses(s.status) {
      assert s.log + MoveOf(w, s, e).facts == s.log;
    } else if Refuses(s.bmc) {
      var held := FinalizersAdded(s.status.Some?, false);
      AppendPair(s.log, held, [], w.cfg.minRebootInterval);
      assert [held] + [] == [held];
    } else {
      CoolRebootRan(w, s, e);
    }
  }

  /** The part of a reboot reconcile that matters here, the transform itself having run. */
  lemma {:induction false} RebootRan(w: World, s: Sys, e: Event) returns (r: RebootResult, stamp: int)
    requires e.RunReboot?
    requires s.omni.Some? && s.omni.value.phase == Running && !Refuses(s.status) && !Refuses(s.bmc)
    ensures stamp == s.now + e.callDelay + e.stampDelay
    ensures var m := MoveOf(w, s, e);
      && m.s.power == s.power && m.s.log == s.log
      && m.s.now == (if r.acts == [] then s.now else stamp)
      && m.s.reboot == (if r.verdict == Saved then Some(r.rb) else s.reboot)
      && m.facts == [FinalizersAdded(s.status.Some?, s.bmc.Some?)] +
        Did(RebootLoop, s.now + e.callDelay, r.acts, r.verdict)
    ensures r.acts != [] ==> TimeSinceLastPowerOn(s.now, s.power,
                                                  Some(OrElse(s.reboot, NO_REBOOT_STATUS))) >= w.cfg.minRebootInterval
    ensures r.verdict == Saved ==>
              if r.acts == [] then r.rb == OrElse(s.reboot, NO_REBOOT_STATUS)
              else r.rb.lastRebootTimestamp == Some(stamp)
  {
    hide RebootTransform, MoveOf, TimeSinceLastPowerOn, Physically;
    stamp := s.now + e.callDelay + e.stampDelay;
    r := RebootOf(w, s, e);
    RebootShape(w, s, e);
    RebootChecks(w.cfg, s.omni.value, Values(s.bmc), s.wipe, s.power, Values(s.status),
                 OrElse(s.reboot, NO_REBOOT_STATUS),
                 e.rebootCalls, s.now, stamp);
  }

  lemma {:induction false} CoolRebootRan(w: World, s: Sys, e: Event)
    requires Cool(w, s) && e.RunReboot?
    requires s.omni.Some? && s.omni.value.phase == Running && !Refuses(s.status) && !Refuses(s.bmc)
    ensures Cool(w, Step(w, s, e))
  {
    hide MoveOf, Times, Waited, TimeSinceLastPowerOn;
    var r, stamp := RebootRan(w, s, e);
    if r.acts != [] {
      ElapsedIsReal(s.now, s.power, Some(OrElse(s.reboot, NO_REBOOT_STATUS)), w.cfg.minRebootInterval);
    }
    AppendPair(s.log, FinalizersAdded(s.status.Some?, s.bmc.Some?),
               Did(RebootLoop, s.now + e.callDelay, r.acts, r.verdict), w.cfg.minRebootInterval);
  }

  /** And of a power reconcile. */
  lemma {:induction false} PowerRan(w: World, s: Sys, e: Event) returns (r: PowerResult, stamp: int)
    requires e.RunPower? && s.omni.Some? && s.omni.value.phase == Running
    ensures stamp == s.now + e.callDelay + e.stampDelay
    ensures var m := MoveOf(w, s, e);
      && m.s.reboot == s.reboot && m.s.log == s.log
      && m.s.now == (if r.acts == [] then s.now else stamp)
      && m.s.power == (if r.verdict == Saved then Some(r.op) else s.power)
      && m.facts == Did(PowerLoop, s.now + e.callDelay, r.acts, r.verdict)
    ensures var op := OrElse(s.power, NO_POWER_OPERATION);
      && (r.acts != [] && r.acts[|r.acts| - 1].PowerOffCall? ==>
          TimeSinceLastPowerOn(s.now, Some(op), s.reboot) >= w.cfg.minRebootInterval)
      && (r.verdict == Saved ==>
            r.op.lastPowerOnTimestamp ==
            if r.acts != [] && r.acts[|r.acts| - 1].PowerOnCall? then Some(stamp) else op.lastPowerOnTimestamp)
  {
    hide PowerTransform, MoveOf, TimeSinceLastPowerOn, Physically;
    stamp := s.now + e.callDelay + e.stampDelay;
    r := PowerOf(w, s, e);
    PowerShape(w, s, e);
    PowerChecks(w.cfg, s.omni.value, Values(s.bmc), s.wipe, s.reboot, OrElse(s.power, NO_POWER_OPERATION),
                e.powerCalls, s.now, stamp);
  }

  /** What a power reconcile that made calls leaves is in order, given what it promises. */
  lemma {:induction false} CoolPowerActed(w: World, s: Sys, t: Sys, f: Fact, op: PowerOperation, stamp: int)
    requires Stamped(s) && f.Acted? && f.loop == PowerLoop && s.now <= f.at <= stamp == t.now && t.reboot == s.reboot
    requires t.power == if f.verdict == Saved then Some(op) else s.power
    requires f.verdict == Saved ==>
               op.lastPowerOnTimestamp == if PowerOnRecorded(f) then Some(stamp)
                 else OrElse(s.power, NO_POWER_OPERATION).lastPowerOnTimestamp
    requires Times(t.log, RebootRecorded) == Times(s.log, RebootRecorded)
    requires Times(t.log, PowerOnRecorded) == if PowerOnRecorded(f) then Times(s.log, PowerOnRecorded) + [f.at]
             else Times(s.log, PowerOnRecorded)
    ensures Stamped(t)
  {
    hide Times;
  }

  lemma {:induction false} CoolPower(w: World, s: Sys, e: Event)
    requires Cool(w, s) && e.RunPower?
    ensures Cool(w, Step(w, s, e))
  {
    if s.omni.None? || s.omni.value.phase == TearingDown {
      assert s.log + [] == s.log;
    } else {
      CoolPowerRan(w, s, e);
    }
  }

  lemma {:induction false} CoolPowerRan(w: World, s: Sys, e: Event)
    requires Cool(w, s) && e.RunPower? && s.omni.Some? && s.omni.value.phase == Running
    ensures Cool(w, Step(w, s, e))
  {
    hide MoveOf, Times, Waited, TimeSinceLastPowerOn, Stamped, MustWait, RebootRecorded;
    var r, stamp := PowerRan(w, s, e);
    if r.acts == [] {
      CoolPowerIdle(w, s, e, r);
    } else {
      var f := Acted(PowerLoop, s.now + e.callDelay, r.acts, r.verdict);
      assert MoveOf(w, s, e).facts == [f];
      PowerWaited(w, s, f);
      Append(s.log, f, w.cfg.minRebootInterval);
      assert !RebootRecorded(f) by { NotAReboot(f); }
      CoolPowerActed(w, s, Step(w, s, e), f, r.op, stamp);
    }
  }

  lemma {:induction false} NotAReboot(f: Fact)
    requires f.Acted? && f.loop == PowerLoop
    ensures !RebootRecorded(f)
  {
  }

  /** A reconcile that made no calls changes no times. */
  lemma {:induction false} CoolPowerIdle(w: World, s: Sys, e: Event, r: PowerResult)
    requires Cool(w, s) && e.RunPower? && r.acts == []
    requires var m := MoveOf(w, s, e);
      && m.s.reboot == s.reboot && m.s.log == s.log && m.s.now == s.now && m.facts == []
      && m.s.power == (if r.verdict == Saved then Some(r.op) else s.power)
    requires r.verdict == Saved ==>
               r.op.lastPowerOnTimestamp == OrElse(s.power, NO_POWER_OPERATION).lastPowerOnTimestamp
    ensures Cool(w, Step(w, s, e))
  {
    hide MoveOf, Times, Waited;
    assert s.log + [] == s.log;
  }

  /** A power-off that passed the check has waited. */
  lemma {:induction false} PowerWaited(w: World, s: Sys, f: Fact)
    requires Stamped(s) && f.Acted? && f.loop == PowerLoop && f.acts != [] && f.at >= s.now
    requires f.acts[|f.acts| - 1].PowerOffCall? ==>
               var op := Some(OrElse(s.power, NO_POWER_OPERATION));
               TimeSinceLastPowerOn(s.now, op, s.reboot) >= w.cfg.minRebootInterval
    ensures MustWait(f) ==>
              && After(f.at, Times(s.log, RebootRecorded), w.cfg.minRebootInterval)
              && After(f.at, Times(s.log, PowerOnRecorded), w.cfg.minRebootInterval)
  {
    hide Times, TimeSinceLastPowerOn;
    if MustWait(f) {
      ElapsedIsReal(s.now, Some(OrElse(s.power, NO_POWER_OPERATION)), s.reboot, w.cfg.minRebootInterval);
    }
  }

  lemma {:induction false} OthersAreAside(e: Event)
    requires !e.RunReboot? && !e.RunPower? && !e.DropOutputs?
    ensures forall f: Fact :: ComesFrom(f, e) ==> Aside(f)
  {
  }

  lemma {:induction false} CoolStep(w: World, s: Sys, e: Event)
    requires Cool(w, s)
    ensures Cool(w, Step(w, s, e))
  {
    hide Times, Waited, MoveOf, Aside;
    if e.RunReboot? {
      CoolReboot(w, s, e);
    } else if e.RunPower? {
      CoolPower(w, s, e);
    } else if e.DropOutputs? {
      CoolDrop(w, s);
    } else {
      Frame(w, s, e);
      assert forall f <- MoveOf(w, s, e).facts :: ComesFrom(f, e);
      OthersAreAside(e);
      AppendAside(s.log, MoveOf(w, s, e).facts, w.cfg.minRebootInterval);
    }
  }

  lemma {:induction false} CoolDrop(w: World, s: Sys)
    requires Cool(w, s)
    ensures Cool(w, Step(w, s, DropOutputs))
  {
    hide Times, Waited;
    if MoveOf(w, s, DropOutputs).facts == [] {
      assert s.log + MoveOf(w, s, DropOutputs).facts == s.log;
    } else {
      Append(s.log, OutputsDropped, w.cfg.minRebootInterval);
    }
  }

  lemma {:induction false} CoolInRun(w: World, es: seq<Event>)
    ensures Cool(w, Run(w, INIT, es))
    decreases |es|
  {
    if es != [] {
      CoolInRun(w, es[..|es| - 1]);
      CoolStep(w, Run(w, INIT, es[..|es| - 1]), es[|es| - 1]);
    }
  }

  ghost predicate Spaced(times: seq<int>, interval: int) {
    forall i :: 0 < i < |times| ==> times[i] >= times[i - 1] + interval
  }

  lemma {:induction false} WaitedIsSpaced(log: seq<Fact>, interval: int)
    requires Waited(log, interval)
    ensures Spaced(Times(log, RebootRecorded), interval)
    decreases |log|
  {
    if log != [] {
      var n := |log| - 1;
      assert forall j :: 0 <= j < n ==> log[..n][..j] == log[..j] && log[..n][j] == log[j];
      WaitedIsSpaced(log[..n], interval);
    }
  }

  lemma {:induction false} SpacedWindow(times: seq<int>, interval: int, i: nat, j: nat)
    requires Spaced(times, interval) && i <= j < |times|
    ensures times[j] - times[i] >= (j - i) * interval
    decreases j
  {
    if i < j {
      SpacedWindow(times, interval, i, j - 1);
      assert (j - i) * interval == (j - 1 - i) * interval + interval;
    }
  }

  /** In every run, while the statuses are kept: any call that has to wait has waited; and the recorded
      reboots i..j of a machine take at least (j - i) intervals, which bounds how many fit in a window. */
  lemma {:induction false} RebootsAreSpaced(w: World, es: seq<Event>, i: nat, j: nat)
    requires i <= j < |Times(Run(w, INIT, es).log, RebootRecorded)|
    ensures Waited(Run(w, INIT, es).log, w.cfg.minRebootInterval)
    ensures var times := Times(Run(w, INIT, es).log, RebootRecorded);
            times[j] - times[i] >= (j - i) * w.cfg.minRebootInterval
  {
    CoolInRun(w, es);
    WaitedIsSpaced(Run(w, INIT, es).log, w.cfg.minRebootInterval);
    SpacedWindow(Times(Run(w, INIT, es).log, RebootRecorded), w.cfg.minRebootInterval, i, j);
  }

  /** The requeue delay is positive and outlasts the interval exactly when it does not overflow. */
  lemma {:induction false} RequeueIsLongEnough(now: int, last: int, interval: int)
    requires last <= now && interval < TWO63 && TimeSince(now, last) < interval
    ensures var delay := RequeueDelay(interval, TimeSince(now, last));
            (delay > 0 && TimeSince(now + delay, last) >= interval) <==> interval - (now - last) + SECOND < TWO63
  {
  }

  /** The parting reboot has no history to cool down from: it is always attempted. */
  lemma {:induction false} PartingRebootNeverWaits(cfg: Config, im: InfraMachine, bmc: BMCConfigurationFields,
                                                   ms: MachineStatusFields, calls: RebootCalls, now: nat)
    requires cfg.minRebootInterval < TWO63
    ensures AttemptRebootOnRemoval(cfg, im, Some(bmc), Some(ms), calls, now) ==
            if ms.agentAccessible then [] else RebootOverAnyChannel(bmc, true, false, calls).acts
  {
  }
}
