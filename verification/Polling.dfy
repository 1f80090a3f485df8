/** How the machine status controller watches machines: one machine polled, all of them polled and
    counted, and the two events that arrive in between. */
module Polling {
  import opened Wire
  import opened Specs
  import opened SpecsCodec
  import opened Machine
  import opened Reconcile

  /** A machine status as listed: its id and phase, and the spec that polling updates in place. */
  datatype Listed = Listed(id: Text, phase: Phase, spec: MachineStatusSpec)

  /** A poll's answers for each machine, and whether the result can be written back. */
  datatype Answers = Answers(polls: Text -> PollCalls, writes: Text -> bool)

  /** A machine status with a poll's findings written into it. */
  function WithPoll(ms: MachineStatusFields, r: PollResult): MachineStatusFields {
    ms.(powerState := r.powerState, agentAccessible := r.agentAccessible)
  }

  method PollOne(m: Listed, bmc: Option<BMCConfigurationFields>, calls: PollCalls, writes: bool) returns (ok: bool)
    modifies m.spec
    ensures ok == writes
    ensures m.spec.Value() ==
            if ok && m.phase == Running
            then Msg(WithPoll(old(m.spec.Value().f), PollSingle(bmc, calls)), old(m.spec.unknownFields))
            else old(m.spec.Value())
  {
    var agentAccessible, powerState := false, POWER_STATE_UNKNOWN;
    var manuallyPowered := IsManuallyPowered(bmc);
    if bmc.Some? && !manuallyPowered {
      powerState := GetPowerState(bmc.value, calls);
    }
    if powerState != POWER_STATE_OFF {
      agentAccessible := calls.agent;
    }
    if manuallyPowered && agentAccessible {
      powerState := POWER_STATE_ON;
    }
    if !writes {
      return false;
    }
    if m.phase == Running {
      m.spec.powerState, m.spec.agentAccessible := powerState, agentAccessible;
    }
    return true;
  }

  /** What a poll can and cannot tell. A machine said to be off is not said to be accessible; a manually
      powered one is on exactly when its agent answers and never said to be off; any other is said to be on
      or off exactly as its client answers. */
  lemma {:induction false} PollTells(bmc: Option<BMCConfigurationFields>, calls: PollCalls)
    ensures var r := PollSingle(bmc, calls);
      && KnownPower(r.powerState)
      && (r.agentAccessible <==> calls.agent && r.powerState != POWER_STATE_OFF)
      && (IsManuallyPowered(bmc) ==>
            && r.acts == [] && r.powerState != POWER_STATE_OFF
            && (r.powerState == POWER_STATE_ON <==> calls.agent))
      && (bmc.None? ==> r.powerState == POWER_STATE_UNKNOWN && r.acts == [])
      && (bmc.Some? && !IsManuallyPowered(bmc) ==>
            && (r.acts != [] <==> GetClient(bmc.value, calls.env).Some?)
            && (r.powerState == POWER_STATE_ON <==> r.acts != [] && calls.isPoweredOn == Some(true))
            && (r.powerState == POWER_STATE_OFF <==> r.acts != [] && calls.isPoweredOn == Some(false)))
  {
  }

  /** On, off, or unknown when nobody can tell. */
  method GetPowerState(bmc: BMCConfigurationFields, calls: PollCalls) returns (state: int32)
    ensures state == POWER_STATE_ON <==> GetClient(bmc, calls.env).Some? && calls.isPoweredOn == Some(true)
    ensures state == POWER_STATE_OFF <==> GetClient(bmc, calls.env).Some? && calls.isPoweredOn == Some(false)
    ensures state == POWER_STATE_UNKNOWN <==> GetClient(bmc, calls.env).None? || calls.isPoweredOn.None?
  {
    if GetClient(bmc, calls.env).None? || calls.isPoweredOn.None? {
      return POWER_STATE_UNKNOWN;
    }
    return if calls.isPoweredOn.value then POWER_STATE_ON else POWER_STATE_OFF;
  }

  // ------------------------------------------------------------------------- all machines

  datatype Counters = Counters(connected: nat, disconnected: nat, on: nat, off: nat, unknown: nat)

  /** What polling finds about a listed machine, if its status is written at all. */
  function Finding(m: Listed, bmcs: map<Text, BMCConfigurationFields>, answers: Answers): Option<PollResult> {
    if m.phase == TearingDown || !answers.writes(m.id) then None
    else Some(PollSingle(if m.id in bmcs then Some(bmcs[m.id]) else None, answers.polls(m.id)))
  }

  function Findings(list: seq<Listed>, bmcs: map<Text, BMCConfigurationFields>,
                    answers: Answers): (found: seq<Option<PollResult>>)
    ensures |found| == |list|
    ensures forall i :: 0 <= i < |list| ==> found[i] == Finding(list[i], bmcs, answers)
  {
    seq(|list|, i requires 0 <= i < |list| => Finding(list[i], bmcs, answers))
  }

  function Number(found: seq<Option<PollResult>>, p: PollResult -> bool): nat {
    if found == [] then 0
    else
      var last := found[|found| - 1];
      Number(found[..|found| - 1], p) + (if last.Some? && p(last.value) then 1 else 0)
  }

  predicate Accessible(r: PollResult) { r.agentAccessible }
  predicate Inaccessible(r: PollResult) { !r.agentAccessible }
  predicate FoundOn(r: PollResult) { r.powerState == POWER_STATE_ON }
  predicate FoundOff(r: PollResult) { r.powerState == POWER_STATE_OFF }
  predicate FoundUnknown(r: PollResult) { r.powerState == POWER_STATE_UNKNOWN }
  predicate Any(r: PollResult) { true }

  function Counted(found: seq<Option<PollResult>>): Counters {
    Counters(Number(found, Accessible), Number(found, Inaccessible), Number(found, FoundOn), Number(found, FoundOff),
             Number(found, FoundUnknown))
  }

  /** One more machine counted. */
  function Bump(c: Counters, finding: Option<PollResult>): Counters {
    if finding.None? then c
    else
      var r := finding.value;
      Counters(
        c.connected + (if r.agentAccessible then 1 else 0), c.disconnected + (if r.agentAccessible then 0 else 1),
        c.on + (if FoundOn(r) then 1 else 0), c.off + (if FoundOff(r) then 1 else 0),
        c.unknown + (if FoundUnknown(r) then 1 else 0))
  }

  lemma {:induction false} NothingCounted()
    ensures Counted([]) == Counters(0, 0, 0, 0, 0)
  {
  }

  lemma {:induction false} CountedNext(found: seq<Option<PollResult>>, i: nat)
    requires i < |found|
    ensures Counted(found[..i + 1]) == Bump(Counted(found[..i]), found[i])
  {
    assert found[..i + 1][..i] == found[..i];
  }

  ghost predicate Distinct(list: seq<Listed>) {
    forall i, j :: 0 <= i < j < |list| ==> list[i].spec != list[j].spec
  }

  /** Polls every machine that is not going away. Each status is updated from its own poll, whichever
      others fail, and the counters count what was found. */
  method PollAll(list: seq<Listed>, bmcs: map<Text, BMCConfigurationFields>, answers: Answers)
    returns (counters: Counters)
    requires Distinct(list)
    modifies set m <- list :: m.spec
    ensures forall i :: 0 <= i < |list| ==>
              list[i].spec.Value() ==
                var finding := Finding(list[i], bmcs, answers);
                if finding.None? then old(list[i].spec.Value())
                else Msg(WithPoll(old(list[i].spec.Value()).f, finding.value), old(list[i].spec.Value()).unknown)
    ensures counters == Counted(Findings(list, bmcs, answers))
  {
    hide PollSingle, Counted;
    ghost var found := Findings(list, bmcs, answers);
    assert found[..0] == [] && found[..|list|] == found;
    NothingCounted();
    var connected, disconnected, on, off, unknown := 0, 0, 0, 0, 0;
    for i := 0 to |list|
      invariant forall j :: i <= j < |list| ==> list[j].spec.Value() == old(list[j].spec.Value())
      invariant forall j :: 0 <= j < i ==>
                  list[j].spec.Value() ==
                    if found[j].None? then old(list[j].spec.Value())
                    else Msg(WithPoll(old(list[j].spec.Value()).f, found[j].value), old(list[j].spec.Value()).unknown)
      invariant Counters(connected, disconnected, on, off, unknown) == Counted(found[..i])
    {
      var m := list[i];
      CountedNext(found, i);
      if m.phase == TearingDown {
        continue;
      }
      var bmc := if m.id in bmcs then Some(bmcs[m.id]) else None;
      var polled := PollOne(m, bmc, answers.polls(m.id), answers.writes(m.id));
      if !polled {
        continue;
      }
      if m.spec.powerState == POWER_STATE_ON {
        on := on + 1;
      } else if m.spec.powerState == POWER_STATE_OFF {
        off := off + 1;
      } else if m.spec.powerState == POWER_STATE_UNKNOWN {
        unknown := unknown + 1;
      }
      if m.spec.agentAccessible {
        connected := connected + 1;
      } else {
        disconnected := disconnected + 1;
      }
    }
    counters := Counters(connected, disconnected, on, off, unknown);
  }

  /** The counters add up: every polled machine is counted once on each scale, and one that is off is
      never counted as connected. */
  lemma {:induction false} CountersAddUp(list: seq<Listed>, bmcs: map<Text, BMCConfigurationFields>, answers: Answers)
    ensures var found := Findings(list, bmcs, answers);
            var c := Counted(found);
      && c.on + c.off + c.unknown == Number(found, Any) == c.connected + c.disconnected
      && c.connected <= c.on + c.unknown
    decreases |list|
  {
    if list != [] {
      var n := |list| - 1;
      CountersAddUp(list[..n], bmcs, answers);
      var found := Findings(list, bmcs, answers);
      assert found[..n] == Findings(list[..n], bmcs, answers);
    }
  }

  // ------------------------------------------------------------------------- events

  method HandleAgentConnectionEvent(m: Listed, connected: bool)
    modifies m.spec
    ensures m.spec.Value() ==
            if m.phase == TearingDown then old(m.spec.Value())
            else Msg(old(m.spec.Value().f).(agentAccessible := connected), old(m.spec.unknownFields))
  {
    if m.phase == TearingDown {
      return;
    }
    m.spec.agentAccessible := connected;
  }

  /** The first boot request of a machine marks it discovered and polls it at once; later ones do not, and a
      mark that cannot be written ends it. Whether the poll's findings can be written is only logged. */
  method HandlePXEBootEvent(m: Listed, bmc: Option<BMCConfigurationFields>, calls: PollCalls, marks: bool, writes: bool)
    returns (ok: bool)
    modifies m.spec
    ensures ok == marks
    ensures m.spec.Value() ==
            if !marks || m.phase == TearingDown || old(m.spec.initialized) then old(m.spec.Value())
            else
              var discovered := old(m.spec.Value().f).(initialized := true);
              Msg(if writes then WithPoll(discovered, PollSingle(bmc, calls)) else discovered,
                  old(m.spec.unknownFields))
  {
    hide PollSingle;
    if !marks {
      return false;
    }
    if m.phase == TearingDown {
      return true;
    }
    var initial := !m.spec.initialized;
    m.spec.initialized := true;
    if !initial {
      return true;
    }
    var _ := PollOne(m, bmc, calls, writes);
    return true;
  }
}
