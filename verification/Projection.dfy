/** What the provider reports back to Omni about a machine: its labels, rewritten in place, and its
    status, projected from the provider's own resources. */
module Projection {
  import opened Wire
  import opened Specs
  import opened Machine
  import opened Reconcile
  import opened Decisions

  type Labels = map<Text, Text>

  /** The prefix of the labels Omni owns, and the four labels that follow the machine's cluster. The
      label names are the Omni client's, so any prefix and any four names will do here. */
  datatype Names = Names(systemPrefix: Text, cluster: seq<Text>)

  /** The machine's own metadata and the resources of the provider the report is made from. */
  datatype Inputs = Inputs(
    im: InfraMachine, labels: Labels,
    bmc: Option<BMCConfigurationFields>, ms: Option<MachineStatusFields>, rb: Option<RebootStatus>,
    op: Option<PowerOperation>, wipe: Option<WipeStatusFields>)

  datatype Report = Report(
    labels: Labels, powerState: int32, lastRebootId: Text, lastRebootTimestamp: Option<int>,
    installed: bool, readyToUse: bool, wipedNodeUniqueToken: Text, lastPowerOffId: Text)

  predicate IsSystem(names: Names, k: Text) { names.systemPrefix <= k }

  // ------------------------------------------------------------------------- labels

  /** The value of one label in the end: the cluster's labels follow the machine, the configured ones are
      as configured, Omni's other ones are kept, and everything else goes. */
  function LabelOf(names: Names, configured: Labels, was: Labels, machine: Labels, k: Text): Option<Text> {
    if k in names.cluster then (if k in machine then Some(machine[k]) else None)
    else if k in configured then Some(configured[k])
    else if k in was && IsSystem(names, k) then Some(was[k])
    else None
  }

  ghost predicate LabelsAre(names: Names, configured: Labels, was: Labels, machine: Labels, labels: Labels) {
    forall k :: (k in labels <==> LabelOf(names, configured, was, machine, k).Some?) &&
                (k in labels ==> Some(labels[k]) == LabelOf(names, configured, was, machine, k))
  }

  // ------------------------------------------------------------------------- the transform

  class InfraMachineStatus {
    var labels: Labels
    var powerState: int32
    var lastRebootId: Text
    var lastRebootTimestamp: Option<int>
    var installed: bool
    var readyToUse: bool
    var wipedNodeUniqueToken: Text
    var lastPowerOffId: Text

    constructor ()
      ensures Value() == Report(map[], POWER_STATE_UNKNOWN, [], None, false, false, [], [])
    {
      labels, powerState, lastRebootId, lastRebootTimestamp := map[], POWER_STATE_UNKNOWN, [], None;
      installed, readyToUse, wipedNodeUniqueToken, lastPowerOffId := false, false, [], [];
    }

    function Value(): Report
      reads this
    {
      Report(labels, powerState, lastRebootId, lastRebootTimestamp, installed, readyToUse, wipedNodeUniqueToken,
             lastPowerOffId)
    }

    /** Drops every label that is not Omni's, in whatever order the map yields them. */
    method ClearLabels(names: Names)
      modifies this`labels
      ensures labels == map k | k in old(labels) && IsSystem(names, k) :: old(labels)[k]
    {
      var todo := labels.Keys;
      while todo != {}
        invariant todo <= old(labels).Keys
        invariant labels == map k | k in old(labels) && (k in todo || IsSystem(names, k)) :: old(labels)[k]
        decreases todo
      {
        var k :| k in todo;
        todo := todo - {k};
        if IsSystem(names, k) {
          continue;
        }
        labels := labels - {k};
      }
    }

    method SetConfiguredLabels(configured: Labels)
      modifies this`labels
      ensures labels == old(labels) + configured
    {
      var todo := configured.Keys;
      while todo != {}
        invariant todo <= configured.Keys
        invariant labels == old(labels) + (map k | k in configured && k !in todo :: configured[k])
        decreases todo
      {
        var k :| k in todo;
        todo := todo - {k};
        labels := labels[k := configured[k]];
      }
    }

    method CopyClusterLabels(names: Names, machine: Labels)
      modifies this`labels
      ensures forall k :: k in labels <==> if k in names.cluster then k in machine else k in old(labels)
      ensures forall k <- labels :: labels[k] == if k in names.cluster then machine[k] else old(labels)[k]
    {
      for i := 0 to |names.cluster|
        invariant forall k :: k in labels <==> if k in names.cluster[..i] then k in machine else k in old(labels)
        invariant forall k <- labels :: labels[k] == if k in names.cluster[..i] then machine[k] else old(labels)[k]
      {
        var k := names.cluster[i];
        assert names.cluster[..i + 1] == names.cluster[..i] + [k];
        if k in machine {
          labels := labels[k := machine[k]];
        } else {
          labels := labels - {k};
        }
      }
      assert names.cluster[..|names.cluster|] == names.cluster;
    }

    method RewriteLabels(names: Names, configured: Labels, machine: Labels)
      modifies this`labels
      ensures LabelsAre(names, configured, old(labels), machine, labels)
    {
      ClearLabels(names);
      SetConfiguredLabels(configured);
      CopyClusterLabels(names, machine);
    }

    /** The power and reboot fields, from the resources that exist. */
    method CopyStatuses(ms: Option<MachineStatusFields>, rb: Option<RebootStatus>)
      modifies this`powerState, this`lastRebootId, this`lastRebootTimestamp
      ensures powerState == if ms.Some? && KnownPower(ms.value.powerState) then ms.value.powerState else old(powerState)
      ensures lastRebootId == if rb.Some? then rb.value.lastRebootId else old(lastRebootId)
      ensures lastRebootTimestamp == if rb.Some? then rb.value.lastRebootTimestamp else old(lastRebootTimestamp)
    {
      if ms.Some? {
        if ms.value.powerState == POWER_STATE_UNKNOWN {
          powerState := POWER_STATE_UNKNOWN;
        } else if ms.value.powerState == POWER_STATE_OFF {
          powerState := POWER_STATE_OFF;
        } else if ms.value.powerState == POWER_STATE_ON {
          powerState := POWER_STATE_ON;
        }
      }
      if rb.Some? {
        lastRebootId := rb.value.lastRebootId;
        lastRebootTimestamp := rb.value.lastRebootTimestamp;
      }
    }

    /** What the provider makes of the machine. */
    method ReportDecisions(inputs: Inputs)
      modifies this`installed, this`readyToUse, this`wipedNodeUniqueToken, this`lastPowerOffId
      ensures installed == IsInstalled(Some(inputs.im), inputs.wipe)
      ensures readyToUse == (inputs.bmc.Some? && !RequiresWipe(Some(inputs.im), inputs.wipe))
      ensures wipedNodeUniqueToken == if inputs.wipe.Some? then inputs.wipe.value.wipedNodeUniqueToken
                  else old(wipedNodeUniqueToken)
      ensures lastPowerOffId == if IsPowerOffActive(Some(inputs.im), inputs.op) then inputs.op.value.lastPowerOffId
                  else []
    {
      installed := IsInstalled(Some(inputs.im), inputs.wipe);
      readyToUse := inputs.bmc.Some? && !RequiresWipe(Some(inputs.im), inputs.wipe);
      if inputs.wipe.Some? {
        wipedNodeUniqueToken := inputs.wipe.value.wipedNodeUniqueToken;
      }
      if IsPowerOffActive(Some(inputs.im), inputs.op) {
        lastPowerOffId := inputs.op.value.lastPowerOffId;
      } else {
        lastPowerOffId := [];
      }
    }

    method Transform(names: Names, configured: Labels, inputs: Inputs) returns (verdict: Verdict)
      modifies this
      ensures verdict == if Admitted(inputs.im) then Saved else Skipped
      ensures verdict == Skipped ==> Value() == old(Value())
      ensures verdict == Saved ==> Projects(names, configured, inputs, old(Value()), Value())
    {
      hide LabelsAre, IsInstalled, RequiresWipe, KnownPower;
      if !Admitted(inputs.im) {
        return Skipped;
      }
      RewriteLabels(names, configured, inputs.labels);
      CopyStatuses(inputs.ms, inputs.rb);
      ReportDecisions(inputs);
      return Saved;
    }
  }

  /** What a report owes to the inputs, and what it keeps from the report before. */
  ghost predicate Projects(names: Names, configured: Labels, inputs: Inputs, was: Report, now: Report) {
    && LabelsAre(names, configured, was.labels, inputs.labels, now.labels)
    && now.powerState == (if inputs.ms.Some? && KnownPower(inputs.ms.value.powerState) then inputs.ms.value.powerState
                          else was.powerState)
    && (if inputs.rb.Some? then now.lastRebootId == inputs.rb.value.lastRebootId &&
        now.lastRebootTimestamp == inputs.rb.value.lastRebootTimestamp
        else now.lastRebootId == was.lastRebootId && now.lastRebootTimestamp == was.lastRebootTimestamp)
    && (now.installed <==> IsInstalled(Some(inputs.im), inputs.wipe))
    && (now.readyToUse <==> inputs.bmc.Some? && !RequiresWipe(Some(inputs.im), inputs.wipe))
    && now.wipedNodeUniqueToken == (if inputs.wipe.Some? then inputs.wipe.value.wipedNodeUniqueToken
                                    else was.wipedNodeUniqueToken)
    && (if IsPowerOffActive(Some(inputs.im), inputs.op) then now.lastPowerOffId == inputs.op.value.lastPowerOffId
        else now.lastPowerOffId == [])
  }

  /** Reporting twice is reporting once: the second report is the first, whatever was there before. */
  lemma {:induction false} ProjectionIsIdempotent(names: Names, configured: Labels, inputs: Inputs, was: Report,
                                                  once: Report, twice: Report)
    requires Projects(names, configured, inputs, was, once)
    ensures Projects(names, configured, inputs, once, twice) <==> twice == once
  {
    if Projects(names, configured, inputs, once, twice) {
      forall k
        ensures k in once.labels <==> k in twice.labels
        ensures k in once.labels ==> once.labels[k] == twice.labels[k]
      {
        assert LabelOf(names, configured, once.labels, inputs.labels, k) ==
          LabelOf(names, configured, was.labels, inputs.labels, k);
      }
      assert once.labels == twice.labels;
    }
    assert LabelsAre(names, configured, once.labels, inputs.labels, once.labels);
  }

  /** The report does not depend on which Omni labels of the cluster, or which other labels that are not
      Omni's, were there before. */
  lemma {:induction false} OldLabelsThatMatter(names: Names, configured: Labels, inputs: Inputs, a: Report, b: Report,
                                               now: Report)
    requires Projects(names, configured, inputs, a, now) && b == a.(labels := b.labels)
    requires forall k :: IsSystem(names, k) && k !in names.cluster && k !in configured ==>
               (k in a.labels <==> k in b.labels) && (k in a.labels ==> a.labels[k] == b.labels[k])
    ensures Projects(names, configured, inputs, b, now)
  {
    forall k
      ensures LabelOf(names, configured, b.labels, inputs.labels, k) ==
              LabelOf(names, configured, a.labels, inputs.labels, k)
    {
    }
  }

  /** The labels as a whole: Omni's own of the old ones, overridden by the configured ones, and the cluster's replaced
      by the machine's. */
  function LabelsTogether(names: Names, configured: Labels, was: Labels, machine: Labels): Labels {
    var system := map k | k in was && IsSystem(names, k) :: was[k];
    var cluster := set k <- names.cluster;
    (system + configured) - cluster + (map k | k in machine && k in cluster :: machine[k])
  }

  lemma {:induction false} LabelTogether(names: Names, configured: Labels, was: Labels, machine: Labels, k: Text)
    ensures var all := LabelsTogether(names, configured, was, machine);
            LabelOf(names, configured, was, machine, k) == if k in all then Some(all[k]) else None
  {
    hide IsSystem;
  }

  lemma {:induction false} LabelsExactly(names: Names, configured: Labels, was: Labels, machine: Labels, labels: Labels)
    ensures LabelsAre(names, configured, was, machine, labels) <==>
            labels == LabelsTogether(names, configured, was, machine)
  {
    hide LabelOf, LabelsTogether;
    var all := LabelsTogether(names, configured, was, machine);
    forall k
      ensures LabelOf(names, configured, was, machine, k) == if k in all then Some(all[k]) else None
    {
      LabelTogether(names, configured, was, machine, k);
    }
  }

  /** What Omni is told means. A power-off request is named exactly while it is the one Omni makes and was acknowledged
      under the wipe id of now; a machine is installed when an install is reported that the last wipe does not know of,
      ready when it is configured and wiped, and so, being accepted, allocated and present, not held in the agent. */
  lemma {:induction false} ReportMeans(names: Names, configured: Labels, inputs: Inputs, was: Report, now: Report,
                                       alwaysNetboot: bool)
    requires Projects(names, configured, inputs, was, now)
    ensures now.lastPowerOffId != [] <==>
            && inputs.op.Some? && inputs.im.powerOffRequestId != []
            && inputs.op.value.lastPowerOffId == inputs.im.powerOffRequestId
            && inputs.op.value.wipeIdAtPowerOff == inputs.im.wipeId
    ensures inputs.ms.Some? && inputs.ms.value.powerState in {0, 1, 2} ==> now.powerState == inputs.ms.value.powerState
    ensures inputs.rb.Some? ==> RebootStatus(now.lastRebootId, now.lastRebootTimestamp) == inputs.rb.value
    ensures inputs.wipe.Some? ==> now.wipedNodeUniqueToken == inputs.wipe.value.wipedNodeUniqueToken
    ensures now.installed <==> InstalledSince(inputs.im, inputs.wipe)
    ensures now.readyToUse <==> inputs.bmc.Some? && Wiped(inputs.im, inputs.wipe)
    ensures now.lastPowerOffId != [] ==> now.lastPowerOffId == inputs.im.powerOffRequestId
    ensures inputs.im.acceptance == Accepted && inputs.im.phase == Running && Allocated(inputs.im) ==>
              (now.readyToUse <==>
                 RequiredBootMode(Some(inputs.im), inputs.bmc, inputs.wipe, alwaysNetboot) != AgentPXE)
  {
  }
}
