/** The findings of a whole run do not depend on which agent finished first. */
module RunFindings {
  import opened Sorting
  import opened Sequences
  import opened AgentOutputs
  import opened FindingKeys
  import opened FindingRegistries
  import opened FindingRules
  import opened FindingConflicts
  import HandoffGovernance
  import Engine = WorkflowEngine
  import WorkflowInvariants

  /** What one entry of the outputs dictionary contributes to the completed outputs. */
  function CompletedOf(outputs: map<string, Output>, states: map<string, string>): string -> seq<Output> {
    (id: string) => if HandoffGovernance.Successful(states, id) && id in outputs then [outputs[id]] else []
  }

  /** The outputs of completed nodes, in the order in which the nodes completed. */
  function CompletedOutputs(s: Engine.State): seq<Output> {
    Flatten(s.order, CompletedOf(s.outputs, s.states))
  }

  /** Two interleavings that end with the same answers end with the same findings. */
  lemma FindingsIgnoreTiming(
    c: Engine.Config, first: seq<Engine.Action>, second: seq<Engine.Action>, k: Key)
    requires Engine.Prepared(c)
    requires Engine.Run(c, first).Some? && Engine.Run(c, second).Some?
    requires Engine.Run(c, first).value.outputs == Engine.Run(c, second).value.outputs
    requires Engine.Run(c, first).value.states == Engine.Run(c, second).value.states
    ensures
      var a := ReconcileFindings(CompletedOutputs(Engine.Run(c, first).value));
      var b := ReconcileFindings(CompletedOutputs(Engine.Run(c, second).value));
      (k in a <==> k in b) && (k in a ==> SameFinding(a[k], b[k]))
  {
    var s, t := Engine.Run(c, first).value, Engine.Run(c, second).value;
    WorkflowInvariants.InvariantAlways(c, first);
    WorkflowInvariants.InvariantAlways(c, second);
    SameMembersSameCounts(s.order, t.order);
    FlattenPermute(s.order, t.order, CompletedOf(s.outputs, s.states));
    OrderIndependence(CompletedOutputs(s), CompletedOutputs(t), k);
  }

  /** And with the same conflicts. */
  lemma ConflictsIgnoreTiming(c: Engine.Config, first: seq<Engine.Action>, second: seq<Engine.Action>)
    requires Engine.Prepared(c)
    requires Engine.Run(c, first).Some? && Engine.Run(c, second).Some?
    requires Engine.Run(c, first).value.outputs == Engine.Run(c, second).value.outputs
    requires Engine.Run(c, first).value.states == Engine.Run(c, second).value.states
    ensures
      var a := ScanOf(CompletedOutputs(Engine.Run(c, first).value)).conflicts;
      var b := ScanOf(CompletedOutputs(Engine.Run(c, second).value)).conflicts;
      multiset(Views(a)) == multiset(Views(b)) && |a| == |b|
  {
    var s, t := Engine.Run(c, first).value, Engine.Run(c, second).value;
    WorkflowInvariants.InvariantAlways(c, first);
    WorkflowInvariants.InvariantAlways(c, second);
    SameMembersSameCounts(s.order, t.order);
    FlattenPermute(s.order, t.order, CompletedOf(s.outputs, s.states));
    ConflictsOrderIndependent(CompletedOutputs(s), CompletedOutputs(t));
    ViewsCount(ScanOf(CompletedOutputs(s)).conflicts);
    ViewsCount(ScanOf(CompletedOutputs(t)).conflicts);
  }
}
