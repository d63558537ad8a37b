/** The parts of a schema-validated agent output that the runtime reads. */
module AgentOutputs {
  import opened Wrappers
  import opened Handoffs

  datatype Severity = Low | Medium | High | Critical

  /** `action_polarity`: missing, not an object of exactly two strings, or declared. */
  datatype ActionPolarity = Undeclared | Malformed | Declared(target: string, polarity: string)

  datatype EvidenceItem = EvidenceItem(id: Option<string>, source: Option<string>, state: string)

  /** `None` for an id that is missing or not a string. */
  datatype Finding = Finding(
    id: Option<string>, severity: Severity, statement: string, scope: string, evidenceRefs: seq<string>,
    polarity: ActionPolarity)

  /** `specialist_decision` */
  datatype SpecialistDecision = SpecialistDecision(state: string, mapped: string, evidenceRefs: seq<string>, humanActionRequired: bool)

  /** `outputId` is empty only when the model answered so: a missing one is filled in, and the schema sets no least
      length. */
  datatype Output = Output(
    outputId: string, agent: string, executionState: string, summary: string,
    evidence: seq<EvidenceItem>, findings: seq<Finding>, decision: Option<SpecialistDecision>, acks: seq<Ack>)
}
