/** The rules beyond the schema that an agent output must meet (runtime/specialist_decision.py,
    runtime/evidence_binding.py), for outputs of the current contract without material claims. */
module OutputRules {
  import opened Wrappers
  import opened Sorting
  import opened Sequences
  import opened Text
  import opened AgentOutputs

  const SPECIALIST_AGENTS := {
    "Competitive Intelligence Agent", "International & Multilingual SEO Agent", "Local SEO Agent",
    "Negative SEO & Security Agent", "Predictive SEO Trend Agent", "SEO Accessibility Agent",
    "SEO Compliance & Legal Agent", "Visual & Video Search Agent"}

  /** `DECISION_TO_EXECUTION` */
  function MappedState(state: string): Option<string> {
    if state == "READY" then Some("COMPLETE")
    else if state == "PARTIAL" || state == "ABSTAIN" then Some("PARTIAL")
    else if state == "BLOCKED" || state == "ESCALATE" then Some("BLOCKED")
    else None
  }

  predicate EvidenceHasId(o: Output, id: string) {
    exists e :: e in o.evidence && e.id == Some(id)
  }

  /** No `_mapping_errors`. */
  predicate MappingHolds(o: Output, d: SpecialistDecision) {
    && MappedState(d.state).Some? && d.mapped == MappedState(d.state).value
    && (o.executionState == d.mapped || (o.executionState == "SYNTHETIC" && d.state == "PARTIAL"))
    && (d.humanActionRequired <==> d.state == "ESCALATE")
  }

  /** No `specialist_output_errors`: a specialist decides, consistently, on evidence of this output. */
  predicate SpecialistPasses(o: Output) {
    o.agent in SPECIALIST_AGENTS ==>
      && o.decision.Some? && MappingHolds(o, o.decision.value)
      && (forall ref :: ref in o.decision.value.evidenceRefs ==> EvidenceHasId(o, ref))
      && (o.decision.value.state != "BLOCKED" ==> o.decision.value.evidenceRefs != [])
  }

  function Label(value: Option<string>): string {
    if value.Some? then Strip(value.value) else ""
  }

  /** No `_evidence_inventory` error: ids and sources are given, each once, in a known state. */
  ghost predicate EvidencePasses(evidence: seq<EvidenceItem>) {
    && (forall i :: 0 <= i < |evidence| ==>
                      Label(evidence[i].id) != "" && Label(evidence[i].source) != ""
                      && evidence[i].state in {"CURRENT", "STALE", "MISSING", "INVALID", "CONTRADICTORY"})
    && (forall i, j :: 0 <= i < j < |evidence| ==>
                         Label(evidence[i].id) != Label(evidence[j].id)
                         && Label(evidence[i].source) != Label(evidence[j].source))
  }

  /** No `_finding_errors`: ids are given, each once; references are given, each once, to evidence of this output; and
      no finding has the id of an evidence item. */
  ghost predicate FindingsPass(o: Output) {
    && (forall i :: 0 <= i < |o.findings| ==>
                      && Label(o.findings[i].id) != "" && o.findings[i].evidenceRefs != []
                      && NoDuplicates(o.findings[i].evidenceRefs)
                      && (forall ref :: ref in o.findings[i].evidenceRefs ==> Inventoried(o, ref)))
    && (forall i, j :: 0 <= i < j < |o.findings| ==> Label(o.findings[i].id) != Label(o.findings[j].id))
    && (forall i :: 0 <= i < |o.findings| ==> !Inventoried(o, Label(o.findings[i].id)))
  }

  predicate Inventoried(o: Output, id: string) {
    exists e :: e in o.evidence && Label(e.id) == id
  }

  /** Neither a number nor a URL: nothing that a material claim would have to bind. */
  predicate ClaimsNothing(text: string) {
    forall i :: 0 <= i < |text| ==> !IsDigit(text[i]) && text[i] != ':'
  }

  /** No error of `_errors` for the agent; outputs that are neither COMPLETE nor PARTIAL need not bind numbers. */
  ghost predicate Passes(o: Output, agent: string, synthetic: bool) {
    && o.agent == agent && (synthetic || o.executionState != "SYNTHETIC")
    && SpecialistPasses(o) && EvidencePasses(o.evidence) && FindingsPass(o)
    && (o.executionState == "COMPLETE" || o.executionState == "PARTIAL" ==>
          ClaimsNothing(o.summary)
          && forall i :: 0 <= i < |o.findings| ==>
                           ClaimsNothing(o.findings[i].statement) && ClaimsNothing(o.findings[i].scope))
  }

  // ----- Outputs on one piece of evidence -----

  lemma OneItemPasses(evidence: seq<EvidenceItem>, item: EvidenceItem)
    requires evidence == [item] && Label(item.id) != "" && Label(item.source) != "" && item.state == "CURRENT"
    ensures EvidencePasses(evidence)
  {
  }

  lemma OneFindingPasses(o: Output, item: EvidenceItem, f: Finding)
    requires o.evidence == [item] && o.findings == [f] && f.evidenceRefs == [Label(item.id)]
    requires Label(f.id) != "" && Label(f.id) != Label(item.id)
    ensures FindingsPass(o)
  {
    assert o.evidence[0] == item;
    assert Inventoried(o, Label(item.id));
  }

  lemma DecisionPasses(o: Output, item: EvidenceItem, state: string, mapped: string)
    requires o.evidence == [item] && item.id.Some? && MappedState(state) == Some(mapped) && state != "ESCALATE"
    requires o.executionState == mapped || (o.executionState == "SYNTHETIC" && state == "PARTIAL")
    requires o.agent in SPECIALIST_AGENTS ==>
               o.decision == Some(SpecialistDecision(state, mapped, [item.id.value], false))
    ensures SpecialistPasses(o)
  {
    assert o.evidence[0] == item;
    assert EvidenceHasId(o, item.id.value);
  }
}
