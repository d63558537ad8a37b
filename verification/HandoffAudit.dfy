/** The audit as it runs: over the session's live handoff objects, blocking pending ones in place. */
module HandoffAudit {
  import opened Wrappers
  import opened Sorting
  import opened Text
  import opened Handoffs
  import opened AgentOutputs
  import opened WorkflowGraphs
  import opened HandoffGovernance

  /** No object is listed twice: every handoff is constructed once and appended once. */
  ghost predicate Distinct(hs: seq<Handoff>) {
    forall i, j :: 0 <= i < j < |hs| ==> hs[i] != hs[j]
  }

  method FindFirst(hs: seq<Handoff>, id: string) returns (i: nat)
    ensures i == FirstWith(Values(hs), id)
  {
    i := 0;
    while i < |hs| && hs[i].contract.id != id
      invariant i <= |hs|
      invariant forall j :: 0 <= j < i ==> hs[j].contract.id != id
    {
      i := i + 1;
    }
    FirstWithIs(Values(hs), id, i);
  }

  lemma {:induction false} FirstWithIs(rs: seq<Record>, id: string, i: nat)
    requires i <= |rs| && forall j :: 0 <= j < i ==> rs[j].contract.id != id
    requires i < |rs| ==> rs[i].contract.id == id
    ensures FirstWith(rs, id) == i
  {
  }

  method BlockAndSeal(h: Hasher, hs: seq<Handoff>, i: nat, reason: string)
    requires Distinct(hs) && i < |hs|
    modifies hs[i]
    ensures Values(hs) == old(Values(hs))[i := Sealed(h, BlockedFor(old(hs[i].Value()), reason))]
  {
    hs[i].Block(reason);
    hs[i].Seal(h);
    assert forall j :: 0 <= j < |hs| && j != i ==> hs[j].Value() == old(hs[j].Value());
  }

  /** `_audit_required_edge` */
  method AuditEdgeInPlace(h: Hasher, c: Context, hs: seq<Handoff>, e: Edge) returns (issues: seq<Issue>)
    requires Distinct(hs)
    modifies hs
    ensures AuditEdge(h, c, old(Values(hs)), e) == Audit(Values(hs), issues)
  {
    var id := Id(c, e);
    var i := FindFirst(hs, id);
    if i == |hs| {
      return [Issue(MissingHandoff, id)];
    }
    issues := [];
    if !Addressed(c, e, hs[i].contract) {
      issues := [Issue(WrongRecipient, id)];
    }
    var r := hs[i].Value();
    if HasWrongConsumer(r, e.node.id, e.node.agent, c.outputs) {
      issues := issues + [Issue(WrongConsumer, id)];
    } else if hs[i].status == CREATED {
      BlockAndSeal(h, hs, i, DROPPED_EDGE);
      issues := issues + [Issue(SilentlyDropped, id)];
    } else if !ReceiptValid(h, r) {
      issues := issues + [Issue(InvalidReceipt, id)];
    }
  }

  /** `_audit_graph_edges` */
  method AuditEdgesInPlace(h: Hasher, c: Context, hs: seq<Handoff>, edges: seq<Edge>) returns (issues: seq<Issue>)
    requires Distinct(hs)
    modifies hs
    ensures AuditEdges(h, c, old(Values(hs)), edges) == Audit(Values(hs), issues)
  {
    ghost var start := Values(hs);
    issues := [];
    for i := 0 to |edges|
      invariant AuditEdges(h, c, start, edges[..i]) == Audit(Values(hs), issues)
    {
      var found := AuditEdgeInPlace(h, c, hs, edges[i]);
      issues := issues + found;
      assert edges[..i + 1][..i] == edges[..i];
    }
    assert edges[..|edges|] == edges;
  }

  /** `_audit_control` */
  method AuditControlInPlace(h: Hasher, c: Context, hs: seq<Handoff>, i: nat, contract: Contract)
    returns (issues: seq<Issue>)
    requires Distinct(hs) && i < |hs|
    modifies hs
    ensures AuditControl(h, c, old(Values(hs)), i, contract) == Audit(Values(hs), issues)
  {
    var id := hs[i].contract.id;
    var r := hs[i].Value();
    if hs[i].contract != contract {
      issues := [Issue(InvalidControl, id)];
    } else if hs[i].status == CREATED {
      BlockAndSeal(h, hs, i, DROPPED_CONTROL);
      issues := [Issue(SilentlyDropped, id)];
    } else if HasWrongConsumer(r, contract.target, contract.toAgent, c.outputs) {
      issues := [Issue(WrongConsumer, id)];
    } else if !ReceiptValid(h, r) {
      issues := [Issue(InvalidReceipt, id)];
    } else {
      issues := [];
    }
  }

  /** `audit_declared_controls` */
  method AuditControlsInPlace(h: Hasher, c: Context, hs: seq<Handoff>, ds: seq<Control>)
    returns (declared: set<string>, issues: seq<Issue>)
    requires Distinct(hs)
    modifies hs
    ensures AuditControls(h, c, old(Values(hs)), ds) == ControlAudit(Values(hs), declared, issues)
  {
    ghost var start := Values(hs);
    declared, issues := {}, [];
    for k := 0 to |ds|
      invariant AuditControls(h, c, start, ds[..k]) == ControlAudit(Values(hs), declared, issues)
    {
      assert ds[..k + 1][..k] == ds[..k];
      ghost var before := ControlAudit(Values(hs), declared, issues);
      declared, issues := AuditDeclarationInPlace(h, c, hs, declared, issues, ds[k]);
      assert AuditControls(h, c, start, ds[..k + 1]) == AuditDeclaration(h, c, before, ds[k]);
    }
    assert ds[..|ds|] == ds;
  }

  method AuditDeclarationInPlace(
    h: Hasher, c: Context, hs: seq<Handoff>, declared: set<string>, issues: seq<Issue>, d: Control)
    returns (declared': set<string>, issues': seq<Issue>)
    requires Distinct(hs)
    modifies hs
    ensures AuditDeclaration(h, c, ControlAudit(old(Values(hs)), declared, issues), d)
            == ControlAudit(Values(hs), declared', issues')
  {
    var id := if d.contract.Some? then d.contract.value.id else "";
    if !ValidDeclaration(d) || id == "" || id in declared {
      return declared, issues + [Issue(InvalidControlDeclaration, id)];
    }
    declared' := declared + {id};
    var i := FindFirst(hs, id);
    if i == |hs| {
      return declared', issues + [Issue(MissingControl, id)];
    }
    var found := AuditControlInPlace(h, c, hs, i, d.contract.value);
    issues' := issues + found;
  }

  /** `_finalize_pending` */
  method FinalizeInPlace(h: Hasher, hs: seq<Handoff>)
    requires Distinct(hs)
    modifies hs
    ensures Values(hs) == FinalizeAll(h, old(Values(hs)))
  {
    ghost var start := Values(hs);
    for i := 0 to |hs|
      invariant forall j :: 0 <= j < i ==> hs[j].Value() == Finalized(h, start[j])
      invariant forall j :: i <= j < |hs| ==> hs[j].Value() == start[j]
    {
      if hs[i].status == CREATED {
        hs[i].Block(DROPPED);
        hs[i].Seal(h);
      }
    }
  }

  /** `reconcile_required_handoffs` */
  method ReconcileRequiredHandoffs(h: Hasher, c: Context, hs: seq<Handoff>) returns (report: Report)
    requires Distinct(hs)
    modifies hs
    ensures report == Reconcile(h, c, old(Values(hs))) && Values(hs) == report.records
  {
    ghost var start := Values(hs);
    var index := IndexIssues(Values(hs), c.session);
    var edges := AuditEdgesInPlace(h, c, hs, Edges(c));
    var declared, controls := AuditControlsInPlace(h, c, hs, c.graph.controls);
    var closing := ClosingIssues(c.session, ExpectedIds(c) + declared, Values(hs));
    FinalizeInPlace(h, hs);
    var issues := index + edges + controls + closing;
    var unresolved := UnresolvedOf(Values(hs));
    report := Report(
      issues == [] && unresolved == [], |ExpectedIds(c)|, |declared|, |ConsumedIds(h, c, Values(hs))|,
      issues, unresolved, Values(hs));
  }
}
