/** The end-of-run audit of handoffs (runtime/handoff_governance.py, runtime/handoff_control_governance.py). */
module HandoffGovernance {
  import opened Wrappers
  import opened Sorting
  import opened Text
  import opened Handoffs
  import opened AgentOutputs
  import opened WorkflowGraphs

  datatype IssueCode =
    | DuplicateHandoff
    | StaleHandoff
    | MissingHandoff
    | WrongRecipient
    | WrongConsumer
    | SilentlyDropped
    | InvalidReceipt
    | InvalidControlDeclaration
    | MissingControl
    | InvalidControl
    | EvidenceFreeAcceptance
    | UnexpectedHandoff

  datatype Issue = Issue(code: IssueCode, handoff: string)

  datatype Unresolved = Unresolved(handoff: string, status: string, reason: string)

  datatype Report = Report(
    pass: bool, expected: nat, declared: nat, consumed: nat,
    issues: seq<Issue>, unresolved: seq<Unresolved>, records: seq<Record>)

  /** What a run hands to the audit besides the handoffs. */
  datatype Context = Context(
    session: string, graph: Graph, states: map<string, string>, outputs: map<string, Output>)

  const DROPPED_EDGE := "No exact acknowledgement resolved this required handoff."
  const DROPPED_CONTROL := "No exact acknowledgement resolved this declared control handoff."
  const DROPPED := "No addressed output consumed this handoff before workflow completion."
  const OPEN_RISK := "OPEN_RISK_ESCALATION"

  predicate Successful(states: map<string, string>, id: string) {
    id in states && states[id] in {"COMPLETE", "SYNTHETIC"}
  }

  // ----- Required edges -----

  datatype Edge = Edge(node: Node, dependency: string, index: nat)

  function EdgeId(session: string, node: string, index: nat): string {
    session + "-" + node + "-handoff-" + Padded(index)
  }

  function Id(c: Context, e: Edge): string {
    EdgeId(c.session, e.node.id, e.index)
  }

  /** The edges into `n` among its first `k` dependencies whose dependency succeeded. */
  function NodeEdges(n: Node, states: map<string, string>, k: nat): (r: seq<Edge>)
    requires k <= |n.dependsOn|
    ensures forall e :: e in r <==>
              e.node == n && 1 <= e.index <= k && e.dependency == n.dependsOn[e.index - 1]
              && Successful(states, e.dependency)
  {
    if k == 0 then []
    else
      NodeEdges(n, states, k - 1)
      + if Successful(states, n.dependsOn[k - 1]) then [Edge(n, n.dependsOn[k - 1], k)] else []
  }

  /** `_required_edges`: an edge is required when both its ends succeeded. */
  function RequiredEdges(nodes: seq<Node>, states: map<string, string>): (r: seq<Edge>)
    ensures forall e :: e in r <==>
              e.node in nodes && Successful(states, e.node.id) && 1 <= e.index <= |e.node.dependsOn|
              && e.dependency == e.node.dependsOn[e.index - 1] && Successful(states, e.dependency)
  {
    if nodes == [] then []
    else
      (if Successful(states, nodes[0].id) then NodeEdges(nodes[0], states, |nodes[0].dependsOn|) else [])
      + RequiredEdges(nodes[1..], states)
  }

  function Edges(c: Context): seq<Edge> {
    RequiredEdges(c.graph.nodes, c.states)
  }

  function ExpectedIds(c: Context): set<string> {
    set e | e in Edges(c) :: Id(c, e)
  }

  // ----- Looking records up -----

  /** The position of the first record with this id, or the number of records. */
  function FirstWith(rs: seq<Record>, id: string): (i: nat)
    ensures i <= |rs|
    ensures i < |rs| ==> rs[i].contract.id == id
    ensures forall j :: 0 <= j < i ==> rs[j].contract.id != id
  {
    if rs == [] then 0 else if rs[0].contract.id == id then 0 else 1 + FirstWith(rs[1..], id)
  }

  function IdsOf(rs: seq<Record>): (ids: seq<string>)
    ensures |ids| == |rs| && forall i :: 0 <= i < |rs| ==> ids[i] == rs[i].contract.id
  {
    seq(|rs|, i requires 0 <= i < |rs| => rs[i].contract.id)
  }

  predicate Prefixed(session: string, id: string) {
    session + "-" <= id
  }

  // ----- Index audit -----

  function IssuesForId(ids: seq<string>, session: string, id: string): seq<Issue> {
    (if multiset(ids)[id] > 1 then [Issue(DuplicateHandoff, id)] else [])
    + (if !Prefixed(session, id) then [Issue(StaleHandoff, id)] else [])
  }

  function IssuesForIds(ids: seq<string>, session: string, keys: seq<string>): (r: seq<Issue>)
    ensures r == [] <==> forall k :: k in keys ==> IssuesForId(ids, session, k) == []
  {
    if keys == [] then [] else IssuesForId(ids, session, keys[0]) + IssuesForIds(ids, session, keys[1..])
  }

  /** The keys of the index, each once. */
  function DistinctIds(ids: seq<string>): (r: seq<string>)
    ensures forall x :: x in r <==> x in ids
  {
    if ids == [] then []
    else
      var rest := DistinctIds(ids[..|ids| - 1]);
      assert ids == ids[..|ids| - 1] + [ids[|ids| - 1]];
      if ids[|ids| - 1] in rest then rest else rest + [ids[|ids| - 1]]
  }

  /** `_index_handoffs` */
  function IndexIssues(rs: seq<Record>, session: string): seq<Issue> {
    IssuesForIds(IdsOf(rs), session, SortStrings(DistinctIds(IdsOf(rs))))
  }

  // ----- Edge audit -----

  datatype Audit = Audit(records: seq<Record>, issues: seq<Issue>)

  /** `_terminal_has_wrong_consumer` and `_wrong_consumer` */
  predicate HasWrongConsumer(r: Record, node: string, agent: string, outputs: map<string, Output>) {
    && (r.status == CONSUMED || (r.status == BLOCKED && r.receivingOutput != ""))
    && (|| r.receivingOutput != (if node in outputs then outputs[node].outputId else "")
        || r.receivingNode != node
        || node !in outputs
        || outputs[node].agent != agent)
  }

  /** The agent expected to have sent an edge's handoff. */
  function Sender(c: Context, dependency: string): string {
    if dependency in c.outputs then c.outputs[dependency].agent
    else if dependency in WorkflowGraphs.Ids(c.graph.nodes) then Find(c.graph.nodes, dependency).agent
    else ""
  }

  predicate Addressed(c: Context, e: Edge, contract: Contract) {
    && contract.toAgent == e.node.agent
    && contract.fromAgent == Sender(c, e.dependency)
    && contract.source == e.dependency
    && contract.target == e.node.id
  }

  /** `_audit_required_edge` */
  function AuditEdge(h: Hasher, c: Context, rs: seq<Record>, e: Edge): (a: Audit)
    ensures |a.records| == |rs|
  {
    var id := Id(c, e);
    var i := FirstWith(rs, id);
    if i == |rs| then Audit(rs, [Issue(MissingHandoff, id)])
    else
      var recipient := if Addressed(c, e, rs[i].contract) then [] else [Issue(WrongRecipient, id)];
      if HasWrongConsumer(rs[i], e.node.id, e.node.agent, c.outputs) then
        Audit(rs, recipient + [Issue(WrongConsumer, id)])
      else if rs[i].status == CREATED then
        Audit(rs[i := Sealed(h, BlockedFor(rs[i], DROPPED_EDGE))], recipient + [Issue(SilentlyDropped, id)])
      else if !ReceiptValid(h, rs[i]) then Audit(rs, recipient + [Issue(InvalidReceipt, id)])
      else Audit(rs, recipient)
  }

  function AuditEdges(h: Hasher, c: Context, rs: seq<Record>, edges: seq<Edge>): (a: Audit)
    ensures |a.records| == |rs|
  {
    if edges == [] then Audit(rs, [])
    else
      var before := AuditEdges(h, c, rs, edges[..|edges| - 1]);
      var last := AuditEdge(h, c, before.records, edges[|edges| - 1]);
      Audit(last.records, before.issues + last.issues)
  }

  // ----- Control audit -----

  /** `_audit_control` */
  function AuditControl(h: Hasher, c: Context, rs: seq<Record>, i: nat, contract: Contract): (a: Audit)
    requires i < |rs|
    ensures |a.records| == |rs|
  {
    var id := rs[i].contract.id;
    if rs[i].contract != contract then Audit(rs, [Issue(InvalidControl, id)])
    else if rs[i].status == CREATED then
      Audit(rs[i := Sealed(h, BlockedFor(rs[i], DROPPED_CONTROL))], [Issue(SilentlyDropped, id)])
    else if HasWrongConsumer(rs[i], contract.target, contract.toAgent, c.outputs) then
      Audit(rs, [Issue(WrongConsumer, id)])
    else if !ReceiptValid(h, rs[i]) then Audit(rs, [Issue(InvalidReceipt, id)])
    else Audit(rs, [])
  }

  datatype ControlAudit = ControlAudit(records: seq<Record>, declared: set<string>, issues: seq<Issue>)

  predicate ValidDeclaration(d: Control) {
    d.controlType == OPEN_RISK && d.contract.Some?
  }

  /** One iteration of `audit_declared_controls`. */
  function AuditDeclaration(h: Hasher, c: Context, before: ControlAudit, d: Control): (a: ControlAudit)
    ensures |a.records| == |before.records|
  {
    var id := if d.contract.Some? then d.contract.value.id else "";
    if !ValidDeclaration(d) || id == "" || id in before.declared then
      before.(issues := before.issues + [Issue(InvalidControlDeclaration, id)])
    else
      var i := FirstWith(before.records, id);
      if i == |before.records| then
        before.(declared := before.declared + {id}, issues := before.issues + [Issue(MissingControl, id)])
      else
        var audit := AuditControl(h, c, before.records, i, d.contract.value);
        ControlAudit(audit.records, before.declared + {id}, before.issues + audit.issues)
  }

  function AuditControls(h: Hasher, c: Context, rs: seq<Record>, ds: seq<Control>): (a: ControlAudit)
    ensures |a.records| == |rs|
  {
    if ds == [] then ControlAudit(rs, {}, [])
    else AuditDeclaration(h, c, AuditControls(h, c, rs, ds[..|ds| - 1]), ds[|ds| - 1])
  }

  // ----- Closing audits -----

  predicate EvidenceFree(r: Record) {
    r.status == CONSUMED && r.resolution == "ACCEPTED" && r.contract.evidenceRefs == []
  }

  function Flag(rs: seq<Record>, code: IssueCode, bad: Record -> bool): (r: seq<Issue>)
    ensures r == [] <==> forall x :: x in rs ==> !bad(x)
  {
    if rs == [] then []
    else (if bad(rs[0]) then [Issue(code, rs[0].contract.id)] else []) + Flag(rs[1..], code, bad)
  }

  /** Evidence-free acceptances, records nobody expected, and records still pending, in that order. */
  function ClosingIssues(session: string, allowed: set<string>, rs: seq<Record>): (r: seq<Issue>)
    ensures r == [] <==> forall x :: x in rs ==>
              && !EvidenceFree(x)
              && (Prefixed(session, x.contract.id) ==> x.contract.id in allowed)
              && x.status != CREATED
  {
    Flag(rs, EvidenceFreeAcceptance, EvidenceFree)
    + Flag(rs, UnexpectedHandoff, (r: Record) => Prefixed(session, r.contract.id) && r.contract.id !in allowed)
    + Flag(rs, SilentlyDropped, (r: Record) => r.status == CREATED)
  }

  /** `_finalize_pending` on one record. */
  function Finalized(h: Hasher, r: Record): Record {
    if r.status == CREATED then Sealed(h, BlockedFor(r, DROPPED)) else r
  }

  function FinalizeAll(h: Hasher, rs: seq<Record>): (r: seq<Record>)
    ensures |r| == |rs| && forall i :: 0 <= i < |rs| ==> r[i] == Finalized(h, rs[i])
  {
    seq(|rs|, i requires 0 <= i < |rs| => Finalized(h, rs[i]))
  }

  function UnresolvedOf(rs: seq<Record>): (r: seq<Unresolved>)
    ensures r == [] <==> forall x :: x in rs ==> x.status == CONSUMED
  {
    if rs == [] then []
    else
      (if rs[0].status != CONSUMED then [Unresolved(rs[0].contract.id, rs[0].status, rs[0].reason)] else [])
      + UnresolvedOf(rs[1..])
  }

  predicate DeliveredOnce(h: Hasher, rs: seq<Record>, id: string) {
    && multiset(IdsOf(rs))[id] == 1
    && var i := FirstWith(rs, id);
       i < |rs| && rs[i].status == CONSUMED && ReceiptValid(h, rs[i])
  }

  function ConsumedIds(h: Hasher, c: Context, rs: seq<Record>): set<string> {
    set id | id in ExpectedIds(c) && DeliveredOnce(h, rs, id)
  }

  /** `reconcile_required_handoffs` on values. */
  function Reconcile(h: Hasher, c: Context, rs: seq<Record>): (report: Report)
    ensures |report.records| == |rs|
  {
    var edges := AuditEdges(h, c, rs, Edges(c));
    var controls := AuditControls(h, c, edges.records, c.graph.controls);
    var allowed := ExpectedIds(c) + controls.declared;
    var final := FinalizeAll(h, controls.records);
    var issues :=
      IndexIssues(rs, c.session) + edges.issues + controls.issues + ClosingIssues(c.session, allowed, controls.records);
    var unresolved := UnresolvedOf(final);
    Report(issues == [] && unresolved == [], |ExpectedIds(c)|, |controls.declared|,
           |ConsumedIds(h, c, final)|, issues, unresolved, final)
  }
}
