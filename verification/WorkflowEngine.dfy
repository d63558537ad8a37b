/** One workflow run as a step relation (runtime/workflow_runner.py, runtime/workflow_run_support.py,
    runtime/structured_output.py). Each action is one segment that the event loop executes without
    suspension; agents of one level interleave freely and their answers are arbitrary. */
module WorkflowEngine {
  import opened Wrappers
  import opened Sorting
  import opened Sequences
  import opened Text
  import opened Handoffs
  import opened AgentOutputs
  import opened OutputRules
  import opened WorkflowGraphs
  import opened GraphBuilder
  import opened HandoffGovernance
  import opened RunBudgets
  import FindingKeys

  // ----- What a run is given -----

  /** A sentence around one name. */
  datatype Sentence = Sentence(before: string, after: string) {
    function About(name: string): string {
      before + name + after
    }
  }

  /** The sentences of the handoffs the runtime writes; nothing depends on what they say. */
  datatype Wording = Wording(
    edgeReason: Sentence, edgeAction: Sentence, edgeCriteria: seq<string>, edgeTrigger: Sentence,
    riskAction: string, riskCriteria: seq<string>, riskTrigger: string)

  /** A validated graph with its levels, the limits, the digest function, the handoffs the session holds
      before execution, and whether the client is the offline echo provider. */
  datatype Config = Config(
    session: string, graph: Graph, levels: seq<seq<Node>>, limits: Limits,
    hash: Hasher, wording: Wording, initial: seq<Record>, echo: bool)

  function RiskId(session: string): string {
    session + "-risk-escalation-001"
  }

  function Join(parts: seq<string>): string {
    if parts == [] then "" else if |parts| == 1 then parts[0] else parts[0] + "; " + Join(parts[1..])
  }

  /** The id of the first scrummaster node, or nothing. */
  function ScrumNode(nodes: seq<Node>): (id: string)
    ensures (exists n :: n in nodes && n.agent == SCRUM) ==>
              exists n :: n in nodes && n.agent == SCRUM && n.id == id
    ensures (forall n :: n in nodes ==> n.agent != SCRUM) ==> id == ""
  {
    if nodes == [] then "" else if nodes[0].agent == SCRUM then nodes[0].id else ScrumNode(nodes[1..])
  }

  function RiskContract(
    session: string, w: Wording, route: Route, risks: seq<string>, evidence: seq<string>,
    nodes: seq<Node>): Contract
  {
    Contract(
      RiskId(session), route.leadAgent, SCRUM, route.escalation, Take(Join(risks), 1000), evidence,
      w.riskAction, "High", w.riskCriteria, w.riskTrigger, "workflow-control:open-risks", ScrumNode(nodes))
  }

  /** `append_risk_handoff` on a fresh session: adds one declared control and its handoff when there are
      open risks and the lead is not the scrummaster itself. `base` is the run before that. */
  function Launch(base: Config, route: Route, risks: seq<string>, evidence: seq<string>): Config {
    if risks == [] || route.leadAgent == SCRUM then base
    else
      var contract := RiskContract(base.session, base.wording, route, risks, evidence, base.graph.nodes);
      base.(graph := base.graph.(controls := base.graph.controls + [Control(OPEN_RISK, Some(contract))]),
            initial := base.initial + [Pending(contract)])
  }

  /** What `run` has established when execution starts on a fresh session. */
  ghost predicate Prepared(c: Config) {
    && WellFormed(c.graph) && |c.graph.nodes| <= c.limits.maxNodes && "" !in WorkflowGraphs.Ids(c.graph.nodes)
    && AreLevels(c.graph.nodes, c.levels)
    && ValidLimits(c.limits)
    && ProducesDigests(c.hash)
    && (|| (c.initial == [] && c.graph.controls == [])
        || RiskDeclared(c))
  }

  /** The one initial handoff is the declared risk control, addressed to the scrummaster node if any. */
  ghost predicate RiskDeclared(c: Config) {
    && |c.initial| == 1
    && c.initial[0] == Pending(c.initial[0].contract)
    && c.graph.controls == [Control(OPEN_RISK, Some(c.initial[0].contract))]
    && c.initial[0].contract.id == RiskId(c.session)
    && c.initial[0].contract.toAgent == SCRUM
    && c.initial[0].contract.target == ScrumNode(c.graph.nodes)
  }

  lemma LaunchDeclaresRisk(base: Config, route: Route, risks: seq<string>, evidence: seq<string>)
    requires base.initial == [] && base.graph.controls == [] && Launch(base, route, risks, evidence) != base
    ensures RiskDeclared(Launch(base, route, risks, evidence))
  {
    var contract := RiskContract(base.session, base.wording, route, risks, evidence, base.graph.nodes);
    assert Launch(base, route, risks, evidence).initial == [Pending(contract)];
  }

  lemma LaunchIsPrepared(base: Config, route: Route, risks: seq<string>, evidence: seq<string>)
    requires Prepared(base) && base.initial == [] && base.graph.controls == []
    ensures Prepared(Launch(base, route, risks, evidence))
  {
    var c := Launch(base, route, risks, evidence);
    if c != base {
      LaunchDeclaresRisk(base, route, risks, evidence);
      SameShape(base.graph, c.graph);
    }
  }

  lemma SameShape(a: Graph, b: Graph)
    requires WellFormed(a) && a.nodes == b.nodes && a.deliverable == b.deliverable
    ensures WellFormed(b)
  {
  }

  // ----- The state -----

  /** Where a node's coroutine is: not begun, waiting for the semaphore, holding it before its
      `attempts`-th model call, awaiting the answer to that call, or returned. */
  datatype Phase = Idle | Queued | Active(attempts: nat) | Awaiting(attempts: nat) | Done

  /** `started` is the sequence of RUNNING events, `order` the completion order of `outputs`. */
  datatype State = State(
    level: nat, phases: map<string, Phase>, started: seq<string>, handoffs: seq<Record>,
    outputs: map<string, Output>, order: seq<string>, states: map<string, string>,
    usage: Usage, modelCalls: nat)

  function Init(c: Config): State {
    State(0, map id | id in WorkflowGraphs.Ids(c.graph.nodes) :: Idle, [], c.initial, map[], [], map[], FRESH, 0)
  }

  datatype Reply = Rejected | Accepted(output: Output)

  datatype Action =
    | Begin(id: string, elapsed: real)
    | Acquire(id: string)
    | CallModel(id: string, elapsed: real, quote: Quote)
    | Answer(id: string, reply: Reply, stamp: string)
    | RunEcho(id: string, schemaValid: bool, stamp: string)
    | NextLevel

  // ----- Handoff creation -----

  const NO_OUTPUT := Output("", "", "", "", [], [], None, [])

  function FindingIds(fs: seq<Finding>): seq<string> {
    if fs == [] then []
    else (if fs[0].id.Some? && fs[0].id.value != "" then [fs[0].id.value] else []) + FindingIds(fs[1..])
  }

  predicate HighRisk(fs: seq<Finding>) {
    exists f :: f in fs && f.severity in {Severity.Critical, Severity.High}
  }

  function EdgeContract(
    c: Config, n: Node, index: nat, dependency: string, o: Output): Contract
  {
    Contract(
      EdgeId(c.session, n.id, index), o.agent, n.agent, c.wording.edgeReason.About(n.id),
      Take(o.summary, 1000), FindingIds(o.findings), c.wording.edgeAction.About(n.role),
      if HighRisk(o.findings) then "High" else "Medium",
      c.wording.edgeCriteria, c.wording.edgeTrigger.About(n.id), dependency, n.id)
  }

  function Stored(outputs: map<string, Output>, id: string): Output {
    if id in outputs then outputs[id] else NO_OUTPUT
  }

  /** The contracts `_create_handoffs` builds for one node. */
  function NodeContracts(c: Config, n: Node, outputs: map<string, Output>): (cs: seq<Contract>)
    ensures |cs| == |n.dependsOn|
    ensures forall i :: 0 <= i < |cs| ==> cs[i] == InputContract(c, n, outputs, i)
  {
    seq(|n.dependsOn|, i requires 0 <= i < |n.dependsOn| => InputContract(c, n, outputs, i))
  }

  /** The contract for the node's `i`-th dependency. */
  function InputContract(c: Config, n: Node, outputs: map<string, Output>, i: nat): Contract
    requires i < |n.dependsOn|
  {
    EdgeContract(c, n, i + 1, n.dependsOn[i], Stored(outputs, n.dependsOn[i]))
  }

  function AllPending(cs: seq<Contract>): (rs: seq<Record>)
    ensures |rs| == |cs| && forall i :: 0 <= i < |cs| ==> rs[i] == Pending(cs[i])
  {
    seq(|cs|, i requires 0 <= i < |cs| => Pending(cs[i]))
  }

  // ----- Completion of a node -----

  /** The identifier under which an output answers: its own, else its agent's, else the node's. */
  function AnswerId(n: Node, o: Output): string {
    if o.outputId != "" then o.outputId else if o.agent != "" then o.agent else n.id
  }

  predicate AddressedTo(n: Node, r: Record) {
    r.status == CREATED && r.contract.toAgent == n.agent && (r.contract.target == "" || r.contract.target == n.id)
  }

  /** `_resolve_node_handoffs` on one record. */
  function ResolveOne(h: Hasher, n: Node, o: Output, r: Record, stamp: string): Record {
    if AddressedTo(n, r) then Resolve(h, r, o.acks, Receiver(AnswerId(n, o), n.id, o.agent), stamp) else r
  }

  function ResolveAll(h: Hasher, n: Node, o: Output, rs: seq<Record>, stamp: string): (r: seq<Record>)
    ensures |r| == |rs| && forall i :: 0 <= i < |rs| ==> r[i] == ResolveOne(h, n, o, rs[i], stamp)
  {
    seq(|rs|, i requires 0 <= i < |rs| => ResolveOne(h, n, o, rs[i], stamp))
  }

  /** `StructuredOutputResult.status` */
  datatype Status = Ok | Refused | Failed

  /** `node_result_state` */
  function ResultState(status: Status, synthetic: bool, o: Output): string {
    match status
    case Ok =>
      if synthetic then if o.executionState == "SYNTHETIC" then "SYNTHETIC" else "FAILED"
      else if o.executionState in {"COMPLETE", "PARTIAL", "BLOCKED", "FAILED"} then o.executionState
      else "FAILED"
    case Refused => "BLOCKED"
    case Failed => "FAILED"
  }

  /** The segment after the agent returned. */
  function Finish(c: Config, s: State, n: Node, o: Output, status: Status, synthetic: bool, stamp: string): State {
    s.(phases := s.phases[n.id := Done],
       handoffs := ResolveAll(c.hash, n, o, s.handoffs, stamp),
       outputs := s.outputs[n.id := o],
       order := s.order + [n.id],
       states := s.states[n.id := ResultState(status, synthetic, o)])
  }

  function FailureSlug(agent: string): string {
    Replace(seq(|agent|, i requires 0 <= i < |agent| => Lower(agent[i])), " ", "-")
  }

  /** `_failure_output`: no findings and no acknowledgements. */
  function FailureOutput(session: string, agent: string, state: string): Output {
    Output(
      session + "-" + FailureSlug(agent) + "-failure", agent, state,
      agent + " did not produce a valid executable output.",
      [EvidenceItem(Some("runtime-validation"), Some("runtime_validation"), "CURRENT")], [], None, [])
  }

  /** What output validation guarantees of an accepted live answer. */
  predicate Validated(n: Node, o: Output) {
    o.agent == n.agent && o.executionState != "SYNTHETIC"
  }

  // ----- Echo answers -----

  const SYNTHETIC_CONTEXT := "synthetic-runtime-context"

  const ECHO_NOTE := "Synthetic" + " acknowledgement; not production evidence."

  function EchoAck(r: Record): Ack {
    Ack(r.contract.id, if r.contract.evidenceRefs != [] then "ACCEPTED" else "CHALLENGED", r.contract.action,
        r.contract.evidenceRefs, r.contract.criteria, ECHO_NOTE)
  }

  /** `_echo_handoff_acknowledgements` over `_addressed_handoff_payloads`. */
  function EchoAcks(n: Node, rs: seq<Record>): seq<Ack> {
    if rs == [] then []
    else (if AddressedTo(n, rs[0]) then [EchoAck(rs[0])] else []) + EchoAcks(n, rs[1..])
  }

  /** `_slug` of the structured outputs: the words of the name, joined by dashes. */
  function EchoSlug(agent: string): string {
    Replace(FindingKeys.Norm(agent), " ", "-")
  }

  function Sources(evidence: seq<EvidenceItem>): seq<string> {
    if evidence == [] then []
    else
      (if evidence[0].source.Some? && evidence[0].source.value != "" then [evidence[0].source.value] else [])
      + Sources(evidence[1..])
  }

  /** The first source any prior output names, in their order. */
  function EchoSource(prior: seq<Output>): string {
    if prior == [] then "runtime_request"
    else if Sources(prior[0].evidence) != [] then Sources(prior[0].evidence)[0]
    else EchoSource(prior[1..])
  }

  function EchoOutput(n: Node, prior: seq<Output>, rs: seq<Record>): Output {
    Output(
      "synthetic-" + EchoSlug(n.agent), n.agent, "SYNTHETIC",
      "Synthetic offline execution completed for workflow verification.",
      [EvidenceItem(Some(SYNTHETIC_CONTEXT), Some(EchoSource(prior)), "CURRENT")],
      [Finding(Some("synthetic-" + EchoSlug(n.agent) + "-001"), Severity.Low,
               n.agent + " executed in synthetic offline mode", "property", [SYNTHETIC_CONTEXT], Undeclared)],
      if n.agent in SPECIALIST_AGENTS then
        Some(SpecialistDecision("PARTIAL", "PARTIAL", [SYNTHETIC_CONTEXT], false))
      else None,
      EchoAcks(n, rs))
  }

  predicate InLevel(c: Config, level: nat, id: string) {
    level < |c.levels| && exists n :: n in c.levels[level] && n.id == id
  }

  /** `shared_outputs`: what was stored when the current level began, in the order it was stored. */
  function SharedOutputs(c: Config, level: nat, outputs: map<string, Output>, order: seq<string>): seq<Output> {
    if order == [] then []
    else
      (if order[0] in outputs && !InLevel(c, level, order[0]) then [outputs[order[0]]] else [])
      + SharedOutputs(c, level, outputs, order[1..])
  }

  // ----- Steps -----

  function Blocked(s: State, id: string): State {
    s.(phases := s.phases[id := Done], states := s.states[id := "BLOCKED"])
  }

  function Holding(s: State): set<string> {
    set id | id in s.phases && (s.phases[id].Active? || s.phases[id].Awaiting?)
  }

  predicate LevelDone(c: Config, s: State) {
    s.level < |c.levels| && forall n :: n in c.levels[s.level] ==> n.id in s.phases && s.phases[n.id] == Done
  }

  predicate Enabled(c: Config, s: State, a: Action) {
    match a
    case NextLevel => LevelDone(c, s)
    case Begin(id, _) => KnownIn(c, s, id) && InLevel(c, s.level, id) && s.phases[id] == Idle
    case Acquire(id) => KnownIn(c, s, id) && s.phases[id] == Queued && !c.echo && |Holding(s)| < c.limits.maxParallel
    case CallModel(id, _, _) => KnownIn(c, s, id) && s.phases[id].Active?
    case Answer(id, reply, _) =>
      KnownIn(c, s, id) && s.phases[id].Awaiting?
      && (reply.Accepted? ==> Validated(Find(c.graph.nodes, id), reply.output))
    case RunEcho(id, _, _) =>
      KnownIn(c, s, id) && s.phases[id] == Queued && c.echo && |Holding(s)| < c.limits.maxParallel
  }

  predicate KnownIn(c: Config, s: State, id: string) {
    id in WorkflowGraphs.Ids(c.graph.nodes) && id in s.phases
  }

  /** The segment before the semaphore: block, or reserve a node and create its handoffs. */
  function BeginNode(c: Config, s: State, n: Node, elapsed: real): State {
    if exists d :: d in n.dependsOn && !Successful(s.states, d) then Blocked(s, n.id)
    else
      match ReserveNode(c.limits, s.usage, elapsed)
      case Err(_) => Blocked(s, n.id)
      case Ok(usage) =>
        s.(usage := usage, started := s.started + [n.id], phases := s.phases[n.id := Queued],
           handoffs := s.handoffs + AllPending(NodeContracts(c, n, s.outputs)))
  }

  /** One turn of the correction loop up to the model call; a refused reservation ends the agent. */
  function CallOnce(c: Config, s: State, n: Node, attempts: nat, elapsed: real, quote: Quote): State {
    match ReserveCall(c.limits, s.usage, elapsed, attempts > 0, quote)
    case Err(_) => Finish(c, s, n, FailureOutput(c.session, n.agent, "BLOCKED"), Refused, false, "")
    case Ok(usage) =>
      s.(usage := usage, modelCalls := s.modelCalls + 1, phases := s.phases[n.id := Awaiting(attempts + 1)])
  }

  /** The rest of that turn, once the model has answered. */
  function TakeReply(c: Config, s: State, n: Node, attempts: nat, reply: Reply, stamp: string): State {
    match reply
    case Accepted(o) => Finish(c, s, n, o, Status.Ok, false, stamp)
    case Rejected =>
      if attempts > c.limits.maxCorrections then
        Finish(c, s, n, FailureOutput(c.session, n.agent, "FAILED"), Failed, false, stamp)
      else s.(phases := s.phases[n.id := Active(attempts)])
  }

  function EchoAnswer(c: Config, s: State, n: Node): Output {
    EchoOutput(n, SharedOutputs(c, s.level, s.outputs, s.order), s.handoffs)
  }

  function Echo(c: Config, s: State, n: Node, schemaValid: bool, stamp: string): State {
    if schemaValid then Finish(c, s, n, EchoAnswer(c, s, n), Status.Ok, true, stamp)
    else Finish(c, s, n, FailureOutput(c.session, n.agent, "FAILED"), Failed, true, stamp)
  }

  function Apply(c: Config, s: State, a: Action): State
    requires Enabled(c, s, a)
  {
    match a
    case NextLevel => s.(level := s.level + 1)
    case Begin(id, elapsed) => BeginNode(c, s, Find(c.graph.nodes, id), elapsed)
    case Acquire(id) => s.(phases := s.phases[id := Active(0)])
    case CallModel(id, elapsed, quote) =>
      CallOnce(c, s, Find(c.graph.nodes, id), s.phases[id].attempts, elapsed, quote)
    case Answer(id, reply, stamp) => TakeReply(c, s, Find(c.graph.nodes, id), s.phases[id].attempts, reply, stamp)
    case RunEcho(id, schemaValid, stamp) => Echo(c, s, Find(c.graph.nodes, id), schemaValid, stamp)
  }

  /** The state after a sequence of actions, if each was possible when its turn came. */
  function Run(c: Config, actions: seq<Action>): Option<State> {
    if actions == [] then Some(Init(c))
    else
      match Run(c, actions[..|actions| - 1])
      case None => None
      case Some(s) =>
        if Enabled(c, s, actions[|actions| - 1]) then Some(Apply(c, s, actions[|actions| - 1])) else None
  }

  ghost predicate Reachable(c: Config, s: State) {
    exists actions :: Run(c, actions) == Some(s)
  }

  /** `_execute_graph` returns: every level was entered and completed. */
  predicate Returned(c: Config, s: State) {
    s.level == |c.levels|
  }

  // ----- The end of a run -----

  function AuditContext(c: Config, s: State): Context {
    Context(c.session, c.graph, s.states, s.outputs)
  }

  function FinalReport(c: Config, s: State): Report {
    Reconcile(c.hash, AuditContext(c, s), s.handoffs)
  }

  /** `workflow_status`, with the run's final output, synthetic flag and unresolved handoffs. */
  function FinalStatus(c: Config, s: State, toolFailures: bool, conflicts: bool): string {
    var nodes := c.graph.nodes;
    var hasOutput := Successful(s.states, c.graph.deliverable) && c.graph.deliverable in s.outputs;
    if (exists n :: n in nodes && n.required && !Successful(s.states, n.id)) || !hasOutput then "FAILED"
    else if (exists n :: n in nodes && !n.required && !Successful(s.states, n.id))
            || toolFailures || conflicts || "SYNTHETIC" in s.states.Values
            || FinalReport(c, s).unresolved != [] || c.graph.exclusions != []
    then "PARTIAL"
    else "COMPLETE"
  }
}
