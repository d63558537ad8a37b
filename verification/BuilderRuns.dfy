/** Runs of the graphs the builders make: when an escalated risk has a receiver, and two concrete requests. */
module BuilderRuns {
  import opened Wrappers
  import opened Sorting
  import opened Text
  import opened Handoffs
  import opened AgentOutputs
  import opened WorkflowGraphs
  import opened GraphBuilder
  import opened HandoffGovernance
  import opened RunBudgets
  import opened WorkflowEngine
  import opened WorkflowInvariants
  import opened WorkflowTheorems
  import opened EchoRuns
  import opened GovernanceGap

  // ----- When a builder graph has a scrummaster -----

  predicate FullAudit(route: Route) {
    route.workflow == "workflows/full-audit-workflow.md"
  }

  lemma FixedAgentsDiffer()
    ensures SCRUM != STRATEGIST && SCRUM != REPORT && STRATEGIST != REPORT
  {
    assert SCRUM[1] == 'E' && STRATEGIST[1] == 'e' && SCRUM[4] == 'S' && REPORT[4] == 'O' && REPORT[1] == 'E';
  }

  lemma SupportIsNoScrum(route: Route, n: Node)
    requires n in FirstLevel("support-", Sequences.Take(EligibleSupport(route), 6), "support")
    ensures n.agent != SCRUM
  {
    var agents := Sequences.Take(EligibleSupport(route), 6);
    var i :| 0 <= i < |agents| && FirstLevel("support-", agents, "support")[i] == n;
    assert agents[i] == EligibleSupport(route)[i] && n.agent in EligibleSupport(route);
  }

  lemma StackHasScrum(route: Route, support: seq<string>)
    ensures (exists n :: n in RoutedStack(route, support) && n.agent == SCRUM) <==>
            route.leadAgent == SCRUM || HasScrum(route)
  {
    FixedAgentsDiffer();
    var stack := RoutedStack(route, support);
    assert stack[0].agent == route.leadAgent && stack[0] in stack;
    if HasScrum(route) {
      assert stack[1].agent == SCRUM && stack[1] in stack;
    }
  }

  lemma AuditHasScrum(businessType: string)
    ensures exists n :: n in FullAuditGraph(businessType).nodes && n.agent == SCRUM
  {
    var first := FullAuditSpecialists(businessType);
    var stack := FullAuditStack(IdList(first));
    assert stack[1].agent == SCRUM && stack[1] in stack && stack[1] in first + stack;
  }

  /** A scrummaster works on a builder graph exactly in a full audit, as the lead, or when the route asks for one. */
  lemma ScrumExactly(route: Route, businessType: string)
    ensures (exists n :: n in BuildGraph(route, businessType).nodes && n.agent == SCRUM) <==>
            FullAudit(route) || route.leadAgent == SCRUM || HasScrum(route)
  {
    if FullAudit(route) {
      AuditHasScrum(businessType);
    } else {
      var first := FirstLevel("support-", Sequences.Take(EligibleSupport(route), 6), "support");
      StackHasScrum(route, IdList(first));
      forall n | n in first
        ensures n.agent != SCRUM
      {
        SupportIsNoScrum(route, n);
      }
      assert forall n :: n in RoutedGraph(route).nodes <==> n in first || n in RoutedStack(route, IdList(first));
    }
  }

  // ----- When an escalated risk has a receiver -----

  /** A fresh run of a builder graph under limits that admit it. */
  ghost predicate FreshRun(base: Config, route: Route, businessType: string) {
    && base.graph == BuildGraph(route, businessType) && base.initial == []
    && ValidLimits(base.limits) && base.limits.maxNodes >= 12 && ProducesDigests(base.hash)
    && AreLevels(base.graph.nodes, base.levels)
  }

  predicate Escalates(route: Route, risks: seq<string>) {
    risks != [] && route.leadAgent != SCRUM
  }

  predicate HasReceiver(route: Route) {
    FullAudit(route) || HasScrum(route)
  }

  lemma RiskTargetExactly(base: Config, route: Route, businessType: string, risks: seq<string>, evidence: seq<string>)
    requires FreshRun(base, route, businessType)
    ensures var c := Launch(base, route, risks, evidence);
            && Prepared(c)
            && (c.initial != [] <==> Escalates(route, risks))
            && (c.initial != [] ==> (c.initial[0].contract.target != "" <==> HasReceiver(route)))
  {
    BuilderRunsArePrepared(base, route, businessType, risks, evidence);
    ScrumExactly(route, businessType);
  }

  /** An open risk on a route that brings in no scrummaster: whatever the agents answer and however they interleave,
      the audit of the run fails. */
  lemma UnreceivedRiskFails(
    base: Config, route: Route, businessType: string, risks: seq<string>, evidence: seq<string>, actions: seq<Action>)
    requires FreshRun(base, route, businessType) && Escalates(route, risks) && !HasReceiver(route)
    requires Run(Launch(base, route, risks, evidence), actions).Some?
    ensures var c := Launch(base, route, risks, evidence);
            !FinalReport(c, Run(c, actions).value).pass
  {
    var c := Launch(base, route, risks, evidence);
    RiskTargetExactly(base, route, businessType, risks, evidence);
    InvariantAlways(c, actions);
    UntargetedRiskFails(c, Run(c, actions).value);
  }

  /** Undisturbed offline runs pass exactly when no risk is escalated or the route brings in a scrummaster. */
  lemma OfflineVerdict(
    base: Config, route: Route, businessType: string, risks: seq<string>, evidence: seq<string>, actions: seq<Action>)
    requires FreshRun(base, route, businessType)
    requires var c := Launch(base, route, risks, evidence);
             EchoRun(c, actions) && Run(c, actions).Some? && Returned(c, Run(c, actions).value)
    ensures var c := Launch(base, route, risks, evidence);
            FinalReport(c, Run(c, actions).value).pass <==> !Escalates(route, risks) || HasReceiver(route)
  {
    RiskTargetExactly(base, route, businessType, risks, evidence);
    EchoRunVerdict(Launch(base, route, risks, evidence), actions, false, false);
  }

  /** Nor is such a run ever reported COMPLETE: the risk is left unresolved. */
  lemma UnreceivedRiskIsNotComplete(
    base: Config, route: Route, businessType: string, risks: seq<string>, evidence: seq<string>, actions: seq<Action>,
    toolFailures: bool, conflicts: bool)
    requires FreshRun(base, route, businessType) && Escalates(route, risks) && !HasReceiver(route)
    requires Run(Launch(base, route, risks, evidence), actions).Some?
    ensures var c := Launch(base, route, risks, evidence);
            FinalStatus(c, Run(c, actions).value, toolFailures, conflicts) != "COMPLETE"
  {
    var c := Launch(base, route, risks, evidence);
    RiskTargetExactly(base, route, businessType, risks, evidence);
    InvariantAlways(c, actions);
    UntargetedIsNotComplete(c, Run(c, actions).value, toolFailures, conflicts);
  }

  lemma UntargetedIsNotComplete(c: Config, s: State, toolFailures: bool, conflicts: bool)
    requires Prepared(c) && Invariant(c, s) && c.initial != [] && c.initial[0].contract.target == ""
    ensures FinalStatus(c, s, toolFailures, conflicts) != "COMPLETE"
  {
    InitialRecord(c, s, 0);
    assert RecordOk(c, s.outputs, s.handoffs[0]);
    assert "" !in s.outputs;
    assert s.handoffs[0] in s.handoffs && s.handoffs[0].status == CREATED;
    if FinalStatus(c, s, toolFailures, conflicts) == "COMPLETE" {
      CompleteMeans(c, s, toolFailures, conflicts);
      ConsumedAfterMeansBefore(c.hash, AuditContext(c, s), s.handoffs);
      assert false;
    }
  }

  // ----- Graphs in which each node waits for the one before -----

  predicate Pipeline(nodes: seq<Node>) {
    && (nodes != [] ==> nodes[0].dependsOn == [])
    && forall i :: 0 < i < |nodes| ==> nodes[i].dependsOn == [nodes[i - 1].id]
  }

  function Singletons(nodes: seq<Node>): (levels: seq<seq<Node>>)
    ensures |levels| == |nodes| && forall i :: 0 <= i < |nodes| ==> levels[i] == [nodes[i]]
  {
    seq(|nodes|, i requires 0 <= i < |nodes| => [nodes[i]])
  }

  lemma OneBelow(rank: map<string, nat>, d: string)
    requires d in rank
    ensures MaxRank([d], rank) == rank[d]
  {
    assert MaxRank([], rank) == 0;
    assert [d][1..] == [];
  }

  lemma PipelineRankedAt(nodes: seq<Node>, rank: map<string, nat>, i: nat)
    requires UniqueIds(nodes) && Pipeline(nodes) && i < |nodes|
    requires forall j :: 0 <= j < |nodes| ==> nodes[j].id in rank && rank[nodes[j].id] == j + 1
    ensures RankedAt(DependencyMap(nodes), rank, nodes[i].id)
  {
    FindUnique(nodes, nodes[i]);
    assert nodes[i].id in WorkflowGraphs.Ids(nodes);
    if i > 0 {
      OneBelow(rank, nodes[i - 1].id);
    }
  }

  function Positions(nodes: seq<Node>): map<string, nat>
    requires UniqueIds(nodes)
  {
    map i | 0 <= i < |nodes| :: nodes[i].id := i + 1
  }

  lemma PipelineRanks(nodes: seq<Node>)
    requires UniqueIds(nodes) && Pipeline(nodes)
    ensures Ranked(DependencyMap(nodes), Positions(nodes))
  {
    var rank := Positions(nodes);
    forall id | id in rank
      ensures RankedAt(DependencyMap(nodes), rank, id)
    {
      var i :| 0 <= i < |nodes| && nodes[i].id == id;
      PipelineRankedAt(nodes, rank, i);
    }
  }

  lemma PipelineLevels(nodes: seq<Node>)
    requires UniqueIds(nodes) && Pipeline(nodes)
    ensures AreLevels(nodes, Singletons(nodes))
  {
    PipelineRanks(nodes);
    PositionsAreLevels(nodes);
    LevelsComplete(nodes, Positions(nodes), Singletons(nodes));
  }

  lemma PositionsAreLevels(nodes: seq<Node>)
    requires UniqueIds(nodes)
    ensures LevelsSoFar(nodes, Positions(nodes), Singletons(nodes))
  {
  }

  // ----- Requests with at most one supporting agent -----

  /** The limits of a run that is given none. */
  const DEFAULT_LIMITS := Limits(20, 12, 3, 1, 5, 900, None)

  /** The sentences of `_create_handoffs` and `append_risk_handoff`. */
  const WORDING := Wording(
    Sentence("Dependency output required by workflow node ", "."),
    Sentence("Consume this validated output and complete the ",
             " responsibility without duplicating unsupported conclusions."),
    ["The receiving output references or explicitly challenges the supplied evidence.",
     "Conflicts and missing evidence are not silently discarded."],
    Sentence("Before node ", " is complete."),
    "Review the open risks, determine whether the workflow may proceed, "
    + "and record a decision before implementation or publication.",
    ["A schema-valid decision record addresses each open risk.",
     "No gated implementation proceeds on unresolved evidence."],
    "Before implementation or publication.")

  /** The live run of a request, one node after the other, before open risks are declared. */
  function RequestRun(session: string, route: Route, businessType: string, hash: Hasher): Config {
    var g := BuildGraph(route, businessType);
    Config(session, g, Singletons(g.nodes), DEFAULT_LIMITS, hash, WORDING, [], false)
  }

  predicate Narrow(route: Route) {
    !FullAudit(route) && route.leadAgent != STRATEGIST && |EligibleSupport(route)| <= 1
  }

  lemma StackPipeline(route: Route, support: seq<string>)
    requires route.leadAgent != STRATEGIST
    ensures var stack := RoutedStack(route, support);
            stack[0].dependsOn == support && forall i :: 0 < i < |stack| ==> stack[i].dependsOn == [stack[i - 1].id]
  {
  }

  lemma NarrowPipeline(route: Route, businessType: string)
    requires Narrow(route)
    ensures Pipeline(BuildGraph(route, businessType).nodes)
  {
    var first := FirstLevel("support-", Sequences.Take(EligibleSupport(route), 6), "support");
    var stack := RoutedStack(route, IdList(first));
    StackPipeline(route, IdList(first));
    assert BuildGraph(route, businessType).nodes == first + stack;
    if first != [] {
      assert IdList(first) == [first[0].id];
    } else {
      assert first + stack == stack;
    }
  }

  lemma NarrowIsFresh(session: string, route: Route, businessType: string, hash: Hasher)
    requires Narrow(route) && ProducesDigests(hash)
    ensures FreshRun(RequestRun(session, route, businessType, hash), route, businessType)
  {
    BuilderGraphsAreValid(route, businessType);
    NarrowPipeline(route, businessType);
    PipelineLevels(BuildGraph(route, businessType).nodes);
  }

  lemma RoutedAgentsNamed(route: Route, businessType: string)
    requires !FullAudit(route) && !Blank(route.leadAgent) && forall a :: a in EligibleSupport(route) ==> !Blank(a)
    ensures forall n :: n in BuildGraph(route, businessType).nodes ==> !Blank(n.agent)
  {
    var agents := Sequences.Take(EligibleSupport(route), 6);
    var first := FirstLevel("support-", agents, "support");
    assert SCRUM[0] == 'S' && STRATEGIST[0] == 'S' && REPORT[0] == 'S';
    assert BuildGraph(route, businessType).nodes == first + RoutedStack(route, IdList(first));
    forall n | n in first
      ensures !Blank(n.agent)
    {
      var i :| 0 <= i < |agents| && first[i] == n;
      assert agents[i] == EligibleSupport(route)[i];
    }
  }

  lemma NarrowIsLive(
    session: string, route: Route, businessType: string, hash: Hasher, risks: seq<string>, evidence: seq<string>)
    requires Narrow(route) && ProducesDigests(hash)
    requires !Blank(route.leadAgent) && forall a :: a in EligibleSupport(route) ==> !Blank(a)
    ensures Live(Launch(RequestRun(session, route, businessType, hash), route, risks, evidence))
  {
    var base := RequestRun(session, route, businessType, hash);
    NarrowIsFresh(session, route, businessType, hash);
    RiskTargetExactly(base, route, businessType, risks, evidence);
    BuilderGraphsAreValid(route, businessType);
    RoutedAgentsNamed(route, businessType);
  }

  // ----- A request that matches no keyword -----

  const ESCALATION := "Escalate to SEO Scrummaster Agent for high-risk changes or missing evidence."

  /** What the router answers to it. */
  const FALLBACK := Route(SCRUM, [SCRUM], "workflows/request-routing.md", ESCALATION, "Low")

  lemma FallbackRoute()
    ensures EligibleSupport(FALLBACK) == [] && Narrow(FALLBACK) && !Blank(FALLBACK.leadAgent)
    ensures HasScrum(FALLBACK) && !HasStrategy(FALLBACK) && HasReport(FALLBACK)
  {
    FixedAgentsDiffer();
    assert FALLBACK.workflow[10] == 'r' && SCRUM[0] == 'S';
    assert forall a :: a !in EligibleSupport(FALLBACK);
  }

  /** Lead, challenge and report, none left out; the challenge is handed the lead's output. */
  lemma FallbackGraph(businessType: string)
    ensures BuildGraph(FALLBACK, businessType).exclusions == []
    ensures exists n :: n in BuildGraph(FALLBACK, businessType).nodes && n.dependsOn != []
  {
    FallbackRoute();
    var stack := RoutedStack(FALLBACK, []);
    assert BuildGraph(FALLBACK, businessType).nodes == [] + stack == stack;
    assert stack[1].dependsOn != [] && stack[1] in stack;
  }

  /** COMPLETE with a failed audit: default limits, whatever the session, the business type and the risks. */
  lemma CompleteWithoutGovernance(
    session: string, businessType: string, hash: Hasher, risks: seq<string>, evidence: seq<string>)
    returns (actions: seq<Action>)
    requires ProducesDigests(hash)
    ensures
      var c := Launch(RequestRun(session, FALLBACK, businessType, hash), FALLBACK, risks, evidence);
      && c.graph == BuildGraph(FALLBACK, businessType) && Prepared(c) && Run(c, actions).Some? && AnswersPass(c, actions)
      && var s := Run(c, actions).value;
         Returned(c, s) && FinalStatus(c, s, false, false) == "COMPLETE" && !FinalReport(c, s).pass
  {
    var base := RequestRun(session, FALLBACK, businessType, hash);
    assert Launch(base, FALLBACK, risks, evidence) == base;
    FallbackRoute();
    FallbackGraph(businessType);
    NarrowIsLive(session, FALLBACK, businessType, hash, risks, evidence);
    actions := CompleteUpToNames(base, "");
  }

  // ----- A conversion request without a domain -----

  const COPYWRITER := "SEO Copywriter/Content Agent"
  const MISSING_DOMAIN := "Target domain/property missing; routing is provisional."

  /** What the router answers to a request about conversion. */
  const CONVERSION := Route("SEO CRO Agent", [COPYWRITER, STRATEGIST], "workflows/request-routing.md", ESCALATION, "Medium")

  lemma OnlyMember(s: seq<string>, x: string)
    requires NoDuplicates(s) && forall y :: y in s <==> y == x
    ensures s == [x]
  {
    NoDuplicatesCardinality(s);
    assert (set y | y in s) == {x};
    assert s[0] in s;
  }

  lemma OneEligible(route: Route, agent: string)
    requires route.supportingAgents == [agent, STRATEGIST] && agent !in {route.leadAgent, SCRUM, STRATEGIST, REPORT}
    ensures EligibleSupport(route) == [agent]
  {
    OnlyMember(EligibleSupport(route), agent);
  }

  lemma ConversionNames()
    ensures COPYWRITER !in {CONVERSION.leadAgent, SCRUM, STRATEGIST, REPORT}
    ensures CONVERSION.leadAgent != SCRUM && CONVERSION.leadAgent != STRATEGIST
    ensures !Blank(CONVERSION.leadAgent) && !Blank(COPYWRITER)
  {
    assert CONVERSION.leadAgent[4] == 'C' && SCRUM[4] == 'S' && STRATEGIST[1] == 'e' && REPORT[4] == 'O';
    assert COPYWRITER[4] == 'C' && COPYWRITER[5] == 'o' && CONVERSION.leadAgent[5] == 'R' && COPYWRITER[1] == 'E';
  }

  lemma ConversionRoute()
    ensures EligibleSupport(CONVERSION) == [COPYWRITER] && Narrow(CONVERSION)
    ensures Escalates(CONVERSION, [MISSING_DOMAIN]) && !HasReceiver(CONVERSION)
  {
    ConversionNames();
    OneEligible(CONVERSION, COPYWRITER);
    ConversionHasNoReceiver();
  }

  lemma ConversionHasNoReceiver()
    ensures !FullAudit(CONVERSION) && !HasScrum(CONVERSION)
  {
    ConversionNames();
    FixedAgentsDiffer();
    assert CONVERSION.workflow[10] == 'r' && CONVERSION.confidence[0] == 'M';
  }

  /** However a run goes, its audit fails. */
  ghost predicate EveryAuditFails(c: Config) {
    forall actions :: Run(c, actions).Some? ==> !FinalReport(c, Run(c, actions).value).pass
  }

  lemma UnreceivedRiskAlwaysFails(
    base: Config, route: Route, businessType: string, risks: seq<string>, evidence: seq<string>)
    requires FreshRun(base, route, businessType) && Escalates(route, risks) && !HasReceiver(route)
    ensures EveryAuditFails(Launch(base, route, risks, evidence))
  {
    var c := Launch(base, route, risks, evidence);
    forall actions | Run(c, actions).Some?
      ensures !FinalReport(c, Run(c, actions).value).pass
    {
      UnreceivedRiskFails(base, route, businessType, risks, evidence, actions);
    }
  }

  /** The missing domain is an open risk nobody receives: there is a run in which every node completes, and in this as
      in every other run the audit fails. */
  lemma ConversionRequestFails(session: string, businessType: string, hash: Hasher, evidence: seq<string>)
    returns (actions: seq<Action>, s: State)
    requires ProducesDigests(hash)
    ensures
      var c := Launch(RequestRun(session, CONVERSION, businessType, hash), CONVERSION, [MISSING_DOMAIN], evidence);
      && Run(c, actions) == Some(s) && Returned(c, s) && AllSuccessful(c, s) && AnswersPass(c, actions)
      && EveryAuditFails(c)
  {
    var base := RequestRun(session, CONVERSION, businessType, hash);
    ConversionNames();
    ConversionRoute();
    NarrowIsFresh(session, CONVERSION, businessType, hash);
    NarrowIsLive(session, CONVERSION, businessType, hash, [MISSING_DOMAIN], evidence);
    UnreceivedRiskAlwaysFails(base, CONVERSION, businessType, [MISSING_DOMAIN], evidence);
    actions, s := SuccessfulRun(Launch(base, CONVERSION, [MISSING_DOMAIN], evidence));
  }
}
