/** Construction of the routed and the full-audit graphs (runtime/workflow_graph.py). */
module GraphBuilder {
  import opened Wrappers
  import opened Sorting
  import opened Sequences
  import opened Text
  import opened Handoffs
  import opened WorkflowGraphs

  /** The parts of a routing result that shape a graph. */
  datatype Route = Route(
    leadAgent: string, supportingAgents: seq<string>, workflow: string, escalation: string, confidence: string)

  const SCRUM := "SEO Scrummaster Agent"
  const STRATEGIST := "Senior SEO Strategist Agent"
  const REPORT := "SEO Output Report Agent"

  function Lower(c: char): char {
    if 'A' <= c <= 'Z' then c - 'A' + 'a' else c
  }

  /** `s.replace(pattern, with)`, left to right without overlap. */
  function Replace(s: string, pattern: string, with: string): string
    requires pattern != ""
    decreases |s|
  {
    if s == "" then ""
    else if pattern <= s then with + Replace(s[|pattern|..], pattern, with)
    else [s[0]] + Replace(s[1..], pattern, with)
  }

  function Slug(agent: string): string {
    var lower := seq(|agent|, i requires 0 <= i < |agent| => Lower(agent[i]));
    Replace(Replace(Replace(Replace(lower, " / ", "-"), "&", "and"), " ", "-"), "/", "-")
  }

  /** `token in value` */
  predicate Contains(value: string, token: string) {
    token <= value || (value != "" && Contains(value[1..], token))
  }

  predicate ContainsAny(value: string, tokens: seq<string>) {
    exists t :: t in tokens && Contains(value, t)
  }

  /** First occurrences, in order. */
  function Dedupe(values: seq<string>): (r: seq<string>)
    ensures forall v :: v in r <==> v in values
    ensures |r| <= |values|
    ensures NoDuplicates(r)
  {
    if values == [] then []
    else
      var last := values[|values| - 1];
      var rest := Dedupe(values[..|values| - 1]);
      assert values == values[..|values| - 1] + [last];
      if last in rest then rest else rest + [last]
  }

  function VerticalAgents(businessType: string): seq<string> {
    var value := seq(|businessType|, i requires 0 <= i < |businessType| => Lower(businessType[i]));
    (if ContainsAny(value, ["ecommerce", "e-commerce", "commerce", "retail"]) then ["SEO E-commerce Agent"] else [])
    + (if ContainsAny(value, ["local", "location", "service-area"]) then ["Local SEO Agent"] else [])
    + (if ContainsAny(value, ["international", "multilingual", "global"])
       then ["International & Multilingual SEO Agent"] else [])
  }

  function EligibleSupport(route: Route): seq<string> {
    Dedupe(Filter(route.supportingAgents, (a: string) => a !in {route.leadAgent, SCRUM, STRATEGIST, REPORT}))
  }

  /** Parallel nodes without dependencies, numbered from 01. */
  function FirstLevel(prefix: string, agents: seq<string>, role: string): (r: seq<Node>)
    ensures |r| == |agents|
    ensures forall i :: 0 <= i < |r| ==>
              r[i] == Node(prefix + Padded(i + 1) + "-" + Slug(agents[i]), agents[i], [], true, role)
  {
    seq(|agents|, i requires 0 <= i < |agents| =>
      Node(prefix + Padded(i + 1) + "-" + Slug(agents[i]), agents[i], [], true, role))
  }

  function IdList(nodes: seq<Node>): (r: seq<string>)
    ensures |r| == |nodes| && forall i :: 0 <= i < |r| ==> r[i] == nodes[i].id
    ensures forall d :: d in r <==> d in Ids(nodes)
  {
    seq(|nodes|, i requires 0 <= i < |nodes| => nodes[i].id)
  }

  const FIXED_SPECIALISTS := [
    "SEO Technical Agent", "SEO Copywriter/Content Agent", "SEO Information Architecture Agent",
    "SEO Accessibility Agent", "GEO / AIO Optimization Agent", "Negative SEO & Security Agent"]

  function FullAuditSpecialists(businessType: string): seq<Node> {
    var selected := Take(VerticalAgents(businessType), 2);
    var optional := if selected != [] then selected else ["SEO CRO Agent", "Competitive Intelligence Agent"];
    FirstLevel("specialist-", Take(Dedupe(FIXED_SPECIALISTS + optional), 8), "specialist")
  }

  /** Lead, challenge, roadmap and report, one above the other. */
  function FullAuditStack(specialists: seq<string>): seq<Node> {
    var lead := Node("lead-synthesis", "SEO Full Audit/Analyst Agent", specialists, true, "lead");
    var scrum := Node("scrummaster-challenge", SCRUM, [lead.id], true, "governance");
    var strategy := Node("strategic-roadmap", STRATEGIST, [scrum.id], true, "strategy");
    var report := Node("stakeholder-report", REPORT, [strategy.id], true, "report");
    [lead, scrum, strategy, report]
  }

  function FullAuditGraph(businessType: string): Graph {
    var specialists := FullAuditSpecialists(businessType);
    Graph("full-audit-v2", specialists + FullAuditStack(IdList(specialists)), "stakeholder-report",
          Drop(VerticalAgents(businessType), 2), [])
  }

  predicate HasScrum(route: Route) {
    SCRUM in route.supportingAgents || route.confidence == "Low"
  }

  predicate HasStrategy(route: Route) {
    route.leadAgent != STRATEGIST && STRATEGIST in route.supportingAgents
  }

  predicate HasReport(route: Route) {
    route.leadAgent != REPORT
  }

  /** What the strategy node waits for. */
  function AfterScrum(route: Route): string {
    if HasScrum(route) then "scrummaster-challenge" else "lead-deliverable"
  }

  /** What the report node waits for; the deliverable when there is no report node. */
  function AfterStrategy(route: Route): string {
    if route.leadAgent == STRATEGIST then "lead-deliverable"
    else if HasStrategy(route) then "strategic-synthesis"
    else AfterScrum(route)
  }

  function RoutedStack(route: Route, support: seq<string>): seq<Node> {
    [Node("lead-deliverable", route.leadAgent, support, true, "lead")]
    + (if HasScrum(route) then [Node("scrummaster-challenge", SCRUM, ["lead-deliverable"], true, "governance")] else [])
    + (if HasStrategy(route) then [Node("strategic-synthesis", STRATEGIST, [AfterScrum(route)], true, "strategy")] else [])
    + (if HasReport(route) then [Node("stakeholder-report", REPORT, [AfterStrategy(route)], false, "report")] else [])
  }

  function RoutedGraph(route: Route): Graph {
    var support := FirstLevel("support-", Take(EligibleSupport(route), 6), "support");
    Graph(
      "routed-" + Slug(route.leadAgent) + "-v2",
      support + RoutedStack(route, IdList(support)),
      if HasReport(route) then "stakeholder-report" else AfterStrategy(route),
      Drop(EligibleSupport(route), 6),
      [])
  }

  /** `build_workflow_graph` */
  function BuildGraph(route: Route, businessType: string): Graph {
    if route.workflow == "workflows/full-audit-workflow.md" then FullAuditGraph(businessType)
    else RoutedGraph(route)
  }

  // ----- Builder graphs pass validation -----

  /** The stage a role works at; every builder edge climbs. */
  function Stage(role: string): nat {
    if role == "lead" then 2 else if role == "governance" then 3 else if role == "strategy" then 4
    else if role == "report" then 5 else 1
  }

  ghost predicate Climbs(nodes: seq<Node>) {
    && (forall n :: n in nodes ==> Stage(n.role) <= 5)
    && (forall n, d :: n in nodes && d in n.dependsOn ==>
          d in Ids(nodes) && Stage(Find(nodes, d).role) < Stage(n.role))
  }

  lemma {:induction false} ClimbingChain(nodes: seq<Node>, p: seq<string>)
    requires Climbs(nodes) && IsChain(DependencyMap(nodes), p)
    ensures Stage(Find(nodes, p[0]).role) + |p| - 1 <= Stage(Find(nodes, p[|p| - 1]).role)
    decreases |p|
  {
    if |p| > 1 {
      var q := p[..|p| - 1];
      ClimbingChain(nodes, q);
      assert Waits(DependencyMap(nodes), p[|p| - 1], q[|q| - 1]);
      var n := Find(nodes, p[|p| - 1]);
      assert q[|q| - 1] in n.dependsOn;
    }
  }

  lemma ClimbingIsValid(g: Graph)
    requires g.nodes != [] && UniqueIds(g.nodes) && Climbs(g.nodes)
    requires g.deliverable != "" && g.deliverable in Ids(g.nodes)
    requires forall n :: n in g.nodes ==> g.deliverable !in n.dependsOn
    ensures WellFormed(g) && WithinLimits(g, |g.nodes|, 5)
  {
    var m := DependencyMap(g.nodes);
    forall id, d | id in m && d in m[id]
      ensures d in m
    {
      assert Find(g.nodes, id) in g.nodes;
    }
    forall p | IsChain(m, p)
      ensures |p| <= 5 && (|p| >= 2 ==> p[0] != p[|p| - 1])
    {
      ClimbingChain(g.nodes, p);
      assert Find(g.nodes, p[|p| - 1]) in g.nodes;
    }
  }

  lemma FirstLevelDistinct(prefix: string, agents: seq<string>, role: string, i: nat, j: nat)
    requires |agents| <= 9 && i < j < |agents|
    ensures FirstLevel(prefix, agents, role)[i].id != FirstLevel(prefix, agents, role)[j].id
  {
    NumberOf(prefix, i + 1, agents[i]);
    NumberOf(prefix, j + 1, agents[j]);
    if Padded(i + 1) == Padded(j + 1) {
      PaddedInjective(i + 1, j + 1);
    }
  }

  /** The two digits after the prefix are the number. */
  lemma NumberOf(prefix: string, n: nat, agent: string)
    requires n <= 9
    ensures |Padded(n)| == 2
    ensures (prefix + Padded(n) + "-" + Slug(agent))[|prefix|..|prefix| + 2] == Padded(n)
  {
  }

  /** Every graph the builders produce passes `validate` within 12 nodes and depth 5, whatever the route
      and business type; no node id is empty and no control is declared yet. */
  lemma BuilderGraphsAreValid(route: Route, businessType: string)
    ensures var g := BuildGraph(route, businessType);
            WellFormed(g) && WithinLimits(g, 12, 5) && g.controls == [] && "" !in Ids(g.nodes)
  {
    if route.workflow == "workflows/full-audit-workflow.md" {
      FullAuditValid(businessType);
    } else {
      RoutedValid(route);
    }
  }

  ghost predicate HasPrefix(n: Node, prefix: string) {
    prefix <= n.id
  }

  /** A first level under a stack of singly named nodes has unique ids. */
  lemma StackedUnique(first: seq<Node>, rest: seq<Node>)
    requires UniqueIds(first) && UniqueIds(rest)
    requires forall a, b :: a in first && b in rest ==> a.id != b.id
    ensures UniqueIds(first + rest)
  {
  }

  lemma FirstLevelFacts(prefix: string, agents: seq<string>, role: string)
    requires |agents| <= 9 && role in {"support", "specialist"}
    ensures UniqueIds(FirstLevel(prefix, agents, role))
    ensures forall n :: n in FirstLevel(prefix, agents, role) ==> HasPrefix(n, prefix) && n.dependsOn == [] && n.role == role
  {
    forall i, j | 0 <= i < j < |agents|
      ensures FirstLevel(prefix, agents, role)[i].id != FirstLevel(prefix, agents, role)[j].id
    {
      FirstLevelDistinct(prefix, agents, role, i, j);
    }
  }

  /** A stack over a first level: the bottom node waits for the whole level, every other node for one
      node below it at an earlier stage. */
  ghost predicate Stacked(rest: seq<Node>, level: seq<string>, prefix: string) {
    && rest != []
    && UniqueIds(rest)
    && rest[0].dependsOn == level
    && (forall i :: 0 <= i < |rest| ==> StackNode(rest[i], prefix))
    && (forall i :: 1 <= i < |rest| ==> WaitsBelow(rest, i))
  }

  predicate StackNode(n: Node, prefix: string) {
    n.id != "" && !(prefix <= n.id) && 2 <= Stage(n.role) <= 5
  }

  ghost predicate WaitsBelow(rest: seq<Node>, i: nat)
    requires i < |rest|
  {
    exists j :: 0 <= j < i && rest[i].dependsOn == [rest[j].id] && Stage(rest[j].role) < Stage(rest[i].role)
  }

  lemma StackSnoc(rest: seq<Node>, level: seq<string>, prefix: string, n: Node, j: nat)
    requires Stacked(rest, level, prefix) && StackNode(n, prefix) && j < |rest|
    requires n.dependsOn == [rest[j].id] && Stage(rest[j].role) < Stage(n.role)
    requires forall i :: 0 <= i < |rest| ==> rest[i].id != n.id
    ensures Stacked(rest + [n], level, prefix)
  {
    var all := rest + [n];
    forall i | 1 <= i < |all|
      ensures WaitsBelow(all, i)
    {
      if i < |rest| {
        assert WaitsBelow(rest, i);
        var k :| 0 <= k < i && rest[i].dependsOn == [rest[k].id] && Stage(rest[k].role) < Stage(rest[i].role);
        assert all[i].dependsOn == [all[k].id];
      } else {
        assert all[i].dependsOn == [all[j].id];
      }
    }
  }

  lemma StackClimbs(nodes: seq<Node>, first: seq<Node>, rest: seq<Node>, prefix: string)
    requires nodes == first + rest && UniqueIds(nodes)
    requires forall n :: n in first ==> HasPrefix(n, prefix) && n.dependsOn == [] && Stage(n.role) == 1
    requires Stacked(rest, IdList(first), prefix)
    ensures Climbs(nodes)
  {
    forall n, d | n in nodes && d in n.dependsOn
      ensures d in Ids(nodes) && Stage(Find(nodes, d).role) < Stage(n.role)
    {
      assert n in rest;
      var i :| 0 <= i < |rest| && rest[i] == n;
      assert StackNode(rest[i], prefix);
      var below: Node;
      if i == 0 {
        below :| below in first && below.id == d;
      } else {
        assert WaitsBelow(rest, i);
        var j :| 0 <= j < i && rest[i].dependsOn == [rest[j].id] && Stage(rest[j].role) < Stage(rest[i].role);
        below := rest[j];
      }
      assert below in nodes;
      FindUnique(nodes, below);
    }
    forall n | n in nodes
      ensures Stage(n.role) <= 5
    {
      if n in rest {
        var i :| 0 <= i < |rest| && rest[i] == n;
        assert StackNode(rest[i], prefix);
      }
    }
  }

  /** Nothing waits for the top of a stack. */
  lemma TopIsTerminal(rest: seq<Node>, level: seq<string>, prefix: string, n: Node)
    requires Stacked(rest, level, prefix) && n in rest
    requires forall d :: d in level ==> prefix <= d
    ensures rest[|rest| - 1].id !in n.dependsOn
  {
    var top := rest[|rest| - 1];
    assert StackNode(top, prefix);
    var i :| 0 <= i < |rest| && rest[i] == n;
    if i > 0 {
      assert WaitsBelow(rest, i);
    }
  }

  lemma StackValid(g: Graph, first: seq<Node>, rest: seq<Node>, prefix: string)
    requires g.nodes == first + rest && UniqueIds(first)
    requires forall n :: n in first ==> HasPrefix(n, prefix) && n.dependsOn == [] && Stage(n.role) == 1
    requires Stacked(rest, IdList(first), prefix) && g.deliverable == rest[|rest| - 1].id && prefix != ""
    ensures WellFormed(g) && WithinLimits(g, |g.nodes|, 5) && "" !in Ids(g.nodes)
  {
    forall n | n in g.nodes
      ensures n.id != ""
    {
      if n in rest {
        var k :| 0 <= k < |rest| && rest[k] == n;
        assert StackNode(rest[k], prefix);
      }
    }
    forall a, b | a in first && b in rest
      ensures a.id != b.id
    {
      var i :| 0 <= i < |rest| && rest[i] == b;
      assert StackNode(rest[i], prefix);
    }
    StackedUnique(first, rest);
    StackClimbs(g.nodes, first, rest, prefix);
    assert rest[|rest| - 1] in g.nodes && StackNode(rest[|rest| - 1], prefix);
    forall n | n in g.nodes
      ensures g.deliverable !in n.dependsOn
    {
      if n in rest {
        TopIsTerminal(rest, IdList(first), prefix, n);
      }
    }
    ClimbingIsValid(g);
  }

  /** The names of the stacked nodes differ from each other and from every first-level id. */
  lemma StackNames()
    ensures "lead-synthesis"[0] == 'l' && "lead-deliverable"[0] == 'l'
    ensures "scrummaster-challenge"[..2] == "sc" && "strategic-roadmap"[..3] == "str"
    ensures "strategic-synthesis"[..3] == "str" && "stakeholder-report"[..3] == "sta"
    ensures "specialist-"[..2] == "sp" && "support-"[..2] == "su"
  {
  }

  /** A name that starts like the prefix agrees with it on the second letter. */
  lemma SecondLetter(prefix: string, id: string)
    requires |prefix| >= 2 && |id| >= 2 && prefix[1] != id[1]
    ensures !(prefix <= id)
  {
  }

  lemma FullAuditStacked(level: seq<string>)
    ensures Stacked(FullAuditStack(level), level, "specialist-")
  {
    var rest := FullAuditStack(level);
    StackNames();
    SecondLetter("specialist-", "lead-synthesis");
    SecondLetter("specialist-", "scrummaster-challenge");
    SecondLetter("specialist-", "strategic-roadmap");
    SecondLetter("specialist-", "stakeholder-report");
    var lead, scrum, strategy, report := rest[0], rest[1], rest[2], rest[3];
    StackSnoc([lead], level, "specialist-", scrum, 0);
    StackSnoc([lead] + [scrum], level, "specialist-", strategy, 1);
    StackSnoc([lead] + [scrum] + [strategy], level, "specialist-", report, 2);
    assert rest == [lead] + [scrum] + [strategy] + [report];
  }

  lemma FullAuditFirst(businessType: string)
    ensures
      var first := FullAuditSpecialists(businessType);
      && UniqueIds(first)
      && (forall n :: n in first ==> HasPrefix(n, "specialist-") && n.dependsOn == [] && n.role == "specialist")
  {
    var selected := Take(VerticalAgents(businessType), 2);
    var optional := if selected != [] then selected else ["SEO CRO Agent", "Competitive Intelligence Agent"];
    FirstLevelFacts("specialist-", Take(Dedupe(FIXED_SPECIALISTS + optional), 8), "specialist");
  }

  lemma FullAuditValid(businessType: string)
    ensures WellFormed(FullAuditGraph(businessType)) && WithinLimits(FullAuditGraph(businessType), 12, 5)
    ensures "" !in Ids(FullAuditGraph(businessType).nodes)
  {
    var first := FullAuditSpecialists(businessType);
    FullAuditFirst(businessType);
    FullAuditStacked(IdList(first));
    StackValid(FullAuditGraph(businessType), first, FullAuditStack(IdList(first)), "specialist-");
  }

  lemma PrefixedIds(first: seq<Node>, prefix: string)
    requires forall n :: n in first ==> HasPrefix(n, prefix)
    ensures forall d :: d in IdList(first) ==> prefix <= d
  {
  }

  lemma RoutedValid(route: Route)
    ensures WellFormed(RoutedGraph(route)) && WithinLimits(RoutedGraph(route), 12, 5)
    ensures "" !in Ids(RoutedGraph(route).nodes)
  {
    var g := RoutedGraph(route);
    var first := FirstLevel("support-", Take(EligibleSupport(route), 6), "support");
    FirstLevelFacts("support-", Take(EligibleSupport(route), 6), "support");
    PrefixedIds(first, "support-");
    RoutedStacked(route, IdList(first));
    StackValid(g, first, RoutedStack(route, IdList(first)), "support-");
  }

  lemma RoutedStacked(route: Route, level: seq<string>)
    ensures Stacked(RoutedStack(route, level), level, "support-")
    ensures var rest := RoutedStack(route, level);
            rest[|rest| - 1].id == if HasReport(route) then "stakeholder-report" else AfterStrategy(route)
  {
    StackNames();
    SecondLetter("support-", "lead-deliverable");
    SecondLetter("support-", "scrummaster-challenge");
    SecondLetter("support-", "strategic-synthesis");
    SecondLetter("support-", "stakeholder-report");
    var lead := Node("lead-deliverable", route.leadAgent, level, true, "lead");
    var scrum := Node("scrummaster-challenge", SCRUM, ["lead-deliverable"], true, "governance");
    var rest := [lead] + if HasScrum(route) then [scrum] else [];
    if HasScrum(route) {
      StackSnoc([lead], level, "support-", scrum, 0);
    }
    RoutedUpperStack(route, level, rest);
  }

  lemma RoutedUpperStack(route: Route, level: seq<string>, lower: seq<Node>)
    requires lower <= RoutedStack(route, level)
    requires Stacked(lower, level, "support-") && lower[0].id == "lead-deliverable" && Stage(lower[0].role) == 2
    requires |lower| == (if HasScrum(route) then 2 else 1) && lower[|lower| - 1].id == AfterScrum(route)
    requires Stage(lower[|lower| - 1].role) <= 3
    ensures Stacked(RoutedStack(route, level), level, "support-")
    ensures var rest := RoutedStack(route, level);
            rest[|rest| - 1].id == if HasReport(route) then "stakeholder-report" else AfterStrategy(route)
  {
    StackNames();
    SecondLetter("support-", "strategic-synthesis");
    SecondLetter("support-", "stakeholder-report");
    var strategy := Node("strategic-synthesis", STRATEGIST, [AfterScrum(route)], true, "strategy");
    var report := Node("stakeholder-report", REPORT, [AfterStrategy(route)], false, "report");
    var rest := lower;
    if HasStrategy(route) {
      StackSnoc(rest, level, "support-", strategy, |rest| - 1);
      rest := rest + [strategy];
    }
    if HasReport(route) {
      StackSnoc(rest, level, "support-", report, if route.leadAgent == STRATEGIST then 0 else |rest| - 1);
      rest := rest + [report];
    }
    assert rest == RoutedStack(route, level);
  }
}
