/** Offline runs: the echo provider acknowledges every handoff it is handed. */
module EchoRuns {
  import opened Wrappers
  import opened Sorting
  import opened Text
  import opened Handoffs
  import opened AgentOutputs
  import opened OutputRules
  import opened WorkflowGraphs
  import opened GraphBuilder
  import opened HandoffGovernance
  import opened HandoffReconciliation
  import opened RunBudgets
  import opened WorkflowEngine
  import opened WorkflowInvariants
  import opened WorkflowTheorems

  /** The deadline is not hit and every echo output is schema-valid. */
  predicate Undisturbed(c: Config, a: Action) {
    && (a.Begin? ==> CheckRuntime(c.limits, a.elapsed))
    && (a.RunEcho? ==> a.schemaValid)
  }

  ghost predicate EchoRun(c: Config, actions: seq<Action>) {
    c.echo && forall a :: a in actions ==> Undisturbed(c, a)
  }

  // ----- The generated outputs -----

  lemma {:induction false} SourcesAreLabelled(evidence: seq<EvidenceItem>, source: string)
    requires forall e :: e in evidence ==> Label(e.source) != ""
    requires source in Sources(evidence)
    ensures Strip(source) != ""
  {
    if !(evidence[0].source == Some(source)) {
      SourcesAreLabelled(evidence[1..], source);
    } else {
      assert evidence[0] in evidence;
    }
  }

  lemma {:induction false} EchoSourceIsLabelled(prior: seq<Output>)
    requires forall p :: p in prior ==> EvidencePasses(p.evidence)
    ensures Strip(EchoSource(prior)) != ""
  {
    if prior == [] {
      assert EchoSource(prior)[0] == 'r';
    } else if Sources(prior[0].evidence) != [] {
      assert prior[0] in prior;
      SourcesAreLabelled(prior[0].evidence, Sources(prior[0].evidence)[0]);
    } else {
      EchoSourceIsLabelled(prior[1..]);
    }
  }

  lemma EchoNames(n: Node)
    ensures Label(Some(SYNTHETIC_CONTEXT)) == SYNTHETIC_CONTEXT
    ensures var id := "synthetic-" + EchoSlug(n.agent) + "-001";
            Label(Some(id)) == id && id != SYNTHETIC_CONTEXT
  {
    var id := "synthetic-" + EchoSlug(n.agent) + "-001";
    assert SYNTHETIC_CONTEXT[0] == 's' && SYNTHETIC_CONTEXT[|SYNTHETIC_CONTEXT| - 1] == 't';
    Unpadded(SYNTHETIC_CONTEXT);
    assert id[0] == 's' && id[|id| - 1] == '1';
    Unpadded(id);
  }

  /** Whatever came before under the rules, no rule for outputs objects to a synthetic output. */
  lemma EchoOutputPasses(n: Node, prior: seq<Output>, rs: seq<Record>)
    requires forall p :: p in prior ==> EvidencePasses(p.evidence)
    ensures Passes(EchoOutput(n, prior, rs), n.agent, true)
  {
    var o := EchoOutput(n, prior, rs);
    EchoSourceIsLabelled(prior);
    EchoNames(n);
    OneItemPasses(o.evidence, o.evidence[0]);
    OneFindingPasses(o, o.evidence[0], o.findings[0]);
    DecisionPasses(o, o.evidence[0], "PARTIAL", "PARTIAL");
  }

  // ----- The generated acknowledgements -----

  lemma {:induction false} EchoAcksMembers(n: Node, rs: seq<Record>, a: Ack)
    ensures a in EchoAcks(n, rs) <==> exists r :: r in rs && AddressedTo(n, r) && a == EchoAck(r)
  {
    if rs != [] {
      EchoAcksMembers(n, rs[1..], a);
      assert rs == [rs[0]] + rs[1..];
    }
  }

  lemma {:induction false} EchoAcksDistinct(n: Node, rs: seq<Record>)
    requires UniqueRecordIds(rs)
    ensures forall i, j :: 0 <= i < j < |EchoAcks(n, rs)| ==> EchoAcks(n, rs)[i].handoffId != EchoAcks(n, rs)[j].handoffId
  {
    if rs != [] {
      var rest := rs[1..];
      assert forall i, j :: 0 <= i < j < |rest| ==> rest[i] == rs[i + 1] && rest[j] == rs[j + 1];
      EchoAcksDistinct(n, rest);
      var later := EchoAcks(n, rest);
      if AddressedTo(n, rs[0]) {
        forall j | 0 <= j < |later|
          ensures later[j].handoffId != rs[0].contract.id
        {
          EchoAcksMembers(n, rest, later[j]);
          var r :| r in rest && AddressedTo(n, r) && later[j] == EchoAck(r);
          var k :| 0 <= k < |rest| && rest[k] == r;
          assert rs[0].contract.id != rs[k + 1].contract.id;
        }
      }
    }
  }

  lemma {:induction false} MatchingOnce(acks: seq<Ack>, a: Ack)
    requires a in acks
    requires forall i, j :: 0 <= i < j < |acks| ==> acks[i].handoffId != acks[j].handoffId
    ensures |Matching(acks, a.handoffId)| == 1
  {
    var rest := acks[1..];
    assert forall i, j :: 0 <= i < j < |rest| ==> rest[i] == acks[i + 1] && rest[j] == acks[j + 1];
    if acks[0] == a {
      MatchingNone(rest, a.handoffId);
    } else {
      var k :| 0 <= k < |acks| && acks[k] == a;
      assert acks[0].handoffId != acks[k].handoffId;
      assert rest[k - 1] == a;
      MatchingOnce(rest, a);
    }
  }

  lemma {:induction false} MatchingNone(acks: seq<Ack>, id: string)
    requires forall i :: 0 <= i < |acks| ==> acks[i].handoffId != id
    ensures Matching(acks, id) == []
  {
    if acks != [] {
      MatchingNone(acks[1..], id);
    }
  }

  lemma EchoAckAccepted(r: Record, to: Receiver)
    requires !Blank(to.outputId) && to.node == r.contract.target && to.agent == r.contract.toAgent
    ensures Accepts(r.contract, EchoAck(r), to)
  {
    assert EchoAck(r).note[0] == 'S';
  }

  lemma EchoAckOnce(n: Node, rs: seq<Record>, r: Record)
    requires UniqueRecordIds(rs) && r in rs && AddressedTo(n, r)
    ensures AnsweredOnceBy(r.contract, EchoAcks(n, rs), EchoAck(r))
  {
    EchoAcksMembers(n, rs, EchoAck(r));
    EchoAcksDistinct(n, rs);
    MatchingOnce(EchoAcks(n, rs), EchoAck(r));
  }

  /** A pending handoff addressed to the node is consumed by an answer with the generated acknowledgements. */
  lemma AcksConsume(h: Hasher, n: Node, o: Output, rs: seq<Record>, r: Record, stamp: string)
    requires UniqueRecordIds(rs) && r in rs && AddressedTo(n, r) && r.contract.target == n.id
    requires o.acks == EchoAcks(n, rs) && o.agent == n.agent && !Blank(AnswerId(n, o))
    ensures ResolveOne(h, n, o, r, stamp).status == CONSUMED
  {
    var to := Receiver(AnswerId(n, o), n.id, o.agent);
    EchoAckOnce(n, rs, r);
    EchoAckAccepted(r, to);
    ResolveOutcome(h, r, o.acks, to, stamp);
  }

  // ----- The invariant of echo runs -----

  /** A node is waiting, or has returned successfully with a named output. */
  predicate EchoPlace(s: State, id: string)
    requires id in s.phases
  {
    && (s.phases[id] == Idle || s.phases[id] == Queued || s.phases[id] == Done)
    && (id in s.states ==> s.states[id] == "SYNTHETIC" && id in s.outputs && s.outputs[id].outputId != "")
  }

  /** Whatever was handed to a node that has returned was consumed. */
  predicate EchoRecord(outputs: map<string, Output>, r: Record) {
    r.contract.target in outputs ==> r.status == CONSUMED
  }

  ghost predicate EchoSettled(s: State) {
    forall i :: 0 <= i < |s.handoffs| ==> EchoRecord(s.outputs, s.handoffs[i])
  }

  ghost predicate EchoPlaced(s: State) {
    forall id {:trigger EchoPlace(s, id)} :: id in s.phases ==> EchoPlace(s, id)
  }

  /** Dependencies of a node lie on strictly lower levels. */
  lemma DependencyBelow(c: Config, n: Node, k: nat, d: string) returns (m: Node, j: nat)
    requires WellFormed(c.graph) && AreLevels(c.graph.nodes, c.levels)
    requires k < |c.levels| && n in c.levels[k] && d in n.dependsOn
    ensures j < k && m in c.levels[j] && m.id == d && m in c.graph.nodes
  {
    var deps := DependencyMap(c.graph.nodes);
    assert AtLevel(c.graph.nodes, c.levels, n, k);
    FindUnique(c.graph.nodes, n);
    assert n.id in deps && deps[n.id] == n.dependsOn;
    assert d in deps;
    m := NodeOf(c, d);
    assert HasLevel(c.levels, m);
    j :| 0 <= j < |c.levels| && m in c.levels[j];
    assert AtLevel(c.graph.nodes, c.levels, m, j);
    var p :| IsChain(deps, p) && p[|p| - 1] == d && |p| == j + 1;
    ChainSnoc(deps, p, n.id);
    assert (p + [n.id])[|p + [n.id]| - 1] == n.id;
  }

  /** Dependencies of a node of the current level have returned. */
  lemma DependenciesReturned(c: Config, s: State, n: Node)
    requires WellFormed(c.graph) && AreLevels(c.graph.nodes, c.levels) && Placed(c, s) && Levelled(c, s)
    requires s.level < |c.levels| && n in c.levels[s.level]
    ensures forall d :: d in n.dependsOn ==> d in s.phases && d in s.states
  {
    forall d | d in n.dependsOn
      ensures d in s.phases && d in s.states
    {
      var m, j := DependencyBelow(c, n, s.level, d);
      assert m.id in WorkflowGraphs.Ids(c.graph.nodes);
      assert LevelPlace(c, s, j, m) && PlaceOf(c, s, m.id);
    }
  }

  lemma EchoDependenciesReady(c: Config, s: State, n: Node)
    requires WellFormed(c.graph) && AreLevels(c.graph.nodes, c.levels)
    requires Placed(c, s) && Levelled(c, s) && EchoPlaced(s)
    requires s.level < |c.levels| && n in c.levels[s.level]
    ensures forall d :: d in n.dependsOn ==> Successful(s.states, d)
  {
    DependenciesReturned(c, s, n);
    forall d | d in n.dependsOn
      ensures Successful(s.states, d)
    {
      assert EchoPlace(s, d);
    }
  }

  lemma {:induction false} IdsCount(nodes: seq<Node>)
    ensures |WorkflowGraphs.Ids(nodes)| <= |nodes|
  {
    if nodes != [] {
      IdsCount(nodes[1..]);
      assert WorkflowGraphs.Ids(nodes) == {nodes[0].id} + WorkflowGraphs.Ids(nodes[1..]);
    }
  }

  /** A node that has not started has a reservation left for every graph node. */
  lemma RoomForNode(c: Config, s: State, id: string)
    requires Placed(c, s) && Budgeted(c, s)
    requires id in s.phases && id !in s.started
    ensures s.usage.nodes + 1 <= |c.graph.nodes|
  {
    AppendDistinct(s.started, id);
    var all := s.started + [id];
    assert forall i :: 0 <= i < |all| ==> all[i] in s.phases.Keys;
    DistinctWithin(all, s.phases.Keys);
    IdsCount(c.graph.nodes);
  }

  lemma BeginStarts(c: Config, s: State, n: Node, elapsed: real)
    requires n.id in s.phases && s.phases[n.id] == Idle && CheckRuntime(c.limits, elapsed)
    requires s.usage.nodes + 1 <= c.limits.maxNodes && forall d :: d in n.dependsOn ==> Successful(s.states, d)
    ensures StartedBy(c, s, BeginNode(c, s, n, elapsed), n)
  {
  }

  /** In an undisturbed echo run a node that begins is never blocked. */
  lemma EchoBegins(c: Config, s: State, n: Node, elapsed: real)
    requires Prepared(c) && Invariant(c, s) && EchoPlaced(s) && CheckRuntime(c.limits, elapsed)
    requires n.id in s.phases && s.phases[n.id] == Idle && s.level < |c.levels| && n in c.levels[s.level]
    ensures StartedBy(c, s, BeginNode(c, s, n, elapsed), n)
  {
    EchoDependenciesReady(c, s, n);
    assert PlaceOf(c, s, n.id);
    RoomForNode(c, s, n.id);
    BeginStarts(c, s, n, elapsed);
  }

  lemma EchoAnswerNamed(c: Config, s: State, n: Node)
    ensures EchoAnswer(c, s, n).outputId != "" && !Blank(AnswerId(n, EchoAnswer(c, s, n)))
  {
    assert EchoAnswer(c, s, n).outputId[0] == 's';
  }

  lemma EchoPlacesFinish(c: Config, s: State, n: Node, stamp: string)
    requires EchoPlaced(s)
    ensures EchoPlaced(Echo(c, s, n, true, stamp))
  {
    var t := Echo(c, s, n, true, stamp);
    EchoAnswerNamed(c, s, n);
    forall id | id in t.phases
      ensures EchoPlace(t, id)
    {
      assert id in s.phases ==> EchoPlace(s, id);
    }
  }

  /** A node that answers every handoff addressed to it leaves no handoff to itself pending. */
  lemma RecordsFinish(
    c: Config, s: State, n: Node, o: Output, status: WorkflowEngine.Status, synthetic: bool, stamp: string)
    requires UniqueIds(c.graph.nodes) && n in c.graph.nodes && n.id !in s.outputs
    requires UniqueRecordIds(s.handoffs) && Settling(c, s) && EchoSettled(s)
    requires o.acks == EchoAcks(n, s.handoffs) && o.agent == n.agent && !Blank(AnswerId(n, o))
    ensures EchoSettled(Finish(c, s, n, o, status, synthetic, stamp))
  {
    var t := Finish(c, s, n, o, status, synthetic, stamp);
    forall i | 0 <= i < |t.handoffs|
      ensures EchoRecord(t.outputs, t.handoffs[i])
    {
      RecordFinishes(c, s, n, o, s.handoffs[i], i, stamp);
    }
  }

  lemma EchoFinishes(c: Config, s: State, n: Node, stamp: string)
    requires Prepared(c) && Invariant(c, s) && EchoPlaced(s) && EchoSettled(s)
    requires n in c.graph.nodes && Running(s, n.id)
    ensures EchoPlaced(Echo(c, s, n, true, stamp)) && EchoSettled(Echo(c, s, n, true, stamp))
  {
    HandoffIdsUnique(c, s);
    assert PlaceOf(c, s, n.id);
    EchoPlacesFinish(c, s, n, stamp);
    EchoAnswerNamed(c, s, n);
    RecordsFinish(c, s, n, EchoAnswer(c, s, n), WorkflowEngine.Status.Ok, true, stamp);
  }

  lemma RecordFinishes(c: Config, s: State, n: Node, o: Output, r: Record, i: nat, stamp: string)
    requires UniqueIds(c.graph.nodes) && n in c.graph.nodes && n.id !in s.outputs && UniqueRecordIds(s.handoffs)
    requires i < |s.handoffs| && s.handoffs[i] == r && RecordOk(c, s.outputs, r) && EchoRecord(s.outputs, r)
    requires o.acks == EchoAcks(n, s.handoffs) && o.agent == n.agent && !Blank(AnswerId(n, o))
    ensures EchoRecord(s.outputs[n.id := o], ResolveOne(c.hash, n, o, r, stamp))
  {
    FindUnique(c.graph.nodes, n);
    assert n.id in WorkflowGraphs.Ids(c.graph.nodes);
    if r.contract.target == n.id {
      assert AddressedTo(n, r) && r in s.handoffs;
      AcksConsume(c.hash, n, o, s.handoffs, r, stamp);
    } else {
      assert AddressedTo(n, r) ==> r.contract.target == "";
    }
  }

  ghost predicate EchoInvariant(c: Config, s: State) {
    Invariant(c, s) && EchoPlaced(s) && EchoSettled(s)
  }

  lemma EchoStarts(c: Config, s: State, t: State, n: Node)
    requires Placed(c, s) && EchoPlaced(s) && EchoSettled(s) && StartedBy(c, s, t, n)
    ensures EchoPlaced(t) && EchoSettled(t)
  {
    assert PlaceOf(c, s, n.id);
    forall id | id in t.phases
      ensures EchoPlace(t, id)
    {
      assert EchoPlace(s, id);
    }
    forall i | 0 <= i < |t.handoffs|
      ensures EchoRecord(t.outputs, t.handoffs[i])
    {
      if i >= |s.handoffs| {
        assert t.handoffs[i] == Pending(NodeContracts(c, n, s.outputs)[i - |s.handoffs|]);
      }
    }
  }

  lemma EchoAdvances(s: State, t: State)
    requires EchoPlaced(s) && EchoSettled(s) && t == s.(level := t.level)
    ensures EchoPlaced(t) && EchoSettled(t)
  {
    forall id | id in t.phases
      ensures EchoPlace(t, id)
    {
      assert EchoPlace(s, id);
    }
  }

  lemma EchoBeginStep(c: Config, s: State, id: string, elapsed: real)
    requires Prepared(c) && EchoInvariant(c, s) && CheckRuntime(c.limits, elapsed)
    requires KnownIn(c, s, id) && InLevel(c, s.level, id) && s.phases[id] == Idle
    ensures EchoPlaced(BeginNode(c, s, NodeOf(c, id), elapsed)) && EchoSettled(BeginNode(c, s, NodeOf(c, id), elapsed))
  {
    var n := NodeOf(c, id);
    var m :| m in c.levels[s.level] && m.id == id;
    assert AtLevel(c.graph.nodes, c.levels, m, s.level);
    FindUnique(c.graph.nodes, m);
    EchoBegins(c, s, n, elapsed);
    EchoStarts(c, s, BeginNode(c, s, n, elapsed), n);
  }

  /** The echo provider is never called and never awaited. */
  lemma EchoActions(c: Config, s: State, a: Action)
    requires c.echo && EchoPlaced(s) && Enabled(c, s, a)
    ensures a.NextLevel? || a.Begin? || a.RunEcho?
  {
    assert a != NextLevel ==> EchoPlace(s, a.id);
  }

  lemma EchoStep(c: Config, s: State, a: Action)
    requires Prepared(c) && c.echo && EchoInvariant(c, s) && Enabled(c, s, a) && Undisturbed(c, a)
    ensures EchoPlaced(Apply(c, s, a)) && EchoSettled(Apply(c, s, a))
  {
    EchoActions(c, s, a);
    if a.NextLevel? {
      EchoAdvances(s, Apply(c, s, a));
    } else if a.Begin? {
      assert Apply(c, s, a) == BeginNode(c, s, NodeOf(c, a.id), a.elapsed);
      EchoBeginStep(c, s, a.id, a.elapsed);
    } else {
      assert Apply(c, s, a) == Echo(c, s, NodeOf(c, a.id), true, a.stamp);
      EchoFinishes(c, s, NodeOf(c, a.id), a.stamp);
    }
  }

  lemma {:induction false} EchoAlways(c: Config, actions: seq<Action>)
    requires Prepared(c) && EchoRun(c, actions)
    ensures Run(c, actions).Some? ==> EchoInvariant(c, Run(c, actions).value)
  {
    if actions == [] {
      InvariantInit(c);
      var s := Init(c);
      forall id | id in s.phases
        ensures EchoPlace(s, id)
      {
      }
    } else {
      var init, last := actions[..|actions| - 1], actions[|actions| - 1];
      EchoAlways(c, init);
      if Run(c, actions).Some? {
        InvariantStep(c, Run(c, init).value, last);
        EchoStep(c, Run(c, init).value, last);
      }
    }
  }

  // ----- The verdict -----

  lemma EchoReturned(c: Config, s: State)
    requires Prepared(c) && EchoInvariant(c, s) && Returned(c, s)
    ensures forall n :: n in c.graph.nodes ==> Successful(s.states, n.id) && s.states[n.id] == "SYNTHETIC"
    ensures ReceiversNamed(c, s)
  {
    forall n | n in c.graph.nodes
      ensures Successful(s.states, n.id) && s.states[n.id] == "SYNTHETIC" && Stored(s.outputs, n.id).outputId != ""
    {
      assert n.id in WorkflowGraphs.Ids(c.graph.nodes);
      AllNodesReturn(c, s, n.id);
      assert EchoPlace(s, n.id);
    }
  }

  /** At the end a record is consumed unless it is a risk control without a target. */
  lemma RecordConsumed(c: Config, s: State, i: nat)
    requires Prepared(c) && Invariant(c, s) && EchoSettled(s) && i < |s.handoffs|
    requires forall n :: n in c.graph.nodes ==> n.id in s.outputs
    requires c.initial == [] || c.initial[0].contract.target != ""
    ensures s.handoffs[i].status == CONSUMED
  {
    assert EchoRecord(s.outputs, s.handoffs[i]);
    if i < |c.initial| {
      InitialRecord(c, s, i);
      assert exists n :: n in c.graph.nodes && n.agent == SCRUM;
      var m :| m in c.graph.nodes && m.agent == SCRUM && m.id == ScrumNode(c.graph.nodes);
    } else {
      var id, k := RecordSource(c, s, i);
      assert NodeOf(c, id).id == id;
    }
  }

  lemma SyntheticStatus(c: Config, s: State, toolFailures: bool, conflicts: bool)
    requires c.graph.deliverable in s.outputs && Successful(s.states, c.graph.deliverable)
    requires forall n :: n in c.graph.nodes ==> Successful(s.states, n.id)
    requires "SYNTHETIC" in s.states.Values
    ensures FinalStatus(c, s, toolFailures, conflicts) == "PARTIAL"
  {
  }

  lemma EchoStatus(c: Config, s: State, toolFailures: bool, conflicts: bool)
    requires Prepared(c) && EchoInvariant(c, s) && Returned(c, s)
    ensures FinalStatus(c, s, toolFailures, conflicts) == "PARTIAL"
  {
    EchoReturned(c, s);
    var d := NodeOf(c, c.graph.deliverable);
    SuccessHasOutput(c, s, d);
    assert s.states[d.id] in s.states.Values;
    SyntheticStatus(c, s, toolFailures, conflicts);
  }

  lemma EchoOutputsStored(c: Config, s: State)
    requires Prepared(c) && EchoInvariant(c, s) && Returned(c, s)
    ensures forall n :: n in c.graph.nodes ==> n.id in s.outputs
  {
    EchoReturned(c, s);
    NodesSucceeded(c, s);
    forall n | n in c.graph.nodes
      ensures n.id in s.outputs
    {
      assert NodeSucceeded(s, n.id);
    }
  }

  lemma AllRecordsConsumed(c: Config, s: State)
    requires Prepared(c) && Invariant(c, s) && EchoSettled(s)
    requires forall n :: n in c.graph.nodes ==> n.id in s.outputs
    requires c.initial == [] || c.initial[0].contract.target != ""
    ensures forall r :: r in s.handoffs ==> r.status == CONSUMED
  {
    forall i | 0 <= i < |s.handoffs|
      ensures s.handoffs[i].status == CONSUMED
    {
      RecordConsumed(c, s, i);
    }
  }

  lemma EchoDelivers(c: Config, s: State)
    requires Prepared(c) && EchoInvariant(c, s) && Returned(c, s)
    requires c.initial == [] || c.initial[0].contract.target != ""
    ensures FullyDelivered(c, s)
  {
    EchoReturned(c, s);
    EchoOutputsStored(c, s);
    AllRecordsConsumed(c, s);
    SuccessIsDelivered(c, s);
  }

  /** A risk control without a target stays pending until the audit, which then fails. */
  lemma UntargetedRiskFails(c: Config, s: State)
    requires Prepared(c) && Invariant(c, s) && c.initial != [] && c.initial[0].contract.target == ""
    ensures !FinalReport(c, s).pass
  {
    InitialRecord(c, s, 0);
    assert RecordOk(c, s.outputs, s.handoffs[0]);
    assert "" !in s.outputs;
    assert s.handoffs[0] in s.handoffs;
    PassMeansReconciled(c.hash, AuditContext(c, s), s.handoffs);
  }

  /** An undisturbed echo run that returns leaves every node SYNTHETIC and is reported PARTIAL; its
      generated acknowledgements consume every handoff and governance passes, exactly unless an open risk
      was escalated with no scrummaster node to receive it. */
  lemma EchoRunVerdict(c: Config, actions: seq<Action>, toolFailures: bool, conflicts: bool)
    requires Prepared(c) && EchoRun(c, actions) && Run(c, actions).Some? && Returned(c, Run(c, actions).value)
    ensures var s := Run(c, actions).value;
            && (forall n :: n in c.graph.nodes ==> n.id in s.states && s.states[n.id] == "SYNTHETIC")
            && FinalStatus(c, s, toolFailures, conflicts) == "PARTIAL"
            && (FinalReport(c, s).pass <==> c.initial == [] || c.initial[0].contract.target != "")
            && (FinalReport(c, s).pass ==> FullyDelivered(c, s))
  {
    var s := Run(c, actions).value;
    EchoAlways(c, actions);
    EchoReturned(c, s);
    EchoStatus(c, s, toolFailures, conflicts);
    if c.initial == [] || c.initial[0].contract.target != "" {
      EchoDelivers(c, s);
      DeliveredVerdict(c, s);
    } else {
      UntargetedRiskFails(c, s);
    }
  }

  // ----- Runs of the graphs the builders make -----

  /** Whatever the route, business type and open risks, limits of 12 nodes and depth 5 suffice for the
      run to be prepared; the escalated risk has a target exactly when the graph has a scrummaster. */
  lemma BuilderRunsArePrepared(base: Config, route: Route, businessType: string, risks: seq<string>, evidence: seq<string>)
    requires base.graph == BuildGraph(route, businessType) && base.initial == []
    requires ValidLimits(base.limits) && base.limits.maxNodes >= 12 && ProducesDigests(base.hash)
    requires AreLevels(base.graph.nodes, base.levels)
    ensures var c := Launch(base, route, risks, evidence);
            && Prepared(c)
            && (c.initial != [] ==>
                (c.initial[0].contract.target != "" <==> exists n :: n in c.graph.nodes && n.agent == SCRUM))
  {
    BuilderGraphsAreValid(route, businessType);
    LaunchIsPrepared(base, route, risks, evidence);
    RiskTarget(base);
  }
}
