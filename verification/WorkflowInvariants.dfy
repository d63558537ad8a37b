/** What every reachable state of a run satisfies, whatever the interleaving and the answers. */
module WorkflowInvariants {
  import opened Wrappers
  import opened Sorting
  import opened Text
  import opened Handoffs
  import opened AgentOutputs
  import opened WorkflowGraphs
  import opened GraphBuilder
  import opened HandoffGovernance
  import opened RunBudgets
  import opened WorkflowEngine

  function NodeOf(c: Config, id: string): (n: Node)
    requires id in WorkflowGraphs.Ids(c.graph.nodes)
    ensures n in c.graph.nodes && n.id == id
  {
    Find(c.graph.nodes, id)
  }

  // ----- Where each node is -----

  /** A node's phase, its RUNNING event, its state and its output agree. */
  predicate PlaceOf(c: Config, s: State, id: string)
    requires id in s.phases
  {
    && (id in s.states <==> s.phases[id] == Done)
    && (s.phases[id] == Idle ==> id !in s.started)
    && (s.phases[id].Queued? || s.phases[id].Active? || s.phases[id].Awaiting? ==> id in s.started)
    && (id in s.outputs <==> id in s.started && id in s.states)
    && (id in s.states && id !in s.outputs ==> s.states[id] == "BLOCKED")
    && (s.phases[id].Active? ==> s.phases[id].attempts <= c.limits.maxCorrections)
    && (s.phases[id].Awaiting? ==> 1 <= s.phases[id].attempts <= c.limits.maxCorrections + 1)
  }

  ghost predicate Placed(c: Config, s: State) {
    && s.phases.Keys == WorkflowGraphs.Ids(c.graph.nodes)
    && (forall id {:trigger PlaceOf(c, s, id)} :: id in s.phases ==> PlaceOf(c, s, id))
    && (forall id :: id in s.started ==> id in s.phases)
    && s.states.Keys <= s.phases.Keys && s.outputs.Keys <= s.phases.Keys
    && NoDuplicates(s.started)
    && NoDuplicates(s.order)
    && (forall id :: id in s.order <==> id in s.outputs)
  }

  lemma {:induction false} AppendDistinct<T>(xs: seq<T>, x: T)
    requires NoDuplicates(xs) && x !in xs
    ensures NoDuplicates(xs + [x])
  {
  }

  // ----- Steps, by what they do to the state -----

  predicate Running(s: State, id: string) {
    id in s.phases && (s.phases[id].Queued? || s.phases[id].Active? || s.phases[id].Awaiting?)
  }

  /** A step that only moves the correction loop of one running node. */
  ghost predicate Turned(c: Config, s: State, t: State, id: string) {
    && Running(s, id) && id in t.phases
    && t == s.(phases := s.phases[id := t.phases[id]], usage := t.usage, modelCalls := t.modelCalls)
    && (t.phases[id].Active? || (t.phases[id].Awaiting? && s.phases[id].Active?))
    && (t.phases[id].Active? ==> t.phases[id].attempts <= c.limits.maxCorrections)
    && (t.phases[id].Awaiting? ==> t.phases[id].attempts == s.phases[id].attempts + 1)
  }

  ghost predicate FinishedWith(c: Config, s: State, t: State, n: Node, o: Output) {
    && Running(s, n.id)
    && o.agent == n.agent
    && exists status, synthetic, stamp :: t == Finish(c, s, n, o, status, synthetic, stamp)
  }

  ghost predicate StartedBy(c: Config, s: State, t: State, n: Node) {
    && n.id in s.phases && s.phases[n.id] == Idle
    && (forall d :: d in n.dependsOn ==> Successful(s.states, d))
    && t == s.(usage := t.usage, started := s.started + [n.id], phases := s.phases[n.id := Queued],
               handoffs := s.handoffs + AllPending(NodeContracts(c, n, s.outputs)))
  }

  ghost predicate BlockedBy(s: State, t: State, id: string) {
    id in s.phases && s.phases[id] == Idle && t == Blocked(s, id)
  }

  /** Every action is one of five changes to one node, or the barrier. */
  lemma StepKinds(c: Config, s: State, a: Action)
    requires Enabled(c, s, a)
    ensures var t := Apply(c, s, a);
            || (a == NextLevel && t == s.(level := s.level + 1))
            || (a != NextLevel && a.id in WorkflowGraphs.Ids(c.graph.nodes)
                && var n := NodeOf(c, a.id);
                   || (BlockedBy(s, t, a.id) && InLevel(c, s.level, a.id))
                   || (StartedBy(c, s, t, n) && InLevel(c, s.level, a.id))
                   || Turned(c, s, t, a.id)
                   || exists o :: FinishedWith(c, s, t, n, o))
  {
    var t := Apply(c, s, a);
    if a != NextLevel {
      var n := NodeOf(c, a.id);
      match a
      case Begin(id, elapsed) =>
      case Acquire(id) =>
      case CallModel(id, elapsed, quote) =>
        if ReserveCall(c.limits, s.usage, elapsed, s.phases[id].attempts > 0, quote).Err? {
          var o := FailureOutput(c.session, n.agent, "BLOCKED");
          assert t == Finish(c, s, n, o, Refused, false, "");
          assert FinishedWith(c, s, t, n, o);
        } else {
          assert Turned(c, s, t, id);
        }
      case Answer(id, reply, stamp) =>
        if reply.Accepted? {
          assert t == Finish(c, s, n, reply.output, Status.Ok, false, stamp);
          assert FinishedWith(c, s, t, n, reply.output);
        } else if s.phases[id].attempts > c.limits.maxCorrections {
          var o := FailureOutput(c.session, n.agent, "FAILED");
          assert t == Finish(c, s, n, o, Failed, false, stamp);
          assert FinishedWith(c, s, t, n, o);
        } else {
          assert Turned(c, s, t, id);
        }
      case RunEcho(id, valid, stamp) =>
        var o := if valid then EchoAnswer(c, s, n) else FailureOutput(c.session, n.agent, "FAILED");
        assert t == Finish(c, s, n, o, if valid then Status.Ok else Failed, true, stamp);
        assert FinishedWith(c, s, t, n, o);
    }
  }

  // ----- Places -----

  lemma PlacedTurned(c: Config, s: State, t: State, id: string)
    requires Placed(c, s) && Turned(c, s, t, id)
    ensures Placed(c, t)
  {
    forall x | x in t.phases
      ensures PlaceOf(c, t, x)
    {
      assert PlaceOf(c, s, x);
    }
  }

  lemma PlacedBlocked(c: Config, s: State, t: State, id: string)
    requires Placed(c, s) && BlockedBy(s, t, id)
    ensures Placed(c, t)
  {
    assert PlaceOf(c, s, id);
    forall x | x in t.phases
      ensures PlaceOf(c, t, x)
    {
      assert PlaceOf(c, s, x);
    }
  }

  lemma PlacedStarted(c: Config, s: State, t: State, n: Node)
    requires Placed(c, s) && StartedBy(c, s, t, n)
    ensures Placed(c, t)
  {
    assert PlaceOf(c, s, n.id);
    AppendDistinct(s.started, n.id);
    forall x | x in t.phases
      ensures PlaceOf(c, t, x)
    {
      assert PlaceOf(c, s, x);
    }
  }

  lemma PlacedFinished(c: Config, s: State, t: State, n: Node, o: Output)
    requires Placed(c, s) && FinishedWith(c, s, t, n, o)
    ensures Placed(c, t)
  {
    assert PlaceOf(c, s, n.id);
    AppendDistinct(s.order, n.id);
    forall x | x in t.phases
      ensures PlaceOf(c, t, x)
    {
      assert PlaceOf(c, s, x);
    }
  }

  // ----- Dependencies -----

  /** All inputs of a started node are stored, successful outputs. */
  predicate FedNode(c: Config, s: State, id: string)
    requires id in WorkflowGraphs.Ids(c.graph.nodes)
  {
    forall d :: d in NodeOf(c, id).dependsOn ==> d in s.outputs && Successful(s.states, d)
  }

  ghost predicate Fed(c: Config, s: State) {
    && (forall id {:trigger FedNode(c, s, id)} ::
          id in s.started && id in WorkflowGraphs.Ids(c.graph.nodes) ==> FedNode(c, s, id))
    && (forall id :: id in s.outputs && id in WorkflowGraphs.Ids(c.graph.nodes) ==> s.outputs[id].agent == NodeOf(c, id).agent)
  }

  lemma FedBlocked(c: Config, s: State, t: State, id: string)
    requires Placed(c, s) && Fed(c, s) && BlockedBy(s, t, id)
    ensures Fed(c, t)
  {
    assert PlaceOf(c, s, id);
    forall x | x in t.started && x in WorkflowGraphs.Ids(c.graph.nodes)
      ensures FedNode(c, t, x)
    {
      assert FedNode(c, s, x);
    }
  }

  lemma FedStarted(c: Config, s: State, t: State, n: Node)
    requires UniqueIds(c.graph.nodes) && Placed(c, s) && Fed(c, s) && n in c.graph.nodes && StartedBy(c, s, t, n)
    ensures Fed(c, t)
  {
    FindUnique(c.graph.nodes, n);
    forall x | x in t.started && x in WorkflowGraphs.Ids(c.graph.nodes)
      ensures FedNode(c, t, x)
    {
      if x == n.id {
        forall d | d in n.dependsOn
          ensures d in t.outputs
        {
          assert PlaceOf(c, s, d);
        }
      } else {
        assert FedNode(c, s, x);
      }
    }
  }

  lemma FedFinished(c: Config, s: State, t: State, n: Node, o: Output)
    requires UniqueIds(c.graph.nodes) && Placed(c, s) && Fed(c, s) && n in c.graph.nodes && FinishedWith(c, s, t, n, o)
    ensures Fed(c, t)
  {
    FindUnique(c.graph.nodes, n);
    assert PlaceOf(c, s, n.id);
    forall x | x in t.started && x in WorkflowGraphs.Ids(c.graph.nodes)
      ensures FedNode(c, t, x)
    {
      assert FedNode(c, s, x);
    }
  }

  // ----- The handoffs created -----

  function ContractsOf(rs: seq<Record>): (cs: seq<Contract>)
    ensures |cs| == |rs| && forall i :: 0 <= i < |rs| ==> cs[i] == rs[i].contract
  {
    seq(|rs|, i requires 0 <= i < |rs| => rs[i].contract)
  }

  /** The contracts created for the started nodes, in the order they started. */
  function StartedContracts(c: Config, started: seq<string>, outputs: map<string, Output>): seq<Contract> {
    if started == [] then []
    else
      var last := started[|started| - 1];
      StartedContracts(c, started[..|started| - 1], outputs)
      + if last in WorkflowGraphs.Ids(c.graph.nodes) then NodeContracts(c, NodeOf(c, last), outputs) else []
  }

  /** The session holds the initial handoffs and then one per input of every started node. */
  ghost predicate Booked(c: Config, s: State) {
    ContractsOf(s.handoffs) == ContractsOf(c.initial) + StartedContracts(c, s.started, s.outputs)
  }

  lemma {:induction false} ContractsStable(
    c: Config, started: seq<string>, before: map<string, Output>, after: map<string, Output>)
    requires forall id, d :: id in started && id in WorkflowGraphs.Ids(c.graph.nodes) && d in NodeOf(c, id).dependsOn ==>
               d in before && d in after && after[d] == before[d]
    ensures StartedContracts(c, started, before) == StartedContracts(c, started, after)
  {
    if started != [] {
      var init, last := started[..|started| - 1], started[|started| - 1];
      ContractsStable(c, init, before, after);
      if last in WorkflowGraphs.Ids(c.graph.nodes) {
        var n := NodeOf(c, last);
        assert forall i :: 0 <= i < |n.dependsOn| ==> n.dependsOn[i] in n.dependsOn;
        assert NodeContracts(c, n, before) == NodeContracts(c, n, after);
      }
    }
  }

  lemma ContractsAppend(rs: seq<Record>, cs: seq<Contract>)
    ensures ContractsOf(rs + AllPending(cs)) == ContractsOf(rs) + cs
  {
  }

  lemma StartedSnoc(c: Config, started: seq<string>, n: Node, outputs: map<string, Output>)
    requires UniqueIds(c.graph.nodes) && n in c.graph.nodes
    ensures StartedContracts(c, started + [n.id], outputs) == StartedContracts(c, started, outputs) + NodeContracts(c, n, outputs)
  {
    FindUnique(c.graph.nodes, n);
    assert (started + [n.id])[..|started|] == started;
  }

  lemma BookedStarted(c: Config, s: State, t: State, n: Node)
    requires UniqueIds(c.graph.nodes) && n in c.graph.nodes && Booked(c, s) && StartedBy(c, s, t, n)
    ensures Booked(c, t)
  {
    StartedSnoc(c, s.started, n, s.outputs);
    ContractsAppend(s.handoffs, NodeContracts(c, n, s.outputs));
  }

  lemma ResolveKeepsContracts(h: Hasher, n: Node, o: Output, rs: seq<Record>, stamp: string)
    ensures ContractsOf(ResolveAll(h, n, o, rs, stamp)) == ContractsOf(rs)
  {
    forall i | 0 <= i < |rs|
      ensures ResolveOne(h, n, o, rs[i], stamp).contract == rs[i].contract
    {
    }
  }

  lemma BookedFinished(c: Config, s: State, t: State, n: Node, o: Output)
    requires n.id !in s.outputs && Fed(c, s) && Booked(c, s) && FinishedWith(c, s, t, n, o)
    ensures Booked(c, t)
  {
    var status, synthetic, stamp :| t == Finish(c, s, n, o, status, synthetic, stamp);
    ResolveKeepsContracts(c.hash, n, o, s.handoffs, stamp);
    forall id, d | id in s.started && id in WorkflowGraphs.Ids(c.graph.nodes) && d in NodeOf(c, id).dependsOn
      ensures d in s.outputs && d in t.outputs && t.outputs[d] == s.outputs[d]
    {
      assert FedNode(c, s, id);
    }
    ContractsStable(c, s.started, s.outputs, t.outputs);
  }

  // ----- The lifecycle of each handoff -----

  /** How a consumed handoff is bound to the output its target node stored. */
  predicate ConsumedBy(c: Config, outputs: map<string, Output>, r: Record) {
    var t := r.contract.target;
    && t in outputs && t in WorkflowGraphs.Ids(c.graph.nodes)
    && r.receivingNode == t
    && r.receivingOutput == AnswerId(NodeOf(c, t), outputs[t]) && !Blank(r.receivingOutput)
    && outputs[t].agent == r.contract.toAgent
    && (r.resolution == "ACCEPTED" ==> r.contract.evidenceRefs != [])
    && ReceiptValid(c.hash, r)
  }

  predicate RecordOk(c: Config, outputs: map<string, Output>, r: Record) {
    var t := r.contract.target;
    && (r.status == CREATED || r.status == CONSUMED || r.status == BLOCKED)
    && (r.status == CREATED ==> r == Pending(r.contract))
    && (t !in outputs ==> r.status == CREATED)
    && (t == "" ==> forall n :: n in c.graph.nodes ==> n.agent != r.contract.toAgent)
    && (t in WorkflowGraphs.Ids(c.graph.nodes) ==> NodeOf(c, t).agent == r.contract.toAgent)
    && (r.status == CONSUMED ==> ConsumedBy(c, outputs, r))
    && (r.status == BLOCKED ==> r.resolution == "UNRESOLVED" && ReceiptValid(c.hash, r))
  }

  ghost predicate Settling(c: Config, s: State) {
    forall i :: 0 <= i < |s.handoffs| ==> RecordOk(c, s.outputs, s.handoffs[i])
  }

  lemma RecordFinished(c: Config, outputs: map<string, Output>, r: Record, n: Node, o: Output, stamp: string)
    requires ProducesDigests(c.hash) && UniqueIds(c.graph.nodes) && n in c.graph.nodes && n.id != ""
    requires n.id !in outputs && o.agent == n.agent && RecordOk(c, outputs, r)
    ensures RecordOk(c, outputs[n.id := o], ResolveOne(c.hash, n, o, r, stamp))
  {
    FindUnique(c.graph.nodes, n);
    if AddressedTo(n, r) {
      assert r.contract.target == n.id;
      ResolveShape(c.hash, r, o.acks, Receiver(AnswerId(n, o), n.id, o.agent), stamp);
    }
  }

  lemma SettlingFinished(c: Config, s: State, t: State, n: Node, o: Output)
    requires ProducesDigests(c.hash) && UniqueIds(c.graph.nodes) && n in c.graph.nodes && n.id != ""
    requires Placed(c, s) && Settling(c, s) && FinishedWith(c, s, t, n, o)
    ensures Settling(c, t)
  {
    assert PlaceOf(c, s, n.id);
    var status, synthetic, stamp :| t == Finish(c, s, n, o, status, synthetic, stamp);
    forall i | 0 <= i < |t.handoffs|
      ensures RecordOk(c, t.outputs, t.handoffs[i])
    {
      RecordFinished(c, s.outputs, s.handoffs[i], n, o, stamp);
    }
  }

  lemma NewRecordOk(c: Config, outputs: map<string, Output>, n: Node, i: nat)
    requires UniqueIds(c.graph.nodes) && n in c.graph.nodes && n.id != "" && n.id !in outputs && i < |n.dependsOn|
    ensures RecordOk(c, outputs, Pending(InputContract(c, n, outputs, i)))
  {
    FindUnique(c.graph.nodes, n);
  }

  lemma SettlingStarted(c: Config, s: State, t: State, n: Node)
    requires UniqueIds(c.graph.nodes) && n in c.graph.nodes && n.id != ""
    requires Placed(c, s) && Settling(c, s) && StartedBy(c, s, t, n)
    ensures Settling(c, t)
  {
    assert PlaceOf(c, s, n.id);
    forall i | 0 <= i < |t.handoffs|
      ensures RecordOk(c, t.outputs, t.handoffs[i])
    {
      if i >= |s.handoffs| {
        NewRecordOk(c, s.outputs, n, i - |s.handoffs|);
      }
    }
  }

  // ----- The budget -----

  /** Counters agree with what happened and respect the limits. */
  predicate Budgeted(c: Config, s: State) {
    && s.usage.nodes == |s.started| <= c.limits.maxNodes
    && s.usage.calls == s.modelCalls <= c.limits.maxCalls
    && s.usage.corrections <= c.limits.maxCorrections
    && (c.limits.maxCost.Some? ==> s.usage.cost.Some? && s.usage.cost.value <= c.limits.maxCost.value)
  }

  lemma BudgetedStep(c: Config, s: State, a: Action)
    requires Enabled(c, s, a) && Budgeted(c, s)
    ensures Budgeted(c, Apply(c, s, a))
  {
    match a
    case CallModel(id, elapsed, quote) =>
      BudgetedCall(c, s, NodeOf(c, id), s.phases[id].attempts, elapsed, quote);
    case _ =>
  }

  lemma BudgetedCall(c: Config, s: State, n: Node, attempts: nat, elapsed: real, quote: Quote)
    requires Budgeted(c, s)
    ensures Budgeted(c, CallOnce(c, s, n, attempts, elapsed, quote))
  {
  }

  // ----- The barrier -----

  /** Nodes below the current level have returned; nodes above it have not begun. */
  predicate LevelPlace(c: Config, s: State, k: nat, n: Node)
    requires k < |c.levels| && n.id in s.phases
  {
    (k < s.level ==> s.phases[n.id] == Done) && (k > s.level ==> s.phases[n.id] == Idle)
  }

  ghost predicate Levelled(c: Config, s: State) {
    && s.level <= |c.levels|
    && forall k, n {:trigger LevelPlace(c, s, k, n)} ::
         0 <= k < |c.levels| && n in c.levels[k] && n.id in s.phases ==> LevelPlace(c, s, k, n)
  }

  lemma LevelsDisjoint(c: Config, j: nat, k: nat, m: Node, n: Node)
    requires AreLevels(c.graph.nodes, c.levels) && j < |c.levels| && k < |c.levels|
    requires m in c.levels[j] && n in c.levels[k] && m.id == n.id
    ensures j == k
  {
    assert AtLevel(c.graph.nodes, c.levels, m, j) && AtLevel(c.graph.nodes, c.levels, n, k);
  }

  lemma LevelledNext(c: Config, s: State)
    requires Levelled(c, s) && LevelDone(c, s)
    ensures Levelled(c, s.(level := s.level + 1))
  {
    var t := s.(level := s.level + 1);
    forall k, n | 0 <= k < |c.levels| && n in c.levels[k] && n.id in t.phases
      ensures LevelPlace(c, t, k, n)
    {
      assert LevelPlace(c, s, k, n);
    }
  }

  /** A step at a node of the current level. */
  lemma LevelledMove(c: Config, s: State, t: State, id: string)
    requires AreLevels(c.graph.nodes, c.levels) && Levelled(c, s)
    requires t.level == s.level && id in s.phases && id in t.phases
    requires t.phases == s.phases[id := t.phases[id]]
    requires s.phases[id] != Done && (s.phases[id] == Idle ==> InLevel(c, s.level, id))
    ensures Levelled(c, t)
  {
    forall k, n | 0 <= k < |c.levels| && n in c.levels[k] && n.id in t.phases
      ensures LevelPlace(c, t, k, n)
    {
      assert LevelPlace(c, s, k, n);
      if n.id == id && s.phases[id] == Idle {
        var m :| m in c.levels[s.level] && m.id == id;
        LevelsDisjoint(c, s.level, k, m, n);
      }
    }
  }

  // ----- All of it, in every reachable state -----

  ghost predicate Invariant(c: Config, s: State) {
    Placed(c, s) && Fed(c, s) && Booked(c, s) && Settling(c, s) && Budgeted(c, s) && Levelled(c, s)
  }

  /** The part of `Prepared` the step proofs use. */
  ghost predicate Grounded(c: Config) {
    && UniqueIds(c.graph.nodes) && "" !in WorkflowGraphs.Ids(c.graph.nodes)
    && AreLevels(c.graph.nodes, c.levels) && ProducesDigests(c.hash)
  }

  /** The risk control addresses a scrummaster node, or there is none. */
  lemma RiskTarget(c: Config)
    requires "" !in WorkflowGraphs.Ids(c.graph.nodes)
    ensures ScrumNode(c.graph.nodes) == "" ==> forall n :: n in c.graph.nodes ==> n.agent != SCRUM
    ensures ScrumNode(c.graph.nodes) in WorkflowGraphs.Ids(c.graph.nodes) && UniqueIds(c.graph.nodes) ==>
              NodeOf(c, ScrumNode(c.graph.nodes)).agent == SCRUM
  {
    if ScrumNode(c.graph.nodes) in WorkflowGraphs.Ids(c.graph.nodes) && UniqueIds(c.graph.nodes) {
      var m :| m in c.graph.nodes && m.agent == SCRUM && m.id == ScrumNode(c.graph.nodes);
      FindUnique(c.graph.nodes, m);
    }
    if n :| n in c.graph.nodes && n.agent == SCRUM {
      var m :| m in c.graph.nodes && m.agent == SCRUM && m.id == ScrumNode(c.graph.nodes);
      assert m.id in WorkflowGraphs.Ids(c.graph.nodes);
    }
  }

  lemma InitialRecordsOk(c: Config)
    requires "" !in WorkflowGraphs.Ids(c.graph.nodes) && UniqueIds(c.graph.nodes)
    requires c.initial == [] || RiskDeclared(c)
    ensures forall i :: 0 <= i < |c.initial| ==> RecordOk(c, map[], c.initial[i])
  {
    RiskTarget(c);
  }

  lemma InvariantInit(c: Config)
    requires Prepared(c)
    ensures Invariant(c, Init(c))
  {
    var s := Init(c);
    assert Placed(c, s) by {
      forall id | id in s.phases
        ensures PlaceOf(c, s, id)
      {
      }
    }
    assert Levelled(c, s) by {
      forall k, n | 0 <= k < |c.levels| && n in c.levels[k] && n.id in s.phases
        ensures LevelPlace(c, s, k, n)
      {
      }
    }
    assert Booked(c, s) by {
      assert ContractsOf(s.handoffs) == ContractsOf(c.initial) + [];
    }
    assert Settling(c, s) by {
      InitialRecordsOk(c);
    }
  }

  lemma InvariantNext(c: Config, s: State)
    requires Invariant(c, s) && LevelDone(c, s)
    ensures Invariant(c, s.(level := s.level + 1))
  {
    var t := s.(level := s.level + 1);
    LevelledNext(c, s);
    forall id | id in t.phases
      ensures PlaceOf(c, t, id)
    {
      assert PlaceOf(c, s, id);
    }
    forall id | id in t.started && id in WorkflowGraphs.Ids(c.graph.nodes)
      ensures FedNode(c, t, id)
    {
      assert FedNode(c, s, id);
    }
  }

  lemma InvariantTurned(c: Config, s: State, t: State, id: string)
    requires Grounded(c) && Invariant(c, s) && Budgeted(c, t) && Turned(c, s, t, id)
    ensures Invariant(c, t)
  {
    PlacedTurned(c, s, t, id);
    LevelledMove(c, s, t, id);
    forall x | x in t.started && x in WorkflowGraphs.Ids(c.graph.nodes)
      ensures FedNode(c, t, x)
    {
      assert FedNode(c, s, x);
    }
  }

  lemma InvariantBlocked(c: Config, s: State, t: State, id: string)
    requires Grounded(c) && Invariant(c, s) && Budgeted(c, t) && BlockedBy(s, t, id) && InLevel(c, s.level, id)
    ensures Invariant(c, t)
  {
    PlacedBlocked(c, s, t, id);
    FedBlocked(c, s, t, id);
    LevelledMove(c, s, t, id);
  }

  lemma InvariantStarted(c: Config, s: State, t: State, n: Node)
    requires Grounded(c) && Invariant(c, s) && Budgeted(c, t) && n in c.graph.nodes
    requires StartedBy(c, s, t, n) && InLevel(c, s.level, n.id)
    ensures Invariant(c, t)
  {
    PlacedStarted(c, s, t, n);
    FedStarted(c, s, t, n);
    BookedStarted(c, s, t, n);
    assert n.id != "" by { assert n.id in WorkflowGraphs.Ids(c.graph.nodes); }
    SettlingStarted(c, s, t, n);
    LevelledMove(c, s, t, n.id);
  }

  lemma InvariantFinished(c: Config, s: State, t: State, n: Node, o: Output)
    requires Grounded(c) && Invariant(c, s) && Budgeted(c, t) && n in c.graph.nodes && FinishedWith(c, s, t, n, o)
    ensures Invariant(c, t)
  {
    PlacedFinished(c, s, t, n, o);
    FedFinished(c, s, t, n, o);
    assert PlaceOf(c, s, n.id);
    BookedFinished(c, s, t, n, o);
    assert n.id != "" by { assert n.id in WorkflowGraphs.Ids(c.graph.nodes); }
    SettlingFinished(c, s, t, n, o);
    LevelledMove(c, s, t, n.id);
  }

  lemma InvariantStep(c: Config, s: State, a: Action)
    requires Grounded(c) && Invariant(c, s) && Enabled(c, s, a)
    ensures Invariant(c, Apply(c, s, a))
  {
    var t := Apply(c, s, a);
    BudgetedStep(c, s, a);
    StepKinds(c, s, a);
    if a == NextLevel {
      InvariantNext(c, s);
    } else {
      var n := NodeOf(c, a.id);
      if BlockedBy(s, t, a.id) {
        InvariantBlocked(c, s, t, a.id);
      } else if StartedBy(c, s, t, n) {
        InvariantStarted(c, s, t, n);
      } else if Turned(c, s, t, a.id) {
        InvariantTurned(c, s, t, a.id);
      } else {
        var o :| FinishedWith(c, s, t, n, o);
        InvariantFinished(c, s, t, n, o);
      }
    }
  }

  /** Every state reached by any sequence of actions satisfies the invariant. */
  lemma {:induction false} InvariantAlways(c: Config, actions: seq<Action>)
    requires Prepared(c)
    ensures Run(c, actions).Some? ==> Invariant(c, Run(c, actions).value)
  {
    if actions == [] {
      InvariantInit(c);
    } else {
      var init, last := actions[..|actions| - 1], actions[|actions| - 1];
      InvariantAlways(c, init);
      if Run(c, actions).Some? {
        InvariantStep(c, Run(c, init).value, last);
      }
    }
  }
}
