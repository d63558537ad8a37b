/** What a workflow run guarantees when it returns. */
module WorkflowTheorems {
  import opened Wrappers
  import opened Sorting
  import opened Text
  import opened Handoffs
  import opened AgentOutputs
  import opened WorkflowGraphs
  import opened GraphBuilder
  import opened HandoffGovernance
  import opened HandoffReconciliation
  import opened RunBudgets
  import opened WorkflowEngine
  import opened WorkflowInvariants

  // ----- Handoff identifiers -----

  lemma EdgeIdInjective(session: string, a: string, i: nat, b: string, j: nat)
    requires i > 0 && j > 0 && EdgeId(session, a, i) == EdgeId(session, b, j)
    ensures a == b && i == j
  {
    var x, y := session + "-" + a + "-handoff", session + "-" + b + "-handoff";
    assert EdgeId(session, a, i) == x + ['-'] + Padded(i);
    assert EdgeId(session, b, j) == y + ['-'] + Padded(j);
    SplitAtLastSeparator(x, Padded(i), y, Padded(j), '-');
    PaddedInjective(i, j);
    var k := |session| + 1;
    assert a == x[k..|x| - 8] && b == y[k..|y| - 8];
  }

  lemma RiskIsNoEdge(session: string, a: string, i: nat)
    ensures EdgeId(session, a, i) != RiskId(session)
  {
    var x, y := session + "-" + a + "-handoff", session + "-risk-escalation";
    assert EdgeId(session, a, i) == x + ['-'] + Padded(i);
    assert RiskId(session) == y + ['-'] + "001";
    assert x[|x| - 1] == 'f' && y[|y| - 1] == 'n';
    if EdgeId(session, a, i) == RiskId(session) {
      SplitAtLastSeparator(x, Padded(i), y, "001", '-');
    }
  }

  // ----- Which handoffs exist -----

  /** `ct` was created for the `i`-th input of the started node `id`. */
  predicate CreatedFor(c: Config, s: State, ct: Contract, id: string, i: nat) {
    && id in s.started && id in WorkflowGraphs.Ids(c.graph.nodes)
    && i < |NodeOf(c, id).dependsOn|
    && ct == InputContract(c, NodeOf(c, id), s.outputs, i)
  }

  lemma {:induction false} StartedContractSource(c: Config, started: seq<string>, outputs: map<string, Output>, k: nat)
    returns (id: string, i: nat)
    requires k < |StartedContracts(c, started, outputs)|
    ensures id in started && id in WorkflowGraphs.Ids(c.graph.nodes) && i < |NodeOf(c, id).dependsOn|
    ensures StartedContracts(c, started, outputs)[k] == InputContract(c, NodeOf(c, id), outputs, i)
  {
    var init, last := started[..|started| - 1], started[|started| - 1];
    var before := StartedContracts(c, init, outputs);
    if k < |before| {
      id, i := StartedContractSource(c, init, outputs, k);
    } else {
      id, i := last, k - |before|;
    }
  }

  lemma {:induction false} StartedContractListed(c: Config, started: seq<string>, outputs: map<string, Output>, id: string, i: nat)
    returns (k: nat)
    requires id in started && id in WorkflowGraphs.Ids(c.graph.nodes) && i < |NodeOf(c, id).dependsOn|
    ensures k < |StartedContracts(c, started, outputs)|
    ensures StartedContracts(c, started, outputs)[k] == InputContract(c, NodeOf(c, id), outputs, i)
  {
    var init, last := started[..|started| - 1], started[|started| - 1];
    var before := StartedContracts(c, init, outputs);
    if last == id {
      k := |before| + i;
    } else {
      k := StartedContractListed(c, init, outputs, id, i);
    }
  }

  lemma EarlierNodeDistinct(
    c: Config, started: seq<string>, outputs: map<string, Output>, j: nat, n: Node, i: nat)
    requires j < |StartedContracts(c, started, outputs)| && n.id !in started && i < |n.dependsOn|
    ensures StartedContracts(c, started, outputs)[j].id != InputContract(c, n, outputs, i).id
  {
    var id, k := StartedContractSource(c, started, outputs, j);
    DistinctEdgeIds(c.session, id, k + 1, n.id, i + 1);
  }

  lemma SameNodeDistinct(c: Config, outputs: map<string, Output>, n: Node, i: nat, j: nat)
    requires i < j < |n.dependsOn|
    ensures InputContract(c, n, outputs, i).id != InputContract(c, n, outputs, j).id
  {
    DistinctEdgeIds(c.session, n.id, i + 1, n.id, j + 1);
  }

  ghost predicate DistinctIds(cs: seq<Contract>) {
    forall j, k :: 0 <= j < k < |cs| ==> cs[j].id != cs[k].id
  }

  lemma DistinctConcat(xs: seq<Contract>, ys: seq<Contract>)
    requires DistinctIds(xs) && DistinctIds(ys)
    requires forall j, k :: 0 <= j < |xs| && 0 <= k < |ys| ==> xs[j].id != ys[k].id
    ensures DistinctIds(xs + ys)
  {
  }

  lemma {:induction false} StartedContractsDistinct(c: Config, started: seq<string>, outputs: map<string, Output>)
    requires NoDuplicates(started)
    ensures DistinctIds(StartedContracts(c, started, outputs))
  {
    if started != [] {
      var init, last := started[..|started| - 1], started[|started| - 1];
      StartedContractsDistinct(c, init, outputs);
      if last in WorkflowGraphs.Ids(c.graph.nodes) {
        var n := NodeOf(c, last);
        var before, added := StartedContracts(c, init, outputs), NodeContracts(c, n, outputs);
        forall j, k | 0 <= j < |before| && 0 <= k < |added|
          ensures before[j].id != added[k].id
        {
          EarlierNodeDistinct(c, init, outputs, j, n, k);
        }
        forall j, k | 0 <= j < k < |added|
          ensures added[j].id != added[k].id
        {
          SameNodeDistinct(c, outputs, n, j, k);
        }
        DistinctConcat(before, added);
      }
    }
  }

  lemma DistinctEdgeIds(session: string, a: string, i: nat, b: string, j: nat)
    requires i > 0 && j > 0 && (a != b || i != j)
    ensures EdgeId(session, a, i) != EdgeId(session, b, j)
  {
    if EdgeId(session, a, i) == EdgeId(session, b, j) {
      EdgeIdInjective(session, a, i, b, j);
    }
  }

  /** Every record is the risk control or an input of a started node. */
  lemma RecordSource(c: Config, s: State, k: nat) returns (id: string, i: nat)
    requires Booked(c, s) && |c.initial| <= k < |s.handoffs|
    ensures CreatedFor(c, s, s.handoffs[k].contract, id, i)
  {
    assert ContractsOf(s.handoffs)[k] == StartedContracts(c, s.started, s.outputs)[k - |c.initial|];
    id, i := StartedContractSource(c, s.started, s.outputs, k - |c.initial|);
  }

  /** Every input of a started node has its record. */
  lemma RecordListed(c: Config, s: State, id: string, i: nat) returns (r: Record)
    requires Booked(c, s) && id in s.started && id in WorkflowGraphs.Ids(c.graph.nodes) && i < |NodeOf(c, id).dependsOn|
    ensures r in s.handoffs && r.contract == InputContract(c, NodeOf(c, id), s.outputs, i)
  {
    var k := StartedContractListed(c, s.started, s.outputs, id, i);
    r := s.handoffs[|c.initial| + k];
    assert ContractsOf(s.handoffs)[|c.initial| + k] == StartedContracts(c, s.started, s.outputs)[k];
  }

  lemma InitialRecord(c: Config, s: State, k: nat)
    requires Booked(c, s) && k < |c.initial| && RiskDeclared(c)
    ensures k == 0 && |s.handoffs| > 0 && s.handoffs[0].contract == c.initial[0].contract
  {
    assert ContractsOf(s.handoffs)[0] == ContractsOf(c.initial)[0];
  }

  lemma RecordPairDistinct(c: Config, s: State, j: nat, k: nat)
    requires Booked(c, s) && NoDuplicates(s.started) && (c.initial == [] || RiskDeclared(c))
    requires j < k < |s.handoffs|
    ensures s.handoffs[j].contract.id != s.handoffs[k].contract.id
  {
    var n := |c.initial|;
    if j < n {
      var id, i := RecordSource(c, s, k);
      InitialRecord(c, s, j);
      RiskIsNoEdge(c.session, id, i + 1);
    } else {
      assert ContractsOf(s.handoffs)[j] == StartedContracts(c, s.started, s.outputs)[j - n];
      assert ContractsOf(s.handoffs)[k] == StartedContracts(c, s.started, s.outputs)[k - n];
      StartedContractsDistinct(c, s.started, s.outputs);
    }
  }

  /** No two handoffs of a run share an identifier. */
  lemma HandoffIdsUnique(c: Config, s: State)
    requires Booked(c, s) && NoDuplicates(s.started) && (c.initial == [] || RiskDeclared(c))
    ensures UniqueRecordIds(s.handoffs)
  {
    forall j, k | 0 <= j < k < |s.handoffs|
      ensures s.handoffs[j].contract.id != s.handoffs[k].contract.id
    {
      RecordPairDistinct(c, s, j, k);
    }
  }

  // ----- Starting and blocking -----

  /** A node only ever starts once every dependency has succeeded and its output is stored. */
  lemma StartsOnlyWhenFed(c: Config, actions: seq<Action>, id: string, d: string)
    requires Prepared(c) && Run(c, actions).Some?
    requires id in Run(c, actions).value.started && id in WorkflowGraphs.Ids(c.graph.nodes)
    requires d in NodeOf(c, id).dependsOn
    ensures var s := Run(c, actions).value;
            Successful(s.states, d) && d in s.outputs
  {
    InvariantAlways(c, actions);
    assert FedNode(c, Run(c, actions).value, id);
  }

  /** When the run returns, every node has a state. */
  lemma AllNodesReturn(c: Config, s: State, id: string)
    requires AreLevels(c.graph.nodes, c.levels) && Invariant(c, s) && Returned(c, s)
    requires id in WorkflowGraphs.Ids(c.graph.nodes)
    ensures id in s.states
  {
    var n := NodeOf(c, id);
    assert HasLevel(c.levels, n);
    var k :| 0 <= k < |c.levels| && n in c.levels[k];
    assert LevelPlace(c, s, k, n);
    assert PlaceOf(c, s, id);
  }

  lemma UnfedIsBlocked(c: Config, s: State, id: string, d: string)
    requires Invariant(c, s) && id in WorkflowGraphs.Ids(c.graph.nodes) && id in s.states
    requires d in NodeOf(c, id).dependsOn && !Successful(s.states, d)
    ensures id !in s.started && id !in s.outputs && s.states[id] == "BLOCKED"
  {
    assert PlaceOf(c, s, id);
    assert id in s.started ==> FedNode(c, s, id);
  }

  lemma {:induction false} ChainBlocks(c: Config, s: State, p: seq<string>)
    requires AreLevels(c.graph.nodes, c.levels) && Invariant(c, s) && Returned(c, s)
    requires IsChain(DependencyMap(c.graph.nodes), p) && |p| >= 2 && !Successful(s.states, p[0])
    ensures var last := p[|p| - 1];
            last in s.states && s.states[last] == "BLOCKED" && last !in s.started && last !in s.outputs
    decreases |p|
  {
    var last, below := p[|p| - 1], p[|p| - 2];
    AllNodesReturn(c, s, last);
    assert Waits(DependencyMap(c.graph.nodes), last, below);
    if |p| > 2 {
      ChainBlocks(c, s, p[..|p| - 1]);
    }
    UnfedIsBlocked(c, s, last, below);
  }

  /** In every run that returns, all nodes have a state, and each transitive descendant of a node that
      did not succeed is blocked, stored no output and created no handoff. */
  lemma FailureBlocksDescendants(c: Config, actions: seq<Action>, p: seq<string>)
    requires Prepared(c) && Run(c, actions).Some? && Returned(c, Run(c, actions).value)
    requires IsChain(DependencyMap(c.graph.nodes), p) && |p| >= 2
    requires !Successful(Run(c, actions).value.states, p[0])
    ensures var s := Run(c, actions).value;
            var last := p[|p| - 1];
            && s.states.Keys == WorkflowGraphs.Ids(c.graph.nodes)
            && s.states[last] == "BLOCKED" && last !in s.outputs
            && forall r :: r in s.handoffs ==> CarriesNothingTo(c, r, last)
  {
    var s := Run(c, actions).value;
    InvariantAlways(c, actions);
    AllReturned(c, s);
    ChainBlocks(c, s, p);
    NothingCarried(c, s, p[|p| - 1]);
  }

  lemma AllReturned(c: Config, s: State)
    requires AreLevels(c.graph.nodes, c.levels) && Invariant(c, s) && Returned(c, s)
    ensures s.states.Keys == WorkflowGraphs.Ids(c.graph.nodes)
  {
    forall id | id in WorkflowGraphs.Ids(c.graph.nodes)
      ensures id in s.states
    {
      AllNodesReturn(c, s, id);
    }
  }

  lemma NothingCarried(c: Config, s: State, id: string)
    requires (c.initial == [] || RiskDeclared(c)) && Booked(c, s) && id !in s.started
    ensures forall r :: r in s.handoffs ==> CarriesNothingTo(c, r, id)
  {
    forall r | r in s.handoffs
      ensures CarriesNothingTo(c, r, id)
    {
      forall i: nat {:trigger EdgeId(c.session, id, i)} | i > 0
        ensures r.contract.id != EdgeId(c.session, id, i)
      {
        NoHandoffWithoutStart(c, s, r, id, i);
      }
    }
  }

  /** The record is not a dependency handoff of the node. */
  ghost predicate CarriesNothingTo(c: Config, r: Record, id: string) {
    forall i: nat {:trigger EdgeId(c.session, id, i)} :: i > 0 ==> r.contract.id != EdgeId(c.session, id, i)
  }

  lemma NoHandoffWithoutStart(c: Config, s: State, r: Record, id: string, i: nat)
    requires (c.initial == [] || RiskDeclared(c)) && Booked(c, s) && r in s.handoffs && id !in s.started && i > 0
    ensures r.contract.id != EdgeId(c.session, id, i)
  {
    var k :| 0 <= k < |s.handoffs| && s.handoffs[k] == r;
    if k < |c.initial| {
      InitialRecord(c, s, k);
      RiskIsNoEdge(c.session, id, i);
    } else {
      var from, j := RecordSource(c, s, k);
      DistinctEdgeIds(c.session, from, j + 1, id, i);
    }
  }

  // ----- One transition per handoff -----

  /** Across any step, handoffs are only appended (pending); their contracts never change; a terminal one
      never changes again; and a pending one changes only when its target node returns, and is then
      sealed. */
  ghost predicate HandoffsProgress(c: Config, before: seq<Record>, after: seq<Record>, actor: string) {
    && |before| <= |after|
    && (forall i :: |before| <= i < |after| ==> after[i] == Pending(after[i].contract))
    && (forall i :: 0 <= i < |before| ==> RecordProgress(c, before[i], after[i], actor))
  }

  predicate RecordProgress(c: Config, before: Record, after: Record, actor: string) {
    && after.contract == before.contract
    && (before.status != CREATED ==> after == before)
    && (after != before ==>
          && (after.status == CONSUMED || after.status == BLOCKED)
          && before.contract.target == actor
          && ReceiptValid(c.hash, after))
  }

  lemma UntouchedProgress(c: Config, before: seq<Record>, added: seq<Contract>, actor: string)
    ensures HandoffsProgress(c, before, before + AllPending(added), actor)
  {
  }

  lemma FinishProgress(c: Config, s: State, t: State, n: Node, o: Output)
    requires ProducesDigests(c.hash) && n in c.graph.nodes && Settling(c, s) && FinishedWith(c, s, t, n, o)
    ensures HandoffsProgress(c, s.handoffs, t.handoffs, n.id)
  {
    var status, synthetic, stamp :| t == Finish(c, s, n, o, status, synthetic, stamp);
    forall i | 0 <= i < |s.handoffs|
      ensures RecordProgress(c, s.handoffs[i], t.handoffs[i], n.id)
    {
      RecordAdvances(c, s.outputs, s.handoffs[i], n, o, stamp);
    }
  }

  lemma StepProgress(c: Config, s: State, a: Action)
    requires ProducesDigests(c.hash) && Settling(c, s) && Enabled(c, s, a) && a != NextLevel
    ensures HandoffsProgress(c, s.handoffs, Apply(c, s, a).handoffs, a.id)
  {
    var t := Apply(c, s, a);
    StepKinds(c, s, a);
    var n := NodeOf(c, a.id);
    if BlockedBy(s, t, a.id) || Turned(c, s, t, a.id) {
      assert t.handoffs == s.handoffs;
    } else if StartedBy(c, s, t, n) {
      UntouchedProgress(c, s.handoffs, NodeContracts(c, n, s.outputs), a.id);
    } else {
      var o :| FinishedWith(c, s, t, n, o);
      FinishProgress(c, s, t, n, o);
    }
  }

  /** The lifecycle rule at every step of every run. */
  lemma HandoffLifecycle(c: Config, actions: seq<Action>, a: Action)
    requires Prepared(c) && Run(c, actions).Some? && Enabled(c, Run(c, actions).value, a) && a != NextLevel
    ensures var s := Run(c, actions).value;
            HandoffsProgress(c, s.handoffs, Apply(c, s, a).handoffs, a.id)
  {
    InvariantAlways(c, actions);
    StepProgress(c, Run(c, actions).value, a);
  }

  lemma RecordAdvances(c: Config, outputs: map<string, Output>, r: Record, n: Node, o: Output, stamp: string)
    requires ProducesDigests(c.hash) && n in c.graph.nodes && RecordOk(c, outputs, r)
    ensures RecordProgress(c, r, ResolveOne(c.hash, n, o, r, stamp), n.id)
  {
    if AddressedTo(n, r) {
      ResolveShape(c.hash, r, o.acks, Receiver(AnswerId(n, o), n.id, o.agent), stamp);
    }
  }

  // ----- A run reported COMPLETE -----

  /** The node receives a handoff: it has dependencies or is the target of the risk control. */
  predicate Receives(c: Config, n: Node) {
    n.dependsOn != [] || (c.initial != [] && c.initial[0].contract.target == n.id)
  }

  /** Every receiving node answered under an identifier of its own. */
  predicate ReceiversNamed(c: Config, s: State) {
    forall n :: n in c.graph.nodes && Receives(c, n) ==> Stored(s.outputs, n.id).outputId != ""
  }

  predicate NodeSucceeded(s: State, id: string) {
    Successful(s.states, id) && id in s.outputs && id in s.started
  }

  predicate Consumed(c: Config, s: State, r: Record) {
    r.status == CONSUMED && WorkflowInvariants.ConsumedBy(c, s.outputs, r)
  }

  ghost predicate InputListed(c: Config, s: State, n: Node, i: nat)
    requires i < |n.dependsOn|
  {
    exists r :: r in s.handoffs && r.contract == InputContract(c, n, s.outputs, i)
  }

  /** Every node succeeded; every dependency edge has its record, once; and every handoff was consumed by
      the output of its addressed node, under a valid receipt. */
  ghost predicate FullyDelivered(c: Config, s: State) {
    AllSucceeded(c, s) && UniqueRecordIds(s.handoffs) && AllConsumed(c, s) && AllListed(c, s)
  }

  ghost predicate AllSucceeded(c: Config, s: State) {
    forall n {:trigger NodeSucceeded(s, n.id)} :: n in c.graph.nodes ==> NodeSucceeded(s, n.id)
  }

  ghost predicate AllConsumed(c: Config, s: State) {
    forall r {:trigger Consumed(c, s, r)} :: r in s.handoffs ==> Consumed(c, s, r)
  }

  ghost predicate AllListed(c: Config, s: State) {
    forall n, i {:trigger InputListed(c, s, n, i)} ::
      n in c.graph.nodes && 0 <= i < |n.dependsOn| ==> InputListed(c, s, n, i)
  }

  lemma ConsumedAfterMeansBefore(h: Hasher, ctx: Context, rs: seq<Record>)
    requires ProducesDigests(h) && Reconcile(h, ctx, rs).unresolved == []
    ensures forall r :: r in rs ==> r.status == CONSUMED
  {
    AuditClosesPending(h, ctx, rs);
    var after := Reconcile(h, ctx, rs).records;
    assert Reconcile(h, ctx, rs).unresolved == UnresolvedOf(after);
    NothingPending(h, rs, after);
  }

  lemma CompleteMeans(c: Config, s: State, toolFailures: bool, conflicts: bool)
    requires FinalStatus(c, s, toolFailures, conflicts) == "COMPLETE"
    ensures forall n :: n in c.graph.nodes ==> Successful(s.states, n.id)
    ensures "SYNTHETIC" !in s.states.Values
    ensures FinalReport(c, s).unresolved == []
    ensures !toolFailures && !conflicts && c.graph.exclusions == []
  {
  }

  lemma SuccessHasOutput(c: Config, s: State, n: Node)
    requires Placed(c, s) && n in c.graph.nodes && Successful(s.states, n.id)
    ensures NodeSucceeded(s, n.id)
  {
    assert n.id in WorkflowGraphs.Ids(c.graph.nodes);
    assert PlaceOf(c, s, n.id);
  }

  lemma AllInputsListed(c: Config, s: State, n: Node, i: nat)
    requires UniqueIds(c.graph.nodes) && Booked(c, s) && n in c.graph.nodes && n.id in s.started && i < |n.dependsOn|
    ensures InputListed(c, s, n, i)
  {
    FindUnique(c.graph.nodes, n);
    assert n.id in WorkflowGraphs.Ids(c.graph.nodes);
    var r := RecordListed(c, s, n.id, i);
  }

  lemma NodesSucceeded(c: Config, s: State)
    requires Placed(c, s) && forall n :: n in c.graph.nodes ==> Successful(s.states, n.id)
    ensures AllSucceeded(c, s)
  {
    forall n | n in c.graph.nodes
      ensures NodeSucceeded(s, n.id)
    {
      SuccessHasOutput(c, s, n);
    }
  }

  lemma RecordsConsumed(c: Config, s: State)
    requires Settling(c, s) && forall r :: r in s.handoffs ==> r.status == CONSUMED
    ensures AllConsumed(c, s)
  {
    forall r | r in s.handoffs
      ensures Consumed(c, s, r)
    {
      var i :| 0 <= i < |s.handoffs| && s.handoffs[i] == r;
      assert RecordOk(c, s.outputs, s.handoffs[i]);
    }
  }

  lemma InputsListed(c: Config, s: State)
    requires UniqueIds(c.graph.nodes) && Booked(c, s) && AllSucceeded(c, s)
    ensures AllListed(c, s)
  {
    forall n, i | n in c.graph.nodes && 0 <= i < |n.dependsOn|
      ensures InputListed(c, s, n, i)
    {
      assert NodeSucceeded(s, n.id);
      AllInputsListed(c, s, n, i);
    }
  }

  lemma SuccessIsDelivered(c: Config, s: State)
    requires Prepared(c) && Invariant(c, s)
    requires forall n :: n in c.graph.nodes ==> Successful(s.states, n.id)
    requires forall r :: r in s.handoffs ==> r.status == CONSUMED
    ensures FullyDelivered(c, s)
  {
    NodesSucceeded(c, s);
    HandoffIdsUnique(c, s);
    RecordsConsumed(c, s);
    InputsListed(c, s);
  }

  lemma CompleteIsDelivered(c: Config, s: State, toolFailures: bool, conflicts: bool)
    requires Prepared(c) && Invariant(c, s) && FinalStatus(c, s, toolFailures, conflicts) == "COMPLETE"
    ensures FullyDelivered(c, s)
  {
    assert forall r :: r in s.handoffs ==> r.status == CONSUMED by {
      CompleteMeans(c, s, toolFailures, conflicts);
      ConsumedAfterMeansBefore(c.hash, AuditContext(c, s), s.handoffs);
    }
    CompleteMeans(c, s, toolFailures, conflicts);
    SuccessIsDelivered(c, s);
  }

  // ----- When COMPLETE also means governance PASS -----

  /** A consumed record passes the audit's consumer check exactly when its target's output names itself. */
  lemma DeliveredIffNamed(c: Config, s: State, r: Record)
    requires Consumed(c, s, r)
    ensures DeliveredTo(c.hash, r, r.contract.target, r.contract.toAgent, s.outputs)
            <==> Stored(s.outputs, r.contract.target).outputId != ""
  {
  }

  lemma EdgeRecordDelivered(c: Config, s: State, n: Node, i: nat)
    requires FullyDelivered(c, s) && UniqueIds(c.graph.nodes) && n in c.graph.nodes && i < |n.dependsOn|
    requires n.dependsOn[i] in s.outputs
    ensures EdgeDelivered(c.hash, AuditContext(c, s), s.handoffs, Edge(n, n.dependsOn[i], i + 1))
            <==> Stored(s.outputs, n.id).outputId != ""
  {
    assert NodeSucceeded(s, n.id) && InputListed(c, s, n, i);
    var r :| r in s.handoffs && r.contract == InputContract(c, n, s.outputs, i);
    assert Consumed(c, s, r);
    DeliveredIffNamed(c, s, r);
    var ctx, e := AuditContext(c, s), Edge(n, n.dependsOn[i], i + 1);
    assert r.contract.id == HandoffGovernance.Id(ctx, e) && Addressed(ctx, e, r.contract);
    if EdgeDelivered(c.hash, ctx, s.handoffs, e) {
      var q :| q in s.handoffs && q.contract.id == HandoffGovernance.Id(ctx, e) && Addressed(ctx, e, q.contract)
               && DeliveredTo(c.hash, q, n.id, n.agent, s.outputs);
      SameRecord(s.handoffs, q, r);
    }
  }

  lemma SameRecord(rs: seq<Record>, q: Record, r: Record)
    requires UniqueRecordIds(rs) && q in rs && r in rs && q.contract.id == r.contract.id
    ensures q == r
  {
    FirstWithUnique(rs, q);
    FirstWithUnique(rs, r);
  }

  lemma ControlRecordDelivered(c: Config, s: State)
    requires FullyDelivered(c, s) && RiskDeclared(c) && Booked(c, s)
    ensures s.handoffs != [] && s.handoffs[0].contract == c.initial[0].contract
    ensures ControlDelivered(c.hash, AuditContext(c, s), s.handoffs, c.graph.controls[0])
            <==> Stored(s.outputs, c.initial[0].contract.target).outputId != ""
  {
    InitialRecord(c, s, 0);
    var r := s.handoffs[0];
    assert r in s.handoffs && Consumed(c, s, r);
    DeliveredIffNamed(c, s, r);
    if ControlDelivered(c.hash, AuditContext(c, s), s.handoffs, c.graph.controls[0]) {
      var q :| q in s.handoffs && q.contract == c.graph.controls[0].contract.value
               && DeliveredTo(c.hash, q, q.contract.target, q.contract.toAgent, s.outputs);
      SameRecord(s.handoffs, q, r);
    }
  }

  lemma DependenciesStored(c: Config, s: State, e: Edge)
    requires Fed(c, s) && AllSucceeded(c, s) && e in Edges(AuditContext(c, s)) && UniqueIds(c.graph.nodes)
    ensures e.dependency in s.outputs
  {
    assert NodeSucceeded(s, e.node.id);
    FindUnique(c.graph.nodes, e.node);
    assert e.node.id in WorkflowGraphs.Ids(c.graph.nodes);
    assert FedNode(c, s, e.node.id);
  }

  lemma SessionPrefix(session: string, id: string, i: nat)
    ensures HandoffGovernance.Prefixed(session, EdgeId(session, id, i))
    ensures HandoffGovernance.Prefixed(session, RiskId(session))
  {
    StartsWithSession(session, id + "-handoff-" + Padded(i));
    StartsWithSession(session, "risk-escalation-001");
    assert EdgeId(session, id, i) == session + "-" + (id + "-handoff-" + Padded(i));
    assert RiskId(session) == session + "-" + "risk-escalation-001";
  }

  lemma StartsWithSession(session: string, rest: string)
    ensures HandoffGovernance.Prefixed(session, session + "-" + rest)
  {
  }

  lemma EdgeExpected(c: Config, s: State, id: string, i: nat)
    requires Fed(c, s) && AllSucceeded(c, s) && id in s.started && id in WorkflowGraphs.Ids(c.graph.nodes)
    requires i < |NodeOf(c, id).dependsOn|
    ensures EdgeId(c.session, id, i + 1) in ExpectedIds(AuditContext(c, s))
  {
    var n := NodeOf(c, id);
    var e := Edge(n, n.dependsOn[i], i + 1);
    assert NodeSucceeded(s, n.id);
    assert FedNode(c, s, id);
    assert n.dependsOn[i] in n.dependsOn;
    assert e in Edges(AuditContext(c, s));
    assert HandoffGovernance.Id(AuditContext(c, s), e) == EdgeId(c.session, id, i + 1);
  }

  lemma ControlExpected(c: Config)
    requires RiskDeclared(c)
    ensures RiskId(c.session) in DeclaredIds(c.graph.controls)
  {
    assert c.graph.controls[0] in c.graph.controls;
  }

  ghost predicate Expected(c: Config, s: State, r: Record) {
    && HandoffGovernance.Prefixed(c.session, r.contract.id)
    && r.contract.id in ExpectedIds(AuditContext(c, s)) + DeclaredIds(c.graph.controls)
  }

  /** Every record carries the session's prefix and is an expected edge or the control. */
  lemma RecordIsExpected(c: Config, s: State, r: Record)
    requires (c.initial == [] || RiskDeclared(c)) && Booked(c, s) && Fed(c, s) && AllSucceeded(c, s) && r in s.handoffs
    ensures Expected(c, s, r)
  {
    var k :| 0 <= k < |s.handoffs| && s.handoffs[k] == r;
    if k < |c.initial| {
      InitialRecord(c, s, k);
      SessionPrefix(c.session, "", 0);
      ControlExpected(c);
    } else {
      var id, i := RecordSource(c, s, k);
      SessionPrefix(c.session, id, i + 1);
      EdgeExpected(c, s, id, i);
    }
  }

  /** The control's target is a node that receives it. */
  lemma RiskReceives(c: Config, s: State)
    requires RiskDeclared(c) && Booked(c, s) && AllConsumed(c, s)
    ensures exists n :: n in c.graph.nodes && Receives(c, n) && n.id == c.initial[0].contract.target
  {
    InitialRecord(c, s, 0);
    assert Consumed(c, s, s.handoffs[0]);
    var n := NodeOf(c, c.initial[0].contract.target);
    assert Receives(c, n);
  }

  lemma NamedEdgeDelivered(c: Config, s: State, e: Edge)
    requires UniqueIds(c.graph.nodes) && Fed(c, s) && FullyDelivered(c, s)
    requires e in Edges(AuditContext(c, s)) && Stored(s.outputs, e.node.id).outputId != ""
    ensures EdgeDelivered(c.hash, AuditContext(c, s), s.handoffs, e)
  {
    DependenciesStored(c, s, e);
    EdgeRecordDelivered(c, s, e.node, e.index - 1);
    assert e == Edge(e.node, e.node.dependsOn[e.index - 1], e.index - 1 + 1);
  }

  lemma NamedEdgesDelivered(c: Config, s: State)
    requires UniqueIds(c.graph.nodes) && Fed(c, s) && FullyDelivered(c, s) && ReceiversNamed(c, s)
    ensures forall e :: e in Edges(AuditContext(c, s)) ==> EdgeDelivered(c.hash, AuditContext(c, s), s.handoffs, e)
  {
    forall e | e in Edges(AuditContext(c, s))
      ensures EdgeDelivered(c.hash, AuditContext(c, s), s.handoffs, e)
    {
      assert e.node in c.graph.nodes && Receives(c, e.node);
      NamedEdgeDelivered(c, s, e);
    }
  }

  lemma NamedControlsDelivered(c: Config, s: State)
    requires (c.initial == [] && c.graph.controls == []) || RiskDeclared(c)
    requires Booked(c, s) && FullyDelivered(c, s) && ReceiversNamed(c, s)
    ensures forall d :: d in c.graph.controls ==> ControlDelivered(c.hash, AuditContext(c, s), s.handoffs, d)
  {
    if RiskDeclared(c) {
      ControlRecordDelivered(c, s);
      RiskReceives(c, s);
    }
  }

  lemma NamedIsReconciled(c: Config, s: State)
    requires Prepared(c) && Invariant(c, s) && FullyDelivered(c, s) && ReceiversNamed(c, s)
    ensures Reconciled(c.hash, AuditContext(c, s), s.handoffs)
  {
    NamedEdgesDelivered(c, s);
    NamedControlsDelivered(c, s);
    forall r | r in s.handoffs
      ensures Expected(c, s, r) && Settled(r)
    {
      RecordIsExpected(c, s, r);
      assert Consumed(c, s, r);
    }
  }

  lemma FirstEdgeRequired(c: Config, s: State, n: Node)
    requires UniqueIds(c.graph.nodes) && Fed(c, s) && AllSucceeded(c, s)
    requires n in c.graph.nodes && n.dependsOn != []
    ensures Edge(n, n.dependsOn[0], 1) in Edges(AuditContext(c, s)) && n.dependsOn[0] in s.outputs
  {
    assert NodeSucceeded(s, n.id);
    FindUnique(c.graph.nodes, n);
    assert n.id in WorkflowGraphs.Ids(c.graph.nodes);
    assert FedNode(c, s, n.id);
    assert n.dependsOn[0] in n.dependsOn;
  }

  lemma ReconciledIsNamed(c: Config, s: State, n: Node)
    requires UniqueIds(c.graph.nodes) && Fed(c, s) && Booked(c, s) && FullyDelivered(c, s)
    requires (c.initial == [] && c.graph.controls == []) || RiskDeclared(c)
    requires forall e :: e in Edges(AuditContext(c, s)) ==> EdgeDelivered(c.hash, AuditContext(c, s), s.handoffs, e)
    requires forall d :: d in c.graph.controls ==> ControlDelivered(c.hash, AuditContext(c, s), s.handoffs, d)
    requires n in c.graph.nodes && Receives(c, n)
    ensures Stored(s.outputs, n.id).outputId != ""
  {
    var ctx := AuditContext(c, s);
    if n.dependsOn != [] {
      FirstEdgeRequired(c, s, n);
      assert EdgeDelivered(c.hash, ctx, s.handoffs, Edge(n, n.dependsOn[0], 0 + 1));
      EdgeRecordDelivered(c, s, n, 0);
    } else {
      assert c.graph.controls[0] in c.graph.controls;
      assert ControlDelivered(c.hash, ctx, s.handoffs, c.graph.controls[0]);
      ControlRecordDelivered(c, s);
    }
  }

  /** With everything delivered, the verdict is PASS exactly when every receiving output named itself. */
  lemma DeliveredVerdict(c: Config, s: State)
    requires Prepared(c) && Invariant(c, s) && FullyDelivered(c, s)
    ensures FinalReport(c, s).pass <==> ReceiversNamed(c, s)
  {
    PassMeansReconciled(c.hash, AuditContext(c, s), s.handoffs);
    if ReceiversNamed(c, s) {
      NamedIsReconciled(c, s);
    }
    if Reconciled(c.hash, AuditContext(c, s), s.handoffs) {
      forall n | n in c.graph.nodes && Receives(c, n)
        ensures Stored(s.outputs, n.id).outputId != ""
      {
        ReconciledIsNamed(c, s, n);
      }
    }
  }

  /** A run whose status is COMPLETE completed every node, and every dependency edge and declared control
      was created once, addressed exactly and consumed by its target node's own output. Its governance
      verdict is PASS exactly when every receiving node's output carried an identifier of its own. */
  lemma CompleteRunGovernance(c: Config, actions: seq<Action>, toolFailures: bool, conflicts: bool)
    requires Prepared(c) && Run(c, actions).Some?
    requires FinalStatus(c, Run(c, actions).value, toolFailures, conflicts) == "COMPLETE"
    ensures var s := Run(c, actions).value;
            && (forall n :: n in c.graph.nodes ==> n.id in s.states && s.states[n.id] == "COMPLETE")
            && FullyDelivered(c, s)
            && (FinalReport(c, s).pass <==> ReceiversNamed(c, s))
  {
    var s := Run(c, actions).value;
    InvariantAlways(c, actions);
    CompleteIsDelivered(c, s, toolFailures, conflicts);
    DeliveredVerdict(c, s);
    CompleteStates(c, s, toolFailures, conflicts);
  }

  lemma CompleteStates(c: Config, s: State, toolFailures: bool, conflicts: bool)
    requires FinalStatus(c, s, toolFailures, conflicts) == "COMPLETE"
    ensures forall n :: n in c.graph.nodes ==> n.id in s.states && s.states[n.id] == "COMPLETE"
  {
    CompleteMeans(c, s, toolFailures, conflicts);
    forall n | n in c.graph.nodes
      ensures n.id in s.states && s.states[n.id] == "COMPLETE"
    {
      assert s.states[n.id] in s.states.Values;
    }
  }
}
