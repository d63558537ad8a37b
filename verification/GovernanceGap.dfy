/** COMPLETE does not imply governance PASS: whatever the graph, there is a live run in which every node completes;
    it is reported COMPLETE, and passes exactly if the answers carry an identifier. */
module GovernanceGap {
  import opened Wrappers
  import opened Sorting
  import opened Text
  import opened Handoffs
  import opened AgentOutputs
  import opened OutputRules
  import opened WorkflowGraphs
  import opened GraphBuilder
  import opened HandoffGovernance
  import opened HandoffReconciliation
  import opened RunBudgets
  import opened WorkflowEngine
  import opened WorkflowInvariants
  import opened WorkflowTheorems
  import opened EchoRuns

  const STAMP := "2026-07-01T00:00:00+00:00"

  /** A live run with a call for every node. */
  ghost predicate Live(c: Config) {
    Prepared(c) && !c.echo && |c.graph.nodes| <= c.limits.maxCalls && forall n :: n in c.graph.nodes ==> !Blank(n.agent)
  }

  /** Nothing stands against COMPLETE from the start: no agent was left out and the escalated risk has a target. */
  ghost predicate Unhindered(c: Config) {
    c.graph.exclusions == [] && (c.initial == [] || c.initial[0].contract.target != "")
  }

  /** An identifier that is empty or not blank. */
  predicate Name(name: string) {
    name == "" || !Blank(name)
  }

  const BASIS := "live-evidence"

  /** An answer on one piece of evidence, ready if a decision is asked for, that acknowledges every handoff addressed to
      the node. */
  function LiveOutput(n: Node, name: string, rs: seq<Record>): Output {
    Output(
      name, n.agent, "COMPLETE", "Done.", [EvidenceItem(Some(BASIS), Some("provider"), "CURRENT")], [],
      if n.agent in SPECIALIST_AGENTS then Some(SpecialistDecision("READY", "COMPLETE", [BASIS], false)) else None,
      EchoAcks(n, rs))
  }

  /** Whoever the agent is, no rule for outputs objects to that answer. */
  lemma LiveOutputPasses(n: Node, name: string, rs: seq<Record>)
    ensures Passes(LiveOutput(n, name, rs), n.agent, false)
  {
    var o := LiveOutput(n, name, rs);
    assert BASIS[0] == 'l' && BASIS[|BASIS| - 1] == 'e';
    Unpadded(BASIS);
    Unpadded("provider");
    OneItemPasses(o.evidence, o.evidence[0]);
    DecisionPasses(o, o.evidence[0], "READY", "COMPLETE");
  }

  /** Every accepted answer of these actions meets the rules for outputs. */
  ghost predicate AnswersPass(c: Config, actions: seq<Action>) {
    forall a :: a in actions && a.Answer? && a.reply.Accepted? && a.id in WorkflowGraphs.Ids(c.graph.nodes) ==>
                  Passes(a.reply.output, NodeOf(c, a.id).agent, false)
  }

  lemma AnswersPassNext(c: Config, actions: seq<Action>, a: Action)
    requires AnswersPass(c, actions) && AnswersPass(c, [a])
    ensures AnswersPass(c, actions + [a])
  {
    assert forall x :: x in actions + [a] ==> x in actions || x == a;
    assert a in [a];
  }

  // ----- One node from idle to COMPLETE -----

  predicate CanRun(c: Config, s: State, n: Node) {
    && n in c.graph.nodes && n.id in s.phases && s.phases[n.id] == Idle
    && InLevel(c, s.level, n.id)
    && (forall id :: id in s.phases ==> s.phases[id] == Idle || s.phases[id] == Done)
    && (forall d :: d in n.dependsOn ==> Successful(s.states, d))
    && s.usage.nodes + 1 <= c.limits.maxNodes && s.usage.calls + 1 <= c.limits.maxCalls
    && s.usage.cost == Some(0.0)
  }

  function Started(c: Config, s: State, n: Node): State {
    s.(usage := s.usage.(nodes := s.usage.nodes + 1), started := s.started + [n.id], phases := s.phases[n.id := Queued],
       handoffs := s.handoffs + AllPending(NodeContracts(c, n, s.outputs)))
  }

  function Acquired(c: Config, s: State, n: Node): State {
    var t := Started(c, s, n);
    t.(phases := t.phases[n.id := Active(0)])
  }

  function Called(c: Config, s: State, n: Node): State {
    var t := Acquired(c, s, n);
    t.(phases := t.phases[n.id := Awaiting(1)], modelCalls := t.modelCalls + 1,
       usage := t.usage.(calls := t.usage.calls + 1))
  }

  function Answered(c: Config, s: State, n: Node, name: string): State {
    var t := Called(c, s, n);
    Finish(c, t, n, LiveOutput(n, name, t.handoffs), WorkflowEngine.Status.Ok, false, STAMP)
  }

  lemma RunSnoc(c: Config, actions: seq<Action>, a: Action)
    requires Run(c, actions).Some? && Enabled(c, Run(c, actions).value, a)
    ensures Run(c, actions + [a]) == Some(Apply(c, Run(c, actions).value, a))
  {
    assert (actions + [a])[..|actions|] == actions;
  }

  lemma Begins(c: Config, actions: seq<Action>, s: State, n: Node)
    requires UniqueIds(c.graph.nodes) && Run(c, actions) == Some(s) && CanRun(c, s, n)
    ensures Run(c, actions + [Begin(n.id, 0.0)]) == Some(Started(c, s, n))
  {
    FindUnique(c.graph.nodes, n);
    assert n.id in WorkflowGraphs.Ids(c.graph.nodes);
    RunSnoc(c, actions, Begin(n.id, 0.0));
  }

  lemma Acquires(c: Config, actions: seq<Action>, s: State, n: Node)
    requires ValidLimits(c.limits) && !c.echo && CanRun(c, s, n) && Run(c, actions) == Some(Started(c, s, n))
    ensures Run(c, actions + [Acquire(n.id)]) == Some(Acquired(c, s, n))
  {
    assert n.id in WorkflowGraphs.Ids(c.graph.nodes);
    assert Holding(Started(c, s, n)) == {};
    RunSnoc(c, actions, Acquire(n.id));
  }

  lemma CallIsCalled(c: Config, s: State, n: Node)
    requires ValidLimits(c.limits) && CanRun(c, s, n)
    ensures CallOnce(c, Acquired(c, s, n), n, 0, 0.0, Quoted(0.0)) == Called(c, s, n)
  {
    var u := Acquired(c, s, n).usage;
    assert CostTotal(u.cost, Quoted(0.0), c.limits.maxCost) == Result.Ok(Some(0.0));
  }

  lemma Calls(c: Config, actions: seq<Action>, s: State, n: Node)
    requires UniqueIds(c.graph.nodes) && ValidLimits(c.limits) && CanRun(c, s, n)
    requires Run(c, actions) == Some(Acquired(c, s, n))
    ensures Run(c, actions + [CallModel(n.id, 0.0, Quoted(0.0))]) == Some(Called(c, s, n))
  {
    FindUnique(c.graph.nodes, n);
    assert n.id in WorkflowGraphs.Ids(c.graph.nodes);
    CallIsCalled(c, s, n);
    RunSnoc(c, actions, CallModel(n.id, 0.0, Quoted(0.0)));
  }

  lemma Answers(c: Config, actions: seq<Action>, s: State, n: Node, name: string) returns (a: Action)
    requires UniqueIds(c.graph.nodes) && CanRun(c, s, n) && Run(c, actions) == Some(Called(c, s, n))
    ensures Run(c, actions + [a]) == Some(Answered(c, s, n, name)) && AnswersPass(c, [a])
  {
    FindUnique(c.graph.nodes, n);
    assert n.id in WorkflowGraphs.Ids(c.graph.nodes);
    a := Answer(n.id, Accepted(LiveOutput(n, name, Called(c, s, n).handoffs)), STAMP);
    RunSnoc(c, actions, a);
    LiveOutputPasses(n, name, Called(c, s, n).handoffs);
  }

  lemma NodeRuns(c: Config, actions: seq<Action>, s: State, n: Node, name: string)
    returns (called: seq<Action>, next: seq<Action>)
    requires UniqueIds(c.graph.nodes) && ValidLimits(c.limits) && !c.echo
    requires Run(c, actions) == Some(s) && CanRun(c, s, n) && AnswersPass(c, actions)
    ensures Run(c, called) == Some(Called(c, s, n))
    ensures Run(c, next) == Some(Answered(c, s, n, name)) && AnswersPass(c, next)
  {
    Begins(c, actions, s, n);
    called := actions + [Begin(n.id, 0.0)];
    AnswersPassNext(c, actions, Begin(n.id, 0.0));
    Acquires(c, called, s, n);
    AnswersPassNext(c, called, Acquire(n.id));
    called := called + [Acquire(n.id)];
    Calls(c, called, s, n);
    AnswersPassNext(c, called, CallModel(n.id, 0.0, Quoted(0.0)));
    called := called + [CallModel(n.id, 0.0, Quoted(0.0))];
    var a := Answers(c, called, s, n, name);
    AnswersPassNext(c, called, a);
    next := called + [a];
  }

  // ----- What holds between two nodes -----

  /** A node is waiting, or has returned COMPLETE under the given name. */
  predicate LivePlace(s: State, id: string, name: string)
    requires id in s.phases
  {
    && (s.phases[id] == Idle || s.phases[id] == Done)
    && (id in s.states ==> s.states[id] == "COMPLETE" && id in s.outputs && s.outputs[id].outputId == name)
  }

  ghost predicate LivePlaced(s: State, name: string) {
    forall id {:trigger LivePlace(s, id, name)} :: id in s.phases ==> LivePlace(s, id, name)
  }

  /** Everything called so far was called once and cost nothing. */
  predicate Frugal(s: State) {
    s.usage.calls == s.usage.nodes && s.usage.cost == Some(0.0)
  }

  ghost predicate Smooth(c: Config, s: State, name: string) {
    LivePlaced(s, name) && EchoSettled(s) && Frugal(s)
  }

  lemma SmoothStart(c: Config, name: string)
    requires Prepared(c)
    ensures Smooth(c, Init(c), name)
  {
    var s := Init(c);
    forall id | id in s.phases
      ensures LivePlace(s, id, name)
    {
    }
  }

  lemma DependenciesSucceeded(c: Config, s: State, n: Node, name: string)
    requires Prepared(c) && Invariant(c, s) && LivePlaced(s, name) && s.level < |c.levels| && n in c.levels[s.level]
    ensures forall d :: d in n.dependsOn ==> Successful(s.states, d)
  {
    DependenciesReturned(c, s, n);
    forall d | d in n.dependsOn
      ensures Successful(s.states, d)
    {
      assert LivePlace(s, d, name);
    }
  }

  lemma NodeCanRun(c: Config, s: State, n: Node, name: string)
    requires Live(c) && Invariant(c, s) && Smooth(c, s, name)
    requires s.level < |c.levels| && n in c.levels[s.level] && n.id in s.phases && s.phases[n.id] == Idle
    ensures CanRun(c, s, n)
  {
    assert AtLevel(c.graph.nodes, c.levels, n, s.level);
    DependenciesSucceeded(c, s, n, name);
    assert PlaceOf(c, s, n.id);
    RoomForNode(c, s, n.id);
    forall id | id in s.phases
      ensures s.phases[id] == Idle || s.phases[id] == Done
    {
      assert LivePlace(s, id, name);
    }
  }

  lemma CalledSettled(c: Config, s: State, n: Node)
    requires EchoSettled(s) && n.id !in s.outputs
    ensures EchoSettled(Called(c, s, n))
  {
    var t := Called(c, s, n);
    forall i | 0 <= i < |t.handoffs|
      ensures EchoRecord(t.outputs, t.handoffs[i])
    {
      if i >= |s.handoffs| {
        assert t.handoffs[i] == Pending(NodeContracts(c, n, s.outputs)[i - |s.handoffs|]);
      }
    }
  }

  lemma AnsweredPlaced(c: Config, s: State, n: Node, name: string)
    requires LivePlaced(s, name) && n.id in s.phases
    ensures LivePlaced(Answered(c, s, n, name), name)
  {
    var t := Answered(c, s, n, name);
    forall id | id in t.phases
      ensures LivePlace(t, id, name)
    {
      assert LivePlace(s, id, name);
    }
  }

  lemma AnsweredSettled(c: Config, s: State, n: Node, name: string)
    requires Prepared(c) && Invariant(c, Called(c, s, n)) && EchoSettled(s) && n.id !in s.outputs
    requires n in c.graph.nodes && !Blank(n.agent) && Name(name)
    ensures EchoSettled(Answered(c, s, n, name))
  {
    var t := Called(c, s, n);
    CalledSettled(c, s, n);
    HandoffIdsUnique(c, t);
    RecordsFinish(c, t, n, LiveOutput(n, name, t.handoffs), WorkflowEngine.Status.Ok, false, STAMP);
  }

  /** A whole node, from one state between nodes to the next. */
  lemma NodeTurn(c: Config, actions: seq<Action>, s: State, n: Node, name: string) returns (next: seq<Action>)
    requires Live(c) && Name(name) && Run(c, actions) == Some(s) && Smooth(c, s, name) && AnswersPass(c, actions)
    requires s.level < |c.levels| && n in c.levels[s.level] && n.id in s.phases && s.phases[n.id] == Idle
    ensures Run(c, next) == Some(Answered(c, s, n, name)) && Smooth(c, Answered(c, s, n, name), name)
    ensures AnswersPass(c, next)
  {
    InvariantAlways(c, actions);
    assert PlaceOf(c, s, n.id);
    NodeCanRun(c, s, n, name);
    var called: seq<Action>;
    called, next := NodeRuns(c, actions, s, n, name);
    InvariantAlways(c, called);
    AnsweredPlaced(c, s, n, name);
    AnsweredSettled(c, s, n, name);
  }

  lemma LevelTurn(c: Config, actions: seq<Action>, s: State, name: string)
    requires Run(c, actions) == Some(s) && Smooth(c, s, name) && LevelDone(c, s) && AnswersPass(c, actions)
    ensures Run(c, actions + [NextLevel]) == Some(s.(level := s.level + 1)) && Smooth(c, s.(level := s.level + 1), name)
    ensures AnswersPass(c, actions + [NextLevel])
  {
    RunSnoc(c, actions, NextLevel);
    AnswersPassNext(c, actions, NextLevel);
    var t := s.(level := s.level + 1);
    forall id | id in t.phases
      ensures LivePlace(t, id, name)
    {
      assert LivePlace(s, id, name);
    }
  }

  function Waiting(s: State): set<string> {
    set id | id in s.phases && s.phases[id] == Idle
  }

  /** With nobody of the level waiting, the level is done. */
  lemma NobodyWaits(c: Config, s: State, name: string)
    requires AreLevels(c.graph.nodes, c.levels) && Placed(c, s) && LivePlaced(s, name) && s.level < |c.levels|
    requires forall n :: n in c.levels[s.level] ==> n.id !in Waiting(s)
    ensures LevelDone(c, s)
  {
    forall n | n in c.levels[s.level]
      ensures n.id in s.phases && s.phases[n.id] == Done
    {
      assert AtLevel(c.graph.nodes, c.levels, n, s.level);
      assert n.id in s.phases && LivePlace(s, n.id, name);
    }
  }

  /** From any such state the run can go on to its end. */
  lemma {:induction false} GoesOn(c: Config, actions: seq<Action>, s: State, name: string)
    returns (all: seq<Action>, t: State)
    requires Live(c) && Name(name) && Run(c, actions) == Some(s) && Smooth(c, s, name) && AnswersPass(c, actions)
    ensures Run(c, all) == Some(t) && Smooth(c, t, name) && Returned(c, t) && AnswersPass(c, all)
    decreases |c.levels| - s.level, |Waiting(s)|
  {
    InvariantAlways(c, actions);
    if s.level == |c.levels| {
      all, t := actions, s;
    } else if n :| n in c.levels[s.level] && n.id in Waiting(s) {
      var next := NodeTurn(c, actions, s, n, name);
      WaitingShrinks(c, s, n, name);
      all, t := GoesOn(c, next, Answered(c, s, n, name), name);
    } else {
      NobodyWaits(c, s, name);
      LevelTurn(c, actions, s, name);
      all, t := GoesOn(c, actions + [NextLevel], s.(level := s.level + 1), name);
    }
  }

  lemma WaitingShrinks(c: Config, s: State, n: Node, name: string)
    requires n.id in Waiting(s)
    ensures |Waiting(Answered(c, s, n, name))| < |Waiting(s)| && Answered(c, s, n, name).level == s.level
  {
    assert Waiting(Answered(c, s, n, name)) == Waiting(s) - {n.id};
  }

  // ----- The end -----

  lemma AllConsumedUnresolvedEmpty(h: Hasher, ctx: Context, rs: seq<Record>)
    requires ProducesDigests(h) && forall r :: r in rs ==> r.status == CONSUMED
    ensures Reconcile(h, ctx, rs).unresolved == []
  {
    AuditClosesPending(h, ctx, rs);
    NothingPending(h, rs, Reconcile(h, ctx, rs).records);
    assert Reconcile(h, ctx, rs).unresolved == UnresolvedOf(Reconcile(h, ctx, rs).records);
  }

  lemma StatusFromParts(c: Config, s: State)
    requires forall n :: n in c.graph.nodes ==> Successful(s.states, n.id)
    requires Successful(s.states, c.graph.deliverable) && c.graph.deliverable in s.outputs
    requires "SYNTHETIC" !in s.states.Values && FinalReport(c, s).unresolved == [] && c.graph.exclusions == []
    ensures FinalStatus(c, s, false, false) == "COMPLETE"
  {
  }

  lemma EveryNodeComplete(c: Config, s: State, name: string)
    requires Prepared(c) && Invariant(c, s) && LivePlaced(s, name) && Returned(c, s)
    ensures forall id :: id in WorkflowGraphs.Ids(c.graph.nodes) ==>
                           Successful(s.states, id) && id in s.outputs && s.outputs[id].outputId == name
    ensures "SYNTHETIC" !in s.states.Values
  {
    forall id | id in WorkflowGraphs.Ids(c.graph.nodes)
      ensures id in s.states && s.states[id] == "COMPLETE" && id in s.outputs && s.outputs[id].outputId == name
    {
      AllNodesReturn(c, s, id);
      assert LivePlace(s, id, name);
    }
    assert forall id :: id in s.states ==> s.states[id] == "COMPLETE";
  }

  lemma SmoothIsComplete(c: Config, s: State, name: string)
    requires Live(c) && Unhindered(c) && Invariant(c, s) && Smooth(c, s, name) && Returned(c, s)
    ensures FinalStatus(c, s, false, false) == "COMPLETE"
    ensures forall n :: n in c.graph.nodes ==> Stored(s.outputs, n.id).outputId == name
  {
    EveryNodeComplete(c, s, name);
    assert forall n :: n in c.graph.nodes ==> n.id in WorkflowGraphs.Ids(c.graph.nodes);
    AllRecordsConsumed(c, s);
    AllConsumedUnresolvedEmpty(c.hash, AuditContext(c, s), s.handoffs);
    StatusFromParts(c, s);
  }

  /** There is a run in which every node completes, all answers under one given identifier and meeting the rules for
      outputs. */
  lemma EverybodyCompletes(c: Config, name: string) returns (actions: seq<Action>, s: State)
    requires Live(c) && Name(name)
    ensures Run(c, actions) == Some(s) && Returned(c, s) && Smooth(c, s, name) && AnswersPass(c, actions)
    ensures forall n :: n in c.graph.nodes ==> Successful(s.states, n.id)
  {
    assert Run(c, []) == Some(Init(c));
    SmoothStart(c, name);
    actions, s := GoesOn(c, [], Init(c), name);
    InvariantAlways(c, actions);
    EveryNodeComplete(c, s, name);
    assert forall n :: n in c.graph.nodes ==> n.id in WorkflowGraphs.Ids(c.graph.nodes);
  }

  predicate AllSuccessful(c: Config, s: State) {
    forall n :: n in c.graph.nodes ==> Successful(s.states, n.id)
  }

  lemma SuccessfulRun(c: Config) returns (actions: seq<Action>, s: State)
    requires Live(c)
    ensures Run(c, actions) == Some(s) && Returned(c, s) && AllSuccessful(c, s) && AnswersPass(c, actions)
  {
    actions, s := EverybodyCompletes(c, "");
  }

  /** Unless something stands against it from the start, that run returns COMPLETE. It passes exactly if the
      identifier is not empty or nothing is handed to anyone: with the empty one, COMPLETE comes with a failed audit. */
  lemma CompleteUpToNames(c: Config, name: string) returns (actions: seq<Action>)
    requires Live(c) && Unhindered(c) && Name(name)
    ensures Run(c, actions).Some? && AnswersPass(c, actions)
    ensures var s := Run(c, actions).value;
            && Returned(c, s) && FinalStatus(c, s, false, false) == "COMPLETE"
            && (FinalReport(c, s).pass <==> name != "" || forall n :: n in c.graph.nodes ==> !Receives(c, n))
  {
    var s: State;
    actions, s := EverybodyCompletes(c, name);
    InvariantAlways(c, actions);
    SmoothIsComplete(c, s, name);
    CompleteRunGovernance(c, actions, false, false);
  }
}
