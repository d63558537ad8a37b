/** The runner as it runs: one object whose fields the coroutines of `_execute_node` update in place. Each method is
    one uninterrupted segment, and does to the fields what the step relation says it does to the state. */
module WorkflowRunner {
  import opened Wrappers
  import opened Sorting
  import opened Sequences
  import opened Handoffs
  import opened AgentOutputs
  import opened WorkflowGraphs
  import opened GraphBuilder
  import opened HandoffGovernance
  import opened HandoffAudit
  import opened RunBudgets
  import Engine = WorkflowEngine

  class WorkflowRun {
    const config: Engine.Config
    const budget: RunBudget
    var level: nat
    var phases: map<string, Engine.Phase>
    var started: seq<string>
    var handoffs: seq<Handoff>
    var outputs: map<string, Output>
    var order: seq<string>
    var states: map<string, string>
    var modelCalls: nat

    ghost predicate Valid()
      reads this, handoffs
    {
      Distinct(handoffs) && budget.limits == config.limits
    }

    /** The abstract state of the run. */
    function View(): Engine.State
      reads this, budget, handoffs
    {
      Engine.State(level, phases, started, Values(handoffs), outputs, order, states, budget.usage, modelCalls)
    }

    /** A fresh run whose session holds the given pending handoffs. */
    constructor (c: Engine.Config)
      requires forall r :: r in c.initial ==> r == Pending(r.contract)
      ensures Valid() && config == c && View() == Engine.Init(c)
      ensures fresh(budget) && forall h :: h in handoffs ==> fresh(h)
    {
      config := c;
      level, started, outputs, order, states, modelCalls := 0, [], map[], [], map[], 0;
      phases := map id | id in WorkflowGraphs.Ids(c.graph.nodes) :: Engine.Idle;
      budget := new RunBudget(c.limits);
      var hs := NewHandoffs(seq(|c.initial|, i requires 0 <= i < |c.initial| => c.initial[i].contract));
      handoffs := hs;
      new;
      assert Values(handoffs) == c.initial;
    }

    /** `block_node` */
    method BlockNode(id: string)
      requires Valid()
      modifies this
      ensures Valid() && View() == Engine.Blocked(old(View()), id) && handoffs == old(handoffs)
    {
      states := states[id := "BLOCKED"];
      phases := phases[id := Engine.Done];
    }

    /** `session.handoffs.extend(...)` with new pending handoffs. */
    method AppendHandoffs(cs: seq<Contract>)
      requires Valid()
      modifies this`handoffs
      ensures Valid() && Values(handoffs) == old(Values(handoffs)) + Engine.AllPending(cs)
      ensures old(handoffs) <= handoffs && forall h :: h in handoffs[|old(handoffs)|..] ==> fresh(h)
    {
      var created := NewHandoffs(cs);
      DistinctConcat(handoffs, created);
      handoffs := handoffs + created;
    }

    /** The segment of `_execute_node` before the semaphore. */
    method BeginNode(n: Node, elapsed: real)
      requires Valid()
      modifies this, budget
      ensures Valid() && View() == Engine.BeginNode(config, old(View()), n, elapsed)
      ensures old(handoffs) <= handoffs && forall h :: h in handoffs[|old(handoffs)|..] ==> fresh(h)
    {
      if exists d :: d in n.dependsOn && !Successful(states, d) {
        BlockNode(n.id);
        return;
      }
      var refused := budget.TakeNode(elapsed);
      if refused.Some? {
        BlockNode(n.id);
        return;
      }
      StartNode(n);
    }

    /** A node whose reservation was made starts: its handoffs, its event, its place in the queue. */
    method StartNode(n: Node)
      requires Valid()
      modifies this
      ensures Valid() && old(handoffs) <= handoffs && forall h :: h in handoffs[|old(handoffs)|..] ==> fresh(h)
      ensures View() == old(View()).(
                started := old(started) + [n.id], phases := old(phases)[n.id := Engine.Queued],
                handoffs := old(Values(handoffs)) + Engine.AllPending(Engine.NodeContracts(config, n, old(outputs))))
    {
      AppendHandoffs(Engine.NodeContracts(config, n, outputs));
      started := started + [n.id];
      phases := phases[n.id := Engine.Queued];
    }

    /** The segment of `_execute_node` after the agent returned. */
    method FinishNode(n: Node, o: Output, status: Engine.Status, synthetic: bool, stamp: string)
      requires Valid()
      modifies this, handoffs
      ensures Valid() && View() == Engine.Finish(config, old(View()), n, o, status, synthetic, stamp)
      ensures handoffs == old(handoffs)
    {
      ResolveNodeHandoffs(config.hash, handoffs, n, o, stamp);
      outputs := outputs[n.id := o];
      order := order + [n.id];
      states := states[n.id := Engine.ResultState(status, synthetic, o)];
      phases := phases[n.id := Engine.Done];
    }

    /** One turn of the correction loop up to the model call. */
    method CallOnce(n: Node, attempts: nat, elapsed: real, quote: Quote)
      requires Valid()
      modifies this, budget, handoffs
      ensures Valid() && View() == Engine.CallOnce(config, old(View()), n, attempts, elapsed, quote)
      ensures handoffs == old(handoffs)
    {
      var refused := budget.TakeCall(elapsed, attempts > 0, quote);
      if refused.Some? {
        FinishNode(n, Engine.FailureOutput(config.session, n.agent, "BLOCKED"), Engine.Status.Refused, false, "");
        return;
      }
      modelCalls := modelCalls + 1;
      phases := phases[n.id := Engine.Awaiting(attempts + 1)];
    }

    /** The rest of that turn. */
    method TakeReply(n: Node, attempts: nat, reply: Engine.Reply, stamp: string)
      requires Valid()
      modifies this, handoffs
      ensures Valid() && View() == Engine.TakeReply(config, old(View()), n, attempts, reply, stamp)
      ensures handoffs == old(handoffs)
    {
      if reply.Accepted? {
        FinishNode(n, reply.output, Engine.Status.Ok, false, stamp);
      } else if attempts > config.limits.maxCorrections {
        FinishNode(n, Engine.FailureOutput(config.session, n.agent, "FAILED"), Engine.Status.Failed, false, stamp);
      } else {
        phases := phases[n.id := Engine.Active(attempts)];
      }
    }

    /** Whatever action is possible, taking it on the object is taking it in the step relation. */
    method Perform(a: Engine.Action)
      requires Valid() && Engine.Enabled(config, View(), a)
      modifies this, budget, handoffs
      ensures Valid() && View() == Engine.Apply(config, old(View()), a)
    {
      match a
      case NextLevel => level := level + 1;
      case Begin(id, elapsed) => BeginNode(Find(config.graph.nodes, id), elapsed);
      case Acquire(id) => phases := phases[id := Engine.Active(0)];
      case CallModel(id, elapsed, quote) =>
        CallOnce(Find(config.graph.nodes, id), phases[id].attempts, elapsed, quote);
      case Answer(id, reply, stamp) =>
        TakeReply(Find(config.graph.nodes, id), phases[id].attempts, reply, stamp);
      case RunEcho(id, schemaValid, stamp) =>
        var n := Find(config.graph.nodes, id);
        if schemaValid {
          var shared := Engine.SharedOutputs(config, level, outputs, order);
          var o := Engine.EchoOutput(n, shared, Values(handoffs));
          FinishNode(n, o, Engine.Status.Ok, true, stamp);
        } else {
          FinishNode(n, Engine.FailureOutput(config.session, n.agent, "FAILED"), Engine.Status.Failed, true, stamp);
        }
    }

    /** The audit of `_finalize_run`, in place. */
    method FinalAudit() returns (report: Report)
      requires Valid()
      modifies handoffs
      ensures report == Engine.FinalReport(config, old(View())) && Values(handoffs) == report.records
    {
      report := ReconcileRequiredHandoffs(config.hash, Context(config.session, config.graph, states, outputs), handoffs);
    }
  }

  /** One turn of the loop of `_resolve_node_handoffs`. */
  method ResolveOneHandoff(h: Hasher, pending: Handoff, n: Node, o: Output, stamp: string)
    modifies pending
    ensures pending.Value() == Engine.ResolveOne(h, n, o, old(pending.Value()), stamp)
  {
    if pending.status == CREATED && pending.contract.toAgent == n.agent
       && (pending.contract.target == "" || pending.contract.target == n.id) {
      ResolveAcknowledgements(h, pending, o.acks, Receiver(Engine.AnswerId(n, o), n.id, o.agent), stamp);
    }
  }

  /** `_resolve_node_handoffs`, over the live handoffs. */
  method ResolveNodeHandoffs(h: Hasher, hs: seq<Handoff>, n: Node, o: Output, stamp: string)
    requires Distinct(hs)
    modifies hs
    ensures Values(hs) == Engine.ResolveAll(h, n, o, old(Values(hs)), stamp)
  {
    ghost var before := Values(hs);
    ghost var after := Engine.ResolveAll(h, n, o, before, stamp);
    for i := 0 to |hs|
      invariant forall j :: 0 <= j < i ==> hs[j].Value() == after[j]
      invariant forall j :: i <= j < |hs| ==> hs[j].Value() == before[j]
    {
      ghost var value := hs[i].Value();
      ResolveOneHandoff(h, hs[i], n, o, stamp);
      assert hs[i].Value() == Engine.ResolveOne(h, n, o, value, stamp) == after[i];
    }
    assert Values(hs) == after;
  }

  /** What `append_risk_handoff` touches: the session's handoffs and the graph's declared controls. */
  class Session {
    var handoffs: seq<Handoff>
    var controls: seq<Control>

    constructor ()
      ensures handoffs == [] && controls == []
    {
      handoffs, controls := [], [];
    }

    method AppendRiskHandoff(base: Engine.Config, route: Route, risks: seq<string>, evidence: seq<string>)
      requires base.initial == Values(handoffs) && base.graph.controls == controls
      modifies this
      ensures Values(handoffs) == Engine.Launch(base, route, risks, evidence).initial
      ensures controls == Engine.Launch(base, route, risks, evidence).graph.controls
      ensures old(handoffs) <= handoffs && forall h :: h in handoffs[|old(handoffs)|..] ==> fresh(h)
    {
      if risks == [] || route.leadAgent == SCRUM {
        return;
      }
      var handoff := new Handoff(
        Engine.RiskContract(base.session, base.wording, route, risks, evidence, base.graph.nodes));
      controls := controls + [Control(OPEN_RISK, Some(handoff.contract))];
      handoffs := handoffs + [handoff];
    }
  }

  lemma DistinctConcat(a: seq<Handoff>, b: seq<Handoff>)
    requires Distinct(a) && Distinct(b) && forall h :: h in b ==> h !in a
    ensures Distinct(a + b)
  {
    forall i, j | 0 <= i < j < |a + b|
      ensures (a + b)[i] != (a + b)[j]
    {
      if i < |a| <= j {
        assert b[j - |a|] in b;
      }
    }
  }

  /** `_create_handoffs`: one new object per contract, in order. */
  method NewHandoffs(cs: seq<Contract>) returns (hs: seq<Handoff>)
    ensures Distinct(hs) && |hs| == |cs| && Values(hs) == Engine.AllPending(cs)
    ensures forall h :: h in hs ==> fresh(h)
  {
    hs := [];
    for i := 0 to |cs|
      invariant Distinct(hs) && |hs| == i && forall h :: h in hs ==> fresh(h)
      invariant forall j :: 0 <= j < i ==> hs[j].Value() == Pending(cs[j])
    {
      var h := new Handoff(cs[i]);
      hs := hs + [h];
    }
  }
}
