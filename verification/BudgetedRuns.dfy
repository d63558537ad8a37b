/** The budget over whole runs: the requests that interleaved agents make, replayed in order. */
module BudgetedRuns {
  import opened Wrappers
  import opened WorkflowGraphs
  import opened HandoffGovernance
  import opened RunBudgets
  import opened WorkflowEngine

  /** What one action asks of the budget. */
  function RequestOf(c: Config, s: State, a: Action): seq<Request>
    requires Enabled(c, s, a)
  {
    match a
    case Begin(id, elapsed) =>
      var n := Find(c.graph.nodes, id);
      if exists d :: d in n.dependsOn && !Successful(s.states, d) then [] else [NodeRequest(elapsed)]
    case CallModel(id, elapsed, quote) => [CallRequest(elapsed, s.phases[id].attempts > 0, quote)]
    case _ => []
  }

  /** What all actions of a run asked, in the order in which the event loop took them. */
  function RequestsIn(c: Config, actions: seq<Action>): seq<Request> {
    if actions == [] then []
    else
      var init, last := actions[..|actions| - 1], actions[|actions| - 1];
      match Run(c, init)
      case None => []
      case Some(s) => RequestsIn(c, init) + if Enabled(c, s, last) then RequestOf(c, s, last) else []
  }

  lemma StepAttempts(c: Config, s: State, a: Action, h: History)
    requires Enabled(c, s, a) && s.usage == h.usage && s.modelCalls == Calls(h.admitted)
    ensures
      var t, rs := Apply(c, s, a), RequestOf(c, s, a);
      if rs == [] then t.usage == s.usage && t.modelCalls == s.modelCalls
      else if Attempt(c.limits, s.usage, rs[0]).Err? then t.usage == s.usage && t.modelCalls == s.modelCalls
      else t.usage == Attempt(c.limits, s.usage, rs[0]).value && t.modelCalls == Calls(h.admitted + [rs[0]])
  {
    if RequestOf(c, s, a) != [] {
      CountersOfSnoc(h.admitted, RequestOf(c, s, a)[0]);
    }
  }

  lemma ReplaySnoc(l: Limits, rs: seq<Request>, r: Request)
    ensures Replay(l, rs + [r]) ==
            match Attempt(l, Replay(l, rs).usage, r)
            case Ok(next) => History(next, Replay(l, rs).admitted + [r])
            case Err(_) => Replay(l, rs)
  {
    assert (rs + [r])[..|rs|] == rs;
  }

  /** The run's budget is the replay of its requests, and every model call is an admitted reservation. */
  lemma {:induction false} RunReplaysBudget(c: Config, actions: seq<Action>)
    ensures Run(c, actions).Some? ==>
              && Run(c, actions).value.usage == Replay(c.limits, RequestsIn(c, actions)).usage
              && Run(c, actions).value.modelCalls == Calls(Replay(c.limits, RequestsIn(c, actions)).admitted)
  {
    if actions != [] && Run(c, actions).Some? {
      var init, last := actions[..|actions| - 1], actions[|actions| - 1];
      RunReplaysBudget(c, init);
      var s := Run(c, init).value;
      var before, rs := RequestsIn(c, init), RequestOf(c, s, last);
      StepAttempts(c, s, last, Replay(c.limits, before));
      if rs == [] {
        assert before + rs == before;
      } else {
        assert rs == [rs[0]];
        ReplaySnoc(c.limits, before, rs[0]);
      }
    }
  }

  /** Across all interleaved agents and correction loops: as many model calls as admitted call reservations, counters
      within the limits, and a total that is the sum of the admitted quotes for as long as all of them were known. */
  lemma RunAccounts(c: Config, actions: seq<Action>)
    requires ValidLimits(c.limits) && Run(c, actions).Some?
    ensures
      var s, h := Run(c, actions).value, Replay(c.limits, RequestsIn(c, actions));
      && Accounts(c.limits, h) && s.usage == h.usage
      && s.modelCalls == Calls(h.admitted) <= c.limits.maxCalls
      && (c.limits.maxCost.Some? ==> s.usage.cost == Some(Spent(h.admitted)) && Spent(h.admitted) <= c.limits.maxCost.value)
  {
    RunReplaysBudget(c, actions);
    BudgetHolds(c.limits, RequestsIn(c, actions));
  }
}
