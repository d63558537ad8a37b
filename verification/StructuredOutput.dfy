/** The correction loop of one agent (`complete_agent_output`, runtime/structured_output.py), while other agents
    draw on the same budget between its turns. */
module StructuredOutputs {
  import opened Wrappers
  import opened Sequences
  import opened RunBudgets

  /** What happens around one turn: the requests other agents get in first, the clock and quote the reservation
      sees, and whether the answer then validates. */
  datatype Turn = Turn(others: seq<Request>, elapsed: real, quote: Quote, valid: bool)

  function Own(turns: nat -> Turn, i: nat): Request {
    CallRequest(turns(i).elapsed, i > 0, turns(i).quote)
  }

  /** All requests the budget sees up to the `i`-th turn, other agents' included. */
  function RequestsBefore(turns: nat -> Turn, i: nat): seq<Request> {
    if i == 0 then [] else RequestsBefore(turns, i - 1) + turns(i - 1).others + [Own(turns, i - 1)]
  }

  function Admitted(l: Limits): (Usage, Request) -> Usage {
    (u, r) => match Attempt(l, u, r)
              case Ok(next) => next
              case Err(_) => u
  }

  /** The usage after some requests: refused ones change nothing. */
  function Admit(l: Limits, u: Usage, rs: seq<Request>): Usage {
    Fold(Admitted(l), u, rs)
  }

  /** The usage that the `i`-th reservation of this agent sees. */
  function SeenAt(l: Limits, u: Usage, turns: nat -> Turn, i: nat): Usage {
    Admit(l, u, RequestsBefore(turns, i) + turns(i).others)
  }

  predicate Reserves(l: Limits, u: Usage, turns: nat -> Turn, i: nat) {
    Attempt(l, SeenAt(l, u, turns, i), Own(turns, i)).Ok?
  }

  method Serve(budget: RunBudget, rs: seq<Request>)
    modifies budget
    ensures budget.usage == Admit(budget.limits, old(budget.usage), rs)
  {
    ghost var start := budget.usage;
    for i := 0 to |rs|
      invariant budget.usage == Admit(budget.limits, start, rs[..i])
    {
      FoldNext(Admitted(budget.limits), start, rs, i);
      match rs[i]
      case NodeRequest(elapsed) => var _ := budget.TakeNode(elapsed);
      case CallRequest(elapsed, correction, quote) => var _ := budget.TakeCall(elapsed, correction, quote);
    }
    assert rs[..|rs|] == rs;
  }

  /** One reservation of the loop, after the other agents' requests of this turn. */
  method TakeTurn(budget: RunBudget, turns: nat -> Turn, i: nat, ghost start: Usage) returns (refused: bool)
    requires budget.usage == UsageAfter(budget.limits, start, turns, i)
    modifies budget
    ensures refused ==> !Reserves(budget.limits, start, turns, i)
                        && budget.usage == SeenAt(budget.limits, start, turns, i)
    ensures !refused ==> Reserves(budget.limits, start, turns, i)
                         && budget.usage == UsageAfter(budget.limits, start, turns, i + 1)
  {
    ghost var l := budget.limits;
    FoldConcat(Admitted(l), start, RequestsBefore(turns, i), turns(i).others);
    FoldSnoc(Admitted(l), start, RequestsBefore(turns, i) + turns(i).others, Own(turns, i));
    Serve(budget, turns(i).others);
    var error := budget.TakeCall(turns(i).elapsed, i > 0, turns(i).quote);
    return error.Some?;
  }

  datatype Outcome = Valid | Refused | Exhausted

  /** The first `n` turns reserved their call and drew an invalid answer. */
  ghost predicate InVain(l: Limits, u: Usage, turns: nat -> Turn, n: nat) {
    forall i: nat {:trigger Reserves(l, u, turns, i)} :: i < n ==> Reserves(l, u, turns, i) && !turns(i).valid
  }

  lemma InVainNext(l: Limits, u: Usage, turns: nat -> Turn, n: nat)
    requires InVain(l, u, turns, n) && Reserves(l, u, turns, n) && !turns(n).valid
    ensures InVain(l, u, turns, n + 1)
  {
  }

  function UsageAfter(l: Limits, u: Usage, turns: nat -> Turn, i: nat): Usage {
    Admit(l, u, RequestsBefore(turns, i))
  }

  /** How the loop may end: at the first valid answer, at the first refused reservation, or after the permitted
      corrections. */
  ghost predicate Ended(l: Limits, u: Usage, turns: nat -> Turn, outcome: Outcome, attempts: nat, after: Usage) {
    match outcome
    case Valid =>
      attempts > 0 && InVain(l, u, turns, attempts - 1) && Reserves(l, u, turns, attempts - 1)
      && turns(attempts - 1).valid && after == UsageAfter(l, u, turns, attempts)
    case Exhausted =>
      attempts == l.maxCorrections + 1 && InVain(l, u, turns, attempts) && after == UsageAfter(l, u, turns, attempts)
    case Refused =>
      InVain(l, u, turns, attempts) && !Reserves(l, u, turns, attempts) && after == SeenAt(l, u, turns, attempts)
  }

  /** Every model call follows an admitted reservation of its own. */
  method CompleteAgentOutput(budget: RunBudget, turns: nat -> Turn) returns (outcome: Outcome, attempts: nat)
    modifies budget
    ensures attempts <= budget.limits.maxCorrections + 1
    ensures Ended(budget.limits, old(budget.usage), turns, outcome, attempts, budget.usage)
  {
    ghost var start := budget.usage;
    attempts := 0;
    while attempts < budget.limits.maxCorrections + 1
      invariant attempts <= budget.limits.maxCorrections + 1
      invariant budget.usage == UsageAfter(budget.limits, start, turns, attempts)
      invariant InVain(budget.limits, start, turns, attempts)
    {
      var refused := TakeTurn(budget, turns, attempts, start);
      if refused {
        return Refused, attempts;
      }
      if turns(attempts).valid {
        return Valid, attempts + 1;
      }
      InVainNext(budget.limits, start, turns, attempts);
      attempts := attempts + 1;
    }
    return Exhausted, attempts;
  }
}
