/** Per-run budget accounting (runtime/run_budget.py, runtime/execution_limits.py). */
module RunBudgets {
  import opened Wrappers

  datatype Limits = Limits(
    maxNodes: nat, maxCalls: nat, maxParallel: nat, maxCorrections: nat, maxDepth: nat,
    maxRuntime: nat, maxCost: Option<real>)

  /** `ExecutionLimits.__post_init__` */
  predicate ValidLimits(l: Limits) {
    && l.maxNodes >= 1 && l.maxCalls >= 1 && l.maxParallel >= 1 && l.maxDepth >= 1 && l.maxRuntime >= 1
    && (l.maxCost.Some? ==> l.maxCost.value >= 0.0)
  }

  datatype Usage = Usage(nodes: nat, calls: nat, corrections: nat, cost: Option<real>)

  const FRESH := Usage(0, 0, 0, Some(0.0))

  /** What the client's estimator answers: nothing configured, an exception, a value that is not a finite
      number, or an amount. */
  datatype Quote = Unknown | Unavailable | NotFinite | Quoted(amount: real)

  datatype BudgetError = RuntimeExceeded | NodesExceeded | CallsExceeded | CorrectionsExceeded | CostRefused

  function CheckRuntime(l: Limits, elapsed: real): bool {
    elapsed <= l.maxRuntime as real
  }

  /** `_cost_total` over real numbers. */
  function CostTotal(current: Option<real>, quote: Quote, ceiling: Option<real>): Result<Option<real>, BudgetError> {
    match quote
    case Unavailable => Err(CostRefused)
    case NotFinite => Err(CostRefused)
    case Unknown => if ceiling.Some? then Err(CostRefused) else Ok(None)
    case Quoted(amount) =>
      if amount < 0.0 then Err(CostRefused)
      else
        var total := if current.None? then None else Some(current.value + amount);
        if ceiling.Some? && (total.None? || total.value > ceiling.value) then Err(CostRefused) else Ok(total)
  }

  function ReserveNode(l: Limits, u: Usage, elapsed: real): Result<Usage, BudgetError> {
    if !CheckRuntime(l, elapsed) then Err(RuntimeExceeded)
    else if u.nodes + 1 > l.maxNodes then Err(NodesExceeded)
    else Ok(u.(nodes := u.nodes + 1))
  }

  function ReserveCall(l: Limits, u: Usage, elapsed: real, correction: bool, quote: Quote): Result<Usage, BudgetError> {
    if quote.Unavailable? then Err(CostRefused)
    else if !CheckRuntime(l, elapsed) then Err(RuntimeExceeded)
    else if u.calls + 1 > l.maxCalls then Err(CallsExceeded)
    else if correction && u.corrections + 1 > l.maxCorrections then Err(CorrectionsExceeded)
    else
      match CostTotal(u.cost, quote, l.maxCost)
      case Err(e) => Err(e)
      case Ok(total) =>
        Ok(u.(calls := u.calls + 1, corrections := u.corrections + (if correction then 1 else 0), cost := total))
  }

  /** The shared, single-use budget: a refused reservation changes nothing. */
  class RunBudget {
    const limits: Limits
    var usage: Usage

    constructor (l: Limits)
      ensures limits == l && usage == FRESH
    {
      limits := l;
      usage := FRESH;
    }

    method TakeNode(elapsed: real) returns (error: Option<BudgetError>)
      modifies this
      ensures match ReserveNode(limits, old(usage), elapsed)
              case Ok(next) => error == None && usage == next
              case Err(e) => error == Some(e) && usage == old(usage)
    {
      if elapsed > limits.maxRuntime as real {
        return Some(RuntimeExceeded);
      }
      if usage.nodes + 1 > limits.maxNodes {
        return Some(NodesExceeded);
      }
      usage := usage.(nodes := usage.nodes + 1);
      return None;
    }

    method TakeCall(elapsed: real, correction: bool, quote: Quote) returns (error: Option<BudgetError>)
      modifies this
      ensures match ReserveCall(limits, old(usage), elapsed, correction, quote)
              case Ok(next) => error == None && usage == next
              case Err(e) => error == Some(e) && usage == old(usage)
    {
      if quote.Unavailable? {
        return Some(CostRefused);
      }
      if elapsed > limits.maxRuntime as real {
        return Some(RuntimeExceeded);
      }
      if usage.calls + 1 > limits.maxCalls {
        return Some(CallsExceeded);
      }
      if correction && usage.corrections + 1 > limits.maxCorrections {
        return Some(CorrectionsExceeded);
      }
      var total := CostTotal(usage.cost, quote, limits.maxCost);
      if total.Err? {
        return Some(total.error);
      }
      usage := usage.(calls := usage.calls + 1);
      if correction {
        usage := usage.(corrections := usage.corrections + 1);
      }
      usage := usage.(cost := total.value);
      return None;
    }
  }

  // ----- Whole histories of reservations -----

  datatype Request = NodeRequest(elapsed: real) | CallRequest(elapsed: real, correction: bool, quote: Quote)

  function Attempt(l: Limits, u: Usage, r: Request): Result<Usage, BudgetError> {
    match r
    case NodeRequest(elapsed) => ReserveNode(l, u, elapsed)
    case CallRequest(elapsed, correction, quote) => ReserveCall(l, u, elapsed, correction, quote)
  }

  datatype History = History(usage: Usage, admitted: seq<Request>)

  /** Any sequence of requests against one budget: refused ones are skipped. */
  function Replay(l: Limits, rs: seq<Request>): History {
    if rs == [] then History(FRESH, [])
    else
      var before := Replay(l, rs[..|rs| - 1]);
      match Attempt(l, before.usage, rs[|rs| - 1])
      case Ok(next) => History(next, before.admitted + [rs[|rs| - 1]])
      case Err(_) => before
  }

  function Nodes(rs: seq<Request>): nat {
    if rs == [] then 0 else Nodes(rs[..|rs| - 1]) + if rs[|rs| - 1].NodeRequest? then 1 else 0
  }

  function Calls(rs: seq<Request>): nat {
    if rs == [] then 0 else Calls(rs[..|rs| - 1]) + if rs[|rs| - 1].CallRequest? then 1 else 0
  }

  function Corrections(rs: seq<Request>): nat {
    if rs == [] then 0
    else Corrections(rs[..|rs| - 1]) + if rs[|rs| - 1].CallRequest? && rs[|rs| - 1].correction then 1 else 0
  }

  /** The sum of the quoted amounts. */
  function Spent(rs: seq<Request>): real {
    if rs == [] then 0.0
    else
      Spent(rs[..|rs| - 1])
      + if rs[|rs| - 1].CallRequest? && rs[|rs| - 1].quote.Quoted? then rs[|rs| - 1].quote.amount else 0.0
  }

  predicate AllQuoted(rs: seq<Request>) {
    forall r :: r in rs && r.CallRequest? ==> r.quote.Quoted?
  }

  /** The counters count the admitted requests and stay within the limits; the total is the sum of the
      admitted quotes for as long as every admitted call was quoted, and unknown from the first unquoted
      call on; under a ceiling every admitted call was quoted and the sum respects it. */
  predicate Accounts(l: Limits, h: History) {
    && h.usage.nodes == Nodes(h.admitted) <= l.maxNodes
    && h.usage.calls == Calls(h.admitted) <= l.maxCalls
    && h.usage.corrections == Corrections(h.admitted) <= l.maxCorrections
    && h.usage.cost == (if AllQuoted(h.admitted) then Some(Spent(h.admitted)) else None)
    && (l.maxCost.Some? ==> AllQuoted(h.admitted) && Spent(h.admitted) <= l.maxCost.value)
  }

  lemma CountersOfSnoc(rs: seq<Request>, r: Request)
    ensures Nodes(rs + [r]) == Nodes(rs) + if r.NodeRequest? then 1 else 0
    ensures Calls(rs + [r]) == Calls(rs) + if r.CallRequest? then 1 else 0
    ensures Corrections(rs + [r]) == Corrections(rs) + if r.CallRequest? && r.correction then 1 else 0
    ensures Spent(rs + [r]) == Spent(rs) + if r.CallRequest? && r.quote.Quoted? then r.quote.amount else 0.0
    ensures AllQuoted(rs + [r]) <==> AllQuoted(rs) && (r.CallRequest? ==> r.quote.Quoted?)
  {
    var all := rs + [r];
    assert all[..|all| - 1] == rs && all[|all| - 1] == r;
    assert forall x :: x in all <==> x in rs || x == r;
  }

  lemma AdmissionAccounts(l: Limits, h: History, r: Request)
    requires Accounts(l, h) && Attempt(l, h.usage, r).Ok?
    ensures Accounts(l, History(Attempt(l, h.usage, r).value, h.admitted + [r]))
  {
    CountersOfSnoc(h.admitted, r);
    var next := Attempt(l, h.usage, r).value;
    match r
    case NodeRequest(_) => assert next.cost == h.usage.cost;
    case CallRequest(_, _, quote) =>
      assert CostTotal(h.usage.cost, quote, l.maxCost) == Ok(next.cost);
  }

  /** Every history of requests accounts for itself, whatever the quotes and times. */
  lemma {:induction false} BudgetHolds(l: Limits, rs: seq<Request>)
    requires ValidLimits(l)
    ensures Accounts(l, Replay(l, rs))
  {
    if rs != [] {
      var init, last := rs[..|rs| - 1], rs[|rs| - 1];
      BudgetHolds(l, init);
      if Attempt(l, Replay(l, init).usage, last).Ok? {
        AdmissionAccounts(l, Replay(l, init), last);
      }
    }
  }

  /** A refused request leaves the budget exactly as it was, for every later request too. */
  lemma {:induction false} RefusalIsInvisible(l: Limits, rs: seq<Request>, refused: Request, later: seq<Request>)
    requires Attempt(l, Replay(l, rs).usage, refused).Err?
    ensures Replay(l, rs + [refused] + later) == Replay(l, rs + later)
  {
    if later == [] {
      assert (rs + [refused])[..|rs|] == rs;
      assert rs + [refused] + later == rs + [refused] && rs + later == rs;
    } else {
      var init, last := later[..|later| - 1], later[|later| - 1];
      var a, b := rs + [refused] + later, rs + later;
      assert a[..|a| - 1] == rs + [refused] + init && b[..|b| - 1] == rs + init;
      RefusalIsInvisible(l, rs, refused, init);
    }
  }
}
