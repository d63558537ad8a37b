/** Executable DAG definitions (runtime/workflow_graph.py): validation by memoised depth-first search and
    Kahn levels, both measured against longest dependency chains. */
module WorkflowGraphs {
  import opened Wrappers
  import opened Sorting
  import opened Text
  import opened Handoffs

  datatype Node = Node(id: string, agent: string, dependsOn: seq<string>, required: bool, role: string)

  /** `None` stands for a declaration of any other shape than control type plus full contract. */
  datatype Control = Control(controlType: string, contract: Option<Contract>)

  datatype Graph = Graph(
    id: string, nodes: seq<Node>, deliverable: string, exclusions: seq<string>, controls: seq<Control>)

  datatype GraphError =
    | NoNodes
    | TooManyNodes
    | DuplicateIds
    | NoDeliverable
    | UnknownDeliverable
    | UnknownDependency(node: string)
    | SelfDependency(node: string)
    | Cycle
    | TooDeep(depth: nat)
    | DeliverableNotTerminal

  ghost predicate UniqueIds(nodes: seq<Node>) {
    forall i, j :: 0 <= i < j < |nodes| ==> nodes[i].id != nodes[j].id
  }

  function Ids(nodes: seq<Node>): set<string> {
    set n | n in nodes :: n.id
  }

  /** `next(item for item in nodes if item.id == id)` */
  function Find(nodes: seq<Node>, id: string): (n: Node)
    requires id in Ids(nodes)
    ensures n in nodes && n.id == id
  {
    if nodes[0].id == id then nodes[0] else Find(nodes[1..], id)
  }

  lemma {:induction false} FindUnique(nodes: seq<Node>, n: Node)
    requires UniqueIds(nodes) && n in nodes
    ensures Find(nodes, n.id) == n
  {
    if nodes[0] != n {
      FindUnique(nodes[1..], n);
    }
  }

  /** Which nodes each node waits for. */
  type Dependencies = map<string, seq<string>>

  function DependencyMap(nodes: seq<Node>): (m: Dependencies)
    ensures m.Keys == Ids(nodes)
  {
    map id | id in Ids(nodes) :: Find(nodes, id).dependsOn
  }

  ghost predicate Closed(m: Dependencies) {
    forall id, d :: id in m && d in m[id] ==> d in m
  }

  // ----- Chains: the reference for depth -----

  /** A path along dependencies, earliest dependency first. */
  ghost predicate IsChain(m: Dependencies, p: seq<string>) {
    && p != []
    && (forall i :: 0 <= i < |p| ==> p[i] in m)
    && (forall i, j :: 0 <= i < j < |p| && j == i + 1 ==> Waits(m, p[j], p[i]))
  }

  /** `id` depends on `d`. */
  predicate Waits(m: Dependencies, id: string, d: string) {
    id in m && d in m[id]
  }

  ghost predicate HasCycle(m: Dependencies) {
    exists p :: IsChain(m, p) && |p| >= 2 && p[0] == p[|p| - 1]
  }

  /** The longest chain that ends in `id` visits `n` nodes. */
  ghost predicate LongestChain(m: Dependencies, id: string, n: nat) {
    && (exists p :: IsChain(m, p) && p[|p| - 1] == id && |p| == n)
    && (forall p :: IsChain(m, p) && p[|p| - 1] == id ==> |p| <= n)
  }

  // ----- Ranks: the recurrence both algorithms compute -----

  function MaxRank(ids: seq<string>, rank: map<string, nat>): (r: nat)
    requires forall d :: d in ids ==> d in rank
    ensures forall d :: d in ids ==> rank[d] <= r
  {
    if ids == [] then 0
    else
      var rest := MaxRank(ids[1..], rank);
      if rank[ids[0]] >= rest then rank[ids[0]] else rest
  }

  lemma {:induction false} MaxRankAttained(ids: seq<string>, rank: map<string, nat>)
    requires forall d :: d in ids ==> d in rank
    ensures MaxRank(ids, rank) == 0 || exists d :: d in ids && rank[d] == MaxRank(ids, rank)
  {
    if ids != [] {
      MaxRankAttained(ids[1..], rank);
    }
  }

  predicate RankedAt(m: Dependencies, rank: map<string, nat>, id: string)
    requires id in rank
  {
    && id in m
    && (forall d :: d in m[id] ==> d in rank)
    && rank[id] == 1 + MaxRank(m[id], rank)
  }

  ghost predicate Ranked(m: Dependencies, rank: map<string, nat>) {
    forall id {:trigger RankedAt(m, rank, id)} :: id in rank ==> RankedAt(m, rank, id)
  }

  /** Any chain into a ranked node is at most as long as the rank, and climbs strictly. */
  lemma {:induction false} RankBoundsChain(m: Dependencies, rank: map<string, nat>, p: seq<string>)
    requires Ranked(m, rank) && IsChain(m, p) && p[|p| - 1] in rank
    ensures |p| <= rank[p[|p| - 1]]
    ensures p[0] in rank && rank[p[0]] + |p| - 1 <= rank[p[|p| - 1]]
    decreases |p|
  {
    var last := p[|p| - 1];
    assert RankedAt(m, rank, last);
    if |p| > 1 {
      var q := p[..|p| - 1];
      assert Waits(m, last, q[|q| - 1]);
      RankBoundsChain(m, rank, q);
    }
  }

  lemma ChainSnoc(m: Dependencies, q: seq<string>, id: string)
    requires IsChain(m, q) && Waits(m, id, q[|q| - 1])
    ensures IsChain(m, q + [id])
  {
  }

  lemma {:induction false} RankChain(m: Dependencies, rank: map<string, nat>, id: string) returns (p: seq<string>)
    requires Ranked(m, rank) && id in rank
    ensures IsChain(m, p) && p[|p| - 1] == id && |p| == rank[id]
    decreases rank[id]
  {
    assert RankedAt(m, rank, id);
    if rank[id] == 1 {
      p := [id];
    } else {
      MaxRankAttained(m[id], rank);
      var d :| d in m[id] && rank[d] == rank[id] - 1;
      var q := RankChain(m, rank, d);
      ChainSnoc(m, q, id);
      p := q + [id];
    }
  }

  lemma RankIsLongestChain(m: Dependencies, rank: map<string, nat>, id: string)
    requires Ranked(m, rank) && id in rank
    ensures LongestChain(m, id, rank[id])
    ensures forall n: nat :: LongestChain(m, id, n) ==> n == rank[id]
  {
    var p := RankChain(m, rank, id);
    forall q | IsChain(m, q) && q[|q| - 1] == id
      ensures |q| <= rank[id]
    {
      RankBoundsChain(m, rank, q);
    }
  }

  lemma RankedIsAcyclic(m: Dependencies, rank: map<string, nat>)
    requires Ranked(m, rank) && m.Keys <= rank.Keys
    ensures !HasCycle(m)
  {
    forall p | IsChain(m, p) && |p| >= 2
      ensures p[0] != p[|p| - 1]
    {
      RankBoundsChain(m, rank, p);
    }
  }

  predicate WaitsInside(m: Dependencies, id: string, within: set<string>) {
    exists d :: d in within && Waits(m, id, d)
  }

  lemma CloseLoop(m: Dependencies, walk: seq<string>, d: string)
    requires IsChain(m, walk) && d in walk && Waits(m, walk[0], d) && d in m
    ensures HasCycle(m)
  {
    var i :| 0 <= i < |walk| && walk[i] == d;
    var loop := [d] + walk[..i + 1];
    assert IsChain(m, loop);
    assert loop[0] == loop[|loop| - 1];
  }

  /** A nonempty set of nodes that all wait for a member of the set contains a cycle: walk backwards
      without repetition until the walk must repeat. */
  lemma {:induction false} StuckHasCycle(m: Dependencies, stuck: set<string>, walk: seq<string>)
    requires stuck <= m.Keys
    requires forall id {:trigger WaitsInside(m, id, stuck)} :: id in stuck ==> WaitsInside(m, id, stuck)
    requires IsChain(m, walk) && NoDuplicates(walk)
    requires forall i :: 0 <= i < |walk| ==> walk[i] in stuck
    ensures HasCycle(m)
    decreases |stuck| - |walk|
  {
    DistinctWithin(walk, stuck);
    assert WaitsInside(m, walk[0], stuck);
    var d :| d in stuck && Waits(m, walk[0], d);
    if d in walk {
      CloseLoop(m, walk, d);
    } else {
      var longer := [d] + walk;
      DistinctWithin(longer, stuck);
      StuckHasCycle(m, stuck, longer);
    }
  }

  lemma DistinctWithin(walk: seq<string>, all: set<string>)
    requires NoDuplicates(walk)
    requires forall i :: 0 <= i < |walk| ==> walk[i] in all
    ensures |walk| <= |all|
  {
    NoDuplicatesCardinality(walk);
    var visited := set x | x in walk;
    SubsetCardinality(visited, all);
  }

  lemma SubsetCardinality<T>(a: set<T>, b: set<T>)
    requires a <= b
    ensures |a| <= |b|
  {
    assert b == a + (b - a);
  }

  // ----- Kahn levels -----

  predicate NodeLessEq(a: Node, b: Node) {
    LessEq(a.id, b.id)
  }

  function SortById(nodes: seq<Node>): (r: seq<Node>)
    ensures multiset(r) == multiset(nodes) && |r| == |nodes|
    ensures forall n :: n in r <==> n in nodes
  {
    var r := Sort(nodes, NodeLessEq);
    assert forall n :: n in r <==> n in multiset(r);
    r
  }

  predicate Ready(n: Node, completed: set<string>) {
    forall d :: d in n.dependsOn ==> d in completed
  }

  /** What a list of levels must be: level `k` holds exactly the nodes whose longest dependency chain
      visits `k + 1` nodes, and every node is in some level. */
  ghost predicate AreLevels(nodes: seq<Node>, levels: seq<seq<Node>>) {
    && (forall k :: 0 <= k < |levels| ==> levels[k] != [])
    && (forall k, n {:trigger AtLevel(nodes, levels, n, k)} :: 0 <= k < |levels| ==> AtLevel(nodes, levels, n, k))
    && (forall n {:trigger HasLevel(levels, n)} :: n in nodes ==> HasLevel(levels, n))
  }

  ghost predicate AtLevel(nodes: seq<Node>, levels: seq<seq<Node>>, n: Node, k: nat)
    requires k < |levels|
  {
    n in levels[k] <==> n in nodes && LongestChain(DependencyMap(nodes), n.id, k + 1)
  }

  ghost predicate HasLevel(levels: seq<seq<Node>>, n: Node) {
    exists k :: 0 <= k < |levels| && n in levels[k]
  }

  ghost predicate LevelsSoFar(nodes: seq<Node>, rank: map<string, nat>, levels: seq<seq<Node>>) {
    && (forall k :: 0 <= k < |levels| ==> levels[k] != [])
    && (forall id :: id in rank ==> 1 <= rank[id] <= |levels|)
    && (forall k, n :: 0 <= k < |levels| ==>
          (n in levels[k] <==> n in nodes && n.id in rank && rank[n.id] == k + 1))
  }

  /** Every node left over waits for something unfinished or for the level just emitted. */
  ghost predicate WaitsForLast(n: Node, rank: map<string, nat>, last: nat) {
    last == 0 || exists d :: d in n.dependsOn && (d !in rank || rank[d] == last)
  }

  /** Giving each ready node the next rank keeps the recurrence. */
  lemma ExtendRanks(nodes: seq<Node>, rank: map<string, nat>, ready: seq<Node>, last: nat, next: map<string, nat>)
    requires UniqueIds(nodes)
    requires Ranked(DependencyMap(nodes), rank)
    requires forall id :: id in rank ==> rank[id] <= last
    requires forall n :: n in ready ==> n in nodes && n.id !in rank && Ready(n, rank.Keys) && WaitsForLast(n, rank, last)
    requires next.Keys == rank.Keys + Ids(ready)
    requires forall id :: id in rank ==> next[id] == rank[id]
    requires forall id :: id in Ids(ready) ==> next[id] == last + 1
    ensures Ranked(DependencyMap(nodes), next)
  {
    var m := DependencyMap(nodes);
    forall id | id in next
      ensures RankedAt(m, next, id)
    {
      if id in Ids(ready) {
        var n :| n in ready && n.id == id;
        FindUnique(nodes, n);
        assert m[id] == n.dependsOn;
        MaxRankIsLast(n, rank, next, last);
      } else {
        assert RankedAt(m, rank, id);
        MaxRankAgrees(m[id], rank, next);
      }
    }
  }

  lemma MaxRankIsLast(n: Node, rank: map<string, nat>, next: map<string, nat>, last: nat)
    requires Ready(n, rank.Keys) && WaitsForLast(n, rank, last)
    requires forall id :: id in rank ==> rank[id] <= last && id in next && next[id] == rank[id]
    ensures forall d :: d in n.dependsOn ==> d in next
    ensures MaxRank(n.dependsOn, next) == last
  {
    MaxRankAttained(n.dependsOn, next);
  }

  lemma {:induction false} MaxRankAgrees(ids: seq<string>, a: map<string, nat>, b: map<string, nat>)
    requires forall d :: d in ids ==> d in a && d in b && a[d] == b[d]
    ensures MaxRank(ids, a) == MaxRank(ids, b)
  {
    if ids != [] {
      MaxRankAgrees(ids[1..], a, b);
    }
  }

  /** The state of the `while remaining` loop, with the ranks emitted so far. */
  ghost predicate Emitting(
    nodes: seq<Node>, rank: map<string, nat>, levels: seq<seq<Node>>, remaining: seq<Node>, completed: set<string>)
  {
    && Ranked(DependencyMap(nodes), rank) && rank.Keys == completed
    && LevelsSoFar(nodes, rank, levels)
    && (forall n :: n in remaining <==> n in nodes && n.id !in completed)
    && (forall n :: n in remaining ==> WaitsForLast(n, rank, |levels|))
  }

  lemma EmitLevel(
    nodes: seq<Node>, rank: map<string, nat>, levels: seq<seq<Node>>, remaining: seq<Node>, completed: set<string>,
    ready: seq<Node>, left: seq<Node>)
    returns (next: map<string, nat>)
    requires UniqueIds(nodes) && Emitting(nodes, rank, levels, remaining, completed)
    requires ready != [] && forall n :: n in ready <==> n in remaining && Ready(n, completed)
    requires forall n :: n in left <==> n in remaining && n.id !in Ids(ready)
    ensures Emitting(nodes, next, levels + [ready], left, completed + Ids(ready))
  {
    var last := |levels|;
    next := rank + (map id | id in Ids(ready) :: last + 1);
    assert next.Keys == completed + Ids(ready);
    assert Ranked(DependencyMap(nodes), next) by {
      ExtendRanks(nodes, rank, ready, last, next);
    }
    assert LevelsSoFar(nodes, next, levels + [ready]) by {
      LevelsExtend(nodes, rank, next, levels, ready);
    }
    assert |levels + [ready]| == last + 1;
    assert forall n :: n in left ==> WaitsForLast(n, next, |levels + [ready]|) by {
      LeftWaits(remaining, completed, ready, left, next, |levels + [ready]|);
    }
    assert forall n :: n in left <==> n in nodes && n.id !in completed + Ids(ready) by {
      LeftOver(nodes, remaining, completed, ready, left);
    }
  }

  lemma LeftWaits(
    remaining: seq<Node>, completed: set<string>, ready: seq<Node>, left: seq<Node>, next: map<string, nat>, last: nat)
    requires forall n :: n in ready <==> n in remaining && Ready(n, completed)
    requires forall n :: n in left <==> n in remaining && n.id !in Ids(ready)
    requires forall id :: id in next && id !in completed ==> next[id] == last
    ensures forall n :: n in left ==> WaitsForLast(n, next, last)
  {
    forall n | n in left
      ensures WaitsForLast(n, next, last)
    {
      assert n !in ready;
      NotReadyWaits(n, completed, next, last);
    }
  }

  lemma NotReadyWaits(n: Node, completed: set<string>, next: map<string, nat>, last: nat)
    requires !Ready(n, completed)
    requires forall id :: id in next && id !in completed ==> next[id] == last
    ensures WaitsForLast(n, next, last)
  {
    var d :| d in n.dependsOn && d !in completed;
    assert d !in next || next[d] == last;
  }

  lemma LeftOver(nodes: seq<Node>, remaining: seq<Node>, completed: set<string>, ready: seq<Node>, left: seq<Node>)
    requires forall n :: n in remaining <==> n in nodes && n.id !in completed
    requires forall n :: n in left <==> n in remaining && n.id !in Ids(ready)
    ensures forall n :: n in left <==> n in nodes && n.id !in completed + Ids(ready)
  {
  }

  /** The nodes of the next level, sorted by id. */
  function ReadyNodes(remaining: seq<Node>, completed: set<string>): (r: seq<Node>)
    ensures forall n :: n in r <==> n in remaining && Ready(n, completed)
  {
    SortById(Filter(remaining, (n: Node) => Ready(n, completed)))
  }

  lemma ReadyNodesSorted(remaining: seq<Node>, completed: set<string>)
    ensures SortedBy(ReadyNodes(remaining, completed), NodeLessEq)
  {
    SortByIdSorted(Filter(remaining, (n: Node) => Ready(n, completed)));
  }

  function Without(remaining: seq<Node>, emitted: seq<Node>): (r: seq<Node>)
    ensures forall n :: n in r <==> n in remaining && n.id !in Ids(emitted)
  {
    Filter(remaining, (n: Node) => n.id !in Ids(emitted))
  }

  lemma WithoutShrinks(remaining: seq<Node>, emitted: seq<Node>)
    requires emitted != [] && forall n :: n in emitted ==> n in remaining
    ensures |Without(remaining, emitted)| < |remaining|
  {
    assert emitted[0].id in Ids(emitted);
    FilterShrinks(remaining, (n: Node) => n.id !in Ids(emitted), emitted[0]);
  }

  /** Each level is sorted by node id. */
  ghost predicate AllSorted(levels: seq<seq<Node>>) {
    forall k :: 0 <= k < |levels| ==> SortedBy(levels[k], NodeLessEq)
  }

  lemma AllSortedNext(levels: seq<seq<Node>>, level: seq<Node>)
    requires AllSorted(levels) && SortedBy(level, NodeLessEq)
    ensures AllSorted(levels + [level])
  {
  }

  /** The last node of its id. */
  ghost predicate IsLast(all: seq<Node>, n: Node) {
    exists i :: 0 <= i < |all| && all[i] == n && forall j :: i < j < |all| ==> all[j].id != n.id
  }

  /** `d[n.id] = n` on the values of a dictionary. */
  function Put(nodes: seq<Node>, n: Node): (r: seq<Node>)
    requires UniqueIds(nodes)
    ensures UniqueIds(r)
    ensures forall x :: x in r <==> x == n || (x in nodes && x.id != n.id)
    ensures n.id !in Ids(nodes) ==> r == nodes + [n]
  {
    if nodes == [] then [n]
    else
      assert nodes == [nodes[0]] + nodes[1..];
      if nodes[0].id == n.id then [n] + nodes[1..]
      else [nodes[0]] + Put(nodes[1..], n)
  }

  /** `{node.id: node for node in nodes}.values()`: of nodes with one id the last. */
  function KeepLast(nodes: seq<Node>): (r: seq<Node>)
    ensures UniqueIds(r)
  {
    if nodes == [] then [] else Put(KeepLast(nodes[..|nodes| - 1]), nodes[|nodes| - 1])
  }

  lemma LastOfMore(init: seq<Node>, last: Node, x: Node)
    ensures IsLast(init + [last], x) <==> x == last || (IsLast(init, x) && x.id != last.id)
  {
    var all := init + [last];
    if x == last {
      assert all[|init|] == x;
    } else if IsLast(all, x) {
      var i :| 0 <= i < |all| && all[i] == x && forall j :: i < j < |all| ==> all[j].id != x.id;
      assert all[|init|] == last;
      assert init[i] == x && forall j :: i < j < |init| ==> init[j] == all[j];
    } else if IsLast(init, x) {
      var i :| 0 <= i < |init| && init[i] == x && forall j :: i < j < |init| ==> init[j].id != x.id;
      assert all[i] == x && forall j :: i < j < |init| ==> init[j] == all[j];
    }
  }

  lemma {:induction false} KeepLastExactly(nodes: seq<Node>, x: Node)
    ensures x in KeepLast(nodes) <==> IsLast(nodes, x)
  {
    if nodes != [] {
      var init, last := nodes[..|nodes| - 1], nodes[|nodes| - 1];
      KeepLastExactly(init, x);
      LastOfMore(init, last, x);
      assert nodes == init + [last];
    }
  }

  lemma {:induction false} KeepLastUnique(nodes: seq<Node>)
    requires UniqueIds(nodes)
    ensures KeepLast(nodes) == nodes
  {
    if nodes != [] {
      KeepLastUnique(nodes[..|nodes| - 1]);
    }
  }

  /** `WorkflowGraph.levels`, on the last node of each id: rejects exactly the graphs with a cycle or an unknown
      dependency. */
  method Levels(all: seq<Node>) returns (r: Result<seq<seq<Node>>, GraphError>)
    ensures r.Err? ==> r.error == Cycle
    ensures r.Err? <==> HasCycle(DependencyMap(KeepLast(all))) || !Closed(DependencyMap(KeepLast(all)))
    ensures r.Ok? ==> AreLevels(KeepLast(all), r.value)
    ensures r.Ok? ==> AllSorted(r.value)
    ensures forall n :: n in KeepLast(all) <==> IsLast(all, n)
    ensures UniqueIds(all) ==> KeepLast(all) == all
  {
    forall n
      ensures n in KeepLast(all) <==> IsLast(all, n)
    {
      KeepLastExactly(all, n);
    }
    if UniqueIds(all) {
      KeepLastUnique(all);
    }
    var nodes := KeepLast(all);
    r := LevelsOf(nodes);
  }

  /** The loop of `levels`. */
  method LevelsOf(nodes: seq<Node>) returns (r: Result<seq<seq<Node>>, GraphError>)
    requires UniqueIds(nodes)
    ensures r.Err? ==> r.error == Cycle
    ensures r.Err? <==> HasCycle(DependencyMap(nodes)) || !Closed(DependencyMap(nodes))
    ensures r.Ok? ==> AreLevels(nodes, r.value)
    ensures r.Ok? ==> AllSorted(r.value)
  {
    var remaining := nodes;
    var completed: set<string> := {};
    var levels: seq<seq<Node>> := [];
    ghost var rank: map<string, nat> := map[];
    while remaining != []
      invariant Emitting(nodes, rank, levels, remaining, completed)
      invariant AllSorted(levels)
      decreases |remaining|
    {
      var ready := ReadyNodes(remaining, completed);
      if ready == [] {
        NoneReady(nodes, remaining, completed);
        return Err(Cycle);
      }
      ReadyNodesSorted(remaining, completed);
      var left := Without(remaining, ready);
      WithoutShrinks(remaining, ready);
      rank := EmitLevel(nodes, rank, levels, remaining, completed, ready, left);
      AllSortedNext(levels, ready);
      levels := levels + [ready];
      completed := completed + Ids(ready);
      remaining := left;
    }
    LevelsComplete(nodes, rank, levels);
    return Ok(levels);
  }

  lemma SortByIdSorted(nodes: seq<Node>)
    ensures SortedBy(SortById(nodes), NodeLessEq)
  {
    LessEqIsTotalOrder();
    assert TotalPreorder(NodeLessEq) by {
      forall x, y, z | NodeLessEq(x, y) && NodeLessEq(y, z)
        ensures NodeLessEq(x, z)
      {
        assert LessEq(x.id, y.id) && LessEq(y.id, z.id);
      }
      forall x, y
        ensures NodeLessEq(x, y) || NodeLessEq(y, x)
      {
        assert LessEq(x.id, y.id) || LessEq(y.id, x.id);
      }
    }
    SortSorted(nodes, NodeLessEq);
  }

  lemma NoneReady(nodes: seq<Node>, remaining: seq<Node>, completed: set<string>)
    requires UniqueIds(nodes) && remaining != []
    requires forall n :: n in remaining <==> n in nodes && n.id !in completed
    requires forall n :: n in remaining ==> !Ready(n, completed)
    ensures HasCycle(DependencyMap(nodes)) || !Closed(DependencyMap(nodes))
  {
    var m := DependencyMap(nodes);
    if Closed(m) {
      var stuck := m.Keys - completed;
      forall id | id in stuck
        ensures WaitsInside(m, id, stuck)
      {
        var n := Find(nodes, id);
        assert n in remaining;
        var d :| d in n.dependsOn && d !in completed;
        assert d in stuck && Waits(m, id, d);
      }
      var first := remaining[0];
      assert first in remaining;
      StuckHasCycle(m, stuck, [first.id]);
    }
  }

  lemma FilterShrinks<T(!new)>(s: seq<T>, keep: T -> bool, dropped: T)
    requires dropped in s && !keep(dropped)
    ensures |Filter(s, keep)| < |s|
  {
    if s[0] != dropped {
      FilterShrinks(s[1..], keep, dropped);
    }
  }

  lemma LevelsExtend(nodes: seq<Node>, rank: map<string, nat>, next: map<string, nat>, levels: seq<seq<Node>>, ready: seq<Node>)
    requires UniqueIds(nodes) && LevelsSoFar(nodes, rank, levels) && ready != []
    requires forall n :: n in ready ==> n in nodes && n.id !in rank
    requires next.Keys == rank.Keys + Ids(ready)
    requires forall id :: id in rank ==> next[id] == rank[id]
    requires forall id :: id in Ids(ready) ==> next[id] == |levels| + 1
    ensures LevelsSoFar(nodes, next, levels + [ready])
  {
    var all := levels + [ready];
    forall k, n | 0 <= k < |all|
      ensures n in all[k] <==> n in nodes && n.id in next && next[n.id] == k + 1
    {
      if k == |levels| && n in nodes && n.id in Ids(ready) {
        var x :| x in ready && x.id == n.id;
        FindUnique(nodes, x);
        FindUnique(nodes, n);
      }
    }
  }

  lemma RankIffLongest(m: Dependencies, rank: map<string, nat>, id: string, n: nat)
    requires Ranked(m, rank) && id in rank
    ensures LongestChain(m, id, n) <==> n == rank[id]
  {
    RankIsLongestChain(m, rank, id);
  }

  lemma LevelsComplete(nodes: seq<Node>, rank: map<string, nat>, levels: seq<seq<Node>>)
    requires UniqueIds(nodes) && Ranked(DependencyMap(nodes), rank) && LevelsSoFar(nodes, rank, levels)
    requires forall n :: n in nodes ==> n.id in rank
    ensures AreLevels(nodes, levels) && !HasCycle(DependencyMap(nodes)) && Closed(DependencyMap(nodes))
  {
    var m := DependencyMap(nodes);
    forall id | id in m
      ensures id in rank
    {
      assert Find(nodes, id).id == id;
    }
    RankedIsAcyclic(m, rank);
    forall id, d | id in m && d in m[id]
      ensures d in m
    {
      assert RankedAt(m, rank, id);
      assert d in rank;
      assert RankedAt(m, rank, d);
    }
    forall k, n | 0 <= k < |levels|
      ensures AtLevel(nodes, levels, n, k)
    {
      if n in nodes {
        RankIffLongest(m, rank, n.id, k + 1);
      }
    }
    forall n | n in nodes
      ensures HasLevel(levels, n)
    {
      assert n in levels[rank[n.id] - 1];
    }
  }

  // ----- Depth-first validation -----

  /** Between calls of `depth`: the recorded depths follow the recurrence and `stack` is the path of
      calls in progress, innermost first. */
  ghost predicate Searching(m: Dependencies, depths: map<string, nat>, visiting: set<string>, stack: seq<string>) {
    && Ranked(m, depths)
    && visiting <= m.Keys
    && (forall id :: id in visiting <==> id in stack)
    && (forall id :: id in visiting ==> id !in depths)
    && (stack != [] ==> IsChain(m, stack))
  }

  lemma PathGrows(m: Dependencies, stack: seq<string>, id: string)
    requires id in m
    requires stack != [] ==> Waits(m, stack[0], id) && IsChain(m, stack)
    ensures IsChain(m, [id] + stack)
  {
  }

  lemma EnterNode(m: Dependencies, depths: map<string, nat>, visiting: set<string>, stack: seq<string>, id: string)
    requires Searching(m, depths, visiting, stack) && id in m && id !in depths && id !in visiting
    requires stack != [] ==> Waits(m, stack[0], id)
    ensures Searching(m, depths, visiting + {id}, [id] + stack)
    ensures |m.Keys - (visiting + {id})| < |m.Keys - visiting|
  {
    PathGrows(m, stack, id);
    assert m.Keys - visiting == (m.Keys - (visiting + {id})) + {id};
    assert forall x :: x in [id] + stack <==> x == id || x in stack;
  }

  lemma LeaveNode(
    m: Dependencies, depths: map<string, nat>, visiting: set<string>, during: set<string>, stack: seq<string>,
    id: string, depth: nat, next: map<string, nat>)
    requires Searching(m, depths, during, [id] + stack)
    requires id !in visiting && during == visiting + {id} && id !in stack
    requires stack != [] ==> IsChain(m, stack)
    requires forall d :: d in m[id] ==> d in depths
    requires depth == 1 + MaxRank(m[id], depths) && next == depths[id := depth]
    ensures Searching(m, next, visiting, stack) && Keeps(depths, next)
  {
    assert id in during;
    RecordRank(m, depths, id, depth);
    forall x
      ensures x in visiting <==> x in stack
    {
      assert x in [id] + stack <==> x == id || x in stack;
      assert x in during <==> x in [id] + stack;
    }
  }

  /** The closure `depth` of `_validate_depth`: memoised depths and the nodes on the current path. */
  class DepthSearch {
    const waits: Dependencies
    var depths: map<string, nat>
    var visiting: set<string>

    constructor (m: Dependencies)
      ensures waits == m && depths == map[] && visiting == {}
    {
      waits := m;
      depths := map[];
      visiting := {};
    }

    /** Fails only on meeting the path it is on, which closes a cycle; otherwise memoises the depth. */
    method Depth(id: string, ghost stack: seq<string>) returns (r: Result<nat, GraphError>)
      requires Closed(waits) && Searching(waits, depths, visiting, stack) && id in waits
      requires stack != [] ==> Waits(waits, stack[0], id)
      modifies this
      ensures r.Err? ==> r.error == Cycle && HasCycle(waits)
      ensures r.Ok? ==> Searching(waits, depths, visiting, stack) && visiting == old(visiting)
      ensures r.Ok? ==> id in depths && r.value == depths[id]
      ensures r.Ok? ==> Keeps(old(depths), depths)
      decreases |waits.Keys - visiting|, 0
    {
      if id in depths {
        return Ok(depths[id]);
      }
      if id in visiting {
        CloseLoop(waits, stack, id);
        return Err(Cycle);
      }
      ghost var before, known := visiting, depths;
      EnterNode(waits, depths, visiting, stack, id);
      visiting := visiting + {id};
      var longest := LongestBelow(id, [id] + stack);
      if longest.Err? {
        return longest;
      }
      var next := depths[id := 1 + longest.value];
      LeaveNode(waits, depths, before, visiting, stack, id, 1 + longest.value, next);
      KeepsTransitive(known, depths, next);
      visiting := visiting - {id};
      assert visiting == before;
      depths := next;
      return Ok(1 + longest.value);
    }

    /** `max((depth(dep) for dep in node.depends_on), default=0)` */
    method LongestBelow(id: string, ghost path: seq<string>) returns (r: Result<nat, GraphError>)
      requires Closed(waits) && Searching(waits, depths, visiting, path)
      requires id in waits && path != [] && path[0] == id
      modifies this
      ensures r.Err? ==> r.error == Cycle && HasCycle(waits)
      ensures r.Ok? ==> Searching(waits, depths, visiting, path) && visiting == old(visiting)
      ensures r.Ok? ==> (forall d :: d in waits[id] ==> d in depths) && r.value == MaxRank(waits[id], depths)
      ensures r.Ok? ==> Keeps(old(depths), depths)
      decreases |waits.Keys - visiting|, 1
    {
      var longest: nat := 0;
      var i := 0;
      while i < |waits[id]|
        invariant 0 <= i <= |waits[id]|
        invariant Searching(waits, depths, visiting, path) && visiting == old(visiting)
        invariant Keeps(old(depths), depths)
        invariant forall d :: d in waits[id][..i] ==> d in depths
        invariant longest == MaxRank(waits[id][..i], depths)
      {
        var d := waits[id][i];
        assert Waits(waits, path[0], d);
        ghost var before := depths;
        var found := Depth(d, path);
        if found.Err? {
          return found;
        }
        KeepsTransitive(old(depths), before, depths);
        MaxRankAgrees(waits[id][..i], before, depths);
        MaxRankSnoc(waits[id], i, depths);
        longest := if found.value > longest then found.value else longest;
        i := i + 1;
      }
      assert waits[id][..i] == waits[id];
      return Ok(longest);
    }
  }

  lemma KeepsTransitive(a: map<string, nat>, b: map<string, nat>, c: map<string, nat>)
    requires Keeps(a, b) && Keeps(b, c)
    ensures Keeps(a, c)
  {
  }

  /** Memoised depths are never revised. */
  ghost predicate Keeps(before: map<string, nat>, after: map<string, nat>) {
    forall d :: d in before ==> d in after && after[d] == before[d]
  }

  lemma {:induction false} MaxRankSnoc(ids: seq<string>, i: nat, rank: map<string, nat>)
    requires i < |ids| && forall d :: d in ids[..i + 1] ==> d in rank
    ensures forall d :: d in ids[..i] ==> d in rank
    ensures MaxRank(ids[..i + 1], rank) ==
            (if rank[ids[i]] > MaxRank(ids[..i], rank) then rank[ids[i]] else MaxRank(ids[..i], rank))
  {
    var a, b := ids[..i], ids[..i + 1];
    assert b == a + [ids[i]];
    MaxRankAttained(a, rank);
    MaxRankAttained(b, rank);
  }

  lemma RecordRank(m: Dependencies, rank: map<string, nat>, id: string, value: nat)
    requires Ranked(m, rank) && id in m && id !in rank
    requires forall d :: d in m[id] ==> d in rank
    requires value == 1 + MaxRank(m[id], rank)
    ensures Ranked(m, rank[id := value])
  {
    var next := rank[id := value];
    forall x | x in next
      ensures RankedAt(m, next, x)
    {
      if x != id {
        assert RankedAt(m, rank, x);
      }
      MaxRankAgrees(m[x], rank, next);
    }
  }

  // ----- Validation -----

  /** The graph is as deep as its longest dependency chain. */
  ghost predicate GraphDepth(m: Dependencies, depth: nat) {
    && (exists p :: IsChain(m, p) && |p| == depth)
    && (forall p :: IsChain(m, p) ==> |p| <= depth)
  }

  /** `_validate_depth`: rejects exactly the cyclic graphs and those deeper than the limit. */
  method ValidateDepth(nodes: seq<Node>, maxDepth: nat) returns (r: Result<nat, GraphError>)
    requires nodes != [] && Closed(DependencyMap(nodes))
    ensures r == Err(Cycle) <==> HasCycle(DependencyMap(nodes))
    ensures r.Ok? ==> GraphDepth(DependencyMap(nodes), r.value) && r.value <= maxDepth
    ensures r.Err? && r.error != Cycle ==>
              r.error.TooDeep? && r.error.depth > maxDepth && GraphDepth(DependencyMap(nodes), r.error.depth)
  {
    var m := DependencyMap(nodes);
    var search := new DepthSearch(m);
    var deepest: nat := 0;
    for i := 0 to |nodes|
      invariant search.waits == m && search.visiting == {}
      invariant Searching(m, search.depths, search.visiting, [])
      invariant DeepestSoFar(nodes, i, search.depths, deepest) && (i == 0 ==> deepest == 0)
    {
      ghost var before := search.depths;
      assert nodes[i].id in Ids(nodes);
      var found := search.Depth(nodes[i].id, []);
      if found.Err? {
        return found;
      }
      DeepestStep(nodes, i, before, search.depths, deepest);
      deepest := if found.value > deepest then found.value else deepest;
    }
    DepthFromRanks(nodes, search.depths, deepest);
    if deepest > maxDepth {
      return Err(TooDeep(deepest));
    }
    return Ok(deepest);
  }

  /** `deepest` is the running maximum over the first `i` nodes. */
  ghost predicate DeepestSoFar(nodes: seq<Node>, i: nat, depths: map<string, nat>, deepest: nat)
    requires i <= |nodes|
  {
    && (forall j :: 0 <= j < i ==> nodes[j].id in depths && depths[nodes[j].id] <= deepest)
    && (i > 0 ==> exists j :: 0 <= j < i && nodes[j].id in depths && depths[nodes[j].id] == deepest)
  }

  lemma DeepestStep(nodes: seq<Node>, i: nat, before: map<string, nat>, depths: map<string, nat>, deepest: nat)
    requires i < |nodes| && DeepestSoFar(nodes, i, before, deepest) && Keeps(before, depths)
    requires nodes[i].id in depths && (i == 0 ==> deepest == 0)
    ensures DeepestSoFar(nodes, i + 1, depths, if depths[nodes[i].id] > deepest then depths[nodes[i].id] else deepest)
  {
    if i > 0 {
      var j :| 0 <= j < i && nodes[j].id in before && before[nodes[j].id] == deepest;
      assert nodes[j].id in depths && depths[nodes[j].id] == deepest;
    }
  }

  lemma DepthFromRanks(nodes: seq<Node>, rank: map<string, nat>, deepest: nat)
    requires nodes != [] && Ranked(DependencyMap(nodes), rank) && DeepestSoFar(nodes, |nodes|, rank, deepest)
    ensures GraphDepth(DependencyMap(nodes), deepest) && !HasCycle(DependencyMap(nodes))
  {
    var m := DependencyMap(nodes);
    forall id | id in m
      ensures id in rank && rank[id] <= deepest
    {
      assert Find(nodes, id) in nodes;
    }
    RankedIsAcyclic(m, rank);
    var j :| 0 <= j < |nodes| && nodes[j].id in rank && rank[nodes[j].id] == deepest;
    var p := RankChain(m, rank, nodes[j].id);
    forall q | IsChain(m, q)
      ensures |q| <= deepest
    {
      RankBoundsChain(m, rank, q);
    }
  }

  /** What every graph that passes `validate` satisfies. */
  ghost predicate WellFormed(g: Graph) {
    && g.nodes != []
    && UniqueIds(g.nodes)
    && g.deliverable != ""
    && g.deliverable in Ids(g.nodes)
    && Closed(DependencyMap(g.nodes))
    && !HasCycle(DependencyMap(g.nodes))
    && (forall n :: n in g.nodes ==> g.deliverable !in n.dependsOn)
  }

  ghost predicate WithinLimits(g: Graph, maxNodes: nat, maxDepth: nat) {
    && |g.nodes| <= maxNodes
    && forall p :: IsChain(DependencyMap(g.nodes), p) ==> |p| <= maxDepth
  }

  function FirstDuplicate(nodes: seq<Node>): (b: bool)
    ensures b <==> !UniqueIds(nodes)
  {
    exists i, j :: 0 <= i < j < |nodes| && nodes[i].id == nodes[j].id
  }

  /** Some nodes but not too many, none named twice, a known deliverable, and dependencies on other known nodes. */
  ghost predicate NodesPass(g: Graph, maxNodes: nat) {
    && g.nodes != [] && |g.nodes| <= maxNodes && UniqueIds(g.nodes)
    && g.deliverable != "" && g.deliverable in Ids(g.nodes)
    && (forall n :: n in g.nodes ==> n.id !in n.dependsOn && forall d :: d in n.dependsOn ==> d in Ids(g.nodes))
  }

  /** `_validate_nodes`, in the order the checks are made. */
  method ValidateNodes(g: Graph, maxNodes: nat) returns (r: Option<GraphError>)
    ensures r.None? <==> NodesPass(g, maxNodes)
    ensures r != Some(Cycle) && r != Some(DeliverableNotTerminal)
  {
    if g.nodes == [] {
      return Some(NoNodes);
    }
    if |g.nodes| > maxNodes {
      return Some(TooManyNodes);
    }
    if FirstDuplicate(g.nodes) {
      return Some(DuplicateIds);
    }
    if g.deliverable == "" {
      return Some(NoDeliverable);
    }
    if g.deliverable !in Ids(g.nodes) {
      return Some(UnknownDeliverable);
    }
    for i := 0 to |g.nodes|
      invariant forall j :: 0 <= j < i ==>
                  g.nodes[j].id !in g.nodes[j].dependsOn
                  && forall d :: d in g.nodes[j].dependsOn ==> d in Ids(g.nodes)
    {
      var n := g.nodes[i];
      assert n in g.nodes;
      if exists d :: d in n.dependsOn && d !in Ids(g.nodes) {
        return Some(UnknownDependency(n.id));
      }
      if n.id in n.dependsOn {
        return Some(SelfDependency(n.id));
      }
    }
    return None;
  }

  /** `WorkflowGraph.validate` accepts exactly the well-formed graphs within the limits, and reports a
      cycle exactly for a graph that passes the node checks and has one. */
  method Validate(g: Graph, maxNodes: nat, maxDepth: nat) returns (r: Option<GraphError>)
    ensures r.None? <==> WellFormed(g) && WithinLimits(g, maxNodes, maxDepth)
    ensures r == Some(Cycle) <==> NodesPass(g, maxNodes) && HasCycle(DependencyMap(g.nodes))
  {
    r := ValidateNodes(g, maxNodes);
    if r.Some? {
      NodeChecksNeeded(g);
      return;
    }
    ClosedFromNodes(g);
    var depth := ValidateDepth(g.nodes, maxDepth);
    if depth.Err? {
      if depth.error != Cycle {
        ghost var p :| IsChain(DependencyMap(g.nodes), p) && |p| == depth.error.depth;
      }
      return Some(depth.error);
    }
    if exists n :: n in g.nodes && g.deliverable in n.dependsOn {
      return Some(DeliverableNotTerminal);
    }
  }

  lemma ClosedFromNodes(g: Graph)
    requires forall n :: n in g.nodes ==> forall d :: d in n.dependsOn ==> d in Ids(g.nodes)
    ensures Closed(DependencyMap(g.nodes))
  {
    var m := DependencyMap(g.nodes);
    forall id, d | id in m && d in m[id]
      ensures d in m
    {
      assert Find(g.nodes, id) in g.nodes;
    }
  }

  /** A node that waits for itself is a cycle, so the node checks reject no graph that is well formed. */
  lemma NodeChecksNeeded(g: Graph)
    ensures WellFormed(g) ==>
              forall n :: n in g.nodes ==> n.id !in n.dependsOn && forall d :: d in n.dependsOn ==> d in Ids(g.nodes)
  {
    if WellFormed(g) {
      var m := DependencyMap(g.nodes);
      forall n | n in g.nodes
        ensures n.id !in n.dependsOn && forall d :: d in n.dependsOn ==> d in Ids(g.nodes)
      {
        FindUnique(g.nodes, n);
        assert m[n.id] == n.dependsOn;
        if n.id in n.dependsOn {
          SelfWaitIsCycle(m, n.id);
        }
      }
    }
  }

  lemma SelfWaitIsCycle(m: Dependencies, id: string)
    requires Waits(m, id, id)
    ensures HasCycle(m)
  {
    var loop := [id, id];
    assert IsChain(m, loop) && loop[0] == loop[|loop| - 1];
  }

  /** The level count is the validated depth. */
  lemma LevelCountIsDepth(nodes: seq<Node>, levels: seq<seq<Node>>, depth: nat)
    requires nodes != [] && AreLevels(nodes, levels)
    ensures GraphDepth(DependencyMap(nodes), depth) <==> depth == |levels|
  {
    var m := DependencyMap(nodes);
    var p := LastLevelChain(nodes, levels);
    forall q | IsChain(m, q)
      ensures |q| <= |levels|
    {
      LevelsBoundChain(nodes, levels, q);
    }
  }

  lemma LastLevelChain(nodes: seq<Node>, levels: seq<seq<Node>>) returns (p: seq<string>)
    requires nodes != [] && AreLevels(nodes, levels)
    ensures IsChain(DependencyMap(nodes), p) && |p| == |levels|
  {
    assert nodes[0] in nodes && HasLevel(levels, nodes[0]);
    var k := |levels| - 1;
    var last := levels[k][0];
    assert last in levels[k] && AtLevel(nodes, levels, last, k);
    assert LongestChain(DependencyMap(nodes), last.id, k + 1);
    p :| IsChain(DependencyMap(nodes), p) && p[|p| - 1] == last.id && |p| == k + 1;
  }

  lemma LevelsBoundChain(nodes: seq<Node>, levels: seq<seq<Node>>, q: seq<string>)
    requires AreLevels(nodes, levels) && IsChain(DependencyMap(nodes), q)
    ensures |q| <= |levels|
  {
    var n := Find(nodes, q[|q| - 1]);
    assert HasLevel(levels, n);
    var k :| 0 <= k < |levels| && n in levels[k];
    assert AtLevel(nodes, levels, n, k);
  }
}
