/** The conflicts a registry reports, up to the order in which outputs arrive. */
module FindingConflicts {
  import opened Sorting
  import opened Sequences
  import opened Text
  import opened AgentOutputs
  import opened FindingKeys
  import opened FindingRegistries
  import opened FindingRules

  /** A conflict without the order of its two parties. */
  datatype View = View(scope: string, parties: multiset<(string, string)>, recordKeys: seq<string>)

  function ViewOf(c: Conflict): View {
    View(c.scope,
         if |c.agents| == 2 && |c.ids| == 2 then multiset{(c.agents[0], c.ids[0]), (c.agents[1], c.ids[1])} else multiset{},
         c.recordKeys)
  }

  function Views(cs: seq<Conflict>): seq<View> {
    Flatten(cs, OneView())
  }

  function OneView(): Conflict -> seq<View> {
    c => [ViewOf(c)]
  }

  lemma {:induction false} ViewsCount(cs: seq<Conflict>)
    ensures |multiset(Views(cs))| == |cs|
  {
    if cs != [] {
      ViewsCount(cs[1..]);
    }
  }

  // ----- The scan reports every clash -----

  function ClashOf(): Pair -> seq<Conflict> {
    (p: Pair) => if Clash(p.0, p.1) then [ConflictOf(p.0, p.1)] else []
  }

  lemma PairReports(s: Scan, p: Pair)
    requires SameScope(p.0, p.1)
    ensures ScanStep(s, p).conflicts == s.conflicts + ClashOf()(p)
  {
  }

  lemma {:induction false} ScanReports(start: Scan, ps: seq<Pair>)
    requires OneScope(ps)
    ensures ScanPairs(start, ps).conflicts == start.conflicts + Flatten(ps, ClashOf())
  {
    if ps != [] {
      var init, last := ps[..|ps| - 1], ps[|ps| - 1];
      assert ps == init + [last];
      ScanReports(start, init);
      FoldSnoc(ScanStep, start, init, last);
      FlattenNext(init, last, ClashOf());
      PairReports(ScanPairs(start, init), last);
    }
  }

  // ----- The scan as all pairs of each scope -----

  /** What two findings report, whichever comes first. */
  function Reported(x: Item, y: Item): seq<View> {
    if Clash(x, y) then [ViewOf(ConflictOf(x, y))] else []
  }

  lemma PairTextsSymmetric(a: Key, b: Key)
    ensures PairTexts(a, b) == PairTexts(b, a)
  {
    LessEqIsTotalOrder();
    assert a.scope == b.scope && a.identity == b.identity ==> a == b;
  }

  lemma ViewSymmetric(x: Item, y: Item)
    requires x.key.scope == y.key.scope
    ensures ViewOf(ConflictOf(x, y)) == ViewOf(ConflictOf(y, x))
  {
    PairTextsSymmetric(x.key, y.key);
    assert multiset{(x.agent, x.id), (y.agent, y.id)} == multiset{(y.agent, y.id), (x.agent, x.id)};
  }

  lemma ReportedSymmetric()
    ensures Symmetric(Reported)
  {
    forall x, y
      ensures Reported(x, y) == Reported(y, x)
    {
      if Clash(x, y) {
        ViewSymmetric(x, y);
      }
    }
  }

  lemma {:induction false} PairsReported(left: Item, rows: seq<Item>)
    ensures Flatten(PairsWith(left, rows), Then(ClashOf(), OneView())) == Flatten(rows, With(Reported, left))
  {
    if rows != [] {
      PairsReported(left, rows[1..]);
      assert PairsWith(left, rows)[1..] == PairsWith(left, rows[1..]);
      assert PairsWith(left, rows)[0] == (left, rows[0]);
      OneReported(left, rows[0]);
    }
  }

  lemma OneReported(x: Item, y: Item)
    ensures Then(ClashOf(), OneView())((x, y)) == Reported(x, y)
  {
    var p: Pair := (x, y);
    assert Then(ClashOf(), OneView())(p) == Flatten(ClashOf()(p), OneView());
    if Clash(x, y) {
      assert ClashOf()(p) == [ConflictOf(x, y)];
      OneViewed(ConflictOf(x, y));
    } else {
      assert ClashOf()(p) == [];
    }
  }

  lemma OneViewed(c: Conflict)
    ensures Flatten([c], OneView()) == [ViewOf(c)]
  {
    FlattenCons(c, [], OneView());
    assert [c] + [] == [c];
  }

  lemma {:induction false} RowsReported(rows: seq<Item>)
    ensures Flatten(PairsAmong(rows), Then(ClashOf(), OneView())) == OverPairs(rows, Reported)
  {
    if rows != [] {
      RowsReported(rows[1..]);
      PairsReported(rows[0], rows[1..]);
      FlattenConcat(PairsWith(rows[0], rows[1..]), PairsAmong(rows[1..]), Then(ClashOf(), OneView()));
    }
  }

  /** What the rows of one scope report. */
  function InScope(items: seq<Item>): string -> seq<View> {
    s => OverPairs(RowsIn(items, s), Reported)
  }

  lemma {:induction false} ScopesReported(items: seq<Item>, scopes: seq<string>)
    ensures Flatten(ScopePairs(items, scopes), Then(ClashOf(), OneView())) == Flatten(scopes, InScope(items))
  {
    if scopes != [] {
      var init, last := scopes[..|scopes| - 1], scopes[|scopes| - 1];
      assert scopes == init + [last];
      ScopesReported(items, init);
      RowsReported(RowsIn(items, last));
      FlattenConcat(ScopePairs(items, init), PairsAmong(RowsIn(items, last)), Then(ClashOf(), OneView()));
      FlattenNext(init, last, InScope(items));
    }
  }

  /** The reported conflicts, scope by scope. */
  lemma ConflictViews(outputs: seq<Output>)
    ensures
      var items := ItemsOf(outputs);
      Views(ScanOf(outputs).conflicts) == Flatten(Scopes(items), InScope(items))
  {
    var items := ItemsOf(outputs);
    var ps := PairsToScan(items);
    ScanQuestions(items, Key("", ""));
    ScanReports(Scan(AddItems(map[], items), []), ps);
    assert ScanOf(outputs).conflicts == Flatten(ps, ClashOf());
    FlattenTwice(ps, ClashOf(), OneView());
    ScopesReported(items, Scopes(items));
  }

  // ----- The order of arrival does not matter -----

  lemma ScopesPermute(a: seq<Item>, b: seq<Item>)
    requires multiset(a) == multiset(b)
    ensures multiset(Scopes(a)) == multiset(Scopes(b))
  {
    assert forall i :: i in a <==> i in multiset(a);
    assert forall i :: i in b <==> i in multiset(b);
    SameMembersSameCounts(Scopes(a), Scopes(b));
  }

  lemma ScopePermutes(a: seq<Item>, b: seq<Item>, scope: string)
    requires multiset(a) == multiset(b)
    ensures multiset(InScope(a)(scope)) == multiset(InScope(b)(scope))
  {
    ReportedSymmetric();
    RowsPermute(a, b, scope);
    PairsPermute(RowsIn(a, scope), RowsIn(b, scope), Reported);
  }

  lemma RowsPermute(a: seq<Item>, b: seq<Item>, scope: string)
    requires multiset(a) == multiset(b)
    ensures multiset(RowsIn(a, scope)) == multiset(RowsIn(b, scope))
  {
    forall x
      ensures multiset(RowsIn(a, scope))[x] == multiset(RowsIn(b, scope))[x]
    {
      RowsInCounts(a, scope, x);
      RowsInCounts(b, scope, x);
    }
  }

  /** Agents may finish in any order: the same conflicts are reported, each as often, between the same findings. */
  lemma ConflictsOrderIndependent(a: seq<Output>, b: seq<Output>)
    requires multiset(a) == multiset(b)
    ensures multiset(Views(ScanOf(a).conflicts)) == multiset(Views(ScanOf(b).conflicts))
  {
    var x, y := ItemsOf(a), ItemsOf(b);
    FlattenPermute(a, b, OutputItems);
    ConflictViews(a);
    ConflictViews(b);
    ScopesPermute(x, y);
    FlattenPermute(Scopes(x), Scopes(y), InScope(x));
    forall i | 0 <= i < |Scopes(y)|
      ensures multiset(InScope(x)(Scopes(y)[i])) == multiset(InScope(y)(Scopes(y)[i]))
    {
      ScopePermutes(x, y, Scopes(y)[i]);
    }
    FlattenSame(Scopes(y), InScope(x), InScope(y));
  }
}
