/** What the registry decides, stated over the multiset of findings: no order of arrival is mentioned. */
module FindingRules {
  import opened Sorting
  import opened Sequences
  import opened AgentOutputs
  import opened FindingKeys
  import opened FindingRegistries

  // ----- The rule -----

  /** `x` and `y` are two occurrences in `m`. */
  predicate TwoOf(m: multiset<Item>, x: Item, y: Item) {
    x in m && y in m && (x == y ==> m[x] >= 2)
  }

  predicate Touches(k: Key, x: Item, y: Item) {
    x.key == k || y.key == k
  }

  ghost predicate HasKey(m: multiset<Item>, k: Key) {
    exists x :: x in m && x.key == k
  }

  /** Two findings of the record cite one reference. */
  ghost predicate Shares(m: multiset<Item>, k: Key) {
    exists x, y :: TwoOf(m, x, y) && x.key == k && y.key == k && x.refs * y.refs != {}
  }

  ghost predicate Clashes(m: multiset<Item>, k: Key) {
    exists x, y :: TwoOf(m, x, y) && Touches(k, x, y) && Clash(x, y)
  }

  ghost predicate SharesPair(m: multiset<Item>, k: Key, issue: ReviewIssue) {
    exists x, y :: TwoOf(m, x, y) && Touches(k, x, y) && RaisesIssue(issue, x, y)
  }

  /** The review issues that only a pair of findings can raise. */
  predicate RaisesIssue(issue: ReviewIssue, x: Item, y: Item) {
    match issue
    case PairMalformed => PairBroken(x, y)
    case PairUnproven => PairUndecided(x, y)
    case _ => false
  }

  ghost predicate Cites(m: multiset<Item>, k: Key, ref: string) {
    exists x :: x in m && x.key == k && ref in x.refs
  }

  ghost predicate Reports(m: multiset<Item>, k: Key, agent: string) {
    exists x :: x in m && x.key == k && x.agent == agent
  }

  ghost predicate Names(m: multiset<Item>, k: Key, id: string) {
    exists x :: x in m && x.key == k && x.id == id && id != ""
  }

  ghost predicate OwnIssue(m: multiset<Item>, k: Key, issue: ReviewIssue) {
    exists x :: x in m && x.key == k && issue in x.review
  }

  /** Some finding of the record has evidence this bad. */
  ghost predicate OwnEvidence(m: multiset<Item>, k: Key, e: EvidenceState) {
    exists x :: x in m && x.key == k && Rank(x.evidence) >= Rank(e)
  }

  ghost predicate SeverityReached(m: multiset<Item>, k: Key, s: Severity) {
    exists x :: x in m && x.key == k && SeverityRank(x.severity) >= SeverityRank(s)
  }

  /** What the record of `k` is before the action scan. */
  ghost predicate Folded(m: multiset<Item>, k: Key, r: FindingRecord) {
    && (forall t :: t in r.refs <==> Cites(m, k, t))
    && (forall a :: a in r.agents <==> Reports(m, k, a))
    && (forall i :: i in r.ids <==> Names(m, k, i))
    && (forall i :: i in r.review <==> OwnIssue(m, k, i))
    && (forall s :: SeverityRank(r.severity) >= SeverityRank(s) <==> SeverityReached(m, k, s))
    && (forall e :: Rank(r.evidence) >= Rank(e) <==>
                      OwnEvidence(m, k, e) || (Shares(m, k) && Rank(e) <= Rank(Duplicate)))
  }

  /** What the record of `k` is in the end. */
  ghost predicate Rule(m: multiset<Item>, k: Key, r: FindingRecord) {
    && (forall t :: t in r.refs <==> Cites(m, k, t))
    && (forall a :: a in r.agents <==> Reports(m, k, a))
    && (forall i :: i in r.ids <==> Names(m, k, i))
    && (forall i :: i in r.review <==> OwnIssue(m, k, i) || SharesPair(m, k, i))
    && (forall s :: SeverityRank(r.severity) >= SeverityRank(s) <==> SeverityReached(m, k, s))
    && (forall e :: Rank(r.evidence) >= Rank(e) <==>
                      Clashes(m, k) || OwnEvidence(m, k, e) || (Shares(m, k) && Rank(e) <= Rank(Duplicate)))
    && r.state == (if Clashes(m, k) then Conflicted
                   else if r.evidence == Valid && r.review == {} then Accepted
                   else EvidenceReview)
  }

  // ----- Folding follows the rule -----

  /** What one more finding of key `z.key` adds to each question about `k`. */
  lemma Grows(m: multiset<Item>, z: Item, k: Key)
    ensures HasKey(m + multiset{z}, k) <==> HasKey(m, k) || z.key == k
    ensures forall t :: Cites(m + multiset{z}, k, t) <==> Cites(m, k, t) || (z.key == k && t in z.refs)
    ensures forall a :: Reports(m + multiset{z}, k, a) <==> Reports(m, k, a) || (z.key == k && z.agent == a)
    ensures forall i :: Names(m + multiset{z}, k, i) <==> Names(m, k, i) || (z.key == k && z.id == i && i != "")
    ensures forall i :: OwnIssue(m + multiset{z}, k, i) <==> OwnIssue(m, k, i) || (z.key == k && i in z.review)
    ensures forall s :: SeverityReached(m + multiset{z}, k, s) <==>
                          SeverityReached(m, k, s) || (z.key == k && SeverityRank(z.severity) >= SeverityRank(s))
    ensures forall e :: OwnEvidence(m + multiset{z}, k, e) <==>
                          OwnEvidence(m, k, e) || (z.key == k && Rank(z.evidence) >= Rank(e))
  {
    var n := m + multiset{z};
    assert z in n && forall x: Item :: x in n <==> x in m || x == z;
  }

  /** A new shared reference is one between `z` and what the record cites already. */
  lemma SharesGrows(m: multiset<Item>, z: Item, k: Key)
    ensures Shares(m + multiset{z}, k) <==> Shares(m, k) || (z.key == k && exists t :: t in z.refs && Cites(m, k, t))
  {
    var n := m + multiset{z};
    if Shares(n, k) {
      var x, y :| TwoOf(n, x, y) && x.key == k && y.key == k && x.refs * y.refs != {};
      var t :| t in x.refs * y.refs;
      if x == z || y == z {
        assert y in m || x in m;
        assert t in z.refs && Cites(m, k, t);
      } else {
        assert TwoOf(m, x, y);
      }
    }
    if Shares(m, k) {
      var x, y :| TwoOf(m, x, y) && x.key == k && y.key == k && x.refs * y.refs != {};
      assert TwoOf(n, x, y);
    }
    if z.key == k && exists t :: t in z.refs && Cites(m, k, t) {
      var t :| t in z.refs && Cites(m, k, t);
      var x :| x in m && x.key == k && t in x.refs;
      assert TwoOf(n, x, z) && t in x.refs * z.refs;
    }
  }

  lemma FirstFollows(m: multiset<Item>, z: Item)
    requires !HasKey(m, z.key)
    ensures Folded(m + multiset{z}, z.key, FirstRecord(z))
  {
    Grows(m, z, z.key);
    SharesGrows(m, z, z.key);
    assert forall x: Item :: x in m ==> x.key != z.key;
  }

  lemma SharedExactly(m: multiset<Item>, z: Item, r: FindingRecord)
    requires forall t :: t in r.refs <==> Cites(m, z.key, t)
    ensures r.refs * z.refs != {} <==> exists t :: t in z.refs && Cites(m, z.key, t)
  {
    if t :| t in z.refs && Cites(m, z.key, t) {
      assert t in r.refs * z.refs;
    }
  }

  lemma MergeFollows(m: multiset<Item>, z: Item, r: FindingRecord)
    requires Folded(m, z.key, r)
    ensures Folded(m + multiset{z}, z.key, Merge(r, z))
  {
    Grows(m, z, z.key);
    SharesGrows(m, z, z.key);
    SharedExactly(m, z, r);
  }

  lemma OtherFollows(m: multiset<Item>, z: Item, k: Key, r: FindingRecord)
    requires z.key != k && Folded(m, k, r)
    ensures Folded(m + multiset{z}, k, r)
  {
    Grows(m, z, k);
    SharesGrows(m, z, k);
  }

  /** The records after all findings are in, before the action scan. */
  lemma {:induction false} FoldFollows(items: seq<Item>, k: Key)
    ensures k in AddItems(map[], items) <==> HasKey(multiset(items), k)
    ensures k in AddItems(map[], items) ==> Folded(multiset(items), k, AddItems(map[], items)[k])
  {
    if items != [] {
      var init, z := items[..|items| - 1], items[|items| - 1];
      assert items == init + [z];
      var m, rs := multiset(init), AddItems(map[], init);
      FoldFollows(init, k);
      Grows(m, z, k);
      if z.key != k {
        if k in rs { OtherFollows(m, z, k, rs[k]); }
      } else if k in rs {
        MergeFollows(m, z, rs[k]);
      } else {
        FirstFollows(m, z);
      }
    }
  }

  // ----- The scan follows the rule -----

  predicate Visited(ps: seq<Pair>, x: Item, y: Item) {
    (x, y) in ps || (y, x) in ps
  }

  lemma {:induction false} PairsAmongVisitsAll(rows: seq<Item>, x: Item, y: Item)
    ensures Visited(PairsAmong(rows), x, y) <==> TwoOf(multiset(rows), x, y)
  {
    if rows != [] {
      var head, rest := rows[0], rows[1..];
      assert rows == [head] + rest;
      PairsAmongVisitsAll(rest, x, y);
      PairsWithVisits(head, rest, x, y);
      PairsWithVisits(head, rest, y, x);
    }
  }

  lemma PairsWithVisits(left: Item, rows: seq<Item>, x: Item, y: Item)
    ensures (x, y) in PairsWith(left, rows) <==> x == left && y in rows
  {
    if y in rows {
      var i :| 0 <= i < |rows| && rows[i] == y;
      assert PairsWith(left, rows)[i] == (left, y);
    }
  }

  lemma {:induction false} RowsInCounts(items: seq<Item>, scope: string, x: Item)
    ensures multiset(RowsIn(items, scope))[x] == if x.key.scope == scope then multiset(items)[x] else 0
  {
    if items != [] {
      assert items == [items[0]] + items[1..];
      RowsInCounts(items[1..], scope, x);
    }
  }

  lemma {:induction false} ScopePairsMembers(items: seq<Item>, scopes: seq<string>, p: Pair)
    ensures p in ScopePairs(items, scopes) <==> exists s :: s in scopes && p in PairsAmong(RowsIn(items, s))
  {
    if scopes != [] {
      var init, last := scopes[..|scopes| - 1], scopes[|scopes| - 1];
      assert scopes == init + [last];
      ScopePairsMembers(items, init, p);
    }
  }

  /** The scan meets every two findings of one scope, and no others. */
  lemma ScanVisits(items: seq<Item>, x: Item, y: Item)
    ensures Visited(PairsToScan(items), x, y) <==> TwoOf(multiset(items), x, y) && SameScope(x, y)
  {
    ScopePairsMembers(items, Scopes(items), (x, y));
    ScopePairsMembers(items, Scopes(items), (y, x));
    forall s
      ensures Visited(PairsAmong(RowsIn(items, s)), x, y) <==>
                TwoOf(multiset(items), x, y) && x.key.scope == s && y.key.scope == s
    {
      PairsAmongVisitsAll(RowsIn(items, s), x, y);
      RowsInCounts(items, s, x);
      RowsInCounts(items, s, y);
    }
    if TwoOf(multiset(items), x, y) && SameScope(x, y) {
      assert x.key.scope in Scopes(items);
      assert Visited(PairsAmong(RowsIn(items, x.key.scope)), x, y);
    }
  }

  ghost predicate ClashIn(ps: seq<Pair>, k: Key) {
    exists p :: p in ps && Touches(k, p.0, p.1) && Clash(p.0, p.1)
  }

  ghost predicate RaisedIn(ps: seq<Pair>, k: Key, issue: ReviewIssue) {
    exists p :: p in ps && Touches(k, p.0, p.1) && RaisesIssue(issue, p.0, p.1)
  }

  ghost predicate ClashText(ps: seq<Pair>, text: string) {
    exists p :: p in ps && Clash(p.0, p.1) && (text == KeyText(p.0.key) || text == KeyText(p.1.key))
  }

  ghost predicate OneScope(ps: seq<Pair>) {
    forall p :: p in ps ==> SameScope(p.0, p.1)
  }

  /** What the scan has done to one record and to the conflict list. */
  ghost predicate Scanned(r: FindingRecord, ps: seq<Pair>, k: Key, after: FindingRecord) {
    && (after.refs, after.agents, after.ids, after.severity) == (r.refs, r.agents, r.ids, r.severity)
    && after.evidence == (if ClashIn(ps, k) then Contradictory else r.evidence)
    && forall i :: i in after.review <==> i in r.review || RaisedIn(ps, k, i)
  }

  lemma PairEffect(s: Scan, a: Item, b: Item, k: Key)
    requires k in s.records && SameScope(a, b)
    ensures k in ScanPair(s, a, b).records
    ensures Scanned(s.records[k], [(a, b)], k, ScanPair(s, a, b).records[k])
    ensures forall t :: t in ConflictTexts(ScanPair(s, a, b).conflicts) <==>
                          t in ConflictTexts(s.conflicts) || ClashText([(a, b)], t)
  {
    var ps := [(a, b)];
    assert (a, b) in ps;
    assert ClashIn(ps, k) <==> Touches(k, a, b) && Clash(a, b);
    assert forall i :: RaisedIn(ps, k, i) <==> Touches(k, a, b) && RaisesIssue(i, a, b);
    assert forall t :: ClashText(ps, t) <==> Clash(a, b) && t in ConflictOf(a, b).recordKeys;
    if Clash(a, b) {
      assert ScanPair(s, a, b).conflicts == s.conflicts + [ConflictOf(a, b)];
      assert forall c :: c in s.conflicts + [ConflictOf(a, b)] <==> c in s.conflicts || c == ConflictOf(a, b);
    } else {
      assert ScanPair(s, a, b).conflicts == s.conflicts;
    }
  }

  lemma {:induction false} ScanEffect(start: Scan, ps: seq<Pair>, k: Key)
    requires k in start.records && start.conflicts == [] && OneScope(ps)
    ensures k in ScanPairs(start, ps).records
    ensures Scanned(start.records[k], ps, k, ScanPairs(start, ps).records[k])
    ensures forall t :: t in ConflictTexts(ScanPairs(start, ps).conflicts) <==> ClashText(ps, t)
  {
    if ps != [] {
      var init, last := ps[..|ps| - 1], ps[|ps| - 1];
      assert ps == init + [last];
      FoldSnoc(ScanStep, start, init, last);
      ScanEffect(start, init, k);
      PairEffect(ScanPairs(start, init), last.0, last.1, k);
      assert last == (last.0, last.1);
      assert ClashIn(ps, k) <==> ClashIn(init, k) || ClashIn([last], k);
      assert forall i :: RaisedIn(ps, k, i) <==> RaisedIn(init, k, i) || RaisedIn([last], k, i);
      assert forall t :: ClashText(ps, t) <==> ClashText(init, t) || ClashText([last], t);
    }
  }

  /** The scan never adds or removes a record. */
  lemma {:induction false} ScanKeys(start: Scan, ps: seq<Pair>)
    ensures ScanPairs(start, ps).records.Keys == start.records.Keys
  {
    if ps != [] {
      ScanKeys(start, ps[..|ps| - 1]);
    }
  }

  /** Over all pairs of one scope, what a pair raises is what the findings say. */
  lemma ScanQuestions(items: seq<Item>, k: Key)
    ensures OneScope(PairsToScan(items))
    ensures ClashIn(PairsToScan(items), k) <==> Clashes(multiset(items), k)
    ensures forall i :: RaisedIn(PairsToScan(items), k, i) <==> SharesPair(multiset(items), k, i)
  {
    var ps, m := PairsToScan(items), multiset(items);
    forall x, y
      ensures Visited(ps, x, y) <==> TwoOf(m, x, y) && SameScope(x, y)
    {
      ScanVisits(items, x, y);
    }
    assert forall p: Pair :: p in ps ==> Visited(ps, p.0, p.1);
    forall x, y | TwoOf(m, x, y) && SameScope(x, y)
      ensures (x, y) in ps || (y, x) in ps
    {
      assert Visited(ps, x, y);
    }
  }

  // ----- The registry follows the rule -----

  lemma {:induction false} ItemsNormal(outputs: seq<Output>)
    ensures forall i :: i in ItemsOf(outputs) ==> Normal(i.key.scope) && Normal(i.key.identity)
  {
    if outputs != [] {
      ItemsNormal(outputs[1..]);
    }
  }

  /** Rows of the scan are findings. */
  lemma ScannedAreItems(items: seq<Item>, p: Pair)
    requires p in PairsToScan(items)
    ensures p.0 in items && p.1 in items
  {
    ScanVisits(items, p.0, p.1);
    assert p == (p.0, p.1) && Visited(PairsToScan(items), p.0, p.1);
  }

  /** The conflict list names a record by text exactly when a clash touches it: no other record shares the text. */
  lemma ConflictTextNamesOne(outputs: seq<Output>, k: Key)
    requires Normal(k.scope) && Normal(k.identity)
    ensures ClashText(PairsToScan(ItemsOf(outputs)), KeyText(k)) <==> ClashIn(PairsToScan(ItemsOf(outputs)), k)
  {
    ItemsNormal(outputs);
    var ps := PairsToScan(ItemsOf(outputs));
    forall p | p in ps
      ensures (KeyText(k) == KeyText(p.0.key) || KeyText(k) == KeyText(p.1.key)) <==> Touches(k, p.0, p.1)
    {
      ScannedAreItems(ItemsOf(outputs), p);
      if KeyText(k) == KeyText(p.0.key) { KeyTextInjective(k, p.0.key); }
      if KeyText(k) == KeyText(p.1.key) { KeyTextInjective(k, p.1.key); }
    }
  }

  lemma FinalEvidence(folded: EvidenceState, e: EvidenceState, clashes: bool, own: bool, shares: bool)
    requires Rank(folded) >= Rank(e) <==> own || (shares && Rank(e) <= Rank(Duplicate))
    ensures Rank(if clashes then Contradictory else folded) >= Rank(e) <==>
              clashes || own || (shares && Rank(e) <= Rank(Duplicate))
  {
  }

  /** A folded record with its clash mark, its raised issues and its final state obeys the rule. */
  lemma FinalFollows(m: multiset<Item>, k: Key, r: FindingRecord, final: FindingRecord)
    requires Folded(m, k, r)
    requires (final.refs, final.agents, final.ids, final.severity) == (r.refs, r.agents, r.ids, r.severity)
    requires final.evidence == if Clashes(m, k) then Contradictory else r.evidence
    requires forall i :: i in final.review <==> i in r.review || SharesPair(m, k, i)
    requires final.state == if Clashes(m, k) then Conflicted
                            else if final.evidence == Valid && final.review == {} then Accepted else EvidenceReview
    ensures Rule(m, k, final)
  {
    forall e
      ensures Rank(final.evidence) >= Rank(e) <==>
                Clashes(m, k) || OwnEvidence(m, k, e) || (Shares(m, k) && Rank(e) <= Rank(Duplicate))
    {
      FinalEvidence(r.evidence, e, Clashes(m, k), OwnEvidence(m, k, e), Shares(m, k));
    }
  }

  /** The final registry, record by record, is what the rule says about the multiset of findings. */
  lemma RegistryFollowsRule(outputs: seq<Output>, k: Key)
    ensures k in ReconcileFindings(outputs) <==> HasKey(multiset(ItemsOf(outputs)), k)
    ensures k in ReconcileFindings(outputs) ==> Rule(multiset(ItemsOf(outputs)), k, ReconcileFindings(outputs)[k])
  {
    var items := ItemsOf(outputs);
    var rs, ps := AddItems(map[], items), PairsToScan(items);
    var start := Scan(rs, []);
    var scan := ScanPairs(start, ps);
    FoldFollows(items, k);
    ScanKeys(start, ps);
    if k in rs {
      ItemsNormal(outputs);
      ScanQuestions(items, k);
      ScanEffect(start, ps, k);
      ConflictTextNamesOne(outputs, k);
      FinalFollows(multiset(items), k, rs[k], FinalRecord(k, scan.records[k], ConflictTexts(scan.conflicts)));
    }
  }

  // ----- The order of arrival does not matter -----

  /** Everything about two records but the order in which agents and ids were listed. */
  ghost predicate SameFinding(a: FindingRecord, b: FindingRecord) {
    && a.state == b.state && a.evidence == b.evidence && a.severity == b.severity
    && a.refs == b.refs && a.review == b.review
    && (forall x :: x in a.agents <==> x in b.agents)
    && (forall x :: x in a.ids <==> x in b.ids)
  }

  lemma RuleDetermines(m: multiset<Item>, k: Key, a: FindingRecord, b: FindingRecord)
    requires Rule(m, k, a) && Rule(m, k, b)
    ensures SameFinding(a, b)
  {
    assert a.evidence == b.evidence by {
      RankOrders(a.evidence, b.evidence);
    }
    assert a.severity == b.severity by {
      SeverityRankOrders(a.severity, b.severity);
    }
    assert a.review == b.review by {
      forall i
        ensures i in a.review <==> i in b.review
      {
        assert i in a.review <==> OwnIssue(m, k, i) || SharesPair(m, k, i);
      }
    }
    assert a.refs == b.refs by {
      assert forall t :: t in a.refs <==> Cites(m, k, t);
    }
  }

  lemma RankOrders(a: EvidenceState, b: EvidenceState)
    requires forall e :: Rank(a) >= Rank(e) <==> Rank(b) >= Rank(e)
    ensures a == b
  {
    assert Rank(a) >= Rank(b) && Rank(b) >= Rank(a);
  }

  lemma SeverityRankOrders(a: Severity, b: Severity)
    requires forall s :: SeverityRank(a) >= SeverityRank(s) <==> SeverityRank(b) >= SeverityRank(s)
    ensures a == b
  {
    assert SeverityRank(a) >= SeverityRank(b) && SeverityRank(b) >= SeverityRank(a);
  }

  /** Agents may finish in any order: the same outputs give the same records. */
  lemma OrderIndependence(a: seq<Output>, b: seq<Output>, k: Key)
    requires multiset(a) == multiset(b)
    ensures k in ReconcileFindings(a) <==> k in ReconcileFindings(b)
    ensures k in ReconcileFindings(a) ==> SameFinding(ReconcileFindings(a)[k], ReconcileFindings(b)[k])
  {
    FlattenPermute(a, b, OutputItems);
    RegistryFollowsRule(a, k);
    RegistryFollowsRule(b, k);
    if k in ReconcileFindings(a) {
      RuleDetermines(multiset(ItemsOf(a)), k, ReconcileFindings(a)[k], ReconcileFindings(b)[k]);
    }
  }
}
