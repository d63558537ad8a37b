/** What a passing audit means, and what any audit does to the handoffs. */
module HandoffReconciliation {
  import opened Wrappers
  import opened Sorting
  import opened Text
  import opened Handoffs
  import opened AgentOutputs
  import opened WorkflowGraphs
  import opened HandoffGovernance

  // ----- The declarative reading of PASS -----

  /** The record was consumed by the output its target node stored, under a valid receipt. */
  predicate DeliveredTo(h: Hasher, r: Record, node: string, agent: string, outputs: map<string, Output>) {
    && r.status == CONSUMED
    && node in outputs
    && outputs[node].agent == agent
    && r.receivingOutput == outputs[node].outputId
    && r.receivingNode == node
    && ReceiptValid(h, r)
  }

  ghost predicate UniqueRecordIds(rs: seq<Record>) {
    forall i, j :: 0 <= i < j < |rs| ==> rs[i].contract.id != rs[j].contract.id
  }

  ghost predicate EdgeDelivered(h: Hasher, c: Context, rs: seq<Record>, e: Edge) {
    exists r :: r in rs && r.contract.id == Id(c, e) && Addressed(c, e, r.contract)
                && DeliveredTo(h, r, e.node.id, e.node.agent, c.outputs)
  }

  ghost predicate ControlDelivered(h: Hasher, c: Context, rs: seq<Record>, d: Control) {
    && ValidDeclaration(d) && d.contract.value.id != ""
    && exists r :: r in rs && r.contract == d.contract.value
                   && DeliveredTo(h, r, r.contract.target, r.contract.toAgent, c.outputs)
  }

  ghost predicate DistinctDeclarations(ds: seq<Control>) {
    forall i, j :: 0 <= i < j < |ds| && ds[i].contract.Some? && ds[j].contract.Some? ==>
      ds[i].contract.value.id != ds[j].contract.value.id
  }

  function DeclaredIds(ds: seq<Control>): set<string> {
    set d | d in ds && d.contract.Some? :: d.contract.value.id
  }

  predicate Settled(r: Record) {
    r.status == CONSUMED && (r.resolution == "ACCEPTED" ==> r.contract.evidenceRefs != [])
  }

  /** Every expected edge and declared control has its one exact, delivered record; nothing else exists. */
  ghost predicate Reconciled(h: Hasher, c: Context, rs: seq<Record>) {
    && UniqueRecordIds(rs)
    && (forall r :: r in rs ==> Prefixed(c.session, r.contract.id))
    && (forall e :: e in Edges(c) ==> EdgeDelivered(h, c, rs, e))
    && DistinctDeclarations(c.graph.controls)
    && (forall d :: d in c.graph.controls ==> ControlDelivered(h, c, rs, d))
    && (forall r :: r in rs ==> r.contract.id in ExpectedIds(c) + DeclaredIds(c.graph.controls))
    && (forall r :: r in rs ==> Settled(r))
  }

  // ----- Index -----

  lemma CountAboveOne(ids: seq<string>)
    ensures (forall i, j :: 0 <= i < j < |ids| ==> ids[i] != ids[j]) <==> (forall x :: x in ids ==> multiset(ids)[x] <= 1)
  {
    DistinctByCount(ids);
    assert forall x :: x !in ids ==> multiset(ids)[x] == 0;
    assert NoDuplicates(ids) <==> forall i, j :: 0 <= i < j < |ids| ==> ids[i] != ids[j];
  }

  lemma IdsOfMembers(rs: seq<Record>, id: string)
    ensures id in IdsOf(rs) <==> exists r :: r in rs && r.contract.id == id
  {
    var ids := IdsOf(rs);
    if id in ids {
      var i :| 0 <= i < |ids| && ids[i] == id;
      assert rs[i] in rs;
    }
    if r :| r in rs && r.contract.id == id {
      var i :| 0 <= i < |rs| && rs[i] == r;
      assert ids[i] == id;
    }
  }

  lemma AllPrefixed(rs: seq<Record>, session: string)
    ensures (forall r :: r in rs ==> Prefixed(session, r.contract.id)) <==>
            (forall x :: x in IdsOf(rs) ==> Prefixed(session, x))
  {
    forall x
      ensures x in IdsOf(rs) <==> exists r :: r in rs && r.contract.id == x
    {
      IdsOfMembers(rs, x);
    }
  }

  lemma IndexClean(rs: seq<Record>, session: string)
    ensures IndexIssues(rs, session) == [] <==>
            UniqueRecordIds(rs) && forall r :: r in rs ==> Prefixed(session, r.contract.id)
  {
    var ids := IdsOf(rs);
    var keys := SortStrings(DistinctIds(ids));
    assert forall x :: x in keys <==> x in ids by {
      assert forall x :: x in keys <==> x in multiset(keys);
    }
    assert UniqueRecordIds(rs) <==> forall x :: x in ids ==> multiset(ids)[x] <= 1 by {
      CountAboveOne(ids);
    }
    AllPrefixed(rs, session);
    IssuesPerId(ids, session);
  }

  lemma IssuesPerId(ids: seq<string>, session: string)
    ensures (forall x :: x in ids ==> IssuesForId(ids, session, x) == []) <==>
            (forall x :: x in ids ==> multiset(ids)[x] <= 1) && (forall x :: x in ids ==> Prefixed(session, x))
  {
    forall x | x in ids
      ensures IssuesForId(ids, session, x) == [] <==> multiset(ids)[x] <= 1 && Prefixed(session, x)
    {
    }
  }

  lemma FirstWithUnique(rs: seq<Record>, r: Record)
    requires UniqueRecordIds(rs) && r in rs
    ensures FirstWith(rs, r.contract.id) < |rs| && rs[FirstWith(rs, r.contract.id)] == r
  {
    var k :| 0 <= k < |rs| && rs[k] == r;
    var i := FirstWith(rs, r.contract.id);
    assert i <= k;
  }

  // ----- Edges -----

  predicate EdgeClean(h: Hasher, c: Context, rs: seq<Record>, e: Edge) {
    var i := FirstWith(rs, Id(c, e));
    && i < |rs|
    && Addressed(c, e, rs[i].contract)
    && !HasWrongConsumer(rs[i], e.node.id, e.node.agent, c.outputs)
    && rs[i].status != CREATED
    && ReceiptValid(h, rs[i])
  }

  lemma OneEdgeClean(h: Hasher, c: Context, rs: seq<Record>, e: Edge)
    ensures AuditEdge(h, c, rs, e).issues == [] <==> EdgeClean(h, c, rs, e)
    ensures AuditEdge(h, c, rs, e).issues == [] ==> AuditEdge(h, c, rs, e).records == rs
  {
  }

  /** The edge audit is silent exactly when every edge is clean, and then it touches nothing. */
  lemma {:induction false} EdgesClean(h: Hasher, c: Context, rs: seq<Record>, edges: seq<Edge>)
    ensures AuditEdges(h, c, rs, edges).issues == [] <==> forall e :: e in edges ==> EdgeClean(h, c, rs, e)
    ensures AuditEdges(h, c, rs, edges).issues == [] ==> AuditEdges(h, c, rs, edges).records == rs
  {
    if edges != [] {
      var init, last := edges[..|edges| - 1], edges[|edges| - 1];
      var before := AuditEdges(h, c, rs, init);
      var step := AuditEdge(h, c, before.records, last);
      assert AuditEdges(h, c, rs, edges) == Audit(step.records, before.issues + step.issues);
      assert edges == init + [last];
      EdgesClean(h, c, rs, init);
      OneEdgeClean(h, c, before.records, last);
    }
  }

  lemma EdgeCleanIsDelivered(h: Hasher, c: Context, rs: seq<Record>, e: Edge)
    requires UniqueRecordIds(rs) && forall r :: r in rs ==> r.status == CONSUMED
    ensures EdgeClean(h, c, rs, e) <==> EdgeDelivered(h, c, rs, e)
  {
    var i := FirstWith(rs, Id(c, e));
    if EdgeClean(h, c, rs, e) {
      assert rs[i] in rs;
    }
    if EdgeDelivered(h, c, rs, e) {
      var r :| r in rs && r.contract.id == Id(c, e) && Addressed(c, e, r.contract)
               && DeliveredTo(h, r, e.node.id, e.node.agent, c.outputs);
      FirstWithUnique(rs, r);
    }
  }

  // ----- Controls -----

  predicate ControlClean(h: Hasher, c: Context, rs: seq<Record>, d: Control) {
    && ValidDeclaration(d) && d.contract.value.id != ""
    && var contract := d.contract.value;
       var i := FirstWith(rs, contract.id);
       && i < |rs|
       && rs[i].contract == contract
       && rs[i].status != CREATED
       && !HasWrongConsumer(rs[i], contract.target, contract.toAgent, c.outputs)
       && ReceiptValid(h, rs[i])
  }

  ghost predicate ControlsAreClean(h: Hasher, c: Context, rs: seq<Record>, ds: seq<Control>) {
    DistinctDeclarations(ds) && forall d :: d in ds ==> ControlClean(h, c, rs, d)
  }

  lemma {:induction false} ControlsClean(h: Hasher, c: Context, rs: seq<Record>, ds: seq<Control>)
    ensures AuditControls(h, c, rs, ds).issues == [] <==> ControlsAreClean(h, c, rs, ds)
    ensures AuditControls(h, c, rs, ds).issues == [] ==>
              AuditControls(h, c, rs, ds).records == rs && AuditControls(h, c, rs, ds).declared == DeclaredIds(ds)
  {
    if ds != [] {
      var init, last := ds[..|ds| - 1], ds[|ds| - 1];
      ControlsClean(h, c, rs, init);
      assert ds == init + [last];
      assert forall d :: d in ds <==> d in init || d == last;
      var before := AuditControls(h, c, rs, init);
      var after := AuditDeclaration(h, c, before, last);
      assert before.issues <= after.issues;
      if before.issues == [] {
        DeclarationClean(h, c, rs, init, last);
      } else {
        FewerControlsClean(h, c, rs, init, last);
      }
    }
  }

  lemma FewerControlsClean(h: Hasher, c: Context, rs: seq<Record>, init: seq<Control>, last: Control)
    ensures ControlsAreClean(h, c, rs, init + [last]) ==> ControlsAreClean(h, c, rs, init)
  {
    var ds := init + [last];
    assert forall i, j :: 0 <= i < j < |init| ==> init[i] == ds[i] && init[j] == ds[j];
    assert forall d :: d in init ==> d in ds;
  }

  lemma DeclarationClean(h: Hasher, c: Context, rs: seq<Record>, init: seq<Control>, last: Control)
    requires ControlsAreClean(h, c, rs, init)
    ensures var after := AuditDeclaration(h, c, ControlAudit(rs, DeclaredIds(init), []), last);
            && (after.issues == [] <==> ControlsAreClean(h, c, rs, init + [last]))
            && (after.issues == [] ==> after.records == rs && after.declared == DeclaredIds(init + [last]))
  {
    var ds := init + [last];
    assert forall d :: d in ds <==> d in init || d == last;
    assert ds[|ds| - 1] == last && forall i :: 0 <= i < |init| ==> ds[i] == init[i];
    if last.contract.Some? {
      var id := last.contract.value.id;
      assert DeclaredIds(ds) == DeclaredIds(init) + {id};
      if id in DeclaredIds(init) {
        var d :| d in init && d.contract.Some? && d.contract.value.id == id;
        var i :| 0 <= i < |init| && init[i] == d;
        assert ds[i].contract.value.id == ds[|init|].contract.value.id;
        assert !DistinctDeclarations(ds);
      } else {
        assert DistinctDeclarations(ds) by {
          forall i, j | 0 <= i < j < |ds| && ds[i].contract.Some? && ds[j].contract.Some?
            ensures ds[i].contract.value.id != ds[j].contract.value.id
          {
            assert init[i] in init;
          }
        }
      }
    } else {
      assert !ControlClean(h, c, rs, last);
    }
  }

  lemma ControlCleanIsDelivered(h: Hasher, c: Context, rs: seq<Record>, d: Control)
    requires UniqueRecordIds(rs) && forall r :: r in rs ==> r.status == CONSUMED
    ensures ControlClean(h, c, rs, d) <==> ControlDelivered(h, c, rs, d)
  {
    if ControlClean(h, c, rs, d) {
      assert rs[FirstWith(rs, d.contract.value.id)] in rs;
    }
    if ControlDelivered(h, c, rs, d) {
      var r :| r in rs && r.contract == d.contract.value
               && DeliveredTo(h, r, r.contract.target, r.contract.toAgent, c.outputs);
      FirstWithUnique(rs, r);
    }
  }

  // ----- PASS -----

  /** A fully consumed list is what finalisation leaves alone. */
  lemma FinalizeConsumed(h: Hasher, rs: seq<Record>)
    ensures UnresolvedOf(FinalizeAll(h, rs)) == [] <==> forall r :: r in rs ==> r.status == CONSUMED
    ensures UnresolvedOf(FinalizeAll(h, rs)) == [] ==> FinalizeAll(h, rs) == rs
  {
    var final := FinalizeAll(h, rs);
    if forall x :: x in final ==> x.status == CONSUMED {
      forall r | r in rs
        ensures r.status == CONSUMED
      {
        var i :| 0 <= i < |rs| && rs[i] == r;
        assert final[i] in final;
      }
    }
    if forall r :: r in rs ==> r.status == CONSUMED {
      assert forall i :: 0 <= i < |rs| ==> rs[i] in rs && final[i] == rs[i];
      assert final == rs;
    }
  }

  /** The audit passes exactly on reconciled handoffs, and leaves them as they are. */
  lemma PassMeansReconciled(h: Hasher, c: Context, rs: seq<Record>)
    ensures Reconcile(h, c, rs).pass <==> Reconciled(h, c, rs)
    ensures Reconcile(h, c, rs).pass ==> Reconcile(h, c, rs).records == rs
  {
    if Reconcile(h, c, rs).pass {
      PassIsReconciled(h, c, rs);
    }
    if Reconciled(h, c, rs) {
      ReconciledPasses(h, c, rs);
    }
  }

  lemma VerdictByPart(h: Hasher, c: Context, rs: seq<Record>)
    ensures var edges := AuditEdges(h, c, rs, Edges(c));
            var controls := AuditControls(h, c, edges.records, c.graph.controls);
            && Reconcile(h, c, rs).records == FinalizeAll(h, controls.records)
            && (Reconcile(h, c, rs).pass <==>
                && IndexIssues(rs, c.session) == [] && edges.issues == [] && controls.issues == []
                && ClosingIssues(c.session, ExpectedIds(c) + controls.declared, controls.records) == []
                && UnresolvedOf(FinalizeAll(h, controls.records)) == [])
  {
  }

  /** A pass means that every part of the audit was silent on the records as given. */
  lemma PassIsSilent(h: Hasher, c: Context, rs: seq<Record>)
    requires Reconcile(h, c, rs).pass
    ensures AuditEdges(h, c, rs, Edges(c)).issues == []
    ensures AuditControls(h, c, rs, c.graph.controls).issues == []
    ensures IndexIssues(rs, c.session) == []
    ensures forall r :: r in rs ==> Settled(r)
    ensures forall r :: r in rs && Prefixed(c.session, r.contract.id) ==>
              r.contract.id in ExpectedIds(c) + DeclaredIds(c.graph.controls)
    ensures Reconcile(h, c, rs).records == rs
  {
    VerdictByPart(h, c, rs);
    EdgesClean(h, c, rs, Edges(c));
    ControlsClean(h, c, rs, c.graph.controls);
    FinalizeConsumed(h, rs);
  }

  lemma PassIsReconciled(h: Hasher, c: Context, rs: seq<Record>)
    requires Reconcile(h, c, rs).pass
    ensures Reconciled(h, c, rs) && Reconcile(h, c, rs).records == rs
  {
    PassIsSilent(h, c, rs);
    IndexClean(rs, c.session);
    assert forall e :: e in Edges(c) ==> EdgeDelivered(h, c, rs, e) by {
      EdgesClean(h, c, rs, Edges(c));
      forall e | e in Edges(c)
        ensures EdgeDelivered(h, c, rs, e)
      {
        EdgeCleanIsDelivered(h, c, rs, e);
      }
    }
    ControlsClean(h, c, rs, c.graph.controls);
    assert forall d :: d in c.graph.controls ==> ControlDelivered(h, c, rs, d) by {
      forall d | d in c.graph.controls
        ensures ControlDelivered(h, c, rs, d)
      {
        ControlCleanIsDelivered(h, c, rs, d);
      }
    }
  }

  lemma EdgesPass(h: Hasher, c: Context, rs: seq<Record>)
    requires UniqueRecordIds(rs) && forall r :: r in rs ==> r.status == CONSUMED
    requires forall e :: e in Edges(c) ==> EdgeDelivered(h, c, rs, e)
    ensures AuditEdges(h, c, rs, Edges(c)) == Audit(rs, [])
  {
    forall e | e in Edges(c)
      ensures EdgeClean(h, c, rs, e)
    {
      EdgeCleanIsDelivered(h, c, rs, e);
    }
    EdgesClean(h, c, rs, Edges(c));
  }

  lemma ControlsPass(h: Hasher, c: Context, rs: seq<Record>)
    requires UniqueRecordIds(rs) && forall r :: r in rs ==> r.status == CONSUMED
    requires DistinctDeclarations(c.graph.controls)
    requires forall d :: d in c.graph.controls ==> ControlDelivered(h, c, rs, d)
    ensures AuditControls(h, c, rs, c.graph.controls) == ControlAudit(rs, DeclaredIds(c.graph.controls), [])
  {
    forall d | d in c.graph.controls
      ensures ControlClean(h, c, rs, d)
    {
      ControlCleanIsDelivered(h, c, rs, d);
    }
    ControlsClean(h, c, rs, c.graph.controls);
  }

  lemma SilentAudit(h: Hasher, c: Context, rs: seq<Record>)
    requires AuditEdges(h, c, rs, Edges(c)) == Audit(rs, [])
    requires AuditControls(h, c, rs, c.graph.controls) == ControlAudit(rs, DeclaredIds(c.graph.controls), [])
    requires IndexIssues(rs, c.session) == []
    requires UnresolvedOf(FinalizeAll(h, rs)) == []
    requires forall r :: r in rs ==> !EvidenceFree(r) && r.status == CONSUMED
    requires forall r :: r in rs ==> r.contract.id in ExpectedIds(c) + DeclaredIds(c.graph.controls)
    ensures Reconcile(h, c, rs).pass
  {
    VerdictByPart(h, c, rs);
  }

  lemma ReconciledPasses(h: Hasher, c: Context, rs: seq<Record>)
    requires Reconciled(h, c, rs)
    ensures Reconcile(h, c, rs).pass
  {
    SettledIsClean(rs);
    assert AuditEdges(h, c, rs, Edges(c)) == Audit(rs, []) by {
      EdgesPass(h, c, rs);
    }
    assert AuditControls(h, c, rs, c.graph.controls) == ControlAudit(rs, DeclaredIds(c.graph.controls), []) by {
      ControlsPass(h, c, rs);
    }
    assert IndexIssues(rs, c.session) == [] by {
      IndexClean(rs, c.session);
    }
    FinalizeConsumed(h, rs);
    SilentAudit(h, c, rs);
  }

  lemma SettledIsClean(rs: seq<Record>)
    requires forall r :: r in rs ==> Settled(r)
    ensures forall r :: r in rs ==> !EvidenceFree(r) && r.status == CONSUMED
  {
  }

  lemma PassedIds(h: Hasher, c: Context, rs: seq<Record>)
    requires Reconciled(h, c, rs)
    ensures (set r | r in rs :: r.contract.id) == ExpectedIds(c) + DeclaredIds(c.graph.controls)
  {
    var ids := set r | r in rs :: r.contract.id;
    forall id | id in ExpectedIds(c) + DeclaredIds(c.graph.controls)
      ensures id in ids
    {
      if id in ExpectedIds(c) {
        var e :| e in Edges(c) && Id(c, e) == id;
        assert EdgeDelivered(h, c, rs, e);
      } else {
        var d :| d in c.graph.controls && d.contract.Some? && d.contract.value.id == id;
        assert ControlDelivered(h, c, rs, d);
      }
    }
  }

  lemma UniqueIdsCount(rs: seq<Record>)
    requires UniqueRecordIds(rs)
    ensures |set r | r in rs :: r.contract.id| == |rs|
  {
    NoDuplicatesCardinality(IdsOf(rs));
    forall x
      ensures x in IdsOf(rs) <==> x in (set r | r in rs :: r.contract.id)
    {
      IdsOfMembers(rs, x);
    }
    assert (set x | x in IdsOf(rs)) == set r | r in rs :: r.contract.id;
  }

  lemma DeliveredEdgeOnce(h: Hasher, c: Context, rs: seq<Record>, e: Edge)
    requires UniqueRecordIds(rs) && EdgeDelivered(h, c, rs, e)
    ensures DeliveredOnce(h, rs, Id(c, e))
  {
    var r :| r in rs && r.contract.id == Id(c, e) && Addressed(c, e, r.contract)
             && DeliveredTo(h, r, e.node.id, e.node.agent, c.outputs);
    FirstWithUnique(rs, r);
    IdsOfMembers(rs, r.contract.id);
    CountAboveOne(IdsOf(rs));
    assert multiset(IdsOf(rs))[r.contract.id] == 1;
  }

  /** On a pass the record ids are in one-to-one correspondence with the expected edges and declared
      controls, and the report counts every expected edge as consumed. */
  lemma PassCounts(h: Hasher, c: Context, rs: seq<Record>)
    requires Reconcile(h, c, rs).pass
    ensures (set r | r in rs :: r.contract.id) == ExpectedIds(c) + DeclaredIds(c.graph.controls)
    ensures |rs| == |ExpectedIds(c) + DeclaredIds(c.graph.controls)|
    ensures Reconcile(h, c, rs).consumed == Reconcile(h, c, rs).expected == |ExpectedIds(c)|
    ensures Reconcile(h, c, rs).declared == |c.graph.controls|
  {
    PassMeansReconciled(h, c, rs);
    PassedIds(h, c, rs);
    UniqueIdsCount(rs);
    assert ConsumedIds(h, c, rs) == ExpectedIds(c) by {
      AllExpectedConsumed(h, c, rs);
    }
    PassDeclares(h, c, rs);
  }

  lemma AllExpectedConsumed(h: Hasher, c: Context, rs: seq<Record>)
    requires UniqueRecordIds(rs) && forall e :: e in Edges(c) ==> EdgeDelivered(h, c, rs, e)
    ensures ConsumedIds(h, c, rs) == ExpectedIds(c)
  {
    forall id | id in ExpectedIds(c)
      ensures DeliveredOnce(h, rs, id)
    {
      var e :| e in Edges(c) && Id(c, e) == id;
      DeliveredEdgeOnce(h, c, rs, e);
    }
  }

  lemma PassDeclares(h: Hasher, c: Context, rs: seq<Record>)
    requires Reconcile(h, c, rs).pass
    ensures Reconcile(h, c, rs).declared == |c.graph.controls|
  {
    EdgesClean(h, c, rs, Edges(c));
    ControlsClean(h, c, rs, c.graph.controls);
    forall d | d in c.graph.controls
      ensures d.contract.Some?
    {
      assert ControlClean(h, c, rs, d);
    }
    DeclarationCount(c.graph.controls);
  }

  lemma {:induction false} DeclarationCount(ds: seq<Control>)
    requires DistinctDeclarations(ds) && forall d :: d in ds ==> d.contract.Some?
    ensures |DeclaredIds(ds)| == |ds|
  {
    if ds != [] {
      var rest := ds[1..];
      assert forall i, j :: 0 <= i < j < |rest| ==> rest[i] == ds[i + 1] && rest[j] == ds[j + 1];
      DeclarationCount(rest);
      FirstDeclarationAlone(ds);
      assert DeclaredIds(ds) == {ds[0].contract.value.id} + DeclaredIds(rest) by {
        assert ds[0] in ds;
        assert forall d :: d in ds <==> d == ds[0] || d in rest;
      }
    }
  }

  lemma FirstDeclarationAlone(ds: seq<Control>)
    requires ds != [] && DistinctDeclarations(ds) && forall d :: d in ds ==> d.contract.Some?
    ensures ds[0].contract.value.id !in DeclaredIds(ds[1..])
  {
    forall d | d in ds[1..]
      ensures d.contract.Some? && d.contract.value.id != ds[0].contract.value.id
    {
      var i :| 1 <= i < |ds| && ds[i] == d;
      assert ds[0] in ds && ds[i] in ds;
    }
  }

  // ----- What any audit does -----

  /** One record across an audit: pending becomes blocked and sealed, anything else stays. */
  predicate ClosedOut(h: Hasher, before: Record, after: Record) {
    if before.status == CREATED then
      && after.contract == before.contract
      && after.status == BLOCKED && after.resolution == "UNRESOLVED"
      && ReceiptValid(h, after)
    else after == before
  }

  predicate KeptOrClosed(h: Hasher, before: Record, after: Record) {
    after == before || (before.status == CREATED && ClosedOut(h, before, after))
  }

  ghost predicate AllKeptOrClosed(h: Hasher, before: seq<Record>, after: seq<Record>) {
    |after| == |before| && forall i :: 0 <= i < |before| ==> KeptOrClosed(h, before[i], after[i])
  }

  lemma BlockSealCloses(h: Hasher, r: Record, reason: string)
    requires ProducesDigests(h) && r.status == CREATED
    ensures ClosedOut(h, r, Sealed(h, BlockedFor(r, reason)))
  {
    SealedIsValid(h, BlockedFor(r, reason));
  }

  lemma {:induction false} EdgesKeep(h: Hasher, c: Context, rs: seq<Record>, edges: seq<Edge>)
    requires ProducesDigests(h)
    ensures AllKeptOrClosed(h, rs, AuditEdges(h, c, rs, edges).records)
  {
    if edges != [] {
      var init, last := edges[..|edges| - 1], edges[|edges| - 1];
      EdgesKeep(h, c, rs, init);
      var mid := AuditEdges(h, c, rs, init).records;
      var i := FirstWith(mid, Id(c, last));
      if i < |mid| && mid[i].status == CREATED {
        BlockSealCloses(h, mid[i], DROPPED_EDGE);
      }
    }
  }

  lemma {:induction false} ControlsKeep(h: Hasher, c: Context, rs: seq<Record>, ds: seq<Control>)
    requires ProducesDigests(h)
    ensures AllKeptOrClosed(h, rs, AuditControls(h, c, rs, ds).records)
  {
    if ds != [] {
      var init, last := ds[..|ds| - 1], ds[|ds| - 1];
      ControlsKeep(h, c, rs, init);
      var mid := AuditControls(h, c, rs, init).records;
      if last.contract.Some? {
        var i := FirstWith(mid, last.contract.value.id);
        if i < |mid| && mid[i].status == CREATED {
          BlockSealCloses(h, mid[i], DROPPED_CONTROL);
        }
      }
    }
  }

  /** After any audit nothing is pending: pending records were blocked and sealed, the rest untouched. */
  lemma AuditClosesPending(h: Hasher, c: Context, rs: seq<Record>)
    requires ProducesDigests(h)
    ensures var after := Reconcile(h, c, rs).records;
            |after| == |rs| && forall i :: 0 <= i < |rs| ==> ClosedOut(h, rs[i], after[i])
  {
    EdgesKeep(h, c, rs, Edges(c));
    var mid := AuditEdges(h, c, rs, Edges(c)).records;
    ControlsKeep(h, c, mid, c.graph.controls);
    var last := AuditControls(h, c, mid, c.graph.controls).records;
    VerdictByPart(h, c, rs);
    var after := Reconcile(h, c, rs).records;
    assert after == FinalizeAll(h, last);
    forall i | 0 <= i < |rs|
      ensures ClosedOut(h, rs[i], after[i])
    {
      ClosedInSteps(h, rs[i], mid[i], last[i]);
    }
  }

  lemma ClosedInSteps(h: Hasher, before: Record, mid: Record, last: Record)
    requires ProducesDigests(h) && KeptOrClosed(h, before, mid) && KeptOrClosed(h, mid, last)
    ensures ClosedOut(h, before, Finalized(h, last))
  {
    if last.status == CREATED {
      BlockSealCloses(h, last, DROPPED);
    }
  }

  lemma NothingPending(h: Hasher, before: seq<Record>, after: seq<Record>)
    requires |after| == |before| && forall i :: 0 <= i < |before| ==> ClosedOut(h, before[i], after[i])
    ensures forall r :: r in after ==> r.status != CREATED
    ensures (forall r :: r in before ==> r.status != CREATED) ==> after == before
    ensures (forall r :: r in after ==> r.status == CONSUMED) ==> after == before
  {
    forall r | r in after
      ensures r.status != CREATED
    {
      var i :| 0 <= i < |after| && after[i] == r;
      assert ClosedOut(h, before[i], after[i]);
    }
    if forall r :: r in before ==> r.status != CREATED {
      forall i | 0 <= i < |before|
        ensures after[i] == before[i]
      {
        assert before[i] in before && ClosedOut(h, before[i], after[i]);
      }
    }
    if forall r :: r in after ==> r.status == CONSUMED {
      forall i | 0 <= i < |before|
        ensures after[i] == before[i]
      {
        assert after[i] in after && ClosedOut(h, before[i], after[i]);
      }
    }
  }

  /** Auditing again changes no record and gives the same verdict. */
  lemma AuditIsIdempotent(h: Hasher, c: Context, rs: seq<Record>)
    requires ProducesDigests(h)
    ensures var after := Reconcile(h, c, rs).records;
            && Reconcile(h, c, after).records == after
            && Reconcile(h, c, after).pass == Reconcile(h, c, rs).pass
  {
    var after := Reconcile(h, c, rs).records;
    AuditClosesPending(h, c, rs);
    NothingPending(h, rs, after);
    AuditClosesPending(h, c, after);
    NothingPending(h, after, Reconcile(h, c, after).records);
    if Reconcile(h, c, after).pass {
      PassMeansReconciled(h, c, after);
      assert forall r :: r in after ==> Settled(r);
      assert after == rs;
    }
    if Reconcile(h, c, rs).pass {
      PassMeansReconciled(h, c, rs);
    }
  }
}
