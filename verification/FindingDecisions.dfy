/** Decisions built from the reconciled findings (`build_decisions`), and what makes evidence valid. */
module FindingDecisions {
  import opened Wrappers
  import opened Sorting
  import opened Sequences
  import opened Text
  import opened GraphBuilder
  import opened AgentOutputs
  import opened FindingKeys
  import opened FindingRegistries
  import opened FindingRules

  // ----- Listing the registry -----

  lemma KeyLessEqIsTotalOrder()
    ensures TotalOrder(KeyLessEq)
  {
    LessEqIsTotalOrder();
    forall a: Key, b: Key
      ensures KeyLessEq(a, b) || KeyLessEq(b, a)
      ensures KeyLessEq(a, b) && KeyLessEq(b, a) ==> a == b
    {
      assert LessEq(a.scope, b.scope) || LessEq(b.scope, a.scope);
      assert LessEq(a.identity, b.identity) || LessEq(b.identity, a.identity);
    }
    forall a: Key, b: Key, c: Key | KeyLessEq(a, b) && KeyLessEq(b, c)
      ensures KeyLessEq(a, c)
    {
      assert LessEq(a.scope, b.scope) && LessEq(b.scope, c.scope) && LessEq(a.scope, c.scope);
      if a.scope == c.scope {
        assert a.scope == b.scope;
        assert LessEq(a.identity, c.identity);
      }
    }
  }

  /** `sorted(self._records)` */
  ghost predicate Listing(keys: seq<Key>, rs: Records) {
    NoDuplicates(keys) && SortedBy(keys, KeyLessEq) && forall k :: k in keys <==> k in rs
  }

  method ListRecords(rs: Records) returns (keys: seq<Key>)
    ensures Listing(keys, rs)
  {
    keys := [];
    var left := rs.Keys;
    KeyLessEqIsTotalOrder();
    while left != {}
      invariant left <= rs.Keys && NoDuplicates(keys) && SortedBy(keys, KeyLessEq)
      invariant forall k :: k in keys <==> k in rs.Keys && k !in left
    {
      var k :| k in left;
      left := left - {k};
      InsertSorted(k, keys, KeyLessEq);
      InsertDistinct(k, keys, KeyLessEq);
      keys := Insert(k, keys, KeyLessEq);
    }
  }

  // ----- Decisions -----

  datatype Decision = Decision(id: string, verdict: string, evidence: seq<string>)

  function StripAll(values: seq<string>): seq<string> {
    if values == [] then []
    else (if Strip(values[0]) != "" then [Strip(values[0])] else []) + StripAll(values[1..])
  }

  /** `_decision_evidence`: the error is the exception. */
  function DecisionEvidence(values: seq<string>): Result<seq<string>, string> {
    if values == [] then Err("requires canonical evidence references")
    else
      var normalized := StripAll(values);
      if |normalized| != |values| || |(set v | v in normalized)| != |normalized| then
        Err("evidence references must be non-empty and unique")
      else Ok(SortStrings(normalized))
  }

  /** One conflict's decision, after those before it. */
  function Revise(before: Result<seq<Decision>, string>, n: nat, c: Conflict): Result<seq<Decision>, string> {
    if before.Err? then before
    else
      var evidence := DecisionEvidence(c.recordKeys);
      if evidence.Err? then Err(evidence.error)
      else Ok(before.value + [Decision("decision-conflict-" + Padded3(n), "Revise", evidence.value)])
  }

  function ConflictDecisions(cs: seq<Conflict>): Result<seq<Decision>, string> {
    if cs == [] then Ok([]) else Revise(ConflictDecisions(cs[..|cs| - 1]), |cs|, cs[|cs| - 1])
  }

  /** Python's `f"{n:03d}"`. */
  function Padded3(n: nat): string {
    if n < 100 then "0" + Padded(n) else Decimal(n)
  }

  predicate HighAccepted(rs: Records, k: Key) {
    k in rs && rs[k].state == FindingState.Accepted && rs[k].severity in {Severity.High, Severity.Critical}
  }

  function CriticalTexts(rs: Records, keys: seq<Key>): seq<string> {
    if keys == [] then []
    else (if HighAccepted(rs, keys[0]) then [KeyText(keys[0])] else []) + CriticalTexts(rs, keys[1..])
  }

  /** `build_decisions` over `registry.records()`. */
  function BuildDecisions(cs: seq<Conflict>, rs: Records, keys: seq<Key>): Result<seq<Decision>, string> {
    match ConflictDecisions(cs)
    case Err(e) => Err(e)
    case Ok(ds) =>
      var critical := CriticalTexts(rs, keys);
      if critical == [] then Ok(ds)
      else
        match DecisionEvidence(critical)
        case Err(e) => Err(e)
        case Ok(evidence) => Ok(ds + [Decision("decision-high-risk-review", "Approve", evidence)])
  }

  predicate NormalKey(k: Key) {
    Normal(k.scope) && Normal(k.identity)
  }

  ghost predicate IsKeyText(t: string) {
    exists k :: t == KeyText(k) && NormalKey(k)
  }

  /** Texts of normal keys, each once. */
  ghost predicate KeyTexts(texts: seq<string>) {
    NoDuplicates(texts) && forall t :: t in texts ==> IsKeyText(t)
  }

  lemma KeyTextUnspaced(k: Key)
    requires NormalKey(k)
    ensures Strip(KeyText(k)) == KeyText(k) && KeyText(k) != ""
  {
    var t := KeyText(k);
    assert t[0] == if k.scope != "" then k.scope[0] else ':';
    assert t[|t| - 1] == if k.identity != "" then k.identity[|k.identity| - 1] else ':';
  }

  lemma {:induction false} StripKeepsKeyTexts(texts: seq<string>)
    requires KeyTexts(texts)
    ensures StripAll(texts) == texts
  {
    if texts != [] {
      assert texts[0] in texts;
      var k :| texts[0] == KeyText(k) && NormalKey(k);
      KeyTextUnspaced(k);
      StripKeepsKeyTexts(texts[1..]);
    }
  }

  /** Nonempty lists of distinct record keys are accepted as evidence, whole. */
  lemma KeyTextsAreEvidence(texts: seq<string>)
    requires KeyTexts(texts) && texts != []
    ensures DecisionEvidence(texts) == Ok(SortStrings(texts))
  {
    StripKeepsKeyTexts(texts);
    NoDuplicatesCardinality(texts);
  }

  lemma PairTextsAreKeyTexts(a: Key, b: Key)
    requires NormalKey(a) && NormalKey(b)
    ensures KeyTexts(PairTexts(a, b))
  {
    if a != b && KeyText(a) == KeyText(b) {
      KeyTextInjective(a, b);
    }
  }

  lemma {:induction false} CriticalTextsAreKeyTexts(rs: Records, keys: seq<Key>)
    requires NoDuplicates(keys) && forall k :: k in keys ==> NormalKey(k)
    ensures KeyTexts(CriticalTexts(rs, keys))
    ensures forall t :: t in CriticalTexts(rs, keys) <==> exists k :: k in keys && HighAccepted(rs, k) && t == KeyText(k)
  {
    if keys != [] {
      var head, rest := keys[0], keys[1..];
      assert keys == [head] + rest;
      CriticalTextsAreKeyTexts(rs, rest);
      if KeyText(head) in CriticalTexts(rs, rest) {
        var k :| k in rest && HighAccepted(rs, k) && KeyText(head) == KeyText(k);
        assert k in keys && NormalKey(k) && NormalKey(head);
        KeyTextInjective(head, k);
        assert false;
      }
    }
  }

  ghost predicate ConflictsNamed(cs: seq<Conflict>) {
    forall c :: c in cs ==> KeyTexts(c.recordKeys) && c.recordKeys != []
  }

  function RevisionOf(n: nat, c: Conflict): Decision {
    Decision("decision-conflict-" + Padded3(n), "Revise", SortStrings(c.recordKeys))
  }

  /** One revision per conflict, in order. */
  function Revisions(cs: seq<Conflict>): (ds: seq<Decision>)
    ensures |ds| == |cs|
  {
    if cs == [] then [] else Revisions(cs[..|cs| - 1]) + [RevisionOf(|cs|, cs[|cs| - 1])]
  }

  lemma ReviseSucceeds(before: seq<Decision>, n: nat, c: Conflict)
    requires KeyTexts(c.recordKeys) && c.recordKeys != []
    ensures Revise(Ok(before), n, c) == Ok(before + [RevisionOf(n, c)])
  {
    KeyTextsAreEvidence(c.recordKeys);
  }

  lemma RevisionsNext(init: seq<Conflict>, last: Conflict)
    ensures Revisions(init + [last]) == Revisions(init) + [RevisionOf(|init| + 1, last)]
  {
    assert (init + [last])[..|init|] == init;
  }

  lemma ConflictDecisionsNext(init: seq<Conflict>, last: Conflict)
    ensures ConflictDecisions(init + [last]) == Revise(ConflictDecisions(init), |init| + 1, last)
  {
    assert (init + [last])[..|init|] == init;
  }

  lemma {:induction false} ConflictDecisionsSucceed(cs: seq<Conflict>)
    requires ConflictsNamed(cs)
    ensures ConflictDecisions(cs) == Ok(Revisions(cs))
  {
    if cs == [] {
      assert Revisions(cs) == [];
    } else {
      var init, last := cs[..|cs| - 1], cs[|cs| - 1];
      assert cs == init + [last];
      ConflictDecisionsSucceed(init);
      ReviseSucceeds(Revisions(init), |cs|, last);
      RevisionsNext(init, last);
      ConflictDecisionsNext(init, last);
    }
  }

  lemma StepNamed(s: Scan, a: Item, b: Item)
    requires ConflictsNamed(s.conflicts) && NormalKey(a.key) && NormalKey(b.key)
    ensures ConflictsNamed(ScanPair(s, a, b).conflicts)
  {
    PairTextsAreKeyTexts(a.key, b.key);
    assert KeyText(a.key) in ConflictOf(a, b).recordKeys;
    assert forall c :: c in s.conflicts + [ConflictOf(a, b)] ==> c in s.conflicts || c == ConflictOf(a, b);
  }

  lemma {:induction false} ScanConflictsNamed(start: Scan, ps: seq<Pair>)
    requires start.conflicts == [] && forall p :: p in ps ==> NormalKey(p.0.key) && NormalKey(p.1.key)
    ensures ConflictsNamed(ScanPairs(start, ps).conflicts)
  {
    if ps != [] {
      var init, last := ps[..|ps| - 1], ps[|ps| - 1];
      assert ps == init + [last];
      ScanConflictsNamed(start, init);
      FoldSnoc(ScanStep, start, init, last);
      StepNamed(ScanPairs(start, init), last.0, last.1);
    }
  }

  lemma RegistryKeysNormal(outputs: seq<Output>, k: Key)
    requires k in ReconcileFindings(outputs)
    ensures NormalKey(k)
  {
    RegistryFollowsRule(outputs, k);
    ItemsNormal(outputs);
  }

  lemma ScanIsNamed(outputs: seq<Output>)
    ensures ConflictsNamed(ScanOf(outputs).conflicts)
  {
    var items := ItemsOf(outputs);
    forall p | p in PairsToScan(items)
      ensures NormalKey(p.0.key) && NormalKey(p.1.key)
    {
      ItemsNormal(outputs);
      ScannedAreItems(items, p);
    }
    ScanConflictsNamed(Scan(AddItems(map[], items), []), PairsToScan(items));
  }

  /** The evidence of the last decision: the accepted records of high or critical severity. */
  ghost predicate NamesCritical(evidence: seq<string>, rs: Records) {
    && NoDuplicates(evidence)
    && forall t :: t in evidence <==> exists k :: HighAccepted(rs, k) && t == KeyText(k)
  }

  lemma CriticalEvidence(rs: Records, keys: seq<Key>)
    requires Listing(keys, rs) && forall k :: k in keys ==> NormalKey(k)
    ensures CriticalTexts(rs, keys) == [] <==> !exists k :: HighAccepted(rs, k)
    ensures CriticalTexts(rs, keys) != [] ==>
              DecisionEvidence(CriticalTexts(rs, keys)) == Ok(SortStrings(CriticalTexts(rs, keys)))
    ensures NamesCritical(SortStrings(CriticalTexts(rs, keys)), rs)
  {
    var critical := CriticalTexts(rs, keys);
    CriticalTextsAreKeyTexts(rs, keys);
    if critical != [] {
      assert critical[0] in critical;
      KeyTextsAreEvidence(critical);
    }
    forall k | HighAccepted(rs, k)
      ensures KeyText(k) in critical
    {
      assert k in keys;
    }
    SortKeepsMembers(critical);
  }

  lemma SortKeepsMembers(s: seq<string>)
    requires NoDuplicates(s)
    ensures NoDuplicates(SortStrings(s)) && forall t :: t in SortStrings(s) <==> t in s
  {
    var r := SortStrings(s);
    assert forall t :: t in r <==> t in multiset(r);
    DistinctByCount(s);
    DistinctByCount(r);
  }

  /** The decision step never raises: one revision per conflict, and one approval, naming exactly the accepted
      records of high or critical severity, when there are any. */
  lemma DecisionsNeverRaise(outputs: seq<Output>, keys: seq<Key>)
    requires Listing(keys, ReconcileFindings(outputs))
    ensures
      var rs := ReconcileFindings(outputs);
      var revisions := Revisions(ScanOf(outputs).conflicts);
      var made := BuildDecisions(ScanOf(outputs).conflicts, rs, keys);
      if exists k :: HighAccepted(rs, k) then
        exists evidence :: NamesCritical(evidence, rs)
                           && made == Ok(revisions + [Decision("decision-high-risk-review", "Approve", evidence)])
      else made == Ok(revisions)
  {
    var rs := ReconcileFindings(outputs);
    ScanIsNamed(outputs);
    ConflictDecisionsSucceed(ScanOf(outputs).conflicts);
    forall k | k in keys
      ensures NormalKey(k)
    {
      RegistryKeysNormal(outputs, k);
    }
    CriticalEvidence(rs, keys);
  }

  // ----- When a finding's own evidence is valid -----

  /** Cited item: exactly one item is indexed under the reference, and its state is none of the bad ones. */
  predicate SoundReference(evidence: seq<EvidenceItem>, ref: string) {
    var observed := Observed(evidence, ref);
    |observed| == 1 && observed[0] !in {"CONTRADICTORY", "MISSING", "INVALID", "STALE"}
  }

  lemma SoundIsValid(evidence: seq<EvidenceItem>, ref: string)
    ensures ReferenceState(Observed(evidence, ref)) == Valid <==> SoundReference(evidence, ref)
  {
    var observed := Observed(evidence, ref);
    if |observed| == 1 {
      assert observed == [observed[0]];
    }
  }

  lemma {:induction false} WorstIsValid(evidence: seq<EvidenceItem>, refs: seq<string>, start: EvidenceState)
    ensures WorstReference(evidence, refs, start) == Valid <==>
              start == Valid && forall r :: r in refs ==> SoundReference(evidence, r)
  {
    if refs != [] {
      var head := ReferenceState(Observed(evidence, refs[0]));
      WorstIsValid(evidence, refs[1..], Worse(start, head));
      SoundIsValid(evidence, refs[0]);
      assert refs == [refs[0]] + refs[1..];
    }
  }

  lemma {:induction false} DedupeLength(refs: seq<string>)
    ensures |Dedupe(refs)| == |refs| <==> NoDuplicates(refs)
  {
    if refs != [] {
      var init, last := refs[..|refs| - 1], refs[|refs| - 1];
      assert refs == init + [last];
      DedupeLength(init);
      if last in init {
        var i :| 0 <= i < |init| && init[i] == last;
        assert refs[i] == refs[|refs| - 1];
      }
    }
  }

  /** A finding counts as supported exactly when it cites something, nothing twice, and only sound items. */
  lemma EvidenceValidExactly(evidence: seq<EvidenceItem>, refs: seq<string>)
    ensures EvidenceOf(evidence, refs) == Valid <==>
              refs != [] && NoDuplicates(refs) && forall r :: r in refs ==> SoundReference(evidence, r)
  {
    if refs != [] {
      var sorted := SortStrings(Dedupe(refs));
      WorstIsValid(evidence, sorted, if |sorted| != |refs| then Duplicate else Valid);
      assert forall r :: r in sorted <==> r in multiset(sorted);
      DedupeLength(refs);
    }
  }
}
