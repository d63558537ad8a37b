/** Cross-agent reconciliation of findings (runtime/finding_registry.py): folding into keyed records, the
    pairwise action scan and the final states. */
module FindingRegistries {
  import opened Wrappers
  import opened Sorting
  import opened Sequences
  import opened Text
  import opened GraphBuilder
  import opened AgentOutputs
  import opened FindingKeys

  // ----- Evidence -----

  datatype EvidenceState = Valid | Duplicate | Stale | Missing | Contradictory

  /** `_EVIDENCE_STATE_ORDER` */
  function Rank(e: EvidenceState): nat {
    match e
    case Valid => 0
    case Duplicate => 1
    case Stale => 2
    case Missing => 3
    case Contradictory => 4
  }

  function Worse(a: EvidenceState, b: EvidenceState): EvidenceState {
    if Rank(a) >= Rank(b) then a else b
  }

  function Upper(s: string): string {
    seq(|s|, i requires 0 <= i < |s| => if 'a' <= s[i] <= 'z' then s[i] - 'a' + 'A' else s[i])
  }

  /** The item is indexed under its id and its source, blank ones excepted. */
  predicate IndexedUnder(e: EvidenceItem, ref: string) {
    !Blank(ref) && (e.id == Some(ref) || e.source == Some(ref))
  }

  /** `inventory.get(ref, [])` */
  function Observed(evidence: seq<EvidenceItem>, ref: string): seq<string> {
    if evidence == [] then []
    else (if IndexedUnder(evidence[0], ref) then [Upper(evidence[0].state)] else []) + Observed(evidence[1..], ref)
  }

  /** `_reference_state` */
  function ReferenceState(observed: seq<string>): EvidenceState {
    if observed == [] then Missing
    else
      var base := if |observed| != 1 then Duplicate else Valid;
      if "CONTRADICTORY" in observed then Contradictory
      else if "MISSING" in observed || "INVALID" in observed then Worse(base, Missing)
      else if "STALE" in observed then Worse(base, Stale)
      else base
  }

  function WorstReference(evidence: seq<EvidenceItem>, refs: seq<string>, start: EvidenceState): EvidenceState {
    if refs == [] then start
    else WorstReference(evidence, refs[1..], Worse(start, ReferenceState(Observed(evidence, refs[0]))))
  }

  /** `_evidence_state` */
  function EvidenceOf(evidence: seq<EvidenceItem>, refs: seq<string>): EvidenceState {
    if refs == [] then Missing
    else
      var repeated := |SortStrings(Dedupe(refs))| != |refs|;
      WorstReference(evidence, SortStrings(Dedupe(refs)), if repeated then Duplicate else Valid)
  }

  // ----- Findings as rows -----

  datatype ReviewIssue = MalformedAction | MissingId | PairMalformed | PairUnproven

  /** What one finding contributes to its record and to the action scan. */
  datatype Item = Item(
    agent: string, id: string, key: Key, refs: set<string>, severity: Severity, evidence: EvidenceState,
    contract: Option<(string, string)>, review: set<ReviewIssue>, statement: string)

  /** `_action_polarity`: a declared contract over a normalised target, or an issue. */
  function ContractOf(p: ActionPolarity): Result<Option<(string, string)>, ReviewIssue> {
    match p
    case Undeclared => Ok(None)
    case Malformed => Err(MalformedAction)
    case Declared(target, polarity) =>
      if Norm(target) == "" || polarity !in {"ENABLE", "DISABLE"} then Err(MalformedAction)
      else Ok(Some((Norm(target), polarity)))
  }

  function ItemOf(o: Output, f: Finding): (i: Item)
    ensures Normal(i.key.scope) && Normal(i.key.identity)
  {
    var contract := ContractOf(f.polarity);
    var named := f.id.Some? && !Blank(f.id.value);
    Item(
      o.agent, if named then f.id.value else "", FindingKey(f.scope, f.statement),
      (set r | r in f.evidenceRefs), f.severity, EvidenceOf(o.evidence, f.evidenceRefs),
      if contract.Ok? then contract.value else None,
      (if contract.Err? then {MalformedAction} else {}) + (if named then {} else {MissingId}),
      Norm(f.statement))
  }

  function OutputItems(o: Output): (r: seq<Item>)
    ensures |r| == |o.findings| && forall i :: 0 <= i < |r| ==> r[i] == ItemOf(o, o.findings[i])
  {
    seq(|o.findings|, i requires 0 <= i < |o.findings| => ItemOf(o, o.findings[i]))
  }

  /** All findings, output by output. */
  function ItemsOf(outputs: seq<Output>): seq<Item> {
    Flatten(outputs, OutputItems)
  }

  // ----- Folding into records -----

  datatype FindingState = Proposed | Accepted | Conflicted | EvidenceReview

  datatype FindingRecord = FindingRecord(
    agents: seq<string>, ids: seq<string>, refs: set<string>, severity: Severity,
    evidence: EvidenceState, review: set<ReviewIssue>, state: FindingState)

  type Records = map<Key, FindingRecord>

  /** `_SEVERITY_ORDER` */
  function SeverityRank(s: Severity): nat {
    match s
    case Low => 1
    case Medium => 2
    case High => 3
    case Critical => 4
  }

  function AppendNew(xs: seq<string>, x: string): (r: seq<string>)
    ensures forall y :: y in r <==> y in xs || y == x
  {
    if x in xs then xs else xs + [x]
  }

  function FirstRecord(i: Item): FindingRecord {
    FindingRecord([i.agent], if i.id != "" then [i.id] else [], i.refs, i.severity, i.evidence, i.review, Proposed)
  }

  /** A later finding with the same key. */
  function Merge(r: FindingRecord, i: Item): FindingRecord {
    var incoming := if r.refs * i.refs != {} then Worse(i.evidence, Duplicate) else i.evidence;
    FindingRecord(
      AppendNew(r.agents, i.agent), if i.id != "" then AppendNew(r.ids, i.id) else r.ids, r.refs + i.refs,
      if SeverityRank(i.severity) > SeverityRank(r.severity) then i.severity else r.severity,
      Worse(r.evidence, incoming), r.review + i.review, r.state)
  }

  /** One turn of the loop of `add_output`. */
  function AddItem(rs: Records, i: Item): Records {
    rs[i.key := if i.key in rs then Merge(rs[i.key], i) else FirstRecord(i)]
  }

  function AddItems(rs: Records, items: seq<Item>): Records {
    Fold(AddItem, rs, items)
  }

  // ----- The action scan -----

  predicate Broken(i: Item) {
    MalformedAction in i.review || MissingId in i.review
  }

  predicate SameScope(a: Item, b: Item) {
    a.key.scope == b.key.scope
  }

  predicate PairBroken(a: Item, b: Item) {
    SameScope(a, b) && (Broken(a) || Broken(b))
  }

  /** Opposite declared polarities for one target. */
  predicate Clash(a: Item, b: Item) {
    && SameScope(a, b) && !Broken(a) && !Broken(b)
    && a.contract.Some? && b.contract.Some?
    && a.contract.value.0 == b.contract.value.0 && a.contract.value.1 != b.contract.value.1
  }

  predicate PairUndecided(a: Item, b: Item) {
    && SameScope(a, b) && !Broken(a) && !Broken(b)
    && (a.contract.None? || b.contract.None?)
    && a.agent != b.agent && a.statement != b.statement
  }

  function MarkContradictory(rs: Records, keys: set<Key>): (r: Records)
    ensures r.Keys == rs.Keys
  {
    map k | k in rs :: if k in keys then rs[k].(evidence := Contradictory) else rs[k]
  }

  function MarkReview(rs: Records, keys: set<Key>, issue: ReviewIssue): (r: Records)
    ensures r.Keys == rs.Keys
  {
    map k | k in rs :: if k in keys then rs[k].(review := rs[k].review + {issue}) else rs[k]
  }

  datatype Conflict = Conflict(scope: string, agents: seq<string>, ids: seq<string>, recordKeys: seq<string>)

  /** The texts of `sorted({a, b})`. */
  function PairTexts(a: Key, b: Key): (r: seq<string>)
    ensures forall t :: t in r <==> t == KeyText(a) || t == KeyText(b)
  {
    if a == b then [KeyText(a)] else if KeyLessEq(a, b) then [KeyText(a), KeyText(b)] else [KeyText(b), KeyText(a)]
  }

  function ConflictOf(a: Item, b: Item): Conflict {
    Conflict(if a.key.scope != "" then a.key.scope else "unspecified", [a.agent, b.agent], [a.id, b.id],
             PairTexts(a.key, b.key))
  }

  datatype Scan = Scan(records: Records, conflicts: seq<Conflict>)

  /** `_reconcile_action_pair` */
  function ScanPair(s: Scan, a: Item, b: Item): Scan {
    var keys := {a.key, b.key};
    if Broken(a) || Broken(b) then s.(records := MarkReview(s.records, keys, PairMalformed))
    else if a.contract.Some? && b.contract.Some? then
      if a.contract.value.0 == b.contract.value.0 && a.contract.value.1 != b.contract.value.1 then
        Scan(MarkContradictory(s.records, keys), s.conflicts + [ConflictOf(a, b)])
      else s
    else if a.agent != b.agent && a.statement != b.statement then
      s.(records := MarkReview(s.records, keys, PairUnproven))
    else s
  }

  type Pair = (Item, Item)

  /** Every later row against `left`. */
  function PairsWith(left: Item, rows: seq<Item>): (ps: seq<Pair>)
    ensures |ps| == |rows| && forall i :: 0 <= i < |ps| ==> ps[i] == (left, rows[i])
  {
    seq(|rows|, i requires 0 <= i < |rows| => (left, rows[i]))
  }

  function PairsAmong(rows: seq<Item>): seq<Pair> {
    if rows == [] then [] else PairsWith(rows[0], rows[1..]) + PairsAmong(rows[1..])
  }

  function Scopes(items: seq<Item>): (r: seq<string>)
    ensures forall x :: x in r <==> exists i :: i in items && i.key.scope == x
    ensures NoDuplicates(r)
  {
    if items == [] then []
    else
      var rest := Scopes(items[..|items| - 1]);
      var last := items[|items| - 1];
      assert items == items[..|items| - 1] + [last];
      if last.key.scope in rest then rest else rest + [last.key.scope]
  }

  function RowsIn(items: seq<Item>, scope: string): seq<Item> {
    Filter(items, (i: Item) => i.key.scope == scope)
  }

  function ScopePairs(items: seq<Item>, scopes: seq<string>): seq<Pair> {
    if scopes == [] then []
    else ScopePairs(items, scopes[..|scopes| - 1]) + PairsAmong(RowsIn(items, scopes[|scopes| - 1]))
  }

  /** The pairs `conflicts` visits: scopes in order of first appearance, rows in order within each. */
  function PairsToScan(items: seq<Item>): seq<Pair> {
    ScopePairs(items, Scopes(items))
  }

  function ScanStep(s: Scan, p: Pair): Scan {
    ScanPair(s, p.0, p.1)
  }

  function ScanPairs(s: Scan, ps: seq<Pair>): Scan {
    Fold(ScanStep, s, ps)
  }

  // ----- Final states -----

  function ConflictTexts(cs: seq<Conflict>): set<string> {
    set c, t | c in cs && t in c.recordKeys :: t
  }

  function FinalRecord(k: Key, r: FindingRecord, conflicted: set<string>): FindingRecord {
    if KeyText(k) in conflicted then r.(state := Conflicted, evidence := Contradictory)
    else r.(state := if r.evidence == Valid && r.review == {} then Accepted else EvidenceReview)
  }

  /** `accept_all_without_conflict` */
  function AcceptAll(rs: Records, cs: seq<Conflict>): (r: Records)
    ensures r.Keys == rs.Keys && forall k :: k in rs ==> r[k] == FinalRecord(k, rs[k], ConflictTexts(cs))
  {
    map k | k in rs :: FinalRecord(k, rs[k], ConflictTexts(cs))
  }

  function ScanOf(outputs: seq<Output>): Scan {
    ScanPairs(Scan(AddItems(map[], ItemsOf(outputs)), []), PairsToScan(ItemsOf(outputs)))
  }

  /** The registry after `_reconcile_outputs` has run over the completed outputs. */
  function ReconcileFindings(outputs: seq<Output>): Records {
    AcceptAll(ScanOf(outputs).records, ScanOf(outputs).conflicts)
  }

  /** Everything `AddOutput` folds for the outputs so far and one more. */
  lemma AddItemsOutput(outputs: seq<Output>, i: nat)
    requires i < |outputs|
    ensures AddItems(map[], ItemsOf(outputs[..i + 1])) ==
            AddItems(AddItems(map[], ItemsOf(outputs[..i])), OutputItems(outputs[i]))
  {
    FlattenNext(outputs[..i], outputs[i], OutputItems);
    assert outputs[..i + 1] == outputs[..i] + [outputs[i]];
    FoldConcat(AddItem, map[], ItemsOf(outputs[..i]), OutputItems(outputs[i]));
  }

  // ----- The registry object -----

  class FindingRegistry {
    var records: Records

    constructor ()
      ensures records == map[]
    {
      records := map[];
    }

    method AddOutput(o: Output)
      modifies this
      ensures records == AddItems(old(records), OutputItems(o))
    {
      ghost var start := records;
      for i := 0 to |o.findings|
        invariant records == AddItems(start, OutputItems(o)[..i])
      {
        FoldNext(AddItem, start, OutputItems(o), i);
        var item := ItemOf(o, o.findings[i]);
        if item.key !in records {
          records := records[item.key := FirstRecord(item)];
        } else {
          var r := records[item.key];
          records := records[item.key := Merge(r, item)];
        }
      }
      assert OutputItems(o)[..|o.findings|] == OutputItems(o);
    }

    method ReconcileActionPair(a: Item, b: Item) returns (conflict: Option<Conflict>)
      modifies this
      ensures forall cs :: ScanPair(Scan(old(records), cs), a, b) ==
                             Scan(records, if conflict.Some? then cs + [conflict.value] else cs)
    {
      conflict := None;
      var keys := {a.key, b.key};
      if Broken(a) || Broken(b) {
        records := MarkReview(records, keys, PairMalformed);
      } else if a.contract.Some? && b.contract.Some? {
        if a.contract.value.0 == b.contract.value.0 && a.contract.value.1 != b.contract.value.1 {
          records := MarkContradictory(records, keys);
          conflict := Some(ConflictOf(a, b));
        }
      } else if a.agent != b.agent && a.statement != b.statement {
        records := MarkReview(records, keys, PairUnproven);
      }
    }

    method Conflicts(outputs: seq<Output>) returns (conflicts: seq<Conflict>)
      modifies this
      ensures Scan(records, conflicts) == ScanPairs(Scan(old(records), []), PairsToScan(ItemsOf(outputs)))
    {
      conflicts := [];
      var pairs := PairsToScan(ItemsOf(outputs));
      ghost var start := Scan(records, []);
      for i := 0 to |pairs|
        invariant Scan(records, conflicts) == ScanPairs(start, pairs[..i])
      {
        FoldNext(ScanStep, start, pairs, i);
        var conflict := ReconcileActionPair(pairs[i].0, pairs[i].1);
        if conflict.Some? {
          conflicts := conflicts + [conflict.value];
        }
      }
      assert pairs[..|pairs|] == pairs;
    }

    /** One turn of the loop below. */
    method SettleRecord(k: Key, conflicted: set<string>)
      requires k in records
      modifies this
      ensures records == old(records)[k := FinalRecord(k, old(records)[k], conflicted)]
    {
      var r := records[k];
      if KeyText(k) in conflicted {
        r := r.(state := Conflicted, evidence := Contradictory);
      } else {
        r := r.(state := if r.evidence == Valid && r.review == {} then Accepted else EvidenceReview);
      }
      records := records[k := r];
    }

    /** `accept_all_without_conflict`: no record is added or dropped; one whose key some conflict names is CONFLICTED and
        its evidence contradictory; of the others exactly those with valid evidence and nothing to review are
        ACCEPTED; nothing else changes. */
    method AcceptAllWithoutConflict(conflicts: seq<Conflict>)
      modifies this
      ensures records.Keys == old(records).Keys
      ensures forall k :: k in records ==>
                            var r, was, named := records[k], old(records)[k], Named(conflicts, KeyText(k));
                            && (r.state == Conflicted <==> named)
                            && (r.state == Accepted <==> !named && was.evidence == Valid && was.review == {})
                            && (r.state == EvidenceReview <==> !named && !(was.evidence == Valid && was.review == {}))
                            && (r.evidence == if named then Contradictory else was.evidence)
                            && r == was.(state := r.state, evidence := r.evidence)
      ensures records == AcceptAll(old(records), conflicts)
    {
      var conflicted := ConflictTexts(conflicts);
      var left := records.Keys;
      while left != {}
        invariant left <= records.Keys == old(records).Keys
        invariant forall k :: k in records ==>
                                records[k] == if k in left then old(records)[k]
                                              else FinalRecord(k, old(records)[k], conflicted)
        decreases |left|
      {
        var k :| k in left;
        SettleRecord(k, conflicted);
        left := left - {k};
      }
      NamedText(conflicts);
    }
  }

  /** Some conflict names the text of a key. */
  predicate Named(conflicts: seq<Conflict>, text: string) {
    exists c :: c in conflicts && text in c.recordKeys
  }

  lemma NamedText(conflicts: seq<Conflict>)
    ensures forall t :: t in ConflictTexts(conflicts) <==> Named(conflicts, t)
  {
  }

  /** `_reconcile_outputs` up to the decisions. */
  method ReconcileOutputs(outputs: seq<Output>) returns (registry: FindingRegistry, conflicts: seq<Conflict>)
    ensures fresh(registry) && registry.records == ReconcileFindings(outputs)
    ensures conflicts == ScanOf(outputs).conflicts
  {
    registry := new FindingRegistry();
    for i := 0 to |outputs|
      invariant fresh(registry) && registry.records == AddItems(map[], ItemsOf(outputs[..i]))
    {
      AddItemsOutput(outputs, i);
      registry.AddOutput(outputs[i]);
    }
    assert outputs[..|outputs|] == outputs;
    conflicts := registry.Conflicts(outputs);
    registry.AcceptAllWithoutConflict(conflicts);
  }
}
