/** Rows of the snapshots table, their order, and what retention says about them (adapters/evidence_store.py). */
module EvidenceRows {
  import opened Wrappers
  import opened Sorting
  import opened Sequences

  datatype Row = Row(
    id: nat, url: string, group: string, capturedAt: real, payloadJson: string, schema: string,
    source: Option<string>, status: string, runId: Option<string>, scopeJson: string,
    payloadHash: string, recordHash: string)

  ghost predicate DistinctIds(table: seq<Row>) {
    forall i, j :: 0 <= i < j < |table| ==> table[i].id != table[j].id
  }

  lemma SameId(table: seq<Row>, x: Row, y: Row)
    requires DistinctIds(table) && x in table && y in table && x.id == y.id
    ensures x == y
  {
  }

  /** `ORDER BY captured_at DESC, id DESC` */
  predicate Newer(a: Row, b: Row) {
    a.capturedAt > b.capturedAt || (a.capturedAt == b.capturedAt && a.id >= b.id)
  }

  predicate StrictlyNewer(a: Row, b: Row) {
    a.capturedAt > b.capturedAt || (a.capturedAt == b.capturedAt && a.id > b.id)
  }

  lemma NewerIsPreorder()
    ensures TotalPreorder(Newer)
  {
  }

  lemma NewerAntisymmetric(table: seq<Row>, rows: seq<Row>)
    requires DistinctIds(table) && forall r :: r in rows ==> r in table
    ensures AntisymmetricOn(rows, Newer)
  {
    forall x, y | x in rows && y in rows && Newer(x, y) && Newer(y, x)
      ensures x == y
    {
      SameId(table, x, y);
    }
  }

  // ----- Queries -----

  /** `WHERE url=? AND metric_group=? [AND schema_version=?]` */
  datatype Query = Query(url: string, group: string, schema: Option<string>)

  predicate Matches(q: Query, r: Row) {
    r.url == q.url && r.group == q.group && (q.schema.Some? ==> r.schema == q.schema.value)
  }

  function Matching(q: Query): Row -> bool {
    r => Matches(q, r)
  }

  /** The answer without its limit. */
  function Listing(table: seq<Row>, q: Query): seq<Row> {
    Sort(Filter(table, Matching(q)), Newer)
  }

  function LatestRows(table: seq<Row>, q: Query, limit: nat): seq<Row> {
    Take(Listing(table, q), limit)
  }

  lemma ListingFacts(table: seq<Row>, q: Query)
    ensures SortedBy(Listing(table, q), Newer)
    ensures multiset(Listing(table, q)) == multiset(Filter(table, Matching(q)))
    ensures forall r :: r in Listing(table, q) <==> r in table && Matches(q, r)
  {
    NewerIsPreorder();
    SortSorted(Filter(table, Matching(q)), Newer);
    SortMembers(Filter(table, Matching(q)), Newer);
  }

  /** A new row that nothing is newer than comes first; the rest of the listing stays. */
  lemma RecordedIsNewest(table: seq<Row>, row: Row, q: Query)
    requires DistinctIds(table + [row]) && Matches(q, row)
    requires forall x :: x in table && Matches(q, x) ==> Newer(row, x)
    ensures Listing(table + [row], q) == [row] + Listing(table, q)
  {
    ListingFacts(table, q);
    ListingFacts(table + [row], q);
    FilterConcat(table, [row], Matching(q));
    assert Filter([row], Matching(q)) == [row];
    NewerIsPreorder();
    NewerAntisymmetric(table + [row], Listing(table + [row], q));
    SortedCons(row, Listing(table, q), Newer);
    SortedUnique(Listing(table + [row], q), [row] + Listing(table, q), Newer);
  }

  // ----- Retention -----

  /** The optional filters of a purge. */
  datatype Scope = Scope(url: Option<string>, group: Option<string>, schema: Option<string>)

  predicate Selects(s: Scope, r: Row) {
    && (s.url.Some? ==> r.url == s.url.value)
    && (s.group.Some? ==> r.group == s.group.value)
    && (s.schema.Some? ==> r.schema == s.schema.value)
  }

  predicate SameSeries(a: Row, b: Row) {
    a.url == b.url && a.group == b.group && a.schema == b.schema
  }

  function AheadOf(r: Row): Row -> bool {
    x => SameSeries(x, r) && StrictlyNewer(x, r)
  }

  /** How many rows of its series are newer. */
  function NewerCount(table: seq<Row>, r: Row): nat {
    |Filter(table, AheadOf(r))|
  }

  /** Older than the cutoff and outside the newest `keep` of its series. */
  predicate Expired(table: seq<Row>, cutoff: real, keep: nat, r: Row) {
    r.capturedAt < cutoff && NewerCount(table, r) >= keep
  }

  function Surviving(table: seq<Row>, s: Scope, cutoff: real, keep: nat): Row -> bool {
    r => !(Selects(s, r) && Expired(table, cutoff, keep, r))
  }

  function Purged(table: seq<Row>, s: Scope, cutoff: real, keep: nat): seq<Row> {
    Filter(table, Surviving(table, s, cutoff, keep))
  }

  // ----- What a purge leaves -----

  lemma {:induction false} FilterDistinctIds(table: seq<Row>, keep: Row -> bool)
    requires DistinctIds(table)
    ensures DistinctIds(Filter(table, keep))
  {
    if table != [] {
      FilterDistinctIds(table[1..], keep);
      assert forall x :: x in table[1..] ==> x.id != table[0].id;
    }
  }

  /** Deleted rows are a suffix of their series: whatever is older than a deleted row is deleted too. */
  lemma DeletedIsSuffix(table: seq<Row>, s: Scope, cutoff: real, keep: nat, r: Row, older: Row)
    requires r in table && r !in Purged(table, s, cutoff, keep)
    requires older in table && SameSeries(older, r) && StrictlyNewer(r, older)
    ensures older !in Purged(table, s, cutoff, keep)
  {
    assert Expired(table, cutoff, keep, r);
    FilterMonotone(table, AheadOf(r), AheadOf(older));
  }

  /** Fewer rows, fewer newer ones. */
  lemma NewerCountShrinks(table: seq<Row>, p: Row -> bool, r: Row)
    ensures NewerCount(Filter(table, p), r) <= NewerCount(table, r)
  {
    FilterCommute(table, p, AheadOf(r));
  }

  /** Nothing is left for a second purge, however much milder it is. */
  lemma SecondPurgeKeepsAll(table: seq<Row>, s: Scope, cutoff: real, keep: nat, cutoff2: real, keep2: nat)
    requires cutoff2 <= cutoff && keep <= keep2
    ensures Purged(Purged(table, s, cutoff, keep), s, cutoff2, keep2) == Purged(table, s, cutoff, keep)
  {
    var left := Purged(table, s, cutoff, keep);
    forall r | r in left
      ensures Surviving(left, s, cutoff2, keep2)(r)
    {
      NewerCountShrinks(table, Surviving(table, s, cutoff, keep), r);
    }
    FilterAll(left, Surviving(left, s, cutoff2, keep2));
  }

  /** At most `i` rows are newer than the `i`-th of a listing. */
  lemma PositionBoundsCount(table: seq<Row>, q: Query, i: nat)
    requires i < |Listing(table, q)|
    ensures NewerCount(table, Listing(table, q)[i]) <= i
  {
    var rows := Listing(table, q);
    var ahead := AheadOf(rows[i]);
    ListingFacts(table, q);
    assert Matches(q, rows[i]) by {
      assert rows[i] in rows;
    }
    FilterAbsorbs(table, Matching(q), ahead);
    FilterPermute(Filter(table, Matching(q)), rows, ahead);
    FilterWithinPrefix(rows, i, ahead);
  }

  /** The listing after removing rows is the listing with those rows removed. */
  lemma ListingOfFiltered(table: seq<Row>, q: Query, p: Row -> bool)
    requires DistinctIds(table)
    ensures Listing(Filter(table, p), q) == Filter(Listing(table, q), p)
  {
    NewerIsPreorder();
    NewerAntisymmetric(table, Filter(table, Matching(q)));
    FilterCommute(table, p, Matching(q));
    SortAfterFilter(Filter(table, Matching(q)), p, Newer);
  }

  /** A purge that keeps the newest `keep` never changes the answer to a query for that many or fewer,
      with or without a schema filter. */
  lemma LatestUnchanged(table: seq<Row>, s: Scope, cutoff: real, keep: nat, q: Query, limit: nat)
    requires DistinctIds(table) && limit <= keep
    ensures LatestRows(Purged(table, s, cutoff, keep), q, limit) == LatestRows(table, q, limit)
  {
    var p := Surviving(table, s, cutoff, keep);
    ListingOfFiltered(table, q, p);
    forall r | r in LatestRows(table, q, limit)
      ensures p(r)
    {
      var i :| 0 <= i < |LatestRows(table, q, limit)| && LatestRows(table, q, limit)[i] == r;
      PositionBoundsCount(table, q, i);
    }
    FilterKeepsPrefix(Listing(table, q), limit, p);
  }
}
