/** The snapshot store as an object over its table (adapters/evidence_store.py). */
module EvidenceStores {
  import opened Wrappers
  import opened Sorting
  import opened Sequences
  import opened Text
  import opened EvidenceDrift
  import opened JsonPointers
  import opened DriftPatches
  import opened DriftPointers
  import opened EvidenceRows
  import opened EvidenceIntegrity

  const MAX_TEXT_LENGTH := 2048

  datatype StoreError = Closed | InvalidUrl | InvalidLabel | InvalidNumber | TooLarge | NotVerified(cause: DecodeError)

  /** `_require_label` */
  function RequireLabel(value: string): Result<string, StoreError> {
    if Strip(value) == "" || |Strip(value)| > MAX_TEXT_LENGTH then Err(InvalidLabel) else Ok(Strip(value))
  }

  function OptionalLabel(value: Option<string>): Result<Option<string>, StoreError> {
    if value.None? then Ok(None)
    else if RequireLabel(value.value).Err? then Err(InvalidLabel)
    else Ok(Some(RequireLabel(value.value).value))
  }

  predicate IsLabel(value: string) {
    Strip(value) != "" && |Strip(value)| <= MAX_TEXT_LENGTH
  }

  function Stripped(value: Option<string>): Option<string> {
    if value.None? then None else Some(Strip(value.value))
  }

  // ----- Purge order -----

  /** `ORDER BY url, metric_group, schema_version, captured_at DESC, id DESC` */
  predicate PurgeOrder(a: Row, b: Row) {
    if a.url != b.url then LessEq(a.url, b.url)
    else if a.group != b.group then LessEq(a.group, b.group)
    else if a.schema != b.schema then LessEq(a.schema, b.schema)
    else Newer(a, b)
  }

  lemma PurgeOrderTransitive(a: Row, b: Row, c: Row)
    requires PurgeOrder(a, b) && PurgeOrder(b, c)
    ensures PurgeOrder(a, c)
  {
    LessEqIsTotalOrder();
  }

  lemma PurgeOrderIsPreorder()
    ensures TotalPreorder(PurgeOrder)
  {
    forall a, b
      ensures PurgeOrder(a, b) || PurgeOrder(b, a)
    {
      LessEqIsTotalOrder();
    }
    forall a, b, c | PurgeOrder(a, b) && PurgeOrder(b, c)
      ensures PurgeOrder(a, c)
    {
      PurgeOrderTransitive(a, b, c);
    }
  }

  // ----- The purge loop -----

  type SeriesKey = (string, string, string)

  function KeyOf(r: Row): SeriesKey {
    (r.url, r.group, r.schema)
  }

  function Selecting(s: Scope): Row -> bool {
    r => Selects(s, r)
  }

  function InSeries(key: SeriesKey): Row -> bool {
    r => KeyOf(r) == key
  }

  function ExpiredIn(table: seq<Row>, cutoff: real, keep: nat): Row -> bool {
    r => Expired(table, cutoff, keep, r)
  }

  function PurgeRows(table: seq<Row>, s: Scope): seq<Row> {
    Sort(Filter(table, Selecting(s)), PurgeOrder)
  }

  lemma PurgeRowsFacts(table: seq<Row>, s: Scope)
    ensures SortedBy(PurgeRows(table, s), PurgeOrder)
    ensures multiset(PurgeRows(table, s)) == multiset(Filter(table, Selecting(s)))
    ensures forall r :: r in PurgeRows(table, s) <==> r in table && Selects(s, r)
  {
    PurgeOrderIsPreorder();
    SortSorted(Filter(table, Selecting(s)), PurgeOrder);
    var rows := PurgeRows(table, s);
    assert forall r :: r in rows <==> r in multiset(rows);
  }

  lemma {:induction false} FilterIdsDistinct(a: seq<Row>, b: seq<Row>)
    requires DistinctIds(a) && multiset(a) == multiset(b)
    ensures forall i, j :: 0 <= i < j < |b| ==> b[i] != b[j]
  {
    DistinctByCount(a);
    DistinctByCount(b);
  }

  /** How often the loop has met the series of a row is how many rows of that series are newer. */
  lemma RankIsNewerCount(table: seq<Row>, s: Scope, i: nat)
    requires DistinctIds(table) && i < |PurgeRows(table, s)|
    ensures
      var rows := PurgeRows(table, s);
      |Filter(rows[..i], InSeries(KeyOf(rows[i])))| == NewerCount(table, rows[i])
  {
    var rows := PurgeRows(table, s);
    var r := rows[i];
    var ahead, series := AheadOf(r), InSeries(KeyOf(r));
    PurgeRowsFacts(table, s);
    assert Selects(s, r) by { assert r in rows; }
    FilterAbsorbs(table, Selecting(s), ahead);
    FilterPermute(rows, Filter(table, Selecting(s)), ahead);
    FilterDistinctIds(table, Selecting(s));
    FilterIdsDistinct(Filter(table, Selecting(s)), rows);
    forall j | 0 <= j < |rows|
      ensures j < i ==> series(rows[j]) == ahead(rows[j])
      ensures i <= j ==> !ahead(rows[j])
    {
      OrderedInSeries(table, rows, i, j);
    }
    CountOnPrefix(rows, i, series, ahead);
  }

  lemma OrderedInSeries(table: seq<Row>, rows: seq<Row>, i: nat, j: nat)
    requires DistinctIds(table) && SortedBy(rows, PurgeOrder) && i < |rows| && j < |rows|
    requires forall x :: x in rows ==> x in table
    requires forall x, y :: 0 <= x < y < |rows| ==> rows[x] != rows[y]
    ensures j < i && SameSeries(rows[j], rows[i]) ==> StrictlyNewer(rows[j], rows[i])
    ensures i <= j && SameSeries(rows[j], rows[i]) ==> !StrictlyNewer(rows[j], rows[i])
  {
    if j < i {
      assert PurgeOrder(rows[j], rows[i]);
      if rows[j].id == rows[i].id {
        SameId(table, rows[j], rows[i]);
      }
    } else if i < j {
      assert PurgeOrder(rows[i], rows[j]);
    }
  }

  function IdsOf(rows: seq<Row>): (ids: seq<nat>)
    ensures |ids| == |rows| && forall i :: 0 <= i < |rows| ==> ids[i] == rows[i].id
  {
    seq(|rows|, i requires 0 <= i < |rows| => rows[i].id)
  }

  function NotIn(ids: seq<nat>): Row -> bool {
    (r: Row) => r.id !in ids
  }

  /** Deleting the collected ids is keeping the survivors, and the ids count the rows deleted. */
  lemma DeletingIsPurging(table: seq<Row>, s: Scope, cutoff: real, keep: nat, doomed: seq<Row>)
    requires DistinctIds(table)
    requires doomed == Filter(PurgeRows(table, s), ExpiredIn(table, cutoff, keep))
    ensures Filter(table, NotIn(IdsOf(doomed))) == Purged(table, s, cutoff, keep)
    ensures |doomed| == |table| - |Purged(table, s, cutoff, keep)|
  {
    var expired := ExpiredIn(table, cutoff, keep);
    PurgeRowsFacts(table, s);
    forall r | r in table
      ensures NotIn(IdsOf(doomed))(r) == Surviving(table, s, cutoff, keep)(r)
    {
      IdListed(table, doomed, r);
    }
    FilterSame(table, NotIn(IdsOf(doomed)), Surviving(table, s, cutoff, keep));
    FilterPermute(PurgeRows(table, s), Filter(table, Selecting(s)), expired);
    var gone := (r: Row) => Selects(s, r) && Expired(table, cutoff, keep, r);
    FilterTwice(table, Selecting(s), expired, gone);
    FilterComplement(table, Surviving(table, s, cutoff, keep), gone);
  }

  lemma IdListed(table: seq<Row>, rows: seq<Row>, r: Row)
    requires DistinctIds(table) && r in table && forall x :: x in rows ==> x in table
    ensures r.id in IdsOf(rows) <==> r in rows
  {
    if r.id in IdsOf(rows) {
      var i :| 0 <= i < |rows| && rows[i].id == r.id;
      assert rows[i] in rows;
      SameId(table, rows[i], r);
    }
    if r in rows {
      var i :| 0 <= i < |rows| && rows[i] == r;
      assert IdsOf(rows)[i] == r.id;
    }
  }

  lemma {:induction false} FilterTwice(table: seq<Row>, p: Row -> bool, q: Row -> bool, both: Row -> bool)
    requires forall r :: both(r) <==> p(r) && q(r)
    ensures Filter(Filter(table, p), q) == Filter(table, both)
  {
    if table != [] {
      FilterTwice(table[1..], p, q, both);
    }
  }

  /** `seen` counts the rows of each series among the first `i`. */
  ghost predicate Counted(seen: map<SeriesKey, nat>, rows: seq<Row>, i: nat)
    requires i <= |rows|
  {
    forall key: SeriesKey :: SeenCount(seen, key) == |Filter(rows[..i], InSeries(key))|
  }

  /** `seen.get(key, 0)` */
  function SeenCount(seen: map<SeriesKey, nat>, key: SeriesKey): nat {
    if key in seen then seen[key] else 0
  }

  lemma CountedNext(seen: map<SeriesKey, nat>, rows: seq<Row>, i: nat)
    requires i < |rows| && Counted(seen, rows, i)
    ensures Counted(seen[KeyOf(rows[i]) := SeenCount(seen, KeyOf(rows[i])) + 1], rows, i + 1)
  {
    forall key: SeriesKey
      ensures SeenCount(seen[KeyOf(rows[i]) := SeenCount(seen, KeyOf(rows[i])) + 1], key) ==
              |Filter(rows[..i + 1], InSeries(key))|
    {
      FilterSnoc(rows, i, InSeries(key));
      assert SeenCount(seen, key) == |Filter(rows[..i], InSeries(key))|;
    }
  }

  lemma IdsSnoc(rows: seq<Row>, more: seq<Row>)
    ensures IdsOf(rows + more) == IdsOf(rows) + IdsOf(more)
  {
  }

  /** One turn of the selection loop. */
  lemma ExpiredNext(table: seq<Row>, s: Scope, cutoff: real, keep: nat, i: nat)
    requires DistinctIds(table) && i < |PurgeRows(table, s)|
    ensures
      var rows, p := PurgeRows(table, s), ExpiredIn(table, cutoff, keep);
      var rank := |Filter(rows[..i], InSeries(KeyOf(rows[i])))|;
      IdsOf(Filter(rows[..i + 1], p)) ==
      IdsOf(Filter(rows[..i], p)) + if rows[i].capturedAt < cutoff && rank >= keep then [rows[i].id] else []
  {
    var rows, p := PurgeRows(table, s), ExpiredIn(table, cutoff, keep);
    RankIsNewerCount(table, s, i);
    FilterSnoc(rows, i, p);
    IdsSnoc(Filter(rows[..i], p), if p(rows[i]) then [rows[i]] else []);
  }

  /** The selection loop of `purge`: it decides by position in the sorted rows, and so by age within the series. */
  method CollectExpired(table: seq<Row>, s: Scope, cutoff: real, keep: nat) returns (deleteIds: seq<nat>)
    requires DistinctIds(table)
    ensures deleteIds == IdsOf(Filter(PurgeRows(table, s), ExpiredIn(table, cutoff, keep)))
  {
    var rows := PurgeRows(table, s);
    var seen: map<SeriesKey, nat> := map[];
    deleteIds := [];
    for i := 0 to |rows|
      invariant Counted(seen, rows, i)
      invariant deleteIds == IdsOf(Filter(rows[..i], ExpiredIn(table, cutoff, keep)))
    {
      var key := KeyOf(rows[i]);
      var rank := SeenCount(seen, key);
      ExpiredNext(table, s, cutoff, keep, i);
      CountedNext(seen, rows, i);
      seen := seen[key := rank + 1];
      if rows[i].capturedAt < cutoff && rank >= keep {
        deleteIds := deleteIds + [rows[i].id];
      }
    }
    assert rows[..|rows|] == rows;
  }

  // ----- Arguments -----

  /** The canonical filters of `purge`, or the first complaint about them. */
  function PurgeScope(
    c: Codec, url: Option<string>, group: Option<string>, schema: Option<string>): Result<Scope, StoreError>
  {
    if url.Some? && c.canonicalize(url.value).None? then Err(InvalidUrl)
    else
      match (OptionalLabel(group), OptionalLabel(schema))
      case (Ok(g), Ok(s)) => Ok(Scope(if url.Some? then c.canonicalize(url.value) else None, g, s))
      case _ => Err(InvalidLabel)
  }

  function QueryOf(c: Codec, url: string, group: string, schema: Option<string>): Result<Query, StoreError> {
    if c.canonicalize(url).None? then Err(InvalidUrl)
    else
      match (RequireLabel(group), OptionalLabel(schema))
      case (Ok(g), Ok(s)) => Ok(Query(c.canonicalize(url).value, g, s))
      case _ => Err(InvalidLabel)
  }

  /** A snapshot just recorded, nothing newer being stored under its query, is what `latest` answers to the URL and the
      labels it was recorded under, with or without its schema: payload and scope come back as they were given. */
  lemma RecordThenLatest(
    c: Codec, table: seq<Row>, row: Row, url: string, group: string, schema: Option<string>, payload: Json, scope: Json)
    requires DistinctIds(table + [row]) && DecodeRow(c, row) == Ok(Snapshot(row, payload, scope))
    requires Some(row.url) == c.canonicalize(url) && row.group == Strip(group) && IsLabel(group)
    requires schema.Some? ==> row.schema == Strip(schema.value) && IsLabel(schema.value)
    requires forall x :: x in table && QueryOf(c, url, group, schema).Ok? && Matches(QueryOf(c, url, group, schema).value, x)
                         ==> Newer(row, x)
    ensures QueryOf(c, url, group, schema).Ok?
    ensures DecodeRows(c, LatestRows(table + [row], QueryOf(c, url, group, schema).value, 1)) ==
            Ok([Snapshot(row, payload, scope)])
  {
    RecordIsFound(c, row, url, group, schema);
    NewestIsLatest(c, table, row, QueryOf(c, url, group, schema).value);
  }

  lemma NewestIsLatest(c: Codec, table: seq<Row>, row: Row, q: Query)
    requires DistinctIds(table + [row]) && Matches(q, row) && Decodes(c, row)
    requires forall x :: x in table && Matches(q, x) ==> Newer(row, x)
    ensures DecodeRows(c, LatestRows(table + [row], q, 1)) == Ok([DecodeRow(c, row).value])
  {
    RecordedIsNewest(table, row, q);
    assert LatestRows(table + [row], q, 1) == [row];
    DecodeOne(c, row);
  }

  lemma DecodeOne(c: Codec, row: Row)
    requires Decodes(c, row)
    ensures DecodeRows(c, [row]) == Ok([DecodeRow(c, row).value])
  {
    var rows := [row];
    DecodeRowsExactly(c, rows);
    DecodeRowsEach(c, rows);
    assert DecodeRows(c, rows).value == [DecodeRow(c, row).value];
  }

  /** The arguments a row was recorded under find it, with or without its schema. */
  lemma RecordIsFound(c: Codec, row: Row, url: string, group: string, schema: Option<string>)
    requires Some(row.url) == c.canonicalize(url) && row.group == Strip(group) && IsLabel(group)
    requires schema.Some? ==> row.schema == Strip(schema.value) && IsLabel(schema.value)
    ensures QueryOf(c, url, group, schema).Ok? && Matches(QueryOf(c, url, group, schema).value, row)
  {
  }

  // ----- Comparison -----

  datatype Comparison =
    | InsufficientHistory(have: nat)
    | SchemaMismatch(current: Row, previous: Row)
    | Compared(from: Row, to: Row, drift: map<string, Change>, count: nat)

  /** `compare_snapshots` */
  function CompareSnapshots(recent: seq<Snapshot>): Comparison {
    if |recent| < 2 then InsufficientHistory(|recent|)
    else if recent[0].row.schema != recent[1].row.schema then SchemaMismatch(recent[0].row, recent[1].row)
    else
      var drift := Report(recent[1].payload, recent[0].payload);
      Compared(recent[1].row, recent[0].row, drift, |drift|)
  }

  function CompareRows(c: Codec, rows: seq<Row>): Result<Comparison, StoreError> {
    match DecodeRows(c, rows)
    case Err(e) => Err(NotVerified(e))
    case Ok(recent) => Ok(CompareSnapshots(recent))
  }

  /** A comparison reports every difference, as a patch from the older payload to the newer one. */
  lemma ComparisonIsPatch(c: Codec, rows: seq<Row>)
    requires CompareRows(c, rows).Ok? && CompareRows(c, rows).value.Compared?
    ensures
      && |rows| >= 2
      && var older, newer := DecodeRow(c, rows[1]), DecodeRow(c, rows[0]);
      && older.Ok? && newer.Ok?
      && var entries := IterDrift(older.value.payload, newer.value.payload, "");
         && ApplyEntries(Some(older.value.payload), entries) == Some(newer.value.payload)
         && CompareRows(c, rows).value.drift == Dict(entries)
         && CompareRows(c, rows).value.count == |entries|
  {
    DecodeRowsEach(c, rows);
    var older, newer := DecodeRow(c, rows[1]).value, DecodeRow(c, rows[0]).value;
    DriftAppliesExactly(older.payload, newer.payload);
    ReportIsComplete(older.payload, newer.payload);
  }

  datatype Failure = Failure(id: nat, cause: DecodeError)

  function FailureOf(c: Codec): Row -> seq<Failure> {
    r => match DecodeRow(c, r)
         case Ok(_) => []
         case Err(e) => [Failure(r.id, e)]
  }

  /** One failure per row that does not decode, in table order. */
  function Failures(c: Codec, rows: seq<Row>): seq<Failure> {
    Flatten(rows, FailureOf(c))
  }

  lemma {:induction false} FailuresExactly(c: Codec, rows: seq<Row>)
    ensures Failures(c, rows) == [] <==> forall r :: r in rows ==> Decodes(c, r)
  {
    if rows != [] {
      FailuresExactly(c, rows[1..]);
      assert rows == [rows[0]] + rows[1..];
      assert Decodes(c, rows[0]) <==> FailureOf(c)(rows[0]) == [];
      assert forall r :: r in rows <==> r == rows[0] || r in rows[1..];
    }
  }

  // ----- The store -----

  class EvidenceStore {
    var table: seq<Row>
    var nextId: nat
    var closed: bool
    const codec: Codec
    const maxBytes: nat

    ghost predicate Valid()
      reads this
    {
      DistinctIds(table) && forall r :: r in table ==> r.id < nextId
    }

    /** Every stored row verifies and decodes. */
    ghost predicate Intact()
      reads this
    {
      forall r :: r in table ==> Decodes(codec, r)
    }

    constructor (codec: Codec, maxBytes: nat)
      ensures Valid() && Intact() && table == [] && !closed && this.codec == codec && this.maxBytes == maxBytes
    {
      this.codec, this.maxBytes := codec, maxBytes;
      table, nextId, closed := [], 1, false;
    }

    /** The payload and scope are those already redacted. */
    method Record(
      url: string, group: string, payload: Json, schema: string, source: Option<string>, status: string,
      runId: Option<string>, scope: Json, capturedAt: real) returns (r: Result<nat, StoreError>)
      requires Valid() && Faithful(codec) && payload.Object? && scope.Object?
      modifies this
      ensures Valid() && closed == old(closed) && (old(Intact()) ==> Intact())
      ensures r.Ok? <==>
              && codec.canonicalize(url).Some? && IsLabel(group) && IsLabel(schema) && IsLabel(status)
              && (source.Some? ==> IsLabel(source.value)) && (runId.Some? ==> IsLabel(runId.value))
              && |codec.dumps(payload)| <= maxBytes && |codec.dumps(scope)| <= maxBytes
              && capturedAt >= 0.0 && !closed
      ensures r.Err? ==> table == old(table)
      ensures r.Ok? ==>
                && |table| == |old(table)| + 1 && table[..|old(table)|] == old(table)
                && var row := table[|old(table)|];
                   && row.id == r.value && (forall x :: x in old(table) ==> x.id < row.id)
                   && Some(row.url) == codec.canonicalize(url) && row.capturedAt == capturedAt
                   && row.group == Strip(group) && row.schema == Strip(schema) && row.status == Strip(status)
                   && row.source == Stripped(source) && row.runId == Stripped(runId)
                   && DecodeRow(codec, row) == Ok(Snapshot(row, payload, scope))
    {
      if codec.canonicalize(url).None? { return Err(InvalidUrl); }
      var labels := (RequireLabel(group), RequireLabel(schema), RequireLabel(status));
      var optional := (OptionalLabel(source), OptionalLabel(runId));
      if labels.0.Err? || labels.1.Err? || labels.2.Err? || optional.0.Err? || optional.1.Err? {
        return Err(InvalidLabel);
      }
      var payloadJson, scopeJson := codec.dumps(payload), codec.dumps(scope);
      if |payloadJson| > maxBytes || |scopeJson| > maxBytes { return Err(TooLarge); }
      if capturedAt < 0.0 { return Err(InvalidNumber); }
      if closed { return Err(Closed); }
      var bare := Row(
        nextId, codec.canonicalize(url).value, labels.0.value, capturedAt, payloadJson, labels.1.value,
        optional.0.value, labels.2.value, optional.1.value, scopeJson, "", "");
      var row := bare.(payloadHash := codec.hash(payloadJson), recordHash := RecordDigest(codec, bare));
      assert EnvelopeOf(row) == EnvelopeOf(bare);
      assert DecodeRow(codec, row) == Ok(Snapshot(row, payload, scope));
      table := table + [row];
      nextId := nextId + 1;
      return Ok(row.id);
    }

    method Latest(url: string, group: string, limit: int, schema: Option<string>)
      returns (r: Result<seq<Snapshot>, StoreError>)
      requires Valid()
      ensures r.Ok? <==> 1 <= limit <= 10000 && QueryOf(codec, url, group, schema).Ok? && !closed
                         && forall x :: x in LatestRows(table, QueryOf(codec, url, group, schema).value, limit) ==>
                                          Decodes(codec, x)
      ensures r.Ok? ==> Ok(r.value) == DecodeRows(codec, LatestRows(table, QueryOf(codec, url, group, schema).value, limit))
    {
      if limit < 1 || limit > 10000 { return Err(InvalidNumber); }
      var q := QueryOf(codec, url, group, schema);
      if q.Err? { return Err(q.error); }
      if closed { return Err(Closed); }
      var rows := LatestRows(table, q.value, limit);
      var decoded := DecodeRows(codec, rows);
      DecodeRowsExactly(codec, rows);
      if decoded.Err? { return Err(NotVerified(decoded.error)); }
      return Ok(decoded.value);
    }

    method Compare(url: string, group: string, schema: Option<string>) returns (r: Result<Comparison, StoreError>)
      requires Valid()
      ensures QueryOf(codec, url, group, schema).Ok? && !closed ==>
                r.Ok? == CompareRows(codec, LatestRows(table, QueryOf(codec, url, group, schema).value, 2)).Ok?
      ensures r.Ok? ==>
                QueryOf(codec, url, group, schema).Ok?
                && r == CompareRows(codec, LatestRows(table, QueryOf(codec, url, group, schema).value, 2))
    {
      var recent := Latest(url, group, 2, schema);
      if recent.Err? {
        ghost var q := QueryOf(codec, url, group, schema);
        if q.Ok? {
          DecodeRowsExactly(codec, LatestRows(table, q.value, 2));
        }
        return Err(recent.error);
      }
      return Ok(CompareSnapshots(recent.value));
    }

    method Purge(
      before: real, keepLatest: int, url: Option<string>, group: Option<string>, schema: Option<string>)
      returns (r: Result<nat, StoreError>)
      requires Valid()
      modifies this
      ensures Valid() && closed == old(closed) && nextId == old(nextId) && (old(Intact()) ==> Intact())
      ensures r.Ok? <==> before >= 0.0 && keepLatest >= 0 && PurgeScope(codec, url, group, schema).Ok? && !closed
      ensures r.Err? ==> table == old(table)
      ensures r.Ok? ==>
                && table == Purged(old(table), PurgeScope(codec, url, group, schema).value, before, keepLatest)
                && r.value == |old(table)| - |table|
      ensures r.Ok? ==> forall q, limit: nat :: limit <= keepLatest ==>
                                                  LatestRows(table, q, limit) == LatestRows(old(table), q, limit)
    {
      if before < 0.0 || keepLatest < 0 { return Err(InvalidNumber); }
      var checked := PurgeScope(codec, url, group, schema);
      if checked.Err? { return Err(checked.error); }
      if closed { return Err(Closed); }
      var scope := checked.value;
      var deleteIds := CollectExpired(table, scope, before, keepLatest);
      DeletingIsPurging(table, scope, before, keepLatest, Filter(PurgeRows(table, scope), ExpiredIn(table, before, keepLatest)));
      FilterDistinctIds(table, NotIn(deleteIds));
      forall q, limit: nat | limit <= keepLatest
        ensures LatestRows(Purged(table, scope, before, keepLatest), q, limit) == LatestRows(table, q, limit)
      {
        LatestUnchanged(table, scope, before, keepLatest, q, limit);
      }
      table := Filter(table, NotIn(deleteIds));
      return Ok(|deleteIds|);
    }

    method Delete(url: string, group: Option<string>) returns (r: Result<nat, StoreError>)
      requires Valid()
      modifies this
      ensures Valid() && closed == old(closed) && nextId == old(nextId) && (old(Intact()) ==> Intact())
      ensures r.Ok? <==> PurgeScope(codec, Some(url), group, None).Ok? && !closed
      ensures r.Err? ==> table == old(table)
      ensures r.Ok? ==> r.value == |old(table)| - |table|
      ensures r.Ok? ==> forall x :: x in table <==>
                                      x in old(table) && !Selects(PurgeScope(codec, Some(url), group, None).value, x)
    {
      var checked := PurgeScope(codec, Some(url), group, None);
      if checked.Err? { return Err(checked.error); }
      if closed { return Err(Closed); }
      var scope := checked.value;
      var count := |Filter(table, Selecting(scope))|;
      var others := (x: Row) => !Selects(scope, x);
      FilterComplement(table, Selecting(scope), others);
      FilterDistinctIds(table, others);
      table := Filter(table, others);
      return Ok(count);
    }

    /** The digest part of `integrity_check`. */
    method IntegrityCheck() returns (checked: nat, errors: seq<Failure>)
      requires Valid()
      ensures checked == |table| && errors == Failures(codec, table)
      ensures errors == [] <==> Intact()
    {
      checked, errors := 0, [];
      for i := 0 to |table|
        invariant checked == i && errors == Failures(codec, table[..i])
      {
        checked := checked + 1;
        FlattenNext(table[..i], table[i], FailureOf(codec));
        assert table[..i + 1] == table[..i] + [table[i]];
        var d := DecodeRow(codec, table[i]);
        if d.Err? {
          errors := errors + [Failure(table[i].id, d.error)];
        }
      }
      assert table[..|table|] == table;
      FailuresExactly(codec, table);
    }
  }
}
