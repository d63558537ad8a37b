/** The digest migration of the snapshots table and its explicit repair (adapters/evidence_migrations.py). */
module EvidenceMigrations {
  import opened Wrappers
  import opened EvidenceRows
  import opened EvidenceIntegrity

  datatype MigrationError = PayloadMismatch(id: nat) | InvalidUrl(id: nat) | RecordMismatch(id: nat)

  /** The row as the migration would rewrite it. */
  function Rehashed(c: Codec, r: Row, url: string): Row {
    var moved := r.(url := url);
    moved.(payloadHash := c.hash(r.payloadJson), recordHash := RecordDigest(c, moved))
  }

  /** `_backfill_row`: what the row becomes. */
  function Backfill(c: Codec, r: Row): Result<Row, MigrationError> {
    if r.payloadHash != "" && r.recordHash != "" then Ok(r)
    else if r.payloadHash != "" && r.payloadHash != c.hash(r.payloadJson) then Err(PayloadMismatch(r.id))
    else
      match c.canonicalize(r.url)
      case None => Err(InvalidUrl(r.id))
      case Some(url) =>
        if r.recordHash != "" && r.recordHash != Rehashed(c, r, url).recordHash then Err(RecordMismatch(r.id))
        else Ok(Rehashed(c, r, url))
  }

  /** The migrated table, or the complaint about its first bad row. */
  function Migrated(c: Codec, table: seq<Row>): Result<seq<Row>, MigrationError> {
    if table == [] then Ok([])
    else
      match Migrated(c, table[..|table| - 1])
      case Err(e) => Err(e)
      case Ok(done) =>
        match Backfill(c, table[|table| - 1])
        case Err(e) => Err(e)
        case Ok(r) => Ok(done + [r])
  }

  // ----- One row -----

  /** No digest that is there is replaced, and nothing but the URL and missing digests changes. */
  predicate KeepsDigests(c: Codec, before: Row, after: Row) {
    && (before.payloadHash != "" ==> after.payloadHash == before.payloadHash)
    && (before.recordHash != "" ==> after.recordHash == before.recordHash)
    && after == before.(url := after.url, payloadHash := after.payloadHash, recordHash := after.recordHash)
    && (after.url != before.url ==> c.canonicalize(before.url) == Some(after.url))
  }

  lemma NeverReblessed(c: Codec, r: Row)
    requires Backfill(c, r).Ok?
    ensures KeepsDigests(c, r, Backfill(c, r).value)
  {
  }

  predicate LacksDigest(r: Row) {
    r.payloadHash == "" || r.recordHash == ""
  }

  /** A row that lacked a digest verifies afterwards; a fully hashed one verifies as it did before. */
  lemma BackfillVerifies(c: Codec, r: Row)
    requires Faithful(c) && Backfill(c, r).Ok?
    ensures HashesVerify(c, Backfill(c, r).value) <==> LacksDigest(r) || HashesVerify(c, r)
  {
    if LacksDigest(r) {
      var m := Rehashed(c, r, c.canonicalize(r.url).value);
      assert EnvelopeOf(m) == EnvelopeOf(r.(url := m.url));
    }
  }

  /** A row without both digests whose other digest disagrees with its canonical content, or whose URL has no
      canonical form. */
  predicate Unmigratable(c: Codec, r: Row) {
    && LacksDigest(r)
    && (|| (r.payloadHash != "" && r.payloadHash != c.hash(r.payloadJson))
        || c.canonicalize(r.url).None?
        || (r.recordHash != "" && r.recordHash != RecordDigest(c, r.(url := c.canonicalize(r.url).value))))
  }

  lemma RefusedExactly(c: Codec, r: Row)
    ensures Backfill(c, r).Err? <==> Unmigratable(c, r)
  {
    if c.canonicalize(r.url).Some? {
      var moved := r.(url := c.canonicalize(r.url).value);
      assert Rehashed(c, r, moved.url).recordHash == RecordDigest(c, moved);
    }
  }

  lemma BackfillTwice(c: Codec, r: Row)
    requires Faithful(c) && Backfill(c, r).Ok?
    ensures Backfill(c, Backfill(c, r).value) == Backfill(c, r)
  {
    assert Backfill(c, r).value.payloadHash != "" && Backfill(c, r).value.recordHash != "";
  }

  // ----- The table -----

  lemma {:induction false} MigratedRows(c: Codec, table: seq<Row>)
    ensures Migrated(c, table).Ok? ==>
              && |Migrated(c, table).value| == |table|
              && forall i :: 0 <= i < |table| ==> Backfill(c, table[i]) == Ok(Migrated(c, table).value[i])
    ensures Migrated(c, table).Err? ==>
              exists i :: 0 <= i < |table| && FirstRefused(c, table, i)
                          && Backfill(c, table[i]) == Err(Migrated(c, table).error)
  {
    if table != [] {
      var init, last := table[..|table| - 1], table[|table| - 1];
      MigratedRows(c, init);
      if Migrated(c, init).Err? {
        var i :| 0 <= i < |init| && FirstRefused(c, init, i) && Backfill(c, init[i]) == Err(Migrated(c, init).error);
        assert FirstRefused(c, table, i);
      } else if Backfill(c, last).Err? {
        assert FirstRefused(c, table, |init|);
      }
    }
  }

  /** The row at `i` is refused and none before it is. */
  ghost predicate FirstRefused(c: Codec, table: seq<Row>, i: nat) {
    i < |table| && Backfill(c, table[i]).Err? && forall j :: 0 <= j < i ==> Backfill(c, table[j]).Ok?
  }

  /** A table is refused exactly when it holds an unmigratable row. */
  lemma {:induction false} MigrationRefusedExactly(c: Codec, table: seq<Row>)
    ensures Migrated(c, table).Err? <==> exists r :: r in table && Unmigratable(c, r)
  {
    MigratedRows(c, table);
    forall r | r in table
      ensures Backfill(c, r).Err? <==> Unmigratable(c, r)
    {
      RefusedExactly(c, r);
    }
    if Migrated(c, table).Ok? {
      forall r | r in table
        ensures Backfill(c, r).Ok?
      {
        var i :| 0 <= i < |table| && table[i] == r;
      }
    } else {
      var i :| 0 <= i < |table| && FirstRefused(c, table, i) && Backfill(c, table[i]) == Err(Migrated(c, table).error);
      assert table[i] in table;
    }
  }

  /** A migrated table has the same rows in the same places; no digest that was there is replaced, and a row verifies
      afterwards exactly if it lacked a digest or verified before. */
  lemma {:induction false} MigrationKeepsAndVerifies(c: Codec, table: seq<Row>)
    requires Faithful(c) && Migrated(c, table).Ok?
    ensures
      var after := Migrated(c, table).value;
      && |after| == |table|
      && forall i :: 0 <= i < |table| ==>
                       && KeepsDigests(c, table[i], after[i])
                       && (HashesVerify(c, after[i]) <==> LacksDigest(table[i]) || HashesVerify(c, table[i]))
  {
    MigratedRows(c, table);
    forall i | 0 <= i < |table|
      ensures KeepsDigests(c, table[i], Migrated(c, table).value[i])
      ensures HashesVerify(c, Migrated(c, table).value[i]) <==> LacksDigest(table[i]) || HashesVerify(c, table[i])
    {
      NeverReblessed(c, table[i]);
      BackfillVerifies(c, table[i]);
    }
  }

  /** Migrating again changes no row. */
  lemma {:induction false} MigrateTwice(c: Codec, table: seq<Row>)
    requires Faithful(c) && Migrated(c, table).Ok?
    ensures Migrated(c, Migrated(c, table).value) == Migrated(c, table)
  {
    if table != [] {
      var init := table[..|table| - 1];
      MigrateTwice(c, init);
      BackfillTwice(c, table[|table| - 1]);
      var done := Migrated(c, table).value;
      assert done[..|done| - 1] == Migrated(c, init).value;
    }
  }

  // ----- The connection -----

  /** `UPDATE ... WHERE id=?` */
  function UpdateById(table: seq<Row>, id: nat, url: string, payloadHash: string, recordHash: string): (t: seq<Row>)
    ensures |t| == |table|
    ensures forall i :: 0 <= i < |table| ==>
                          t[i] == if table[i].id == id
                                  then table[i].(url := url, payloadHash := payloadHash, recordHash := recordHash)
                                  else table[i]
  {
    seq(|table|, i requires 0 <= i < |table| =>
          if table[i].id == id then table[i].(url := url, payloadHash := payloadHash, recordHash := recordHash)
          else table[i])
  }

  class Connection {
    var table: seq<Row>
    const codec: Codec

    constructor (codec: Codec, table: seq<Row>)
      ensures this.codec == codec && this.table == table
    {
      this.codec, this.table := codec, table;
    }

    method BackfillRow(row: Row, ghost i: nat) returns (r: Result<(), MigrationError>)
      requires DistinctIds(table) && i < |table| && table[i] == row
      modifies this
      ensures r.Err? ==> Backfill(codec, row) == Err(r.error) && table == old(table)
      ensures r.Ok? ==> Backfill(codec, row).Ok? && table == old(table)[i := Backfill(codec, row).value]
    {
      if row.payloadHash != "" && row.recordHash != "" {
        return Ok(());
      }
      var payloadDigest := codec.hash(row.payloadJson);
      if row.payloadHash != "" && row.payloadHash != payloadDigest {
        return Err(PayloadMismatch(row.id));
      }
      var canonical := codec.canonicalize(row.url);
      if canonical.None? {
        return Err(InvalidUrl(row.id));
      }
      var recordDigest := RecordDigest(codec, row.(url := canonical.value));
      if row.recordHash != "" && row.recordHash != recordDigest {
        return Err(RecordMismatch(row.id));
      }
      table := UpdateById(table, row.id, canonical.value, payloadDigest, recordDigest);
      return Ok(());
    }

    /** `migrate_schema`, its column and index statements left out: all rows or none. */
    method MigrateSchema() returns (r: Result<(), MigrationError>)
      requires DistinctIds(table)
      modifies this
      ensures r.Ok? ==> Migrated(codec, old(table)) == Ok(table)
      ensures r.Err? ==> Migrated(codec, old(table)) == Err(r.error) && table == old(table)
    {
      var before := table;
      for i := 0 to |before|
        invariant Migrated(codec, before[..i]).Ok?
        invariant table == Midway(codec, before, i)
      {
        MidwayRow(codec, before, i);
        var outcome := BackfillRow(before[i], i);
        MigratedNext(codec, before, i);
        if outcome.Err? {
          RefusalSpreads(codec, before, i + 1);
          table := before;
          return Err(outcome.error);
        }
        MidwayNext(codec, before, i);
      }
      assert before[..|before|] == before && before[|before|..] == [];
      assert table == Migrated(codec, before).value;
      return Ok(());
    }

    /** `repair_digests`: a URL without canonical form raises, with the rows before it already rewritten. */
    method RepairDigests() returns (r: Result<nat, MigrationError>)
      requires DistinctIds(table)
      modifies this
      ensures r.Ok? ==> Repaired(codec, table, old(table), |old(table)|) && r.value == Differences(table, old(table))
      ensures r.Ok? && Faithful(codec) ==> forall x :: x in table ==> HashesVerify(codec, x)
      ensures r.Err? ==>
                exists i :: 0 <= i < |old(table)| && codec.canonicalize(old(table)[i].url).None?
                            && r.error == InvalidUrl(old(table)[i].id) && Repaired(codec, table, old(table), i)
    {
      ghost var before := table;
      var repaired := 0;
      var rows := table;
      NoDifferences(rows);
      for i := 0 to |rows|
        invariant Repaired(codec, table, before, i)
        invariant repaired == Differences(table, before)
      {
        var row := rows[i];
        var canonical := codec.canonicalize(row.url);
        if canonical.None? {
          return Err(InvalidUrl(row.id));
        }
        var fixed := Rehashed(codec, row, canonical.value);
        ghost var current := table;
        if row != fixed {
          SameIdsDistinct(table, before);
          table := UpdateById(table, row.id, fixed.url, fixed.payloadHash, fixed.recordHash);
          assert table == current[i := fixed];
          repaired := repaired + 1;
        }
        DifferencesNext(current, before, i, fixed);
        assert table == current[i := fixed];
      }
      if Faithful(codec) {
        RepairVerifies(codec, table, before);
      }
      return Ok(repaired);
    }
  }

  // ----- Loop steps -----

  /** The table with its first `i` rows migrated. */
  ghost function Midway(c: Codec, before: seq<Row>, i: nat): seq<Row>
    requires i <= |before| && Migrated(c, before[..i]).Ok?
  {
    Migrated(c, before[..i]).value + before[i..]
  }

  lemma MidwayRow(c: Codec, before: seq<Row>, i: nat)
    requires DistinctIds(before) && i < |before| && Migrated(c, before[..i]).Ok?
    ensures |Midway(c, before, i)| == |before| && Midway(c, before, i)[i] == before[i]
    ensures DistinctIds(Midway(c, before, i))
  {
    var table := Midway(c, before, i);
    MigratedRows(c, before[..i]);
    forall j | 0 <= j < |before|
      ensures |table| == |before| && table[j].id == before[j].id
    {
      if j < i {
        assert before[..i][j] == before[j];
        NeverReblessed(c, before[j]);
      }
    }
  }

  lemma MigratedNext(c: Codec, before: seq<Row>, i: nat)
    requires i < |before| && Migrated(c, before[..i]).Ok?
    ensures Backfill(c, before[i]).Ok? ==>
              Migrated(c, before[..i + 1]) == Ok(Migrated(c, before[..i]).value + [Backfill(c, before[i]).value])
    ensures Backfill(c, before[i]).Err? ==> Migrated(c, before[..i + 1]) == Err(Backfill(c, before[i]).error)
  {
    assert before[..i + 1][..i] == before[..i];
  }

  lemma MidwayNext(c: Codec, before: seq<Row>, i: nat)
    requires i < |before| && Migrated(c, before[..i]).Ok? && Backfill(c, before[i]).Ok?
    ensures Migrated(c, before[..i + 1]).Ok? && i < |Midway(c, before, i)|
    ensures Midway(c, before, i + 1) == Midway(c, before, i)[i := Backfill(c, before[i]).value]
  {
    MigratedNext(c, before, i);
    MigratedRows(c, before[..i]);
  }

  /** The first `i` rows are rehashed under their canonical URLs and the others are as before. */
  ghost predicate Repaired(c: Codec, table: seq<Row>, before: seq<Row>, i: nat) {
    && i <= |before| == |table|
    && (forall j :: 0 <= j < i ==> RepairedRow(c, table[j], before[j]))
    && (forall j :: i <= j < |table| ==> table[j] == before[j])
  }

  ghost predicate RepairedRow(c: Codec, now: Row, before: Row) {
    c.canonicalize(before.url).Some? && now == Rehashed(c, before, c.canonicalize(before.url).value)
  }

  /** How many rows of two tables differ. */
  function Differences(a: seq<Row>, b: seq<Row>): nat
    requires |a| == |b|
  {
    if a == [] then 0 else (if a[0] != b[0] then 1 else 0) + Differences(a[1..], b[1..])
  }

  lemma {:induction false} DifferencesNext(a: seq<Row>, b: seq<Row>, i: nat, row: Row)
    requires |a| == |b| && i < |a| && a[i] == b[i]
    ensures Differences(a[i := row], b) == Differences(a, b) + if row != b[i] then 1 else 0
  {
    if i == 0 {
      assert a[i := row][1..] == a[1..];
    } else {
      DifferencesNext(a[1..], b[1..], i - 1, row);
      assert a[i := row][1..] == a[1..][i - 1 := row];
    }
  }

  lemma {:induction false} NoDifferences(a: seq<Row>)
    ensures Differences(a, a) == 0
  {
    if a != [] {
      NoDifferences(a[1..]);
    }
  }

  lemma SameIdsDistinct(table: seq<Row>, before: seq<Row>)
    requires DistinctIds(before) && |table| == |before|
    requires forall j :: 0 <= j < |table| ==> table[j].id == before[j].id
    ensures DistinctIds(table)
  {
  }

  lemma RepairVerifies(c: Codec, table: seq<Row>, before: seq<Row>)
    requires Faithful(c) && Repaired(c, table, before, |before|)
    ensures forall x :: x in table ==> HashesVerify(c, x)
  {
    forall i | 0 <= i < |table|
      ensures HashesVerify(c, table[i])
    {
      assert RepairedRow(c, table[i], before[i]);
      var url := c.canonicalize(before[i].url).value;
      assert EnvelopeOf(table[i]) == EnvelopeOf(before[i].(url := url));
    }
  }

  /** Repairing a repaired table changes nothing and counts nothing. */
  lemma RepairSettles(c: Codec, table: seq<Row>, before: seq<Row>, again: seq<Row>)
    requires Repaired(c, table, before, |before|) && Repaired(c, again, table, |table|)
    requires forall u, v :: c.canonicalize(u) == Some(v) ==> c.canonicalize(v) == Some(v)
    ensures again == table && Differences(again, table) == 0
  {
    forall i | 0 <= i < |table|
      ensures again[i] == table[i]
    {
      assert RepairedRow(c, table[i], before[i]) && RepairedRow(c, again[i], table[i]);
      assert c.canonicalize(before[i].url) == Some(table[i].url);
      assert EnvelopeOf(table[i]) == EnvelopeOf(before[i].(url := table[i].url));
    }
    assert again == table;
    NoDifferences(table);
  }

  lemma {:induction false} RefusalSpreads(c: Codec, table: seq<Row>, i: nat)
    requires i <= |table| && Migrated(c, table[..i]).Err?
    ensures Migrated(c, table) == Migrated(c, table[..i])
    decreases |table| - i
  {
    if i < |table| {
      assert table[..i + 1][..i] == table[..i];
      RefusalSpreads(c, table, i + 1);
    } else {
      assert table[..i] == table;
    }
  }
}
