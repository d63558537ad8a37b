/** Digests of stored rows and their verification on read (adapters/evidence_integrity.py). */
module EvidenceIntegrity {
  import opened Wrappers
  import opened EvidenceDrift
  import opened EvidenceRows

  /** The list whose JSON text is digested as the record. */
  datatype Envelope = Envelope(
    url: string, group: string, capturedAt: real, payloadJson: string, schema: string,
    source: Option<string>, status: string, runId: Option<string>, scopeJson: string)

  /** What the store calls and this project does not model: SHA-256, the JSON text of an envelope, the JSON
      codec and URL canonicalisation (`None` is its ValueError). */
  datatype Codec = Codec(
    hash: string -> string, envelope: Envelope -> string, dumps: Json -> string, loads: string -> Option<Json>,
    canonicalize: string -> Option<string>)

  /** Digests are not empty, and decoding undoes encoding. */
  ghost predicate Faithful(c: Codec) {
    (forall t :: c.hash(t) != "") && (forall j :: c.loads(c.dumps(j)) == Some(j))
  }

  function EnvelopeOf(r: Row): Envelope {
    Envelope(r.url, r.group, r.capturedAt, r.payloadJson, r.schema, r.source, r.status, r.runId, r.scopeJson)
  }

  /** `record_digest` */
  function RecordDigest(c: Codec, r: Row): string {
    c.hash(c.envelope(EnvelopeOf(r)))
  }

  /** The two hash checks of `decode_verified_row`. */
  predicate HashesVerify(c: Codec, r: Row) {
    && r.payloadHash != "" && r.payloadHash == c.hash(r.payloadJson)
    && r.recordHash != "" && r.recordHash == RecordDigest(c, r)
  }

  datatype Snapshot = Snapshot(row: Row, payload: Json, scope: Json)

  datatype DecodeError = PayloadHash | RecordHash | MalformedJson | NotAnObject

  /** `decode_verified_row` */
  function DecodeRow(c: Codec, r: Row): (d: Result<Snapshot, DecodeError>)
    ensures d.Ok? ==> d.value.row == r && d.value.payload.Object? && d.value.scope.Object?
  {
    if r.payloadHash == "" || r.payloadHash != c.hash(r.payloadJson) then Err(PayloadHash)
    else if r.recordHash == "" || r.recordHash != RecordDigest(c, r) then Err(RecordHash)
    else
      match (c.loads(r.payloadJson), c.loads(r.scopeJson))
      case (Some(payload), Some(scope)) =>
        if payload.Object? && scope.Object? then Ok(Snapshot(r, payload, scope)) else Err(NotAnObject)
      case _ => Err(MalformedJson)
  }

  /** The row verifies and decodes. */
  predicate Decodes(c: Codec, r: Row) {
    DecodeRow(c, r).Ok?
  }

  function DecodeRows(c: Codec, rows: seq<Row>): Result<seq<Snapshot>, DecodeError> {
    if rows == [] then Ok([])
    else
      match DecodeRows(c, rows[..|rows| - 1])
      case Err(e) => Err(e)
      case Ok(done) =>
        match DecodeRow(c, rows[|rows| - 1])
        case Err(e) => Err(e)
        case Ok(s) => Ok(done + [s])
  }

  lemma {:induction false} DecodeRowsEach(c: Codec, rows: seq<Row>)
    requires DecodeRows(c, rows).Ok?
    ensures |DecodeRows(c, rows).value| == |rows|
    ensures forall i :: 0 <= i < |rows| ==> DecodeRow(c, rows[i]) == Ok(DecodeRows(c, rows).value[i])
  {
    if rows != [] {
      DecodeRowsEach(c, rows[..|rows| - 1]);
    }
  }

  /** A listing decodes exactly when each of its rows does. */
  lemma {:induction false} DecodeRowsExactly(c: Codec, rows: seq<Row>)
    ensures DecodeRows(c, rows).Ok? <==> forall r :: r in rows ==> Decodes(c, r)
  {
    if rows != [] {
      var init, last := rows[..|rows| - 1], rows[|rows| - 1];
      assert rows == init + [last];
      DecodeRowsExactly(c, init);
      assert DecodeRows(c, rows).Ok? <==> DecodeRows(c, init).Ok? && Decodes(c, last);
      assert forall r :: r in rows <==> r in init || r == last;
    }
  }
}
