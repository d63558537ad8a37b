/** What the publisher may do to the provider, as a property of its trace of requests. */
module PublicationTraces {
  import opened Wrappers
  import opened Sorting
  import opened Sequences
  import opened Text
  import opened EvidenceDrift

  type Bytes = seq<bv8>

  /** An authorised candidate: its approved bytes, the canonical text of its binding and its temporal proof. */
  datatype Candidate = Candidate(
    tag: string, commit: string, files: map<string, Bytes>, binding: string,
    validAfter: real, validBefore: real, last: Option<real>)

  datatype Path =
    | Repository | MatchingRefs(tag: string) | TagRef(tag: string) | Releases(page: nat)
    | Release(id: int) | Assets(id: int, page: nat)

  datatype Write =
    | CreateTag(tag: string, commit: string) | CreateDraft(tag: string, commit: string)
    | Upload(releaseId: int, name: string, data: Bytes) | Undraft(releaseId: int)

  /** `None` is a request that failed; a write that failed may still have taken effect. */
  datatype Event =
    | Context(accepted: bool) | Authorized(candidate: Option<Candidate>) | Clock(now: real)
    | Read(path: Path, answer: Option<Json>) | Downloaded(asset: int, data: Option<Bytes>)
    | Wrote(write: Write, answer: Option<Json>)

  type Trace = seq<Event>

  // ----- Answers -----

  function Field(j: Json, key: string): Option<Json> {
    if j.Object? && key in j.fields then Some(j.fields[key]) else None
  }

  // ----- Pages -----

  const PAGE_SIZE := 100

  /** The rows of one answered page. */
  function RowsOf(e: Event): seq<Json> {
    if e.Read? && e.answer.Some? && e.answer.value.Array? then e.answer.value.items else []
  }

  predicate IsPage(e: Event, path: Path) {
    e.Read? && e.path == path && e.answer.Some? && e.answer.value.Array? && |RowsOf(e)| <= PAGE_SIZE
  }

  /** The first pages of a listing, in order and all of them full. */
  ghost predicate FullPages(pages: Trace, path: nat -> Path) {
    forall k {:trigger pages[k]} :: 0 <= k < |pages| ==> IsPage(pages[k], path(k + 1)) && |RowsOf(pages[k])| == PAGE_SIZE
  }

  /** A complete listing: full pages in order, then one short page; `rows` are all their rows. */
  ghost predicate Listing(pages: Trace, path: nat -> Path, rows: seq<Json>) {
    && pages != [] && rows == Flatten(pages, RowsOf)
    && FullPages(pages[..|pages| - 1], path)
    && IsPage(pages[|pages| - 1], path(|pages|)) && |RowsOf(pages[|pages| - 1])| < PAGE_SIZE
  }

  function AssetPages(releaseId: int): nat -> Path {
    (page: nat) => Assets(releaseId, page)
  }

  function ReleasePages(): nat -> Path {
    (page: nat) => Releases(page)
  }

  lemma {:induction false} RowComesFromPage(pages: Trace, row: Json) returns (k: nat)
    requires row in Flatten(pages, RowsOf)
    ensures k < |pages| && row in RowsOf(pages[k])
  {
    if row in RowsOf(pages[0]) {
      k := 0;
    } else {
      var j := RowComesFromPage(pages[1..], row);
      k := j + 1;
    }
  }

  /** No listed tag or release bears the name. */
  ghost predicate Unused(t: Trace, tag: string) {
    exists i, j, rows :: 0 <= i < j <= |t| && UnusedAt(t, tag, i, j, rows)
  }

  ghost predicate UnusedAt(t: Trace, tag: string, i: nat, j: nat, rows: seq<Json>)
    requires i < j <= |t|
  {
    && t[i].Read? && t[i].path == MatchingRefs(tag) && t[i].answer.Some? && t[i].answer.value.Array?
    && (forall row :: row in RowsOf(t[i]) ==> Field(row, "ref") != Some(String("refs/tags/" + tag)))
    && Listing(t[i + 1..j], ReleasePages(), rows)
    && (forall row :: row in rows ==> Field(row, "tag_name") != Some(String(tag)))
  }

  lemma UnusedGrows(t: Trace, u: Trace, tag: string)
    requires t <= u && Unused(t, tag)
    ensures Unused(u, tag)
  {
    var i, j, rows :| 0 <= i < j <= |t| && UnusedAt(t, tag, i, j, rows);
    assert u[i + 1..j] == t[i + 1..j] && u[i] == t[i];
    assert UnusedAt(u, tag, i, j, rows);
  }

  // ----- Re-authorisation -----

  predicate Current(c: Candidate, now: real) {
    c.validAfter <= now < c.validBefore && (c.last.Some? ==> c.last.value <= now)
  }

  /** The trace ends with a successful `_refresh` that found the baseline's binding. */
  predicate Reauthorized(t: Trace, baseline: Candidate) {
    && |t| >= 3
    && t[|t| - 3] == Context(true)
    && t[|t| - 2].Authorized? && t[|t| - 2].candidate.Some?
    && t[|t| - 2].candidate.value.binding == baseline.binding
    && t[|t| - 1].Clock? && Current(t[|t| - 2].candidate.value, t[|t| - 1].now)
  }

  /** Every write directly follows a re-authorisation. */
  ghost predicate Disciplined(t: Trace, baseline: Candidate) {
    forall k {:trigger t[k]} :: 0 <= k < |t| && t[k].Wrote? ==> Reauthorized(t[..k], baseline)
  }

  // ----- Writes -----

  function WriteOf(e: Event): seq<Write> {
    if e.Wrote? then [e.write] else []
  }

  function Writes(t: Trace): seq<Write> {
    Flatten(t, WriteOf)
  }

  function Uploads(id: int, files: map<string, Bytes>, names: seq<string>): (r: seq<Write>)
    requires forall n :: n in names ==> n in files
    ensures |r| == |names| && forall i :: 0 <= i < |names| ==> r[i] == Upload(id, names[i], files[names[i]])
  {
    seq(|names|, i requires 0 <= i < |names| => Upload(id, names[i], files[names[i]]))
  }

  /** Tag, draft, each approved file once in sorted order, undraft. */
  function Plan(c: Candidate, id: int): seq<Write> {
    [CreateTag(c.tag, c.commit), CreateDraft(c.tag, c.commit)] + Uploads(id, c.files, SortedKeys(c.files.Keys))
    + [Undraft(id)]
  }

  // ----- Extensions of a trace -----

  /** Only reads were added. */
  ghost predicate Quiet(before: Trace, after: Trace) {
    before <= after && forall k :: |before| <= k < |after| ==> !after[k].Wrote?
  }

  lemma QuietTransitive(a: Trace, b: Trace, c: Trace)
    requires Quiet(a, b) && Quiet(b, c)
    ensures Quiet(a, c)
  {
    assert forall k :: |a| <= k < |b| ==> c[k] == b[k];
  }

  lemma {:induction false} NoWrites(t: Trace)
    requires forall k :: 0 <= k < |t| ==> !t[k].Wrote?
    ensures Writes(t) == []
  {
    if t != [] {
      NoWrites(t[1..]);
    }
  }

  lemma QuietKeeps(a: Trace, b: Trace, baseline: Candidate)
    requires Quiet(a, b) && Disciplined(a, baseline)
    ensures Disciplined(b, baseline) && Writes(b) == Writes(a)
  {
    var rest := b[|a|..];
    assert b == a + rest;
    FlattenConcat(a, rest, WriteOf);
    NoWrites(rest);
    forall k | 0 <= k < |b| && b[k].Wrote?
      ensures Reauthorized(b[..k], baseline)
    {
      assert k < |a| && b[..k] == a[..k] && a[k].Wrote?;
    }
  }

  lemma WriteKeeps(t: Trace, e: Event, baseline: Candidate)
    requires Disciplined(t, baseline) && Reauthorized(t, baseline) && e.Wrote?
    ensures Disciplined(t + [e], baseline) && Writes(t + [e]) == Writes(t) + [e.write]
  {
    FlattenNext(t, e, WriteOf);
    forall k | 0 <= k < |t + [e]| && (t + [e])[k].Wrote?
      ensures Reauthorized((t + [e])[..k], baseline)
    {
      if k < |t| {
        assert (t + [e])[..k] == t[..k] && t[k].Wrote?;
      } else {
        assert (t + [e])[..k] == t;
      }
    }
  }

  // ----- Reading bytes back -----

  /** `integer_value`: a positive integer. */
  function PositiveInt(j: Option<Json>): (r: Option<int>)
    ensures r.Some? ==> r.value > 0
  {
    if j.Some? && j.value.Number? && j.value.r > 0.0 && j.value.r.Floor as real == j.value.r then Some(j.value.r.Floor)
    else None
  }

  /** A listing of this release, read since `from`, contains the row. */
  ghost predicate Listed(t: Trace, from: nat, releaseId: int, row: Json) {
    exists m, page, rows ::
      from <= m < |t| && t[m] == Read(Assets(releaseId, page), Some(Array(rows))) && row in rows
  }

  /** The approved bytes of `name` came back under an asset that the release lists by that name. */
  ghost predicate ReadBack(t: Trace, from: nat, releaseId: int, name: string, data: Bytes) {
    exists j, row ::
      && from <= j < |t| && Field(row, "name") == Some(String(name)) && PositiveInt(Field(row, "id")).Some?
      && t[j] == Downloaded(PositiveInt(Field(row, "id")).value, Some(data))
      && Listed(t, from, releaseId, row)
  }

  /** Since `from` every approved file of the candidate came back unchanged. */
  ghost predicate AllReadBack(t: Trace, from: nat, releaseId: int, files: map<string, Bytes>) {
    forall name :: name in files ==> ReadBack(t, from, releaseId, name, files[name])
  }

  lemma ReadBackGrows(t: Trace, u: Trace, from: nat, releaseId: int, files: map<string, Bytes>)
    requires t <= u && AllReadBack(t, from, releaseId, files)
    ensures AllReadBack(u, from, releaseId, files)
  {
    forall name | name in files
      ensures ReadBack(u, from, releaseId, name, files[name])
    {
      OneReadBackGrows(t, u, from, releaseId, name, files[name]);
    }
  }

  lemma OneReadBackGrows(t: Trace, u: Trace, from: nat, releaseId: int, name: string, data: Bytes)
    requires t <= u && ReadBack(t, from, releaseId, name, data)
    ensures ReadBack(u, from, releaseId, name, data)
  {
    var j, row :| && from <= j < |t| && Field(row, "name") == Some(String(name)) && PositiveInt(Field(row, "id")).Some?
                  && t[j] == Downloaded(PositiveInt(Field(row, "id")).value, Some(data))
                  && Listed(t, from, releaseId, row);
    ListedGrows(t, u, from, releaseId, row);
    assert u[j] == t[j];
  }

  lemma ListedGrows(t: Trace, u: Trace, from: nat, releaseId: int, row: Json)
    requires t <= u && Listed(t, from, releaseId, row)
    ensures Listed(u, from, releaseId, row)
  {
    var m, page, rows :| from <= m < |t| && t[m] == Read(Assets(releaseId, page), Some(Array(rows))) && row in rows;
    assert u[m] == t[m];
  }

  /** A write that makes the release public comes only after everything was read back, with no write between. */
  ghost predicate UndraftsAreProven(t: Trace, files: map<string, Bytes>) {
    forall k {:trigger t[k]} :: 0 <= k < |t| && t[k].Wrote? && t[k].write.Undraft? ==>
      ProvenBy(t[..k], t[k].write.releaseId, files)
  }

  ghost predicate ProvenBy(t: Trace, releaseId: int, files: map<string, Bytes>) {
    exists from: nat :: from <= |t| && AllReadBack(t, from, releaseId, files)
                        && forall k :: from <= k < |t| ==> !t[k].Wrote?
  }

  lemma QuietKeepsProof(a: Trace, b: Trace, files: map<string, Bytes>)
    requires Quiet(a, b) && UndraftsAreProven(a, files)
    ensures UndraftsAreProven(b, files)
  {
    forall k | 0 <= k < |b| && b[k].Wrote? && b[k].write.Undraft?
      ensures ProvenBy(b[..k], b[k].write.releaseId, files)
    {
      assert k < |a| && b[..k] == a[..k] && a[k] == b[k];
    }
  }

  lemma WriteKeepsProof(t: Trace, e: Event, files: map<string, Bytes>)
    requires UndraftsAreProven(t, files) && e.Wrote?
    requires e.write.Undraft? ==> ProvenBy(t, e.write.releaseId, files)
    ensures UndraftsAreProven(t + [e], files)
  {
    forall k | 0 <= k < |t + [e]| && (t + [e])[k].Wrote? && (t + [e])[k].write.Undraft?
      ensures ProvenBy((t + [e])[..k], (t + [e])[k].write.releaseId, files)
    {
      if k < |t| {
        assert (t + [e])[..k] == t[..k] && (t + [e])[k] == t[k];
      } else {
        assert (t + [e])[..k] == t;
      }
    }
  }

  // ----- The draft before each upload -----

  predicate IsText(j: Option<Json>, s: string) {
    j == Some(String(s))
  }

  predicate IsNumber(j: Option<Json>, n: int) {
    j == Some(Number(n as real))
  }

  /** `string_value` */
  predicate Trimmed(s: string) {
    s != "" && Strip(s) == s
  }

  function NameOf(row: Json): Option<string> {
    match Field(row, "name")
    case Some(String(s)) => if Trimmed(s) then Some(s) else None
    case _ => None
  }

  function IdOf(row: Json): Option<int> {
    PositiveInt(Field(row, "id"))
  }

  /** The draft is still this one, and still a draft. */
  predicate StillDraft(record: Json, releaseId: int, tag: string) {
    var published := Field(record, "published_at");
    && IsNumber(Field(record, "id"), releaseId) && IsText(Field(record, "tag_name"), tag)
    && Field(record, "draft") == Some(Bool(true)) && (published.Some? ==> published == Some(Null))
  }

  /** The listed draft assets, as a dictionary; `None` when a name or an id is malformed. */
  function Inventory(rows: seq<Json>): Option<map<string, int>> {
    if rows == [] then Some(map[])
    else
      var row := rows[|rows| - 1];
      match Inventory(rows[..|rows| - 1])
      case None => None
      case Some(m) =>
        if NameOf(row).None? || IdOf(row).None? then None else Some(m[NameOf(row).value := IdOf(row).value])
  }

  /** What an acknowledged upload adds to `uploaded`. */
  function Acknowledge(uploaded: map<string, int>, e: Event): map<string, int> {
    if e.Wrote? && e.write.Upload? && e.answer.Some? && IdOf(e.answer.value).Some? then
      uploaded[e.write.name := IdOf(e.answer.value).value]
    else uploaded
  }

  /** The uploads acknowledged so far, with the identity each was given. */
  function Acknowledged(t: Trace): map<string, int> {
    Fold(Acknowledge, map[], t)
  }

  /** Since `from` the draft was found unchanged and its complete listing is exactly what was uploaded. */
  ghost predicate DraftLists(t: Trace, from: nat, releaseId: int, tag: string, uploaded: map<string, int>) {
    exists i, j, rows :: from <= i < j <= |t| && DraftListsAt(t, i, j, releaseId, tag, uploaded, rows)
  }

  ghost predicate DraftListsAt(
    t: Trace, i: nat, j: nat, releaseId: int, tag: string, uploaded: map<string, int>, rows: seq<Json>)
    requires i < j <= |t|
  {
    && t[i].Read? && t[i].path == Release(releaseId) && t[i].answer.Some? && StillDraft(t[i].answer.value, releaseId, tag)
    && Listing(t[i + 1..j], AssetPages(releaseId), rows)
    && Inventory(rows) == Some(uploaded) && |rows| == |uploaded|
  }

  lemma DraftListsGrows(t: Trace, u: Trace, from: nat, releaseId: int, tag: string, uploaded: map<string, int>)
    requires t <= u && DraftLists(t, from, releaseId, tag, uploaded)
    ensures DraftLists(u, from, releaseId, tag, uploaded)
  {
    var i, j, rows :| from <= i < j <= |t| && DraftListsAt(t, i, j, releaseId, tag, uploaded, rows);
    assert u[i + 1..j] == t[i + 1..j] && u[i] == t[i];
    assert DraftListsAt(u, i, j, releaseId, tag, uploaded, rows);
  }

  /** Since the last write the draft was found unchanged, its complete listing being exactly the uploads so far. */
  ghost predicate CheckedDraft(t: Trace, releaseId: int, tag: string) {
    exists from: nat :: from <= |t| && DraftLists(t, from, releaseId, tag, Acknowledged(t))
                        && forall k :: from <= k < |t| ==> !t[k].Wrote?
  }

  /** Every upload directly follows such a check, re-authorisation apart. */
  ghost predicate UploadsAreChecked(t: Trace, tag: string) {
    forall k {:trigger t[k]} :: 0 <= k < |t| && t[k].Wrote? && t[k].write.Upload? ==>
      CheckedDraft(t[..k], t[k].write.releaseId, tag)
  }

  lemma QuietKeepsChecks(a: Trace, b: Trace, tag: string)
    requires Quiet(a, b) && UploadsAreChecked(a, tag)
    ensures UploadsAreChecked(b, tag)
  {
    forall k | 0 <= k < |b| && b[k].Wrote? && b[k].write.Upload?
      ensures CheckedDraft(b[..k], b[k].write.releaseId, tag)
    {
      assert k < |a| && b[..k] == a[..k] && a[k] == b[k];
    }
  }

  lemma WriteKeepsChecks(t: Trace, e: Event, tag: string)
    requires UploadsAreChecked(t, tag) && e.Wrote?
    requires e.write.Upload? ==> CheckedDraft(t, e.write.releaseId, tag)
    ensures UploadsAreChecked(t + [e], tag)
  {
    forall k | 0 <= k < |t + [e]| && (t + [e])[k].Wrote? && (t + [e])[k].write.Upload?
      ensures CheckedDraft((t + [e])[..k], (t + [e])[k].write.releaseId, tag)
    {
      if k < |t| {
        assert (t + [e])[..k] == t[..k] && (t + [e])[k] == t[k];
      } else {
        assert (t + [e])[..k] == t;
      }
    }
  }

  lemma {:induction false} QuietFold(uploaded: map<string, int>, rest: Trace)
    requires forall k :: 0 <= k < |rest| ==> !rest[k].Wrote?
    ensures Fold(Acknowledge, uploaded, rest) == uploaded
  {
    if rest != [] {
      QuietFold(uploaded, rest[..|rest| - 1]);
    }
  }

  lemma QuietKeepsAcknowledged(a: Trace, b: Trace)
    requires Quiet(a, b)
    ensures Acknowledged(b) == Acknowledged(a)
  {
    var rest := b[|a|..];
    assert b == a + rest;
    FoldConcat(Acknowledge, map[], a, rest);
    QuietFold(Acknowledged(a), rest);
  }

  /** Before the first upload nothing is acknowledged. */
  lemma {:induction false} NothingUploaded(t: Trace)
    requires forall w :: w in Writes(t) ==> !w.Upload?
    ensures Acknowledged(t) == map[]
  {
    if t != [] {
      var init, last := t[..|t| - 1], t[|t| - 1];
      assert t == init + [last];
      FlattenNext(init, last, WriteOf);
      NothingUploaded(init);
      assert last.Wrote? ==> last.write in Writes(t);
    }
  }

  /** What every prefix of a publication satisfies. */
  ghost predicate Safe(t: Trace, c: Candidate) {
    Disciplined(t, c) && UploadsAreChecked(t, c.tag) && UndraftsAreProven(t, c.files)
  }

  /** Reads keep everything that was established about the writes. */
  lemma QuietStep(a: Trace, b: Trace, c: Candidate)
    requires Quiet(a, b) && Safe(a, c)
    ensures Safe(b, c) && Writes(b) == Writes(a) && Acknowledged(b) == Acknowledged(a)
  {
    QuietKeeps(a, b, c);
    QuietKeepsChecks(a, b, c.tag);
    QuietKeepsAcknowledged(a, b);
    QuietKeepsProof(a, b, c.files);
  }

  lemma WriteStep(t: Trace, e: Event, c: Candidate)
    requires Safe(t, c) && Reauthorized(t, c) && e.Wrote?
    requires e.write.Upload? ==> CheckedDraft(t, e.write.releaseId, c.tag)
    requires e.write.Undraft? ==> ProvenBy(t, e.write.releaseId, c.files)
    ensures Safe(t + [e], c) && Writes(t + [e]) == Writes(t) + [e.write]
    ensures Acknowledged(t + [e]) == Acknowledge(Acknowledged(t), e)
  {
    WriteKeeps(t, e, c);
    WriteKeepsChecks(t, e, c.tag);
    FoldSnoc(Acknowledge, map[], t, e);
    WriteKeepsProof(t, e, c.files);
  }
}
