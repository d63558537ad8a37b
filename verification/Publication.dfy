/** The irreversible publication sequence (scripts/publication_publish.py, scripts/publication_remote.py). */
module Publications {
  import opened Wrappers
  import opened Sorting
  import opened Sequences
  import opened Text
  import opened EvidenceDrift
  import opened PublicationTraces

  const REPOSITORY := "wfprieto/World-Class-SEO-Agent-System"
  const OWNER := "wfprieto"
  const REPOSITORY_ID := 1288604237
  const OWNER_ID := 283033906
  const MAX_API_PAGES := 20
  const MAX_MEMBER_BYTES := 41943040

  /** An adversary: each answer may depend on everything that happened before. The last four fields are the
      digest, the two regular expressions and the timestamp syntax. */
  datatype Provider = Provider(
    answer: (Trace, Path) -> Option<Json>, send: (Trace, Write) -> Option<Json>,
    download: (Trace, int) -> Option<Bytes>, authorize: Trace -> Option<Candidate>,
    context: Trace -> bool, clock: Trace -> real,
    hash: Bytes -> string, validTag: string -> bool, validName: string -> bool,
    validInstant: string -> bool)

  /** An exception. */
  datatype Failure = Failure(reason: string)

  predicate ExpectedRepository(j: Json) {
    && IsText(Field(j, "full_name"), REPOSITORY) && PositiveInt(Field(j, "id")) == Some(REPOSITORY_ID)
    && Field(j, "owner").Some?
    && PositiveInt(Field(Field(j, "owner").value, "id")) == Some(OWNER_ID)
    && IsText(Field(Field(j, "owner").value, "login"), OWNER)
    && Field(j, "private") == Some(Bool(false))
  }

  /** The tag points at exactly this commit. */
  predicate TagNames(reference: Json, tag: string, commit: string) {
    var target := Field(reference, "object");
    && IsText(Field(reference, "ref"), "refs/tags/" + tag) && target.Some?
    && IsText(Field(target.value, "type"), "commit") && IsText(Field(target.value, "sha"), commit)
  }

  /** The release record is that of the candidate, in the expected state. */
  predicate ReleaseIs(record: Json, tag: string, releaseId: int, draft: bool) {
    && IsText(Field(record, "tag_name"), tag) && Field(record, "draft") == Some(Bool(draft))
    && Field(record, "prerelease") == Some(Bool(false)) && PositiveInt(Field(record, "id")) == Some(releaseId)
  }

  /** Every listed row came from a page of this listing, read since `from`. */
  ghost predicate AllListed(t: Trace, from: nat, releaseId: int, rows: seq<Json>) {
    forall row :: row in rows ==> Listed(t, from, releaseId, row)
  }

  class Publisher {
    var trace: Trace
    const provider: Provider

    constructor (provider: Provider)
      ensures this.provider == provider && trace == []
    {
      this.provider, trace := provider, [];
    }

    method Get(path: Path) returns (r: Result<Json, Failure>)
      modifies this
      ensures Quiet(old(trace), trace) && |trace| == |old(trace)| + 1
      ensures r.Ok? ==> trace[|old(trace)|] == Read(path, Some(r.value))
    {
      var answer := provider.answer(trace, path);
      trace := trace + [Read(path, answer)];
      return if answer.Some? then Ok(answer.value) else Err(Failure("request failed"));
    }

    method Download(asset: int) returns (r: Result<Bytes, Failure>)
      modifies this
      ensures Quiet(old(trace), trace) && |trace| == |old(trace)| + 1
      ensures r.Ok? ==> trace[|old(trace)|] == Downloaded(asset, Some(r.value))
    {
      var data := provider.download(trace, asset);
      trace := trace + [Downloaded(asset, data)];
      return if data.Some? then Ok(data.value) else Err(Failure("request failed"));
    }

    /** The only method that writes. */
    method Send(write: Write, ghost baseline: Candidate) returns (r: Result<Json, Failure>)
      requires Safe(trace, baseline) && Reauthorized(trace, baseline)
      requires write.Upload? ==> CheckedDraft(trace, write.releaseId, baseline.tag)
      requires write.Undraft? ==> ProvenBy(trace, write.releaseId, baseline.files)
      modifies this
      ensures Safe(trace, baseline) && old(trace) <= trace
      ensures Writes(trace) == Writes(old(trace)) + [write]
      ensures r.Ok? ==> Acknowledged(trace) == Acknowledge(Acknowledged(old(trace)), Wrote(write, Some(r.value)))
    {
      var answer := provider.send(trace, write);
      WriteStep(trace, Wrote(write, answer), baseline);
      trace := trace + [Wrote(write, answer)];
      return if answer.Some? then Ok(answer.value) else Err(Failure("request failed"));
    }

    method Authorize() returns (r: Result<Candidate, Failure>)
      modifies this
      ensures Quiet(old(trace), trace)
      ensures r.Ok? ==> trace == old(trace) + [Context(true), Authorized(Some(r.value))]
    {
      var accepted := provider.context(trace);
      trace := trace + [Context(accepted)];
      if !accepted {
        return Err(Failure("not the publication workflow"));
      }
      var candidate := provider.authorize(trace);
      trace := trace + [Authorized(candidate)];
      return if candidate.Some? then Ok(candidate.value) else Err(Failure("not authorized"));
    }

    /** `_refresh` */
    method Refresh(baseline: Candidate) returns (r: Result<(), Failure>)
      modifies this
      ensures Quiet(old(trace), trace)
      ensures r.Ok? ==> Reauthorized(trace, baseline)
    {
      var again := Authorize();
      if again.Err? {
        return Err(again.error);
      }
      if again.value.binding != baseline.binding {
        return Err(Failure("Publication authorization changed at an irreversible boundary"));
      }
      var now := provider.clock(trace);
      trace := trace + [Clock(now)];
      if !Current(again.value, now) {
        return Err(Failure("Temporal proof has expired, regressed or is not yet valid"));
      }
      return Ok(());
    }

    /** `items`: all rows, page by page, up to the first short page. */
    method Items(path: nat -> Path) returns (r: Result<seq<Json>, Failure>)
      modifies this
      ensures Quiet(old(trace), trace)
      ensures r.Ok? ==> Listing(trace[|old(trace)|..], path, r.value) && forall row :: row in r.value ==> row.Object?
    {
      var rows: seq<Json> := [];
      ghost var start := trace;
      for page := 1 to MAX_API_PAGES + 1
        invariant Quiet(start, trace) && |trace| == |start| + page - 1
        invariant FullPages(trace[|start|..], path) && rows == Flatten(trace[|start|..], RowsOf)
        invariant forall row :: row in rows ==> row.Object?
      {
        ghost var pages := trace[|start|..];
        var data := Get(path(page));
        if data.Err? {
          return Err(data.error);
        }
        if !data.value.Array? || |data.value.items| > PAGE_SIZE
           || exists row :: row in data.value.items && !row.Object? {
          return Err(Failure("Provider list response is malformed"));
        }
        ghost var event := Read(path(page), Some(data.value));
        assert trace[|start|..] == pages + [event];
        FlattenNext(pages, event, RowsOf);
        rows := rows + data.value.items;
        if |data.value.items| < PAGE_SIZE {
          assert (pages + [event])[..|pages|] == pages;
          return Ok(rows);
        }
      }
      return Err(Failure("Provider list exceeded its complete-pagination boundary"));
    }

    method AssetItems(releaseId: int) returns (r: Result<seq<Json>, Failure>)
      modifies this
      ensures Quiet(old(trace), trace)
      ensures r.Ok? ==> Listing(trace[|old(trace)|..], AssetPages(releaseId), r.value)
      ensures r.Ok? ==> AllListed(trace, |old(trace)|, releaseId, r.value)
      ensures r.Ok? ==> forall row :: row in r.value ==> row.Object?
    {
      r := Items(AssetPages(releaseId));
      if r.Ok? {
        ListingIsListed(trace, |old(trace)|, releaseId, r.value);
      }
    }

    /** Whether a release of this tag is listed. */
    method ReleaseTaken(tag: string) returns (r: Result<bool, Failure>)
      modifies this
      ensures Quiet(old(trace), trace)
      ensures r.Ok? ==>
                exists rows :: Listing(trace[|old(trace)|..], ReleasePages(), rows)
                               && (r.value <==> exists row :: row in rows && Field(row, "tag_name") == Some(String(tag)))
    {
      var rows := Items(ReleasePages());
      if rows.Err? {
        return Err(rows.error);
      }
      return Ok(exists row :: row in rows.value && IsText(Field(row, "tag_name"), tag));
    }

    /** `unused_destination` */
    method UnusedDestination(tag: string) returns (r: Result<(), Failure>)
      modifies this
      ensures Quiet(old(trace), trace)
      ensures r.Ok? ==> Unused(trace, tag)
    {
      if !provider.validTag(tag) {
        return Err(Failure("Publication tag must be an exact semantic version"));
      }
      ghost var start := trace;
      var references := Get(MatchingRefs(tag));
      if references.Err? {
        return Err(references.error);
      }
      if !references.value.Array? || exists row :: row in references.value.items
                                                   && (!row.Object? || IsText(Field(row, "ref"), "refs/tags/" + tag)) {
        return Err(Failure("Tag already exists; partial publication cannot be automatically resumed"));
      }
      ghost var middle := trace;
      var taken := ReleaseTaken(tag);
      if taken.Err? {
        return Err(taken.error);
      }
      if taken.value {
        return Err(Failure("Release already exists"));
      }
      ghost var rows :| Listing(trace[|middle|..], ReleasePages(), rows)
                        && !exists row :: row in rows && Field(row, "tag_name") == Some(String(tag));
      assert trace[|start|] == middle[|start|];
      assert trace[|start| + 1..|trace|] == trace[|middle|..];
      assert UnusedAt(trace, tag, |start|, |trace|, rows);
      return Ok(());
    }

    /** `observed_tag` */
    method ObservedTag(tag: string, commit: string) returns (r: Result<(), Failure>)
      modifies this
      ensures Quiet(old(trace), trace)
      ensures r.Ok? ==> |trace| == |old(trace)| + 1
                        && exists answer :: trace[|old(trace)|] == Read(TagRef(tag), Some(answer))
                                            && TagNames(answer, tag, commit)
    {
      if !provider.validTag(tag) {
        return Err(Failure("Publication tag must be an exact semantic version"));
      }
      var reference := Get(TagRef(tag));
      if reference.Err? {
        return Err(reference.error);
      }
      if !TagNames(reference.value, tag, commit) {
        return Err(Failure("Actual publication tag does not name the exact candidate commit"));
      }
      return Ok(());
    }

    /** `_draft`: the draft is still ours and lists exactly what was uploaded. */
    method Draft(releaseId: int, tag: string, uploaded: map<string, int>) returns (r: Result<(), Failure>)
      modifies this
      ensures Quiet(old(trace), trace)
      ensures r.Ok? ==> DraftLists(trace, |old(trace)|, releaseId, tag, uploaded)
    {
      var record := Get(Release(releaseId));
      if record.Err? {
        return Err(record.error);
      }
      if !StillDraft(record.value, releaseId, tag) {
        return Err(Failure("Fresh draft identity/state changed; automatic recovery is prohibited"));
      }
      ghost var middle := trace;
      var rows := AssetItems(releaseId);
      if rows.Err? {
        return Err(rows.error);
      }
      if Inventory(rows.value) != Some(uploaded) || |uploaded| != |rows.value| {
        return Err(Failure("Draft asset inventory changed; no replacement or clobber is permitted"));
      }
      assert trace[|old(trace)|] == middle[|old(trace)|];
      assert trace[|old(trace)| + 1..|trace|] == trace[|middle|..];
      assert DraftListsAt(trace, |old(trace)|, |trace|, releaseId, tag, uploaded, rows.value);
      return Ok(());
    }
  
    /** One turn of the loop of `_observed_assets`: a listed asset carries the approved bytes of its name. */
    method ObserveAsset(
      asset: Json, files: map<string, Bytes>, names: set<string>, identities: set<int>,
      ghost from: nat, releaseId: int) returns (r: Result<(string, int), Failure>)
      requires from <= |trace| && Listed(trace, from, releaseId, asset)
      modifies this
      ensures Quiet(old(trace), trace)
      ensures r.Ok? ==> r.value.0 in files && r.value.0 !in names && r.value.1 !in identities
                        && ReadBack(trace, from, releaseId, r.value.0, files[r.value.0])
    {
      var name, identity := NameOf(asset), IdOf(asset);
      if name.None? || identity.None? || name.value !in files || name.value in names || identity.value in identities {
        return Err(Failure("Release has an unexpected or duplicate asset identity"));
      }
      var expected := files[name.value];
      if PositiveInt(Field(asset, "size")) != Some(|expected|) || !IsText(Field(asset, "state"), "uploaded")
         || !IsText(Field(asset, "digest"), "sha256:" + provider.hash(expected)) {
        return Err(Failure("Actual asset metadata disagrees with the approved prepared bytes"));
      }
      ghost var before := trace;
      var actual := Download(identity.value);
      if actual.Err? {
        return Err(actual.error);
      }
      if actual.value != expected {
        return Err(Failure("Actual downloaded release bytes differ from the prepared artifact"));
      }
      ListedGrows(before, trace, from, releaseId, asset);
      assert trace[|before|] == Downloaded(PositiveInt(Field(asset, "id")).value, Some(expected));
      return Ok((name.value, identity.value));
    }

    /** `_observed_assets`: the release lists exactly the approved files, and each download equals its file. */
    method ObservedAssets(files: map<string, Bytes>, releaseId: int) returns (r: Result<(), Failure>)
      modifies this
      ensures Quiet(old(trace), trace)
      ensures r.Ok? ==> AllReadBack(trace, |old(trace)|, releaseId, files)
    {
      ghost var start := trace;
      var assets := AssetItems(releaseId);
      if assets.Err? {
        return Err(assets.error);
      }
      if |assets.value| != |files| {
        return Err(Failure("Release must contain exactly the six approved prepared files"));
      }
      var names: set<string>, identities: set<int> := {}, {};
      for i := 0 to |assets.value|
        invariant Quiet(start, trace) && AllListed(trace, |start|, releaseId, assets.value)
        invariant names <= files.Keys && |names| == i
        invariant NamesReadBack(trace, |start|, releaseId, names, files)
      {
        ghost var before := trace;
        var observed := ObserveAsset(assets.value[i], files, names, identities, |start|, releaseId);
        if observed.Err? {
          return Err(observed.error);
        }
        QuietTransitive(start, before, trace);
        ListingsGrow(before, trace, |start|, releaseId, assets.value);
        OlderReadBacks(before, trace, |start|, releaseId, names, files);
        names, identities := names + {observed.value.0}, identities + {observed.value.1};
      }
      SameSize(names, files.Keys);
      return Ok(());
    }

    /** The checks of `observed_release` before it looks at assets; the release record is read last. */
    method CheckRelease(c: Candidate, releaseId: int, draft: bool) returns (r: Result<Json, Failure>)
      modifies this
      ensures Quiet(old(trace), trace)
      ensures r.Ok? ==> |old(trace)| < |trace| && trace[|trace| - 1] == Read(Release(releaseId), Some(r.value))
                        && ReleaseIs(r.value, c.tag, releaseId, draft)
    {
      var repository := Get(Repository);
      if repository.Err? {
        return Err(repository.error);
      }
      if !ExpectedRepository(repository.value) {
        return Err(Failure("provider repository identity mismatch"));
      }
      var tagged := ObservedTag(c.tag, c.commit);
      if tagged.Err? {
        return Err(tagged.error);
      }
      var release := Get(Release(releaseId));
      if release.Err? {
        return Err(release.error);
      }
      if !ReleaseIs(release.value, c.tag, releaseId, draft) {
        return Err(Failure("Actual release identity or publication state does not match"));
      }
      var published := Field(release.value, "published_at");
      if !draft && !(published.Some? && published.value.String? && provider.validInstant(published.value.s)) {
        return Err(Failure("actual publication time must be a UTC timestamp"));
      }
      return Ok(release.value);
    }

    /** `observed_release` for a known release. */
    method ObservedRelease(c: Candidate, releaseId: int, draft: bool) returns (r: Result<(), Failure>)
      modifies this
      ensures Quiet(old(trace), trace)
      ensures r.Ok? ==>
                exists from: nat, record ::
                  && |old(trace)| < from <= |trace| && AllReadBack(trace, from, releaseId, c.files)
                  && trace[from - 1] == Read(Release(releaseId), Some(record)) && ReleaseIs(record, c.tag, releaseId, draft)
    {
      var release := CheckRelease(c, releaseId, draft);
      if release.Err? {
        return Err(release.error);
      }
      ghost var middle := trace;
      r := ObservedAssets(c.files, releaseId);
      if r.Ok? {
        assert trace[|middle| - 1] == middle[|middle| - 1];
        assert AllReadBack(trace, |middle|, releaseId, c.files);
      }
    }

    /** `_new_draft` */
    method NewDraft(c: Candidate) returns (r: Result<int, Failure>)
      requires Safe(trace, c)
      modifies this
      ensures Safe(trace, c) && old(trace) <= trace
      ensures Writes(trace) == Writes(old(trace)) || Writes(trace) == Writes(old(trace)) + [CreateDraft(c.tag, c.commit)]
      ensures r.Ok? ==> Writes(trace) == Writes(old(trace)) + [CreateDraft(c.tag, c.commit)]
    {
      ghost var start := trace;
      var taken := ReleaseTaken(c.tag);
      QuietStep(start, trace, c);
      if taken.Err? {
        return Err(taken.error);
      }
      if taken.value {
        return Err(Failure("Unexpected existing release; automatic resume is prohibited"));
      }
      ghost var middle := trace;
      var again := Refresh(c);
      QuietStep(middle, trace, c);
      if again.Err? {
        return Err(again.error);
      }
      var result := Send(CreateDraft(c.tag, c.commit), c);
      if result.Err? {
        return Err(result.error);
      }
      var releaseId := IdOf(result.value);
      if releaseId.None? {
        return Err(Failure("new release ID must be a positive integer"));
      }
      ghost var created := trace;
      var draft := Draft(releaseId.value, c.tag, map[]);
      QuietStep(created, trace, c);
      return if draft.Err? then Err(draft.error) else Ok(releaseId.value);
    }

    /** `_upload` */
    method UploadFile(c: Candidate, releaseId: int, name: string, data: Bytes) returns (r: Result<int, Failure>)
      requires Safe(trace, c) && Reauthorized(trace, c) && CheckedDraft(trace, releaseId, c.tag)
      modifies this
      ensures Safe(trace, c) && old(trace) <= trace
      ensures Writes(trace) == Writes(old(trace)) || Writes(trace) == Writes(old(trace)) + [Upload(releaseId, name, data)]
      ensures r.Ok? ==> Writes(trace) == Writes(old(trace)) + [Upload(releaseId, name, data)]
                        && Acknowledged(trace) == Acknowledged(old(trace))[name := r.value]
    {
      if releaseId <= 0 || !provider.validName(name) || data == [] || |data| > MAX_MEMBER_BYTES {
        return Err(Failure("Upload requires one flat bounded approved asset"));
      }
      var record := Send(Upload(releaseId, name, data), c);
      if record.Err? {
        return Err(record.error);
      }
      if !IsText(Field(record.value, "name"), name) || !IsNumber(Field(record.value, "size"), |data|)
         || !IsText(Field(record.value, "state"), "uploaded")
         || !IsText(Field(record.value, "digest"), "sha256:" + provider.hash(data)) || IdOf(record.value).None? {
        return Err(Failure("Uploaded asset acknowledgement does not match its approved bytes"));
      }
      return Ok(IdOf(record.value).value);
    }

    /** One turn of the upload loop: the draft still lists what was uploaded, then authority, then the upload. */
    method UploadNext(c: Candidate, releaseId: int, uploaded: map<string, int>, name: string)
      returns (r: Result<int, Failure>)
      requires Safe(trace, c) && name in c.files && uploaded == Acknowledged(trace)
      modifies this
      ensures Safe(trace, c) && old(trace) <= trace
      ensures Writes(trace) == Writes(old(trace))
              || Writes(trace) == Writes(old(trace)) + [Upload(releaseId, name, c.files[name])]
      ensures r.Ok? ==> Writes(trace) == Writes(old(trace)) + [Upload(releaseId, name, c.files[name])]
                        && Acknowledged(trace) == uploaded[name := r.value]
    {
      ghost var before := trace;
      var draft := Draft(releaseId, c.tag, uploaded);
      QuietStep(before, trace, c);
      if draft.Err? {
        return Err(draft.error);
      }
      ghost var middle := trace;
      var again := Refresh(c);
      QuietStep(middle, trace, c);
      if again.Err? {
        return Err(again.error);
      }
      DraftListsGrows(middle, trace, |before|, releaseId, c.tag, uploaded);
      QuietTransitive(before, middle, trace);
      assert CheckedDraft(trace, releaseId, c.tag);
      r := UploadFile(c, releaseId, name, c.files[name]);
    }

    /** That turn within the whole sequence of uploads. */
    method UploadTurn(c: Candidate, releaseId: int, uploaded: map<string, int>, i: nat, ghost start: seq<Write>)
      returns (r: Result<int, Failure>)
      requires Safe(trace, c) && i < |UploadsOf(c, releaseId)| && uploaded == Acknowledged(trace)
      requires UploadedUpTo(start, Writes(trace), c, releaseId, i)
      modifies this
      ensures Safe(trace, c) && old(trace) <= trace
      ensures start <= Writes(trace) <= start + UploadsOf(c, releaseId)
      ensures r.Ok? ==> UploadedUpTo(start, Writes(trace), c, releaseId, i + 1)
                        && Acknowledged(trace) == uploaded[SortedKeys(c.files.Keys)[i] := r.value]
    {
      ghost var sent := Writes(trace);
      r := UploadNext(c, releaseId, uploaded, SortedKeys(c.files.Keys)[i]);
      UploadedNext(start, sent, Writes(trace), c, releaseId, i);
    }

    /** The upload loop of `publish_candidate`. */
    method UploadAll(c: Candidate, releaseId: int) returns (r: Result<map<string, int>, Failure>)
      requires Safe(trace, c) && Acknowledged(trace) == map[]
      modifies this
      ensures Safe(trace, c) && old(trace) <= trace
      ensures Writes(old(trace)) <= Writes(trace) <= Writes(old(trace)) + UploadsOf(c, releaseId)
      ensures r.Ok? ==> Writes(trace) == Writes(old(trace)) + UploadsOf(c, releaseId) && r.value.Keys == c.files.Keys
    {
      var names := SortedKeys(c.files.Keys);
      var uploaded: map<string, int> := map[];
      ghost var start := Writes(trace);
      for i := 0 to |names|
        invariant Safe(trace, c) && old(trace) <= trace
        invariant UploadedUpTo(start, Writes(trace), c, releaseId, i)
        invariant uploaded == Acknowledged(trace) && uploaded.Keys == FirstNames(names, i)
      {
        var id := UploadTurn(c, releaseId, uploaded, i, start);
        if id.Err? {
          return Err(id.error);
        }
        uploaded := uploaded[names[i] := id.value];
      }
      UploadedAll(start, Writes(trace), c, releaseId);
      return Ok(uploaded);
    }

    /** The last write: everything is read back, authority is renewed, the release is made public. */
    method MakePublic(c: Candidate, releaseId: int) returns (r: Result<(), Failure>)
      requires Safe(trace, c)
      modifies this
      ensures Safe(trace, c) && old(trace) <= trace
      ensures Writes(trace) == Writes(old(trace)) || Writes(trace) == Writes(old(trace)) + [Undraft(releaseId)]
      ensures r.Ok? ==> Writes(trace) == Writes(old(trace)) + [Undraft(releaseId)]
    {
      ghost var start := trace;
      var observed := ObservedRelease(c, releaseId, true);
      QuietStep(start, trace, c);
      if observed.Err? {
        return Err(observed.error);
      }
      ghost var middle := trace;
      ghost var from: nat, record :| |start| < from <= |middle| && AllReadBack(middle, from, releaseId, c.files)
                                     && middle[from - 1] == Read(Release(releaseId), Some(record))
                                     && ReleaseIs(record, c.tag, releaseId, true);
      var again := Refresh(c);
      QuietStep(middle, trace, c);
      if again.Err? {
        return Err(again.error);
      }
      ReadBackGrows(middle, trace, from, releaseId, c.files);
      QuietTransitive(start, middle, trace);
      assert ProvenBy(trace, releaseId, c.files);
      var public := Send(Undraft(releaseId), c);
      return if public.Err? then Err(public.error) else Ok(());
    }

    /** From the created draft to the published release. */
    method Deliver(c: Candidate, releaseId: int) returns (r: Result<int, Failure>)
      requires Safe(trace, c)
      requires Writes(trace) == [CreateTag(c.tag, c.commit), CreateDraft(c.tag, c.commit)]
      modifies this
      ensures Safe(trace, c) && old(trace) <= trace
      ensures Writes(trace) <= Plan(c, releaseId)
      ensures r.Ok? ==> r.value == releaseId && Writes(trace) == Plan(c, releaseId)
                        && ProvenBy(trace, releaseId, c.files)
    {
      NothingUploaded(trace);
      var uploaded := UploadAll(c, releaseId);
      if uploaded.Err? {
        return Err(uploaded.error);
      }
      var public := MakePublic(c, releaseId);
      if public.Err? {
        return Err(public.error);
      }
      ghost var middle := trace;
      var again := Refresh(c);
      QuietStep(middle, trace, c);
      if again.Err? {
        return Err(again.error);
      }
      ghost var start := trace;
      var observed := ObservedRelease(c, releaseId, false);
      QuietStep(start, trace, c);
      return if observed.Err? then Err(observed.error) else Ok(releaseId);
    }

    /** Up to and with the created tag. */
    method TagCandidate(c: Candidate) returns (r: Result<(), Failure>)
      requires Safe(trace, c)
      modifies this
      ensures Safe(trace, c) && old(trace) <= trace
      ensures Writes(trace) == Writes(old(trace)) || Writes(trace) == Writes(old(trace)) + [CreateTag(c.tag, c.commit)]
      ensures r.Ok? ==> Writes(trace) == Writes(old(trace)) + [CreateTag(c.tag, c.commit)]
      ensures Writes(trace) != Writes(old(trace)) ==> Unused(trace, c.tag)
    {
      if !Trimmed(c.tag) {
        return Err(Failure("planned tag must be a nonempty trimmed string"));
      }
      ghost var start := trace;
      var unused := UnusedDestination(c.tag);
      QuietStep(start, trace, c);
      if unused.Err? {
        return Err(unused.error);
      }
      ghost var middle := trace;
      var again := Refresh(c);
      QuietStep(middle, trace, c);
      if again.Err? {
        return Err(again.error);
      }
      var tagged := Send(CreateTag(c.tag, c.commit), c);
      UnusedGrows(middle, trace, c.tag);
      if tagged.Err? {
        return Err(tagged.error);
      }
      ghost var written := trace;
      r := ObservedTag(c.tag, c.commit);
      QuietStep(written, trace, c);
      UnusedGrows(middle, trace, c.tag);
    }

    /** `publish_candidate`. Whatever the provider answers and wherever it fails, the writes are a prefix of the
        plan of the first authorised candidate, each directly after a re-authorisation with its binding,
        an upload is sent only to a draft found to list exactly the uploads acknowledged before it, and the release
        is made public only once its approved bytes have all been read back. */
    method Publish() returns (r: Result<int, Failure>, ghost baseline: Candidate, ghost releaseId: int)
      requires trace == []
      modifies this
      ensures Writes(trace) <= Plan(baseline, releaseId)
      ensures Writes(trace) != [] ==> |trace| >= 2 && trace[1] == Authorized(Some(baseline)) && Unused(trace, baseline.tag)
      ensures Safe(trace, baseline)
      ensures r.Ok? ==> r.value == releaseId && Writes(trace) == Plan(baseline, releaseId)
                        && ProvenBy(trace, releaseId, baseline.files)
    {
      baseline, releaseId := Candidate("", "", map[], "", 0.0, 0.0, None), 0;
      var authorized := Authorize();
      QuietStep([], trace, baseline);
      if authorized.Err? {
        return Err(authorized.error), baseline, releaseId;
      }
      baseline := authorized.value;
      QuietStep([], trace, baseline);
      r, releaseId := PublishCandidate(authorized.value);
    }

    /** What follows the first authorisation. */
    method PublishCandidate(c: Candidate) returns (r: Result<int, Failure>, ghost releaseId: int)
      requires Safe(trace, c) && Writes(trace) == []
      modifies this
      ensures Safe(trace, c) && old(trace) <= trace
      ensures Writes(trace) <= Plan(c, releaseId) && (Writes(trace) != [] ==> Unused(trace, c.tag))
      ensures r.Ok? ==> r.value == releaseId && Writes(trace) == Plan(c, releaseId)
                        && ProvenBy(trace, releaseId, c.files)
    {
      releaseId := 0;
      var tagged := TagCandidate(c);
      PlanStart(c, releaseId);
      if tagged.Err? {
        return Err(tagged.error), releaseId;
      }
      ghost var tagging := trace;
      var draft := NewDraft(c);
      UnusedGrows(tagging, trace, c.tag);
      if draft.Err? {
        return Err(draft.error), releaseId;
      }
      releaseId := draft.value;
      r := Deliver(c, draft.value);
      UnusedGrows(tagging, trace, c.tag);
    }
  }

  /** The plan uploads every approved file exactly once, in the order of the names. */
  lemma PlanUploadsEachOnce(c: Candidate, id: int)
    ensures
      var names := SortedKeys(c.files.Keys);
      && NoDuplicates(names) && SortedBy(names, LessEq) && (forall n :: n in names <==> n in c.files)
      && Plan(c, id)[2..|Plan(c, id)| - 1] == Uploads(id, c.files, names)
  {
    LessEqIsTotalOrder();
    SortedSetIsSorted(c.files.Keys, LessEq);
    var uploads := Uploads(id, c.files, SortedKeys(c.files.Keys));
    assert Plan(c, id) == [CreateTag(c.tag, c.commit), CreateDraft(c.tag, c.commit)] + uploads + [Undraft(id)];
  }

  lemma PlanStart(c: Candidate, id: int)
    ensures [] <= Plan(c, id) && [CreateTag(c.tag, c.commit)] <= Plan(c, id)
    ensures [CreateTag(c.tag, c.commit), CreateDraft(c.tag, c.commit)] <= Plan(c, id)
  {
  }

  ghost function FirstNames(names: seq<string>, i: nat): set<string>
    requires i <= |names|
  {
    set j | 0 <= j < i :: names[j]
  }

  ghost predicate UploadedUpTo(start: seq<Write>, sent: seq<Write>, c: Candidate, id: int, i: nat) {
    i <= |UploadsOf(c, id)| && sent == start + UploadsOf(c, id)[..i]
  }

  lemma UploadedNext(start: seq<Write>, sent: seq<Write>, now: seq<Write>, c: Candidate, id: int, i: nat)
    requires UploadedUpTo(start, sent, c, id, i) && i < |UploadsOf(c, id)|
    requires now == sent || now == sent + [UploadsOf(c, id)[i]]
    ensures start <= now <= start + UploadsOf(c, id)
    ensures now == sent + [UploadsOf(c, id)[i]] ==> UploadedUpTo(start, now, c, id, i + 1)
  {
    GrowsWithin(start, UploadsOf(c, id), i);
    GrowsWithin(start, UploadsOf(c, id), i + 1);
  }

  lemma UploadedAll(start: seq<Write>, sent: seq<Write>, c: Candidate, id: int)
    requires UploadedUpTo(start, sent, c, id, |UploadsOf(c, id)|)
    ensures sent == start + UploadsOf(c, id)
  {
    assert UploadsOf(c, id)[..|UploadsOf(c, id)|] == UploadsOf(c, id);
  }

  function UploadsOf(c: Candidate, id: int): seq<Write> {
    Uploads(id, c.files, SortedKeys(c.files.Keys))
  }

  /** Rows of a complete listing are listed. */
  lemma ListingIsListed(t: Trace, from: nat, releaseId: int, rows: seq<Json>)
    requires from <= |t| && Listing(t[from..], AssetPages(releaseId), rows)
    ensures AllListed(t, from, releaseId, rows)
  {
    var pages := t[from..];
    forall row | row in rows
      ensures Listed(t, from, releaseId, row)
    {
      var k := RowComesFromPage(pages, row);
      assert k < |pages| - 1 ==> pages[..|pages| - 1][k] == pages[k];
      assert t[from + k] == Read(Assets(releaseId, k + 1), Some(Array(RowsOf(pages[k]))));
    }
  }

  lemma ListingsGrow(t: Trace, u: Trace, from: nat, releaseId: int, rows: seq<Json>)
    requires t <= u && AllListed(t, from, releaseId, rows)
    ensures AllListed(u, from, releaseId, rows)
  {
    forall row | row in rows
      ensures Listed(u, from, releaseId, row)
    {
      ListedGrows(t, u, from, releaseId, row);
    }
  }

  /** The part of `AllReadBack` done so far. */
  ghost predicate NamesReadBack(t: Trace, from: nat, releaseId: int, names: set<string>, files: map<string, Bytes>)
    requires names <= files.Keys
  {
    forall n :: n in names ==> ReadBack(t, from, releaseId, n, files[n])
  }

  lemma OlderReadBacks(t: Trace, u: Trace, from: nat, releaseId: int, names: set<string>, files: map<string, Bytes>)
    requires t <= u && names <= files.Keys && NamesReadBack(t, from, releaseId, names, files)
    ensures NamesReadBack(u, from, releaseId, names, files)
  {
    forall n | n in names
      ensures ReadBack(u, from, releaseId, n, files[n])
    {
      OneReadBackGrows(t, u, from, releaseId, n, files[n]);
    }
  }

  lemma {:induction false} SameSize<T>(a: set<T>, b: set<T>)
    requires a <= b && |a| == |b|
    ensures a == b
  {
    if a != b {
      var x :| x in b && x !in a;
      assert a <= b - {x};
      Smaller(a, b - {x});
    }
  }

  lemma {:induction false} Smaller<T>(a: set<T>, b: set<T>)
    requires a <= b
    ensures |a| <= |b|
    decreases |a|
  {
    if a != {} {
      var x :| x in a;
      Smaller(a - {x}, b - {x});
    }
  }
}
