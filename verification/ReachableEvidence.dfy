/** The inventory of an execution seal: every record reachable from a section (scripts/publication_evidence.py). */
module ReachableEvidence {
  import opened Wrappers
  import opened Sorting
  import opened Sequences
  import opened Text
  import opened EvidenceDrift

  /** Records by path; content addresses have been checked on loading. */
  type Records = map<string, Json>

  lemma FieldIsSmaller(v: Json, key: string)
    requires v.Object? && key in v.fields
    ensures v.fields[key] < v
  {
  }

  /** What the traversal descends into. */
  function Children(v: Json): (r: seq<Json>)
    ensures forall i {:trigger r[i]} :: 0 <= i < |r| ==> r[i] < v
  {
    match v
    case Array(items) => items
    case Object(fields) =>
      var keys := SortedKeys(fields.Keys);
      assert forall i {:trigger keys[i]} :: 0 <= i < |keys| ==> keys[i] in fields && fields[keys[i]] < v by {
        forall i | 0 <= i < |keys| ensures keys[i] in fields && fields[keys[i]] < v {
          FieldIsSmaller(v, keys[i]);
        }
      }
      seq(|keys|, i requires 0 <= i < |keys| => fields[keys[i]])
    case _ => []
  }

  /** An object of exactly the fields `path` and `sha256`. */
  predicate IsReference(v: Json) {
    v.Object? && v.fields.Keys == {"path", "sha256"}
  }

  /** `path.rsplit("/", 1)[-1]` */
  function LastPart(path: string, current: string): string
    decreases |path|
  {
    if path == "" then current
    else if path[0] == '/' then LastPart(path[1..], "")
    else LastPart(path[1..], current + [path[0]])
  }

  /** The digest a record's file name spells. */
  function Stem(path: string): string {
    var name := LastPart(path, "");
    if |name| <= 5 then "" else name[..|name| - 5]
  }

  /** `reference_path`: the path, if the record exists and the digest is the one in its name. */
  function ReferencePath(records: Records, v: Json): (p: Option<string>)
    requires IsReference(v)
    ensures p.Some? ==> p.value in records
  {
    match v.fields["path"]
    case String(path) =>
      if path != "" && Strip(path) == path && path in records && v.fields["sha256"] == String(Stem(path))
      then Some(path) else None
    case _ => None
  }

  // ----- What reachability means -----

  /** The references in a value, not looking behind any of them. */
  ghost function References(v: Json): set<Json>
    decreases v
  {
    if IsReference(v) then {v}
    else set i, r | 0 <= i < |Children(v)| && r in References(Children(v)[i]) :: r
  }

  /** Every reference in the value is valid and names a record in `paths`. */
  ghost predicate Within(records: Records, paths: set<string>, v: Json) {
    forall r :: r in References(v) ==> IsReference(r) && Names(records, paths, r)
  }

  predicate Names(records: Records, paths: set<string>, r: Json)
    requires IsReference(r)
  {
    ReferencePath(records, r).Some? && ReferencePath(records, r).value in paths
  }

  /** A set of records that contains everything the value and its own members refer to. */
  ghost predicate Closed(records: Records, paths: set<string>, v: Json) {
    && paths <= records.Keys
    && Within(records, paths, v)
    && forall p :: p in paths ==> Within(records, paths, records[p])
  }

  lemma ReferencesAreReferences(v: Json, r: Json)
    requires r in References(v)
    ensures IsReference(r)
    decreases v
  {
    if !IsReference(v) {
      var i :| 0 <= i < |Children(v)| && r in References(Children(v)[i]);
      ReferencesAreReferences(Children(v)[i], r);
    }
  }

  // ----- Termination -----

  ghost function Size(v: Json): nat
    decreases v, 1, 0
  {
    1 + SizeBelow(v, Children(v))
  }

  ghost function SizeBelow(parent: Json, cs: seq<Json>): nat
    requires forall i {:trigger cs[i]} :: 0 <= i < |cs| ==> cs[i] < parent
    decreases parent, 0, |cs|
  {
    if cs == [] then 0 else Size(cs[0]) + SizeBelow(parent, cs[1..])
  }

  ghost function Total(pending: seq<Json>): nat {
    if pending == [] then 0 else Size(pending[0]) + Total(pending[1..])
  }

  lemma {:induction false} TotalBelow(parent: Json, cs: seq<Json>)
    requires forall i {:trigger cs[i]} :: 0 <= i < |cs| ==> cs[i] < parent
    ensures SizeBelow(parent, cs) == Total(cs)
  {
    if cs != [] {
      TotalBelow(parent, cs[1..]);
    }
  }

  lemma {:induction false} TotalConcat(a: seq<Json>, b: seq<Json>)
    ensures Total(a + b) == Total(a) + Total(b)
  {
    if a == [] {
      assert a + b == b;
    } else {
      TotalConcat(a[1..], b);
      assert (a + b)[1..] == a[1..] + b;
    }
  }

  /** Replacing the last item by its children makes the stack smaller. */
  lemma TotalOpens(pending: seq<Json>)
    requires pending != []
    ensures
      var rest, item := pending[..|pending| - 1], pending[|pending| - 1];
      Total(rest + Children(item)) < Total(pending) && Total(rest) < Total(pending)
  {
    var rest, item := pending[..|pending| - 1], pending[|pending| - 1];
    assert pending == rest + [item];
    TotalConcat(rest, [item]);
    TotalConcat(rest, Children(item));
    TotalBelow(item, Children(item));
  }

  // ----- The worklist -----

  predicate Settled(records: Records, paths: set<string>, r: Json) {
    IsReference(r) && Names(records, paths, r)
  }

  ghost predicate OnStack(pending: seq<Json>, r: Json) {
    exists i :: 0 <= i < |pending| && r in References(pending[i])
  }

  /** Each reference in the value is dealt with, or still to be met on the stack. */
  ghost predicate Tracked(records: Records, paths: set<string>, pending: seq<Json>, v: Json) {
    forall r {:trigger r in References(v)} :: r in References(v) ==>
      Settled(records, paths, r) || OnStack(pending, r)
  }

  /** Nothing is lost: the section and every collected record are tracked. */
  ghost predicate Complete(records: Records, v: Json, paths: set<string>, pending: seq<Json>) {
    && paths <= records.Keys
    && Tracked(records, paths, pending, v)
    && forall p {:trigger Tracked(records, paths, pending, records[p])} ::
         p in paths ==> Tracked(records, paths, pending, records[p])
  }

  /** Nothing is superfluous: every closed set has all collected records and everything pending. */
  ghost predicate Needed(records: Records, v: Json, paths: set<string>, pending: seq<Json>) {
    forall s: set<string> {:trigger Closed(records, s, v)} :: Closed(records, s, v) ==>
      paths <= s && AllWithin(records, s, pending)
  }

  ghost predicate AllWithin(records: Records, s: set<string>, pending: seq<Json>) {
    forall i {:trigger Within(records, s, pending[i])} :: 0 <= i < |pending| ==> Within(records, s, pending[i])
  }

  /** Whatever was tracked stays tracked when each pending reference is settled or on the new stack. */
  lemma CompleteMoves(
    records: Records, v: Json, paths: set<string>, pending: seq<Json>, morePaths: set<string>, next: seq<Json>)
    requires Complete(records, v, paths, pending) && paths <= morePaths <= records.Keys
    requires forall r {:trigger OnStack(pending, r)} ::
               OnStack(pending, r) ==> Settled(records, morePaths, r) || OnStack(next, r)
    requires forall p :: p in morePaths && p !in paths ==> Tracked(records, morePaths, next, records[p])
    ensures Complete(records, v, morePaths, next)
  {
    forall w | Tracked(records, paths, pending, w)
      ensures Tracked(records, morePaths, next, w)
    {
      TrackedMoves(records, paths, pending, morePaths, next, w);
    }
  }

  lemma TrackedMoves(
    records: Records, paths: set<string>, pending: seq<Json>, morePaths: set<string>, next: seq<Json>, w: Json)
    requires Tracked(records, paths, pending, w) && paths <= morePaths
    requires forall r {:trigger OnStack(pending, r)} ::
               OnStack(pending, r) ==> Settled(records, morePaths, r) || OnStack(next, r)
    ensures Tracked(records, morePaths, next, w)
  {
    forall r | r in References(w)
      ensures Settled(records, morePaths, r) || OnStack(next, r)
    {
      assert Settled(records, paths, r) ==> Settled(records, morePaths, r);
    }
  }

  /** Opening the last item. */
  lemma Opened(records: Records, v: Json, paths: set<string>, rest: seq<Json>, item: Json)
    requires !IsReference(item)
    requires Complete(records, v, paths, rest + [item]) && Needed(records, v, paths, rest + [item])
    ensures Complete(records, v, paths, rest + Children(item)) && Needed(records, v, paths, rest + Children(item))
  {
    var pending, next := rest + [item], rest + Children(item);
    forall r | OnStack(pending, r)
      ensures OnStack(next, r)
    {
      OnOpenedStack(rest, item, r);
    }
    CompleteMoves(records, v, paths, pending, paths, next);
    forall s: set<string> | Closed(records, s, v)
      ensures AllWithin(records, s, next)
    {
      OpenedWithin(records, s, rest, item);
    }
  }

  lemma OnOpenedStack(rest: seq<Json>, item: Json, r: Json)
    requires !IsReference(item) && OnStack(rest + [item], r)
    ensures OnStack(rest + Children(item), r)
  {
    var next := rest + Children(item);
    var i :| 0 <= i < |rest + [item]| && r in References((rest + [item])[i]);
    if i < |rest| {
      assert next[i] == (rest + [item])[i];
    } else {
      var j :| 0 <= j < |Children(item)| && r in References(Children(item)[j]);
      assert next[|rest| + j] == Children(item)[j];
    }
  }

  lemma OpenedWithin(records: Records, s: set<string>, rest: seq<Json>, item: Json)
    requires !IsReference(item) && AllWithin(records, s, rest + [item])
    ensures AllWithin(records, s, rest + Children(item))
  {
    var next := rest + Children(item);
    assert Within(records, s, (rest + [item])[|rest|]);
    forall i | 0 <= i < |next|
      ensures Within(records, s, next[i])
    {
      if i < |rest| {
        assert next[i] == (rest + [item])[i];
      } else {
        assert next[i] == Children(item)[i - |rest|];
        assert References(next[i]) <= References(item);
      }
    }
  }

  /** Dropping a reference whose record is collected. */
  lemma Dropped(records: Records, v: Json, paths: set<string>, rest: seq<Json>, item: Json)
    requires IsReference(item) && Names(records, paths, item)
    requires Complete(records, v, paths, rest + [item]) && Needed(records, v, paths, rest + [item])
    ensures Complete(records, v, paths, rest) && Needed(records, v, paths, rest)
  {
    forall r | OnStack(rest + [item], r)
      ensures Settled(records, paths, r) || OnStack(rest, r)
    {
      OnDroppedStack(rest, item, r);
    }
    CompleteMoves(records, v, paths, rest + [item], paths, rest);
    forall s: set<string> | Closed(records, s, v)
      ensures AllWithin(records, s, rest)
    {
      RestWithin(records, s, rest, item);
    }
  }

  lemma RestWithin(records: Records, s: set<string>, rest: seq<Json>, item: Json)
    requires AllWithin(records, s, rest + [item])
    ensures AllWithin(records, s, rest) && Within(records, s, item)
  {
    assert (rest + [item])[|rest|] == item;
    forall i | 0 <= i < |rest|
      ensures Within(records, s, rest[i])
    {
      assert rest[i] == (rest + [item])[i];
    }
  }

  lemma OnDroppedStack(rest: seq<Json>, item: Json, r: Json)
    requires IsReference(item) && OnStack(rest + [item], r)
    ensures r == item || OnStack(rest, r)
  {
    var i :| 0 <= i < |rest + [item]| && r in References((rest + [item])[i]);
    if i < |rest| {
      assert rest[i] == (rest + [item])[i];
    }
  }

  /** Following a reference to a record not yet collected. */
  lemma Followed(records: Records, v: Json, paths: set<string>, rest: seq<Json>, item: Json, path: string)
    requires IsReference(item) && ReferencePath(records, item) == Some(path)
    requires Complete(records, v, paths, rest + [item]) && Needed(records, v, paths, rest + [item])
    ensures Complete(records, v, paths + {path}, rest + [records[path]])
    ensures Needed(records, v, paths + {path}, rest + [records[path]])
  {
    var next, more := rest + [records[path]], paths + {path};
    forall r | OnStack(rest + [item], r)
      ensures Settled(records, more, r) || OnStack(next, r)
    {
      OnDroppedStack(rest, item, r);
      OnLongerStack(rest, records[path], r);
    }
    assert Tracked(records, more, next, records[path]) by {
      assert next[|rest|] == records[path];
    }
    CompleteMoves(records, v, paths, rest + [item], more, next);
    forall s: set<string> | Closed(records, s, v)
      ensures more <= s && AllWithin(records, s, next)
    {
      RestWithin(records, s, rest, item);
      assert item in References(item);
    }
  }

  lemma OnLongerStack(rest: seq<Json>, item: Json, r: Json)
    ensures OnStack(rest, r) ==> OnStack(rest + [item], r)
  {
    if OnStack(rest, r) {
      var i :| 0 <= i < |rest| && r in References(rest[i]);
      assert (rest + [item])[i] == rest[i];
    }
  }

  /** A reference that must be in every closed set and is invalid leaves no closed set. */
  lemma Refused(records: Records, v: Json, paths: set<string>, rest: seq<Json>, item: Json)
    requires IsReference(item) && ReferencePath(records, item).None?
    requires Needed(records, v, paths, rest + [item])
    ensures forall s :: !Closed(records, s, v)
  {
    assert item in References(item);
    forall s
      ensures !Closed(records, s, v)
    {
      if Closed(records, s, v) {
        RestWithin(records, s, rest, item);
      }
    }
  }

  /** `_reachable`: the least set of records closed under references, whatever cycles there are; it raises
      exactly when there is none, because some reachable reference is invalid. */
  method Reachable(value: Json, records: Records) returns (r: Result<set<string>, string>)
    ensures r.Ok? <==> exists s :: Closed(records, s, value)
    ensures r.Ok? ==> Closed(records, r.value, value) && forall s :: Closed(records, s, value) ==> r.value <= s
  {
    var paths: set<string> := {};
    var pending := [value];
    while pending != []
      invariant Complete(records, value, paths, pending) && Needed(records, value, paths, pending)
      decreases records.Keys - paths, Total(pending)
    {
      var rest, item := pending[..|pending| - 1], pending[|pending| - 1];
      assert pending == rest + [item];
      TotalOpens(pending);
      if IsReference(item) {
        var path := ReferencePath(records, item);
        if path.None? {
          Refused(records, value, paths, rest, item);
          return Err("evidence reference is missing or has the wrong digest");
        }
        if path.value !in paths {
          Followed(records, value, paths, rest, item, path.value);
          paths := paths + {path.value};
          pending := rest + [records[path.value]];
        } else {
          Dropped(records, value, paths, rest, item);
          pending := rest;
        }
      } else {
        Opened(records, value, paths, rest, item);
        pending := rest + Children(item);
      }
    }
    Finished(records, value, paths);
    return Ok(paths);
  }

  lemma Finished(records: Records, v: Json, paths: set<string>)
    requires Complete(records, v, paths, [])
    ensures Closed(records, paths, v)
  {
    forall w | Tracked(records, paths, [], w)
      ensures Within(records, paths, w)
    {
      forall r | r in References(w)
        ensures IsReference(r) && Names(records, paths, r)
      {
        assert !OnStack([], r);
      }
    }
    forall p | p in paths
      ensures Within(records, paths, records[p])
    {
      assert Tracked(records, paths, [], records[p]);
    }
  }

  // ----- The inventory of the seal -----

  type Bytes = seq<bv8>

  datatype SealRow = SealRow(path: string, sha256: string, bytes: nat)

  function RowOf(raw: map<string, Bytes>, hash: Bytes -> string, path: string): SealRow
    requires path in raw
  {
    SealRow(path, hash(raw[path]), |raw[path]|)
  }

  function PathsOf(rows: seq<SealRow>): (r: seq<string>)
    ensures |r| == |rows| && forall i :: 0 <= i < |rows| ==> r[i] == rows[i].path
  {
    seq(|rows|, i requires 0 <= i < |rows| => rows[i].path)
  }

  /** The rows are the members of the set, each once, in the order of the paths, with digest and size of their bytes. */
  ghost predicate Lists(rows: seq<SealRow>, paths: set<string>, raw: map<string, Bytes>, hash: Bytes -> string) {
    && NoDuplicates(PathsOf(rows)) && SortedBy(PathsOf(rows), LessEq)
    && (forall p :: p in PathsOf(rows) <==> p in paths)
    && forall i :: 0 <= i < |rows| ==> rows[i].path in raw && rows[i] == RowOf(raw, hash, rows[i].path)
  }

  /** The least closed set, as `_reachable` returns it. */
  ghost predicate Least(records: Records, paths: set<string>, body: Json) {
    Closed(records, paths, body) && forall s :: Closed(records, s, body) ==> paths <= s
  }

  /** Records are loaded under the digest that their name spells. */
  predicate LoadedUnderDigests(raw: map<string, Bytes>, hash: Bytes -> string) {
    forall p :: p in raw ==> hash(raw[p]) == Stem(p)
  }

  /** `body["records"]` of `execution_seal`: one row per reachable record and no other, under the digest that
      references to it cite. `raw` holds the bytes from which the records were loaded. */
  method Inventory(body: Json, records: Records, raw: map<string, Bytes>, hash: Bytes -> string)
    returns (r: Result<seq<SealRow>, string>)
    requires raw.Keys == records.Keys
    ensures r.Ok? <==> exists s :: Closed(records, s, body)
    ensures r.Ok? ==> exists paths :: Least(records, paths, body) && Lists(r.value, paths, raw, hash)
    ensures r.Ok? && LoadedUnderDigests(raw, hash) ==> forall row :: row in r.value ==> row.sha256 == Stem(row.path)
  {
    var reached := Reachable(body, records);
    if reached.Err? {
      return Err(reached.error);
    }
    var paths := SortedKeys(reached.value);
    LessEqIsTotalOrder();
    SortedSetIsSorted(reached.value, LessEq);
    var rows: seq<SealRow> := [];
    for i := 0 to |paths|
      invariant |rows| == i
      invariant forall j :: 0 <= j < i ==> rows[j] == RowOf(raw, hash, paths[j])
    {
      assert paths[i] in paths;
      rows := rows + [RowOf(raw, hash, paths[i])];
    }
    assert PathsOf(rows) == paths;
    assert Least(records, reached.value, body) && Lists(rows, reached.value, raw, hash);
    return Ok(rows);
  }
}
