/** The drift between two documents is a patch: applied strictly to the first it gives the second. */
module DriftPatches {
  import opened Wrappers
  import opened Sorting
  import opened Sequences
  import opened Text
  import opened EvidenceDrift
  import opened JsonPointers

  // ----- Applying a change -----

  /** A change at a place, each key on the way there spelled out. */
  datatype Edit = Edit(keys: seq<string>, change: Change)

  /** Strict: what the change says was there must be there, and what it adds must be missing. */
  function EditAt(doc: Json, keys: seq<string>, change: Change): Option<Json>
    decreases |keys|
  {
    if keys == [] then
      if change.Changed? && doc == change.before then Some(change.after) else None
    else if !doc.Object? then None
    else
      var key := keys[0];
      if |keys| == 1 && change.Removed? then
        if key in doc.fields && doc.fields[key] == change.before then Some(Object(doc.fields - {key})) else None
      else if |keys| == 1 && change.Added? then
        if key !in doc.fields then Some(Object(doc.fields[key := change.after])) else None
      else if key !in doc.fields then None
      else
        match EditAt(doc.fields[key], keys[1..], change)
        case None => None
        case Some(v) => Some(Object(doc.fields[key := v]))
  }

  function ApplyEdit(doc: Option<Json>, e: Edit): Option<Json> {
    if doc.None? then None else EditAt(doc.value, e.keys, e.change)
  }

  function ApplyEdits(doc: Option<Json>, es: seq<Edit>): Option<Json> {
    Fold(ApplyEdit, doc, es)
  }

  /** The same for entries, whose place is a JSON Pointer. */
  function ApplyEntry(doc: Option<Json>, e: Entry): Option<Json> {
    if doc.None? || Parse(e.pointer).None? then None else EditAt(doc.value, Parse(e.pointer).value, e.change)
  }

  function ApplyEntries(doc: Option<Json>, es: seq<Entry>): Option<Json> {
    Fold(ApplyEntry, doc, es)
  }

  // ----- Drift without pointers -----

  function RemovedEdits(f: map<string, Json>, keys: seq<string>): seq<Edit>
    requires forall k :: k in keys ==> k in f
  {
    if keys == [] then [] else [Edit([keys[0]], Removed(f[keys[0]]))] + RemovedEdits(f, keys[1..])
  }

  function AddedEdits(g: map<string, Json>, keys: seq<string>): seq<Edit>
    requires forall k :: k in keys ==> k in g
  {
    if keys == [] then [] else [Edit([keys[0]], Added(g[keys[0]]))] + AddedEdits(g, keys[1..])
  }

  function Under(key: string, es: seq<Edit>): (r: seq<Edit>)
    ensures |r| == |es| && forall i :: 0 <= i < |es| ==> r[i] == Edit([key] + es[i].keys, es[i].change)
  {
    seq(|es|, i requires 0 <= i < |es| => Edit([key] + es[i].keys, es[i].change))
  }

  function Drift(before: Json, after: Json): seq<Edit>
    decreases before, 1, 0
  {
    if before.Object? && after.Object? then
      var f, g := before.fields, after.fields;
      RemovedEdits(f, SortedKeys(f.Keys - g.Keys)) + AddedEdits(g, SortedKeys(g.Keys - f.Keys))
      + CommonEdits(before, after, SortedKeys(f.Keys * g.Keys))
    else if before != after then [Edit([], Changed(before, after))]
    else []
  }

  function CommonEdits(before: Json, after: Json, keys: seq<string>): seq<Edit>
    requires before.Object? && after.Object?
    requires forall k :: k in keys ==> k in before.fields && k in after.fields
    decreases before, 0, |keys|
  {
    if keys == [] then []
    else
      Under(keys[0], Drift(before.fields[keys[0]], after.fields[keys[0]]))
      + CommonEdits(before, after, keys[1..])
  }

  // ----- It is a patch -----

  lemma FoldOne<S, T>(f: (S, T) -> S, start: S, x: T)
    ensures Fold(f, start, [x]) == f(start, x)
  {
    assert [x][..0] == [];
  }

  lemma FoldCons<S, T>(f: (S, T) -> S, start: S, x: T, xs: seq<T>)
    ensures Fold(f, start, [x] + xs) == Fold(f, f(start, x), xs)
  {
    FoldConcat(f, start, [x], xs);
    FoldOne(f, start, x);
  }

  function Without(h: map<string, Json>, keys: seq<string>): map<string, Json> {
    if keys == [] then h else Without(h - {keys[0]}, keys[1..])
  }

  lemma {:induction false} WithoutFields(h: map<string, Json>, keys: seq<string>, k: string)
    ensures k in Without(h, keys) <==> k in h && k !in keys
    ensures k in Without(h, keys) ==> Without(h, keys)[k] == h[k]
    decreases |keys|
  {
    if keys != [] {
      assert keys == [keys[0]] + keys[1..];
      WithoutFields(h - {keys[0]}, keys[1..], k);
    }
  }

  lemma {:induction false} ApplyRemoved(h: map<string, Json>, f: map<string, Json>, keys: seq<string>)
    requires NoDuplicates(keys) && forall k :: k in keys ==> k in f && k in h && h[k] == f[k]
    ensures ApplyEdits(Some(Object(h)), RemovedEdits(f, keys)) == Some(Object(Without(h, keys)))
    decreases |keys|
  {
    if keys != [] {
      var key, rest := keys[0], keys[1..];
      assert keys == [key] + rest;
      FoldCons(ApplyEdit, Some(Object(h)), Edit([key], Removed(f[key])), RemovedEdits(f, rest));
      ApplyRemoved(h - {key}, f, rest);
    }
  }

  /** The fields of `h` with those of `g` at `keys`. */
  function Overwrite(h: map<string, Json>, g: map<string, Json>, keys: seq<string>): map<string, Json>
    requires forall k :: k in keys ==> k in g
    decreases |keys|
  {
    if keys == [] then h else Overwrite(h[keys[0] := g[keys[0]]], g, keys[1..])
  }

  lemma {:induction false} OverwriteFields(h: map<string, Json>, g: map<string, Json>, keys: seq<string>, k: string)
    requires forall k :: k in keys ==> k in g
    ensures k in Overwrite(h, g, keys) <==> k in h || k in keys
    ensures k in keys ==> Overwrite(h, g, keys)[k] == g[k]
    ensures k in h && k !in keys ==> Overwrite(h, g, keys)[k] == h[k]
    decreases |keys|
  {
    if keys != [] {
      assert keys == [keys[0]] + keys[1..];
      OverwriteFields(h[keys[0] := g[keys[0]]], g, keys[1..], k);
    }
  }

  lemma {:induction false} ApplyAdded(h: map<string, Json>, g: map<string, Json>, keys: seq<string>)
    requires NoDuplicates(keys) && forall k :: k in keys ==> k in g && k !in h
    ensures ApplyEdits(Some(Object(h)), AddedEdits(g, keys)) == Some(Object(Overwrite(h, g, keys)))
    decreases |keys|
  {
    if keys != [] {
      var key, rest := keys[0], keys[1..];
      assert keys == [key] + rest;
      FoldCons(ApplyEdit, Some(Object(h)), Edit([key], Added(g[key])), AddedEdits(g, rest));
      ApplyAdded(h[key := g[key]], g, rest);
    }
  }

  /** Only a change, never an addition or removal, is at the root. */
  ghost predicate Inner(es: seq<Edit>) {
    forall e :: e in es && e.keys == [] ==> e.change.Changed?
  }

  lemma EditUnder(h: map<string, Json>, key: string, value: Json, e: Edit)
    requires e.keys == [] ==> e.change.Changed?
    requires EditAt(value, e.keys, e.change).Some?
    ensures EditAt(Object(h[key := value]), [key] + e.keys, e.change) ==
            Some(Object(h[key := EditAt(value, e.keys, e.change).value]))
  {
    assert ([key] + e.keys)[1..] == e.keys;
    var result := EditAt(value, e.keys, e.change).value;
    assert h[key := value][key := result] == h[key := result];
  }

  /** Edits under one key act on that field alone. */
  lemma {:induction false} ApplyUnder(h: map<string, Json>, key: string, es: seq<Edit>)
    requires key in h && Inner(es)
    ensures ApplyEdits(Some(h[key]), es).Some? ==>
              ApplyEdits(Some(Object(h)), Under(key, es)) ==
                Some(Object(h[key := ApplyEdits(Some(h[key]), es).value]))
  {
    if es == [] {
      assert h[key := h[key]] == h;
    } else {
      var init, last := es[..|es| - 1], es[|es| - 1];
      ApplyUnder(h, key, init);
      assert Under(key, es) == Under(key, init) + [Edit([key] + last.keys, last.change)];
      FoldSnoc(ApplyEdit, Some(Object(h)), Under(key, init), Edit([key] + last.keys, last.change));
      if ApplyEdits(Some(h[key]), es).Some? {
        var mid := ApplyEdits(Some(h[key]), init);
        assert mid.Some?;
        assert last in es;
        EditUnder(h, key, mid.value, last);
      }
    }
  }

  lemma {:induction false} AddedInner(g: map<string, Json>, keys: seq<string>)
    requires forall k :: k in keys ==> k in g
    ensures Inner(AddedEdits(g, keys))
  {
    if keys != [] {
      AddedInner(g, keys[1..]);
    }
  }

  lemma {:induction false} RemovedInner(f: map<string, Json>, keys: seq<string>)
    requires forall k :: k in keys ==> k in f
    ensures Inner(RemovedEdits(f, keys))
  {
    if keys != [] {
      RemovedInner(f, keys[1..]);
    }
  }

  lemma {:induction false} CommonInner(before: Json, after: Json, keys: seq<string>)
    requires before.Object? && after.Object?
    requires forall k :: k in keys ==> k in before.fields && k in after.fields
    ensures Inner(CommonEdits(before, after, keys))
  {
    if keys != [] {
      CommonInner(before, after, keys[1..]);
    }
  }

  lemma DriftInner(before: Json, after: Json)
    ensures Inner(Drift(before, after))
  {
    if before.Object? && after.Object? {
      var f, g := before.fields, after.fields;
      RemovedInner(f, SortedKeys(f.Keys - g.Keys));
      AddedInner(g, SortedKeys(g.Keys - f.Keys));
      CommonInner(before, after, SortedKeys(f.Keys * g.Keys));
    }
  }

  /** Removing, adding and overwriting the right keys of `f` leaves `g`. */
  lemma Rebuilt(f: map<string, Json>, g: map<string, Json>, gone: seq<string>, extra: seq<string>, both: seq<string>)
    requires forall k :: k in gone <==> k in f && k !in g
    requires forall k :: k in extra <==> k in g && k !in f
    requires forall k :: k in both <==> k in f && k in g
    ensures Overwrite(Overwrite(Without(f, gone), g, extra), g, both) == g
  {
    var result := Overwrite(Overwrite(Without(f, gone), g, extra), g, both);
    forall k
      ensures k in result <==> k in g
      ensures k in g ==> result[k] == g[k]
    {
      WithoutFields(f, gone, k);
      OverwriteFields(Without(f, gone), g, extra, k);
      OverwriteFields(Overwrite(Without(f, gone), g, extra), g, both, k);
    }
  }

  /** Applying the drift of one document to it gives the other. */
  lemma {:induction false} DriftIsPatch(before: Json, after: Json)
    ensures ApplyEdits(Some(before), Drift(before, after)) == Some(after)
    decreases before, 1, 0
  {
    if before.Object? && after.Object? {
      ObjectDriftIsPatch(before, after, SortedKeys(before.fields.Keys - after.fields.Keys),
                         SortedKeys(after.fields.Keys - before.fields.Keys),
                         SortedKeys(before.fields.Keys * after.fields.Keys));
    } else if before != after {
      FoldOne(ApplyEdit, Some(before), Edit([], Changed(before, after)));
    }
  }

  lemma {:induction false} ObjectDriftIsPatch(
    before: Json, after: Json, gone: seq<string>, extra: seq<string>, both: seq<string>)
    requires before.Object? && after.Object? && NoDuplicates(gone) && NoDuplicates(extra) && NoDuplicates(both)
    requires forall k :: k in gone <==> k in before.fields && k !in after.fields
    requires forall k :: k in extra <==> k in after.fields && k !in before.fields
    requires forall k :: k in both <==> k in before.fields && k in after.fields
    ensures ApplyEdits(Some(before), RemovedEdits(before.fields, gone) + AddedEdits(after.fields, extra)
                                     + CommonEdits(before, after, both)) == Some(after)
    decreases before, 0, |both| + 1
  {
    var f, g := before.fields, after.fields;
    var removed, added := RemovedEdits(f, gone), AddedEdits(g, extra);
    var kept := Without(f, gone);
    forall k
      ensures k in kept <==> k in f && k !in gone
    {
      WithoutFields(f, gone, k);
    }
    ApplyRemoved(f, f, gone);
    ApplyAdded(kept, g, extra);
    forall k | k in both
      ensures k in Overwrite(kept, g, extra) && Overwrite(kept, g, extra)[k] == f[k]
    {
      WithoutFields(f, gone, k);
      OverwriteFields(kept, g, extra, k);
    }
    ApplyCommon(Overwrite(kept, g, extra), before, after, both);
    FoldConcat(ApplyEdit, Some(before), removed, added);
    FoldConcat(ApplyEdit, Some(before), removed + added, CommonEdits(before, after, both));
    Rebuilt(f, g, gone, extra, both);
  }

  lemma {:induction false} ApplyCommon(h: map<string, Json>, before: Json, after: Json, keys: seq<string>)
    requires before.Object? && after.Object? && NoDuplicates(keys)
    requires forall k :: k in keys ==> k in before.fields && k in after.fields && k in h && h[k] == before.fields[k]
    ensures ApplyEdits(Some(Object(h)), CommonEdits(before, after, keys)) ==
            Some(Object(Overwrite(h, after.fields, keys)))
    decreases before, 0, |keys|
  {
    if keys != [] {
      var key, rest := keys[0], keys[1..];
      assert keys == [key] + rest;
      var x, y := before.fields[key], after.fields[key];
      DriftIsPatch(x, y);
      DriftInner(x, y);
      ApplyUnder(h, key, Drift(x, y));
      FoldConcat(ApplyEdit, Some(Object(h)), Under(key, Drift(x, y)), CommonEdits(before, after, rest));
      ApplyCommon(h[key := y], before, after, rest);
    }
  }
}
