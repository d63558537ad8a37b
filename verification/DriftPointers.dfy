/** What the pointer-keyed drift report guarantees (`_iter_drift`, `compare_snapshots`). */
module DriftPointers {
  import opened Wrappers
  import opened Sorting
  import opened Sequences
  import opened Text
  import opened EvidenceDrift
  import opened JsonPointers
  import opened DriftPatches

  // ----- Entries are rendered edits -----

  function Pointed(path: seq<string>, es: seq<Edit>): (r: seq<Entry>)
    ensures |r| == |es| && forall i :: 0 <= i < |es| ==> r[i] == Entry(Render(path + es[i].keys), es[i].change)
  {
    seq(|es|, i requires 0 <= i < |es| => Entry(Render(path + es[i].keys), es[i].change))
  }

  lemma {:induction false} RemovedRenders(f: map<string, Json>, keys: seq<string>, path: seq<string>)
    requires forall k :: k in keys ==> k in f
    ensures RemovedEntries(f, keys, Render(path)) == Pointed(path, RemovedEdits(f, keys))
  {
    if keys != [] {
      RemovedRenders(f, keys[1..], path);
      RenderChild(path, keys[0]);
    }
  }

  lemma {:induction false} AddedRenders(g: map<string, Json>, keys: seq<string>, path: seq<string>)
    requires forall k :: k in keys ==> k in g
    ensures AddedEntries(g, keys, Render(path)) == Pointed(path, AddedEdits(g, keys))
  {
    if keys != [] {
      AddedRenders(g, keys[1..], path);
      RenderChild(path, keys[0]);
    }
  }

  lemma PointedUnder(path: seq<string>, key: string, es: seq<Edit>)
    ensures Pointed(path, Under(key, es)) == Pointed(path + [key], es)
  {
    forall i | 0 <= i < |es|
      ensures path + ([key] + es[i].keys) == (path + [key]) + es[i].keys
    {
    }
  }

  lemma PointedConcat(path: seq<string>, a: seq<Edit>, b: seq<Edit>)
    ensures Pointed(path, a + b) == Pointed(path, a) + Pointed(path, b)
  {
  }

  /** Below the root, and at the root of two objects, each entry's pointer is the rendered place of its change. */
  lemma {:induction false} IterRenders(before: Json, after: Json, path: seq<string>)
    requires path != [] || (before.Object? && after.Object?) || before == after
    ensures IterDrift(before, after, Render(path)) == Pointed(path, Drift(before, after))
    decreases before, 1, 0
  {
    if before.Object? && after.Object? {
      var f, g := before.fields, after.fields;
      var gone, extra, both := SortedKeys(f.Keys - g.Keys), SortedKeys(g.Keys - f.Keys), SortedKeys(f.Keys * g.Keys);
      RemovedRenders(f, gone, path);
      AddedRenders(g, extra, path);
      CommonRenders(before, after, both, path);
      PointedConcat(path, RemovedEdits(f, gone), AddedEdits(g, extra));
      PointedConcat(path, RemovedEdits(f, gone) + AddedEdits(g, extra), CommonEdits(before, after, both));
    } else if before != after {
      SplitRendered(path);
      assert path + [] == path;
    }
  }

  lemma {:induction false} CommonRenders(before: Json, after: Json, keys: seq<string>, path: seq<string>)
    requires before.Object? && after.Object?
    requires forall k :: k in keys ==> k in before.fields && k in after.fields
    ensures CommonEntries(before, after, keys, Render(path)) == Pointed(path, CommonEdits(before, after, keys))
    decreases before, 0, |keys|
  {
    if keys != [] {
      var key := keys[0];
      var inner := Drift(before.fields[key], after.fields[key]);
      RenderChild(path, key);
      IterRenders(before.fields[key], after.fields[key], path + [key]);
      PointedUnder(path, key, inner);
      CommonRenders(before, after, keys[1..], path);
      PointedConcat(path, Under(key, inner), CommonEdits(before, after, keys[1..]));
    }
  }

  // ----- The report is a patch -----

  lemma {:induction false} ApplyPointed(doc: Option<Json>, es: seq<Edit>)
    ensures ApplyEntries(doc, Pointed([], es)) == ApplyEdits(doc, es)
  {
    if es != [] {
      var init, last := es[..|es| - 1], es[|es| - 1];
      ApplyPointed(doc, init);
      assert [] + last.keys == last.keys;
      assert Pointed([], es) == Pointed([], init) + [Entry(Render(last.keys), last.change)];
      FoldSnoc(ApplyEntry, doc, Pointed([], init), Entry(Render(last.keys), last.change));
      ParseRender(last.keys);
    }
  }

  lemma MemberIsSmaller(doc: Json, key: string)
    requires doc.Object? && key in doc.fields
    ensures doc.fields[key] != doc
  {
    assert doc.fields[key] < doc;
  }

  /** A root that is not a pair of objects is reported at `/`, which RFC 6901 reads as the member named "". */
  lemma RootIsMisplaced(before: Json, after: Json)
    requires before != after && !(before.Object? && after.Object?)
    ensures IterDrift(before, after, "") == [Entry("/", Changed(before, after))]
    ensures ApplyEntries(Some(before), IterDrift(before, after, "")) != Some(after)
  {
    var e := Entry("/", Changed(before, after));
    FoldOne(ApplyEntry, Some(before), e);
    assert Parse("/") == Some([""]);
    if before.Object? && "" in before.fields {
      MemberIsSmaller(before, "");
    }
  }

  /** Read as JSON Pointers, the reported entries turn the first document into the second exactly when both
      are objects or nothing differs. */
  lemma DriftAppliesExactly(before: Json, after: Json)
    ensures ApplyEntries(Some(before), IterDrift(before, after, "")) == Some(after) <==>
              (before.Object? && after.Object?) || before == after
  {
    if (before.Object? && after.Object?) || before == after {
      IterRenders(before, after, []);
      ApplyPointed(Some(before), Drift(before, after));
      DriftIsPatch(before, after);
    } else {
      RootIsMisplaced(before, after);
    }
  }

  // ----- Nothing is reported exactly when nothing differs -----

  lemma {:induction false} SameMeansSilent(doc: Json)
    ensures Drift(doc, doc) == []
    decreases doc, 1, 0
  {
    if doc.Object? {
      assert doc.fields.Keys - doc.fields.Keys == {};
      CommonSilent(doc, SortedKeys(doc.fields.Keys * doc.fields.Keys));
    }
  }

  lemma {:induction false} CommonSilent(doc: Json, keys: seq<string>)
    requires doc.Object? && forall k :: k in keys ==> k in doc.fields
    ensures CommonEdits(doc, doc, keys) == []
    decreases doc, 0, |keys|
  {
    if keys != [] {
      SameMeansSilent(doc.fields[keys[0]]);
      CommonSilent(doc, keys[1..]);
    }
  }

  lemma SilentExactly(before: Json, after: Json)
    ensures IterDrift(before, after, "") == [] <==> before == after
  {
    if (before.Object? && after.Object?) || before == after {
      IterRenders(before, after, []);
      DriftIsPatch(before, after);
      SameMeansSilent(before);
    }
  }

  // ----- No two entries share a pointer -----

  predicate DistinctPlaces(es: seq<Edit>) {
    forall i, j :: 0 <= i < j < |es| ==> es[i].keys != es[j].keys
  }

  lemma ConcatDistinct(a: seq<Edit>, b: seq<Edit>)
    requires DistinctPlaces(a) && DistinctPlaces(b)
    requires forall x, y :: x in a && y in b ==> x.keys != y.keys
    ensures DistinctPlaces(a + b)
  {
  }

  /** Every edit of a list is somewhere under one of these keys. */
  ghost predicate Within(es: seq<Edit>, keys: seq<string>) {
    forall e :: e in es ==> e.keys != [] && e.keys[0] in keys
  }

  lemma {:induction false} RemovedDistinct(f: map<string, Json>, keys: seq<string>)
    requires NoDuplicates(keys) && forall k :: k in keys ==> k in f
    ensures DistinctPlaces(RemovedEdits(f, keys)) && Within(RemovedEdits(f, keys), keys)
  {
    if keys != [] {
      assert keys == [keys[0]] + keys[1..];
      RemovedDistinct(f, keys[1..]);
      ConcatDistinct([Edit([keys[0]], Removed(f[keys[0]]))], RemovedEdits(f, keys[1..]));
    }
  }

  lemma {:induction false} AddedDistinct(g: map<string, Json>, keys: seq<string>)
    requires NoDuplicates(keys) && forall k :: k in keys ==> k in g
    ensures DistinctPlaces(AddedEdits(g, keys)) && Within(AddedEdits(g, keys), keys)
  {
    if keys != [] {
      assert keys == [keys[0]] + keys[1..];
      AddedDistinct(g, keys[1..]);
      ConcatDistinct([Edit([keys[0]], Added(g[keys[0]]))], AddedEdits(g, keys[1..]));
    }
  }

  lemma UnderDistinct(key: string, es: seq<Edit>)
    requires DistinctPlaces(es)
    ensures DistinctPlaces(Under(key, es)) && Within(Under(key, es), [key])
  {
    forall i, j | 0 <= i < j < |es|
      ensures [key] + es[i].keys != [key] + es[j].keys
    {
      assert ([key] + es[i].keys)[1..] == es[i].keys && ([key] + es[j].keys)[1..] == es[j].keys;
    }
  }

  lemma {:induction false} DriftDistinct(before: Json, after: Json)
    ensures DistinctPlaces(Drift(before, after))
    decreases before, 1, 0
  {
    if before.Object? && after.Object? {
      var f, g := before.fields, after.fields;
      var gone, extra, both := SortedKeys(f.Keys - g.Keys), SortedKeys(g.Keys - f.Keys), SortedKeys(f.Keys * g.Keys);
      RemovedDistinct(f, gone);
      AddedDistinct(g, extra);
      CommonDistinct(before, after, both);
      ConcatDistinct(RemovedEdits(f, gone), AddedEdits(g, extra));
      ConcatDistinct(RemovedEdits(f, gone) + AddedEdits(g, extra), CommonEdits(before, after, both));
    }
  }

  lemma {:induction false} CommonDistinct(before: Json, after: Json, keys: seq<string>)
    requires before.Object? && after.Object? && NoDuplicates(keys)
    requires forall k :: k in keys ==> k in before.fields && k in after.fields
    ensures DistinctPlaces(CommonEdits(before, after, keys)) && Within(CommonEdits(before, after, keys), keys)
    decreases before, 0, |keys|
  {
    if keys != [] {
      var key, rest := keys[0], keys[1..];
      assert keys == [key] + rest;
      DriftDistinct(before.fields[key], after.fields[key]);
      UnderDistinct(key, Drift(before.fields[key], after.fields[key]));
      CommonDistinct(before, after, rest);
      ConcatDistinct(Under(key, Drift(before.fields[key], after.fields[key])), CommonEdits(before, after, rest));
    }
  }

  predicate DistinctPointers(es: seq<Entry>) {
    forall i, j :: 0 <= i < j < |es| ==> es[i].pointer != es[j].pointer
  }

  lemma PointersDistinct(before: Json, after: Json)
    ensures DistinctPointers(IterDrift(before, after, ""))
  {
    if (before.Object? && after.Object?) || before == after {
      var es := Drift(before, after);
      IterRenders(before, after, []);
      DriftDistinct(before, after);
      forall i, j | 0 <= i < j < |es|
        ensures Render([] + es[i].keys) != Render([] + es[j].keys)
      {
        assert [] + es[i].keys == es[i].keys && [] + es[j].keys == es[j].keys;
        ParseRender(es[i].keys);
        ParseRender(es[j].keys);
      }
    }
  }

  /** `dict(entries)`: a later entry replaces an earlier one with the same pointer. */
  function Dict(es: seq<Entry>): map<string, Change> {
    if es == [] then map[] else Dict(es[..|es| - 1])[es[|es| - 1].pointer := es[|es| - 1].change]
  }

  lemma {:induction false} DictKeys(es: seq<Entry>, p: string)
    ensures p in Dict(es) <==> exists i :: 0 <= i < |es| && es[i].pointer == p
  {
    if es != [] {
      var init, last := es[..|es| - 1], es[|es| - 1];
      assert es == init + [last];
      DictKeys(init, p);
    }
  }

  lemma {:induction false} DictKeepsAll(es: seq<Entry>)
    requires DistinctPointers(es)
    ensures |Dict(es)| == |es|
    ensures forall p, c :: Entry(p, c) in es <==> p in Dict(es) && Dict(es)[p] == c
  {
    if es != [] {
      var init, last := es[..|es| - 1], es[|es| - 1];
      assert es == init + [last];
      DictKeepsAll(init);
      DictKeys(init, last.pointer);
    }
  }

  // ----- Swapping the documents -----

  function Flip(c: Change): Change {
    match c
    case Removed(b) => Added(b)
    case Added(a) => Removed(a)
    case Changed(b, a) => Changed(a, b)
  }

  lemma {:induction false} RemovedMembers(f: map<string, Json>, keys: seq<string>, e: Edit)
    requires forall k :: k in keys ==> k in f
    ensures e in RemovedEdits(f, keys) <==> exists k :: k in keys && e == Edit([k], Removed(f[k]))
  {
    if keys != [] {
      assert keys == [keys[0]] + keys[1..];
      RemovedMembers(f, keys[1..], e);
    }
  }

  lemma {:induction false} AddedMembers(g: map<string, Json>, keys: seq<string>, e: Edit)
    requires forall k :: k in keys ==> k in g
    ensures e in AddedEdits(g, keys) <==> exists k :: k in keys && e == Edit([k], Added(g[k]))
  {
    if keys != [] {
      assert keys == [keys[0]] + keys[1..];
      AddedMembers(g, keys[1..], e);
    }
  }

  lemma UnderMembers(key: string, es: seq<Edit>, e: Edit)
    ensures e in Under(key, es) <==> e.keys != [] && e.keys[0] == key && Edit(e.keys[1..], e.change) in es
  {
    if e in Under(key, es) {
      var i :| 0 <= i < |es| && Under(key, es)[i] == e;
      assert es[i] == Edit(e.keys[1..], e.change);
    }
    if e.keys != [] && e.keys[0] == key && Edit(e.keys[1..], e.change) in es {
      var i :| 0 <= i < |es| && es[i] == Edit(e.keys[1..], e.change);
      assert Under(key, es)[i] == e;
    }
  }

  lemma {:induction false} CommonMembers(before: Json, after: Json, keys: seq<string>, e: Edit)
    requires before.Object? && after.Object?
    requires forall k :: k in keys ==> k in before.fields && k in after.fields
    ensures e in CommonEdits(before, after, keys) <==>
              e.keys != [] && e.keys[0] in keys
              && Edit(e.keys[1..], e.change) in Drift(before.fields[e.keys[0]], after.fields[e.keys[0]])
  {
    if keys != [] {
      assert keys == [keys[0]] + keys[1..];
      UnderMembers(keys[0], Drift(before.fields[keys[0]], after.fields[keys[0]]), e);
      CommonMembers(before, after, keys[1..], e);
    }
  }

  lemma {:induction false} DriftFlips(before: Json, after: Json, e: Edit)
    requires e in Drift(before, after)
    ensures Edit(e.keys, Flip(e.change)) in Drift(after, before)
    decreases before
  {
    if before.Object? && after.Object? {
      var f, g := before.fields, after.fields;
      var flipped := Edit(e.keys, Flip(e.change));
      RemovedMembers(f, SortedKeys(f.Keys - g.Keys), e);
      AddedMembers(g, SortedKeys(g.Keys - f.Keys), e);
      CommonMembers(before, after, SortedKeys(f.Keys * g.Keys), e);
      RemovedMembers(g, SortedKeys(g.Keys - f.Keys), flipped);
      AddedMembers(f, SortedKeys(f.Keys - g.Keys), flipped);
      CommonMembers(after, before, SortedKeys(g.Keys * f.Keys), flipped);
      if e in CommonEdits(before, after, SortedKeys(f.Keys * g.Keys)) {
        DriftFlips(f[e.keys[0]], g[e.keys[0]], Edit(e.keys[1..], e.change));
      }
    }
  }

  /** The `drift` field of a comparison. */
  function Report(before: Json, after: Json): map<string, Change> {
    Dict(IterDrift(before, after, ""))
  }

  lemma EntryFlips(before: Json, after: Json, p: string, c: Change)
    requires Entry(p, c) in IterDrift(before, after, "")
    ensures Entry(p, Flip(c)) in IterDrift(after, before, "")
  {
    if (before.Object? && after.Object?) || before == after {
      IterRenders(before, after, []);
      IterRenders(after, before, []);
      var es := Drift(before, after);
      var i :| 0 <= i < |es| && Entry(p, c) == Pointed([], es)[i];
      DriftFlips(before, after, es[i]);
      var j :| 0 <= j < |Drift(after, before)| && Drift(after, before)[j] == Edit(es[i].keys, Flip(es[i].change));
      assert Pointed([], Drift(after, before))[j] == Entry(p, Flip(c));
    }
  }

  /** `drift_count` counts every difference found, and swapping the snapshots swaps additions and removals. */
  lemma ReportIsComplete(before: Json, after: Json)
    ensures |Report(before, after)| == |IterDrift(before, after, "")|
    ensures Report(after, before).Keys == Report(before, after).Keys
    ensures forall p :: p in Report(before, after) ==> Report(after, before)[p] == Flip(Report(before, after)[p])
  {
    PointersDistinct(before, after);
    PointersDistinct(after, before);
    DictKeepsAll(IterDrift(before, after, ""));
    DictKeepsAll(IterDrift(after, before, ""));
    forall p
      ensures p in Report(before, after) ==>
                p in Report(after, before) && Report(after, before)[p] == Flip(Report(before, after)[p])
      ensures p in Report(after, before) ==> p in Report(before, after)
    {
      if p in Report(before, after) {
        EntryFlips(before, after, p, Report(before, after)[p]);
      }
      if p in Report(after, before) {
        EntryFlips(after, before, p, Report(after, before)[p]);
      }
    }
  }
}
