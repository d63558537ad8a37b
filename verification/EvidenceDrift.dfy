/** Recursive drift between two JSON documents, keyed by JSON Pointers (adapters/evidence_identity.py). */
module EvidenceDrift {
  import opened Wrappers
  import opened Sorting
  import opened Sequences
  import opened Text

  datatype Json =
    | Null | Bool(b: bool) | Number(r: real) | String(s: string) | Array(items: seq<Json>)
    | Object(fields: map<string, Json>)

  /** `sorted(keys)` */
  function SortedKeys(keys: set<string>): (r: seq<string>)
    ensures NoDuplicates(r) && forall k :: k in r <==> k in keys
  {
    LessEqIsTotalOrder();
    SortedSet(keys, LessEq)
  }

  // ----- Drift -----

  datatype Change = Removed(before: Json) | Added(after: Json) | Changed(before: Json, after: Json)

  datatype Entry = Entry(pointer: string, change: Change)

  function EscapeChar(c: char): string {
    if c == '~' then "~0" else if c == '/' then "~1" else [c]
  }

  function Substitute(c: char, with: string): char -> string {
    x => if x == c then with else [x]
  }

  /** `s.replace(c, with)` for a single character. */
  function ReplaceChar(s: string, c: char, with: string): string {
    Flatten(s, Substitute(c, with))
  }

  /** `_json_pointer_escape`: one pass for `~`, then one for `/`. */
  function Escape(token: string): string {
    ReplaceChar(ReplaceChar(token, '~', "~0"), '/', "~1")
  }

  function Child(path: string, key: string): string {
    path + "/" + Escape(key)
  }

  function RemovedEntries(f: map<string, Json>, keys: seq<string>, path: string): seq<Entry>
    requires forall k :: k in keys ==> k in f
  {
    if keys == [] then [] else [Entry(Child(path, keys[0]), Removed(f[keys[0]]))] + RemovedEntries(f, keys[1..], path)
  }

  function AddedEntries(g: map<string, Json>, keys: seq<string>, path: string): seq<Entry>
    requires forall k :: k in keys ==> k in g
  {
    if keys == [] then [] else [Entry(Child(path, keys[0]), Added(g[keys[0]]))] + AddedEntries(g, keys[1..], path)
  }

  /** `_iter_drift` */
  function IterDrift(before: Json, after: Json, path: string): seq<Entry>
    decreases before, 1, 0
  {
    if before.Object? && after.Object? then
      var f, g := before.fields, after.fields;
      RemovedEntries(f, SortedKeys(f.Keys - g.Keys), path) + AddedEntries(g, SortedKeys(g.Keys - f.Keys), path)
      + CommonEntries(before, after, SortedKeys(f.Keys * g.Keys), path)
    else if before != after then [Entry(if path != "" then path else "/", Changed(before, after))]
    else []
  }

  function CommonEntries(before: Json, after: Json, keys: seq<string>, path: string): seq<Entry>
    requires before.Object? && after.Object?
    requires forall k :: k in keys ==> k in before.fields && k in after.fields
    decreases before, 0, |keys|
  {
    if keys == [] then []
    else
      IterDrift(before.fields[keys[0]], after.fields[keys[0]], Child(path, keys[0]))
      + CommonEntries(before, after, keys[1..], path)
  }
}
