/** Redaction of mapping keys without losing entries (`redact_mapping_keys`, sensitive_data.py). */
module KeyRedaction {
  import opened Sorting
  import opened Text

  /** A dictionary in insertion order. */
  type Entries<V> = seq<(string, V)>

  function Keys<V>(es: Entries<V>): set<string> {
    set i | 0 <= i < |es| :: es[i].0
  }

  predicate DistinctKeys<V>(es: Entries<V>) {
    forall i, j :: 0 <= i < j < |es| ==> es[i].0 != es[j].0
  }

  function Numbered(safe: string, n: nat): string {
    safe + " [redacted-key-" + Decimal(n) + "]"
  }

  lemma NumberedInjective(safe: string, m: nat, n: nat)
    requires Numbered(safe, m) == Numbered(safe, n)
    ensures m == n
  {
    var prefix := safe + " [redacted-key-";
    var a, b := Numbered(safe, m), Numbered(safe, n);
    assert a == prefix + Decimal(m) + "]" && b == prefix + Decimal(n) + "]";
    assert a[|prefix|..|a| - 1] == Decimal(m) && b[|prefix|..|b| - 1] == Decimal(n);
    DecimalInjective(m, n);
  }

  /** Keys that redaction leaves alone. */
  function Reserved<V>(es: Entries<V>, project: string -> string): set<string> {
    set k | k in Keys(es) && project(k) == k
  }

  /** The first name of the row `safe`, `safe [redacted-key-2]`, `safe [redacted-key-3]`, ... not taken. */
  ghost predicate FirstFree(taken: set<string>, safe: string, name: string) {
    && name !in taken
    && (name == safe
        || (safe in taken
            && exists n: nat :: n >= 2 && name == Numbered(safe, n)
                                && forall m: nat :: 2 <= m < n ==> Numbered(safe, m) in taken))
  }

  /** The numbered names from `n` on that are taken: what the search may still have to pass. */
  ghost function TakenFrom(taken: set<string>, safe: string, n: nat): set<string> {
    set c | c in taken && exists m: nat {:trigger Numbered(safe, m)} :: m >= n && c == Numbered(safe, m)
  }

  lemma TakenShrinks(taken: set<string>, safe: string, n: nat)
    requires Numbered(safe, n) in taken
    ensures TakenFrom(taken, safe, n + 1) < TakenFrom(taken, safe, n)
  {
    var c := Numbered(safe, n);
    assert c in TakenFrom(taken, safe, n);
    forall m: nat | m >= n + 1
      ensures Numbered(safe, m) != c
    {
      if Numbered(safe, m) == c {
        NumberedInjective(safe, m, n);
      }
    }
  }

  function NextOrdinal(next: map<string, nat>, safe: string): nat {
    if safe in next then next[safe] else 2
  }

  /** Numbers below the remembered one are taken for good. */
  ghost predicate Remembered(next: map<string, nat>, taken: set<string>) {
    forall s, m: nat {:trigger Numbered(s, m)} :: s in next && 2 <= m < next[s] ==> Numbered(s, m) in taken
  }

  lemma RememberedGrows(next: map<string, nat>, taken: set<string>, more: set<string>, safe: string)
    requires Remembered(next, taken) && taken <= more
    ensures Remembered(next[safe := NextOrdinal(next, safe)], more)
  {
  }

  /** The inner loop: it starts from the remembered number, and still finds the first free name of the row. */
  method Rename(taken: set<string>, next: map<string, nat>, safe: string) returns (name: string, ordinal: nat)
    requires safe in taken ==> Remembered(next, taken)
    requires forall s :: s in next ==> next[s] >= 2
    ensures FirstFree(taken, safe, name) && ordinal >= 2
    ensures safe !in taken ==> ordinal == NextOrdinal(next, safe)
    ensures safe in taken ==> Remembered(next[safe := ordinal], taken + {name})
  {
    name, ordinal := safe, NextOrdinal(next, safe);
    ghost var first := true;
    while name in taken
      invariant ordinal >= 2 && (first ==> ordinal == NextOrdinal(next, safe)) && (!first ==> ordinal >= 3 && safe in taken)
      invariant name == if first then safe else Numbered(safe, ordinal - 1)
      invariant safe in taken ==> AllTaken(taken, safe, if first then ordinal else ordinal - 1)
      decreases TakenFrom(taken, safe, if first then ordinal else ordinal - 1), first
    {
      if !first {
        TakenShrinks(taken, safe, ordinal - 1);
      }
      name := Numbered(safe, ordinal);
      ordinal := ordinal + 1;
      first := false;
    }
    if safe in taken {
      RememberedNext(next, taken, safe, ordinal);
    }
  }

  /** The numbered names below `n` are taken. */
  ghost predicate AllTaken(taken: set<string>, safe: string, n: nat) {
    forall m: nat {:trigger Numbered(safe, m)} :: 2 <= m < n ==> Numbered(safe, m) in taken
  }

  lemma RememberedNext(next: map<string, nat>, taken: set<string>, safe: string, ordinal: nat)
    requires Remembered(next, taken) && ordinal >= 2 && AllTaken(taken, safe, ordinal - 1)
    ensures Remembered(next[safe := ordinal], taken + {Numbered(safe, ordinal - 1)})
  {
  }

  // ----- The whole mapping -----

  /** What becomes of the `j`-th entry: its value, and its own name or the first free one of its row. */
  ghost predicate NamedAt<V(!new)>(value: Entries<V>, project: string -> string, result: Entries<V>, j: nat)
    requires j < |value| && j < |result|
  {
    && result[j].1 == value[j].1
    && if project(value[j].0) == value[j].0 then result[j].0 == value[j].0
       else FirstFree(Keys(result[..j]) + Reserved(value, project), project(value[j].0), result[j].0)
  }

  ghost predicate NamedUpTo<V(!new)>(value: Entries<V>, project: string -> string, result: Entries<V>, i: nat) {
    |result| == i <= |value| && forall j {:trigger NamedAt(value, project, result, j)} ::
                                  0 <= j < i ==> NamedAt(value, project, result, j)
  }

  lemma NamedNext<V(!new)>(value: Entries<V>, project: string -> string, result: Entries<V>, e: (string, V), i: nat)
    requires NamedUpTo(value, project, result, i) && i < |value| && NamedAt(value, project, result + [e], i)
    ensures NamedUpTo(value, project, result + [e], i + 1)
  {
    forall j | 0 <= j < i
      ensures NamedAt(value, project, result + [e], j)
    {
      assert NamedAt(value, project, result, j);
      assert (result + [e])[..j] == result[..j];
    }
  }

  lemma KeysSnoc<V>(es: Entries<V>, e: (string, V))
    ensures Keys(es + [e]) == Keys(es) + {e.0}
  {
    assert (es + [e])[|es|] == e;
    forall k | k in Keys(es)
      ensures k in Keys(es + [e])
    {
      var i :| 0 <= i < |es| && es[i].0 == k;
      assert (es + [e])[i].0 == k;
    }
  }

  /** No earlier entry holds the name of a key that redaction leaves alone. */
  lemma OwnNameIsFree<V(!new)>(value: Entries<V>, project: string -> string, result: Entries<V>, i: nat)
    requires DistinctKeys(value) && NamedUpTo(value, project, result, i) && i < |value|
    requires project(value[i].0) == value[i].0
    ensures value[i].0 !in Keys(result)
  {
    assert value[i].0 in Reserved(value, project);
    forall j | 0 <= j < i
      ensures result[j].0 != value[i].0
    {
      assert NamedAt(value, project, result, j);
    }
  }

  /** One entry out for each entry in, in order, with its value. A key that redaction leaves alone keeps its own
      name whatever collides with it; a changed key gets the first free name of its row. */
  method RedactMappingKeys<V(!new)>(value: Entries<V>, project: string -> string) returns (result: Entries<V>)
    requires DistinctKeys(value)
    ensures |result| == |value| && DistinctKeys(result)
    ensures forall i {:trigger NamedAt(value, project, result, i)} ::
              0 <= i < |value| ==> NamedAt(value, project, result, i)
  {
    result := [];
    var next: map<string, nat> := map[];
    var reserved := Reserved(value, project);
    for i := 0 to |value|
      invariant DistinctKeys(result) && NamedUpTo(value, project, result, i)
      invariant Remembered(next, Keys(result) + reserved) && forall s :: s in next ==> next[s] >= 2
    {
      var key, item, safe := value[i].0, value[i].1, project(value[i].0);
      var taken := Keys(result) + if key != safe then reserved else {};
      if key == safe {
        OwnNameIsFree(value, project, result, i);
      }
      var name, ordinal := Rename(taken, next, safe);
      KeysSnoc(result, (name, item));
      RememberedGrows(next, Keys(result) + reserved, Keys(result + [(name, item)]) + reserved, safe);
      assert (result + [(name, item)])[..i] == result;
      NamedNext(value, project, result, (name, item), i);
      StillDistinct(result, (name, item));
      next := next[safe := ordinal];
      result := result + [(name, item)];
    }
  }

  lemma StillDistinct<V>(es: Entries<V>, e: (string, V))
    requires DistinctKeys(es) && e.0 !in Keys(es)
    ensures DistinctKeys(es + [e])
  {
    forall i | 0 <= i < |es|
      ensures es[i].0 != e.0
    {
      assert es[i].0 in Keys(es);
    }
  }
}
