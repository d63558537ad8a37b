/** Normalisation and identity of findings (runtime/finding_registry.py). */
module FindingKeys {
  import opened Sorting
  import opened Sequences
  import opened Text
  import opened GraphBuilder

  predicate IsWordChar(c: char) {
    'a' <= c <= 'z' || IsDigit(c)
  }

  /** Nonempty runs of letters and digits. */
  predicate IsWord(w: string) {
    w != "" && forall i :: 0 <= i < |w| ==> IsWordChar(w[i])
  }

  function Flush(current: string): seq<string> {
    if current == "" then [] else [current]
  }

  /** `re.findall(r"[a-z0-9]+", value.lower())`, `current` being the run under way. */
  function Words(value: string, current: string): (ws: seq<string>)
    requires forall i :: 0 <= i < |current| ==> IsWordChar(current[i])
    ensures forall w :: w in ws ==> IsWord(w)
    decreases |value|
  {
    if value == "" then Flush(current)
    else if IsWordChar(Lower(value[0])) then Words(value[1..], current + [Lower(value[0])])
    else Flush(current) + Words(value[1..], "")
  }

  function JoinWords(ws: seq<string>): string {
    if ws == [] then "" else if |ws| == 1 then ws[0] else ws[0] + " " + JoinWords(ws[1..])
  }

  /** `_norm` */
  function Norm(value: string): (s: string)
    ensures Normal(s)
  {
    JoinedIsNormal(Words(value, ""));
    JoinWords(Words(value, ""))
  }

  /** Words separated by single spaces: no other character, and none at either end. */
  predicate Normal(s: string) {
    && (forall i :: 0 <= i < |s| ==> IsWordChar(s[i]) || s[i] == ' ')
    && (s != "" ==> IsWordChar(s[0]) && IsWordChar(s[|s| - 1]))
  }

  lemma {:induction false} JoinedIsNormal(ws: seq<string>)
    requires forall w :: w in ws ==> IsWord(w)
    ensures Normal(JoinWords(ws)) && (ws != [] ==> JoinWords(ws) != "")
  {
    if |ws| >= 2 {
      JoinedIsNormal(ws[1..]);
      var head, tail := ws[0], JoinWords(ws[1..]);
      assert IsWord(head);
      var s := head + " " + tail;
      assert s[0] == head[0] && s[|s| - 1] == tail[|tail| - 1];
    } else if |ws| == 1 {
      assert IsWord(ws[0]);
    }
  }

  datatype Key = Key(scope: string, identity: string)

  const ROOT_TERMS := {
    "canonical", "noindex", "robots", "redirect", "schema", "hreflang", "indexation", "rendering", "duplicate",
    "content", "claim", "consent", "availability", "price", "internal", "link", "accessibility", "security"}

  /** `sorted(set(words))` */
  function SortedWords(ws: seq<string>): (r: seq<string>)
    ensures forall w :: w in r <==> w in ws
  {
    var r := SortStrings(Dedupe(ws));
    assert forall w :: w in r <==> w in multiset(r);
    r
  }

  /** `_finding_key`: the root-cause terms of the statement, else its first ten words, within a scope. */
  function FindingKey(scope: string, statement: string): (k: Key)
    ensures Normal(k.scope) && Normal(k.identity)
  {
    var words := SortedWords(Words(statement, ""));
    var roots := Filter(words, (w: string) => w in ROOT_TERMS);
    var named := if roots != [] then roots else Take(words, 10);
    JoinedIsNormal(named);
    Key(Norm(scope), JoinWords(named))
  }

  /** `_record_key_text` */
  function KeyText(k: Key): string {
    k.scope + "::" + k.identity
  }

  /** The text identity is unambiguous: normal parts contain no separator. */
  lemma KeyTextInjective(a: Key, b: Key)
    requires Normal(a.scope) && Normal(a.identity) && Normal(b.scope) && Normal(b.identity)
    requires KeyText(a) == KeyText(b)
    ensures a == b
  {
    var s, t := KeyText(a), KeyText(b);
    assert |a.scope| == |b.scope| by {
      assert s[|a.scope|] == t[|a.scope|] == ':' && s[|b.scope|] == t[|b.scope|] == ':';
    }
    assert a.scope == s[..|a.scope|] && b.scope == t[..|b.scope|];
    assert a.identity == s[|a.scope| + 2..] && b.identity == t[|b.scope| + 2..];
  }

  /** Tuple order on keys. */
  predicate KeyLessEq(a: Key, b: Key) {
    if a.scope == b.scope then LessEq(a.identity, b.identity) else LessEq(a.scope, b.scope)
  }
}
