/** JSON Pointers as RFC 6901 defines them (section 3 the syntax, section 4 the evaluation), and the runtime's
    rendering of them. */
module JsonPointers {
  import opened Wrappers
  import opened Sequences
  import opened EvidenceDrift

  // ----- Escaping -----

  lemma ReplaceConcat(a: string, b: string, c: char, with: string)
    ensures ReplaceChar(a + b, c, with) == ReplaceChar(a, c, with) + ReplaceChar(b, c, with)
  {
    FlattenConcat(a, b, Substitute(c, with));
  }

  lemma EscapeNext(c: char, rest: string)
    ensures Escape([c] + rest) == EscapeChar(c) + Escape(rest)
  {
    var head := if c == '~' then "~0" else [c];
    assert ([c] + rest)[1..] == rest;
    assert ReplaceChar([c] + rest, '~', "~0") == head + ReplaceChar(rest, '~', "~0");
    ReplaceConcat(head, ReplaceChar(rest, '~', "~0"), '/', "~1");
    if c == '~' {
      assert ReplaceChar("~0", '/', "~1") == "~" + ReplaceChar("0", '/', "~1");
    }
  }

  /** Section 4: first `~1` becomes `/` ... */
  function UnescapeSlash(s: string): string {
    if s == "" then ""
    else if |s| >= 2 && s[0] == '~' && s[1] == '1' then "/" + UnescapeSlash(s[2..])
    else [s[0]] + UnescapeSlash(s[1..])
  }

  /** ... then `~0` becomes `~`. */
  function UnescapeTilde(s: string): string {
    if s == "" then ""
    else if |s| >= 2 && s[0] == '~' && s[1] == '0' then "~" + UnescapeTilde(s[2..])
    else [s[0]] + UnescapeTilde(s[1..])
  }

  function Unescape(s: string): string {
    UnescapeTilde(UnescapeSlash(s))
  }

  lemma UnescapeSlashNext(c: char, e: string)
    ensures UnescapeSlash(EscapeChar(c) + e) == (if c == '~' then "~0" else [c]) + UnescapeSlash(e)
  {
    var s := EscapeChar(c) + e;
    if c == '~' {
      assert s[1..] == "0" + e && ("0" + e)[1..] == e;
    } else if c == '/' {
      assert s[2..] == e;
    } else {
      assert s[1..] == e;
    }
  }

  lemma {:induction false} SlashUndone(token: string)
    ensures UnescapeSlash(Escape(token)) == ReplaceChar(token, '~', "~0")
    ensures '/' !in Escape(token)
  {
    if token != "" {
      assert token == [token[0]] + token[1..];
      SlashUndone(token[1..]);
      EscapeNext(token[0], token[1..]);
      UnescapeSlashNext(token[0], Escape(token[1..]));
    }
  }

  lemma {:induction false} TildeUndone(token: string)
    ensures UnescapeTilde(ReplaceChar(token, '~', "~0")) == token
  {
    if token != "" {
      var r := ReplaceChar(token[1..], '~', "~0");
      TildeUndone(token[1..]);
      if token[0] == '~' {
        assert ("~0" + r)[2..] == r;
      } else {
        assert ([token[0]] + r)[1..] == r;
      }
    }
  }

  /** Section 4 of RFC 6901 undoes the runtime's escaping, for every token. */
  lemma UnescapeEscape(token: string)
    ensures Unescape(Escape(token)) == token
  {
    SlashUndone(token);
    TildeUndone(token);
  }

  // ----- Whole pointers -----

  function Token(key: string): string {
    "/" + Escape(key)
  }

  /** The path the runtime builds on its way down through `keys`. */
  function Render(keys: seq<string>): string {
    Flatten(keys, Token)
  }

  lemma RenderChild(keys: seq<string>, key: string)
    ensures Render(keys + [key]) == Child(Render(keys), key)
  {
    FlattenNext(keys, key, Token);
    assert Render(keys) + Token(key) == Child(Render(keys), key);
  }

  /** Reference tokens of what follows a `/`, `current` being the one under way. */
  function Split(s: string, current: string): (r: seq<string>)
    decreases |s|
  {
    if s == "" then [Unescape(current)]
    else if s[0] == '/' then [Unescape(current)] + Split(s[1..], "")
    else Split(s[1..], current + [s[0]])
  }

  /** Section 3: the empty string, or tokens each preceded by `/`. */
  function Parse(pointer: string): Option<seq<string>> {
    if pointer == "" then Some([])
    else if pointer[0] != '/' then None
    else Some(Split(pointer[1..], ""))
  }

  lemma {:induction false} SplitSkips(e: string, rest: string, current: string)
    requires '/' !in e
    ensures Split(e + rest, current) == Split(rest, current + e)
    decreases |e|
  {
    if e == "" {
      assert e + rest == rest && current + e == current;
    } else {
      SplitSkips(e[1..], rest, current + [e[0]]);
      assert (e + rest)[1..] == e[1..] + rest;
      assert current + [e[0]] + e[1..] == current + e;
    }
  }

  lemma RenderFirst(keys: seq<string>)
    requires keys != []
    ensures Render(keys) == "/" + Escape(keys[0]) + Render(keys[1..])
  {
  }

  /** A token ends where the text ends or the next `/` stands. */
  lemma SplitToken(e: string, rest: string)
    requires '/' !in e && (rest == "" || rest[0] == '/')
    ensures Split(e + rest, "") == [Unescape(e)] + (if rest == "" then [] else Split(rest[1..], ""))
  {
    SplitSkips(e, rest, "");
    assert "" + e == e;
  }

  lemma {:induction false} SplitRendered(keys: seq<string>)
    requires keys != []
    ensures Render(keys) != "" && Render(keys)[0] == '/'
    ensures Split(Render(keys)[1..], "") == keys
  {
    var e, rest := Escape(keys[0]), Render(keys[1..]);
    if keys[1..] != [] {
      SplitRendered(keys[1..]);
    }
    RenderFirst(keys);
    assert Render(keys)[1..] == e + rest;
    SlashUndone(keys[0]);
    UnescapeEscape(keys[0]);
    SplitToken(e, rest);
    assert keys == [keys[0]] + keys[1..];
  }

  /** Every rendered path is a pointer that evaluates to exactly the keys it was built from. */
  lemma ParseRender(keys: seq<string>)
    ensures Parse(Render(keys)) == Some(keys)
  {
    if keys != [] {
      SplitRendered(keys);
    }
  }
}
