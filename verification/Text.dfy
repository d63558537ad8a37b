/** The string operations the runtime relies on: code-point order, blank text, decimal rendering. */
module Text {
  import opened Sorting

  predicate Less(a: string, b: string) {
    if b == "" then false
    else if a == "" then true
    else a[0] < b[0] || (a[0] == b[0] && Less(a[1..], b[1..]))
  }

  /** Python's `<=` on strings: lexicographic by code point. */
  predicate LessEq(a: string, b: string) {
    a == b || Less(a, b)
  }

  lemma {:induction false} LessTransitive(a: string, b: string, c: string)
    requires Less(a, b) && Less(b, c)
    ensures Less(a, c)
  {
    if a != "" && a[0] == b[0] == c[0] {
      LessTransitive(a[1..], b[1..], c[1..]);
    }
  }

  lemma {:induction false} LessTrichotomy(a: string, b: string)
    ensures Less(a, b) || Less(b, a) || a == b
    ensures !(Less(a, b) && Less(b, a)) && !Less(a, a)
  {
    if a != "" && b != "" {
      LessTrichotomy(a[1..], b[1..]);
      assert a == [a[0]] + a[1..] && b == [b[0]] + b[1..];
    }
    if a != "" {
      LessTrichotomy(a[1..], a[1..]);
    }
  }

  lemma LessEqIsTotalOrder()
    ensures TotalOrder(LessEq)
  {
    forall a, b
      ensures LessEq(a, b) || LessEq(b, a)
      ensures LessEq(a, b) && LessEq(b, a) ==> a == b
    {
      LessTrichotomy(a, b);
    }
    forall a, b, c | LessEq(a, b) && LessEq(b, c)
      ensures LessEq(a, c)
    {
      if a != b && b != c {
        LessTransitive(a, b, c);
      }
    }
  }

  function SortStrings(s: seq<string>): (r: seq<string>)
    ensures multiset(r) == multiset(s) && |r| == |s|
  {
    Sort(s, LessEq)
  }

  lemma SortStringsCanonical(a: seq<string>, b: seq<string>)
    ensures SortStrings(a) == SortStrings(b) <==> multiset(a) == multiset(b)
  {
    LessEqIsTotalOrder();
    SortCanonical(a, b, LessEq);
  }

  predicate IsSpace(c: char) {
    c in " \t\n\r" || c == 11 as char || c == 12 as char
  }

  /** `not text.strip()` */
  predicate Blank(s: string) {
    forall i :: 0 <= i < |s| ==> IsSpace(s[i])
  }

  /** `value.strip()` */
  function Strip(s: string): string {
    if s == "" then ""
    else if IsSpace(s[0]) then Strip(s[1..])
    else if IsSpace(s[|s| - 1]) then Strip(s[..|s| - 1])
    else s
  }

  /** Text that neither begins nor ends blank is what `strip` leaves of it. */
  lemma Unpadded(s: string)
    requires s != "" && !IsSpace(s[0]) && !IsSpace(s[|s| - 1])
    ensures Strip(s) == s
  {
  }

  predicate IsDigit(c: char) {
    '0' <= c <= '9'
  }

  function Digit(d: nat): (c: char)
    requires d < 10
    ensures IsDigit(c)
  {
    "0123456789"[d]
  }

  /** Decimal digits of `n`, without leading zeros. */
  function Decimal(n: nat): (s: string)
    ensures s != "" && forall i :: 0 <= i < |s| ==> IsDigit(s[i])
    ensures |s| == 1 <==> n < 10
  {
    if n < 10 then [Digit(n)] else Decimal(n / 10) + [Digit(n % 10)]
  }

  lemma {:induction false} DecimalInjective(m: nat, n: nat)
    requires Decimal(m) == Decimal(n)
    ensures m == n
  {
    if m >= 10 && n >= 10 {
      var a, b := Decimal(m / 10), Decimal(n / 10);
      assert Decimal(m) == a + [Digit(m % 10)] && Decimal(n) == b + [Digit(n % 10)];
      assert Decimal(m)[..|Decimal(m)| - 1] == a && Decimal(n)[..|Decimal(n)| - 1] == b;
      assert Decimal(m)[|Decimal(m)| - 1] == Digit(m % 10);
      DecimalInjective(m / 10, n / 10);
    }
  }

  /** Python's `f"{n:02d}"`. */
  function Padded(n: nat): (s: string)
    ensures s != "" && forall i :: 0 <= i < |s| ==> IsDigit(s[i])
  {
    if n < 10 then "0" + Decimal(n) else Decimal(n)
  }

  lemma PaddedInjective(m: nat, n: nat)
    requires m > 0 && n > 0 && Padded(m) == Padded(n)
    ensures m == n
  {
    if m < 10 && n < 10 {
      assert Padded(m)[1..] == Decimal(m) && Padded(n)[1..] == Decimal(n);
      DecimalInjective(m, n);
    } else if m >= 10 && n >= 10 {
      DecimalInjective(m, n);
    } else {
      DecimalLeadingDigit(if m < 10 then n else m);
    }
  }

  lemma {:induction false} DecimalLeadingDigit(n: nat)
    requires n > 0
    ensures Decimal(n)[0] != '0'
  {
    if n >= 10 {
      DecimalLeadingDigit(n / 10);
      assert Decimal(n)[0] == Decimal(n / 10)[0];
    }
  }

  /** Where the last character outside `tail`-style digits sits: two texts that end in digits after a
      common separator split the same way. */
  lemma SplitAtLastSeparator(a: string, x: string, b: string, y: string, sep: char)
    requires !IsDigit(sep)
    requires forall i :: 0 <= i < |x| ==> IsDigit(x[i])
    requires forall i :: 0 <= i < |y| ==> IsDigit(y[i])
    requires a + [sep] + x == b + [sep] + y
    ensures a == b && x == y
  {
    var s, t := a + [sep] + x, b + [sep] + y;
    assert |a| == |b| by {
      assert s[|a|] == t[|a|] == sep && s[|b|] == t[|b|] == sep;
    }
    assert a == s[..|a|] && b == s[..|b|];
    assert x == s[|a| + 1..] && y == s[|b| + 1..];
  }
}
