/** Splitting, trimming and joining of text, as Rust's `str` methods do them. */
module Text {
  /** `str::split`: the pieces between separators, at least one. */
  function Split(s: string, seps: string): (r: seq<string>)
    ensures |r| >= 1
  {
    if s == [] then [""]
    else
      var rest := Split(s[1..], seps);
      if s[0] in seps then [""] + rest else [[s[0]] + rest[0]] + rest[1..]
  }

  /** White space of Unicode, as `char::is_whitespace`. */
  predicate Space(c: char) {
    || '\U{9}' <= c <= '\U{D}' || c == ' ' || c == '\U{85}' || c == '\U{A0}' || c == '\U{1680}'
    || '\U{2000}' <= c <= '\U{200A}' || c == '\U{2028}' || c == '\U{2029}' || c == '\U{202F}' || c == '\U{205F}' || c == '\U{3000}'
  }

  function TrimStart(s: string): string {
    if s != [] && Space(s[0]) then TrimStart(s[1..]) else s
  }

  function TrimEnd(s: string): string {
    if s != [] && Space(s[|s| - 1]) then TrimEnd(s[..|s| - 1]) else s
  }

  function Trim(s: string): string {
    TrimStart(TrimEnd(s))
  }

  predicate Digit(c: char) {
    '0' <= c <= '9'
  }

  predicate AllDigits(s: string) {
    forall i :: 0 <= i < |s| ==> Digit(s[i])
  }

  function DecimalValue(s: string): nat
    requires AllDigits(s)
  {
    if s == [] then 0 else 10 * DecimalValue(s[..|s| - 1]) + (s[|s| - 1] - '0') as int
  }

  function DigitOf(d: nat): (c: char)
    requires d < 10
    ensures Digit(c) && (c - '0') as int == d
  {
    '0' + d as char
  }

  predicate Upper(c: char) {
    'A' <= c <= 'Z'
  }

  /** `join`: the texts with one separator between neighbours. */
  function Join(xs: seq<string>, sep: char): string
    requires xs != []
  {
    if |xs| == 1 then xs[0] else Join(xs[..|xs| - 1], sep) + [sep] + xs[|xs| - 1]
  }

  /** One character in front of the pieces of two texts. */
  lemma FirstChar(c: char, a: seq<string>, b: seq<string>)
    requires a != []
    ensures [""] + (a + b) == [""] + a + b
    ensures [[c] + (a + b)[0]] + (a + b)[1..] == [[c] + a[0]] + a[1..] + b
  {
    assert (a + b)[1..] == a[1..] + b;
  }

  lemma {:induction false} SplitJoin(x: string, sep: char, y: string, seps: string)
    requires sep in seps
    ensures Split(x + [sep] + y, seps) == Split(x, seps) + Split(y, seps)
  {
    var s := x + [sep] + y;
    if x == [] {
      assert s[1..] == y;
    } else {
      assert s[1..] == x[1..] + [sep] + y;
      SplitJoin(x[1..], sep, y, seps);
      FirstChar(x[0], Split(x[1..], seps), Split(y, seps));
    }
  }

  lemma {:induction false} SplitPlain(s: string, seps: string)
    requires forall i :: 0 <= i < |s| ==> s[i] !in seps
    ensures Split(s, seps) == [s]
  {
    if s != [] {
      SplitPlain(s[1..], seps);
      assert [s[0]] + s[1..] == s;
    }
  }

  // ---------------------------------------------------------------- text by text

  /** What `f` finds in each text by itself, in order. */
  function Each<T>(texts: seq<string>, f: string -> seq<T>): seq<T> {
    if texts == [] then [] else Each(texts[..|texts| - 1], f) + f(texts[|texts| - 1])
  }

  lemma {:induction false} EachConcat<T>(a: seq<string>, b: seq<string>, f: string -> seq<T>)
    ensures Each(a + b, f) == Each(a, f) + Each(b, f)
  {
    if b == [] {
      assert a + b == a;
    } else {
      var n := |b| - 1;
      assert (a + b)[..|a| + n] == a + b[..n];
      EachConcat(a, b[..n], f);
    }
  }

  lemma EachNext<T>(texts: seq<string>, i: nat, f: string -> seq<T>)
    requires i < |texts|
    ensures Each(texts[..i + 1], f) == Each(texts[..i], f) + f(texts[i])
  {
    assert texts[..i + 1][..i] == texts[..i];
  }

  lemma EachOne<T>(text: string, f: string -> seq<T>)
    ensures Each([text], f) == f(text)
  {
    assert [text][..0] == [];
  }

  // ---------------------------------------------------------------- white space

  ghost predicate Blank(s: string) {
    forall i :: 0 <= i < |s| ==> Space(s[i])
  }

  /** White space at the two ends of the ASCII range. */
  lemma AsciiSpace(c: char)
    ensures c == ' ' || c == '\t' || c == '\n' || c == '\r' ==> Space(c)
    ensures '!' <= c <= '~' ==> !Space(c)
  {
  }

  lemma {:induction false} TrimStartIs(a: string, m: string)
    requires Blank(a) && (m == [] || !Space(m[0]))
    ensures TrimStart(a + m) == m
  {
    if a == [] {
      assert a + m == m;
    } else {
      assert (a + m)[1..] == a[1..] + m;
      TrimStartIs(a[1..], m);
    }
  }

  lemma {:induction false} TrimEndIs(m: string, b: string)
    requires Blank(b) && (m == [] || !Space(m[|m| - 1]))
    ensures TrimEnd(m + b) == m
  {
    if b == [] {
      assert m + b == m;
    } else {
      assert (m + b)[..|m + b| - 1] == m + b[..|b| - 1];
      TrimEndIs(m, b[..|b| - 1]);
    }
  }

  lemma {:induction false} TrimStartParts(s: string) returns (a: string)
    ensures Blank(a) && s == a + TrimStart(s) && (TrimStart(s) == [] || !Space(TrimStart(s)[0]))
  {
    a := [];
    if s != [] && Space(s[0]) {
      var rest := TrimStartParts(s[1..]);
      a := [s[0]] + rest;
      assert s == [s[0]] + s[1..];
    }
  }

  lemma {:induction false} TrimEndParts(s: string) returns (b: string)
    ensures Blank(b) && s == TrimEnd(s) + b && (TrimEnd(s) == [] || !Space(TrimEnd(s)[|TrimEnd(s)| - 1]))
  {
    b := [];
    if s != [] && Space(s[|s| - 1]) {
      var rest := TrimEndParts(s[..|s| - 1]);
      b := rest + [s[|s| - 1]];
      assert s == s[..|s| - 1] + [s[|s| - 1]];
    }
  }
}
