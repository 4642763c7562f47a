/**
  The scan for slash-delimited candidates and the VTEC codes read from them. `Candidates` says what
  the scan computes: split at every slash, and put each inner piece between slashes again. A line break
  is a character like any other.
*/
module SlashScan {
  import opened Wrappers
  import opened Text

  /** Every piece but the last, between slashes. */
  function Enclosed(pieces: seq<string>): seq<string> {
    if |pieces| < 2 then [] else ["/" + pieces[0] + "/"] + Enclosed(pieces[1..])
  }

  function Candidates(text: string): seq<string> {
    Enclosed(Split(text, "/")[1..])
  }

  function Choice(accepts: string -> bool): string -> seq<string> {
    candidate => if accepts(candidate) then [candidate] else []
  }

  function Chosen(candidates: seq<string>, accepts: string -> bool): seq<string> {
    Each(candidates, Choice(accepts))
  }

  lemma {:induction false} FirstPiece(s: string, n: nat)
    requires n <= |s| && (n == |s| || s[n] == '/') && forall i :: 0 <= i < n ==> s[i] != '/'
    ensures Split(s, "/")[0] == s[..n] && (|Split(s, "/")| == 1 <==> n == |s|)
  {
    if n > 0 {
      FirstPiece(s[1..], n - 1);
      assert [s[0]] + s[1..][..n - 1] == s[..n];
    }
  }

  /** The scan of a text from its next character on. */
  lemma CandidateStep(s: string, n: Option<nat>)
    requires s != []
    requires n.Some? ==> 1 <= n.value < |s| && s[n.value] == '/'
    requires forall i :: 1 <= i < (if n.Some? then n.value else |s|) ==> s[i] != '/'
    ensures Candidates(s) == (if s[0] == '/' && n.Some? then [s[..n.value + 1]] else []) + Candidates(s[1..])
  {
    if s[0] == '/' {
      SlashStep(s, n);
    }
  }

  lemma SlashStep(s: string, n: Option<nat>)
    requires s != [] && s[0] == '/'
    requires n.Some? ==> 1 <= n.value < |s| && s[n.value] == '/'
    requires forall i :: 1 <= i < (if n.Some? then n.value else |s|) ==> s[i] != '/'
    ensures Candidates(s) == (if n.Some? then [s[..n.value + 1]] else []) + Candidates(s[1..])
  {
    var rest := s[1..];
    var pieces := Split(rest, "/");
    FirstPiece(rest, if n.Some? then n.value - 1 else |rest|);
    EnclosedFirst(rest, pieces);
    assert Split(s, "/")[1..] == pieces;
    if n.Some? {
      assert "/" + rest[..n.value - 1] + "/" == s[..n.value + 1];
    }
  }

  lemma EnclosedFirst(text: string, pieces: seq<string>)
    requires pieces == Split(text, "/")
    ensures Enclosed(pieces) == (if |pieces| < 2 then [] else ["/" + pieces[0] + "/"]) + Candidates(text)
  {
  }

  /** The next slash after `start`, whatever lies between. */
  method NextSlash(text: string, start: nat) returns (end: Option<nat>)
    requires start < |text|
    ensures end.Some? ==> start < end.value < |text| && text[end.value] == '/'
    ensures forall i :: start < i < (if end.Some? then end.value else |text|) ==> text[i] != '/'
  {
    for index := start + 1 to |text|
      invariant forall i :: start < i < index ==> text[i] != '/'
    {
      if text[index] == '/' {
        return Some(index);
      }
    }
    end := None;
  }

  /** What the scan finds from `start` on. */
  ghost function Scan(text: string, start: nat, accepts: string -> bool): seq<string>
    requires start <= |text|
  {
    Chosen(Candidates(text[start..]), accepts)
  }

  lemma ScanEnds(text: string, accepts: string -> bool)
    ensures Scan(text, 0, accepts) == Chosen(Candidates(text), accepts)
    ensures Scan(text, |text|, accepts) == []
  {
    assert text[0..] == text;
    assert Candidates(text[|text|..]) == [];
  }

  /** One turn of the scanning loop. */
  lemma ScanStep(text: string, start: nat, end: Option<nat>, accepts: string -> bool)
    requires start < |text|
    requires end.Some? ==> start < end.value < |text| && text[end.value] == '/'
    requires forall i :: start < i < (if end.Some? then end.value else |text|) ==> text[i] != '/'
    ensures var rest := Scan(text, start + 1, accepts);
            Scan(text, start, accepts) ==
              if text[start] == '/' && end.Some? && accepts(text[start..end.value + 1]) then [text[start..end.value + 1]] + rest else rest
  {
    var s := text[start..];
    assert s[1..] == text[start + 1..];
    CandidateStep(s, if end.Some? then Some(end.value - start) else None);
    if text[start] == '/' && end.Some? {
      assert text[start..end.value + 1] == s[..end.value - start + 1];
      EachConcat([text[start..end.value + 1]], Candidates(s[1..]), Choice(accepts));
      EachOne(text[start..end.value + 1], Choice(accepts));
    }
  }

  /** The scan has found `candidates` before `start`. */
  ghost predicate Scanned(text: string, start: nat, accepts: string -> bool, candidates: seq<string>)
    requires start <= |text|
  {
    Scan(text, 0, accepts) == candidates + Scan(text, start, accepts)
  }

  lemma ScanMoves(text: string, start: nat, end: Option<nat>, accepts: string -> bool, candidates: seq<string>)
    requires start < |text| && Scanned(text, start, accepts, candidates)
    requires end.Some? ==> start < end.value < |text| && text[end.value] == '/'
    requires forall i :: start < i < (if end.Some? then end.value else |text|) ==> text[i] != '/'
    ensures Scanned(text, start + 1, accepts,
                    if text[start] == '/' && end.Some? && accepts(text[start..end.value + 1]) then candidates + [text[start..end.value + 1]]
                    else candidates)
  {
    ScanStep(text, start, end, accepts);
    var rest := Scan(text, start + 1, accepts);
    if text[start] == '/' && end.Some? {
      assert candidates + ([text[start..end.value + 1]] + rest) == (candidates + [text[start..end.value + 1]]) + rest;
    }
  }

  /** `scan_slash_delimited_candidates` */
  method ScanSlashDelimited(text: string, accepts: string -> bool) returns (candidates: seq<string>)
    ensures candidates == Chosen(Candidates(text), accepts)
  {
    candidates := [];
    ScanEnds(text, accepts);
    for start := 0 to |text|
      invariant Scanned(text, start, accepts, candidates)
    {
      var end := NextSlash(text, start);
      ScanMoves(text, start, end, accepts, candidates);
      if text[start] == '/' && end.Some? {
        var candidate := text[start..end.value + 1];
        if accepts(candidate) {
          candidates := candidates + [candidate];
        }
      }
    }
  }

  // ---------------------------------------------------------------- codes

  function Value<C, I>(parse: string -> Result<C, I>): string -> seq<C> {
    candidate => match parse(candidate) case Ok(code) => [code] case Err(_) => []
  }

  function Issue<C, I>(parse: string -> Result<C, I>): string -> seq<I> {
    candidate => match parse(candidate) case Ok(_) => [] case Err(issue) => [issue]
  }

  /** An upper-case letter and a dot after the slash. */
  predicate VtecShaped(candidate: string) {
    |candidate| > 2 && Upper(candidate[1]) && candidate[2] == '.'
  }

  /** The codes that `parse` reads from the candidates. */
  function Read<C, I>(candidates: seq<string>, parse: string -> Result<C, I>): seq<C> {
    Each(Chosen(candidates, VtecShaped), Value(parse))
  }

  function Codes<C, I>(text: string, parse: string -> Result<C, I>): seq<C> {
    Read(Candidates(text), parse)
  }

  lemma ParseNext<C, I>(candidates: seq<string>, i: nat, parse: string -> Result<C, I>)
    requires i < |candidates|
    ensures var codes, issues := Each(candidates[..i], Value(parse)), Each(candidates[..i], Issue(parse));
            match parse(candidates[i])
            case Ok(code) => Each(candidates[..i + 1], Value(parse)) == codes + [code] && Each(candidates[..i + 1], Issue(parse)) == issues
            case Err(issue) => Each(candidates[..i + 1], Value(parse)) == codes && Each(candidates[..i + 1], Issue(parse)) == issues + [issue]
  {
    EachNext(candidates, i, Value(parse));
    EachNext(candidates, i, Issue(parse));
  }

  /** `parse_vtec_codes_with_issues`: every shaped candidate gives one code or one issue, in text order. */
  method ParseVtecCodes<C, I>(text: string, parse: string -> Result<C, I>) returns (codes: seq<C>, issues: seq<I>)
    ensures codes == Codes(text, parse)
    ensures issues == Each(Chosen(Candidates(text), VtecShaped), Issue(parse))
    ensures |codes| + |issues| == |Chosen(Candidates(text), VtecShaped)|
  {
    codes, issues := [], [];
    var candidates := ScanSlashDelimited(text, VtecShaped);
    for i := 0 to |candidates|
      invariant codes == Each(candidates[..i], Value(parse)) && issues == Each(candidates[..i], Issue(parse))
      invariant |codes| + |issues| == i
    {
      ParseNext(candidates, i, parse);
      match parse(candidates[i]) {
        case Ok(code) => codes := codes + [code];
        case Err(issue) => issues := issues + [issue];
      }
    }
    assert candidates[..|candidates|] == candidates;
  }

  lemma ReadConcat<C, I>(a: seq<string>, b: seq<string>, parse: string -> Result<C, I>)
    ensures Read(a + b, parse) == Read(a, parse) + Read(b, parse)
  {
    EachConcat(a, b, Choice(VtecShaped));
    EachConcat(Chosen(a, VtecShaped), Chosen(b, VtecShaped), Value(parse));
  }

  // ---------------------------------------------------------------- text in two parts

  /** The last piece of one text and the first of the next run together. */
  function Glue(x: seq<string>, y: seq<string>): seq<string>
    requires x != [] && y != []
  {
    x[..|x| - 1] + [x[|x| - 1] + y[0]] + y[1..]
  }

  lemma GlueStep(x: seq<string>, y: seq<string>, c: char)
    requires x != [] && y != []
    ensures Glue([""] + x, y) == [""] + Glue(x, y)
    ensures Glue([[c] + x[0]] + x[1..], y) == [[c] + Glue(x, y)[0]] + Glue(x, y)[1..]
  {
    assert ([""] + x)[..|x|] == [""] + x[..|x| - 1];
    if |x| == 1 {
      assert [c] + (x[0] + y[0]) == [c] + x[0] + y[0];
    } else {
      assert ([[c] + x[0]] + x[1..])[..|x| - 1] == [[c] + x[0]] + x[1..|x| - 1];
    }
  }

  lemma {:induction false} SplitConcat(a: string, b: string, seps: string)
    ensures Split(a + b, seps) == Glue(Split(a, seps), Split(b, seps))
  {
    if a == [] {
      assert a + b == b;
      assert "" + Split(b, seps)[0] == Split(b, seps)[0];
    } else {
      assert (a + b)[1..] == a[1..] + b;
      SplitConcat(a[1..], b, seps);
      GlueStep(Split(a[1..], seps), Split(b, seps), a[0]);
    }
  }

  lemma {:induction false} SlashesSplit(s: string)
    ensures |Split(s, "/")| > 1 <==> '/' in s
  {
    if s != [] {
      SlashesSplit(s[1..]);
      assert s == [s[0]] + s[1..];
    }
  }

  lemma {:induction false} EnclosedConcat(a: seq<string>, x: string, b: seq<string>)
    ensures Enclosed(a + [x] + b) == Enclosed(a + [x]) + (if b == [] then [] else ["/" + x + "/"] + Enclosed(b))
  {
    if a == [] {
      assert a + [x] + b == [x] + b;
      assert ([x] + b)[1..] == b;
    } else {
      assert (a + [x] + b)[1..] == a[1..] + [x] + b && (a + [x])[1..] == a[1..] + [x];
      EnclosedConcat(a[1..], x, b);
    }
  }

  lemma {:induction false} EnclosedIgnoresLast(a: seq<string>, x: string, y: string)
    ensures Enclosed(a + [x]) == Enclosed(a + [y])
  {
    if a != [] {
      assert (a + [x])[1..] == a[1..] + [x] && (a + [y])[1..] == a[1..] + [y];
      EnclosedIgnoresLast(a[1..], x, y);
    }
  }

  /** The candidate that runs from the last slash of `a` to the first slash of `b`. */
  function Crossing(a: string, b: string): seq<string> {
    var x, y := Split(a, "/"), Split(b, "/");
    if '/' in a && '/' in b then ["/" + (x[|x| - 1] + y[0]) + "/"] else []
  }

  /** What stands between slashes in pieces that were glued together. */
  lemma EnclosedGlue(x: seq<string>, y: seq<string>)
    requires x != [] && y != []
    ensures Enclosed(Glue(x, y)[1..]) ==
            Enclosed(x[1..]) + (if |x| > 1 && |y| > 1 then ["/" + (x[|x| - 1] + y[0]) + "/"] else []) + Enclosed(y[1..])
  {
    var middle, last := x[|x| - 1] + y[0], x[|x| - 1];
    if |x| == 1 {
      assert Glue(x, y)[1..] == y[1..];
    } else {
      var front := x[1..|x| - 1];
      assert Glue(x, y)[1..] == front + [middle] + y[1..];
      EnclosedConcat(front, middle, y[1..]);
      EnclosedIgnoresLast(front, middle, last);
      assert front + [last] == x[1..];
    }
  }

  lemma CandidatesConcat(a: string, b: string)
    ensures Candidates(a + b) == Candidates(a) + Crossing(a, b) + Candidates(b)
  {
    SplitConcat(a, b, "/");
    SlashesSplit(a);
    SlashesSplit(b);
    EnclosedGlue(Split(a, "/"), Split(b, "/"));
  }

  /**
    Two texts on either side of a line break: first the candidates of the one, then one that crosses the
    break exactly if both hold a slash, then those of the other.
  */
  lemma CandidatesAcross(a: string, b: string)
    ensures Candidates(a + ['\n'] + b) == Candidates(a) + Crossing(a, ['\n'] + b) + Candidates(b)
    ensures |Crossing(a, ['\n'] + b)| == if '/' in a && '/' in b then 1 else 0
    ensures forall i :: 0 <= i < |Crossing(a, ['\n'] + b)| ==> '\n' in Crossing(a, ['\n'] + b)[i]
  {
    var c := ['\n'] + b;
    assert c[1..] == b;
    assert a + ['\n'] + b == a + c;
    CandidatesConcat(a, c);
    assert '/' in c <==> '/' in b;
    if '/' in a && '/' in c {
      var x, y := Split(a, "/"), Split(c, "/");
      assert y[0][0] == '\n';
      var whole := "/" + (x[|x| - 1] + y[0]) + "/";
      assert whole[1 + |x[|x| - 1]|] == '\n';
    }
  }

  lemma CodesAcross<C, I>(a: string, b: string, parse: string -> Result<C, I>)
    ensures Codes(a + ['\n'] + b, parse) == Codes(a, parse) + Read(Crossing(a, ['\n'] + b), parse) + Codes(b, parse)
  {
    CandidatesAcross(a, b);
    ReadConcat(Candidates(a) + Crossing(a, ['\n'] + b), Candidates(b), parse);
    ReadConcat(Candidates(a), Crossing(a, ['\n'] + b), parse);
  }

  /** What stands between two slashes is one candidate. */
  lemma OneCandidate(middle: string)
    requires '/' !in middle
    ensures Candidates("/" + middle + "/") == ["/" + middle + "/"]
  {
    var s := "/" + middle + "/";
    assert s[1..] == middle + ['/'] + "";
    SplitPlain(middle, "/");
    SplitJoin(middle, '/', "", "/");
    assert Split("", "/") == [""];
    assert Split(s, "/")[1..] == [middle, ""];
    var pieces := [middle, ""];
    assert pieces[1..] == [""];
    assert Enclosed(pieces) == ["/" + middle + "/"] + Enclosed(pieces[1..]);
  }

  /** A line break between two slashes does not end the candidate. */
  lemma CandidateCrossesLines(a: string, b: string)
    requires '/' !in a && '/' !in b
    ensures Candidates("/" + a + "\n" + b + "/") == ["/" + a + "\n" + b + "/"]
  {
    var middle := a + "\n" + b;
    OneCandidate(middle);
    assert "/" + middle + "/" == "/" + a + "\n" + b + "/";
  }

  /** Between two slashes a code is read exactly if an upper-case letter and a dot come first and the parser accepts it. */
  lemma CodeBetweenSlashes<C, I>(middle: string, parse: string -> Result<C, I>)
    requires '/' !in middle
    ensures var text := "/" + middle + "/";
            Codes(text, parse) ==
              if |middle| >= 2 && 'A' <= middle[0] <= 'Z' && middle[1] == '.' && parse(text).Ok? then [parse(text).value] else []
  {
    var text := "/" + middle + "/";
    OneCandidate(middle);
    EachOne(text, Choice(VtecShaped));
    if VtecShaped(text) {
      EachOne(text, Value(parse));
    }
    assert |middle| >= 1 ==> text[1] == middle[0];
    assert |middle| >= 2 ==> text[2] == middle[1];
    assert |middle| == 1 ==> text[2] == '/';
  }
}
