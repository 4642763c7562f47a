/** What the VTEC split keeps: the order of the lines and every code that parses on a line. */
module VtecLaws {
  import opened Wrappers
  import opened Text
  import opened SlashScan
  import opened LineRuns
  import opened VtecSegments

  /**
    Segments are disjoint ranges of lines in input order; in each a code parses, the first line is event
    content and not blank, no line is `$$`, no UGC start comes after a VTEC line, and no VTEC line after both a VTEC and
    a geography line.
  */
  lemma SegmentsKeepOrder<C, I>(p: Parsers<C, I>, lines: seq<string>)
    ensures var segments := Segments(p, lines);
            && InOrder(segments)
            && forall i :: 0 <= i < |segments| ==> WellFormed(Marked(p, lines), segments[i]) && HasVtec(p, TextOf(lines, segments[i]))
  {
    var ms, keeps, segments := Marked(p, lines), Keeps(p, lines), Segments(p, lines);
    var runs := Runs(ms, 0);
    RunsGroup(ms, 0);
    FilterKeepsOrder(runs, keeps);
    FilterMembers(runs, keeps);
    forall i | 0 <= i < |segments| ensures WellFormed(ms, segments[i]) && HasVtec(p, TextOf(lines, segments[i])) {
      var s := segments[i];
      assert s in runs && keeps(s);
      RunIsWellFormed(ms, s);
    }
  }

  // ---------------------------------------------------------------- where segments end and what they take in

  /** Why a segment is over: the next line is `$$`, or the segment holds a VTEC line and the next line is a UGC start,
      or it holds a VTEC and a geography line and the next line is a VTEC line. */
  ghost predicate Stops<C, I>(p: Parsers<C, I>, lines: seq<string>, s: Span)
    requires s.hi < |lines|
  {
    var next := lines[s.hi];
    || IsDelimiter(next)
    || (exists k :: s.lo <= k < s.hi && HasVtec(p, lines[k]) && IsUgcStart(next))
    || (exists k, g :: s.lo <= k < s.hi && HasVtec(p, lines[k]) && s.lo <= g < s.hi && HasGeography(lines[g]) && HasVtec(p, next))
  }

  lemma SpanStops<C, I>(p: Parsers<C, I>, lines: seq<string>, s: Span)
    requires Run(Marked(p, lines), s) && s.hi < |lines|
    ensures Stops(p, lines, s)
  {
    var ms := Marked(p, lines);
    RunStops(ms, s);
    if k :| s.lo <= k < s.hi && ms[k].vtec && ms[s.hi].ugcStart {
      assert HasVtec(p, lines[k]);
    } else if k, g :| s.lo <= k < s.hi && ms[k].vtec && s.lo <= g < s.hi && ms[g].geography && ms[s.hi].vtec {
      assert HasVtec(p, lines[k]) && HasGeography(lines[g]);
    }
  }

  /** Segments are not cut too often: each reaches the last line, or stops for one of these reasons. */
  lemma SegmentsStop<C, I>(p: Parsers<C, I>, lines: seq<string>)
    ensures forall s :: s in Segments(p, lines) && s.hi < |lines| ==> Stops(p, lines, s)
  {
    var runs := Runs(Marked(p, lines), 0);
    RunsGroup(Marked(p, lines), 0);
    FilterMembers(runs, Keeps(p, lines));
    forall s | s in Segments(p, lines) && s.hi < |lines| ensures Stops(p, lines, s) {
      var i :| 0 <= i < |runs| && runs[i] == s;
      SpanStops(p, lines, s);
    }
  }

  /** Event content of some kind. */
  ghost predicate IsContent<C, I>(p: Parsers<C, I>, line: string) {
    (IsUgcStart(line) || HasVtec(p, line) || HasGeography(line) || HasWindHail(line) || p.hvtec(line)) && Trim(line) != ""
  }

  lemma CoveringRun<C, I>(p: Parsers<C, I>, lines: seq<string>, i: nat) returns (s: Span)
    requires i < |lines| && IsContent(p, lines[i]) && !IsDelimiter(lines[i])
    ensures s in Runs(Marked(p, lines), 0) && Run(Marked(p, lines), s) && Covers(s, i)
  {
    var ms := Marked(p, lines);
    var runs := Runs(ms, 0);
    RunsGroup(ms, 0);
    assert ms[i].Opens();
    assert Covered(runs, i);
    var r :| 0 <= r < |runs| && Covers(runs[r], i);
    s := runs[r];
  }

  lemma RunWithCode<C(!new), I>(p: Parsers<C, I>, lines: seq<string>, s: Span, k: nat)
    requires s in Runs(Marked(p, lines), 0) && s.hi <= |lines| && Covers(s, k) && HasVtec(p, lines[k])
    ensures s in Segments(p, lines)
  {
    CodesOfLine(p, lines, s, k);
    HoldsSome(Codes(TextOf(lines, s), p.vtec), Codes(lines[k], p.vtec));
    FilterMembers(Runs(Marked(p, lines), 0), Keeps(p, lines));
  }

  /** A UGC start is in the segment of the first VTEC line after it, unless `$$` comes between them. */
  lemma HeadingJoinsCode<C(!new), I>(p: Parsers<C, I>, lines: seq<string>, i: nat, k: nat) returns (s: Span)
    requires i <= k < |lines| && IsUgcStart(lines[i]) && HasVtec(p, lines[k])
    requires forall m :: i <= m < k ==> !HasVtec(p, lines[m])
    requires forall m :: i <= m <= k ==> !IsDelimiter(lines[m])
    ensures s in Segments(p, lines) && Covers(s, i) && Covers(s, k)
  {
    UgcStartIsNotBlank(lines[i]);
    s := CoveringRun(p, lines, i);
    RunOfHeading(Marked(p, lines), s, i, k);
    RunWithCode(p, lines, s, k);
  }

  lemma UgcStartIsNotBlank(line: string)
    requires IsUgcStart(line)
    ensures Trim(line) != ""
  {
    var t := TrimStart(line);
    TrimStartOf(line);
    assert t[0] in line && !Space(t[0]);
    TrimEndKeeps(line, t[0]);
    TrimStartKeeps(TrimEnd(line), t[0]);
  }

  lemma {:induction false} TrimStartOf(s: string)
    ensures forall c :: c in TrimStart(s) ==> c in s
  {
    if s != [] && Space(s[0]) {
      TrimStartOf(s[1..]);
      assert s == [s[0]] + s[1..];
    }
  }

  /** Any event content after `$$` or the start of the text is in the segment of the first VTEC line after it, with no
      `$$` between them. */
  lemma ContentJoinsCode<C(!new), I>(p: Parsers<C, I>, lines: seq<string>, d: nat, i: nat, k: nat) returns (s: Span)
    requires d <= i <= k < |lines| && (d == 0 || IsDelimiter(lines[d - 1])) && IsContent(p, lines[i]) && HasVtec(p, lines[k])
    requires forall m :: d <= m < k ==> !HasVtec(p, lines[m])
    requires forall m :: d <= m <= k ==> !IsDelimiter(lines[m])
    ensures s in Segments(p, lines) && Covers(s, i) && Covers(s, k)
  {
    s := CoveringRun(p, lines, i);
    RunOfContent(Marked(p, lines), s, d, i, k);
    RunWithCode(p, lines, s, k);
  }

  // ---------------------------------------------------------------- one line's codes

  lemma {:induction false} TrimStartKeeps(s: string, c: char)
    requires c in s && !Space(c)
    ensures c in TrimStart(s)
  {
    if Space(s[0]) {
      assert s == [s[0]] + s[1..];
      TrimStartKeeps(s[1..], c);
    }
  }

  lemma {:induction false} TrimEndKeeps(s: string, c: char)
    requires c in s && !Space(c)
    ensures c in TrimEnd(s)
  {
    var last := |s| - 1;
    if Space(s[last]) {
      assert s == s[..last] + [s[last]];
      TrimEndKeeps(s[..last], c);
    }
  }

  lemma NoSlashNoCode<C, I>(p: Parsers<C, I>, line: string)
    ensures '/' !in line ==> !HasVtec(p, line)
  {
    SlashesSplit(line);
  }

  /** A line on which a code parses opens a run. */
  lemma VtecOpens<C, I>(p: Parsers<C, I>, line: string)
    requires HasVtec(p, line)
    ensures MarksOf(p, line).Opens()
  {
    NoSlashNoCode(p, line);
    TrimEndKeeps(line, '/');
    TrimStartKeeps(TrimEnd(line), '/');
    assert '/' !in "$$" && '/' !in "";
  }

  /** `part` stands somewhere in `whole`, unbroken. */
  ghost predicate Holds<T(!new)>(whole: seq<T>, part: seq<T>) {
    exists before, after :: whole == before + part + after
  }

  lemma HoldsPart<T(!new)>(whole: seq<T>, a: seq<T>, b: seq<T>, c: seq<T>)
    requires whole == a + b + c
    ensures Holds(whole, a) && Holds(whole, b) && Holds(whole, c)
  {
    assert whole == [] + a + (b + c);
    assert whole == (a + b) + c + [];
  }

  lemma HoldsTrans<T(!new)>(whole: seq<T>, mid: seq<T>, part: seq<T>)
    requires Holds(whole, mid) && Holds(mid, part)
    ensures Holds(whole, part)
  {
    var a, d :| whole == a + mid + d;
    var b, c :| mid == b + part + c;
    assert whole == (a + b) + part + (c + d);
  }

  /** The codes read across the break before the last of some lines, from the last slash of those before it. */
  function Across<C, I>(p: Parsers<C, I>): seq<string> -> seq<C> {
    ls => if |ls| < 2 then [] else Read(Crossing(Join(ls[..|ls| - 1], '\n'), ['\n'] + ls[|ls| - 1]), p.vtec)
  }

  /** The codes of one more line joined on. */
  lemma JoinStep<C, I>(p: Parsers<C, I>, ls: seq<string>)
    requires |ls| > 1
    ensures var n := |ls| - 1;
            Codes(Join(ls, '\n'), p.vtec) == Codes(Join(ls[..n], '\n'), p.vtec) + Across(p)(ls) + Codes(ls[n], p.vtec)
  {
    var n := |ls| - 1;
    CodesAcross(Join(ls[..n], '\n'), ls[n], p.vtec);
  }

  lemma JoinHolds<C(!new), I>(p: Parsers<C, I>, ls: seq<string>)
    requires ls != []
    ensures var n := |ls| - 1;
            && Holds(Codes(Join(ls, '\n'), p.vtec), Codes(ls[n], p.vtec))
            && (n > 0 ==> Holds(Codes(Join(ls, '\n'), p.vtec), Codes(Join(ls[..n], '\n'), p.vtec)))
  {
    var n := |ls| - 1;
    var last := Codes(ls[n], p.vtec);
    if n == 0 {
      HoldsPart(last, [], last, []);
    } else {
      JoinStep(p, ls);
      HoldsPart(Codes(Join(ls, '\n'), p.vtec), Codes(Join(ls[..n], '\n'), p.vtec), Across(p)(ls), last);
    }
  }

  /** The codes of one line stand together among those of the joined text. */
  lemma {:induction false} LineInJoin<C(!new), I>(p: Parsers<C, I>, ls: seq<string>, i: nat)
    requires i < |ls|
    ensures Holds(Codes(Join(ls, '\n'), p.vtec), Codes(ls[i], p.vtec))
  {
    var n := |ls| - 1;
    JoinHolds(p, ls);
    if i < n {
      LineInJoin(p, ls[..n], i);
      HoldsTrans(Codes(Join(ls, '\n'), p.vtec), Codes(Join(ls[..n], '\n'), p.vtec), Codes(ls[i], p.vtec));
    }
  }

  lemma CodesOfLine<C(!new), I>(p: Parsers<C, I>, lines: seq<string>, s: Span, k: nat)
    requires s.hi <= |lines| && Covers(s, k)
    ensures Holds(Codes(TextOf(lines, s), p.vtec), Codes(lines[k], p.vtec))
  {
    var ls := lines[s.lo..s.hi];
    assert ls[k - s.lo] == lines[k] && TextOf(lines, s) == Join(ls, '\n');
    LineInJoin(p, ls, k - s.lo);
  }

  lemma HoldsSome<T(!new)>(whole: seq<T>, part: seq<T>)
    requires Holds(whole, part) && |part| > 0
    ensures |whole| > 0
  {
  }

  lemma OneCovers(runs: seq<Span>, i: nat, k: nat)
    requires InOrder(runs) && i < |runs| && Covers(runs[i], k)
    ensures forall j :: 0 <= j < |runs| ==> (Covers(runs[j], k) <==> j == i)
  {
    forall j | 0 <= j < |runs| && j != i ensures !Covers(runs[j], k) {
      if j < i {
        assert runs[j].hi <= runs[i].lo;
      } else {
        assert runs[i].hi <= runs[j].lo;
      }
    }
  }

  /** A run that holds a line with a code is a segment. */
  lemma RunOfCode<C(!new), I>(p: Parsers<C, I>, lines: seq<string>, k: nat) returns (s: Span)
    requires k < |lines| && HasVtec(p, lines[k])
    ensures s in Segments(p, lines) && Covers(s, k)
    ensures Holds(Codes(TextOf(lines, s), p.vtec), Codes(lines[k], p.vtec))
  {
    var ms, keeps := Marked(p, lines), Keeps(p, lines);
    var runs := Runs(ms, 0);
    RunsGroup(ms, 0);
    RunsWithin(ms, 0);
    VtecOpens(p, lines[k]);
    var r :| 0 <= r < |runs| && Covers(runs[r], k);
    s := runs[r];
    CodesOfLine(p, lines, s, k);
    HoldsSome(Codes(TextOf(lines, s), p.vtec), Codes(lines[k], p.vtec));
    FilterMembers(runs, keeps);
    assert keeps(s);
  }

  /**
    Every line on which a VTEC code parses is in exactly one segment, whose parse holds that line's codes
    together and in order.
  */
  lemma EveryVtecLineInOneSegment<C(!new), I>(p: Parsers<C, I>, lines: seq<string>, k: nat) returns (i: nat)
    requires k < |lines| && HasVtec(p, lines[k])
    ensures var segments := Segments(p, lines);
            && i < |segments|
            && (forall j :: 0 <= j < |segments| ==> (Covers(segments[j], k) <==> j == i))
            && Holds(Codes(TextOf(lines, segments[i]), p.vtec), Codes(lines[k], p.vtec))
  {
    var s := RunOfCode(p, lines, k);
    var segments := Segments(p, lines);
    i :| 0 <= i < |segments| && segments[i] == s;
    SegmentsKeepOrder(p, lines);
    OneCovers(segments, i, k);
  }

  // ---------------------------------------------------------------- all codes

  ghost predicate Subsequence<T>(a: seq<T>, b: seq<T>) {
    if a == [] then true
    else if b == [] then false
    else
      var (m, n) := (|a| - 1, |b| - 1);
      (a[m] == b[n] && Subsequence(a[..m], b[..n])) || Subsequence(a, b[..n])
  }

  lemma {:induction false} SubsequenceConcat<T>(a: seq<T>, b: seq<T>, c: seq<T>, d: seq<T>)
    requires Subsequence(a, b) && Subsequence(c, d)
    ensures Subsequence(a + c, b + d)
    decreases |d|
  {
    if d == [] {
      assert a + c == a && b + d == b;
    } else {
      var n := |d| - 1;
      assert (b + d)[..|b| + n] == b + d[..n];
      if c == [] {
        SubsequenceConcat(a, b, c, d[..n]);
      } else {
        var m := |c| - 1;
        assert (a + c)[..|a| + m] == a + c[..m];
        if c[m] == d[n] && Subsequence(c[..m], d[..n]) {
          SubsequenceConcat(a, b, c[..m], d[..n]);
        } else {
          SubsequenceConcat(a, b, c, d[..n]);
        }
      }
    }
  }

  function Reader<C, I>(p: Parsers<C, I>): string -> seq<C> {
    text => Codes(text, p.vtec)
  }

  lemma {:induction false} SubsequenceSelf<T>(a: seq<T>)
    ensures Subsequence(a, a)
  {
    if a != [] {
      SubsequenceSelf(a[..|a| - 1]);
    }
  }

  lemma {:induction false} SubsequenceOfSameLength<T>(a: seq<T>, b: seq<T>)
    requires Subsequence(a, b)
    ensures |a| <= |b| && (|a| == |b| ==> a == b)
  {
    if a != [] {
      var m, n := |a| - 1, |b| - 1;
      if a[m] == b[n] && Subsequence(a[..m], b[..n]) {
        SubsequenceOfSameLength(a[..m], b[..n]);
        assert a == a[..m] + [a[m]] && b == b[..n] + [b[n]];
      } else {
        SubsequenceOfSameLength(a, b[..n]);
      }
    }
  }

  /** `whole` consists of `kept`, in order, and of `added`. */
  ghost predicate Consists<T>(whole: seq<T>, kept: seq<T>, added: seq<T>) {
    Subsequence(kept, whole) && multiset(whole) == multiset(kept) + multiset(added)
  }

  lemma ConsistsConcat<T>(w: seq<T>, k: seq<T>, a: seq<T>, w': seq<T>, k': seq<T>, a': seq<T>)
    requires Consists(w, k, a) && Consists(w', k', a')
    ensures Consists(w + w', k + k', a + a')
  {
    SubsequenceConcat(k, w, k', w');
  }

  lemma ConsistsOfOne<T>(whole: seq<T>)
    ensures Consists(whole, whole, []) && Consists(whole, [], whole)
  {
    SubsequenceSelf(whole);
  }

  lemma ConsistsExactly<T>(whole: seq<T>, kept: seq<T>, added: seq<T>)
    requires Consists(whole, kept, added)
    ensures whole == kept <==> added == []
  {
    SubsequenceOfSameLength(kept, whole);
    assert |multiset(whole)| == |whole| && |multiset(kept) + multiset(added)| == |kept| + |added|;
  }

  /** What `across` finds at the breaks between `ls`. */
  function Crossed<T>(ls: seq<string>, across: seq<string> -> seq<T>): seq<T> {
    if |ls| < 2 then [] else Crossed(ls[..|ls| - 1], across) + across(ls)
  }

  /** A joined text's codes are those of its lines, in order, and those read across its line breaks. */
  lemma {:induction false} JoinConsists<C, I>(p: Parsers<C, I>, ls: seq<string>)
    requires ls != []
    ensures Consists(Codes(Join(ls, '\n'), p.vtec), Each(ls, Reader(p)), Crossed(ls, Across(p)))
  {
    var n := |ls| - 1;
    var init, last := ls[..n], Codes(ls[n], p.vtec);
    ConsistsOfOne(last);
    if n == 0 {
      assert ls == [ls[0]];
      EachOne(ls[0], Reader(p));
    } else {
      JoinConsists(p, init);
      JoinStep(p, ls);
      ConsistsMore(Codes(Join(init, '\n'), p.vtec), Each(init, Reader(p)), Crossed(init, Across(p)), Across(p)(ls), last);
    }
  }

  lemma ConsistsMore<T>(whole: seq<T>, kept: seq<T>, added: seq<T>, across: seq<T>, last: seq<T>)
    requires Consists(whole, kept, added)
    ensures Consists(whole + across + last, kept + last, added + across)
  {
    ConsistsOfOne(across);
    ConsistsConcat(whole, kept, added, across, [], across);
    assert kept + [] == kept;
    ConsistsOfOne(last);
    ConsistsConcat(whole + across, kept, added + across, last, last, []);
    assert added + across + [] == added + across;
  }

  /** What `across` finds at the breaks inside the spans. */
  function CrossedInside<T>(lines: seq<string>, spans: seq<Span>, across: seq<string> -> seq<T>): seq<T> {
    if spans == [] then [] else Crossed(LinesOf(lines, spans[0]), across) + CrossedInside(lines, spans[1..], across)
  }

  function LinesOf(lines: seq<string>, s: Span): seq<string> {
    if s.lo <= s.hi <= |lines| then lines[s.lo..s.hi] else []
  }

  /** What is read from the spans' texts consists of what is read from `ls` and across the spans' breaks. */
  ghost predicate Accounted<T>(lines: seq<string>, ls: seq<string>, spans: seq<Span>, read: string -> seq<T>, across: seq<string> -> seq<T>) {
    Consists(Each(Texts(lines, spans), read), Each(ls, read), CrossedInside(lines, spans, across))
  }

  lemma FirstSpan<T>(lines: seq<string>, first: Span, rest: seq<Span>, read: string -> seq<T>, across: seq<string> -> seq<T>)
    ensures Each(Texts(lines, [first] + rest), read) == read(TextOf(lines, first)) + Each(Texts(lines, rest), read)
    ensures CrossedInside(lines, [first] + rest, across) == Crossed(LinesOf(lines, first), across) + CrossedInside(lines, rest, across)
  {
    assert Texts(lines, [first] + rest) == [TextOf(lines, first)] + Texts(lines, rest);
    EachConcat([TextOf(lines, first)], Texts(lines, rest), read);
    EachOne(TextOf(lines, first), read);
    assert ([first] + rest)[1..] == rest;
  }

  lemma KeptRunAccounted<T>(lines: seq<string>, s: Span, run: seq<string>, ls: seq<string>, spans: seq<Span>,
                            read: string -> seq<T>, across: seq<string> -> seq<T>)
    requires Accounted(lines, ls, spans, read, across)
    requires Consists(read(TextOf(lines, s)), Each(run, read), Crossed(LinesOf(lines, s), across))
    ensures Accounted(lines, run + ls, [s] + spans, read, across)
  {
    EachConcat(run, ls, read);
    FirstSpan(lines, s, spans, read, across);
    ConsistsConcat(read(TextOf(lines, s)), Each(run, read), Crossed(LinesOf(lines, s), across),
                   Each(Texts(lines, spans), read), Each(ls, read), CrossedInside(lines, spans, across));
  }

  /** If nothing is read from a run's text, nothing is from its lines. */
  lemma EmptyRunAccounted<T>(lines: seq<string>, run: seq<string>, ls: seq<string>, spans: seq<Span>, crossed: seq<T>,
                             read: string -> seq<T>, across: seq<string> -> seq<T>)
    requires Accounted(lines, ls, spans, read, across) && Consists([], Each(run, read), crossed)
    ensures Accounted(lines, run + ls, spans, read, across)
  {
    EachConcat(run, ls, read);
    SubsequenceOfSameLength(Each(run, read), []);
    assert Each(run, read) + Each(ls, read) == Each(ls, read);
  }

  lemma SkippedLine<C, I>(p: Parsers<C, I>, lines: seq<string>, k: nat)
    requires k < |lines| && !MarksOf(p, lines[k]).Opens()
    ensures Each(lines[k..], Reader(p)) == Each(lines[k + 1..], Reader(p))
  {
    if HasVtec(p, lines[k]) {
      VtecOpens(p, lines[k]);
    }
    assert lines[k..] == [lines[k]] + lines[k + 1..];
    EachConcat([lines[k]], lines[k + 1..], Reader(p));
    EachOne(lines[k], Reader(p));
  }

  lemma FilterFirst(first: Span, rest: seq<Span>, keeps: Span -> bool)
    ensures Filter([first] + rest, keeps) == (if keeps(first) then [first] else []) + Filter(rest, keeps)
  {
    assert ([first] + rest)[1..] == rest;
  }

  lemma RunConsists<C, I>(p: Parsers<C, I>, lines: seq<string>, k: nat, hi: nat)
    requires k < hi <= |lines|
    ensures RunOk(lines, Span(k, hi), Keeps(p, lines), Reader(p), Across(p))
  {
    JoinConsists(p, lines[k..hi]);
  }

  /** The lines from `k` on, with the runs from there. */
  ghost predicate AccountedFrom<T>(lines: seq<string>, ms: seq<Marks>, k: nat, keeps: Span -> bool,
                                   read: string -> seq<T>, across: seq<string> -> seq<T>)
    requires k <= |lines| == |ms|
  {
    Accounted(lines, lines[k..], Filter(Runs(ms, k), keeps), read, across)
  }

  lemma AtEnd<T>(lines: seq<string>, ms: seq<Marks>, keeps: Span -> bool, read: string -> seq<T>, across: seq<string> -> seq<T>)
    requires |lines| == |ms|
    ensures AccountedFrom(lines, ms, |lines|, keeps, read, across)
  {
    assert lines[|lines|..] == [];
    ConsistsOfOne<T>([]);
  }

  /** A run is kept exactly if something is read from its text, which consists of what is read from its lines and
      across its breaks. */
  ghost predicate RunOk<T>(lines: seq<string>, s: Span, keeps: Span -> bool, read: string -> seq<T>, across: seq<string> -> seq<T>) {
    && (keeps(s) <==> read(TextOf(lines, s)) != [])
    && Consists(read(TextOf(lines, s)), Each(LinesOf(lines, s), read), Crossed(LinesOf(lines, s), across))
  }

  lemma RunStep<T>(lines: seq<string>, s: Span, ls: seq<string>, more: seq<string>, runs: seq<Span>, all: seq<Span>,
                   keeps: Span -> bool, read: string -> seq<T>, across: seq<string> -> seq<T>)
    requires more == LinesOf(lines, s) + ls && all == [s] + runs
    requires Accounted(lines, ls, Filter(runs, keeps), read, across) && RunOk(lines, s, keeps, read, across)
    ensures Accounted(lines, more, Filter(all, keeps), read, across)
  {
    FilterFirst(s, runs, keeps);
    var run, spans := LinesOf(lines, s), Filter(runs, keeps);
    if keeps(s) {
      KeptRunAccounted(lines, s, run, ls, spans, read, across);
    } else {
      EmptyRunAccounted(lines, run, ls, spans, Crossed(run, across), read, across);
      assert [] + spans == spans;
    }
  }

  lemma LinesInRun(lines: seq<string>, k: nat, hi: nat)
    requires k < hi <= |lines|
    ensures lines[k..] == LinesOf(lines, Span(k, hi)) + lines[hi..]
  {
  }

  lemma AtRun<T>(lines: seq<string>, ms: seq<Marks>, k: nat, hi: nat, keeps: Span -> bool, read: string -> seq<T>, across: seq<string> -> seq<T>)
    requires k < hi <= |lines| == |ms| && Runs(ms, k) == [Span(k, hi)] + Runs(ms, hi)
    requires AccountedFrom(lines, ms, hi, keeps, read, across) && RunOk(lines, Span(k, hi), keeps, read, across)
    ensures AccountedFrom(lines, ms, k, keeps, read, across)
  {
    LinesInRun(lines, k, hi);
    RunStep(lines, Span(k, hi), lines[hi..], lines[k..], Runs(ms, hi), Runs(ms, k), keeps, read, across);
  }

  lemma AtSkipped<T>(lines: seq<string>, ms: seq<Marks>, k: nat, keeps: Span -> bool, read: string -> seq<T>, across: seq<string> -> seq<T>)
    requires k < |lines| == |ms| && !ms[k].Opens() && AccountedFrom(lines, ms, k + 1, keeps, read, across)
    requires Each(lines[k..], read) == Each(lines[k + 1..], read)
    ensures AccountedFrom(lines, ms, k, keeps, read, across)
  {
  }

  lemma {:induction false} RunsAccounted<C, I>(p: Parsers<C, I>, lines: seq<string>, k: nat)
    requires k <= |lines|
    ensures AccountedFrom(lines, Marked(p, lines), k, Keeps(p, lines), Reader(p), Across(p))
    decreases |lines| - k
  {
    var ms, keeps, read, across := Marked(p, lines), Keeps(p, lines), Reader(p), Across(p);
    if k == |lines| {
      AtEnd(lines, ms, keeps, read, across);
    } else if ms[k].Opens() {
      var hi := RunEnd(ms, k, k + 1);
      RunsAccounted(p, lines, hi);
      RunConsists(p, lines, k, hi);
      AtRun(lines, ms, k, hi, keeps, read, across);
    } else {
      RunsAccounted(p, lines, k + 1);
      SkippedLine(p, lines, k);
      AtSkipped(lines, ms, k, keeps, read, across);
    }
  }

  /**
    No code is lost and every other one is explained: over the whole input the segments' codes consist of the
    codes read from each line alone, in order, and of those read across the line breaks inside segments.
  */
  lemma NoCodeLost<C, I>(p: Parsers<C, I>, lines: seq<string>)
    ensures var segments := Segments(p, lines);
            Consists(Each(Texts(lines, segments), Reader(p)), Each(lines, Reader(p)), CrossedInside(lines, segments, Across(p)))
  {
    RunsAccounted(p, lines, 0);
    assert lines[0..] == lines;
  }

  /** Nothing is read across the break before any line of the span but its first. */
  ghost predicate NothingCrosses<T>(lines: seq<string>, s: Span, across: seq<string> -> seq<T>)
    requires s.lo <= s.hi <= |lines|
  {
    forall n :: s.lo + 1 < n <= s.hi ==> across(lines[s.lo..n]) == []
  }

  lemma {:induction false} NothingCrossesSpan<T>(lines: seq<string>, s: Span, across: seq<string> -> seq<T>)
    requires s.lo <= s.hi <= |lines|
    ensures Crossed(lines[s.lo..s.hi], across) == [] <==> NothingCrosses(lines, s, across)
    decreases s.hi - s.lo
  {
    if s.lo + 1 < s.hi {
      var shorter := Span(s.lo, s.hi - 1);
      NothingCrossesSpan(lines, shorter, across);
      var ls := lines[s.lo..s.hi];
      assert ls[..|ls| - 1] == lines[s.lo..s.hi - 1];
      assert NothingCrosses(lines, s, across) <==> NothingCrosses(lines, shorter, across) && across(ls) == [];
    }
  }

  lemma {:induction false} NothingCrossesInside<T>(lines: seq<string>, spans: seq<Span>, across: seq<string> -> seq<T>)
    requires forall i :: 0 <= i < |spans| ==> spans[i].lo <= spans[i].hi <= |lines|
    ensures CrossedInside(lines, spans, across) == [] <==> forall i :: 0 <= i < |spans| ==> NothingCrosses(lines, spans[i], across)
  {
    if spans != [] {
      NothingCrossesInside(lines, spans[1..], across);
      NothingCrossesSpan(lines, spans[0], across);
      assert spans == [spans[0]] + spans[1..];
    }
  }

  lemma SegmentsWithin<C, I>(p: Parsers<C, I>, lines: seq<string>)
    ensures forall i :: 0 <= i < |Segments(p, lines)| ==> Segments(p, lines)[i].lo < Segments(p, lines)[i].hi <= |lines|
  {
    var segments := Segments(p, lines);
    SegmentsKeepOrder(p, lines);
    forall i | 0 <= i < |segments| ensures segments[i].lo < segments[i].hi <= |lines| {
      assert WellFormed(Marked(p, lines), segments[i]);
    }
  }

  /** The segments' codes are exactly the codes of the single lines if and only if at no line break inside a
      segment a code is read across it. */
  lemma LinesSufficeExactly<C, I>(p: Parsers<C, I>, lines: seq<string>)
    ensures var segments := Segments(p, lines);
            && (forall i :: 0 <= i < |segments| ==> segments[i].lo < segments[i].hi <= |lines|)
            && (Each(Texts(lines, segments), Reader(p)) == Each(lines, Reader(p)) <==>
                forall i :: 0 <= i < |segments| ==> NothingCrosses(lines, segments[i], Across(p)))
  {
    var segments := Segments(p, lines);
    SegmentsWithin(p, lines);
    NoCodeLost(p, lines);
    ExactIfNothingCrosses(lines, segments, Reader(p), Across(p));
  }

  lemma ExactIfNothingCrosses<T>(lines: seq<string>, segments: seq<Span>, read: string -> seq<T>, across: seq<string> -> seq<T>)
    requires forall i :: 0 <= i < |segments| ==> segments[i].lo < segments[i].hi <= |lines|
    requires Consists(Each(Texts(lines, segments), read), Each(lines, read), CrossedInside(lines, segments, across))
    ensures Each(Texts(lines, segments), read) == Each(lines, read) <==>
            forall i :: 0 <= i < |segments| ==> NothingCrosses(lines, segments[i], across)
  {
    ConsistsExactly(Each(Texts(lines, segments), read), Each(lines, read), CrossedInside(lines, segments, across));
    NothingCrossesInside(lines, segments, across);
  }

  /** Two lines, neither with a code, whose joined text has one, for every parser that accepts the candidate. */
  lemma CodeAcrossLines<C, I>(p: Parsers<C, I>, a: string, b: string)
    requires '/' !in a && '/' !in b
    requires var c := "/" + a + "\n" + b + "/"; VtecShaped(c) && p.vtec(c).Ok?
    ensures !HasVtec(p, "/" + a) && !HasVtec(p, b + "/")
    ensures var c := "/" + a + "\n" + b + "/";
            Codes(Join(["/" + a, b + "/"], '\n'), p.vtec) == [p.vtec(c).value]
  {
    var x, y, c := "/" + a, b + "/", "/" + a + "\n" + b + "/";
    CandidateCrossesLines(a, b);
    EachOne(c, Choice(VtecShaped));
    EachOne(c, Value(p.vtec));
    JoinTwo(x, y);
    assert x + ['\n'] + y == c;
    NoPair(p, x, y, c);
  }

  /** Where the joined text has one candidate, and that crosses the break, the lines have none. */
  lemma NoPair<C, I>(p: Parsers<C, I>, x: string, y: string, c: string)
    requires '/' in x && '/' in y && Candidates(x + ['\n'] + y) == [c]
    ensures !HasVtec(p, x) && !HasVtec(p, y)
  {
    CandidatesAcross(x, y);
    assert |Candidates(x)| + 1 + |Candidates(y)| == 1;
  }

  const HEADING := "IAC001-"

  lemma HeadingOpens<C, I>(p: Parsers<C, I>)
    ensures MarksOf(p, HEADING).Opens() && !HasVtec(p, HEADING) && '/' !in HEADING
  {
    assert TrimEnd(HEADING) == HEADING && TrimStart(HEADING) == HEADING;
    assert IsUgcStart(HEADING);
    NoSlashNoCode(p, HEADING);
  }

  lemma SlashIsNoDelimiter(line: string)
    requires '/' in line
    ensures !IsDelimiter(line)
  {
    TrimEndKeeps(line, '/');
    TrimStartKeeps(TrimEnd(line), '/');
    assert '/' !in "$$";
  }

  /** A first line that opens, then lines that are neither delimiters nor hold a code, are one run. */
  lemma OneRun(ms: seq<Marks>)
    requires |ms| == 3 && ms[0].Opens() && forall k :: 0 <= k < 3 ==> !ms[k].vtec && !ms[k].delimiter
    ensures Runs(ms, 0) == [Span(0, 3)]
  {
    assert forall k :: 1 <= k < 3 ==> !Ends(ms, 0, k);
    assert RunEnd(ms, 0, 1) == RunEnd(ms, 0, 2) == RunEnd(ms, 0, 3) == 3;
    assert Runs(ms, 3) == [];
  }

  lemma JoinThree(h: string, x: string, y: string)
    ensures Join([h, x, y], '\n') == h + ['\n'] + (x + ['\n'] + y)
  {
    var ls := [h, x, y];
    JoinTwo(h, x);
    assert ls[..2] == [h, x];
    assert (h + ['\n'] + x) + ['\n'] + y == h + ['\n'] + (x + ['\n'] + y);
  }

  lemma JoinTwo(x: string, y: string)
    ensures Join([x, y], '\n') == x + ['\n'] + y
  {
    assert [x, y][..1] == [x];
  }

  lemma UnderHeading<C, I>(p: Parsers<C, I>, h: string, text: string)
    requires '/' !in h
    ensures Codes(h + ['\n'] + text, p.vtec) == Codes(text, p.vtec)
  {
    CodesAcross(h, text, p.vtec);
    NoSlashNoCode(p, h);
    assert Read([], p.vtec) == [];
  }

  lemma HeadedRun<C, I>(p: Parsers<C, I>, h: string, x: string, y: string)
    requires MarksOf(p, h).Opens() && !HasVtec(p, h) && '/' in x && '/' in y && !HasVtec(p, x) && !HasVtec(p, y)
    ensures Runs(Marked(p, [h, x, y]), 0) == [Span(0, 3)] && Each([h, x, y], Reader(p)) == []
  {
    SlashIsNoDelimiter(x);
    SlashIsNoDelimiter(y);
    OneRun(Marked(p, [h, x, y]));
    NoLineCodes(p, [h, x, y]);
  }

  lemma HeadedText<C, I>(p: Parsers<C, I>, h: string, x: string, y: string)
    requires '/' !in h
    ensures Codes(TextOf([h, x, y], Span(0, 3)), p.vtec) == Codes(x + ['\n'] + y, p.vtec)
  {
    JoinThree(h, x, y);
    UnderHeading(p, h, x + ['\n'] + y);
    assert [h, x, y][0..3] == [h, x, y];
  }

  /** Two lines with a slash and without a code, under a heading, are one segment. */
  lemma HeadedPair<C, I>(p: Parsers<C, I>, h: string, x: string, y: string, codes: seq<C>)
    requires '/' !in h && MarksOf(p, h).Opens() && !HasVtec(p, h)
    requires '/' in x && '/' in y && !HasVtec(p, x) && !HasVtec(p, y) && Codes(x + ['\n'] + y, p.vtec) == codes != []
    ensures var lines := [h, x, y];
            && Segments(p, lines) == [Span(0, 3)]
            && Each(lines, Reader(p)) == []
            && Each(Texts(lines, Segments(p, lines)), Reader(p)) == codes
  {
    HeadedRun(p, h, x, y);
    HeadedText(p, h, x, y);
    OneSegment(p, [h, x, y], codes);
  }

  /** Lines at which the segments' codes are not the lines' codes: a heading and two lines, none with a code, make
      one segment, in which the code across the second break is read. */
  lemma SegmentCodeAcrossLines<C, I>(p: Parsers<C, I>, a: string, b: string)
    requires '/' !in a && '/' !in b
    requires var c := "/" + a + "\n" + b + "/"; VtecShaped(c) && p.vtec(c).Ok?
    ensures var lines, c := [HEADING, "/" + a, b + "/"], "/" + a + "\n" + b + "/";
            && Segments(p, lines) == [Span(0, 3)]
            && Each(lines, Reader(p)) == []
            && Each(Texts(lines, Segments(p, lines)), Reader(p)) == [p.vtec(c).value]
  {
    var x, y, c := "/" + a, b + "/", "/" + a + "\n" + b + "/";
    CodeAcrossLines(p, a, b);
    JoinTwo(x, y);
    HeadingOpens(p);
    HeadedPair(p, HEADING, x, y, [p.vtec(c).value]);
  }

  lemma OneSegment<C, I>(p: Parsers<C, I>, lines: seq<string>, codes: seq<C>)
    requires |lines| == 3 && Runs(Marked(p, lines), 0) == [Span(0, 3)] && Codes(TextOf(lines, Span(0, 3)), p.vtec) == codes != []
    ensures Segments(p, lines) == [Span(0, 3)] && Each(Texts(lines, Segments(p, lines)), Reader(p)) == codes
  {
    FilterFirst(Span(0, 3), [], Keeps(p, lines));
    assert [Span(0, 3)] + [] == [Span(0, 3)];
    assert Texts(lines, [Span(0, 3)]) == [TextOf(lines, Span(0, 3))];
    EachOne(TextOf(lines, Span(0, 3)), Reader(p));
  }

  lemma {:induction false} NoLineCodes<C, I>(p: Parsers<C, I>, lines: seq<string>)
    requires forall i :: 0 <= i < |lines| ==> !HasVtec(p, lines[i])
    ensures Each(lines, Reader(p)) == []
  {
    if lines != [] {
      NoLineCodes(p, lines[..|lines| - 1]);
    }
  }

  // ---------------------------------------------------------------- the event body

  datatype EventSegment<C> = EventSegment(segmentIndex: nat, vtec: seq<C>)

  lemma EveryTextHasCodes<C, I>(p: Parsers<C, I>, lines: seq<string>, i: nat)
    requires i < |Segments(p, lines)|
    ensures HasVtec(p, Texts(lines, Segments(p, lines))[i])
  {
    SegmentsKeepOrder(p, lines);
  }

  /** The loop over the raw segments; its test for an empty parse never succeeds. */
  method NumberSegments<C, I>(p: Parsers<C, I>, raw: seq<string>) returns (segments: seq<EventSegment<C>>)
    requires forall i :: 0 <= i < |raw| ==> HasVtec(p, raw[i])
    ensures |segments| == |raw|
    ensures forall i :: 0 <= i < |raw| ==> segments[i] == EventSegment(i, Codes(raw[i], p.vtec)) && |segments[i].vtec| > 0
  {
    segments := [];
    for index := 0 to |raw|
      invariant |segments| == index
      invariant forall i :: 0 <= i < index ==> segments[i] == EventSegment(i, Codes(raw[i], p.vtec)) && |segments[i].vtec| > 0
    {
      var codes, issues := ParseVtecCodes(raw[index], p.vtec);
      assert HasVtec(p, raw[index]);
      if |codes| == 0 {
        assert false;
        continue;
      }
      segments := segments + [EventSegment(index, codes)];
    }
  }

  /**
    `parse_vtec_event_body_with_issues`, its segment numbers and codes: one event segment for every
    segment, numbered from 0 without gaps, because the test for an empty parse never succeeds.
  */
  method ParseVtecEventBody<C, I>(p: Parsers<C, I>, text: string) returns (body: Option<seq<EventSegment<C>>>)
    ensures var texts := Texts(InputLines(text), Segments(p, InputLines(text)));
            && (body.None? <==> texts == [])
            && (body.Some? ==>
                && |body.value| == |texts|
                && forall i :: 0 <= i < |texts| ==> body.value[i] == EventSegment(i, Codes(texts[i], p.vtec)) && |body.value[i].vtec| > 0)
  {
    var raw := SplitVtecSegments(p, text);
    forall i | 0 <= i < |raw| ensures HasVtec(p, raw[i]) {
      EveryTextHasCodes(p, InputLines(text), i);
    }
    var segments := NumberSegments(p, raw);
    body := if |segments| != 0 then Some(segments) else None;
  }
}
