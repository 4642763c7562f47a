/**
  Splitting a bulletin into VTEC segments. The segments are the runs of lines, as `LineRuns` groups
  them, in whose joined text a VTEC code parses. `SplitVtecSegments` is the buffering loop with its
  flags, proved to compute exactly these.
*/
module VtecSegments {
  import opened Wrappers
  import opened Text
  import opened SlashScan
  import opened LineRuns

  /** The readers of single candidates and lines that the split does not look into. */
  datatype Parsers<!C, !I> = Parsers(vtec: string -> Result<C, I>, hvtec: string -> bool)

  // ---------------------------------------------------------------- lines

  function AsciiUpper(c: char): char {
    if 'a' <= c <= 'z' then (c as int - 32) as char else c
  }

  /** The line without its indentation begins with `word`, in either case. */
  predicate Announces(line: string, word: string) {
    var t := TrimStart(line);
    |word| <= |t| && forall i :: 0 <= i < |word| ==> AsciiUpper(t[i]) == word[i]
  }

  predicate IsDelimiter(line: string) {
    Trim(line) == "$$"
  }

  predicate IsUgcStart(line: string) {
    var t := TrimStart(line);
    && |t| >= 6 && Upper(t[0]) && Upper(t[1]) && t[2] in "CZFM" && Digit(t[3]) && Digit(t[4]) && Digit(t[5])
    && (|t| == 6 || t[6] in "->, \t")
  }

  predicate HasGeography(line: string) {
    Announces(line, "LAT...LON") || Announces(line, "TIME...MOT...LOC")
  }

  predicate HasWindHail(line: string) {
    || Announces(line, "HAILTHREAT") || Announces(line, "MAXHAILSIZE")
    || Announces(line, "WINDTHREAT") || Announces(line, "MAXWINDGUST")
  }

  predicate HasVtec<C, I>(p: Parsers<C, I>, line: string) {
    |Codes(line, p.vtec)| > 0
  }

  predicate LooksLikeEventContent<C, I>(p: Parsers<C, I>, line: string) {
    IsUgcStart(line) || HasVtec(p, line) || HasGeography(line) || HasWindHail(line) || p.hvtec(line)
  }

  function MarksOf<C, I>(p: Parsers<C, I>, line: string): Marks {
    Marks(IsDelimiter(line), IsUgcStart(line), HasVtec(p, line), HasGeography(line), LooksLikeEventContent(p, line), Trim(line) == "")
  }

  function Marked<C, I>(p: Parsers<C, I>, lines: seq<string>): (ms: seq<Marks>)
    ensures |ms| == |lines| && forall i :: 0 <= i < |ms| ==> ms[i] == MarksOf(p, lines[i])
  {
    seq(|lines|, i requires 0 <= i < |lines| => MarksOf(p, lines[i]))
  }

  function Without(s: string, c: char): string {
    if s == [] then [] else (if s[0] == c then [] else [s[0]]) + Without(s[1..], c)
  }

  /** `str::lines`: a final line break ends the last line. */
  function Lines(s: string): seq<string> {
    var pieces := Split(s, "\n");
    if pieces[|pieces| - 1] == "" then pieces[..|pieces| - 1] else pieces
  }

  /** The lines of a text as the split sees them: no carriage return, nothing blank at the end. */
  function InputLines(text: string): (lines: seq<string>)
    ensures |lines| == |Lines(Without(text, '\r'))|
  {
    var raw := Lines(Without(text, '\r'));
    seq(|raw|, i requires 0 <= i < |raw| => TrimEnd(raw[i]))
  }

  // ---------------------------------------------------------------- segments

  function TextOf(lines: seq<string>, s: Span): string {
    if s.lo < s.hi <= |lines| then Join(lines[s.lo..s.hi], '\n') else ""
  }

  /** The runs in whose joined text a code parses. */
  function Keeps<C, I>(p: Parsers<C, I>, lines: seq<string>): Span -> bool {
    s => HasVtec(p, TextOf(lines, s))
  }

  /** The segments as line ranges. */
  function Segments<C, I>(p: Parsers<C, I>, lines: seq<string>): seq<Span> {
    Filter(Runs(Marked(p, lines), 0), Keeps(p, lines))
  }

  function Texts(lines: seq<string>, runs: seq<Span>): (r: seq<string>)
    ensures |r| == |runs|
  {
    seq(|runs|, i requires 0 <= i < |runs| => TextOf(lines, runs[i]))
  }

  // ---------------------------------------------------------------- the loop

  /** The segment texts still to come. */
  ghost function ToCome<C, I>(p: Parsers<C, I>, lines: seq<string>, lo: nat, k: nat): seq<string>
    requires lo <= k <= |lines|
  {
    Texts(lines, Filter(Pending(Marked(p, lines), lo, k), Keeps(p, lines)))
  }

  /** What `push_vtec_segment` appends. */
  function Pushed<C, I>(p: Parsers<C, I>, current: seq<string>): seq<string> {
    if current != [] && HasVtec(p, Join(current, '\n')) then [Join(current, '\n')] else []
  }

  lemma FirstText(lines: seq<string>, first: Span, rest: seq<Span>, keeps: Span -> bool)
    ensures Texts(lines, Filter([first] + rest, keeps)) ==
            (if keeps(first) then [TextOf(lines, first)] else []) + Texts(lines, Filter(rest, keeps))
  {
    assert ([first] + rest)[1..] == rest;
  }

  lemma Flush<C, I>(p: Parsers<C, I>, lines: seq<string>, lo: nat, k: nat)
    requires lo <= k <= |lines| && (k < |lines| ==> lo == k || Ends(Marked(p, lines), lo, k))
    ensures ToCome(p, lines, lo, k) == Pushed(p, lines[lo..k]) + ToCome(p, lines, k, k)
  {
    if lo < k {
      var ms := Marked(p, lines);
      PendingFlush(ms, lo, k);
      FirstText(lines, Span(lo, k), Pending(ms, k, k), Keeps(p, lines));
    }
  }

  lemma Extend<C, I>(p: Parsers<C, I>, lines: seq<string>, lo: nat, k: nat)
    requires lo <= k < |lines|
    requires var ms := Marked(p, lines); if lo == k then ms[k].Opens() else !Ends(ms, lo, k)
    ensures ToCome(p, lines, lo, k) == ToCome(p, lines, lo, k + 1)
  {
    PendingExtend(Marked(p, lines), lo, k);
  }

  lemma Skip<C, I>(p: Parsers<C, I>, lines: seq<string>, k: nat)
    requires k < |lines| && !Marked(p, lines)[k].Opens()
    ensures ToCome(p, lines, k, k) == ToCome(p, lines, k + 1, k + 1)
  {
    PendingSkip(Marked(p, lines), k);
  }

  /** `push_vtec_segment` */
  method PushVtecSegment<C, I>(p: Parsers<C, I>, segments: seq<string>, current: seq<string>) returns (segments': seq<string>, current': seq<string>)
    ensures segments' == segments + Pushed(p, current) && current' == []
  {
    segments', current' := segments, current;
    if |current| == 0 {
      return;
    }
    var joined := Join(current, '\n');
    var codes, issues := ParseVtecCodes(joined, p.vtec);
    if |codes| != 0 {
      segments' := segments' + [joined];
    }
    current' := [];
  }

  /** The variables of the loop before line `k`, when the open run began at line `lo`. */
  datatype Loop = Loop(segments: seq<string>, current: seq<string>, hasVtec: bool, hasGeography: bool)

  /** The buffer and the flags describe the lines from `lo` up to `k`. */
  ghost predicate Buffered<C, I>(p: Parsers<C, I>, lines: seq<string>, lo: nat, k: nat, s: Loop) {
    && lo <= k <= |lines|
    && s.current == lines[lo..k]
    && s.hasVtec == VtecIn(Marked(p, lines), lo, k)
    && s.hasGeography == GeographyIn(Marked(p, lines), lo, k)
  }

  ghost predicate Reached<C, I>(p: Parsers<C, I>, lines: seq<string>, all: seq<string>, lo: nat, k: nat, s: Loop) {
    Buffered(p, lines, lo, k, s) && all == s.segments + ToCome(p, lines, lo, k)
  }

  lemma NothingBuffered<C, I>(p: Parsers<C, I>, lines: seq<string>, k: nat, segments: seq<string>)
    requires k <= |lines|
    ensures Buffered(p, lines, k, k, Loop(segments, [], false, false))
  {
  }

  lemma Reassociate(all: seq<string>, done: seq<string>, rest: seq<string>, pushed: seq<string>, later: seq<string>)
    requires all == done + rest && rest == pushed + later
    ensures all == (done + pushed) + later
  {
  }

  lemma Flushed<C, I>(p: Parsers<C, I>, lines: seq<string>, all: seq<string>, lo: nat, k: nat, s: Loop)
    requires Reached(p, lines, all, lo, k, s) && (k < |lines| ==> lo == k || Ends(Marked(p, lines), lo, k))
    ensures Reached(p, lines, all, k, k, Loop(s.segments + Pushed(p, s.current), [], false, false))
  {
    Flush(p, lines, lo, k);
    Reassociate(all, s.segments, ToCome(p, lines, lo, k), Pushed(p, s.current), ToCome(p, lines, k, k));
    NothingBuffered(p, lines, k, s.segments + Pushed(p, s.current));
  }

  lemma Skipped<C, I>(p: Parsers<C, I>, lines: seq<string>, all: seq<string>, k: nat, s: Loop)
    requires k < |lines| && Reached(p, lines, all, k, k, s) && !Marked(p, lines)[k].Opens()
    ensures Reached(p, lines, all, k + 1, k + 1, s)
  {
    Skip(p, lines, k);
  }

  /** The variables after line `line` joined the run. */
  function Append<C, I>(p: Parsers<C, I>, line: string, s: Loop): Loop {
    Loop(s.segments, s.current + [line], s.hasVtec || HasVtec(p, line), s.hasGeography || HasGeography(line))
  }

  lemma AppendBuffers<C, I>(p: Parsers<C, I>, lines: seq<string>, lo: nat, k: nat, s: Loop)
    requires k < |lines| && Buffered(p, lines, lo, k, s)
    ensures Buffered(p, lines, lo, k + 1, Append(p, lines[k], s))
  {
    FlagsGrow(Marked(p, lines), lo, k);
    assert Marked(p, lines)[k] == MarksOf(p, lines[k]);
    assert lines[lo..k + 1] == lines[lo..k] + [lines[k]];
  }

  lemma Appended<C, I>(p: Parsers<C, I>, lines: seq<string>, all: seq<string>, lo: nat, k: nat, s: Loop)
    requires k < |lines| && Reached(p, lines, all, lo, k, s)
    requires if lo == k then Marked(p, lines)[k].Opens() else !Ends(Marked(p, lines), lo, k)
    ensures Reached(p, lines, all, lo, k + 1, Append(p, lines[k], s))
  {
    AppendBuffers(p, lines, lo, k, s);
    Extend(p, lines, lo, k);
  }

  /** One turn of the loop of `split_vtec_segments`, on the line without its trailing white space. */
  method TakeLine<C, I>(p: Parsers<C, I>, trimmed: string, s: Loop, ghost lines: seq<string>, ghost all: seq<string>, ghost lo: nat, ghost k: nat)
    returns (s': Loop, ghost lo': nat)
    requires k < |lines| && trimmed == lines[k] && Reached(p, lines, all, lo, k, s)
    ensures Reached(p, lines, all, lo', k + 1, s')
  {
    s', lo' := s, lo;
    if Trim(trimmed) == "$$" {
      Flushed(p, lines, all, lo, k, s);
      var segments, current := PushVtecSegment(p, s.segments, s.current);
      s' := Loop(segments, current, false, false);
      Skipped(p, lines, all, k, s');
      lo' := k + 1;
      return;
    }
    var boundary := |s.current| != 0 && s.hasVtec && (IsUgcStart(trimmed) || (HasVtec(p, trimmed) && s.hasGeography));
    if boundary {
      Flushed(p, lines, all, lo, k, s);
      var segments, current := PushVtecSegment(p, s.segments, s.current);
      s', lo' := Loop(segments, current, false, false), k;
    }
    if |s'.current| == 0 && !LooksLikeEventContent(p, trimmed) {
      Skipped(p, lines, all, k, s');
      lo' := k + 1;
      return;
    }
    if Trim(trimmed) == "" && |s'.current| == 0 {
      Skipped(p, lines, all, k, s');
      lo' := k + 1;
      return;
    }
    Appended(p, lines, all, lo', k, s');
    s' := Loop(s'.segments, s'.current + [trimmed], s'.hasVtec || HasVtec(p, trimmed), s'.hasGeography || HasGeography(trimmed));
  }

  lemma FirstAndLast<C, I>(p: Parsers<C, I>, lines: seq<string>, segments: seq<string>)
    ensures var all := Texts(lines, Segments(p, lines));
            && Reached(p, lines, all, 0, 0, Loop([], [], false, false))
            && (Reached(p, lines, all, |lines|, |lines|, Loop(segments, [], false, false)) ==> segments == all)
  {
    assert Pending(Marked(p, lines), |lines|, |lines|) == [];
  }

  /** `split_vtec_segments` */
  method SplitVtecSegments<C, I>(p: Parsers<C, I>, text: string) returns (segments: seq<string>)
    ensures segments == Texts(InputLines(text), Segments(p, InputLines(text)))
  {
    var raw := Lines(Without(text, '\r'));
    ghost var lines := InputLines(text);
    ghost var all := Texts(lines, Segments(p, lines));
    var s := Loop([], [], false, false);
    ghost var lo := 0;
    FirstAndLast(p, lines, []);
    for k := 0 to |raw|
      invariant Reached(p, lines, all, lo, k, s)
    {
      s, lo := TakeLine(p, TrimEnd(raw[k]), s, lines, all, lo, k);
    }
    Flushed(p, lines, all, lo, |lines|, s);
    var current;
    segments, current := PushVtecSegment(p, s.segments, s.current);
    FirstAndLast(p, lines, segments);
  }
}
