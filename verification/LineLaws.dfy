/** What the splitter sees in a line, said of the line's characters. */
module LineLaws {
  import opened Text
  import opened VtecSegments
  import SlashScan
  import Ugc

  // ---------------------------------------------------------------- the delimiter

  /** `$$` with white space around it and nothing else. */
  ghost predicate Dollars(line: string) {
    exists a, b :: Blank(a) && Blank(b) && line == a + "$$" + b
  }

  lemma DelimiterExactly(line: string)
    ensures IsDelimiter(line) <==> Dollars(line)
  {
    if IsDelimiter(line) {
      var b := TrimEndParts(line);
      var a := TrimStartParts(TrimEnd(line));
      assert line == a + "$$" + b;
    }
    if Dollars(line) {
      var a, b :| Blank(a) && Blank(b) && line == a + "$$" + b;
      TrimEndIs(a + "$$", b);
      TrimStartIs(a, "$$");
    }
  }

  // ---------------------------------------------------------------- marker words

  /** The same letters, upper or lower case. */
  ghost predicate SameWord(t: string, word: string) {
    |t| == |word| && forall i :: 0 <= i < |word| ==> t[i] == word[i] || ('A' <= word[i] <= 'Z' && t[i] as int == word[i] as int + 32)
  }

  /** After its indentation the line begins with the word, in either case. */
  ghost predicate BeginsWith(line: string, word: string) {
    exists a, t, rest :: Blank(a) && SameWord(t, word) && line == a + t + rest
  }

  predicate UpperWord(word: string) {
    word != [] && forall i :: 0 <= i < |word| ==> 'A' <= word[i] <= 'Z' || word[i] == '.'
  }

  /** The word at the front of a text, in either case. */
  predicate InFront(t: string, word: string) {
    |word| <= |t| && forall i :: 0 <= i < |word| ==> AsciiUpper(t[i]) == word[i]
  }

  lemma SameLetter(c: char, w: char)
    requires 'A' <= w <= 'Z' || w == '.'
    ensures AsciiUpper(c) == w <==> c == w || ('A' <= w <= 'Z' && c as int == w as int + 32)
    ensures AsciiUpper(c) == w ==> !Space(c)
  {
  }

  lemma InFrontIs(t: string, word: string)
    requires InFront(t, word) && UpperWord(word)
    ensures SameWord(t[..|word|], word) && t == t[..|word|] + t[|word|..]
  {
    forall i | 0 <= i < |word| ensures t[..|word|][i] == word[i] || ('A' <= word[i] <= 'Z' && t[..|word|][i] as int == word[i] as int + 32) {
      SameLetter(t[i], word[i]);
    }
  }

  lemma IsInFront(t: string, word: string, rest: string)
    requires SameWord(t, word) && UpperWord(word)
    ensures InFront(t + rest, word) && !Space((t + rest)[0])
  {
    forall i | 0 <= i < |word| ensures AsciiUpper((t + rest)[i]) == word[i] {
      SameLetter(t[i], word[i]);
    }
    SameLetter(t[0], word[0]);
  }

  lemma AnnouncesGives(line: string, word: string)
    requires Announces(line, word) && UpperWord(word)
    ensures BeginsWith(line, word)
  {
    var a := TrimStartParts(line);
    var u := TrimStart(line);
    InFrontIs(u, word);
    assert line == a + u[..|word|] + u[|word|..];
  }

  lemma GivesAnnounces(line: string, word: string)
    requires BeginsWith(line, word) && UpperWord(word)
    ensures Announces(line, word)
  {
    var a, t, rest :| Blank(a) && SameWord(t, word) && line == a + t + rest;
    assert line == a + (t + rest);
    IsInFront(t, word, rest);
    TrimStartIs(a, t + rest);
  }

  lemma AnnouncesExactly(line: string, word: string)
    requires UpperWord(word)
    ensures Announces(line, word) <==> BeginsWith(line, word)
  {
    if Announces(line, word) {
      AnnouncesGives(line, word);
    }
    if BeginsWith(line, word) {
      GivesAnnounces(line, word);
    }
  }

  /** The marker words of geography and of wind and hail. */
  lemma MarkerWords(line: string)
    ensures HasGeography(line) <==> BeginsWith(line, "LAT...LON") || BeginsWith(line, "TIME...MOT...LOC")
    ensures HasWindHail(line) <==>
              || BeginsWith(line, "HAILTHREAT") || BeginsWith(line, "MAXHAILSIZE")
              || BeginsWith(line, "WINDTHREAT") || BeginsWith(line, "MAXWINDGUST")
  {
    AnnouncesExactly(line, "LAT...LON");
    AnnouncesExactly(line, "TIME...MOT...LOC");
    AnnouncesExactly(line, "HAILTHREAT");
    AnnouncesExactly(line, "MAXHAILSIZE");
    AnnouncesExactly(line, "WINDTHREAT");
    AnnouncesExactly(line, "MAXWINDGUST");
  }

  // ---------------------------------------------------------------- a UGC start

  /** After its indentation the line is a canonical UGC code, alone or before `-`, `>`, `,`, a blank or a tab. */
  ghost predicate BeginsWithCode(line: string) {
    exists a, c, rest :: Blank(a) && Ugc.ValidCode(c) && line == a + Ugc.Canonical(c) + rest && AfterCode(rest)
  }

  predicate AfterCode(rest: string) {
    rest == [] || rest[0] == '-' || rest[0] == '>' || rest[0] == ',' || rest[0] == ' ' || rest[0] == '\t'
  }

  /** A code's text at the front. */
  predicate CodeInFront(t: string) {
    && |t| >= 6 && Upper(t[0]) && Upper(t[1]) && t[2] in "CZFM" && Digit(t[3]) && Digit(t[4]) && Digit(t[5])
    && (|t| == 6 || t[6] in "->, \t")
  }

  lemma CodeInFrontIs(t: string) returns (c: Ugc.Code)
    requires CodeInFront(t)
    ensures Ugc.ValidCode(c) && t == Ugc.Canonical(c) + t[6..] && AfterCode(t[6..])
  {
    var head := t[..6];
    assert head[0] == t[0] && head[1] == t[1] && head[2] == t[2] && head[3] == t[3] && head[4] == t[4] && head[5] == t[5];
    c := Ugc.ReadCanonical(head);
    assert t == head + t[6..];
  }

  lemma IsCodeInFront(c: Ugc.Code, rest: string)
    requires Ugc.ValidCode(c) && AfterCode(rest)
    ensures CodeInFront(Ugc.Canonical(c) + rest) && !Space((Ugc.Canonical(c) + rest)[0])
  {
    Ugc.CanonicalLetters(c);
    FrontStays(Ugc.Canonical(c), rest);
  }

  lemma FrontStays(t: string, rest: string)
    requires |t| == 6 && CodeInFront(t) && AfterCode(rest)
    ensures CodeInFront(t + rest) && !Space((t + rest)[0])
  {
  }

  lemma UgcStartGives(line: string)
    requires IsUgcStart(line)
    ensures BeginsWithCode(line)
  {
    var a := TrimStartParts(line);
    var c := CodeInFrontIs(TrimStart(line));
    assert line == a + Ugc.Canonical(c) + TrimStart(line)[6..];
  }

  lemma GivesUgcStart(line: string, a: string, t: string)
    requires Blank(a) && CodeInFront(t) && !Space(t[0]) && line == a + t
    ensures IsUgcStart(line)
  {
    TrimStartIs(a, t);
  }

  lemma UgcStartExactly(line: string)
    ensures IsUgcStart(line) <==> BeginsWithCode(line)
  {
    if IsUgcStart(line) {
      UgcStartGives(line);
    }
    if BeginsWithCode(line) {
      var a, c, rest :| Blank(a) && Ugc.ValidCode(c) && line == a + Ugc.Canonical(c) + rest && AfterCode(rest);
      IsCodeInFront(c, rest);
      assert line == a + (Ugc.Canonical(c) + rest);
      GivesUgcStart(line, a, Ugc.Canonical(c) + rest);
    }
  }

  // ---------------------------------------------------------------- line endings

  /** Every line with its ending. */
  function WithEndings(ls: seq<string>, ending: string): string {
    if ls == [] then [] else WithEndings(ls[..|ls| - 1], ending) + (ls[|ls| - 1] + ending)
  }

  ghost predicate OneLiners(ls: seq<string>) {
    forall i :: 0 <= i < |ls| ==> '\n' !in ls[i] && '\r' !in ls[i]
  }

  function Trimmed(ls: seq<string>): seq<string> {
    seq(|ls|, i requires 0 <= i < |ls| => TrimEnd(ls[i]))
  }

  lemma {:induction false} WithoutConcat(a: string, b: string, c: char)
    ensures Without(a + b, c) == Without(a, c) + Without(b, c)
  {
    if a == [] {
      assert a + b == b;
    } else {
      assert (a + b)[1..] == a[1..] + b;
      WithoutConcat(a[1..], b, c);
    }
  }

  lemma {:induction false} WithoutNone(s: string, c: char)
    requires c !in s
    ensures Without(s, c) == s
  {
    if s != [] {
      assert s == [s[0]] + s[1..];
      WithoutNone(s[1..], c);
    }
  }

  lemma {:induction false} EndingsWithoutReturns(ls: seq<string>, ending: string)
    requires OneLiners(ls) && (ending == "\n" || ending == "\r\n")
    ensures Without(WithEndings(ls, ending), '\r') == WithEndings(ls, "\n")
  {
    if ls != [] {
      var init, last := ls[..|ls| - 1], ls[|ls| - 1];
      EndingsWithoutReturns(init, ending);
      WithoutConcat(WithEndings(init, ending), last + ending, '\r');
      WithoutConcat(last, ending, '\r');
      WithoutNone(last, '\r');
      EndingWithoutReturn(ending);
    }
  }

  lemma EndingWithoutReturn(ending: string)
    requires ending == "\n" || ending == "\r\n"
    ensures Without(ending, '\r') == "\n"
  {
    WithoutNone("\n", '\r');
    assert "\r\n"[1..] == "\n";
  }

  lemma {:induction false} SplitEndings(ls: seq<string>)
    requires OneLiners(ls)
    ensures Split(WithEndings(ls, "\n"), "\n") == ls + [""]
  {
    if ls == [] {
      assert ls + [""] == [""];
    } else {
      var init, last := ls[..|ls| - 1], ls[|ls| - 1];
      SplitEndings(init);
      SplitPlain(last, "\n");
      SplitJoin(last, '\n', "", "\n");
      assert last + ['\n'] + "" == last + "\n";
      AppendLine(WithEndings(init, "\n"), init, last);
    }
  }

  lemma AppendLine(text: string, init: seq<string>, last: string)
    requires Split(text, "\n") == init + [""] && Split(last + "\n", "\n") == [last, ""]
    ensures Split(text + (last + "\n"), "\n") == init + [last] + [""]
  {
    SlashScan.SplitConcat(text, last + "\n", "\n");
    var x, y := init + [""], [last, ""];
    assert x[..|x| - 1] == init && x[|x| - 1] == "" && "" + last == last && y[1..] == [""];
  }

  /** The splitter sees the same lines whichever way they end, without white space at their ends. */
  lemma LineEndings(ls: seq<string>, ending: string)
    requires OneLiners(ls) && (ending == "\n" || ending == "\r\n")
    ensures InputLines(WithEndings(ls, ending)) == Trimmed(ls)
  {
    EndingsWithoutReturns(ls, ending);
    SplitEndings(ls);
    var pieces := ls + [""];
    assert pieces[|pieces| - 1] == "" && pieces[..|pieces| - 1] == ls;
  }
}
