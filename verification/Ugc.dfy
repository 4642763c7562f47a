/**
  Expansion of the UGC shorthand: `-` or `,` separated segments, each a full code (`IAC001`), a full
  or bare range (`IAC001>003`, `004>7`), or a bare number that takes the state and class of the last
  full segment.
*/
module Ugc {
  import opened Wrappers
  import opened Text

  datatype Class = County | Zone | FireZone | Marine

  datatype Code = Code(state: string, class_: Class, number: int)

  /** State and class carried from the last full segment. */
  type Prefix = Option<(string, Class)>

  // ---------------------------------------------------------------- numeric tokens

  predicate ThreeDigits(t: string) {
    |t| == 3 && AllDigits(t)
  }

  predicate OneToThreeDigits(t: string) {
    1 <= |t| <= 3 && AllDigits(t)
  }

  function ParseNumber(t: string): Option<int> {
    if ThreeDigits(t) then Some(DecimalValue(t)) else None
  }

  function Magnitude(digits: nat): (r: nat)
    ensures 1 <= r
  {
    if digits == 0 then 1 else 10 * Magnitude(digits - 1)
  }

  /** A range end, full or abbreviated to its last one or two digits. */
  function ParseRangeEnd(start: int, t: string): Option<int> {
    if !OneToThreeDigits(t) then None
    else if |t| == 3 then if DecimalValue(t) >= start then Some(DecimalValue(t)) else None
    else
      var magnitude := Magnitude(|t|);
      var end := start / magnitude * magnitude + DecimalValue(t);
      if end >= start then Some(end) else None
  }

  predicate NumericSequence(tokens: seq<string>)
    requires tokens != []
  {
    && ThreeDigits(tokens[0])
    && (|tokens| == 1 || |tokens| % 2 == 0)
    && forall i :: 1 <= i < |tokens| ==> OneToThreeDigits(tokens[i])
  }

  type Range = (int, int)

  /** Start and end tokens in pairs. */
  function PairRanges(tokens: seq<string>): Option<seq<Range>> {
    if |tokens| < 2 then Some([])
    else
      var start := ParseNumber(tokens[0]);
      if start.None? then None
      else
        var end, rest := ParseRangeEnd(start.value, tokens[1]), PairRanges(tokens[2..]);
        if end.None? || rest.None? then None else Some([(start.value, end.value)] + rest.value)
  }

  function NumericRanges(tokens: seq<string>): Option<seq<Range>>
    requires tokens != []
  {
    var first := ParseNumber(tokens[0]);
    if first.None? then None
    else if |tokens| == 1 then Some([(first.value, first.value)])
    else if |tokens| % 2 != 0 then None
    else PairRanges(tokens)
  }

  /** `ranges` put before whatever the remaining tokens give. */
  function Prepend(ranges: seq<Range>, rest: Option<seq<Range>>): Option<seq<Range>> {
    if rest.None? then None else Some(ranges + rest.value)
  }

  lemma PrependEmpty(ranges: seq<Range>, rest: Option<seq<Range>>)
    ensures Prepend([], rest) == rest && Prepend(ranges, Some([])) == Some(ranges)
  {
    assert ranges + [] == ranges;
    assert rest.Some? ==> [] + rest.value == rest.value;
  }

  lemma PairStep(tokens: seq<string>, ranges: seq<Range>)
    requires |tokens| >= 2
    ensures var start := ParseNumber(tokens[0]);
            Prepend(ranges, PairRanges(tokens)) ==
              if start.None? then None
              else var end := ParseRangeEnd(start.value, tokens[1]);
                   if end.None? then None else Prepend(ranges + [(start.value, end.value)], PairRanges(tokens[2..]))
  {
    var start, rest := ParseNumber(tokens[0]), PairRanges(tokens[2..]);
    if start.Some? && rest.Some? {
      var end := ParseRangeEnd(start.value, tokens[1]);
      if end.Some? {
        var r := [(start.value, end.value)];
        assert ranges + (r + rest.value) == (ranges + r) + rest.value;
      }
    }
  }

  /** The index loop of `parse_ugc_numeric_ranges`. */
  method PairLoop(tokens: seq<string>) returns (r: Option<seq<Range>>)
    requires |tokens| % 2 == 0
    ensures r == PairRanges(tokens)
  {
    var ranges: seq<Range> := [];
    var index := 0;
    assert tokens[0..] == tokens;
    PrependEmpty([], PairRanges(tokens));
    while index + 1 < |tokens|
      invariant 0 <= index <= |tokens| && index % 2 == 0
      invariant PairRanges(tokens) == Prepend(ranges, PairRanges(tokens[index..]))
    {
      PairStep(tokens[index..], ranges);
      assert tokens[index..][2..] == tokens[index + 2..];
      var start := ParseNumber(tokens[index]);
      if start.None? {
        return None;
      }
      var end := ParseRangeEnd(start.value, tokens[index + 1]);
      if end.None? {
        return None;
      }
      ranges := ranges + [(start.value, end.value)];
      index := index + 2;
    }
    PrependEmpty(ranges, None);
    r := Some(ranges);
  }

  /** `parse_ugc_numeric_ranges` */
  method ParseNumericRanges(numeric: string) returns (r: Option<seq<Range>>)
    ensures r == NumericRanges(Split(numeric, ">"))
  {
    var tokens := Split(numeric, ">");
    var first := ParseNumber(tokens[0]);
    if first.None? {
      return None;
    }
    if |tokens| == 1 {
      return Some([(first.value, first.value)]);
    }
    if |tokens| == 2 {
      var end := ParseRangeEnd(first.value, tokens[1]);
      PairStep(tokens, []);
      PrependEmpty([], PairRanges(tokens));
      assert PairRanges(tokens[2..]) == Some([]);
      if end.Some? {
        PrependEmpty([(first.value, end.value)], None);
        assert [] + [(first.value, end.value)] == [(first.value, end.value)];
      }
      return if end.None? then None else Some([(first.value, end.value)]);
    }
    if |tokens| % 2 != 0 {
      return None;
    }
    r := PairLoop(tokens);
  }

  // ---------------------------------------------------------------- segments

  function ClassOf(c: char): Option<Class> {
    if c == 'C' then Some(County) else if c == 'Z' then Some(Zone) else if c == 'F' then Some(FireZone)
    else if c == 'M' then Some(Marine) else None
  }

  function ClassChar(c: Class): char {
    match c
    case County => 'C'
    case Zone => 'Z'
    case FireZone => 'F'
    case Marine => 'M'
  }

  /** State, class and numeric part of a full segment. */
  function ParseFull(seg: string): Option<(string, Class, string)> {
    if |seg| < 6 || !Upper(seg[0]) || !Upper(seg[1]) || ClassOf(seg[2]).None? then None
    else if NumericSequence(Split(seg[3..], ">")) then Some((seg[..2], ClassOf(seg[2]).value, seg[3..]))
    else None
  }

  function RangeCodes(state: string, class_: Class, r: Range): seq<Code> {
    if r.0 <= r.1 then seq(r.1 - r.0 + 1, i requires 0 <= i => Code(state, class_, r.0 + i)) else []
  }

  function RangesCodes(state: string, class_: Class, rs: seq<Range>): seq<Code> {
    if rs == [] then [] else RangesCodes(state, class_, rs[..|rs| - 1]) + RangeCodes(state, class_, rs[|rs| - 1])
  }

  function Coded(state: string, class_: Class, numeric: string): Option<(seq<Code>, Prefix)> {
    var ranges := NumericRanges(Split(numeric, ">"));
    if ranges.None? then None else Some((RangesCodes(state, class_, ranges.value), Some((state, class_))))
  }

  /** The codes of one segment and the prefix carried on. */
  function Segment(seg: string, prefix: Prefix): Option<(seq<Code>, Prefix)> {
    var full := ParseFull(seg);
    if full.Some? then Coded(full.value.0, full.value.1, full.value.2)
    else if NumericSequence(Split(seg, ">")) && prefix.Some? then Coded(prefix.value.0, prefix.value.1, seg)
    else None
  }

  lemma RangeGrows(state: string, class_: Class, first: int, last: int)
    requires first <= last
    ensures RangeCodes(state, class_, (first, last)) == RangeCodes(state, class_, (first, last - 1)) + [Code(state, class_, last)]
  {
  }

  lemma PushNumber(before: seq<Code>, codes: seq<Code>, state: string, class_: Class, first: int, number: int)
    requires first <= number && codes == before + RangeCodes(state, class_, (first, number - 1))
    ensures codes + [Code(state, class_, number)] == before + RangeCodes(state, class_, (first, number))
  {
    RangeGrows(state, class_, first, number);
  }

  lemma NextRange(state: string, class_: Class, ranges: seq<Range>, i: nat)
    requires i < |ranges|
    ensures RangesCodes(state, class_, ranges[..i + 1]) == RangesCodes(state, class_, ranges[..i]) + RangeCodes(state, class_, ranges[i])
  {
    assert ranges[..i + 1][..i] == ranges[..i];
  }

  /** The inner number loop of `parse_ugc_segment`. */
  method CollectRange(codes: seq<Code>, state: string, class_: Class, first: int, last: int) returns (codes': seq<Code>)
    ensures codes' == codes + RangeCodes(state, class_, (first, last))
  {
    codes' := codes;
    var number := first;
    while number <= last
      invariant first <= number && (number <= last + 1 || number == first)
      invariant codes' == codes + RangeCodes(state, class_, (first, number - 1))
    {
      PushNumber(codes, codes', state, class_, first, number);
      codes' := codes' + [Code(state, class_, number)];
      number := number + 1;
    }
  }

  /** Its loop over the ranges. */
  method CollectCodes(state: string, class_: Class, ranges: seq<Range>) returns (codes: seq<Code>)
    ensures codes == RangesCodes(state, class_, ranges)
  {
    codes := [];
    for i := 0 to |ranges|
      invariant codes == RangesCodes(state, class_, ranges[..i])
    {
      NextRange(state, class_, ranges, i);
      codes := CollectRange(codes, state, class_, ranges[i].0, ranges[i].1);
    }
    assert ranges[..|ranges|] == ranges;
  }

  /** `parse_ugc_segment` */
  method ParseSegment(seg: string, prefix: Prefix) returns (codes: Option<seq<Code>>, prefix': Prefix)
    ensures Segment(seg, prefix) == if codes.Some? then Some((codes.value, prefix')) else None
  {
    var full := ParseFull(seg);
    prefix' := prefix;
    var state, class_, numeric;
    if full.Some? {
      state, class_, numeric := full.value.0, full.value.1, full.value.2;
      prefix' := Some((state, class_));
    } else if NumericSequence(Split(seg, ">")) {
      if prefix.None? {
        return None, prefix;
      }
      state, class_, numeric := prefix.value.0, prefix.value.1, seg;
    } else {
      return None, prefix;
    }
    var ranges := ParseNumericRanges(numeric);
    if ranges.None? {
      return None, prefix';
    }
    var out := CollectCodes(state, class_, ranges.value);
    codes := Some(out);
  }

  // ---------------------------------------------------------------- blocks

  function Combine(a: Option<(seq<Code>, Prefix)>, codes: seq<Code>): Option<(seq<Code>, Prefix)> {
    if a.None? then None else Some((codes + a.value.0, a.value.1))
  }

  /** Segments in order, with the prefix carried along; empty segments are skipped. */
  function Segments(segs: seq<string>, prefix: Prefix): Option<(seq<Code>, Prefix)> {
    if segs == [] then Some(([], prefix))
    else if segs[0] == [] then Segments(segs[1..], prefix)
    else
      var first := Segment(Trim(segs[0]), prefix);
      if first.None? then None else Combine(Segments(segs[1..], first.value.1), first.value.0)
  }

  function Expand(block: string): Option<seq<Code>> {
    var r := Segments(Split(block, ",-"), None);
    if r.None? || r.value.0 == [] then None else Some(r.value.0)
  }

  lemma CombineTwice(a: Option<(seq<Code>, Prefix)>, xs: seq<Code>, ys: seq<Code>)
    ensures Combine(Combine(a, ys), xs) == Combine(a, xs + ys)
    ensures Combine(a, []) == a
  {
    if a.Some? {
      assert xs + (ys + a.value.0) == xs + ys + a.value.0;
      assert [] + a.value.0 == a.value.0;
    }
  }

  /** `expand_ugc_block` */
  method ExpandUgcBlock(block: string) returns (r: Option<seq<Code>>)
    ensures r == Expand(block)
  {
    var segs := Split(block, ",-");
    var codes: seq<Code> := [];
    var prefix: Prefix := None;
    assert segs[0..] == segs;
    CombineTwice(Segments(segs, None), [], []);
    for i := 0 to |segs|
      invariant Segments(segs, None) == Combine(Segments(segs[i..], prefix), codes)
    {
      assert segs[i..][1..] == segs[i + 1..];
      if |segs[i]| > 0 {
        ghost var was := prefix;
        var parsed, carried := ParseSegment(Trim(segs[i]), prefix);
        if parsed.None? {
          return None;
        }
        CombineTwice(Segments(segs[i + 1..], carried), codes, parsed.value);
        codes, prefix := codes + parsed.value, carried;
      }
    }
    assert Segments(segs[|segs|..], prefix) == Some(([], prefix));
    assert codes + [] == codes;
    r := if |codes| == 0 then None else Some(codes);
  }

  lemma {:induction false} SegmentsConcat(xs: seq<string>, ys: seq<string>, prefix: Prefix)
    ensures var first := Segments(xs, prefix);
            Segments(xs + ys, prefix) == if first.None? then None else Combine(Segments(ys, first.value.1), first.value.0)
  {
    if xs == [] {
      assert xs + ys == ys;
      CombineTwice(Segments(ys, prefix), [], []);
    } else {
      assert (xs + ys)[1..] == xs[1..] + ys;
      if xs[0] == [] {
        SegmentsConcat(xs[1..], ys, prefix);
      } else {
        var first := Segment(Trim(xs[0]), prefix);
        if first.Some? {
          SegmentsConcat(xs[1..], ys, first.value.1);
          var rest := Segments(xs[1..], first.value.1);
          if rest.Some? {
            CombineTwice(Segments(ys, rest.value.1), first.value.0, rest.value.0);
          }
        }
      }
    }
  }

  // ---------------------------------------------------------------- splitting joined text

  lemma {:induction false} SplitJoined(xs: seq<string>)
    requires xs != [] && forall i :: 0 <= i < |xs| ==> Plain(xs[i])
    ensures Split(Join(xs, '-'), ",-") == xs
  {
    var init, last := xs[..|xs| - 1], xs[|xs| - 1];
    SplitPlain(last, ",-");
    if |xs| > 1 {
      SplitJoined(init);
      SplitJoin(Join(init, '-'), '-', last, ",-");
    } else {
      assert xs == [last];
    }
  }

  /** A segment's text: not empty, no separator and no white space. */
  predicate Plain(s: string) {
    s != [] && forall i :: 0 <= i < |s| ==> s[i] != ',' && s[i] != '-' && !Space(s[i])
  }

  // ---------------------------------------------------------------- canonical text

  /** `{:03}` of a number below 1000. */
  function Padded(n: nat): (s: string)
    requires n < 1000
    ensures ThreeDigits(s) && Plain(s)
  {
    [DigitOf(n / 100), DigitOf(n / 10 % 10), DigitOf(n % 10)]
  }

  lemma DigitValue(c: char)
    requires Digit(c)
    ensures AllDigits([c]) && DecimalValue([c]) == (c - '0') as int
  {
    assert [c][..0] == [];
    assert DecimalValue([]) == 0;
  }

  lemma DigitsValue(a: char, b: char, c: char)
    requires Digit(a) && Digit(b) && Digit(c)
    ensures AllDigits([a, b, c]) && AllDigits([b, c]) && AllDigits([c])
    ensures DecimalValue([c]) == (c - '0') as int
    ensures DecimalValue([b, c]) == 10 * (b - '0') as int + (c - '0') as int
    ensures DecimalValue([a, b, c]) == 100 * (a - '0') as int + 10 * (b - '0') as int + (c - '0') as int
  {
    DigitValue(a);
    DigitValue(b);
    DigitValue(c);
    assert [b, c][..1] == [b] && [a, b, c][..2] == [a, b] && [a, b][..1] == [a];
  }

  lemma Hundreds(n: nat, h: nat, r: nat)
    requires n == 100 * h + r && r < 100
    ensures n / 100 == h && n % 100 == r
  {
  }

  lemma DecimalParts(n: nat)
    requires n < 1000
    ensures 100 * (n / 100) + 10 * (n / 10 % 10) + n % 10 == n && 10 * (n / 10 % 10) + n % 10 == n % 100
  {
    var q, u := n / 10, n % 10;
    assert n == 10 * q + u;
    var h, t := q / 10, q % 10;
    assert q == 10 * h + t;
    Hundreds(n, h, 10 * t + u);
  }

  lemma PaddedValue(n: nat)
    requires n < 1000
    ensures DecimalValue(Padded(n)) == n && DecimalValue(Padded(n)[1..]) == n % 100 && DecimalValue(Padded(n)[2..]) == n % 10
  {
    var a, b, c := DigitOf(n / 100), DigitOf(n / 10 % 10), DigitOf(n % 10);
    DigitsValue(a, b, c);
    DecimalParts(n);
    assert [a, b, c][1..] == [b, c] && [a, b, c][2..] == [c];
  }

  predicate ValidArea(state: string) {
    |state| == 2 && Upper(state[0]) && Upper(state[1])
  }

  predicate ValidCode(c: Code) {
    ValidArea(c.state) && 0 <= c.number <= 999
  }

  /** The canonical text of a code, as `build_area` looks it up. */
  function Canonical(c: Code): string
    requires ValidCode(c)
  {
    c.state + [ClassChar(c.class_)] + Padded(c.number)
  }

  lemma PlainTrims(s: string)
    requires Plain(s)
    ensures Trim(s) == s
  {
  }

  /** A full segment made of a state, a class and a numeric part. */
  lemma FullSegment(state: string, class_: Class, numeric: string, prefix: Prefix)
    requires ValidArea(state) && |numeric| >= 3 && NumericSequence(Split(numeric, ">"))
    ensures Segment(state + [ClassChar(class_)] + numeric, prefix) == Coded(state, class_, numeric)
  {
    var seg := state + [ClassChar(class_)] + numeric;
    Slices(state, ClassChar(class_), numeric);
    FullParts(seg, class_);
  }

  lemma Slices(a: string, c: char, b: string)
    ensures (a + [c] + b)[..|a|] == a && (a + [c] + b)[|a|] == c && (a + [c] + b)[|a| + 1..] == b
  {
  }

  lemma FullParts(seg: string, class_: Class)
    requires |seg| >= 6 && Upper(seg[0]) && Upper(seg[1]) && seg[2] == ClassChar(class_) && NumericSequence(Split(seg[3..], ">"))
    ensures ParseFull(seg) == Some((seg[..2], class_, seg[3..]))
  {
    assert ClassOf(ClassChar(class_)) == Some(class_);
  }

  /** A bare segment takes the carried prefix. */
  lemma BareSegment(state: string, class_: Class, numeric: string)
    requires numeric != [] && Digit(numeric[0]) && NumericSequence(Split(numeric, ">"))
    ensures Segment(numeric, Some((state, class_))) == Coded(state, class_, numeric)
  {
  }

  lemma OneNumber(state: string, class_: Class, n: nat)
    requires n < 1000
    ensures NumericSequence(Split(Padded(n), ">"))
    ensures Coded(state, class_, Padded(n)) == Some(([Code(state, class_, n)], Some((state, class_))))
  {
    PaddedValue(n);
    SplitPlain(Padded(n), ">");
    var rs := [(n, n)];
    assert rs[..0] == [];
    assert RangesCodes(state, class_, rs) == RangeCodes(state, class_, (n, n)) == [Code(state, class_, n)];
  }

  // ---------------------------------------------------------------- canonical codes come back

  function Texts(codes: seq<Code>): seq<string>
    requires forall i :: 0 <= i < |codes| ==> ValidCode(codes[i])
  {
    seq(|codes|, i requires 0 <= i < |codes| => Canonical(codes[i]))
  }

  lemma CanonicalPlain(state: string, class_: Class, numeric: string)
    requires ValidArea(state) && Plain(numeric)
    ensures Plain(state + [ClassChar(class_)] + numeric)
  {
    var seg := state + [ClassChar(class_)] + numeric;
    forall i | 0 <= i < |seg| ensures seg[i] != ',' && seg[i] != '-' && !Space(seg[i]) {
      if i < 2 {
        assert seg[i] == state[i] && Upper(state[i]);
      } else if i > 2 {
        assert seg[i] == numeric[i - 3];
      }
    }
  }

  /** A segment in front of others. */
  lemma SegmentFirst(seg: string, rest: seq<string>, prefix: Prefix)
    requires Plain(seg) && Segment(seg, prefix).Some?
    ensures var first := Segment(seg, prefix).value;
            Segments([seg] + rest, prefix) == Combine(Segments(rest, first.1), first.0)
  {
    PlainTrims(seg);
    assert ([seg] + rest)[1..] == rest;
  }

  lemma CanonicalSegment(c: Code, prefix: Prefix)
    requires ValidCode(c)
    ensures Plain(Canonical(c))
    ensures Segment(Canonical(c), prefix) == Some(([c], Some((c.state, c.class_))))
  {
    OneNumber(c.state, c.class_, c.number);
    FullSegment(c.state, c.class_, Padded(c.number), prefix);
    CanonicalPlain(c.state, c.class_, Padded(c.number));
  }

  ghost predicate GivesCodes(segs: seq<string>, prefix: Prefix, codes: seq<Code>) {
    Segments(segs, prefix).Some? && Segments(segs, prefix).value.0 == codes
  }

  lemma HeadThenCodes(c: Code, seg: string, rest: seq<string>, prefix: Prefix, codes: seq<Code>)
    requires Plain(seg) && Segment(seg, prefix) == Some(([c], Some((c.state, c.class_))))
    requires GivesCodes(rest, Some((c.state, c.class_)), codes)
    ensures GivesCodes([seg] + rest, prefix, [c] + codes)
  {
    SegmentFirst(seg, rest, prefix);
  }

  lemma TextsFirst(codes: seq<Code>)
    requires codes != [] && forall i :: 0 <= i < |codes| ==> ValidCode(codes[i])
    ensures Texts(codes) == [Canonical(codes[0])] + Texts(codes[1..])
  {
  }

  lemma CodeThenCodes(c: Code, rest: seq<string>, prefix: Prefix, codes: seq<Code>)
    requires ValidCode(c) && GivesCodes(rest, Some((c.state, c.class_)), codes)
    ensures GivesCodes([Canonical(c)] + rest, prefix, [c] + codes)
  {
    CanonicalSegment(c, prefix);
    HeadThenCodes(c, Canonical(c), rest, prefix, codes);
  }

  lemma {:induction false} CanonicalSegments(codes: seq<Code>, prefix: Prefix)
    requires forall i :: 0 <= i < |codes| ==> ValidCode(codes[i])
    ensures GivesCodes(Texts(codes), prefix, codes)
  {
    if codes != [] {
      var c, rest := codes[0], codes[1..];
      CanonicalSegments(rest, Some((c.state, c.class_)));
      CodeThenCodes(c, Texts(rest), prefix, rest);
      TextsFirst(codes);
      assert codes == [c] + rest;
    }
  }

  /** Expanding the `-`-joined canonical texts of any codes returns the codes, in order. */
  lemma CanonicalRoundTrip(codes: seq<Code>)
    requires codes != [] && forall i :: 0 <= i < |codes| ==> ValidCode(codes[i])
    ensures Expand(Join(Texts(codes), '-')) == Some(codes)
  {
    forall i | 0 <= i < |codes| ensures Plain(Texts(codes)[i]) {
      CanonicalSegment(codes[i], None);
    }
    SplitJoined(Texts(codes));
    CanonicalSegments(codes, None);
  }

  // ---------------------------------------------------------------- ranges

  /** The last `digits` digits of a range end. */
  function EndToken(end: nat, digits: nat): string
    requires end < 1000 && 1 <= digits <= 3
  {
    Padded(end)[3 - digits..]
  }

  /** An end may be abbreviated to its last digits when the leading ones are the start's. */
  predicate Abbreviates(start: nat, end: nat, digits: nat) {
    start <= end < 1000 && 1 <= digits <= 3 && start / Magnitude(digits) == end / Magnitude(digits)
  }

  lemma EndTokenParses(start: nat, end: nat, digits: nat)
    requires Abbreviates(start, end, digits)
    ensures OneToThreeDigits(EndToken(end, digits)) && ParseRangeEnd(start, EndToken(end, digits)) == Some(end)
  {
    PaddedValue(end);
    SamePrefix(start, end);
    assert Magnitude(1) == 10 && Magnitude(2) == 10 * Magnitude(1);
    match digits
    case 1 => assert EndToken(end, 1) == Padded(end)[2..];
    case 2 => assert EndToken(end, 2) == Padded(end)[1..];
    case _ => assert EndToken(end, 3) == Padded(end)[0..] == Padded(end);
  }

  lemma SamePrefix(start: nat, end: nat)
    ensures start / 10 == end / 10 ==> start / 10 * 10 + end % 10 == end
    ensures start / 100 == end / 100 ==> start / 100 * 100 + end % 100 == end
  {
  }

  function RangeText(start: nat, end: nat, digits: nat): string
    requires Abbreviates(start, end, digits)
  {
    Padded(start) + ['>'] + EndToken(end, digits)
  }

  lemma RangeSplits(start: nat, end: nat, digits: nat)
    requires Abbreviates(start, end, digits)
    ensures Split(RangeText(start, end, digits), ">") == [Padded(start), EndToken(end, digits)]
  {
    var a, b := Padded(start), EndToken(end, digits);
    SplitJoin(a, '>', b, ">");
    SplitPlain(a, ">");
    SplitPlain(b, ">");
  }

  lemma OneRange(state: string, class_: Class, start: nat, end: nat, digits: nat)
    requires Abbreviates(start, end, digits)
    ensures Split(RangeText(start, end, digits), ">") == [Padded(start), EndToken(end, digits)]
    ensures NumericSequence(Split(RangeText(start, end, digits), ">")) && Plain(RangeText(start, end, digits))
    ensures Coded(state, class_, RangeText(start, end, digits)) ==
            Some((RangeCodes(state, class_, (start, end)), Some((state, class_))))
  {
    RangeSplits(start, end, digits);
    EndTokenParses(start, end, digits);
    RangeOfPair(state, class_, start, end, Padded(start), EndToken(end, digits));
  }

  lemma RangeOfPair(state: string, class_: Class, start: nat, end: nat, a: string, b: string)
    requires start < 1000 && a == Padded(start) && ParseRangeEnd(start, b) == Some(end)
    ensures NumericRanges([a, b]) == Some([(start, end)])
    ensures RangesCodes(state, class_, [(start, end)]) == RangeCodes(state, class_, (start, end))
  {
    PaddedValue(start);
    assert [a, b][2..] == [];
    var rs: seq<Range> := [(start, end)];
    assert PairRanges([a, b][2..]) == Some([]) && rs + [] == rs;
    assert rs[..0] == [];
    assert [] + RangeCodes(state, class_, (start, end)) == RangeCodes(state, class_, (start, end));
  }

  function FullRange(state: string, class_: Class, start: nat, end: nat, digits: nat): string
    requires Abbreviates(start, end, digits)
  {
    state + [ClassChar(class_)] + RangeText(start, end, digits)
  }

  /** The range written as a full code followed by bare numbers. */
  function SpelledOut(state: string, class_: Class, start: nat, end: nat): seq<string>
    requires ValidArea(state) && start <= end < 1000
  {
    [Canonical(Code(state, class_, start))] + Bare(start + 1, end)
  }

  function Bare(first: nat, end: nat): seq<string>
    requires end < 1000
    decreases end + 1 - first
  {
    if first > end then [] else [Padded(first)] + Bare(first + 1, end)
  }

  /** The segments give these codes in order and carry this prefix on. */
  ghost predicate Expands(segs: seq<string>, prefix: Prefix, codes: seq<Code>, carried: Prefix) {
    Segments(segs, prefix) == Some((codes, carried))
  }

  lemma {:induction false} BareExpands(state: string, class_: Class, first: nat, end: nat)
    requires end < 1000
    ensures Expands(Bare(first, end), Some((state, class_)), RangeCodes(state, class_, (first, end)), Some((state, class_)))
    decreases end + 1 - first
  {
    if first <= end {
      BareExpands(state, class_, first + 1, end);
      OneNumber(state, class_, first);
      BareSegment(state, class_, Padded(first));
      var c := Code(state, class_, first);
      HeadThenRange(c, Padded(first), Bare(first + 1, end), Some((state, class_)), first, end);
      assert Bare(first, end) == [Padded(first)] + Bare(first + 1, end);
    } else {
      assert RangeCodes(state, class_, (first, end)) == [];
    }
  }

  lemma {:induction false} BareIsPlain(first: nat, end: nat)
    requires end < 1000
    ensures forall i :: 0 <= i < |Bare(first, end)| ==> Plain(Bare(first, end)[i])
    decreases end + 1 - first
  {
    if first <= end {
      BareIsPlain(first + 1, end);
    }
  }

  lemma RangeFirst(state: string, class_: Class, first: int, last: int)
    requires first <= last
    ensures RangeCodes(state, class_, (first, last)) == [Code(state, class_, first)] + RangeCodes(state, class_, (first + 1, last))
  {
  }

  /** The first code of a range, then the rest of the range. */
  lemma HeadThenRange(c: Code, seg: string, rest: seq<string>, prefix: Prefix, start: int, end: int)
    requires Plain(seg) && Segment(seg, prefix) == Some(([c], Some((c.state, c.class_)))) && c.number == start <= end
    requires Expands(rest, Some((c.state, c.class_)), RangeCodes(c.state, c.class_, (start + 1, end)), Some((c.state, c.class_)))
    ensures Expands([seg] + rest, prefix, RangeCodes(c.state, c.class_, (start, end)), Some((c.state, c.class_)))
  {
    SegmentFirst(seg, rest, prefix);
    RangeFirst(c.state, c.class_, start, end);
  }

  lemma CanonicalThenRange(c: Code, rest: seq<string>, prefix: Prefix, end: int)
    requires ValidCode(c) && c.number <= end
    requires Expands(rest, Some((c.state, c.class_)), RangeCodes(c.state, c.class_, (c.number + 1, end)), Some((c.state, c.class_)))
    ensures Expands([Canonical(c)] + rest, prefix, RangeCodes(c.state, c.class_, (c.number, end)), Some((c.state, c.class_)))
  {
    CanonicalSegment(c, prefix);
    HeadThenRange(c, Canonical(c), rest, prefix, c.number, end);
  }

  lemma CanonicalThenBare(c: Code, end: nat, prefix: Prefix)
    requires ValidCode(c) && c.number <= end < 1000
    ensures Expands([Canonical(c)] + Bare(c.number + 1, end), prefix, RangeCodes(c.state, c.class_, (c.number, end)), Some((c.state, c.class_)))
  {
    BareExpands(c.state, c.class_, c.number + 1, end);
    CanonicalThenRange(c, Bare(c.number + 1, end), prefix, end);
  }

  /** After any carried prefix the spelled-out list gives the range's codes. */
  lemma SpelledOutExpands(state: string, class_: Class, start: nat, end: nat, prefix: Prefix)
    requires ValidArea(state) && start <= end < 1000
    ensures Expands(SpelledOut(state, class_, start, end), prefix, RangeCodes(state, class_, (start, end)), Some((state, class_)))
  {
    CanonicalThenBare(Code(state, class_, start), end, prefix);
  }

  lemma SpelledOutIsPlain(state: string, class_: Class, start: nat, end: nat)
    requires ValidArea(state) && start <= end < 1000
    ensures forall i :: 0 <= i < |SpelledOut(state, class_, start, end)| ==> Plain(SpelledOut(state, class_, start, end)[i])
  {
    CanonicalSegment(Code(state, class_, start), None);
    BareIsPlain(start + 1, end);
  }

  /** A full range segment, abbreviated or not, gives the same codes and carries the same prefix. */
  lemma FullRangeExpands(state: string, class_: Class, start: nat, end: nat, digits: nat, prefix: Prefix)
    requires ValidArea(state) && Abbreviates(start, end, digits)
    ensures Plain(FullRange(state, class_, start, end, digits))
    ensures Expands([FullRange(state, class_, start, end, digits)], prefix, RangeCodes(state, class_, (start, end)), Some((state, class_)))
  {
    var text := RangeText(start, end, digits);
    OneRange(state, class_, start, end, digits);
    FullSegment(state, class_, text, prefix);
    CanonicalPlain(state, class_, text);
    SingleSegment(FullRange(state, class_, start, end, digits), prefix);
  }

  lemma SingleSegment(seg: string, prefix: Prefix)
    requires Plain(seg)
    ensures Segments([seg], prefix) == Segment(seg, prefix)
  {
    PlainTrims(seg);
    assert [seg][1..] == [];
    var r := Segment(seg, prefix);
    if r.Some? {
      assert r.value.0 + [] == r.value.0;
    }
  }

  /** A bare range after a carried prefix gives what the full range of that prefix gives. */
  lemma BareRangeExpands(state: string, class_: Class, start: nat, end: nat, digits: nat)
    requires Abbreviates(start, end, digits)
    ensures Expands([RangeText(start, end, digits)], Some((state, class_)), RangeCodes(state, class_, (start, end)), Some((state, class_)))
  {
    var text := RangeText(start, end, digits);
    OneRange(state, class_, start, end, digits);
    BareSegment(state, class_, text);
    SingleSegment(text, Some((state, class_)));
  }

  /** Segments that expand alike may replace each other inside any text. */
  lemma SameInContext(before: string, xs: seq<string>, ys: seq<string>, after: string)
    requires xs != [] && ys != []
    requires forall i :: 0 <= i < |xs| ==> Plain(xs[i])
    requires forall i :: 0 <= i < |ys| ==> Plain(ys[i])
    requires forall prefix :: Segments(xs, prefix) == Segments(ys, prefix)
    ensures Expand(before + ['-'] + (Join(xs, '-') + ['-'] + after)) == Expand(before + ['-'] + (Join(ys, '-') + ['-'] + after))
  {
    ContextSegments(before, xs, after);
    ContextSegments(before, ys, after);
    var pre, post := Split(before, ",-"), Split(after, ",-");
    var p := Segments(pre, None);
    SegmentsConcat(pre, xs + post, None);
    SegmentsConcat(pre, ys + post, None);
    if p.Some? {
      SegmentsConcat(xs, post, p.value.1);
      SegmentsConcat(ys, post, p.value.1);
    }
  }

  lemma ContextSegments(before: string, xs: seq<string>, after: string)
    requires xs != [] && forall i :: 0 <= i < |xs| ==> Plain(xs[i])
    ensures Split(before + ['-'] + (Join(xs, '-') + ['-'] + after), ",-") == Split(before, ",-") + (xs + Split(after, ",-"))
  {
    SplitJoin(before, '-', Join(xs, '-') + ['-'] + after, ",-");
    SplitJoin(Join(xs, '-'), '-', after, ",-");
    SplitJoined(xs);
  }

  /** Inside any text a full range, its abbreviated form and the spelled-out list mean the same. */
  lemma RangeFormsAgree(before: string, state: string, class_: Class, start: nat, end: nat, digits: nat, after: string)
    requires ValidArea(state) && Abbreviates(start, end, digits)
    ensures Expand(before + ['-'] + (FullRange(state, class_, start, end, digits) + ['-'] + after)) ==
            Expand(before + ['-'] + (Join(SpelledOut(state, class_, start, end), '-') + ['-'] + after))
  {
    var seg := FullRange(state, class_, start, end, digits);
    forall prefix ensures Segments([seg], prefix) == Segments(SpelledOut(state, class_, start, end), prefix) {
      FullRangeExpands(state, class_, start, end, digits, prefix);
      SpelledOutExpands(state, class_, start, end, prefix);
    }
    FullRangeExpands(state, class_, start, end, digits, None);
    SpelledOutIsPlain(state, class_, start, end);
    SameInContext(before, [seg], SpelledOut(state, class_, start, end), after);
  }

  // ---------------------------------------------------------------- several ranges in one segment

  datatype Pair = Pair(start: nat, end: nat, digits: nat)

  ghost predicate ValidPairs(pairs: seq<Pair>) {
    forall i :: 0 <= i < |pairs| ==> Abbreviates(pairs[i].start, pairs[i].end, pairs[i].digits)
  }

  /** The ranges one after the other, each end abbreviated or not, all joined by `>`. */
  ghost function PairsText(pairs: seq<Pair>): string
    requires pairs != [] && ValidPairs(pairs)
  {
    var last := pairs[|pairs| - 1];
    var text := RangeText(last.start, last.end, last.digits);
    if |pairs| == 1 then text else PairsText(pairs[..|pairs| - 1]) + ['>'] + text
  }

  function RangesOf(pairs: seq<Pair>): seq<Range> {
    seq(|pairs|, i requires 0 <= i < |pairs| => (pairs[i].start, pairs[i].end))
  }

  /** A start token, an end token and the range they stand for. */
  datatype Tokens = Tokens(first: string, second: string, range: Range)

  predicate GoodTokens(t: Tokens) {
    && ThreeDigits(t.first) && OneToThreeDigits(t.second)
    && ParseNumber(t.first) == Some(t.range.0) && ParseRangeEnd(t.range.0, t.second) == Some(t.range.1)
  }

  ghost predicate AllGood(ts: seq<Tokens>) {
    forall i :: 0 <= i < |ts| ==> GoodTokens(ts[i])
  }

  function Flat(ts: seq<Tokens>): seq<string> {
    if ts == [] then [] else Flat(ts[..|ts| - 1]) + [ts[|ts| - 1].first, ts[|ts| - 1].second]
  }

  function RangesIn(ts: seq<Tokens>): seq<Range> {
    seq(|ts|, i requires 0 <= i < |ts| => ts[i].range)
  }

  lemma OnePair(t: Tokens)
    requires GoodTokens(t)
    ensures PairRanges([t.first, t.second]) == Some([t.range])
  {
    var tokens := [t.first, t.second];
    PairStep(tokens, []);
    assert tokens[2..] == [] && PairRanges(tokens[2..]) == Some([]);
    PrependEmpty([], PairRanges(tokens));
    PrependEmpty([t.range], None);
    assert [] + [t.range] == [t.range];
  }

  /** Tokens in pairs, each read by `pair`. */
  ghost function PairsBy(tokens: seq<string>, pair: (string, string) -> Option<Range>): Option<seq<Range>> {
    if |tokens| < 2 then Some([])
    else
      var first := pair(tokens[0], tokens[1]);
      if first.None? then None else Prepend([first.value], PairsBy(tokens[2..], pair))
  }

  lemma {:induction false} PairsByConcat(xs: seq<string>, ys: seq<string>, pair: (string, string) -> Option<Range>)
    requires |xs| % 2 == 0 && PairsBy(xs, pair).Some?
    ensures PairsBy(xs + ys, pair) == Prepend(PairsBy(xs, pair).value, PairsBy(ys, pair))
  {
    var all := xs + ys;
    if xs == [] {
      assert all == ys;
      PrependEmpty([], PairsBy(ys, pair));
    } else {
      assert all[2..] == xs[2..] + ys && all[0] == xs[0] && all[1] == xs[1];
      PairsByConcat(xs[2..], ys, pair);
      PrependTwice([pair(xs[0], xs[1]).value], PairsBy(xs[2..], pair).value, PairsBy(ys, pair));
    }
  }

  lemma PrependTwice(a: seq<Range>, b: seq<Range>, r: Option<seq<Range>>)
    ensures Prepend(a, Prepend(b, r)) == Prepend(a + b, r)
  {
    if r.Some? {
      assert a + (b + r.value) == (a + b) + r.value;
    }
  }

  function ReadPair(a: string, b: string): Option<Range> {
    var start := ParseNumber(a);
    if start.None? then None
    else
      var end := ParseRangeEnd(start.value, b);
      if end.None? then None else Some((start.value, end.value))
  }

  function ParsePair(): (string, string) -> Option<Range> {
    (a, b) => ReadPair(a, b)
  }

  lemma {:induction false} PairRangesBy(tokens: seq<string>)
    ensures PairRanges(tokens) == PairsBy(tokens, ParsePair())
  {
    if |tokens| >= 2 {
      PairRangesBy(tokens[2..]);
    }
  }

  /** Tokens in pairs, then more tokens. */
  lemma PairRangesConcat(xs: seq<string>, ys: seq<string>, rs: seq<Range>)
    requires |xs| % 2 == 0 && PairRanges(xs) == Some(rs)
    ensures PairRanges(xs + ys) == Prepend(rs, PairRanges(ys))
  {
    PairRangesBy(xs);
    PairRangesBy(ys);
    PairRangesBy(xs + ys);
    PairsByConcat(xs, ys, ParsePair());
  }

  /** Tokens in pairs for these ranges. */
  ghost predicate PairsFor(tokens: seq<string>, rs: seq<Range>) {
    && |tokens| % 2 == 0 && PairRanges(tokens) == Some(rs)
    && (forall i :: 0 <= i < |tokens| ==> OneToThreeDigits(tokens[i]))
    && (tokens != [] ==> ThreeDigits(tokens[0]))
  }

  lemma OneMorePair(tokens: seq<string>, rs: seq<Range>, t: Tokens)
    requires PairsFor(tokens, rs) && GoodTokens(t)
    ensures PairsFor(tokens + [t.first, t.second], rs + [t.range])
  {
    OnePair(t);
    PairRangesConcat(tokens, [t.first, t.second], rs);
  }

  lemma {:induction false} FlatPairs(ts: seq<Tokens>)
    requires AllGood(ts)
    ensures PairsFor(Flat(ts), RangesIn(ts))
  {
    if ts == [] {
      NoPairs();
      assert RangesIn(ts) == [];
    } else {
      var init, last := ts[..|ts| - 1], ts[|ts| - 1];
      var tokens, rs := Flat(init), RangesIn(init);
      assert Flat(ts) == tokens + [last.first, last.second];
      assert RangesIn(ts) == rs + [last.range];
      FlatPairs(init);
      OneMorePair(tokens, rs, last);
    }
  }

  lemma NoPairs()
    ensures PairsFor([], [])
  {
  }

  /** A numeric part whose tokens are such pairs. */
  lemma PairsAreCoded(state: string, class_: Class, numeric: string, rs: seq<Range>)
    requires PairsFor(Split(numeric, ">"), rs)
    ensures NumericSequence(Split(numeric, ">"))
    ensures Coded(state, class_, numeric) == Some((RangesCodes(state, class_, rs), Some((state, class_))))
  {
    EvenTokens(Split(numeric, ">"), rs);
  }

  lemma EvenTokens(tokens: seq<string>, rs: seq<Range>)
    requires tokens != [] && PairsFor(tokens, rs)
    ensures NumericSequence(tokens) && NumericRanges(tokens) == Some(rs)
  {
  }

  function TokensOf(p: Pair): Tokens
    requires Abbreviates(p.start, p.end, p.digits)
  {
    Tokens(Padded(p.start), EndToken(p.end, p.digits), (p.start, p.end))
  }

  ghost function AllTokens(pairs: seq<Pair>): seq<Tokens>
    requires ValidPairs(pairs)
  {
    seq(|pairs|, i requires 0 <= i < |pairs| => TokensOf(pairs[i]))
  }

  lemma PairIsGood(p: Pair)
    requires Abbreviates(p.start, p.end, p.digits)
    ensures GoodTokens(TokensOf(p))
  {
    EndTokenParses(p.start, p.end, p.digits);
    PaddedValue(p.start);
  }

  lemma AllPairsGood(pairs: seq<Pair>)
    requires ValidPairs(pairs)
    ensures AllGood(AllTokens(pairs)) && RangesIn(AllTokens(pairs)) == RangesOf(pairs)
  {
    forall i | 0 <= i < |pairs| ensures GoodTokens(AllTokens(pairs)[i]) {
      PairIsGood(pairs[i]);
    }
  }

  lemma {:induction false} PairsSplit(pairs: seq<Pair>)
    requires pairs != [] && ValidPairs(pairs)
    ensures Split(PairsText(pairs), ">") == Flat(AllTokens(pairs))
  {
    var init, last := pairs[..|pairs| - 1], pairs[|pairs| - 1];
    RangeSplits(last.start, last.end, last.digits);
    FlatLast(pairs);
    if |pairs| > 1 {
      PairsSplit(init);
      SplitJoin(PairsText(init), '>', RangeText(last.start, last.end, last.digits), ">");
    }
  }

  lemma FlatLast(pairs: seq<Pair>)
    requires pairs != [] && ValidPairs(pairs)
    ensures var init, t := pairs[..|pairs| - 1], TokensOf(pairs[|pairs| - 1]);
            && Flat(AllTokens(pairs)) == Flat(AllTokens(init)) + [t.first, t.second]
            && (|pairs| == 1 ==> Flat(AllTokens(pairs)) == [t.first, t.second])
  {
    assert AllTokens(pairs)[..|pairs| - 1] == AllTokens(pairs[..|pairs| - 1]);
  }

  lemma {:induction false} PairsArePlain(pairs: seq<Pair>)
    requires pairs != [] && ValidPairs(pairs)
    ensures Plain(PairsText(pairs)) && |PairsText(pairs)| >= 3 && Digit(PairsText(pairs)[0])
  {
    var init, last := pairs[..|pairs| - 1], pairs[|pairs| - 1];
    RangeIsPlain(last);
    if |pairs| > 1 {
      PairsArePlain(init);
      PlainJoin(PairsText(init), RangeText(last.start, last.end, last.digits));
    }
  }

  lemma PlainJoin(a: string, b: string)
    requires Plain(a) && Plain(b)
    ensures Plain(a + ['>'] + b) && (a + ['>'] + b)[0] == a[0]
  {
  }

  lemma RangeIsPlain(p: Pair)
    requires Abbreviates(p.start, p.end, p.digits)
    ensures var text := RangeText(p.start, p.end, p.digits); Plain(text) && |text| >= 3 && Digit(text[0])
  {
  }

  lemma PairsCoded(state: string, class_: Class, pairs: seq<Pair>)
    requires pairs != [] && ValidPairs(pairs)
    ensures NumericSequence(Split(PairsText(pairs), ">"))
    ensures Coded(state, class_, PairsText(pairs)) == Some((RangesCodes(state, class_, RangesOf(pairs)), Some((state, class_))))
  {
    PairsSplit(pairs);
    AllPairsGood(pairs);
    FlatPairs(AllTokens(pairs));
    PairsAreCoded(state, class_, PairsText(pairs), RangesOf(pairs));
  }

  /** A full segment of several ranges gives the concatenation of the ranges' codes, and carries its prefix. */
  lemma FullPairsExpand(state: string, class_: Class, pairs: seq<Pair>, prefix: Prefix)
    requires ValidArea(state) && pairs != [] && ValidPairs(pairs)
    ensures Expands([state + [ClassChar(class_)] + PairsText(pairs)], prefix, RangesCodes(state, class_, RangesOf(pairs)), Some((state, class_)))
  {
    var text := PairsText(pairs);
    PairsCoded(state, class_, pairs);
    PairsArePlain(pairs);
    FullSegment(state, class_, text, prefix);
    CanonicalPlain(state, class_, text);
    SingleSegment(state + [ClassChar(class_)] + text, prefix);
  }

  /** And so does a bare one after a carried prefix. */
  lemma BarePairsExpand(state: string, class_: Class, pairs: seq<Pair>)
    requires pairs != [] && ValidPairs(pairs)
    ensures Expands([PairsText(pairs)], Some((state, class_)), RangesCodes(state, class_, RangesOf(pairs)), Some((state, class_)))
  {
    PairsCoded(state, class_, pairs);
    PairsArePlain(pairs);
    BareSegment(state, class_, PairsText(pairs));
    SingleSegment(PairsText(pairs), Some((state, class_)));
  }

  /** The ranges as segments of their own, the first in full. */
  ghost function SeparateRanges(state: string, class_: Class, pairs: seq<Pair>): seq<string>
    requires pairs != [] && ValidPairs(pairs)
  {
    var last := pairs[|pairs| - 1];
    if |pairs| == 1 then [FullRange(state, class_, last.start, last.end, last.digits)]
    else SeparateRanges(state, class_, pairs[..|pairs| - 1]) + [RangeText(last.start, last.end, last.digits)]
  }

  lemma {:induction false} SeparateRangesExpand(state: string, class_: Class, pairs: seq<Pair>, prefix: Prefix)
    requires ValidArea(state) && pairs != [] && ValidPairs(pairs)
    ensures Expands(SeparateRanges(state, class_, pairs), prefix, RangesCodes(state, class_, RangesOf(pairs)), Some((state, class_)))
  {
    var init, last := pairs[..|pairs| - 1], pairs[|pairs| - 1];
    LastRange(state, class_, pairs);
    if |pairs| == 1 {
      FullRangeExpands(state, class_, last.start, last.end, last.digits, prefix);
    } else {
      SeparateRangesExpand(state, class_, init, prefix);
      BareRangeExpands(state, class_, last.start, last.end, last.digits);
      ExpandsConcat(SeparateRanges(state, class_, init), [RangeText(last.start, last.end, last.digits)], prefix,
                    RangesCodes(state, class_, RangesOf(init)), RangeCodes(state, class_, (last.start, last.end)), Some((state, class_)));
    }
  }

  lemma LastRange(state: string, class_: Class, pairs: seq<Pair>)
    requires pairs != []
    ensures var init, last := pairs[..|pairs| - 1], pairs[|pairs| - 1];
            && RangesCodes(state, class_, RangesOf(pairs)) == RangesCodes(state, class_, RangesOf(init)) + RangeCodes(state, class_, (last.start, last.end))
            && (|pairs| == 1 ==> RangesCodes(state, class_, RangesOf(pairs)) == RangeCodes(state, class_, (last.start, last.end)))
  {
    assert RangesOf(pairs)[..|pairs| - 1] == RangesOf(pairs[..|pairs| - 1]);
    assert RangesCodes(state, class_, []) == [];
  }

  lemma ExpandsConcat(xs: seq<string>, ys: seq<string>, prefix: Prefix, a: seq<Code>, b: seq<Code>, carried: Prefix)
    requires Expands(xs, prefix, a, carried) && Expands(ys, carried, b, carried)
    ensures Expands(xs + ys, prefix, a + b, carried)
  {
    SegmentsConcat(xs, ys, prefix);
  }

  lemma {:induction false} SeparateRangesArePlain(state: string, class_: Class, pairs: seq<Pair>)
    requires ValidArea(state) && pairs != [] && ValidPairs(pairs)
    ensures SeparateRanges(state, class_, pairs) != []
    ensures forall i :: 0 <= i < |SeparateRanges(state, class_, pairs)| ==> Plain(SeparateRanges(state, class_, pairs)[i])
  {
    var init, last := pairs[..|pairs| - 1], pairs[|pairs| - 1];
    RangeIsPlain(last);
    if |pairs| == 1 {
      CanonicalPlain(state, class_, RangeText(last.start, last.end, last.digits));
    } else {
      SeparateRangesArePlain(state, class_, init);
    }
  }

  /** Inside any text several ranges in one segment mean the same as one segment per range. */
  lemma PairFormsAgree(before: string, state: string, class_: Class, pairs: seq<Pair>, after: string)
    requires ValidArea(state) && pairs != [] && ValidPairs(pairs)
    ensures Expand(before + ['-'] + ((state + [ClassChar(class_)] + PairsText(pairs)) + ['-'] + after)) ==
            Expand(before + ['-'] + (Join(SeparateRanges(state, class_, pairs), '-') + ['-'] + after))
  {
    var seg, separate := state + [ClassChar(class_)] + PairsText(pairs), SeparateRanges(state, class_, pairs);
    forall prefix ensures Segments([seg], prefix) == Segments(separate, prefix) {
      FullPairsExpand(state, class_, pairs, prefix);
      SeparateRangesExpand(state, class_, pairs, prefix);
    }
    PairsArePlain(pairs);
    CanonicalPlain(state, class_, PairsText(pairs));
    SeparateRangesArePlain(state, class_, pairs);
    SameInContext(before, [seg], separate, after);
  }

  // ---------------------------------------------------------------- every accepted text

  lemma {:induction false} ValueBelow(s: string)
    requires AllDigits(s)
    ensures DecimalValue(s) < Magnitude(|s|)
  {
    if s != [] {
      ValueBelow(s[..|s| - 1]);
    }
  }

  lemma NumberInRange(t: string)
    requires ParseNumber(t).Some?
    ensures 0 <= ParseNumber(t).value <= 999
  {
    ValueBelow(t);
    assert Magnitude(1) == 10 && Magnitude(2) == 100 && Magnitude(3) == 1000;
  }

  predicate ValidRange(r: Range) {
    0 <= r.0 <= r.1 <= 999
  }

  ghost predicate ValidRanges(rs: seq<Range>) {
    forall i :: 0 <= i < |rs| ==> ValidRange(rs[i])
  }

  /** An abbreviated end keeps the leading digits of the start, so it stays within three digits. */
  lemma RangeEndInRange(start: int, t: string)
    requires 0 <= start <= 999 && ParseRangeEnd(start, t).Some?
    ensures ValidRange((start, ParseRangeEnd(start, t).value))
  {
    ValueBelow(t);
    assert Magnitude(1) == 10 && Magnitude(2) == 100 && Magnitude(3) == 1000;
    if |t| == 1 {
      assert start / 10 <= 99;
    } else if |t| == 2 {
      assert start / 100 <= 9;
    }
  }

  lemma PairInRange(a: string, b: string)
    requires ReadPair(a, b).Some?
    ensures ValidRange(ReadPair(a, b).value)
  {
    var start := ParseNumber(a);
    NumberInRange(a);
    RangeEndInRange(start.value, b);
  }

  lemma {:induction false} PairsByInRange(tokens: seq<string>, pair: (string, string) -> Option<Range>)
    requires PairsBy(tokens, pair).Some? && forall a, b :: pair(a, b).Some? ==> ValidRange(pair(a, b).value)
    ensures ValidRanges(PairsBy(tokens, pair).value)
  {
    if |tokens| >= 2 {
      PairsByInRange(tokens[2..], pair);
    }
  }

  lemma RangesInRange(tokens: seq<string>)
    requires tokens != [] && NumericRanges(tokens).Some?
    ensures ValidRanges(NumericRanges(tokens).value)
  {
    if |tokens| == 1 {
      NumberInRange(tokens[0]);
    } else {
      PairRangesBy(tokens);
      forall a, b | ParsePair()(a, b).Some? ensures ValidRange(ParsePair()(a, b).value) {
        PairInRange(a, b);
      }
      PairsByInRange(tokens, ParsePair());
    }
  }

  ghost predicate AllValid(codes: seq<Code>) {
    forall i :: 0 <= i < |codes| ==> ValidCode(codes[i])
  }

  lemma {:induction false} CodesOfRanges(state: string, class_: Class, rs: seq<Range>)
    requires ValidArea(state) && ValidRanges(rs)
    ensures AllValid(RangesCodes(state, class_, rs))
  {
    if rs != [] {
      CodesOfRanges(state, class_, rs[..|rs| - 1]);
      assert ValidRange(rs[|rs| - 1]);
    }
  }

  predicate ValidPrefix(prefix: Prefix) {
    prefix.Some? ==> ValidArea(prefix.value.0)
  }

  /** Valid codes and a valid prefix, or nothing. */
  ghost predicate Sound(r: Option<(seq<Code>, Prefix)>) {
    r.Some? ==> AllValid(r.value.0) && ValidPrefix(r.value.1)
  }

  lemma CodedIsSound(state: string, class_: Class, numeric: string)
    requires ValidArea(state)
    ensures Sound(Coded(state, class_, numeric))
  {
    var ranges := NumericRanges(Split(numeric, ">"));
    if ranges.Some? {
      RangesInRange(Split(numeric, ">"));
      CodesOfRanges(state, class_, ranges.value);
    }
  }

  lemma SegmentIsSound(seg: string, prefix: Prefix)
    requires ValidPrefix(prefix)
    ensures Sound(Segment(seg, prefix))
  {
    var full := ParseFull(seg);
    if full.Some? {
      CodedIsSound(full.value.0, full.value.1, full.value.2);
    } else if prefix.Some? {
      CodedIsSound(prefix.value.0, prefix.value.1, seg);
    }
  }

  lemma {:induction false} SegmentsAreSound(segs: seq<string>, prefix: Prefix)
    requires ValidPrefix(prefix)
    ensures Sound(Segments(segs, prefix))
  {
    if segs != [] {
      if segs[0] == [] {
        SegmentsAreSound(segs[1..], prefix);
      } else {
        var first := Segment(Trim(segs[0]), prefix);
        SegmentIsSound(Trim(segs[0]), prefix);
        if first.Some? {
          SegmentsAreSound(segs[1..], first.value.1);
          CombineIsSound(Segments(segs[1..], first.value.1), first.value.0);
        }
      }
    }
  }

  lemma CombineIsSound(rest: Option<(seq<Code>, Prefix)>, codes: seq<Code>)
    requires Sound(rest) && AllValid(codes)
    ensures Sound(Combine(rest, codes))
  {
  }

  /** Every text that expands gives valid codes, and their canonical texts give them again: expanding, writing out and
      expanding once more is expanding. */
  lemma AcceptedTextRoundTrip(block: string)
    requires Expand(block).Some?
    ensures var codes := Expand(block).value;
            codes != [] && AllValid(codes) && Expand(Join(Texts(codes), '-')) == Some(codes)
  {
    SegmentsAreSound(Split(block, ",-"), None);
    CanonicalRoundTrip(Expand(block).value);
  }

  // ---------------------------------------------------------------- the text of a code

  /** A canonical text is two letters, a class letter, and three digits with the number's decimal value. */
  lemma CanonicalLetters(c: Code)
    requires ValidCode(c)
    ensures var t := Canonical(c);
            && |t| == 6 && t[..2] == c.state && 'A' <= t[0] <= 'Z' && 'A' <= t[1] <= 'Z'
            && t[2] == (match c.class_ case County => 'C' case Zone => 'Z' case FireZone => 'F' case Marine => 'M')
            && '0' <= t[3] <= '9' && '0' <= t[4] <= '9' && '0' <= t[5] <= '9'
            && c.number == 100 * (t[3] - '0') as int + 10 * (t[4] - '0') as int + (t[5] - '0') as int
  {
    DecimalParts(c.number);
  }

  lemma Decompose(a: int, b: int, c: int)
    requires 0 <= a < 10 && 0 <= b < 10 && 0 <= c < 10
    ensures var n := 100 * a + 10 * b + c; n / 100 == a && n / 10 % 10 == b && n % 10 == c
  {
    var n := 100 * a + 10 * b + c;
    assert n / 10 == 10 * a + b;
  }

  lemma DigitOfDigit(c: char)
    requires Digit(c)
    ensures DigitOf((c - '0') as int) == c
  {
  }

  /** Every such text is the canonical text of a code. */
  lemma ReadCanonical(t: string) returns (c: Code)
    requires |t| == 6 && Upper(t[0]) && Upper(t[1]) && t[2] in "CZFM" && Digit(t[3]) && Digit(t[4]) && Digit(t[5])
    ensures ValidCode(c) && Canonical(c) == t
  {
    var x, y, z := (t[3] - '0') as int, (t[4] - '0') as int, (t[5] - '0') as int;
    Decompose(x, y, z);
    DigitOfDigit(t[3]);
    DigitOfDigit(t[4]);
    DigitOfDigit(t[5]);
    c := Code(t[..2], if t[2] == 'C' then County else if t[2] == 'Z' then Zone else if t[2] == 'F' then FireZone else Marine, 100 * x + 10 * y + z);
    assert Padded(c.number) == [t[3], t[4], t[5]];
  }

  // ---------------------------------------------------------------- separators and white space

  ghost predicate Separators(s: string) {
    forall i :: 0 <= i < |s| ==> s[i] == ',' || s[i] == '-'
  }

  lemma SkipEmpty(xs: seq<string>, ys: seq<string>, prefix: Prefix)
    ensures Segments(xs + ([""] + ys), prefix) == Segments(xs + ys, prefix)
  {
    SegmentsConcat(xs, [""] + ys, prefix);
    SegmentsConcat(xs, ys, prefix);
    assert ([""] + ys)[1..] == ys;
  }

  lemma {:induction false} SeparatorRun(a: string, seps: string, b: string)
    requires seps != [] && Separators(seps)
    ensures Segments(Split(a + seps + b, ",-"), None) == Segments(Split(a, ",-") + Split(b, ",-"), None)
  {
    var n := |seps| - 1;
    var init, last := seps[..n], seps[n];
    assert a + seps + b == (a + init) + [last] + b;
    SplitJoin(a + init, last, b, ",-");
    if init == [] {
      assert a + init == a;
    } else {
      var x, y := Split(a, ",-"), Split(b, ",-");
      EmptyPieces(a, init);
      SkipEmpties(x, n, y);
    }
  }

  function Empties(n: nat): seq<string> {
    seq(n, i => "")
  }

  lemma {:induction false} EmptyPieces(a: string, seps: string)
    requires Separators(seps)
    ensures Split(a + seps, ",-") == Split(a, ",-") + Empties(|seps|)
  {
    if seps == [] {
      assert a + seps == a && Split(a, ",-") + Empties(0) == Split(a, ",-");
    } else {
      var n := |seps| - 1;
      EmptyPieces(a, seps[..n]);
      assert a + seps == (a + seps[..n]) + [seps[n]] + "";
      SplitJoin(a + seps[..n], seps[n], "", ",-");
      assert Empties(n) + [""] == Empties(n + 1);
      assert Split(a, ",-") + Empties(n) + [""] == Split(a, ",-") + (Empties(n) + [""]);
    }
  }

  lemma {:induction false} SkipEmpties(xs: seq<string>, n: nat, ys: seq<string>)
    ensures Segments(xs + Empties(n) + ys, None) == Segments(xs + ys, None)
  {
    if n == 0 {
      assert xs + Empties(0) + ys == xs + ys;
    } else {
      assert xs + Empties(n) + ys == (xs + Empties(n - 1)) + ([""] + ys);
      SkipEmpty(xs + Empties(n - 1), ys, None);
      SkipEmpties(xs, n - 1, ys);
    }
  }

  /** Any run of commas and dashes separates as one dash does. */
  lemma SeparatorsAgree(a: string, seps: string, b: string)
    requires seps != [] && Separators(seps)
    ensures Expand(a + seps + b) == Expand(a + ['-'] + b)
  {
    SeparatorRun(a, seps, b);
    SeparatorRun(a, ['-'], b);
  }

  /** White space around a segment does not count. */
  lemma SpacesDoNotCount(before: string, left: string, seg: string, right: string, after: string)
    requires Blank(left) && Blank(right) && Plain(seg)
    ensures Expand(before + ['-'] + ((left + seg + right) + ['-'] + after)) == Expand(before + ['-'] + (seg + ['-'] + after))
  {
    var piece := left + seg + right;
    PieceSplits(before, piece, after);
    PieceSplits(before, seg, after);
    TrimEndIs(left + seg, right);
    TrimStartIs(left, seg);
    PlainTrims(seg);
    SameSegment(piece, seg, Split(before, ",-"), Split(after, ",-"));
  }

  lemma PieceSplits(before: string, piece: string, after: string)
    requires forall i :: 0 <= i < |piece| ==> piece[i] !in ",-"
    ensures Split(before + ['-'] + (piece + ['-'] + after), ",-") == Split(before, ",-") + ([piece] + Split(after, ",-"))
  {
    SplitJoin(before, '-', piece + ['-'] + after, ",-");
    SplitJoin(piece, '-', after, ",-");
    SplitPlain(piece, ",-");
  }

  lemma SameSegment(x: string, y: string, pre: seq<string>, post: seq<string>)
    requires x != [] && y != [] && Trim(x) == Trim(y)
    ensures Segments(pre + ([x] + post), None) == Segments(pre + ([y] + post), None)
  {
    SegmentsConcat(pre, [x] + post, None);
    SegmentsConcat(pre, [y] + post, None);
    assert ([x] + post)[1..] == post && ([y] + post)[1..] == post;
  }

  /** One segment that is neither a code with ranges nor numbers spoils the whole text. */
  lemma {:induction false} BadSegmentRejects(segs: seq<string>, i: nat, prefix: Prefix)
    requires i < |segs| && segs[i] != [] && ParseFull(Trim(segs[i])).None? && !NumericSequence(Split(Trim(segs[i]), ">"))
    ensures Segments(segs, prefix).None?
  {
    if i > 0 {
      if segs[0] == [] {
        BadSegmentRejects(segs[1..], i - 1, prefix);
      } else {
        var first := Segment(Trim(segs[0]), prefix);
        if first.Some? {
          BadSegmentRejects(segs[1..], i - 1, first.value.1);
        }
      }
    }
  }
}
