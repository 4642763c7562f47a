/**
  The grouping of marked lines into runs: a run opens at the first line that may open one and ends before
  the first line that is a delimiter or that starts something new given the lines of the run so far.
*/
module LineRuns {
  /** What the split sees of a line. */
  datatype Marks = Marks(delimiter: bool, ugcStart: bool, vtec: bool, geography: bool, content: bool, blank: bool) {
    predicate Opens() {
      !delimiter && content && !blank
    }
  }

  datatype Span = Span(lo: nat, hi: nat)

  predicate VtecIn(ms: seq<Marks>, lo: nat, hi: nat)
    requires lo <= hi <= |ms|
  {
    exists i :: lo <= i < hi && ms[i].vtec
  }

  predicate GeographyIn(ms: seq<Marks>, lo: nat, hi: nat)
    requires lo <= hi <= |ms|
  {
    exists i :: lo <= i < hi && ms[i].geography
  }

  lemma FlagsGrow(ms: seq<Marks>, lo: nat, k: nat)
    requires lo <= k < |ms|
    ensures VtecIn(ms, lo, k + 1) == (VtecIn(ms, lo, k) || ms[k].vtec)
    ensures GeographyIn(ms, lo, k + 1) == (GeographyIn(ms, lo, k) || ms[k].geography)
  {
  }

  /** Line `k` starts a new event after the lines from `lo` on. */
  predicate Boundary(ms: seq<Marks>, lo: nat, k: nat)
    requires lo <= k < |ms|
  {
    VtecIn(ms, lo, k) && (ms[k].ugcStart || (ms[k].vtec && GeographyIn(ms, lo, k)))
  }

  /** Line `k` does not belong to the run that opened at `lo`. */
  predicate Ends(ms: seq<Marks>, lo: nat, k: nat)
    requires lo <= k < |ms|
  {
    ms[k].delimiter || Boundary(ms, lo, k)
  }

  function RunEnd(ms: seq<Marks>, lo: nat, k: nat): (hi: nat)
    requires lo <= k <= |ms|
    ensures k <= hi <= |ms| && (hi < |ms| ==> Ends(ms, lo, hi))
    ensures forall i :: k <= i < hi ==> !Ends(ms, lo, i)
    decreases |ms| - k
  {
    if k == |ms| || Ends(ms, lo, k) then k else RunEnd(ms, lo, k + 1)
  }

  /** The runs from line `k` on, when none is open. */
  function Runs(ms: seq<Marks>, k: nat): seq<Span>
    requires k <= |ms|
    decreases |ms| - k
  {
    if k == |ms| then []
    else if ms[k].Opens() then
      var hi := RunEnd(ms, k, k + 1);
      [Span(k, hi)] + Runs(ms, hi)
    else Runs(ms, k + 1)
  }

  predicate Within(runs: seq<Span>, n: nat) {
    forall i :: 0 <= i < |runs| ==> runs[i].lo < runs[i].hi <= n
  }

  lemma {:induction false} RunsWithin(ms: seq<Marks>, k: nat)
    requires k <= |ms|
    ensures Within(Runs(ms, k), |ms|)
    ensures forall i :: 0 <= i < |Runs(ms, k)| ==> k <= Runs(ms, k)[i].lo
    decreases |ms| - k
  {
    if k < |ms| {
      if ms[k].Opens() {
        RunsWithin(ms, RunEnd(ms, k, k + 1));
      } else {
        RunsWithin(ms, k + 1);
      }
    }
  }

  // ---------------------------------------------------------------- a run still open

  /** The runs still to come when the lines from `lo` up to `k` are buffered. */
  ghost function Pending(ms: seq<Marks>, lo: nat, k: nat): seq<Span>
    requires lo <= k <= |ms|
  {
    var hi := RunEnd(ms, lo, k);
    if lo == k then Runs(ms, k) else [Span(lo, hi)] + Runs(ms, hi)
  }

  lemma PendingFlush(ms: seq<Marks>, lo: nat, k: nat)
    requires lo < k <= |ms| && (k < |ms| ==> Ends(ms, lo, k))
    ensures Pending(ms, lo, k) == [Span(lo, k)] + Pending(ms, k, k)
  {
  }

  lemma PendingExtend(ms: seq<Marks>, lo: nat, k: nat)
    requires lo <= k < |ms| && if lo == k then ms[k].Opens() else !Ends(ms, lo, k)
    ensures Pending(ms, lo, k) == Pending(ms, lo, k + 1)
  {
  }

  lemma PendingSkip(ms: seq<Marks>, k: nat)
    requires k < |ms| && !ms[k].Opens()
    ensures Pending(ms, k, k) == Pending(ms, k + 1, k + 1)
  {
  }

  // ---------------------------------------------------------------- one grouping only

  ghost predicate InOrder(runs: seq<Span>) {
    forall i, j :: 0 <= i < j < |runs| ==> runs[i].hi <= runs[j].lo
  }

  /** A longest run: it opens on its first line, holds no line that ends it, and stops at one that does. */
  ghost predicate Run(ms: seq<Marks>, s: Span) {
    && s.lo < s.hi <= |ms|
    && ms[s.lo].Opens()
    && (forall k :: s.lo < k < s.hi ==> !Ends(ms, s.lo, k))
    && (s.hi < |ms| ==> Ends(ms, s.lo, s.hi))
  }

  predicate Covers(s: Span, k: nat) {
    s.lo <= k < s.hi
  }

  ghost predicate Covered(runs: seq<Span>, k: nat) {
    exists i :: 0 <= i < |runs| && Covers(runs[i], k)
  }

  ghost predicate AllRuns(ms: seq<Marks>, from: nat, runs: seq<Span>) {
    forall i :: 0 <= i < |runs| ==> from <= runs[i].lo && Run(ms, runs[i])
  }

  ghost predicate AllOpen(ms: seq<Marks>, from: nat, runs: seq<Span>) {
    forall k :: from <= k < |ms| && ms[k].Opens() ==> Covered(runs, k)
  }

  /** The lines from `from` on, cut into longest runs and lines that open none. */
  ghost predicate Grouping(ms: seq<Marks>, from: nat, runs: seq<Span>) {
    && InOrder(runs)
    && AllRuns(ms, from, runs)
    && AllOpen(ms, from, runs)
  }

  lemma GroupingMore(ms: seq<Marks>, s: Span, rest: seq<Span>)
    requires Run(ms, s) && Grouping(ms, s.hi, rest)
    ensures Grouping(ms, s.lo, [s] + rest)
  {
    assert InOrder([s] + rest);
    OpenMore(ms, s, rest);
  }

  lemma OpenMore(ms: seq<Marks>, s: Span, rest: seq<Span>)
    requires AllOpen(ms, s.hi, rest)
    ensures AllOpen(ms, s.lo, [s] + rest)
  {
    var runs := [s] + rest;
    forall k | s.lo <= k < |ms| && ms[k].Opens() ensures Covered(runs, k) {
      if k < s.hi {
        assert Covers(runs[0], k);
      } else {
        var i :| 0 <= i < |rest| && Covers(rest[i], k);
        assert Covers(runs[i + 1], k);
      }
    }
  }

  lemma {:induction false} RunsGroup(ms: seq<Marks>, k: nat)
    requires k <= |ms|
    ensures Grouping(ms, k, Runs(ms, k))
    decreases |ms| - k
  {
    if k < |ms| {
      if ms[k].Opens() {
        var hi := RunEnd(ms, k, k + 1);
        RunsGroup(ms, hi);
        GroupingMore(ms, Span(k, hi), Runs(ms, hi));
      } else {
        RunsGroup(ms, k + 1);
      }
    }
  }

  lemma CoveredByRest(runs: seq<Span>, k: nat)
    requires runs != [] && runs[0].hi <= k && Covered(runs, k)
    ensures Covered(runs[1..], k)
  {
    var i :| 0 <= i < |runs| && Covers(runs[i], k);
    assert runs[1..][i - 1] == runs[i];
  }

  lemma NotBeforeFirst(runs: seq<Span>, k: nat)
    requires runs != [] && InOrder(runs) && runs[0].lo < runs[0].hi && k < runs[0].lo
    ensures !Covered(runs, k)
  {
  }

  lemma OpenRest(ms: seq<Marks>, from: nat, runs: seq<Span>)
    requires runs != [] && from <= runs[0].hi && AllOpen(ms, from, runs)
    ensures AllOpen(ms, runs[0].hi, runs[1..])
  {
    forall k | runs[0].hi <= k < |ms| && ms[k].Opens() ensures Covered(runs[1..], k) {
      CoveredByRest(runs, k);
    }
  }

  lemma GroupingRest(ms: seq<Marks>, from: nat, runs: seq<Span>)
    requires runs != [] && Grouping(ms, from, runs)
    ensures Grouping(ms, runs[0].hi, runs[1..])
  {
    assert AllRuns(ms, runs[0].hi, runs[1..]);
    OpenRest(ms, from, runs);
  }

  lemma GroupingGap(ms: seq<Marks>, from: nat, runs: seq<Span>, k: nat)
    requires runs != [] && Grouping(ms, from, runs) && from <= k < runs[0].lo
    ensures !ms[k].Opens()
  {
    NotBeforeFirst(runs, k);
  }

  lemma {:induction false} SkipTo(ms: seq<Marks>, from: nat, to: nat)
    requires from <= to <= |ms| && forall k :: from <= k < to ==> !ms[k].Opens()
    ensures Runs(ms, from) == Runs(ms, to)
    decreases |ms| - from
  {
    if from < to {
      SkipTo(ms, from + 1, to);
    }
  }

  /** The conditions of `Grouping` leave one grouping only, the one the split computes. */
  lemma {:induction false} GroupingIsUnique(ms: seq<Marks>, from: nat, runs: seq<Span>)
    requires from <= |ms|
    ensures Grouping(ms, from, runs) <==> runs == Runs(ms, from)
    decreases |runs|
  {
    RunsGroup(ms, from);
    if Grouping(ms, from, runs) {
      if runs == [] {
        SkipTo(ms, from, |ms|);
      } else {
        GroupingRest(ms, from, runs);
        GroupingIsUnique(ms, runs[0].hi, runs[1..]);
        forall k | from <= k < runs[0].lo ensures !ms[k].Opens() {
          GroupingGap(ms, from, runs, k);
        }
        SkipTo(ms, from, runs[0].lo);
        var hi := RunEnd(ms, runs[0].lo, runs[0].lo + 1);
        assert hi == runs[0].hi;
        assert runs == [runs[0]] + runs[1..];
      }
    }
  }

  // ---------------------------------------------------------------- a choice of runs

  function Filter(runs: seq<Span>, keeps: Span -> bool): seq<Span> {
    if runs == [] then [] else (if keeps(runs[0]) then [runs[0]] else []) + Filter(runs[1..], keeps)
  }

  lemma {:induction false} FilterMembers(runs: seq<Span>, keeps: Span -> bool)
    ensures forall s :: s in Filter(runs, keeps) <==> s in runs && keeps(s)
  {
    if runs != [] {
      FilterMembers(runs[1..], keeps);
      assert runs == [runs[0]] + runs[1..];
    }
  }

  lemma {:induction false} FilterKeepsOrder(runs: seq<Span>, keeps: Span -> bool)
    requires InOrder(runs)
    ensures InOrder(Filter(runs, keeps))
  {
    if runs != [] {
      var rest := Filter(runs[1..], keeps);
      FilterKeepsOrder(runs[1..], keeps);
      FilterMembers(runs[1..], keeps);
      forall j | 0 <= j < |rest| ensures runs[0].hi <= rest[j].lo {
        assert rest[j] in runs[1..];
      }
    }
  }

  // ---------------------------------------------------------------- inside a run

  ghost predicate WellFormed(ms: seq<Marks>, s: Span) {
    && s.lo < s.hi <= |ms|
    && ms[s.lo].content && !ms[s.lo].blank
    && (forall k :: s.lo <= k < s.hi ==> !ms[k].delimiter)
    && (forall i, k :: s.lo <= i < k < s.hi && ms[i].vtec ==> !ms[k].ugcStart)
    && (forall i, g, k :: s.lo <= i < k < s.hi && s.lo <= g < k && ms[i].vtec && ms[g].geography ==> !ms[k].vtec)
  }

  lemma RunIsWellFormed(ms: seq<Marks>, s: Span)
    requires Run(ms, s)
    ensures WellFormed(ms, s)
  {
    forall k | s.lo < k < s.hi ensures !ms[k].delimiter {
      assert !Ends(ms, s.lo, k);
    }
    forall i, k | s.lo <= i < k < s.hi && ms[i].vtec ensures !ms[k].ugcStart {
      assert !Ends(ms, s.lo, k) && VtecIn(ms, s.lo, k);
    }
    forall i, g, k | s.lo <= i < k < s.hi && s.lo <= g < k && ms[i].vtec && ms[g].geography ensures !ms[k].vtec {
      assert !Ends(ms, s.lo, k) && VtecIn(ms, s.lo, k) && GeographyIn(ms, s.lo, k);
    }
  }

  lemma RunAvoidsDelimiter(ms: seq<Marks>, s: Span, m: nat)
    requires Run(ms, s) && s.lo <= m < s.hi
    ensures !ms[m].delimiter
  {
    if s.lo < m {
      assert !Ends(ms, s.lo, m);
    }
  }

  lemma RunStartsAfter(ms: seq<Marks>, s: Span, d: nat, i: nat)
    requires Run(ms, s) && Covers(s, i) && d <= i && (d == 0 || ms[d - 1].delimiter)
    ensures d <= s.lo
  {
    if s.lo < d {
      RunAvoidsDelimiter(ms, s, d - 1);
    }
  }

  lemma NoVtecBeforeUgc(ms: seq<Marks>, s: Span, m: nat, i: nat)
    requires Run(ms, s) && s.lo <= m < i < s.hi && ms[i].ugcStart
    ensures !ms[m].vtec
  {
    assert !Ends(ms, s.lo, i);
  }

  /** A run goes on over lines that are no delimiters as long as it holds no VTEC line. */
  lemma RunReaches(ms: seq<Marks>, s: Span, k: nat)
    requires Run(ms, s) && s.lo <= k < |ms|
    requires forall m :: s.lo < m <= k ==> !ms[m].delimiter
    requires forall m :: s.lo <= m < k ==> !ms[m].vtec
    ensures k < s.hi
  {
  }

  lemma RunStops(ms: seq<Marks>, s: Span)
    requires Run(ms, s) && s.hi < |ms|
    ensures || ms[s.hi].delimiter
            || (exists k :: s.lo <= k < s.hi && ms[k].vtec && ms[s.hi].ugcStart)
            || (exists k, g :: s.lo <= k < s.hi && ms[k].vtec && s.lo <= g < s.hi && ms[g].geography && ms[s.hi].vtec)
  {
    assert Ends(ms, s.lo, s.hi);
  }

  lemma RunOfHeading(ms: seq<Marks>, s: Span, i: nat, k: nat)
    requires Run(ms, s) && Covers(s, i) && i <= k < |ms| && ms[i].ugcStart
    requires forall m :: i <= m < k ==> !ms[m].vtec
    requires forall m :: i <= m <= k ==> !ms[m].delimiter
    ensures Covers(s, k)
  {
    forall m | s.lo <= m < k ensures !ms[m].vtec {
      if m < i {
        NoVtecBeforeUgc(ms, s, m, i);
      }
    }
    forall m | s.lo < m <= k ensures !ms[m].delimiter {
      if m < i {
        RunAvoidsDelimiter(ms, s, m);
      }
    }
    RunReaches(ms, s, k);
  }

  lemma RunOfContent(ms: seq<Marks>, s: Span, d: nat, i: nat, k: nat)
    requires Run(ms, s) && Covers(s, i) && d <= i <= k < |ms| && (d == 0 || ms[d - 1].delimiter)
    requires forall m :: d <= m < k ==> !ms[m].vtec
    requires forall m :: d <= m <= k ==> !ms[m].delimiter
    ensures Covers(s, k)
  {
    RunStartsAfter(ms, s, d, i);
    RunReaches(ms, s, k);
  }
}
