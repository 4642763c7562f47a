/**
  Readings of a day and time (`DDHHMM`) in the months of a calendar, around a reference instant.
  Only three things are used of the calendar: months follow one another, have 28 to 31 days, and of
  two neighbours one has 31.
*/
module Readings {
  const SECOND := 1_000_000_000
  const MINUTE := 60 * SECOND
  const DAY := 86_400 * SECOND

  /** Day number of the first of month `k`, and the month's length. */
  datatype Calendar = Calendar(start: int -> int, length: int -> int)

  predicate RegularAt(c: Calendar, k: int) {
    && c.start(k + 1) == c.start(k) + c.length(k)
    && 28 <= c.length(k) <= 31
    && (c.length(k) == 31 || c.length(k + 1) == 31)
  }

  ghost predicate Regular(c: Calendar) {
    forall k :: RegularAt(c, k)
  }

  predicate ValidDayTime(day: int, hour: int, minute: int) {
    1 <= day <= 31 && 0 <= hour <= 23 && 0 <= minute <= 59
  }

  datatype DHM = DHM(day: int, hour: int, minute: int)

  predicate Valid(x: DHM) {
    ValidDayTime(x.day, x.hour, x.minute)
  }

  function TimeOfDay(hour: int, minute: int): int {
    (hour * 60 + minute) * MINUTE
  }

  /** The instant of a day and time in month `k`. */
  function At(c: Calendar, k: int, x: DHM): int {
    (c.start(k) + x.day - 1) * DAY + TimeOfDay(x.hour, x.minute)
  }

  predicate ReadsIn(c: Calendar, t: int, k: int, x: DHM) {
    x.day <= c.length(k) && t == At(c, k, x)
  }

  /** An instant that reads `x` in some month of the whole calendar. */
  ghost predicate Reads(c: Calendar, t: int, x: DHM) {
    exists k :: ReadsIn(c, t, k, x)
  }

  /** The reading of month `k`, if the month has the day. */
  function InMonth(c: Calendar, k: int, x: DHM): seq<int> {
    if x.day <= c.length(k) then [At(c, k, x)] else []
  }

  /** The candidates around month `k`. */
  function Window(c: Calendar, k: int, x: DHM): seq<int> {
    InMonth(c, k - 1, x) + InMonth(c, k, x) + InMonth(c, k + 1, x)
  }

  /** `ref` lies in month `k`. */
  predicate Within(c: Calendar, ref: int, k: int) {
    c.start(k) * DAY <= ref < c.start(k + 1) * DAY
  }

  function Distance(t: int, ref: int): int {
    if t < ref then ref - t else t - ref
  }

  // ---------------------------------------------------------------- order

  lemma {:induction false} MonthsOrdered(c: Calendar, j: int, k: int)
    requires Regular(c) && j <= k
    ensures c.start(j) + 28 * (k - j) <= c.start(k)
    decreases k - j
  {
    if j < k {
      assert RegularAt(c, j);
      MonthsOrdered(c, j + 1, k);
    }
  }

  lemma AtBounds(c: Calendar, k: int, x: DHM)
    requires Regular(c) && Valid(x)
    ensures (c.start(k) + x.day - 1) * DAY <= At(c, k, x) < (c.start(k) + x.day) * DAY
    ensures x.day <= c.length(k) ==> At(c, k, x) < c.start(k + 1) * DAY
  {
    assert RegularAt(c, k);
    assert 0 <= TimeOfDay(x.hour, x.minute) < DAY;
  }

  /** Earlier months read earlier, with the later month's start between them. */
  lemma ReadingsOrdered(c: Calendar, j: int, k: int, x: DHM)
    requires Regular(c) && Valid(x) && j < k && x.day <= c.length(j)
    ensures At(c, j, x) < c.start(k) * DAY <= At(c, k, x)
  {
    AtBounds(c, j, x);
    AtBounds(c, k, x);
    MonthsOrdered(c, j + 1, k);
  }

  /** Readings of neighbouring months are at most 31 days apart. */
  lemma NextReading(c: Calendar, k: int, x: DHM)
    requires Regular(c)
    ensures At(c, k, x) < At(c, k + 1, x) <= At(c, k, x) + 31 * DAY
  {
    assert RegularAt(c, k);
    var a, b := c.start(k) + x.day - 1, c.start(k + 1) + x.day - 1;
    assert a < b <= a + 31;
  }

  lemma BeforeMonth(c: Calendar, ref: int, k: int, x: DHM, t: int, j: int)
    requires Regular(c) && Valid(x) && Within(c, ref, k) && ReadsIn(c, t, j, x)
    ensures j < k ==> t < ref
    ensures k < j ==> ref < t
  {
    if j < k {
      ReadingsOrdered(c, j, k, x);
    } else if k < j {
      MonthsOrdered(c, k + 1, j);
      AtBounds(c, j, x);
    }
  }

  lemma WindowMembers(c: Calendar, k: int, x: DHM, t: int)
    ensures t in Window(c, k, x) <==> ReadsIn(c, t, k - 1, x) || ReadsIn(c, t, k, x) || ReadsIn(c, t, k + 1, x)
  {
    assert t in Window(c, k, x) <==> t in InMonth(c, k - 1, x) || t in InMonth(c, k, x) || t in InMonth(c, k + 1, x);
  }

  lemma WindowNotEmpty(c: Calendar, k: int, x: DHM)
    requires Regular(c) && Valid(x)
    ensures Window(c, k, x) != []
  {
    assert RegularAt(c, k);
  }

  /** Every day lies in some month. */
  lemma MonthOfDay(c: Calendar, n: int, k0: int) returns (k: int)
    requires Regular(c)
    ensures c.start(k) <= n < c.start(k + 1)
    decreases if n < c.start(k0) then 2 * (c.start(k0) - n) + 1 else 2 * (n - c.start(k0))
  {
    assert RegularAt(c, k0) && RegularAt(c, k0 - 1);
    if n < c.start(k0 - 1) {
      k := MonthOfDay(c, n, k0 - 1);
    } else if n < c.start(k0) {
      k := k0 - 1;
    } else if n < c.start(k0 + 1) {
      k := k0;
    } else {
      k := MonthOfDay(c, n, k0 + 1);
    }
  }

  // ---------------------------------------------------------------- at or after the reference

  /** The current or next month holds a reading at or after the reference. */
  predicate Upcoming(c: Calendar, ref: int, k: int, x: DHM) {
    x.day <= c.length(k + 1) || (x.day <= c.length(k) && ref <= At(c, k, x))
  }

  /** `r` is the least of `xs` from `t` on, or the greatest if there is none. */
  ghost predicate IsMinFrom(r: int, xs: seq<int>, t: int) {
    && r in xs
    && (forall x :: x in xs && t <= x ==> t <= r <= x)
    && (r < t ==> forall x :: x in xs ==> x <= r)
  }

  lemma MinFromIsUpcoming(c: Calendar, ref: int, k: int, x: DHM, r: int)
    requires Regular(c) && Valid(x) && Within(c, ref, k) && IsMinFrom(r, Window(c, k, x), ref)
    ensures ref <= r <==> Upcoming(c, ref, k, x)
    ensures Reads(c, r, x)
    ensures ref <= r ==> (if x.day <= c.length(k) && ref <= At(c, k, x) then r == At(c, k, x) else r == At(c, k + 1, x))
    ensures r < ref ==> (if x.day <= c.length(k) then r == At(c, k, x) else r == At(c, k - 1, x) && x.day <= c.length(k - 1))
  {
    var prev, cur, next := At(c, k - 1, x), At(c, k, x), At(c, k + 1, x);
    WindowMembers(c, k, x, r);
    WindowMembers(c, k, x, cur);
    WindowMembers(c, k, x, next);
    if x.day <= c.length(k - 1) {
      BeforeMonth(c, ref, k, x, prev, k - 1);
      ReadingsOrdered(c, k - 1, k, x);
    }
    if x.day <= c.length(k + 1) {
      BeforeMonth(c, ref, k, x, next, k + 1);
    }
    if x.day <= c.length(k) {
      ReadingsOrdered(c, k, k + 1, x);
    }
  }

  /** From a forward result on there is no earlier reading in the whole calendar. */
  lemma FirstFrom(c: Calendar, ref: int, k: int, x: DHM, r: int, t: int)
    requires Regular(c) && Valid(x) && Within(c, ref, k) && IsMinFrom(r, Window(c, k, x), ref)
    requires ref <= r && Reads(c, t, x) && ref <= t
    ensures r <= t
  {
    MinFromIsUpcoming(c, ref, k, x, r);
    var j :| ReadsIn(c, t, j, x);
    BeforeMonth(c, ref, k, x, t, j);
    if k < j {
      if r == At(c, k, x) && x.day <= c.length(k) && ref <= At(c, k, x) {
        ReadingsOrdered(c, k, j, x);
      } else if k + 1 < j {
        assert x.day <= c.length(k + 1);
        ReadingsOrdered(c, k + 1, j, x);
      }
    }
  }

  /** Without a forward result it is the last reading before the reference. */
  lemma LastBefore(c: Calendar, ref: int, k: int, x: DHM, r: int, t: int)
    requires Regular(c) && Valid(x) && Within(c, ref, k) && IsMinFrom(r, Window(c, k, x), ref)
    requires r < ref && Reads(c, t, x) && t < ref
    ensures t <= r
  {
    MinFromIsUpcoming(c, ref, k, x, r);
    var j :| ReadsIn(c, t, j, x);
    BeforeMonth(c, ref, k, x, t, j);
    var i := if x.day <= c.length(k) then k else k - 1;
    if j < i {
      ReadingsOrdered(c, j, i, x);
    }
  }

  /** Days that every month has resolve forward, by less than 31 days. */
  lemma CommonDayForward(c: Calendar, ref: int, k: int, x: DHM, r: int)
    requires Regular(c) && Valid(x) && x.day <= 28 && Within(c, ref, k) && IsMinFrom(r, Window(c, k, x), ref)
    ensures ref <= r < ref + 31 * DAY
  {
    assert RegularAt(c, k) && RegularAt(c, k + 1);
    MinFromIsUpcoming(c, ref, k, x, r);
    AtBounds(c, k, x);
    NextReading(c, k, x);
  }

  // ---------------------------------------------------------------- nearest

  /** `r` is an element of `xs` whose distance in whole seconds is least. */
  ghost predicate IsNearestSeconds(r: int, xs: seq<int>, ref: int) {
    r in xs && forall x :: x in xs ==> Distance(r, ref) / SECOND <= Distance(x, ref) / SECOND
  }

  /** Comparing whole seconds is exact between instants on whole minutes: two of them on opposite
      sides of the reference are an even number of seconds apart. */
  lemma SecondsAreExact(p: int, q: int, ref: int)
    requires p % MINUTE == 0 && q % MINUTE == 0
    requires Distance(p, ref) / SECOND <= Distance(q, ref) / SECOND
    ensures Distance(p, ref) <= Distance(q, ref)
  {
    var m, n := p / MINUTE, q / MINUTE;
    var d, e := Distance(p, ref), Distance(q, ref);
    assert p == m * 60 * SECOND && q == n * 60 * SECOND;
    if (p < ref) == (q < ref) {
      SameSide(d, e, if p < ref then 60 * (n - m) else 60 * (m - n));
    } else {
      OppositeSides(d, e, if p < ref then 30 * (n - m) else 30 * (m - n));
    }
  }

  lemma SameSide(d: int, e: int, n: int)
    requires d == e + n * SECOND && d / SECOND <= e / SECOND
    ensures d <= e
  {
    assert (e + n * SECOND) / SECOND == e / SECOND + n;
  }

  lemma OppositeSides(d: int, e: int, n: int)
    requires d + e == 2 * (n * SECOND) && d / SECOND <= e / SECOND
    ensures d <= e
  {
    if d > e {
      Halves(d, e, n);
    }
  }

  lemma Halves(d: int, e: int, n: int)
    requires d + e == 2 * (n * SECOND) && d > e
    ensures d / SECOND > e / SECOND
  {
    assert d > n * SECOND > e;
    assert d / SECOND >= n > e / SECOND;
  }

  lemma AtOnMinute(c: Calendar, k: int, x: DHM)
    ensures At(c, k, x) % MINUTE == 0
  {
    assert At(c, k, x) == ((c.start(k) + x.day - 1) * 1440 + x.hour * 60 + x.minute) * MINUTE;
  }

  lemma NearestInWindow(c: Calendar, k: int, x: DHM, ref: int, r: int, t: int)
    requires IsNearestSeconds(r, Window(c, k, x), ref) && t in Window(c, k, x)
    ensures Distance(r, ref) <= Distance(t, ref)
  {
    WindowMembers(c, k, x, r);
    WindowMembers(c, k, x, t);
    AtOnMinute(c, k - 1, x);
    AtOnMinute(c, k, x);
    AtOnMinute(c, k + 1, x);
    SecondsAreExact(r, t, ref);
  }

  /** The reading two months back is nearer than this month's: only possible when the previous month
      lacks the day. */
  predicate Misses(c: Calendar, ref: int, k: int, x: DHM) {
    c.length(k - 1) < x.day && Distance(At(c, k - 2, x), ref) < Distance(At(c, k, x), ref)
  }

  /** A reading later than the window is no nearer than one in it. */
  lemma LaterIsFarther(c: Calendar, ref: int, k: int, x: DHM, t: int, j: int) returns (w: int)
    requires Regular(c) && Valid(x) && Within(c, ref, k) && ReadsIn(c, t, j, x) && k + 1 < j
    ensures w in Window(c, k, x) && Distance(w, ref) <= Distance(t, ref)
  {
    assert RegularAt(c, k) && RegularAt(c, k + 1);
    BeforeMonth(c, ref, k, x, t, j);
    if x.day <= c.length(k + 1) {
      w := At(c, k + 1, x);
      BeforeMonth(c, ref, k, x, w, k + 1);
      ReadingsOrdered(c, k + 1, j, x);
    } else {
      w := At(c, k, x);
      ReadingsOrdered(c, k, j, x);
      LateInMonth(c, ref, k, x);
      MonthsOrdered(c, k + 2, j);
      AtBounds(c, j, x);
    }
    WindowMembers(c, k, x, w);
  }

  /** A day from the 29th on lies less than three days before any later instant of its month. */
  lemma LateInMonth(c: Calendar, ref: int, k: int, x: DHM)
    requires Regular(c) && Valid(x) && Within(c, ref, k) && 29 <= x.day
    ensures ref - At(c, k, x) < 3 * DAY
  {
    assert RegularAt(c, k);
    AtBounds(c, k, x);
  }

  /** A reading earlier than the window is no nearer than one in it, unless the window misses. */
  lemma EarlierIsFarther(c: Calendar, ref: int, k: int, x: DHM, t: int, j: int) returns (w: int)
    requires Regular(c) && Valid(x) && Within(c, ref, k) && ReadsIn(c, t, j, x) && j < k - 1 && !Misses(c, ref, k, x)
    ensures w in Window(c, k, x) && Distance(w, ref) <= Distance(t, ref)
  {
    assert RegularAt(c, k - 2) && RegularAt(c, k - 1);
    BeforeMonth(c, ref, k, x, t, j);
    if x.day <= c.length(k - 1) {
      w := At(c, k - 1, x);
      BeforeMonth(c, ref, k, x, w, k - 1);
      ReadingsOrdered(c, j, k - 1, x);
    } else {
      w := At(c, k, x);
      BeforeMonth(c, ref, k, x, At(c, k - 2, x), k - 2);
      if j < k - 2 {
        ReadingsOrdered(c, j, k - 2, x);
      }
    }
    WindowMembers(c, k, x, w);
  }

  /** Unless the window misses, its nearest reading is a nearest one of the whole calendar. */
  lemma NearestEverywhere(c: Calendar, ref: int, k: int, x: DHM, r: int, t: int)
    requires Regular(c) && Valid(x) && Within(c, ref, k) && IsNearestSeconds(r, Window(c, k, x), ref)
    requires Reads(c, t, x) && !Misses(c, ref, k, x)
    ensures Distance(r, ref) <= Distance(t, ref)
  {
    var j :| ReadsIn(c, t, j, x);
    WindowMembers(c, k, x, t);
    if k - 1 <= j <= k + 1 {
      NearestInWindow(c, k, x, ref, r, t);
    } else {
      var w;
      if k < j {
        w := LaterIsFarther(c, ref, k, x, t, j);
      } else {
        w := EarlierIsFarther(c, ref, k, x, t, j);
      }
      NearestInWindow(c, k, x, ref, r, w);
    }
  }

  /** When it misses, the reading two months back is strictly nearer than the result. */
  lemma MissIsNearer(c: Calendar, ref: int, k: int, x: DHM, r: int)
    requires Regular(c) && Valid(x) && Within(c, ref, k) && r in Window(c, k, x) && Misses(c, ref, k, x)
    ensures Reads(c, At(c, k - 2, x), x) && Distance(At(c, k - 2, x), ref) < Distance(r, ref)
  {
    assert RegularAt(c, k - 2) && RegularAt(c, k - 1);
    assert ReadsIn(c, At(c, k - 2, x), k - 2, x);
    WindowMembers(c, k, x, r);
    BeforeMonth(c, ref, k, x, At(c, k - 2, x), k - 2);
    ReadingsOrdered(c, k - 2, k, x);
    ReadingsOrdered(c, k, k + 1, x);
  }

  /** No point of a gap is farther than half of it from both ends. */
  lemma HalfGap(p: int, q: int, ref: int, d: int)
    requires p <= ref <= q && d <= Distance(p, ref) && d <= Distance(q, ref)
    ensures 2 * d <= q - p
  {
  }

  /** Days that every month has are never missed, and resolve within fifteen and a half days. */
  lemma CommonDayNearest(c: Calendar, ref: int, k: int, x: DHM, r: int)
    requires Regular(c) && Valid(x) && x.day <= 28 && Within(c, ref, k) && IsNearestSeconds(r, Window(c, k, x), ref)
    ensures !Misses(c, ref, k, x) && 2 * Distance(r, ref) <= 31 * DAY
  {
    assert RegularAt(c, k - 1) && RegularAt(c, k) && RegularAt(c, k + 1);
    var j := if At(c, k, x) <= ref then k else k - 1;
    var p, q := At(c, j, x), At(c, j + 1, x);
    WindowMembers(c, k, x, p);
    WindowMembers(c, k, x, q);
    NearestInWindow(c, k, x, ref, r, p);
    NearestInWindow(c, k, x, ref, r, q);
    BeforeMonth(c, ref, k, x, p, j);
    BeforeMonth(c, ref, k, x, q, j + 1);
    HalfGap(p, q, ref, Distance(r, ref));
    NextReading(c, j, x);
  }
}
