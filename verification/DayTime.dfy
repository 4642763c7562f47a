/**
  Resolution of partial timestamps (`DDHHMM` and `HHMM`) against a reference instant, on the whole
  proleptic Gregorian calendar.  Instants are nanoseconds since 1970-01-01T00:00Z; a month is its
  index `12 * year + month - 1`.
*/
module DayTime {
  import opened Wrappers
  import opened Readings

  // ---------------------------------------------------------------- the calendar

  predicate Leap(year: int) {
    year % 4 == 0 && (year % 100 != 0 || year % 400 == 0)
  }

  /** Month lengths, section 5.7 of RFC 3339. */
  function DaysInMonth(year: int, month: int): int {
    if month == 2 then if Leap(year) then 29 else 28
    else if month == 4 || month == 6 || month == 9 || month == 11 then 30
    else 31
  }

  function DaysBeforeYear(year: int): int {
    365 * year + (year - 1) / 4 - (year - 1) / 100 + (year - 1) / 400
  }

  function DaysBeforeMonth(year: int, month: int): int
    requires 1 <= month <= 12
    decreases month
  {
    if month == 1 then 0 else DaysBeforeMonth(year, month - 1) + DaysInMonth(year, month - 1)
  }

  const EPOCH := DaysBeforeYear(1970)

  /** Days since the epoch of a calendar date. */
  function DayNumber(year: int, month: int, day: int): int
    requires 1 <= month <= 12
  {
    DaysBeforeYear(year) + DaysBeforeMonth(year, month) + day - 1 - EPOCH
  }

  /** Day number of the first of month `k`, and the month's length. */
  function Start(k: int): int {
    DayNumber(k / 12, k % 12 + 1, 1)
  }

  function Length(k: int): int {
    DaysInMonth(k / 12, k % 12 + 1)
  }

  function Index(year: int, month: int): int {
    12 * year + month - 1
  }

  lemma Fourths(year: int)
    ensures year / 4 == (year - 1) / 4 + if year % 4 == 0 then 1 else 0
  {
  }

  lemma Hundredths(year: int)
    ensures year / 100 == (year - 1) / 100 + if year % 100 == 0 then 1 else 0
  {
  }

  lemma FourHundredths(year: int)
    ensures year / 400 == (year - 1) / 400 + if year % 400 == 0 then 1 else 0
  {
  }

  lemma Multiples(year: int)
    ensures (year % 400 == 0 ==> year % 100 == 0) && (year % 100 == 0 ==> year % 4 == 0)
  {
    if year % 400 == 0 {
      OfHundred(year, 4 * (year / 400));
    }
    if year % 100 == 0 {
      OfFour(year, 25 * (year / 100));
    }
  }

  lemma OfHundred(n: int, k: int)
    requires n == 100 * k
    ensures n % 100 == 0
  {
  }

  lemma OfFour(n: int, k: int)
    requires n == 4 * k
    ensures n % 4 == 0
  {
  }

  lemma YearStep(year: int)
    ensures DaysBeforeYear(year + 1) == DaysBeforeYear(year) + if Leap(year) then 366 else 365
  {
    Fourths(year);
    Hundredths(year);
    FourHundredths(year);
    Multiples(year);
  }

  lemma DecemberStart(year: int)
    ensures DaysBeforeMonth(year, 12) == if Leap(year) then 335 else 334
  {
    assert DaysBeforeMonth(year, 4) == if Leap(year) then 91 else 90;
    assert DaysBeforeMonth(year, 8) == if Leap(year) then 213 else 212;
  }

  lemma MonthStep(k: int)
    ensures Start(k + 1) == Start(k) + Length(k) && 28 <= Length(k) <= 31
    ensures Length(k) == 31 || Length(k + 1) == 31
  {
    var year, month := k / 12, k % 12 + 1;
    if month == 12 {
      YearStep(year);
      DecemberStart(year);
      assert (k + 1) / 12 == year + 1 && (k + 1) % 12 == 0;
    } else {
      assert (k + 1) / 12 == year && (k + 1) % 12 == month;
    }
  }

  /** Days before a month, counted from the first of March on by fifths of 153 days, which takes no table. */
  lemma MonthStarts(year: int, month: int)
    requires 1 <= month <= 12
    ensures var leap := if Leap(year) then 1 else 0;
            DaysBeforeMonth(year, month) ==
              if month <= 2 then (153 * (month + 9) + 2) / 5 - 306 else (153 * (month - 3) + 2) / 5 + 59 + leap
    decreases month
  {
    if month > 1 {
      MonthStarts(year, month - 1);
    }
  }

  lemma LeapDays(year: int)
    ensures year / 4 - year / 100 + year / 400 == (year - 1) / 4 - (year - 1) / 100 + (year - 1) / 400 + if Leap(year) then 1 else 0
  {
    Fourths(year);
    Hundredths(year);
    FourHundredths(year);
    Multiples(year);
  }

  /** The day number of every date by a closed formula over years that begin in March, with no table of month lengths
      and no leap-year rule; 1 January 1970 is day 0. */
  lemma DayNumberFormula(year: int, month: int, day: int)
    requires 1 <= month <= 12
    ensures var (y, m) := if month <= 2 then (year - 1, month + 9) else (year, month - 3);
            DayNumber(year, month, day) == 365 * y + y / 4 - y / 100 + y / 400 + (153 * m + 2) / 5 + day - 1 - 719468
  {
    MonthStarts(year, month);
    LeapDays(year);
    assert EPOCH == 719527;
  }

  function Gregorian(): Calendar {
    Calendar(k => Start(k), k => Length(k))
  }

  lemma GregorianIsRegular()
    ensures Regular(Gregorian())
  {
    forall k ensures RegularAt(Gregorian(), k) {
      MonthStep(k);
    }
  }

  // ---------------------------------------------------------------- instants with a calendar reading

  /** A UTC date-time as its fields; `nanos` counts from midnight. */
  datatype Utc = Utc(year: int, month: int, day: int, nanos: int)

  predicate ValidUtc(u: Utc) {
    1 <= u.month <= 12 && 1 <= u.day <= DaysInMonth(u.year, u.month) && 0 <= u.nanos < DAY
  }

  function Instant(u: Utc): int
    requires 1 <= u.month <= 12
  {
    DayNumber(u.year, u.month, u.day) * DAY + u.nanos
  }

  lemma IndexFacts(year: int, month: int)
    requires 1 <= month <= 12
    ensures Index(year, month) / 12 == year && Index(year, month) % 12 + 1 == month
  {
  }

  /** A date by month index. */
  lemma ByIndex(year: int, month: int, day: int)
    requires 1 <= month <= 12
    ensures var k := Index(year, month);
            DayNumber(year, month, day) == Gregorian().start(k) + day - 1 && DaysInMonth(year, month) == Gregorian().length(k)
  {
    IndexFacts(year, month);
  }

  lemma DayBounds(c: Calendar, k: int, n: int, nanos: int)
    requires RegularAt(c, k) && c.start(k) <= n < c.start(k + 1) && 0 <= nanos < DAY
    ensures Within(c, n * DAY + nanos, k)
  {
  }

  /** The reference lies in its own month. */
  lemma InOwnMonth(u: Utc)
    requires ValidUtc(u)
    ensures Within(Gregorian(), Instant(u), Index(u.year, u.month))
  {
    var k := Index(u.year, u.month);
    GregorianIsRegular();
    assert RegularAt(Gregorian(), k);
    ByIndex(u.year, u.month, u.day);
    DayBounds(Gregorian(), k, DayNumber(u.year, u.month, u.day), u.nanos);
  }

  lemma MonthIsUnique(c: Calendar, t: int, j: int, k: int)
    requires Regular(c) && Within(c, t, j) && Within(c, t, k)
    ensures j == k
  {
    if j < k {
      MonthsOrdered(c, j + 1, k);
    } else if k < j {
      MonthsOrdered(c, k + 1, j);
    }
  }

  /** Every instant has a calendar reading. */
  lemma EveryInstantHasUtc(t: int) returns (u: Utc)
    ensures ValidUtc(u) && Instant(u) == t
  {
    var n := t / DAY;
    GregorianIsRegular();
    var k := MonthOfDay(Gregorian(), n, 0);
    MonthStep(k);
    u := Utc(k / 12, k % 12 + 1, n - Start(k) + 1, t - n * DAY);
  }

  /** Every instant has only one calendar reading. */
  lemma UtcIsUnique(u: Utc, v: Utc)
    requires ValidUtc(u) && ValidUtc(v) && Instant(u) == Instant(v)
    ensures u == v
  {
    GregorianIsRegular();
    InOwnMonth(u);
    InOwnMonth(v);
    MonthIsUnique(Gregorian(), Instant(u), Index(u.year, u.month), Index(v.year, v.month));
    IndexFacts(u.year, u.month);
    IndexFacts(v.year, v.month);
    SameDay(DayNumber(u.year, u.month, u.day), u.nanos, DayNumber(v.year, v.month, v.day), v.nanos);
  }

  lemma SameDay(m: int, a: int, n: int, b: int)
    requires m * DAY + a == n * DAY + b && 0 <= a < DAY && 0 <= b < DAY
    ensures m == n && a == b
  {
  }

  // ---------------------------------------------------------------- candidates

  function SurroundingMonths(year: int, month: int): seq<(int, int)> {
    [if month == 1 then (year - 1, 12) else (year, month - 1),
     (year, month),
     if month == 12 then (year + 1, 1) else (year, month + 1)]
  }

  function BuildCandidate(year: int, month: int, day: int, hour: int, minute: int): Option<int>
    requires 1 <= month <= 12
  {
    if 1 <= day <= DaysInMonth(year, month)
    then Some(DayNumber(year, month, day) * DAY + TimeOfDay(hour, minute))
    else None
  }

  /** The i-th surrounding month's candidate is the reading of the i-th month around the reference. */
  lemma CandidateIsReading(ref: Utc, x: DHM, i: nat)
    requires ValidUtc(ref) && Valid(x) && i < 3
    ensures BuildsMonth(Gregorian(), Index(ref.year, ref.month) - 1 + i, x, SurroundingMonths(ref.year, ref.month)[i])
  {
    var (year, month) := SurroundingMonths(ref.year, ref.month)[i];
    assert Index(year, month) == Index(ref.year, ref.month) - 1 + i;
    ByIndex(year, month, x.day);
  }

  /** The readings in the first `i` of the three months around month `k`. */
  ghost function FirstMonths(c: Calendar, k: int, x: DHM, i: nat): seq<int> {
    if i == 0 then [] else FirstMonths(c, k, x, i - 1) + InMonth(c, k - 2 + i, x)
  }

  lemma WholeWindow(ref: Utc, x: DHM)
    requires ValidUtc(ref) && Valid(x)
    ensures var (c, k) := (Gregorian(), Index(ref.year, ref.month)); FirstMonths(c, k, x, 3) == Window(c, k, x) != []
  {
    ThreeMonths(Gregorian(), Index(ref.year, ref.month), x);
    GregorianIsRegular();
    WindowNotEmpty(Gregorian(), Index(ref.year, ref.month), x);
  }

  lemma ThreeMonths(c: Calendar, k: int, x: DHM)
    ensures FirstMonths(c, k, x, 3) == Window(c, k, x)
  {
    assert FirstMonths(c, k, x, 1) == InMonth(c, k - 1, x);
    assert FirstMonths(c, k, x, 2) == FirstMonths(c, k, x, 1) + InMonth(c, k, x);
  }

  /** What is built for one month is that month's reading, if it has one. */
  ghost predicate BuildsMonth(c: Calendar, k: int, x: DHM, month: (int, int)) {
    && 1 <= month.1 <= 12
    && var candidate := BuildCandidate(month.0, month.1, x.day, x.hour, x.minute);
       InMonth(c, k, x) == if candidate.Some? then [candidate.value] else []
  }

  /** The loop of `candidate_datetimes`. */
  method CollectCandidates(months: seq<(int, int)>, x: DHM, ghost c: Calendar, ghost k: int) returns (candidates: seq<int>)
    requires |months| == 3 && forall i :: 0 <= i < 3 ==> BuildsMonth(c, k - 1 + i, x, months[i])
    ensures candidates == FirstMonths(c, k, x, 3)
  {
    candidates := [];
    for i := 0 to 3
      invariant candidates == FirstMonths(c, k, x, i)
    {
      assert BuildsMonth(c, k - 1 + i, x, months[i]);
      var (year, month) := months[i];
      var candidate := BuildCandidate(year, month, x.day, x.hour, x.minute);
      if candidate.Some? {
        candidates := candidates + [candidate.value];
      }
    }
  }

  /** `candidate_datetimes`: the previous, current and next month's reading, where there is one. */
  method CandidateDatetimes(ref: Utc, x: DHM) returns (r: Option<seq<int>>)
    requires ValidUtc(ref)
    ensures r.Some? <==> Valid(x)
    ensures r.Some? ==> r.value == Window(Gregorian(), Index(ref.year, ref.month), x) && r.value != []
  {
    if x.day <= 0 || x.day > 31 || x.hour < 0 || x.hour > 23 || x.minute < 0 || x.minute > 59 {
      return None;
    }
    var months := SurroundingMonths(ref.year, ref.month);
    forall i | 0 <= i < 3 ensures BuildsMonth(Gregorian(), Index(ref.year, ref.month) - 1 + i, x, months[i]) {
      CandidateIsReading(ref, x, i);
    }
    var candidates := CollectCandidates(months, x, Gregorian(), Index(ref.year, ref.month));
    WholeWindow(ref, x);
    r := if |candidates| == 0 then None else Some(candidates);
  }

  // ---------------------------------------------------------------- not before

  /** The least element from `t` on, else the greatest. */
  method MinFrom(xs: seq<int>, t: int) returns (r: int)
    requires xs != []
    ensures IsMinFrom(r, xs, t)
  {
    var best: Option<int> := None;
    var largest := xs[0];
    for i := 0 to |xs|
      invariant best.None? ==> forall k :: 0 <= k < i ==> xs[k] < t
      invariant best.Some? ==> best.value in xs && t <= best.value && forall k :: 0 <= k < i && t <= xs[k] ==> best.value <= xs[k]
      invariant largest in xs && forall k :: 0 <= k < i ==> xs[k] <= largest
    {
      if t <= xs[i] && (best.None? || xs[i] < best.value) {
        best := Some(xs[i]);
      }
      if largest < xs[i] {
        largest := xs[i];
      }
    }
    r := if best.Some? then best.value else largest;
  }

  /** Every valid `DDHHMM` resolves.  The result is at or after the reference exactly when the current
      or next month holds such a reading, and is then the first in the whole calendar; otherwise it is
      the last before the reference.  Days 1 to 28 always resolve forward, by less than 31 days. */
  method ResolveDayTimeNotBefore(ref: Utc, x: DHM) returns (r: Option<int>)
    requires ValidUtc(ref)
    ensures r.Some? <==> Valid(x)
    ensures r.Some? ==> Reads(Gregorian(), r.value, x)
    ensures r.Some? ==> (Instant(ref) <= r.value <==> Upcoming(Gregorian(), Instant(ref), Index(ref.year, ref.month), x))
    ensures r.Some? && Instant(ref) <= r.value ==>
              forall t :: Reads(Gregorian(), t, x) && Instant(ref) <= t ==> r.value <= t
    ensures r.Some? && r.value < Instant(ref) ==>
              forall t :: Reads(Gregorian(), t, x) && t < Instant(ref) ==> t <= r.value
    ensures r.Some? && x.day <= 28 ==> Instant(ref) <= r.value < Instant(ref) + 31 * DAY
  {
    var candidates := CandidateDatetimes(ref, x);
    if candidates.None? {
      return None;
    }
    var best := MinFrom(candidates.value, Instant(ref));
    NotBeforeIsExact(Gregorian(), Instant(ref), Index(ref.year, ref.month), x, best) by {
      GregorianIsRegular();
      InOwnMonth(ref);
    }
    r := Some(best);
  }

  lemma NotBeforeIsExact(c: Calendar, ref: int, k: int, x: DHM, r: int)
    requires Regular(c) && Valid(x) && Within(c, ref, k) && IsMinFrom(r, Window(c, k, x), ref)
    ensures Reads(c, r, x)
    ensures ref <= r <==> Upcoming(c, ref, k, x)
    ensures ref <= r ==> forall t :: Reads(c, t, x) && ref <= t ==> r <= t
    ensures r < ref ==> forall t :: Reads(c, t, x) && t < ref ==> t <= r
    ensures x.day <= 28 ==> ref <= r < ref + 31 * DAY
  {
    MinFromIsUpcoming(c, ref, k, x, r);
    forall t | Reads(c, t, x) && ref <= t && ref <= r ensures r <= t {
      FirstFrom(c, ref, k, x, r, t);
    }
    forall t | Reads(c, t, x) && t < ref && r < ref ensures t <= r {
      LastBefore(c, ref, k, x, r, t);
    }
    if x.day <= 28 {
      CommonDayForward(c, ref, k, x, r);
    }
  }

  // ---------------------------------------------------------------- nearest

  /** `min_by_key` on the absolute distance in whole seconds: the first of the nearest. */
  method NearestBySeconds(xs: seq<int>, ref: int) returns (r: int)
    requires xs != []
    ensures IsNearestSeconds(r, xs, ref)
    ensures exists i :: 0 <= i < |xs| && xs[i] == r && forall k :: 0 <= k < i ==> Distance(r, ref) / SECOND < Distance(xs[k], ref) / SECOND
  {
    r := xs[0];
    var at := 0;
    for i := 1 to |xs|
      invariant 0 <= at < i && xs[at] == r
      invariant forall k :: 0 <= k < at ==> Distance(r, ref) / SECOND < Distance(xs[k], ref) / SECOND
      invariant forall k :: at <= k < i ==> Distance(r, ref) / SECOND <= Distance(xs[k], ref) / SECOND
    {
      if Distance(xs[i], ref) / SECOND < Distance(r, ref) / SECOND {
        r, at := xs[i], i;
      }
    }
  }

  /** Every valid `DDHHMM` resolves.  The result is a nearest reading of the whole calendar exactly
      unless the previous month lacks the day and the month before it reads nearer; days 1 to 28 are
      never affected and resolve within fifteen and a half days. */
  method ResolveDayTimeNearest(ref: Utc, x: DHM) returns (r: Option<int>)
    requires ValidUtc(ref)
    ensures r.Some? <==> Valid(x)
    ensures r.Some? ==> Reads(Gregorian(), r.value, x)
    ensures r.Some? ==>
              (!Misses(Gregorian(), Instant(ref), Index(ref.year, ref.month), x) <==>
               forall t :: Reads(Gregorian(), t, x) ==> Distance(r.value, Instant(ref)) <= Distance(t, Instant(ref)))
    ensures r.Some? && x.day <= 28 ==>
              && !Misses(Gregorian(), Instant(ref), Index(ref.year, ref.month), x)
              && 2 * Distance(r.value, Instant(ref)) <= 31 * DAY
  {
    var candidates := CandidateDatetimes(ref, x);
    if candidates.None? {
      return None;
    }
    var best := NearestBySeconds(candidates.value, Instant(ref));
    NearestIsExact(Gregorian(), Instant(ref), Index(ref.year, ref.month), x, best) by {
      GregorianIsRegular();
      InOwnMonth(ref);
    }
    r := Some(best);
  }

  lemma NearestIsExact(c: Calendar, ref: int, k: int, x: DHM, r: int)
    requires Regular(c) && Valid(x) && Within(c, ref, k) && IsNearestSeconds(r, Window(c, k, x), ref)
    ensures Reads(c, r, x)
    ensures !Misses(c, ref, k, x) <==> forall t :: Reads(c, t, x) ==> Distance(r, ref) <= Distance(t, ref)
    ensures x.day <= 28 ==> !Misses(c, ref, k, x) && 2 * Distance(r, ref) <= 31 * DAY
  {
    WindowMembers(c, k, x, r);
    if Misses(c, ref, k, x) {
      MissIsNearer(c, ref, k, x, r);
    } else {
      forall t | Reads(c, t, x) ensures Distance(r, ref) <= Distance(t, ref) {
        NearestEverywhere(c, ref, k, x, r, t);
      }
    }
    if x.day <= 28 {
      CommonDayNearest(c, ref, k, x, r);
    }
  }

  lemma LateOnTheLast(c: Calendar, k: int, nanos: int)
    requires RegularAt(c, k) && RegularAt(c, k + 1) && c.length(k) == 31 && c.length(k + 1) < 31 && 0 < nanos < DAY
    ensures var (ref, x) := ((c.start(k) + 30) * DAY + nanos, DHM(31, 0, 0));
            !Upcoming(c, ref, k, x) && Reads(c, At(c, k + 2, x), x) && ref <= At(c, k + 2, x)
  {
    var x := DHM(31, 0, 0);
    assert At(c, k, x) == (c.start(k) + 30) * DAY;
    assert ReadsIn(c, At(c, k + 2, x), k + 2, x);
  }

  /** Noon of 31 January 2025: day 31 at 00:00 comes again, in March, but the window ends in February. */
  lemma NotBeforeMisses()
    ensures var (ref, x) := (Instant(Utc(2025, 1, 31, DAY / 2)), DHM(31, 0, 0));
            && !Upcoming(Gregorian(), ref, Index(2025, 1), x)
            && exists t :: Reads(Gregorian(), t, x) && ref <= t
  {
    assert Index(2025, 1) == 24300 && Length(24300) == 31 && Length(24301) == 28;
    ByIndex(2025, 1, 31);
    MonthStep(24300);
    MonthStep(24301);
    LateOnTheLast(Gregorian(), 24300, DAY / 2);
  }

  /** On the first of a month after months of 31 and 28 days, day 31 is nearer two months back. */
  lemma MissesAfterFebruary(c: Calendar, k: int)
    requires RegularAt(c, k - 2) && RegularAt(c, k - 1) && c.length(k - 2) == 31 && c.length(k - 1) == 28
    ensures Misses(c, c.start(k) * DAY, k, DHM(31, 0, 0))
  {
    var x, first := DHM(31, 0, 0), c.start(k);
    assert At(c, k - 2, x) == (first - 29) * DAY && At(c, k, x) == (first + 30) * DAY;
  }

  /** From midnight of 1 March 2025, day 31 resolves to 31 March although 31 January is nearer. */
  lemma NearestMisses()
    ensures Misses(Gregorian(), Instant(Utc(2025, 3, 1, 0)), Index(2025, 3), DHM(31, 0, 0))
  {
    assert Index(2025, 3) == 24302 && Length(24300) == 31 && Length(24301) == 28;
    ByIndex(2025, 3, 1);
    MonthStep(24300);
    MonthStep(24301);
    MissesAfterFebruary(Gregorian(), 24302);
  }

  // ---------------------------------------------------------------- clock time

  // ---------------------------------------------------------------- what a reading is

  /** The instant's date has this day of the month, and the time since midnight is hours and minutes, in nanoseconds. */
  ghost predicate IsDate(t: int, u: Utc, x: DHM) {
    && ValidUtc(u) && Instant(u) == t && u.day == x.day
    && u.nanos == x.hour * 3_600_000_000_000 + x.minute * 60_000_000_000
  }

  /** An instant reads a day and time exactly if its calendar date and time say so. */
  lemma ReadingIsDate(t: int, x: DHM)
    requires Valid(x)
    ensures Reads(Gregorian(), t, x) <==> exists u :: IsDate(t, u, x)
  {
    if Reads(Gregorian(), t, x) {
      var k :| ReadsIn(Gregorian(), t, k, x);
      var u := ReadingDate(t, k, x);
      assert IsDate(t, u, x);
    }
    if u :| IsDate(t, u, x) {
      DateReads(t, u, x);
    }
  }

  lemma ReadingDate(t: int, k: int, x: DHM) returns (u: Utc)
    requires Valid(x) && ReadsIn(Gregorian(), t, k, x)
    ensures IsDate(t, u, x)
  {
    u := Utc(k / 12, k % 12 + 1, x.day, x.hour * 3_600_000_000_000 + x.minute * 60_000_000_000);
  }

  lemma DateReads(t: int, u: Utc, x: DHM)
    requires Valid(x) && IsDate(t, u, x)
    ensures Reads(Gregorian(), t, x)
  {
    ByIndex(u.year, u.month, u.day);
    assert ReadsIn(Gregorian(), t, Index(u.year, u.month), x);
  }

  /** An instant reads a clock time exactly if the time since its midnight is those hours and minutes. */
  lemma ClockReadingIsTime(t: int, hour: int, minute: int)
    requires 0 <= hour <= 23 && 0 <= minute <= 59
    ensures ReadsClock(t, hour, minute) <==>
              exists u :: ValidUtc(u) && Instant(u) == t && u.nanos == hour * 3_600_000_000_000 + minute * 60_000_000_000
  {
    var u := EveryInstantHasUtc(t);
    SameDay(t / DAY, t % DAY, DayNumber(u.year, u.month, u.day), u.nanos);
    forall v | ValidUtc(v) && Instant(v) == t ensures v == u {
      UtcIsUnique(u, v);
    }
  }

  /** An instant that reads `HHMM` on some day. */
  predicate ReadsClock(t: int, hour: int, minute: int) {
    t % DAY == TimeOfDay(hour, minute)
  }

  /** Every valid `HHMM` resolves to a nearest such instant of all days, within twelve hours. */
  method ResolveClockTimeNearest(ref: Utc, hour: int, minute: int) returns (r: Option<int>)
    requires ValidUtc(ref)
    ensures r.Some? <==> 0 <= hour <= 23 && 0 <= minute <= 59
    ensures r.Some? ==> ReadsClock(r.value, hour, minute) && 2 * Distance(r.value, Instant(ref)) <= DAY
    ensures r.Some? ==> forall t :: ReadsClock(t, hour, minute) ==> Distance(r.value, Instant(ref)) <= Distance(t, Instant(ref))
  {
    if hour < 0 || hour > 23 || minute < 0 || minute > 59 {
      return None;
    }
    var base := DayNumber(ref.year, ref.month, ref.day);
    var time := TimeOfDay(hour, minute);
    var candidates := [];
    for offset := -1 to 2
      invariant |candidates| == offset + 1
      invariant forall k :: 0 <= k < |candidates| ==> candidates[k] == (base - 1 + k) * DAY + time
    {
      candidates := candidates + [(base + offset) * DAY + time];
    }
    var best := NearestBySeconds(candidates, Instant(ref));
    ClockIsExact(base, ref.nanos, hour, minute, candidates, best);
    r := Some(best);
  }

  lemma ClockReading(n: int, hour: int, minute: int)
    requires 0 <= hour <= 23 && 0 <= minute <= 59
    ensures var t := n * DAY + TimeOfDay(hour, minute); t % MINUTE == 0 && ReadsClock(t, hour, minute)
  {
    var t := n * DAY + TimeOfDay(hour, minute);
    assert t == (n * 1440 + hour * 60 + minute) * MINUTE;
    assert 0 <= TimeOfDay(hour, minute) < DAY;
    SameDay(t / DAY, t % DAY, n, TimeOfDay(hour, minute));
  }

  lemma ClockIsExact(base: int, nanos: int, hour: int, minute: int, xs: seq<int>, r: int)
    requires 0 <= nanos < DAY && 0 <= hour <= 23 && 0 <= minute <= 59 && |xs| == 3
    requires forall k :: 0 <= k < 3 ==> xs[k] == (base - 1 + k) * DAY + TimeOfDay(hour, minute)
    requires IsNearestSeconds(r, xs, base * DAY + nanos)
    ensures ReadsClock(r, hour, minute) && 2 * Distance(r, base * DAY + nanos) <= DAY
    ensures forall t :: ReadsClock(t, hour, minute) ==> Distance(r, base * DAY + nanos) <= Distance(t, base * DAY + nanos)
  {
    var ref, time := base * DAY + nanos, TimeOfDay(hour, minute);
    var d := Distance(r, ref);
    forall k | 0 <= k < 3 ensures d <= Distance(xs[k], ref) && ReadsClock(xs[k], hour, minute) {
      ClockOfThree(base, ref, hour, minute, xs, r, k);
    }
    ClockSpread(base, nanos, time, xs, d);
    forall t | ReadsClock(t, hour, minute) ensures d <= Distance(t, ref) {
      ClockElsewhere(base, nanos, time, xs, t);
    }
  }

  lemma ClockOfThree(base: int, ref: int, hour: int, minute: int, xs: seq<int>, r: int, k: int)
    requires 0 <= hour <= 23 && 0 <= minute <= 59 && |xs| == 3 && 0 <= k < 3
    requires forall k :: 0 <= k < 3 ==> xs[k] == (base - 1 + k) * DAY + TimeOfDay(hour, minute)
    requires IsNearestSeconds(r, xs, ref)
    ensures Distance(r, ref) <= Distance(xs[k], ref) && ReadsClock(xs[k], hour, minute)
  {
    var j :| 0 <= j < 3 && xs[j] == r;
    ClockReading(base - 1 + j, hour, minute);
    ClockReading(base - 1 + k, hour, minute);
    SecondsAreExact(r, xs[k], ref);
  }

  lemma ClockSpread(base: int, nanos: int, time: int, xs: seq<int>, d: int)
    requires 0 <= nanos < DAY && 0 <= time < DAY && |xs| == 3
    requires forall k :: 0 <= k < 3 ==> xs[k] == (base - 1 + k) * DAY + time && d <= Distance(xs[k], base * DAY + nanos)
    ensures 2 * d <= DAY
  {
    var i := if time <= nanos then 1 else 0;
    assert xs[i + 1] - xs[i] == DAY;
    HalfGap(xs[i], xs[i + 1], base * DAY + nanos, d);
  }

  /** The same time on any day is no nearer than on the three days around the reference. */
  lemma ClockElsewhere(base: int, nanos: int, time: int, xs: seq<int>, t: int)
    requires 0 <= nanos < DAY && 0 <= time < DAY && |xs| == 3
    requires forall k :: 0 <= k < 3 ==> xs[k] == (base - 1 + k) * DAY + time
    requires t % DAY == time
    ensures exists k :: 0 <= k < 3 && Distance(xs[k], base * DAY + nanos) <= Distance(t, base * DAY + nanos)
  {
    var ref, n := base * DAY + nanos, t / DAY;
    assert t == n * DAY + time;
    var k := if n < base then 0 else if n == base then 1 else 2;
    if n < base {
      assert t <= xs[0] <= ref;
    } else if n > base {
      assert ref <= xs[2] <= t;
    }
    assert Distance(xs[k], ref) <= Distance(t, ref);
  }
}
