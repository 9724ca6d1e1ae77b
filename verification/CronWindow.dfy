/**
  When the four-year search window of cron.py is enough. The code says four years cover every
  leap-year phase; they do not reach across a century year that is not a leap year.
 */
module CronWindow {
  import opened Arithmetic
  import opened Options
  import opened Calendar
  import opened CronFields
  import opened CronTimes

  /** Some real date of an ordinary year is allowed by the month and day fields. */
  ghost predicate OrdinaryDate(c: Cron) {
    exists month, day :: Ordinary(month, day) && Allows(c.month, month) && Allows(c.dayOfMonth, day)
  }

  predicate Ordinary(month: int, day: int) {
    1 <= month <= 12 && 1 <= day <= DaysInMonth(false, month)
  }

  /** The expression comes round every year. */
  ghost predicate Yearly(c: Cron) {
    c.dayOfWeek.Some? || OrdinaryDate(c)
  }

  /** 29 February is the only date the expression allows. */
  ghost predicate LeapDayOnly(c: Cron) {
    !Yearly(c) && Allows(c.month, 2) && Allows(c.dayOfMonth, 29)
  }

  // ----- every field can be met --------------------------------------------------------------------

  lemma {:induction false} SomeValue(f: Field, lo: int, hi: int) returns (x: int)
    requires lo <= hi && Bounded(f, lo, hi)
    ensures lo <= x <= hi && Allows(f, x)
  {
    x := lo;
    if f.Some? {
      x :| x in f.value;
    }
  }

  lemma {:induction false} SomeTime(c: Cron) returns (second: int)
    requires Ranged(c)
    ensures TimeFires(c, second)
  {
    var hour := SomeValue(c.hour, 0, 23);
    var minute := SomeValue(c.minute, 0, 59);
    second := hour * 3600 + minute * 60;
    assert second / 3600 == hour && second % 3600 / 60 == minute && second % 60 == 0;
  }

  lemma {:induction false} DayAhead(c: Cron, zone: int, after: real, day: int) returns (t: int)
    requires Ranged(c) && DayFires(c, day) && day > StartDay(zone, after)
    ensures Upcoming(c, zone, after, t) && LocalDay(zone, t) == day
  {
    var second := SomeTime(c);
    t := Midnight(zone, day) + second;
    DayAndSecond(zone, day, second);
    AheadByDay(zone, after, t);
  }

  // ----- yearly expressions ------------------------------------------------------------------------

  /** A date of ordinary years comes round within a year of any day. */
  lemma {:induction false} WithinAYear(month: int, day: int, start: int) returns (d: Date)
    requires Ordinary(month, day)
    ensures Real(d) && d.month == month && d.day == day && start <= Ordinal(d) < start + 366
  {
    var today := FromOrdinal(start);
    FromOrdinalExact(start);
    hide *;
    d := FromThere(today, month, day);
  }

  lemma {:induction false} FromThere(today: Date, month: int, day: int) returns (d: Date)
    requires Real(today) && Ordinary(month, day)
    ensures Real(d) && d.month == month && d.day == day && Ordinal(today) <= Ordinal(d) < Ordinal(today) + 366
  {
    hide *;
    d := Date(today.year, month, day);
    NextYearSameDate(today.year, month, day);
    SameYear(today, d);
    OrdinalOrder(today, Date(today.year + 1, month, day));
    if Ordinal(d) < Ordinal(today) {
      d := Date(today.year + 1, month, day);
    }
  }

  lemma {:induction false} SameYear(a: Date, b: Date)
    requires Real(a) && Real(b) && a.year == b.year
    ensures Ordinal(b) < Ordinal(a) + 366
  {
  }

  lemma {:induction false} NextYearSameDate(year: int, month: int, day: int)
    requires Ordinary(month, day)
    ensures Real(Date(year, month, day)) && Real(Date(year + 1, month, day))
    ensures Ordinal(Date(year, month, day)) < Ordinal(Date(year + 1, month, day)) <= Ordinal(Date(year, month, day)) + 366
  {
    YearStep(year);
    LeapThenNot(year);
    hide Leap, DaysBeforeYear;
  }

  lemma {:induction false} LeapThenNot(year: int)
    ensures !(Leap(year) && Leap(year + 1))
  {
  }

  lemma {:induction false} SomeWeekday(start: int, weekday: int) returns (k: int)
    requires 0 <= weekday <= 6
    ensures 0 <= k <= 6 && Weekday(start + k) == weekday
  {
    k := (weekday - start) % 7;
  }

  /** A yearly expression is always found, in little more than a year. */
  lemma {:induction false} YearlyIsFound(c: Cron, zone: int, after: real)
    requires Ranged(c) && Yearly(c)
    ensures InWindow(c, zone, after)
  {
    var start := StartDay(zone, after);
    var day;
    if c.dayOfWeek.Some? {
      var month := SomeValue(c.month, 1, 12);
      var weekday := SomeValue(c.dayOfWeek, 0, 6);
      var first := WithinAYear(month, 1, start + 1);
      var k := SomeWeekday(Ordinal(first), weekday);
      day := Ordinal(first) + k;
      var d := Date(first.year, month, 1 + k);
      assert Ordinal(d) == day;
      OrdinalRoundTrip(d);
    } else {
      var month, number :| Ordinary(month, number) && Allows(c.month, month) && Allows(c.dayOfMonth, number);
      var d := WithinAYear(month, number, start + 1);
      day := Ordinal(d);
      OrdinalRoundTrip(d);
    }
    var t := DayAhead(c, zone, after, day);
  }

  // ----- leap days ---------------------------------------------------------------------------------

  function LeapDay(year: int): int {
    Ordinal(Date(year, 2, 29))
  }

  /** Without a day of the week, an expression no ordinary date meets fires on leap days only. */
  lemma {:induction false} FiresOnLeapDay(c: Cron, day: int)
    requires Ranged(c) && !Yearly(c) && DayFires(c, day)
    ensures Leap(FromOrdinal(day).year) && day == LeapDay(FromOrdinal(day).year) && LeapDayOnly(c)
  {
    var d := FromOrdinal(day);
    FromOrdinalExact(day);
    assert !(Ordinary(d.month, d.day) && Allows(c.month, d.month) && Allows(c.dayOfMonth, d.day));
    assert d == Date(d.year, 2, 29);
  }

  lemma {:induction false} LeapDayFires(c: Cron, year: int)
    requires LeapDayOnly(c) && Leap(year)
    ensures DayFires(c, LeapDay(year))
  {
    OrdinalRoundTrip(Date(year, 2, 29));
  }

  /** Everything an expression allows on 29 February of a year is at or before `after`. */
  ghost predicate Spent(c: Cron, zone: int, after: real, year: int) {
    forall second :: TimeFires(c, second) ==> (Midnight(zone, LeapDay(year)) + second) as real <= after
  }

  predicate CenturyGap(year: int) {
    year % 100 == 0 && year % 400 != 0
  }

  /** The search falls between the leap days around a century year that is not a leap year, too early
      to see the second. */
  ghost predicate FallsInGap(c: Cron, zone: int, after: real, century: int) {
    && CenturyGap(century) && Spent(c, zone, after, century - 4)
    && StartDay(zone, after) + MAX_SEARCH_DAYS <= LeapDay(century + 4)
  }

  lemma {:induction false} LeapDaysGrow(a: int, b: int)
    requires a < b && Leap(a) && Leap(b)
    ensures LeapDay(a) < LeapDay(b)
  {
    OrdinalOrder(Date(a, 2, 29), Date(b, 2, 29));
  }

  /** Leap days of leap years four apart are 1461 days apart. */
  lemma {:induction false} LeapDayDistance(year: int)
    requires Leap(year) && Leap(year + 4)
    ensures LeapDay(year + 4) == LeapDay(year) + 1461
  {
    LeapDayAt(year);
    LeapDayAt(year + 4);
    YearStep(year);
    YearStep(year + 1);
    YearStep(year + 2);
    YearStep(year + 3);
    NotLeapBetween(year);
    hide DaysBeforeYear, Leap, LeapDay;
  }

  lemma {:induction false} LeapDayAt(year: int)
    requires Leap(year)
    ensures LeapDay(year) == DaysBeforeYear(year) + 60
  {
  }

  lemma {:induction false} NotLeapBetween(year: int)
    requires Leap(year)
    ensures !Leap(year + 1) && !Leap(year + 2) && !Leap(year + 3)
  {
  }

  lemma {:induction false} UpcomingLeapDay(c: Cron, zone: int, after: real, t: int)
    requires Ranged(c) && !Yearly(c) && Upcoming(c, zone, after, t)
    ensures var year := FromOrdinal(LocalDay(zone, t)).year;
            Leap(year) && LocalDay(zone, t) == LeapDay(year) && !Spent(c, zone, after, year)
  {
    FiresOnLeapDay(c, LocalDay(zone, t));
    hide DayFires, LeapDay;
    SplitInstant(zone, t);
    assert TimeFires(c, (t + zone) % 86400);
  }

  lemma {:induction false} SpentBackwards(c: Cron, zone: int, after: real, a: int, b: int)
    requires a <= b && Leap(a) && Leap(b) && Spent(c, zone, after, b)
    ensures Spent(c, zone, after, a)
  {
  }

  /** In the gap the search sees nothing. */
  lemma {:induction false} GapHidesAll(c: Cron, zone: int, after: real, century: int)
    requires Ranged(c) && LeapDayOnly(c) && FallsInGap(c, zone, after, century)
    ensures !InWindow(c, zone, after)
  {
    forall t | Upcoming(c, zone, after, t)
      ensures LocalDay(zone, t) >= StartDay(zone, after) + MAX_SEARCH_DAYS
    {
      PastTheGap(c, zone, after, century, t);
    }
  }

  lemma {:induction false} PastTheGap(c: Cron, zone: int, after: real, century: int, t: int)
    requires Ranged(c) && LeapDayOnly(c) && FallsInGap(c, zone, after, century) && Upcoming(c, zone, after, t)
    ensures LocalDay(zone, t) >= StartDay(zone, after) + MAX_SEARCH_DAYS
  {
    hide Leap, LeapDay, Upcoming, LocalDay, Spent, StartDay, FromOrdinal, Ranged, CenturyGap, Yearly;
    UpcomingLeapDay(c, zone, after, t);
    var year := FromOrdinal(LocalDay(zone, t)).year;
    LeapNear(century, year);
    if year <= century - 4 {
      SpentBackwards(c, zone, after, year, century - 4);
    } else if year > century + 4 {
      LeapDaysGrow(century + 4, year);
    }
  }

  lemma {:induction false} LeapNear(century: int, year: int)
    requires CenturyGap(century) && Leap(year)
    ensures Leap(century - 4) && Leap(century + 4) && (century - 4 < year <= century + 4 ==> year == century + 4)
  {
    assert century % 4 == 0 && year % 4 == 0 && !Leap(century);
    FourthYears(century);
    hide Leap, CenturyGap;
  }

  // ----- the next leap day -------------------------------------------------------------------------

  function LeapUpTo(year: int): int {
    var base := year - year % 4;
    if Leap(base) then base else base - 4
  }

  /** A year divisible by four is a leap year, or a century between two leap years. */
  lemma {:induction false} FourthYears(year: int)
    requires year % 4 == 0
    ensures Leap(year) || (CenturyGap(year) && Leap(year - 4) && Leap(year + 4))
  {
  }

  lemma {:induction false} BetweenFourths(base: int, y: int)
    requires base % 4 == 0 && base < y < base + 4
    ensures !Leap(y)
  {
    Quotient(y, 4, base / 4, y - base);
  }

  lemma {:induction false} LeapUpToExact(year: int)
    ensures Leap(LeapUpTo(year)) && LeapUpTo(year) <= year
    ensures forall y :: LeapUpTo(year) < y <= year ==> !Leap(y)
  {
    var base := year - year % 4;
    FourthYears(base);
    hide Leap;
    forall y | base < y <= year ensures !Leap(y) {
      BetweenFourths(base, y);
    }
    forall y | base - 4 < y < base ensures !Leap(y) {
      BetweenFourths(base - 4, y);
    }
  }

  function LeapBefore(year: int): int {
    if Leap(year - 4) then year - 4 else year - 8
  }

  function LeapAfter(year: int): int {
    if Leap(year + 4) then year + 4 else year + 8
  }

  predicate Consecutive(last: int, next: int) {
    Leap(last) && Leap(next) && (next == last + 4 || (next == last + 8 && CenturyGap(last + 4)))
  }

  lemma {:induction false} Neighbours(year: int)
    requires Leap(year)
    ensures Consecutive(LeapBefore(year), year) && Consecutive(year, LeapAfter(year))
  {
    FourthYears(year - 4);
    FourthYears(year + 4);
  }

  lemma {:induction false} NextIsPast(last: int, next: int, year: int)
    requires Consecutive(last, next) && last == LeapUpTo(year)
    ensures year < next
  {
  }

  /** The leap days around a moment: the first is spent, the next is not. */
  lemma {:induction false} Around(c: Cron, zone: int, after: real) returns (last: int, next: int)
    requires Ranged(c)
    ensures Consecutive(last, next) && Spent(c, zone, after, last) && !Spent(c, zone, after, next)
    ensures LeapDay(last) <= StartDay(zone, after)
  {
    var start := StartDay(zone, after);
    var today := FromOrdinal(start);
    FromOrdinalExact(start);
    var recent := LeapUpTo(today.year);
    LeapUpToExact(today.year);
    Neighbours(recent);
    hide LeapUpTo, LeapBefore, LeapAfter, Leap;
    hide Spent, FromOrdinal, StartDay, DaysBeforeYear, DaysBeforeMonth;
    if Spent(c, zone, after, recent) {
      last, next := recent, LeapAfter(recent);
      NextIsPast(last, next, today.year);
      LeapDayReal(next);
      OrdinalOrder(today, Date(next, 2, 29));
      AheadNotSpent(c, zone, after, next);
      if LeapDay(last) > start {
        AheadNotSpent(c, zone, after, last);
      }
    } else {
      last, next := LeapBefore(recent), recent;
      LeapDayReal(last);
      OrdinalOrder(Date(last, 2, 29), today);
      SpentByYear(c, zone, after, last);
    }
  }

  lemma {:induction false} LeapDayReal(year: int)
    requires Leap(year)
    ensures Real(Date(year, 2, 29))
  {
  }

  lemma {:induction false} AheadNotSpent(c: Cron, zone: int, after: real, year: int)
    requires Ranged(c) && LeapDay(year) > StartDay(zone, after)
    ensures !Spent(c, zone, after, year)
  {
    var second := SomeTime(c);
    DayAndSecond(zone, LeapDay(year), second);
    AheadByDay(zone, after, Midnight(zone, LeapDay(year)) + second);
  }

  /** The leap day of an earlier year is spent. */
  lemma {:induction false} SpentByYear(c: Cron, zone: int, after: real, year: int)
    requires Leap(year) && LeapDay(year) < StartDay(zone, after)
    ensures Spent(c, zone, after, year)
  {
  }

  lemma {:induction false} LeapDayAhead(c: Cron, zone: int, after: real, year: int) returns (t: int)
    requires LeapDayOnly(c) && Leap(year) && !Spent(c, zone, after, year)
    ensures Upcoming(c, zone, after, t) && LocalDay(zone, t) == LeapDay(year)
  {
    hide LeapDayOnly, LeapDay, DayFires, Midnight, LocalDay, TimeFires, Leap, Spent;
    LeapDayFires(c, year);
    var second := TimeLeft(c, zone, after, year);
    t := Midnight(zone, LeapDay(year)) + second;
    TimeInDay(c, second);
    DayAndSecond(zone, LeapDay(year), second);
  }

  lemma {:induction false} TimeLeft(c: Cron, zone: int, after: real, year: int) returns (second: int)
    requires !Spent(c, zone, after, year)
    ensures TimeFires(c, second) && (Midnight(zone, LeapDay(year)) + second) as real > after
  {
    hide LeapDay, Midnight, TimeFires;
    second :| TimeFires(c, second) && (Midnight(zone, LeapDay(year)) + second) as real > after;
  }

  lemma {:induction false} TimeInDay(c: Cron, second: int)
    requires TimeFires(c, second)
    ensures 0 <= second < 86400
  {
  }

  // ----- the answer --------------------------------------------------------------------------------

  ghost predicate EverFires(c: Cron, zone: int, after: real) {
    exists t :: Upcoming(c, zone, after, t)
  }

  /** A next time exists for every expression that some real date meets, and for no other. */
  lemma {:induction false} EverFiresExact(c: Cron, zone: int, after: real)
    requires Ranged(c)
    ensures EverFires(c, zone, after) <==> Yearly(c) || LeapDayOnly(c)
  {
    if Yearly(c) {
      YearlyIsFound(c, zone, after);
    } else {
      if LeapDayOnly(c) {
        var last, next := Around(c, zone, after);
        var t := LeapDayAhead(c, zone, after, next);
      }
      if t :| Upcoming(c, zone, after, t) {
        FiresOnLeapDay(c, LocalDay(zone, t));
      }
    }
  }

  /** The search gives up although there is a next time exactly for an expression met by 29 February
      alone, started between the two leap days around such a century year and too far from the second.
      In every other case a refusal means that no time exists at all. */
  lemma {:induction false} GivesUpWronglyExact(c: Cron, zone: int, after: real)
    requires Ranged(c)
    ensures !InWindow(c, zone, after) && EverFires(c, zone, after)
            <==> LeapDayOnly(c) && exists century :: FallsInGap(c, zone, after, century)
  {
    EverFiresExact(c, zone, after);
    if Yearly(c) {
      YearlyIsFound(c, zone, after);
    } else if LeapDayOnly(c) {
      hide Yearly, LeapDayOnly, EverFires;
      LeapDayOnlyExact(c, zone, after);
    }
  }

  lemma {:induction false} LeapDayOnlyExact(c: Cron, zone: int, after: real)
    requires Ranged(c) && LeapDayOnly(c)
    ensures !InWindow(c, zone, after) <==> exists century :: FallsInGap(c, zone, after, century)
  {
    hide LeapDayOnly, LeapDay, Spent, Upcoming, StartDay, LocalDay, Leap;
    if century :| FallsInGap(c, zone, after, century) {
      GapHidesAll(c, zone, after, century);
    } else {
      var last, next := Around(c, zone, after);
      var t := LeapDayAhead(c, zone, after, next);
      if next == last + 4 {
        LeapDayDistance(last);
      } else {
        assert !FallsInGap(c, zone, after, last + 4);
      }
    }
  }

  /** At noon on 1 March 2096, the expression for midnight on 29 February has its next time in 2104,
      and the search gives up. */
  lemma {:induction false} LeapDay2104Missed()
    ensures var c := Cron(Some({0}), Some({0}), Some({29}), Some({2}), None);
            var after := (Midnight(0, Ordinal(Date(2096, 3, 1))) + 43200) as real;
            !InWindow(c, 0, after) && Upcoming(c, 0, after, Midnight(0, Ordinal(Date(2104, 2, 29))))
  {
    var c := Cron(Some({0}), Some({0}), Some({29}), Some({2}), None);
    OnlyMidnightLeapDay(c);
    hide *;
    AfterMarch2096(c);
  }

  lemma {:induction false} AfterMarch2096(c: Cron)
    requires Ranged(c) && LeapDayOnly(c) && TimeFires(c, 0)
    ensures var after := (Midnight(0, Ordinal(Date(2096, 3, 1))) + 43200) as real;
            !InWindow(c, 0, after) && Upcoming(c, 0, after, Midnight(0, Ordinal(Date(2104, 2, 29))))
  {
    YearsAround2100();
    var noon := Midnight(0, 765244) + 43200;
    DayAndSecond(0, 765244, 43200);
    hide LeapDayOnly, InWindow, Ranged, TimeFires, Leap, Midnight, Ordinal, Upcoming;
    InGap2100(c, noon as real);
    On2104(c, noon as real);
  }

  lemma {:induction false} InGap2100(c: Cron, after: real)
    requires Ranged(c) && LeapDayOnly(c) && StartDay(0, after) == 765244
    ensures !InWindow(c, 0, after)
  {
    YearsAround2100();
    hide LeapDayOnly, InWindow, Ranged, TimeFires, Leap, LeapDay, StartDay;
    SpentByYear(c, 0, after, 2096);
    GapHidesAll(c, 0, after, 2100);
  }

  lemma {:induction false} On2104(c: Cron, after: real)
    requires LeapDayOnly(c) && TimeFires(c, 0) && StartDay(0, after) == 765244
    ensures Upcoming(c, 0, after, Midnight(0, LeapDay(2104)))
  {
    YearsAround2100();
    LeapDayFires(c, 2104);
    hide LeapDayOnly, DayFires, TimeFires, Leap, LeapDay, StartDay, Midnight, LocalDay;
    DayAndSecond(0, LeapDay(2104), 0);
    AheadByDay(0, after, Midnight(0, LeapDay(2104)));
  }

  lemma {:induction false} YearsAround2100()
    ensures Leap(2096) && CenturyGap(2100) && Leap(2104)
    ensures LeapDay(2096) == 765243 && Ordinal(Date(2096, 3, 1)) == 765244 && LeapDay(2104) == 768164
  {
  }

  lemma {:induction false} OnlyMidnightLeapDay(c: Cron)
    requires c == Cron(Some({0}), Some({0}), Some({29}), Some({2}), None)
    ensures Ranged(c) && LeapDayOnly(c) && TimeFires(c, 0)
  {
  }
}
