/** Civil dates and day numbers, as Python's `datetime.date` counts them: day 1 is 1 January of year 1. */
module Calendar {
  import opened Arithmetic

  datatype Date = Date(year: int, month: int, day: int)

  predicate Leap(year: int) {
    year % 4 == 0 && (year % 100 != 0 || year % 400 == 0)
  }

  function DaysBeforeYear(year: int): int {
    var y := year - 1;
    y * 365 + y / 4 - y / 100 + y / 400
  }

  function YearLength(leap: bool): int {
    if leap then 366 else 365
  }

  function DaysBeforeMonth(leap: bool, month: int): int {
    var extra := if leap then 1 else 0;
    if month <= 1 then 0
    else if month == 2 then 31
    else if month == 3 then 59 + extra
    else if month == 4 then 90 + extra
    else if month == 5 then 120 + extra
    else if month == 6 then 151 + extra
    else if month == 7 then 181 + extra
    else if month == 8 then 212 + extra
    else if month == 9 then 243 + extra
    else if month == 10 then 273 + extra
    else if month == 11 then 304 + extra
    else if month == 12 then 334 + extra
    else 365 + extra
  }

  function DaysInMonth(leap: bool, month: int): int {
    DaysBeforeMonth(leap, month + 1) - DaysBeforeMonth(leap, month)
  }

  predicate Real(d: Date) {
    1 <= d.month <= 12 && 1 <= d.day <= DaysInMonth(Leap(d.year), d.month)
  }

  /** The day number of a date. */
  function Ordinal(d: Date): int {
    DaysBeforeYear(d.year) + DaysBeforeMonth(Leap(d.year), d.month) + d.day
  }

  /** The month a day of the year falls in, days of the year counting from 0. */
  function MonthOf(leap: bool, n: int): int {
    if n < DaysBeforeMonth(leap, 2) then 1
    else if n < DaysBeforeMonth(leap, 3) then 2
    else if n < DaysBeforeMonth(leap, 4) then 3
    else if n < DaysBeforeMonth(leap, 5) then 4
    else if n < DaysBeforeMonth(leap, 6) then 5
    else if n < DaysBeforeMonth(leap, 7) then 6
    else if n < DaysBeforeMonth(leap, 8) then 7
    else if n < DaysBeforeMonth(leap, 9) then 8
    else if n < DaysBeforeMonth(leap, 10) then 9
    else if n < DaysBeforeMonth(leap, 11) then 10
    else if n < DaysBeforeMonth(leap, 12) then 11
    else 12
  }

  function DayOfYear(year: int, n: int): Date {
    var month := MonthOf(Leap(year), n);
    Date(year, month, n - DaysBeforeMonth(Leap(year), month) + 1)
  }

  /** The year a day number falls in: eras of 400 years, then centuries, then fours, then years. */
  function YearOf(ordinal: int): int {
    var n := ordinal - 1;
    var era, inEra := n / 146097, n % 146097;
    var century, inCentury := inEra / 36524, inEra % 36524;
    var four, inFour := inCentury / 1461, inCentury % 1461;
    var one := inFour / 365;
    era * 400 + century * 100 + four * 4 + one + (if century == 4 || one == 4 then 0 else 1)
  }

  function FromOrdinal(ordinal: int): Date {
    var year := YearOf(ordinal);
    DayOfYear(year, ordinal - 1 - DaysBeforeYear(year))
  }

  // ----- the two agree -----------------------------------------------------------------------------

  /** How many leap days and years lie before a year, by era, century, four and year. */
  lemma {:induction false} YearParts(era: int, century: int, four: int, one: int)
    requires 0 <= century <= 3 && 0 <= four <= 24 && 0 <= one <= 3
    ensures var year := era * 400 + century * 100 + four * 4 + one + 1;
            && DaysBeforeYear(year) == era * 146097 + century * 36524 + four * 1461 + one * 365
            && (Leap(year) <==> one == 3 && (four != 24 || century == 3))
  {
    DaysParts(era, century, four, one);
    LeapParts(era, century, four, one);
    hide DaysBeforeYear, Leap;
  }

  lemma {:induction false} DaysParts(era: int, century: int, four: int, one: int)
    requires 0 <= century <= 3 && 0 <= four <= 24 && 0 <= one <= 3
    ensures DaysBeforeYear(era * 400 + century * 100 + four * 4 + one + 1)
            == era * 146097 + century * 36524 + four * 1461 + one * 365
  {
    var y := era * 400 + century * 100 + four * 4 + one;
    Quotient(y, 4, era * 100 + century * 25 + four, one);
    Quotient(y, 100, era * 4 + century, four * 4 + one);
    Quotient(y, 400, era, century * 100 + four * 4 + one);
  }

  lemma {:induction false} LeapParts(era: int, century: int, four: int, one: int)
    requires 0 <= century <= 3 && 0 <= four <= 24 && 0 <= one <= 3
    ensures Leap(era * 400 + century * 100 + four * 4 + one + 1) <==> one == 3 && (four != 24 || century == 3)
  {
    var year := era * 400 + century * 100 + four * 4 + one + 1;
    if one < 3 {
      Quotient(year, 4, era * 100 + century * 25 + four, one + 1);
    } else if four < 24 {
      Quotient(year, 4, era * 100 + century * 25 + four + 1, 0);
      Quotient(year, 100, era * 4 + century, four * 4 + 4);
    } else {
      Quotient(year, 4, era * 100 + century * 25 + 25, 0);
      Quotient(year, 100, era * 4 + century + 1, 0);
      if century < 3 {
        Quotient(year, 400, era, century * 100 + 100);
      } else {
        Quotient(year, 400, era + 1, 0);
      }
    }
  }

  lemma {:induction false} YearStepParts(era: int, century: int, four: int, one: int)
    requires 0 <= century <= 3 && 0 <= four <= 24 && 0 <= one <= 3
    ensures var year := era * 400 + century * 100 + four * 4 + one + 1;
            DaysBeforeYear(year + 1) == DaysBeforeYear(year) + YearLength(Leap(year))
  {
    YearParts(era, century, four, one);
    if one < 3 {
      YearParts(era, century, four, one + 1);
    } else if four < 24 {
      YearParts(era, century, four + 1, 0);
    } else if century < 3 {
      YearParts(era, century + 1, 0, 0);
    } else {
      YearParts(era + 1, 0, 0, 0);
    }
    hide DaysBeforeYear, Leap;
  }

  lemma {:induction false} YearStep(year: int)
    ensures DaysBeforeYear(year + 1) == DaysBeforeYear(year) + YearLength(Leap(year))
  {
    hide DaysBeforeYear, Leap, YearLength;
    var y := year - 1;
    var inEra := y % 400;
    var inCentury := inEra % 100;
    assert y == y / 400 * 400 + inEra && inEra == inEra / 100 * 100 + inCentury;
    assert inCentury == inCentury / 4 * 4 + inCentury % 4;
    YearStepParts(y / 400, inEra / 100, inCentury / 4, inCentury % 4);
  }

  /** The year found is the one the day lies in. */
  lemma {:induction false} YearOfExact(ordinal: int)
    ensures var year := YearOf(ordinal);
            0 <= ordinal - 1 - DaysBeforeYear(year) < YearLength(Leap(year))
  {
    hide Leap, DaysBeforeYear;
    var n := ordinal - 1;
    var era, inEra := n / 146097, n % 146097;
    var century, inCentury := inEra / 36524, inEra % 36524;
    var four, inFour := inCentury / 1461, inCentury % 1461;
    var one := inFour / 365;
    if century == 4 {
      YearParts(era, 3, 24, 3);
    } else if one == 4 {
      YearParts(era, century, four, 3);
    } else {
      YearParts(era, century, four, one);
    }
  }

  /** A day number names a real date, and that date has that number. */
  lemma {:induction false} FromOrdinalExact(ordinal: int)
    ensures Real(FromOrdinal(ordinal)) && Ordinal(FromOrdinal(ordinal)) == ordinal
  {
    YearOfExact(ordinal);
    hide YearOf, DaysBeforeYear, Leap;
  }

  lemma {:induction false} WithinYear(d: Date)
    requires Real(d)
    ensures DaysBeforeYear(d.year) < Ordinal(d) <= DaysBeforeYear(d.year) + YearLength(Leap(d.year))
  {
  }

  lemma {:induction false} YearsGrow(a: int, b: int)
    requires a < b
    ensures DaysBeforeYear(a) + YearLength(Leap(a)) <= DaysBeforeYear(b)
  {
    YearStep(a);
  }

  /** Day numbers order dates by year, then month, then day. */
  lemma {:induction false} OrdinalOrder(a: Date, b: Date)
    requires Real(a) && Real(b)
    ensures Ordinal(a) < Ordinal(b) <==>
            a.year < b.year || (a.year == b.year && (a.month < b.month || (a.month == b.month && a.day < b.day)))
  {
    hide Leap, DaysBeforeYear;
    WithinYear(a);
    WithinYear(b);
    if a.year < b.year {
      YearsGrow(a.year, b.year);
    } else if b.year < a.year {
      YearsGrow(b.year, a.year);
    }
  }

  /** Every real date is found again by its number. */
  lemma {:induction false} OrdinalRoundTrip(d: Date)
    requires Real(d)
    ensures FromOrdinal(Ordinal(d)) == d
  {
    var back := FromOrdinal(Ordinal(d));
    FromOrdinalExact(Ordinal(d));
    OrdinalOrder(d, back);
    OrdinalOrder(back, d);
  }

  /** 0 is Sunday. */
  function Weekday(ordinal: int): int {
    ordinal % 7
  }
}
