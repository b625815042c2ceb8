/**
 The part of a JavaScript `Date` that the date picker uses, on whole days: the day number is
 counted from 1 January 1970 in the proleptic Gregorian calendar (sections 15.9.1.2 to 15.9.1.12
 of ECMA-262, edition 5.1). Months are numbered 0..11, weekdays 0 (Sunday) .. 6.
 */
module Calendar {
  import opened Division

  /** A calendar date as the getters of a `Date` present it. */
  datatype Civil = Civil(year: int, month: int, day: int)

  predicate IsLeap(y: int) {
    y % 4 == 0 && (y % 100 != 0 || y % 400 == 0)
  }

  function DaysInYear(y: int): int {
    if IsLeap(y) then 366 else 365
  }

  /** The length of a month of the Gregorian calendar. */
  function MonthLength(y: int, m: int): (l: int)
    requires 0 <= m < 12
    ensures 28 <= l <= 31
  {
    if m == 1 then (if IsLeap(y) then 29 else 28)
    else if m == 3 || m == 5 || m == 8 || m == 10 then 30
    else 31
  }

  /** The day number of 1 January, counting whole years from 1970. */
  function DayFromYear(y: int): int
    decreases if y >= 1970 then y - 1970 else 1970 - y
  {
    if y == 1970 then 0
    else if y > 1970 then DayFromYear(y - 1) + DaysInYear(y - 1)
    else DayFromYear(y + 1) - DaysInYear(y)
  }

  /** The days of a year that come before its month m; for m == 12, all of them. */
  function DaysBefore(y: int, m: int): int
    requires 0 <= m <= 12
  {
    if m == 0 then 0 else DaysBefore(y, m - 1) + MonthLength(y, m - 1)
  }

  lemma DaysBeforeStep(y: int, m: int)
    requires 0 <= m < 12
    ensures DaysBefore(y, m + 1) == DaysBefore(y, m) + MonthLength(y, m)
  {
  }

  /** The table of section 15.9.1.4 of ECMA-262: on which day of the year each month begins. */
  lemma {:induction false} MonthTable(y: int, m: int)
    requires 0 <= m <= 12
    ensures DaysBefore(y, m) == [0, 31, 59, 90, 120, 151, 181, 212, 243, 273, 304, 334, 365][m]
                                + (if IsLeap(y) && 2 <= m then 1 else 0)
    decreases m
  {
    hide IsLeap;
    if m > 0 {
      MonthTable(y, m - 1);
    }
  }

  /** The months of a year make up the year. */
  lemma MonthsFillYear(y: int)
    ensures DaysBefore(y, 12) == DaysInYear(y)
  {
    MonthTable(y, 12);
  }

  lemma DaysBeforeStart(y: int)
    ensures DaysBefore(y, 0) == 0
  {
  }

  /** Years differ in nothing but the leap day. */
  lemma {:induction false} DaysBeforeDiffer(y: int, z: int, m: int)
    requires 0 <= m <= 12
    ensures DaysBefore(y, m) - DaysBefore(z, m)
         == if m < 2 then 0 else (if IsLeap(y) then 1 else 0) - (if IsLeap(z) then 1 else 0)
    decreases m
  {
    hide IsLeap;
    if m > 0 {
      DaysBeforeDiffer(y, z, m - 1);
    }
  }

  lemma {:induction false} DaysBeforeGrows(y: int, m1: int, m2: int)
    requires 0 <= m1 <= m2 <= 12
    ensures DaysBefore(y, m1) <= DaysBefore(y, m2)
    decreases m2 - m1
  {
    if m1 < m2 {
      DaysBeforeGrows(y, m1, m2 - 1);
    }
  }

  lemma DaysBeforeMonotone(y: int, m1: int, m2: int)
    requires 0 <= m1 <= m2 <= 12
    ensures DaysBefore(y, m1) <= DaysBefore(y, m2)
    ensures DaysBefore(y, 0) == 0 && DaysBefore(y, 12) == DaysInYear(y)
  {
    hide DaysInYear;
    DaysBeforeGrows(y, m1, m2);
    MonthsFillYear(y);
  }

  lemma DayFromYearStep(y: int)
    ensures DayFromYear(y + 1) == DayFromYear(y) + DaysInYear(y)
  {
  }

  /** The formula of section 15.9.1.3 for the day number of 1 January. */
  function YearFormula(y: int): int {
    365 * (y - 1970) + (y - 1969) / 4 - (y - 1901) / 100 + (y - 1601) / 400
  }

  lemma LeapQuotients(y: int)
    ensures (y - 1968) / 4 == (y - 1969) / 4 + (if y % 4 == 0 then 1 else 0)
    ensures (y - 1900) / 100 == (y - 1901) / 100 + (if y % 100 == 0 then 1 else 0)
    ensures (y - 1600) / 400 == (y - 1601) / 400 + (if y % 400 == 0 then 1 else 0)
  {
    QuotientStep(y - 1969, 4);
    QuotientStep(y - 1901, 100);
    QuotientStep(y - 1601, 400);
  }

  lemma CenturiesAreFourfold(y: int)
    ensures y % 400 == 0 ==> y % 100 == 0
    ensures y % 100 == 0 ==> y % 4 == 0
  {
    if y % 400 == 0 {
      DivUnique(y, 100, 4 * (y / 400), 0);
    }
    if y % 100 == 0 {
      DivUnique(y, 4, 25 * (y / 100), 0);
    }
  }

  lemma FormulaStep(y: int)
    ensures YearFormula(y + 1) == YearFormula(y) + DaysInYear(y)
  {
    LeapQuotients(y);
    CenturiesAreFourfold(y);
  }

  /** Counting year by year agrees with the formula, backwards from 1970 as well as onwards. */
  lemma {:induction false} DayFromYearIs(y: int)
    ensures DayFromYear(y) == YearFormula(y)
    decreases if y >= 1970 then y - 1970 else 1970 - y
  {
    hide YearFormula, DaysInYear;
    if y > 1970 {
      DayFromYearIs(y - 1);
      FormulaStep(y - 1);
    } else if y < 1970 {
      DayFromYearIs(y + 1);
      FormulaStep(y);
    } else {
      EpochYear();
    }
  }

  lemma EpochYear()
    ensures YearFormula(1970) == 0
  {
  }

  lemma {:induction false} DayFromYearMonotone(y1: int, y2: int)
    requires y1 <= y2
    ensures DayFromYear(y1) + 365 * (y2 - y1) <= DayFromYear(y2) <= DayFromYear(y1) + 366 * (y2 - y1)
    decreases y2 - y1
  {
    hide DayFromYear, IsLeap;
    if y1 < y2 {
      DayFromYearStep(y2 - 1);
      DayFromYearMonotone(y1, y2 - 1);
    }
  }

  /** Searches the year of day n upwards from y. */
  function YearFrom(n: int, y: int): (r: int)
    requires DayFromYear(y) <= n
    ensures DayFromYear(r) <= n < DayFromYear(r + 1)
    decreases n - DayFromYear(y)
  {
    DayFromYearStep(y);
    if n < DayFromYear(y + 1) then y else YearFrom(n, y + 1)
  }

  /** Searches the year of day n downwards from before y. */
  function YearBack(n: int, y: int): (r: int)
    requires n < DayFromYear(y)
    ensures DayFromYear(r) <= n < DayFromYear(r + 1)
    decreases DayFromYear(y) - n
  {
    DayFromYearStep(y - 1);
    if DayFromYear(y - 1) <= n then y - 1 else YearBack(n, y - 1)
  }

  /** YearFromTime (section 15.9.1.3). */
  function YearOf(n: int): (y: int)
    ensures DayFromYear(y) <= n < DayFromYear(y + 1)
  {
    if 0 <= n then YearFrom(n, 1970) else YearBack(n, 1970)
  }

  /** The day within the year, from 0. */
  function DayInYear(n: int): (d: int)
    ensures 0 <= d < DaysInYear(YearOf(n))
  {
    DayFromYearStep(YearOf(n));
    n - DayFromYear(YearOf(n))
  }

  /** The month that holds day d (from 0) of year y, searched upwards from m. */
  function MonthFrom(y: int, d: int, m: int): (r: int)
    requires 0 <= m < 12 && DaysBefore(y, m) <= d < DaysInYear(y)
    ensures 0 <= r < 12 && DaysBefore(y, r) <= d < DaysBefore(y, r + 1)
    decreases 12 - m
  {
    MonthsFillYear(y);
    if d < DaysBefore(y, m + 1) then m else MonthFrom(y, d, m + 1)
  }

  /** MonthFromTime (section 15.9.1.4). */
  function MonthOf(n: int): (m: int)
    ensures 0 <= m < 12
    ensures DaysBefore(YearOf(n), m) <= DayInYear(n) < DaysBefore(YearOf(n), m + 1)
  {
    MonthFrom(YearOf(n), DayInYear(n), 0)
  }

  /** DateFromTime (section 15.9.1.5). */
  function DayOf(n: int): (d: int)
    ensures 1 <= d <= MonthLength(YearOf(n), MonthOf(n))
  {
    DaysBeforeStep(YearOf(n), MonthOf(n));
    DayInYear(n) - DaysBefore(YearOf(n), MonthOf(n)) + 1
  }

  function CivilOf(n: int): Civil {
    Civil(YearOf(n), MonthOf(n), DayOf(n))
  }

  /** WeekDay (section 15.9.1.6): day 0 was a Thursday. */
  function WeekDay(n: int): (w: int)
    ensures 0 <= w < 7
  {
    (n + 4) % 7
  }

  /** MakeDay (section 15.9.1.12): month and day may lie outside their ranges. */
  function MakeDay(y: int, m: int, d: int): int {
    DayFromYear(y + m / 12) + DaysBefore(y + m / 12, m % 12) + d - 1
  }

  /** The constructor `new Date(y, m, d)` (section 15.9.3.1): years 0..99 stand for 1900..1999. */
  function ConstructorYear(y: int): int {
    if 0 <= y <= 99 then 1900 + y else y
  }

  function NewDate(y: int, m: int, d: int): int {
    MakeDay(ConstructorYear(y), m, d)
  }

  /** `setDate` and `setMonth` (sections 15.9.5.36 and 15.9.5.38): no reading of short years. */
  function SetDate(n: int, d: int): int {
    MakeDay(YearOf(n), MonthOf(n), d)
  }

  function SetMonth(n: int, m: int): int {
    MakeDay(YearOf(n), m, DayOf(n))
  }

  /** A date that exists in the Gregorian calendar. */
  predicate IsCivil(c: Civil) {
    0 <= c.month < 12 && 1 <= c.day <= MonthLength(c.year, c.month)
  }

  // ---------- the calendar is a bijection ----------

  lemma YearUnique(n: int, y: int)
    requires DayFromYear(y) <= n < DayFromYear(y + 1)
    ensures YearOf(n) == y
  {
    hide DayFromYear, YearOf;
    var r := YearOf(n);
    if r < y {
      DayFromYearMonotone(r + 1, y);
    } else if y < r {
      DayFromYearMonotone(y + 1, r);
    }
  }

  lemma MonthUnique(n: int, m: int)
    requires 0 <= m < 12 && DaysBefore(YearOf(n), m) <= DayInYear(n) < DaysBefore(YearOf(n), m + 1)
    ensures MonthOf(n) == m
  {
    hide DayFromYear, YearOf, DayInYear, MonthOf, DaysBefore;
    var r := MonthOf(n);
    if r < m {
      DaysBeforeMonotone(YearOf(n), r + 1, m);
    } else if m < r {
      DaysBeforeMonotone(YearOf(n), m + 1, r);
    }
  }

  /** Reading back what MakeDay built from a real date gives that date. */
  lemma CivilOfMakeDay(c: Civil)
    requires IsCivil(c)
    ensures CivilOf(MakeDay(c.year, c.month, c.day)) == c
  {
    hide DayFromYear, DaysBefore, IsLeap, YearOf, MonthOf, MonthLength, DaysInYear;
    var n := MakeDay(c.year, c.month, c.day);
    DaysBeforeStep(c.year, c.month);
    DaysBeforeMonotone(c.year, 0, c.month);
    DaysBeforeMonotone(c.year, c.month + 1, 12);
    DayFromYearStep(c.year);
    YearUnique(n, c.year);
    MonthUnique(n, c.month);
  }

  /** Building from what was read gives the day back, and the reading is always a real date. */
  lemma MakeDayOfCivil(n: int)
    ensures IsCivil(CivilOf(n))
    ensures MakeDay(YearOf(n), MonthOf(n), DayOf(n)) == n
  {
  }

  lemma MakeDayShift(y: int, m: int, d: int, e: int)
    ensures MakeDay(y, m, e) == MakeDay(y, m, d) + e - d
  {
  }

  lemma SetDateExact(n: int, d: int)
    ensures SetDate(n, d) == n + d - DayOf(n)
  {
    hide DayFromYear, DaysBefore, IsLeap, YearOf, MonthOf, MonthLength, DaysInYear, DayOf;
    MakeDayOfCivil(n);
  }

  /** The years that the constructor takes for years of the 1900s. */
  predicate ShortYear(y: int) { 0 <= y <= 99 }

  /**
   Normalise and compare: building a date and comparing year, month and day back accepts exactly
   the real Gregorian dates whose year is not read as a short one.
   */
  lemma NormaliseAndCompare(c: Civil)
    ensures CivilOf(NewDate(c.year, c.month, c.day)) == c <==> IsCivil(c) && !ShortYear(c.year)
  {
    hide DayFromYear, DaysBefore, IsLeap, YearOf, MonthOf, MonthLength, DaysInYear, DayOf, MakeDay;
    MakeDayOfCivil(NewDate(c.year, c.month, c.day));
    if IsCivil(c) && ShortYear(c.year) {
      ShortYearMoves(c);
    } else if IsCivil(c) {
      CivilOfMakeDay(c);
    }
  }

  /** A short year never comes back from the constructor. */
  lemma ShortYearMoves(c: Civil)
    requires ShortYear(c.year) && 0 <= c.month < 12 && 1 <= c.day <= 31
    ensures YearOf(NewDate(c.year, c.month, c.day)) != c.year
  {
    hide DayFromYear, DaysBefore, IsLeap, YearOf, MonthOf, MonthLength, DaysInYear, DayOf;
    var y := ConstructorYear(c.year);
    var n := NewDate(c.year, c.month, c.day);
    DaysBeforeMonotone(y, 0, c.month);
    DayFromYearMonotone(c.year + 1, y);
  }

  /** One such date: 1 January 50 comes back as 1 January 1950. */
  lemma YearFiftyMoves()
    ensures IsCivil(Civil(50, 0, 1)) && CivilOf(NewDate(50, 0, 1)) == Civil(1950, 0, 1)
  {
    hide YearOf, MonthOf, DayOf;
    CivilOfMakeDay(Civil(1950, 0, 1));
  }
}
