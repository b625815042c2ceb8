/**
 The last part of `parseDate`: which fields name a date, how a day of the year is split, and how a
 two-digit year is completed.
 */
module DateCheck {
  import opened Wrappers
  import opened Division
  import opened Calendar
  import opened MonthGrid
  import opened FormatDate
  import opened ParseDate

  /** Where the day-of-year loop ends up, started at any month of the year. */
  lemma {:induction false} FromDayOfYearIs(year: int, month: int, day: int)
    requires !ShortYear(year) && 1 <= month <= 12
    ensures (var (m, d) := FromDayOfYear(year, month, day);
             var total := DaysBefore(year, month - 1) + day;
             && (day < 1 ==> d < 1)
             && (1 <= day && total <= DaysInYear(year) ==>
                   1 <= m <= 12 && 1 <= d <= MonthLength(year, m - 1) && DaysBefore(year, m - 1) + d == total)
             && (total > DaysInYear(year) ==> m > 12))
    decreases day
  {
    hide GetDaysInMonth, DaysBefore, MonthLength, DaysInYear;
    DaysInMonthInRange(year, month - 1);
    DaysBeforeStep(year, month - 1);
    DaysBeforeMonotone(year, month, 12);
    var dim := GetDaysInMonth(year, month - 1);
    if day > dim {
      if month < 12 {
        FromDayOfYearIs(year, month + 1, day - dim);
      } else {
        LaterMonths(year, month + 1, day - dim);
      }
    }
  }

  /** The loop only counts months up. */
  lemma {:induction false} LaterMonths(year: int, month: int, day: int)
    ensures FromDayOfYear(year, month, day).0 >= month
    decreases day
  {
    hide GetDaysInMonth;
    DaysInMonthPositive(year, month - 1);
    var dim := GetDaysInMonth(year, month - 1);
    if day > dim {
      LaterMonths(year, month + 1, day - dim);
    }
  }

  /** Position in the year determines the day. */
  lemma DayOfOrdinal(year: int, m: int, d: int)
    requires 1 <= m <= 12 && 1 <= d <= MonthLength(year, m - 1)
    ensures MakeDay(year, m - 1, d) == DayFromYear(year) + DaysBefore(year, m - 1) + d - 1
  {
  }

  /**
   A day of the year is accepted iff it lies in 1..365, or 1..366 in a leap year, and is then that
   day; 0 and overflow into the next year are rejected.
   */
  lemma DayOfYearAccepted(f: Fields, nowYear: int, cutoff: int)
    requires f.doy > -1
    ensures (var year := ResolveYear(f.year, nowYear, cutoff);
             DateOfFields(f, nowYear, cutoff)
             == if 1 <= f.doy <= DaysInYear(year) && !ShortYear(year) then Ok(DayFromYear(year) + f.doy - 1)
                else Err(InvalidDate))
  {
    hide YearOf, MonthOf, DayOf, MakeDay, MonthLength, DaysBefore, DaysInYear, DayFromYear, FromDayOfYear, ShortYear;
    hide ConstructorYear;
    var year := ResolveYear(f.year, nowYear, cutoff);
    var (m, d) := FromDayOfYear(year, 1, f.doy);
    NormaliseAndCompare(Civil(year, m - 1, d));
    if !ShortYear(year) {
      FromDayOfYearIs(year, 1, f.doy);
      DaysBeforeMonotone(year, 0, 12);
      if 1 <= f.doy <= DaysInYear(year) {
        DayOfOrdinal(year, m, d);
        NotShort(year);
      }
    }
  }

  lemma NotShort(year: int)
    requires !ShortYear(year)
    ensures ConstructorYear(year) == year
  {
  }

  /** Without a day of the year, exactly the real dates outside the short years are accepted. */
  lemma MonthAndDayAccepted(f: Fields, nowYear: int, cutoff: int)
    requires f.doy <= -1
    ensures (var year := ResolveYear(f.year, nowYear, cutoff);
             DateOfFields(f, nowYear, cutoff)
             == if IsCivil(Civil(year, f.month - 1, f.day)) && !ShortYear(year)
                then Ok(MakeDay(year, f.month - 1, f.day))
                else Err(InvalidDate))
  {
    hide YearOf, MonthOf, DayOf, MakeDay, MonthLength, ShortYear, ConstructorYear, IsCivil;
    var year := ResolveYear(f.year, nowYear, cutoff);
    NormaliseAndCompare(Civil(year, f.month - 1, f.day));
    if !ShortYear(year) {
      NotShort(year);
    }
  }

  /** The fields that name day n: its year, and then its place in the year or its month and day. */
  predicate NamesDay(f: Fields, nowYear: int, cutoff: int, n: int) {
    && ResolveYear(f.year, nowYear, cutoff) == YearOf(n) && !ShortYear(YearOf(n))
    && (if f.doy > -1 then f.doy == DayInYear(n) + 1 else f.month == MonthOf(n) + 1 && f.day == DayOf(n))
  }

  /** The check yields day n exactly for the fields that name it. */
  lemma DateOfFieldsIs(f: Fields, nowYear: int, cutoff: int, n: int)
    ensures DateOfFields(f, nowYear, cutoff) == Ok(n) <==> NamesDay(f, nowYear, cutoff, n)
  {
    hide YearOf, MonthOf, DayOf, MakeDay, MonthLength, DaysBefore, DaysInYear, DayFromYear, ShortYear, DateOfFields;
    var year := ResolveYear(f.year, nowYear, cutoff);
    if f.doy > -1 {
      DayOfYearAccepted(f, nowYear, cutoff);
      DayFromYearStep(year);
      if 1 <= f.doy <= DaysInYear(year) {
        YearUnique(DayFromYear(year) + f.doy - 1, year);
      }
    } else {
      MonthAndDayAccepted(f, nowYear, cutoff);
      var c := Civil(year, f.month - 1, f.day);
      if IsCivil(c) {
        CivilOfMakeDay(c);
      }
      MakeDayOfCivil(n);
    }
  }

  // ---------- two-digit years ----------

  /** The cutoff as far as it matters for two digits. */
  function Clamp(cutoff: int): int {
    if cutoff < -1 then -1 else if cutoff > 99 then 99 else cutoff
  }

  /** The hundred years that two digits can mean: they end at the century of "now" plus the cutoff. */
  predicate InWindow(year: int, nowYear: int, cutoff: int) {
    nowYear - nowYear % 100 + Clamp(cutoff) - 100 < year <= nowYear - nowYear % 100 + Clamp(cutoff)
  }

  /** Two digits decode to the one year of the window that ends in them. */
  lemma TwoDigitYears(digits: int, year: int, nowYear: int, cutoff: int)
    requires 0 <= digits <= 99 && 0 <= nowYear
    ensures ResolveYear(digits, nowYear, cutoff) == year
       <==> InWindow(year, nowYear, cutoff) && year % 100 == digits
  {
    var century := nowYear - nowYear % 100;
    var q := nowYear / 100;
    assert century == 100 * q;
    var r := ResolveYear(digits, nowYear, cutoff);
    if digits <= cutoff {
      DivUnique(r, 100, q, digits);
    } else {
      DivUnique(r, 100, q - 1, digits);
    }
    if InWindow(year, nowYear, cutoff) && year % 100 == digits {
      HundredApart(r, year);
    }
  }

  /** A number as the setting is used as it is unless it is 0. */
  lemma NumericCutoffUsed(c: int, nowYear: int)
    requires 0 <= nowYear
    ensures ResolveCutoff(Some(Absolute(c)), nowYear) == c <==> c != 0
  {
  }

  /** All pairs of digits decode to the years that end in them, of the hundred that the cutoff asks for. */
  predicate DecodesInto(nowYear: int, used: int, cutoff: int) {
    forall digits :: 0 <= digits <= 99 ==>
      var y := ResolveYear(digits, nowYear, used); InWindow(y, nowYear, cutoff) && y % 100 == digits
  }

  /**
   So the setting c gives the hundred years that end at this century plus c, or plus -1 or 99 if it lies below
   or above these, iff c is not 0.
   */
  lemma NumericCutoffDecodes(c: int, nowYear: int)
    requires 0 <= nowYear
    ensures DecodesInto(nowYear, ResolveCutoff(Some(Absolute(c)), nowYear), c) <==> c != 0
  {
    hide InWindow, ResolveYear;
    NumericCutoffUsed(c, nowYear);
    var used := ResolveCutoff(Some(Absolute(c)), nowYear);
    if c != 0 {
      forall digits | 0 <= digits <= 99
        ensures (var y := ResolveYear(digits, nowYear, used); InWindow(y, nowYear, c) && y % 100 == digits)
      {
        TwoDigitYears(digits, ResolveYear(digits, nowYear, used), nowYear, c);
      }
    } else {
      FirstYearMissed(nowYear, used);
    }
  }

  /** Under any cutoff from 1 on, 01 means this century; under 0 it ought to mean the last. */
  lemma FirstYearMissed(nowYear: int, used: int)
    requires 0 <= nowYear && 1 <= used
    ensures !InWindow(ResolveYear(1, nowYear, used), nowYear, 0)
  {
  }

  /**
   Without a setting ("+10"), two digits decode to the one year that ends in them of the hundred years up to ten
   years from now, or up to the end of this century if that is nearer.
   */
  lemma DefaultDecodes(digits: int, year: int, nowYear: int)
    requires 0 <= digits <= 99 && 0 <= nowYear
    ensures (var endOfCentury := nowYear - nowYear % 100 + 99;
             var last := if nowYear + 10 < endOfCentury then nowYear + 10 else endOfCentury;
             ResolveYear(digits, nowYear, ResolveCutoff(None, nowYear)) == year
             <==> year % 100 == digits && last - 100 < year <= last)
  {
    TwoDigitYears(digits, year, nowYear, nowYear % 100 + 10);
  }

  /**
   With an offset, they decode into the hundred years up to that many from now, or up to the end of this century or of
   the last if it points beyond these.
   */
  lemma OffsetDecodes(digits: int, year: int, nowYear: int, n: int)
    requires 0 <= digits <= 99 && 0 <= nowYear
    ensures (var century := nowYear - nowYear % 100;
             var last := if nowYear + n < century - 1 then century - 1
                         else if nowYear + n < century + 99 then nowYear + n else century + 99;
             ResolveYear(digits, nowYear, ResolveCutoff(Some(Offset(n)), nowYear)) == year
             <==> year % 100 == digits && last - 100 < year <= last)
  {
    TwoDigitYears(digits, year, nowYear, nowYear % 100 + n);
  }

  /** A year that is not given is this year; one of three digits and more is taken as it is. */
  lemma OtherYears(year: int, nowYear: int, cutoff: int)
    ensures ResolveYear(-1, nowYear, cutoff) == nowYear
    ensures 100 <= year ==> ResolveYear(year, nowYear, cutoff) == year
  {
  }

  /** In 2015 the setting 0 reads 05 as 2005, where the window that it asks for holds 1905. */
  lemma CutoffZeroIn2015()
    ensures ResolveYear(5, 2015, ResolveCutoff(Some(Absolute(0)), 2015)) == 2005
    ensures !InWindow(2005, 2015, 0) && InWindow(1905, 2015, 0) && ResolveYear(5, 2015, 0) == 1905
  {
  }

  /** Numbers that agree in two digits and are less than a hundred apart are equal. */
  lemma HundredApart(a: int, b: int)
    requires a % 100 == b % 100 && -100 < a - b < 100
    ensures a == b
  {
  }

  lemma ShortYearNumberIs(n: int)
    ensures 0 <= ShortYearNumber(n) ==> ShortYearNumber(n) == YearOf(n) % 100
    ensures 0 <= ShortYearNumber(n) <==> 1900 <= YearOf(n) || YearOf(n) % 100 == 0
    ensures ShortYearNumber(n) <= 99
  {
    hide YearOf;
    var y := YearOf(n);
    if 1900 <= y {
      DivUnique(y - 1900, 100, y / 100 - 19, y % 100);
    } else if y % 100 == 0 {
      DivUnique(1900 - y, 100, 19 - y / 100, 0);
    } else {
      DivUnique(1900 - y, 100, 18 - y / 100, 100 - y % 100);
    }
  }

  /** A year printed with two digits, and no sign, decodes to itself iff it is in the window. */
  lemma TwoDigitRoundTrip(n: int, nowYear: int, cutoff: int)
    requires 0 <= nowYear
    ensures 0 <= ShortYearNumber(n) ==>
              (ResolveYear(ShortYearNumber(n), nowYear, cutoff) == YearOf(n) <==> InWindow(YearOf(n), nowYear, cutoff))
  {
    hide YearOf, ResolveYear, InWindow, ShortYearNumber;
    ShortYearNumberIs(n);
    if 0 <= ShortYearNumber(n) {
      TwoDigitYears(ShortYearNumber(n), YearOf(n), nowYear, cutoff);
    }
  }
}
