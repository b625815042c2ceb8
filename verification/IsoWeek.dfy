/**
 The week of the year, against the definition of section 2.2.10 of ISO 8601:2004: weeks run from
 Monday to Sunday, and week 1 of a year is the one that holds the year's first Thursday.
 */
module IsoWeek {
  import opened Calendar
  import opened Division

  /** The Thursday that `iso8601Week` moves to. */
  function ThursdayOf(n: int): int {
    SetDate(n, DayOf(n) + 4 - (if WeekDay(n) == 0 then 7 else WeekDay(n)))
  }

  /** `iso8601Week`: whole weeks since 1 January of the Thursday's year, plus one. */
  function Iso8601Week(n: int): int {
    var thursday := ThursdayOf(n);
    var january := SetDate(SetMonth(thursday, 0), 1);
    (thursday - january) / 7 + 1
  }

  /** The Monday on or before day n. */
  function MondayOf(n: int): int {
    n - (n + 3) % 7
  }

  /** The first Thursday on or after day a. */
  function ThursdayFrom(a: int): (t: int)
    ensures t % 7 == 0 && WeekDay(t) == 4 && a <= t < a + 7
  {
    a + (7 - a % 7) % 7
  }

  /** The first Thursday of year y. */
  function FirstThursday(y: int): (t: int)
    ensures t % 7 == 0 && WeekDay(t) == 4 && DayFromYear(y) <= t < DayFromYear(y) + 7
  {
    ThursdayFrom(DayFromYear(y))
  }

  /** The Monday that opens week 1 of year y. */
  function WeekOne(y: int): int {
    MondayOf(FirstThursday(y))
  }

  lemma MondayFacts(n: int)
    ensures MondayOf(n) <= n <= MondayOf(n) + 6 && WeekDay(MondayOf(n)) == 1
    ensures MondayOf(n) % 7 == 4
  {
  }

  lemma WeekOneIsThreeBefore(y: int)
    ensures WeekOne(y) == FirstThursday(y) - 3
  {
  }

  lemma ThursdayIsMidweek(n: int)
    ensures ThursdayOf(n) == MondayOf(n) + 3
  {
    hide DayFromYear, DaysBefore, IsLeap, YearOf, MonthOf, DayOf, MonthLength, DaysInYear;
    SetDateExact(n, DayOf(n) + 4 - (if WeekDay(n) == 0 then 7 else WeekDay(n)));
    QuotientStep(n + 3, 7);
    assert (n + 4) % 7 == if (n + 3) % 7 == 6 then 0 else (n + 3) % 7 + 1;
  }

  lemma JanuaryIsLong(c: Civil)
    requires c.month == 0 && 1 <= c.day <= 31
    ensures IsCivil(c)
  {
  }

  lemma JanuaryFirst(n: int)
    ensures SetDate(SetMonth(n, 0), 1) == DayFromYear(YearOf(n))
  {
    hide DayFromYear, IsLeap, YearOf, MonthOf, DayOf, DaysInYear, MonthLength;
    var c := Civil(YearOf(n), 0, DayOf(n));
    JanuaryIsLong(c);
    CivilOfMakeDay(c);
    DaysBeforeMonotone(YearOf(n), 0, 0);
  }

  /** The number computed, without the setters. */
  lemma WeekByThursday(n: int)
    ensures Iso8601Week(n) == (MondayOf(n) + 3 - DayFromYear(YearOf(MondayOf(n) + 3))) / 7 + 1
  {
    hide DayFromYear, DaysBefore, IsLeap, YearOf, MonthOf, DayOf, MonthLength, DaysInYear;
    ThursdayIsMidweek(n);
    JanuaryFirst(ThursdayOf(n));
  }

  /** Weeks of the ISO year y: from its week 1 up to the next year's week 1. */
  ghost predicate InIsoYear(n: int, y: int) {
    WeekOne(y) <= n < WeekOne(y + 1)
  }

  /** A day is in ISO year y iff the Thursday of its week is in calendar year y. */
  lemma IsoYearByThursday(n: int, y: int)
    ensures InIsoYear(n, y) <==> YearOf(MondayOf(n) + 3) == y
  {
    hide DayFromYear, DaysBefore, IsLeap, YearOf, MonthOf, DayOf, MonthLength, DaysInYear, MondayOf, FirstThursday;
    hide WeekOne, Iso8601Week;
    var m := MondayOf(n);
    MondayFacts(n);
    WeekOneIsThreeBefore(y);
    WeekOneIsThreeBefore(y + 1);
    WeekAligned(n, y);
    WeekAligned(n, y + 1);
    if DayFromYear(y) <= m + 3 < DayFromYear(y + 1) {
      YearUnique(m + 3, y);
    }
  }

  /** Week 1 has begun by day n iff the Thursday of n's week is not before 1 January. */
  lemma WeekAligned(n: int, y: int)
    ensures WeekOne(y) <= n <==> DayFromYear(y) <= MondayOf(n) + 3
    ensures (MondayOf(n) - WeekOne(y)) % 7 == 0
  {
    hide DayFromYear, DaysBefore, IsLeap, YearOf, MonthOf, DayOf, MonthLength, DaysInYear, MondayOf, FirstThursday;
    hide WeekOne, Iso8601Week;
    var m, t := MondayOf(n), FirstThursday(y);
    MondayFacts(n);
    WeekOneIsThreeBefore(y);
    assert t % 7 == 0;
    assert m % 7 == 4;
    DivUnique(m - (t - 3), 7, m / 7 - (t / 7 - 1), 0);
    if WeekOne(y) <= n {
      StepsOfSeven(m, t - 3);
    }
    if DayFromYear(y) <= m + 3 {
      StepsOfSeven(m + 3, t);
    }
  }

  /** Two numbers that differ by a multiple of seven and by less than seven are in order. */
  lemma StepsOfSeven(a: int, b: int)
    requires (a - b) % 7 == 0 && b - 7 < a
    ensures b <= a
  {
  }

  /**
   Every day has an ISO year, and `iso8601Week` numbers the weeks of that year 1, 2, 3, ...
   in step with its Mondays.
   */
  lemma WeekNumbersIsoYear(n: int)
    ensures exists y :: InIsoYear(n, y)
    ensures forall y :: InIsoYear(n, y) ==>
              && Iso8601Week(n) == (n - WeekOne(y)) / 7 + 1
              && MondayOf(n) == WeekOne(y) + 7 * (Iso8601Week(n) - 1)
  {
    hide DayFromYear, DaysBefore, IsLeap, YearOf, MonthOf, DayOf, MonthLength, DaysInYear, MondayOf, FirstThursday;
    hide WeekOne, Iso8601Week, InIsoYear;
    var y := YearOf(MondayOf(n) + 3);
    forall y' ensures InIsoYear(n, y') <==> y' == y {
      IsoYearByThursday(n, y');
    }
    WeekInYear(n, y);
    assert InIsoYear(n, y);
  }

  lemma WeekInYear(n: int, y: int)
    requires y == YearOf(MondayOf(n) + 3)
    ensures Iso8601Week(n) == (n - WeekOne(y)) / 7 + 1
    ensures MondayOf(n) == WeekOne(y) + 7 * (Iso8601Week(n) - 1)
  {
    hide DayFromYear, DaysBefore, IsLeap, YearOf, MonthOf, DayOf, MonthLength, DaysInYear, MondayOf, FirstThursday;
    hide WeekOne, Iso8601Week;
    var m, w := MondayOf(n), WeekOne(y);
    WeekByThursday(n);
    WeekAligned(n, y);
    WeekOneIsThreeBefore(y);
    MondayFacts(n);
    var q := (m - w) / 7;
    assert m - w == 7 * q;
    DivUnique(n - w, 7, q, n - m);
    DivUnique(m + 3 - DayFromYear(y), 7, q, FirstThursday(y) - DayFromYear(y));
  }

  /** An ISO year has 53 weeks iff 1 January, or in a leap year 2 January, is a Thursday; else 52. */
  lemma WeeksInIsoYear(y: int)
    ensures WeekOne(y + 1) - WeekOne(y)
         == if FirstThursday(y) == DayFromYear(y) || (IsLeap(y) && FirstThursday(y) == DayFromYear(y) + 1)
            then 7 * 53 else 7 * 52
  {
    hide DayFromYear, DaysBefore, YearOf, MonthOf, DayOf, ThursdayFrom, MondayOf;
    WeekOneIsThreeBefore(y);
    WeekOneIsThreeBefore(y + 1);
    DayFromYearStep(y);
    FirstThursdayDistance(DayFromYear(y), DaysInYear(y));
  }

  lemma FirstThursdayDistance(a: int, len: int)
    requires 365 <= len <= 366
    ensures ThursdayFrom(a + len) - ThursdayFrom(a)
         == if ThursdayFrom(a) == a || (len == 366 && ThursdayFrom(a) == a + 1) then 7 * 53 else 7 * 52
  {
    hide WeekDay;
    var q, r := a / 7, a % 7;
    if r + len - 364 < 7 {
      DivUnique(a + len, 7, q + 52, r + len - 364);
    } else {
      DivUnique(a + len, 7, q + 53, r + len - 371);
    }
  }

  /** Week numbers lie in 1..53. */
  lemma WeekRange(n: int)
    ensures 1 <= Iso8601Week(n) <= 53
  {
    hide DayFromYear, DaysBefore, IsLeap, YearOf, MonthOf, DayOf, MonthLength, DaysInYear, MondayOf, FirstThursday;
    hide WeekOne, Iso8601Week;
    var y := YearOf(MondayOf(n) + 3);
    IsoYearByThursday(n, y);
    WeekInYear(n, y);
    WeeksInIsoYear(y);
    MondayFacts(n);
  }

  /** The number is constant from Monday to Sunday. */
  lemma WeekConstant(n: int, k: int)
    requires MondayOf(n) <= k <= MondayOf(n) + 6
    ensures Iso8601Week(k) == Iso8601Week(n)
  {
    hide DayFromYear, DaysBefore, IsLeap, YearOf, MonthOf, DayOf, MonthLength, DaysInYear, MondayOf, FirstThursday;
    hide WeekOne, Iso8601Week;
    MondayFacts(n);
    SameMonday(n, k);
    WeekByThursday(n);
    WeekByThursday(k);
  }

  lemma SameMonday(n: int, k: int)
    requires MondayOf(n) <= k <= MondayOf(n) + 6
    ensures MondayOf(k) == MondayOf(n)
  {
  }

  /** It is 1 exactly in a week that holds the first Thursday of some year. */
  lemma WeekOneHoldsFirstThursday(n: int)
    ensures Iso8601Week(n) == 1 <==> exists y :: FirstThursday(y) == MondayOf(n) + 3
  {
    hide DayFromYear, DaysBefore, IsLeap, YearOf, MonthOf, DayOf, MonthLength, DaysInYear, MondayOf, FirstThursday;
    hide WeekOne, Iso8601Week;
    var y := YearOf(MondayOf(n) + 3);
    WeekInYear(n, y);
    WeekOneIsThreeBefore(y);
    if z :| FirstThursday(z) == MondayOf(n) + 3 {
      DayFromYearMonotone(z, z + 1);
      YearUnique(MondayOf(n) + 3, z);
    }
  }

  /** From one week to the next the number goes up by one, or back to 1 after week 52 or 53. */
  lemma NextWeek(n: int)
    ensures Iso8601Week(n + 7) == Iso8601Week(n) + 1 || (Iso8601Week(n + 7) == 1 && 52 <= Iso8601Week(n))
  {
    hide DayFromYear, DaysBefore, IsLeap, YearOf, MonthOf, DayOf, MonthLength, DaysInYear, MondayOf, FirstThursday;
    hide WeekOne, Iso8601Week;
    var y := YearOf(MondayOf(n) + 3);
    MondayFacts(n);
    NextMonday(n);
    IsoYearByThursday(n, y);
    IsoYearByThursday(n + 7, y);
    IsoYearByThursday(n + 7, y + 1);
    WeekInYear(n, y);
    WeeksInIsoYear(y);
    WeeksInIsoYear(y + 1);
    WeekAligned(n, y + 1);
    if InIsoYear(n + 7, y) {
      WeekInYear(n + 7, y);
    } else {
      WeekInYear(n + 7, y + 1);
    }
  }

  lemma NextMonday(n: int)
    ensures MondayOf(n + 7) == MondayOf(n) + 7
  {
  }
}
