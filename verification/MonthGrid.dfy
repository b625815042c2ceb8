/**
 Month lengths by overflow, and the table of days that the date picker draws for a month.
 */
module MonthGrid {
  import opened Calendar
  import opened Division

  /** `_getDaysInMonth`: how far day 32 runs over the end of the month. */
  function GetDaysInMonth(year: int, month: int): int {
    32 - DayOf(NewDate(year, month, 32))
  }

  /** `_getFirstDayOfMonth`. */
  function GetFirstDayOfMonth(year: int, month: int): int {
    WeekDay(NewDate(year, month, 1))
  }

  /** The length of the month that (year, month) means when the month may be out of range. */
  function TrueLength(year: int, month: int): (l: int)
    ensures 28 <= l <= 31
  {
    MonthLength(year + month / 12, month % 12)
  }

  /** Consecutive months follow each other without gap or overlap, over year ends too. */
  lemma MonthStartStep(y: int, m: int)
    ensures MakeDay(y, m + 1, 1) == MakeDay(y, m, 1) + TrueLength(y, m)
  {
    hide DayFromYear, DaysBefore, IsLeap, YearOf, MonthOf, DayOf, MonthLength, DaysInYear, YearFrom;
    QuotientStep(m, 12);
    DaysBeforeStep(y + m / 12, m % 12);
    DayFromYearStep(y + m / 12);
    DaysBeforeMonotone(y + m / 12, 0, 12);
    DaysBeforeMonotone(y + m / 12 + 1, 0, 12);
  }

  lemma CivilOfMonthDay(y: int, m: int, d: int)
    requires 1 <= d <= TrueLength(y, m)
    ensures CivilOf(MakeDay(y, m, d)) == Civil(y + m / 12, m % 12, d)
  {
    hide DayFromYear, DaysBefore, IsLeap, YearOf, MonthOf, DayOf, MonthLength, DaysInYear, YearFrom;
    CivilOfMakeDay(Civil(y + m / 12, m % 12, d));
  }

  lemma DayFromCivil(n: int, y: int, m: int)
    requires YearOf(n) == y + m / 12 && MonthOf(n) == m % 12
    ensures n == MakeDay(y, m, DayOf(n)) && 1 <= DayOf(n) <= TrueLength(y, m)
  {
  }

  lemma OverflowLength(y: int, m: int)
    ensures 32 - DayOf(MakeDay(y, m, 32)) == TrueLength(y, m)
  {
    hide DayFromYear, DaysBefore, IsLeap, YearOf, MonthOf, DayOf, MonthLength, DaysInYear, YearFrom, MakeDay;
    var len := TrueLength(y, m);
    MonthStartStep(y, m);
    MakeDayShift(y, m, 1, 32);
    MakeDayShift(y, m + 1, 1, 32 - len);
    CivilOfMonthDay(y, m + 1, 32 - len);
  }

  /**
   `_getDaysInMonth` gives the true length for every year and every month, in range or not, except
   exactly where a short year is read as one of the 1900s and the two Februaries differ.
   */
  lemma DaysInMonthExact(year: int, month: int)
    ensures GetDaysInMonth(year, month) == TrueLength(year, month)
       <==> !(ShortYear(year) && month % 12 == 1
              && IsLeap(year + month / 12) != IsLeap(1900 + year + month / 12))
  {
    hide DayFromYear, DaysBefore, YearOf, MonthOf, DayOf, DaysInYear, YearFrom, IsLeap, MakeDay;
    OverflowLength(ConstructorYear(year), month);
  }

  /** For in-range months only February of the year 0 is wrong. */
  lemma DaysInMonthInRange(year: int, month: int)
    requires 0 <= month < 12
    ensures GetDaysInMonth(year, month) == MonthLength(year, month) <==> !(year == 0 && month == 1)
  {
    hide DayFromYear, DaysBefore, YearOf, MonthOf, DayOf, DaysInYear, YearFrom, GetDaysInMonth, IsLeap, MonthLength;
    DaysInMonthExact(year, month);
    assert month / 12 == 0 && month % 12 == month;
    if ShortYear(year) {
      LeapOfCenturies(year);
    }
  }

  /** Nineteen centuries apart, only the years 0 and 1900 differ. */
  lemma LeapOfCenturies(y: int)
    requires ShortYear(y)
    ensures IsLeap(y) == IsLeap(1900 + y) <==> y != 0
  {
    assert y == 0 || (y % 100 == y && (1900 + y) % 100 == y);
    DivUnique(1900 + y, 4, 475 + y / 4, y % 4);
  }

  /** It is given the length of February 1900. */
  lemma FebruaryOfYearZero()
    ensures GetDaysInMonth(0, 1) == 28 && MonthLength(0, 1) == 29
  {
    hide DayFromYear, DaysBefore, YearOf, MonthOf, DayOf, DaysInYear, YearFrom, MakeDay;
    OverflowLength(1900, 1);
  }

  // ---------- the table of days ----------

  /** The empty cells before day 1. */
  function LeadDays(year: int, month: int, firstDay: int): (l: int)
    requires 0 <= firstDay < 7
    ensures 0 <= l < 7
  {
    (GetFirstDayOfMonth(year, month) - firstDay + 7) % 7
  }

  /** Rows needed for the month: the quotient rounded up. */
  function RowsNeeded(year: int, month: int, firstDay: int): int
    requires 0 <= firstDay < 7
  {
    (LeadDays(year, month, firstDay) + GetDaysInMonth(year, month) + 6) / 7
  }

  /** The day shown in row r and column c. */
  function Cell(year: int, month: int, firstDay: int, r: int, c: int): int
    requires 0 <= firstDay < 7
  {
    NewDate(year, month, 1 - LeadDays(year, month, firstDay)) + 7 * r + c
  }

  ghost predicate IsTable(weeks: seq<seq<int>>, year: int, month: int, firstDay: int)
    requires 0 <= firstDay < 7
  {
    forall r :: 0 <= r < |weeks| ==>
      |weeks[r]| == 7 && forall c :: 0 <= c < 7 ==> weeks[r][c] == Cell(year, month, firstDay, r, c)
  }

  /** The row and cell loops for one month; `maxRows` pads a table to the rows already used beside it. */
  method DrawMonth(drawYear: int, drawMonth: int, firstDay: int, isMultiMonth: bool, maxRows: int)
    returns (weeks: seq<seq<int>>)
    requires 0 <= firstDay < 7
    ensures |weeks| == if isMultiMonth && maxRows > RowsNeeded(drawYear, drawMonth, firstDay) then maxRows
                       else RowsNeeded(drawYear, drawMonth, firstDay)
    ensures IsTable(weeks, drawYear, drawMonth, firstDay)
  {
    hide DayFromYear, DaysBefore, IsLeap, YearOf, MonthOf, DayOf, MonthLength, DaysInYear, YearFrom, MakeDay, SetDate;
    hide NewDate, GetFirstDayOfMonth;
    var daysInMonth := GetDaysInMonth(drawYear, drawMonth);
    var leadDays := LeadDays(drawYear, drawMonth, firstDay);
    var curRows := (leadDays + daysInMonth + 6) / 7;
    var numRows := if isMultiMonth then (if maxRows > curRows then maxRows else curRows) else curRows;
    var printDate := NewDate(drawYear, drawMonth, 1 - leadDays);
    weeks := [];
    OverflowLength(ConstructorYear(drawYear), drawMonth);
    for dRow := 0 to numRows
      invariant |weeks| == dRow
      invariant IsTable(weeks, drawYear, drawMonth, firstDay)
      invariant printDate == Cell(drawYear, drawMonth, firstDay, dRow, 0)
    {
      var week: seq<int> := [];
      for dow := 0 to 7
        invariant |week| == dow
        invariant forall c :: 0 <= c < dow ==> week[c] == Cell(drawYear, drawMonth, firstDay, dRow, c)
        invariant printDate == Cell(drawYear, drawMonth, firstDay, dRow, dow)
      {
        week := week + [printDate];
        SetDateExact(printDate, DayOf(printDate) + 1);
        printDate := SetDate(printDate, DayOf(printDate) + 1);
      }
      weeks := weeks + [week];
    }
  }

  function Max(a: int, b: int): int {
    if a > b then a else b
  }

  /** The most rows that any of the months up to the k-th of a row of months needs, and at least 4. */
  function RowsSoFar(year: int, month: int, firstDay: int, k: nat): int
    requires 0 <= firstDay < 7
  {
    if k == 0 then 4
    else Max(RowsSoFar(year, month, firstDay, k - 1),
             RowsNeeded(year + (month + k - 1) / 12, (month + k - 1) % 12, firstDay))
  }

  /** So every month up to there fits, and one of them, or the four rows to begin with, takes that many. */
  lemma {:induction false} RowsSoFarSuffice(year: int, month: int, firstDay: int, k: nat)
    requires 0 <= firstDay < 7
    ensures 4 <= RowsSoFar(year, month, firstDay, k)
    ensures forall y, m :: 0 <= m < 12 && 0 <= 12 * (y - year) + m - month < k ==>
              RowsNeeded(y, m, firstDay) <= RowsSoFar(year, month, firstDay, k)
    ensures RowsSoFar(year, month, firstDay, k) != 4 ==>
              exists y, m :: && 0 <= m < 12 && 0 <= 12 * (y - year) + m - month < k
                             && RowsNeeded(y, m, firstDay) == RowsSoFar(year, month, firstDay, k)
  {
    hide RowsNeeded;
    if k > 0 {
      RowsSoFarSuffice(year, month, firstDay, k - 1);
      var last := month + k - 1;
      forall y, m | 0 <= m < 12 && 12 * (y - year) + m == last
        ensures RowsNeeded(y, m, firstDay) == RowsNeeded(year + last / 12, last % 12, firstDay)
      {
        DivUnique(last, 12, y - year, m);
      }
    }
  }

  /**
   One row of months: the k-th table is the k-th following month, and has as many rows as the
   longest month so far in this row.
   */
  method DrawMonthRow(drawYear: int, drawMonth: int, firstDay: int, months: nat)
    returns (tables: seq<seq<seq<int>>>, nextYear: int, nextMonth: int)
    requires 0 <= firstDay < 7 && 0 <= drawMonth < 12
    ensures |tables| == months
    ensures forall k :: 0 <= k < months ==>
              && |tables[k]| == RowsSoFar(drawYear, drawMonth, firstDay, k + 1)
              && IsTable(tables[k], drawYear + (drawMonth + k) / 12, (drawMonth + k) % 12, firstDay)
    ensures 0 <= nextMonth < 12 && 12 * nextYear + nextMonth == 12 * drawYear + drawMonth + months
  {
    hide DayFromYear, DaysBefore, IsLeap, YearOf, MonthOf, DayOf, MonthLength, DaysInYear, YearFrom, MakeDay, NewDate;
    hide LeadDays, IsTable, GetDaysInMonth, RowsNeeded;
    tables, nextYear, nextMonth := [], drawYear, drawMonth;
    var maxRows := 4;
    for col := 0 to months
      invariant |tables| == col
      invariant maxRows == RowsSoFar(drawYear, drawMonth, firstDay, col)
      invariant 0 <= nextMonth < 12 && 12 * nextYear + nextMonth == 12 * drawYear + drawMonth + col
      invariant nextYear == drawYear + (drawMonth + col) / 12 && nextMonth == (drawMonth + col) % 12
      invariant forall k :: 0 <= k < col ==>
              && |tables[k]| == RowsSoFar(drawYear, drawMonth, firstDay, k + 1)
              && IsTable(tables[k], drawYear + (drawMonth + k) / 12, (drawMonth + k) % 12, firstDay)
    {
      var weeks := DrawMonth(nextYear, nextMonth, firstDay, true, maxRows);
      tables := tables + [weeks];
      maxRows := |weeks|;
      QuotientStep(drawMonth + col, 12);
      nextMonth := nextMonth + 1;
      if nextMonth > 11 {
        nextMonth := 0;
        nextYear := nextYear + 1;
      }
    }
  }

  // ---------- what the table shows ----------

  /** Read row by row, the table shows consecutive days; the first week shows the first of the month. */
  lemma ConsecutiveCells(weeks: seq<seq<int>>, year: int, month: int, firstDay: int, r: int, c: int)
    requires 0 <= firstDay < 7 && IsTable(weeks, year, month, firstDay) && 0 <= r < |weeks| && 0 <= c < 7
    ensures |weeks[r]| == 7
    ensures c < 6 ==> weeks[r][c + 1] == weeks[r][c] + 1
    ensures r + 1 < |weeks| ==> |weeks[r + 1]| == 7 && weeks[r + 1][0] == weeks[r][6] + 1
    ensures weeks[0][0] <= NewDate(year, month, 1) < weeks[0][0] + 7
  {
    hide DayFromYear, DaysBefore, IsLeap, YearOf, MonthOf, DayOf, MonthLength, DaysInYear, YearFrom, MakeDay;
    MakeDayShift(ConstructorYear(year), month, 1, 1 - LeadDays(year, month, firstDay));
  }

  lemma WeekArithmetic(first: int, firstDay: int, lead: int, r: int, c: int)
    requires 0 <= firstDay < 7 && 0 <= c < 7 && lead == ((first + 4) % 7 - firstDay + 7) % 7
    ensures (first - lead + 7 * r + c + 4) % 7 == (c + firstDay) % 7
  {
    var k, s := first + 4, c + firstDay;
    var a := k % 7 - firstDay + 7;
    DivUnique(first - lead + 7 * r + c + 4, 7, k / 7 - 1 + a / 7 + r + s / 7, s % 7);
  }

  /** Column c holds one weekday in every row. */
  lemma ColumnWeekday(year: int, month: int, firstDay: int, r: int, c: int)
    requires 0 <= firstDay < 7 && 0 <= c < 7
    ensures WeekDay(Cell(year, month, firstDay, r, c)) == (c + firstDay) % 7
  {
    hide DayFromYear, DaysBefore, IsLeap, YearOf, MonthOf, DayOf, MonthLength, DaysInYear, YearFrom, MakeDay;
    var first := NewDate(year, month, 1);
    var lead := LeadDays(year, month, firstDay);
    MakeDayShift(ConstructorYear(year), month, 1, 1 - lead);
    WeekArithmetic(first, firstDay, lead, r, c);
  }

  /** The month that is drawn: a short year is drawn as one of the 1900s throughout. */
  predicate InDrawnMonth(n: int, year: int, month: int) {
    YearOf(n) == ConstructorYear(year) + month / 12 && MonthOf(n) == month % 12
  }

  /** A day lies in a month iff it lies between the month's first day and the next month's. */
  lemma InMonthIsInterval(n: int, year: int, month: int)
    ensures InDrawnMonth(n, year, month)
       <==> NewDate(year, month, 1) <= n < NewDate(year, month, 1) + GetDaysInMonth(year, month)
  {
    hide DayFromYear, DaysBefore, IsLeap, YearOf, MonthOf, DayOf, MonthLength, DaysInYear, YearFrom, MakeDay;
    hide TrueLength;
    var y := ConstructorYear(year);
    OverflowLength(y, month);
    if NewDate(year, month, 1) <= n < NewDate(year, month, 1) + GetDaysInMonth(year, month) {
      CivilOfMonthDay(y, month, n - MakeDay(y, month, 1) + 1);
      MakeDayShift(y, month, 1, n - MakeDay(y, month, 1) + 1);
    }
    if InDrawnMonth(n, year, month) {
      DayFromCivil(n, y, month);
      MakeDayShift(y, month, 1, DayOf(n));
    }
  }

  /** Row and column of the cell that shows day n of the month. */
  function PlaceOf(n: int, year: int, month: int, firstDay: int): (int, int)
    requires 0 <= firstDay < 7
  {
    var k := n - Cell(year, month, firstDay, 0, 0);
    (k / 7, k % 7)
  }

  /** Every day of the month is in exactly one cell of the table. */
  lemma EachDayOnce(n: int, year: int, month: int, firstDay: int, r: int, c: int)
    requires 0 <= firstDay < 7 && InDrawnMonth(n, year, month)
    ensures 0 <= PlaceOf(n, year, month, firstDay).0 < RowsNeeded(year, month, firstDay)
    ensures 0 <= c < 7 ==>
              (Cell(year, month, firstDay, r, c) == n <==> (r, c) == PlaceOf(n, year, month, firstDay))
  {
    hide DayFromYear, DaysBefore, IsLeap, YearOf, MonthOf, DayOf, MonthLength, DaysInYear, YearFrom, MakeDay;
    hide LeadDays, GetDaysInMonth, InDrawnMonth;
    InMonthIsInterval(n, year, month);
    var k := n - Cell(year, month, firstDay, 0, 0);
    MakeDayShift(ConstructorYear(year), month, 1, 1 - LeadDays(year, month, firstDay));
    assert 7 * (k / 7) + k % 7 == k;
    if 0 <= c < 7 && Cell(year, month, firstDay, r, c) == n {
      DivUnique(k, 7, r, c);
    }
  }

  /** A single month takes 4 to 6 rows, and each of them shows at least one of its days. */
  lemma RowsAreUseful(year: int, month: int, firstDay: int, r: int)
    requires 0 <= firstDay < 7 && 0 <= r < RowsNeeded(year, month, firstDay)
    ensures 4 <= RowsNeeded(year, month, firstDay) <= 6
    ensures exists c :: 0 <= c < 7 && InDrawnMonth(Cell(year, month, firstDay, r, c), year, month)
  {
    hide DayFromYear, DaysBefore, IsLeap, YearOf, MonthOf, DayOf, MonthLength, DaysInYear, YearFrom, MakeDay;
    hide LeadDays, InDrawnMonth;
    OverflowLength(ConstructorYear(year), month);
    var c := if r == 0 then LeadDays(year, month, firstDay) else 0;
    MakeDayShift(ConstructorYear(year), month, 1, 1 - LeadDays(year, month, firstDay));
    InMonthIsInterval(Cell(year, month, firstDay, r, c), year, month);
  }

  /** The flag `otherMonth` marks exactly the cells outside the month, in any table of up to 6 rows. */
  lemma OtherMonthFlag(year: int, month: int, firstDay: int, r: int, c: int)
    requires 0 <= firstDay < 7 && 0 <= month < 12 && 0 <= r < 6 && 0 <= c < 7
    ensures MonthOf(Cell(year, month, firstDay, r, c)) != month
       <==> !InDrawnMonth(Cell(year, month, firstDay, r, c), year, month)
  {
    hide DayFromYear, DaysBefore, IsLeap, YearOf, MonthOf, DayOf, MonthLength, DaysInYear, YearFrom, LeadDays;
    var n := Cell(year, month, firstDay, r, c);
    var y := ConstructorYear(year);
    MakeDayShift(y, month, 1, 1 - LeadDays(year, month, firstDay));
    if MonthOf(n) == month && YearOf(n) != y {
      MakeDayOfCivil(n);
      assert month / 12 == 0 && month % 12 == month;
      MakeDayShift(y, month, 1, DayOf(n));
      YearsApart(YearOf(n), y, month, DayOf(n));
    }
  }

  /** The same month and day of different years are at least 365 days apart. */
  lemma YearsApart(y1: int, y2: int, m: int, d: int)
    requires y1 != y2 && 0 <= m < 12
    ensures MakeDay(y1, m, d) <= MakeDay(y2, m, d) - 365 || MakeDay(y2, m, d) <= MakeDay(y1, m, d) - 365
  {
    hide DayFromYear, DaysBefore, IsLeap, YearOf, MonthOf, DayOf, MonthLength, DaysInYear, YearFrom;
    if y1 < y2 {
      MonthStartsApart(y1, y2, m);
    } else {
      MonthStartsApart(y2, y1, m);
    }
  }

  lemma MonthStartsApart(y1: int, y2: int, m: int)
    requires y1 < y2 && 0 <= m < 12
    ensures DayFromYear(y1) + DaysBefore(y1, m) + 365 <= DayFromYear(y2) + DaysBefore(y2, m)
  {
    hide DayFromYear, IsLeap, DaysBefore;
    DaysBeforeDiffer(y1, y2, m);
    DayFromYearStep(y1);
    DayFromYearMonotone(y1 + 1, y2);
  }
}
