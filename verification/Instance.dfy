/**
 Moving the date of a date picker: by days, months or years, kept inside optional bounds.
 */
module Instance {
  import opened Calendar
  import opened MonthGrid
  import opened Wrappers

  datatype Period = Days | Months | Years | Unspecified

  /** The optional bounds `minDate` and `maxDate`, as day numbers. */
  datatype Bounds = Bounds(min: Option<int>, max: Option<int>)

  /** `_restrictMinMax`: the upper bound has the last word. */
  function RestrictMinMax(b: Bounds, n: int): int {
    var newDate := if b.min.Some? && n < b.min.value then b.min.value else n;
    if b.max.Some? && newDate > b.max.value then b.max.value else newDate
  }

  predicate Within(b: Bounds, n: int) {
    (b.min.Some? ==> b.min.value <= n) && (b.max.Some? ==> n <= b.max.value)
  }

  /** Some day lies within the bounds. */
  predicate Satisfiable(b: Bounds) {
    b.min.Some? && b.max.Some? ==> b.min.value <= b.max.value
  }

  /** The result is the nearest day within the bounds, whenever there is one; else it is the maximum. */
  lemma RestrictIsNearest(b: Bounds, n: int)
    ensures Within(b, RestrictMinMax(b, n)) <==> Satisfiable(b)
    ensures Within(b, n) ==> RestrictMinMax(b, n) == n
    ensures RestrictMinMax(b, RestrictMinMax(b, n)) == RestrictMinMax(b, n)
    ensures forall k :: Within(b, k) ==>
              (n <= RestrictMinMax(b, n) <= k) || (k <= RestrictMinMax(b, n) <= n)
    ensures !Satisfiable(b) ==> RestrictMinMax(b, n) == b.max.value
  {
  }

  function Min(a: int, b: int): int {
    if a < b then a else b
  }

  /** The day that `_adjustInstDate` asks for before the bounds apply. */
  function RequestedDay(drawYear: int, drawMonth: int, selectedDay: int, offset: int, period: Period): int {
    var year := drawYear + (if period == Years then offset else 0);
    var month := drawMonth + (if period == Months then offset else 0);
    NewDate(year, month,
            Min(selectedDay, GetDaysInMonth(year, month)) + (if period == Days then offset else 0))
  }

  /** The fields of an instance that hold its date. */
  class Inst {
    var selectedDay: int
    var selectedMonth: int
    var selectedYear: int
    var drawMonth: int
    var drawYear: int
    const bounds: Bounds

    /** The month drawn is the month selected, and the selection is a real date. */
    ghost predicate Consistent()
      reads this
    {
      && drawMonth == selectedMonth && drawYear == selectedYear
      && IsCivil(Civil(selectedYear, selectedMonth, selectedDay))
    }

    /** The selected date as a day number. */
    ghost function Selected(): int
      requires Consistent()
      reads this
    {
      MakeDay(selectedYear, selectedMonth, selectedDay)
    }

    constructor (b: Bounds)
      ensures bounds == b
    {
      bounds := b;
      selectedDay, selectedMonth, selectedYear, drawMonth, drawYear := 0, 0, 0, 0, 0;
    }

    /** `_adjustInstDate`. */
    method AdjustInstDate(offset: int, period: Period)
      modifies this
      ensures Consistent()
      ensures Selected() == RestrictMinMax(bounds,
                RequestedDay(old(drawYear), old(drawMonth), old(selectedDay), offset, period))
      ensures Within(bounds, Selected()) <==> Satisfiable(bounds)
    {
      hide YearOf, MonthOf, DayOf, NewDate, MonthLength, RestrictMinMax, DayFromYear, DaysBefore, MakeDay, Within;
      var year := drawYear + (if period == Years then offset else 0);
      var month := drawMonth + (if period == Months then offset else 0);
      var day := Min(selectedDay, GetDaysInMonth(year, month)) + (if period == Days then offset else 0);
      var date := RestrictMinMax(bounds, NewDate(year, month, day));
      selectedDay := DayOf(date);
      drawMonth, selectedMonth := MonthOf(date), MonthOf(date);
      drawYear, selectedYear := YearOf(date), YearOf(date);
      MakeDayOfCivil(date);
      RestrictIsNearest(bounds, NewDate(year, month, day));
    }

    /** `_setDate`: the date is brought within the bounds, then adjusted by nothing, which may move a short year. */
    method SetDate(date: int)
      modifies this
      ensures Consistent() && (Within(bounds, Selected()) <==> Satisfiable(bounds))
      ensures (var n := RestrictMinMax(bounds, date);
               Selected() == RestrictMinMax(bounds, RequestedDay(YearOf(n), MonthOf(n), DayOf(n), 0, Unspecified)))
      ensures !ShortYear(YearOf(RestrictMinMax(bounds, date)))
          ==> Selected() == RestrictMinMax(bounds, date)
    {
      hide YearOf, MonthOf, DayOf, NewDate, MonthLength, RestrictMinMax, DayFromYear, DaysBefore, RequestedDay;
      hide ShortYear;
      var newDate := RestrictMinMax(bounds, date);
      selectedDay := DayOf(newDate);
      drawMonth, selectedMonth := MonthOf(newDate), MonthOf(newDate);
      drawYear, selectedYear := YearOf(newDate), YearOf(newDate);
      RestrictIsNearest(bounds, date);
      UnspecifiedKeeps(newDate);
      AdjustInstDate(0, Unspecified);
    }
  }

  // ---------- what a step does ----------

  /** The month index, counting months through the years. */
  function MonthIndex(n: int): int {
    12 * YearOf(n) + MonthOf(n)
  }

  /** The request in closed form: a day of the month asked for, never past its end but for the day offset. */
  lemma RequestedDayIs(drawYear: int, drawMonth: int, selectedDay: int, offset: int, period: Period)
    ensures RequestedDay(drawYear, drawMonth, selectedDay, offset, period)
         == (var y := ConstructorYear(drawYear + (if period == Years then offset else 0));
             var m := drawMonth + (if period == Months then offset else 0);
             MakeDay(y, m, Min(selectedDay, TrueLength(y, m))) + (if period == Days then offset else 0))
  {
    hide DayFromYear, DaysBefore, IsLeap, YearOf, MonthOf, DayOf, MonthLength, DaysInYear, MakeDay, TrueLength;
    var year := drawYear + (if period == Years then offset else 0);
    var month := drawMonth + (if period == Months then offset else 0);
    var y := ConstructorYear(year);
    OverflowLength(y, month);
    MakeDayShift(y, month, Min(selectedDay, TrueLength(y, month)),
                 Min(selectedDay, TrueLength(y, month)) + (if period == Days then offset else 0));
  }

  /** Month index and day of a day within a month that may be out of range. */
  lemma MonthIndexOfMakeDay(y: int, m: int, d: int)
    requires 1 <= d <= TrueLength(y, m)
    ensures MonthIndex(MakeDay(y, m, d)) == 12 * y + m
    ensures DayOf(MakeDay(y, m, d)) == d
  {
    hide DayFromYear, DaysBefore, IsLeap, YearOf, MonthOf, DayOf, MonthLength, DaysInYear, MakeDay;
    CivilOfMonthDay(y, m, d);
    assert 12 * (m / 12) + m % 12 == m;
  }

  /**
   A month step moves the month index by exactly the offset iff the year drawn is not a short one;
   the day is kept as far as the month is long.
   */
  lemma MonthStep(y: int, m: int, d: int, offset: int)
    requires 1 <= d
    ensures MonthIndex(RequestedDay(y, m, d, offset, Months)) == 12 * y + m + offset <==> !ShortYear(y)
    ensures !ShortYear(y) ==>
              DayOf(RequestedDay(y, m, d, offset, Months)) == Min(d, TrueLength(y, m + offset))
  {
    hide DayFromYear, DaysBefore, IsLeap, YearOf, MonthOf, DayOf, MonthLength, DaysInYear, RequestedDay, MakeDay;
    hide NewDate, GetDaysInMonth, MonthIndex, TrueLength;
    RequestedDayIs(y, m, d, offset, Months);
    var c := ConstructorYear(y);
    MonthIndexOfMakeDay(c, m + offset, Min(d, TrueLength(c, m + offset)));
  }

  /** The same for a year step, where the year stepped to must not be a short one. */
  lemma YearStep(y: int, m: int, d: int, offset: int)
    requires 1 <= d
    ensures MonthIndex(RequestedDay(y, m, d, offset, Years)) == 12 * (y + offset) + m <==> !ShortYear(y + offset)
    ensures !ShortYear(y + offset) ==>
              DayOf(RequestedDay(y, m, d, offset, Years)) == Min(d, TrueLength(y + offset, m))
  {
    hide DayFromYear, DaysBefore, IsLeap, YearOf, MonthOf, DayOf, MonthLength, DaysInYear, RequestedDay, MakeDay;
    hide NewDate, GetDaysInMonth, MonthIndex, TrueLength;
    RequestedDayIs(y, m, d, offset, Years);
    var c := ConstructorYear(y + offset);
    MonthIndexOfMakeDay(c, m, Min(d, TrueLength(c, m)));
  }

  /** A day step from the selected day n moves by exactly the offset iff n's year is not a short one. */
  lemma DayStep(n: int, offset: int)
    ensures RequestedDay(YearOf(n), MonthOf(n), DayOf(n), offset, Days) == n + offset <==> !ShortYear(YearOf(n))
  {
    hide DayFromYear, DaysBefore, IsLeap, YearOf, MonthOf, DayOf, MonthLength, DaysInYear, RequestedDay, MakeDay;
    hide NewDate, GetDaysInMonth, TrueLength;
    var y, m := YearOf(n), MonthOf(n);
    RequestedDayIs(y, m, DayOf(n), offset, Days);
    MakeDayOfCivil(n);
    InRangeMonth(y, m);
    if ShortYear(y) {
      var d := Min(DayOf(n), TrueLength(1900 + y, m));
      YearFurther(y, 1900 + y, m, DayOf(n), d);
    }
  }

  lemma InRangeMonth(y: int, m: int)
    requires 0 <= m < 12
    ensures TrueLength(y, m) == MonthLength(y, m)
  {
  }

  /** 1900 years on is later, whatever the days of the month. */
  lemma YearFurther(y: int, z: int, m: int, d: int, e: int)
    requires y + 1 < z && 0 <= m < 12 && 1 <= d <= 31 && 1 <= e
    ensures MakeDay(y, m, d) < MakeDay(z, m, e)
  {
    hide DayFromYear, DaysBefore, IsLeap, YearOf, MonthOf, DayOf, MonthLength, DaysInYear;
    YearsApart(y, z, m, 1);
    MonthStartsApart(y, z, m);
    MakeDayShift(y, m, 1, d);
    MakeDayShift(z, m, 1, e);
  }

  /** Adjusting by nothing keeps exactly the dates whose year is not a short one. */
  lemma UnspecifiedKeeps(n: int)
    ensures RequestedDay(YearOf(n), MonthOf(n), DayOf(n), 0, Unspecified) == n <==> !ShortYear(YearOf(n))
  {
    hide YearOf, MonthOf, DayOf, NewDate, GetDaysInMonth;
    DayStep(n, 0);
  }

  /** Merely refreshing 1 January 50 moves the selection to 1 January 1950. */
  lemma YearFiftyIsLost()
    ensures RequestedDay(50, 0, 1, 0, Unspecified) == MakeDay(1950, 0, 1)
  {
  }

  // ---------- whole runs of paging ----------

  /** The day reached by paging month by month from day n, each step unhindered by bounds. */
  function Page(n: int, offsets: seq<int>): int
    decreases |offsets|
  {
    hide RequestedDay, YearOf, MonthOf, DayOf;
    if offsets == [] then n
    else Page(RequestedDay(YearOf(n), MonthOf(n), DayOf(n), offsets[0], Months), offsets[1..])
  }

  function Sum(s: seq<int>): int {
    if s == [] then 0 else s[0] + Sum(s[1..])
  }

  /** No step starts in a short year; the last one may end there. */
  ghost predicate AvoidsShortYears(index: int, offsets: seq<int>)
    decreases |offsets|
  {
    offsets != [] ==> !ShortYear(index / 12) && AvoidsShortYears(index + offsets[0], offsets[1..])
  }

  /** The day of the month that is left after the lengths of all the months visited. */
  function CappedDay(index: int, day: int, offsets: seq<int>): int
    decreases |offsets|
  {
    if offsets == [] then day
    else var next := index + offsets[0];
         CappedDay(next, Min(day, MonthLength(next / 12, next % 12)), offsets[1..])
  }

  lemma IndexParts(n: int)
    ensures MonthIndex(n) / 12 == YearOf(n) && MonthIndex(n) % 12 == MonthOf(n)
  {
  }

  lemma IndexLength(y: int, m: int)
    ensures TrueLength(y, m) == MonthLength((12 * y + m) / 12, (12 * y + m) % 12)
  {
  }

  /**
   Any run of month steps ends in the month that the sum of its offsets names, on the day capped by
   every month on the way: paging never drifts.
   */
  lemma {:induction false} PagingAddsUp(n: int, offsets: seq<int>)
    requires AvoidsShortYears(MonthIndex(n), offsets)
    ensures MonthIndex(Page(n, offsets)) == MonthIndex(n) + Sum(offsets)
    ensures DayOf(Page(n, offsets)) == CappedDay(MonthIndex(n), DayOf(n), offsets)
    decreases |offsets|
  {
    hide DayFromYear, DaysBefore, IsLeap, YearOf, MonthOf, DayOf, MonthLength, DaysInYear, RequestedDay, MakeDay;
    hide NewDate, GetDaysInMonth, MonthIndex, TrueLength;
    if offsets != [] {
      var next := RequestedDay(YearOf(n), MonthOf(n), DayOf(n), offsets[0], Months);
      IndexParts(n);
      MonthStep(YearOf(n), MonthOf(n), DayOf(n), offsets[0]);
      IndexLength(YearOf(n), MonthOf(n) + offsets[0]);
      PagingAddsUp(next, offsets[1..]);
    }
  }

  /** k months forth and k months back: the same month, and the day capped by the month in between. */
  lemma ForthAndBack(n: int, k: int)
    requires !ShortYear(YearOf(n)) && !ShortYear((MonthIndex(n) + k) / 12)
    ensures MonthIndex(Page(n, [k, -k])) == MonthIndex(n)
    ensures DayOf(Page(n, [k, -k]))
         == Min(DayOf(n), MonthLength((MonthIndex(n) + k) / 12, (MonthIndex(n) + k) % 12))
  {
    hide DayFromYear, DaysBefore, IsLeap, YearOf, MonthOf, DayOf, MonthLength, DaysInYear, RequestedDay, MakeDay;
    hide NewDate, GetDaysInMonth, MonthIndex, Page;
    var next := MonthIndex(n) + k;
    IndexParts(n);
    assert [k, -k][1..] == [-k];
    assert [-k][1..] == [];
    assert Sum([-k]) == -k;
    assert AvoidsShortYears(next, [-k]);
    PagingAddsUp(n, [k, -k]);
    var capped := Min(DayOf(n), MonthLength(next / 12, next % 12));
    assert next - k == MonthIndex(n);
    assert CappedDay(next, capped, [-k]) == Min(capped, MonthLength(YearOf(n), MonthOf(n)));
  }
}
