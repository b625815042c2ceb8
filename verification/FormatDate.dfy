/**
 `formatDate`: the text of a date under a format. A date is a time in milliseconds since 1970;
 time zones play no part.
 */
module FormatDate {
  import opened Calendar
  import opened Decimal
  import opened DateTokens

  const MS_PER_DAY := 86400000

  /** `_ticksTo1970`: 100-nanosecond ticks from year 1 to 1970. */
  const TICKS_TO_1970 := ((1970 - 1) * 365 + 1970 / 4 - 1970 / 100 + 1970 / 400) * 24 * 60 * 60 * 10000000

  /** The day that a time falls on. */
  function DayNumberOf(time: int): int {
    time / MS_PER_DAY
  }

  /** Days from Sunday, months from January, short and long. */
  datatype NameLists = NameLists(dayShort: seq<string>, dayLong: seq<string>,
                                 monthShort: seq<string>, monthLong: seq<string>)

  type Names = n: NameLists | |n.dayShort| == |n.dayLong| == 7 && |n.monthShort| == |n.monthLong| == 12
    witness NameLists(["", "", "", "", "", "", ""], ["", "", "", "", "", "", ""],
                      ["", "", "", "", "", "", "", "", "", "", "", ""],
                      ["", "", "", "", "", "", "", "", "", "", "", ""])

  /** JavaScript's `%`: the remainder takes the sign of the dividend. */
  function JsRem(a: int, b: int): int
    requires 0 < b
  {
    if a >= 0 then a % b else -((-a) % b)
  }

  /** `date.getYear() % 100`, where getYear counts from 1900. */
  function ShortYearNumber(n: int): int {
    JsRem(YearOf(n) - 1900, 100)
  }

  /** The day of the year as formatDate computes it: the distance to the day before 1 January. */
  function OrdinalOf(n: int): int {
    NewDate(YearOf(n), MonthOf(n), DayOf(n)) - NewDate(YearOf(n), 0, 0)
  }

  function TicksOf(time: int): int {
    time * 10000 + TICKS_TO_1970
  }

  function NumberText(value: int, double: bool, len: nat): string {
    if double then PadLeft(IntText(value), len) else IntText(value)
  }

  /** What one token contributes to the text. */
  function Text(tok: Token, time: int, names: Names): string {
    var n := DayNumberOf(time);
    match tok
    case DayNumber(double) => NumberText(DayOf(n), double, 2)
    case DayName(long) => (if long then names.dayLong else names.dayShort)[WeekDay(n)]
    case YearDay(double) => NumberText(OrdinalOf(n), double, 3)
    case MonthNumber(double) => NumberText(MonthOf(n) + 1, double, 2)
    case MonthName(long) => (if long then names.monthLong else names.monthShort)[MonthOf(n)]
    case Year(true) => IntText(YearOf(n))
    case Year(false) => (if ShortYearNumber(n) < 10 then "0" else "") + IntText(ShortYearNumber(n))
    case Millis => IntText(time)
    case Ticks => IntText(TicksOf(time))
    case Literal(c) => [c]
  }

  function Print(toks: seq<Token>, time: int, names: Names): string {
    if toks == [] then "" else Text(toks[0], time, names) + Print(toks[1..], time, names)
  }

  /** `formatNumber`, with the outcome of its look-ahead passed in. */
  method FormatNumber(value: int, double: bool, len: nat) returns (num: string)
    ensures num == NumberText(value, double, len)
  {
    num := IntText(value);
    if double {
      ghost var start := num;
      while |num| < len
        invariant |start| <= |num|
        invariant num == Zeros(|num| - |start|) + start
        invariant |num| <= len || num == start
      {
        num := "0" + num;
      }
    }
  }

  /** The text of a turn of the loop, which meets at most one token. */
  function TurnText(turn: Turn, time: int, names: Names): string
    requires |turn.token| <= 1
  {
    if turn.token == [] then "" else Text(turn.token[0], time, names)
  }

  /** Taking one turn splits its text off the front. */
  lemma PrintTurn(f: string, i: nat, literal: bool, output: string, time: int, names: Names)
    requires i < |f|
    ensures (var turn := Step(f, i, literal, Printer);
             output + Print(TokensFrom(f, i, literal, Printer), time, names)
             == (output + TurnText(turn, time, names))
                + Print(TokensFrom(f, turn.next, turn.literal, Printer), time, names))
  {
    hide Text, Step;
    var turn := Step(f, i, literal, Printer);
    var rest := TokensFrom(f, turn.next, turn.literal, Printer);
    if turn.token != [] {
      assert (turn.token + rest)[1..] == rest;
    } else {
      assert turn.token + rest == rest;
    }
  }

  /** The switch on a format character outside quotes. */
  method FormatChar(format: string, i: nat, time: int, names: Names)
    returns (piece: string, iFormat: nat, literal: bool)
    requires i < |format|
    ensures var turn := Step(format, i, false, Printer);
            piece == TurnText(turn, time, names) && iFormat + 1 == turn.next && literal == turn.literal
  {
    hide YearOf, MonthOf, DayOf, WeekDay, OrdinalOf, IntText, NumberText, ShortYearNumber, TicksOf, Doubled;
    var n := DayNumberOf(time);
    var ahead := Doubled(format, i);
    piece, literal, iFormat := "", false, i;
    match format[i]
    case 'd' =>
      piece := FormatNumber(DayOf(n), ahead, 2);
      iFormat := if ahead then i + 1 else i;
    case 'D' =>
      piece := (if ahead then names.dayLong else names.dayShort)[WeekDay(n)];
      iFormat := if ahead then i + 1 else i;
    case 'o' =>
      piece := FormatNumber(OrdinalOf(n), ahead, 3);
      iFormat := if ahead then i + 1 else i;
    case 'm' =>
      piece := FormatNumber(MonthOf(n) + 1, ahead, 2);
      iFormat := if ahead then i + 1 else i;
    case 'M' =>
      piece := (if ahead then names.monthLong else names.monthShort)[MonthOf(n)];
      iFormat := if ahead then i + 1 else i;
    case 'y' =>
      if ahead {
        iFormat := i + 1;
        piece := IntText(YearOf(n));
      } else {
        piece := (if ShortYearNumber(n) < 10 then "0" else "") + IntText(ShortYearNumber(n));
      }
    case '@' =>
      piece := IntText(time);
    case '!' =>
      piece := IntText(TicksOf(time));
    case '\'' =>
      if ahead {
        iFormat := i + 1;
        piece := "'";
      } else {
        literal := true;
      }
    case c =>
      piece := [c];
  }

  /** `formatDate` for a date that is given; the format is walked once, with look-ahead. */
  method FormatDate(format: string, time: int, names: Names) returns (output: string)
    ensures output == Print(Tokens(format, Printer), time, names)
  {
    hide Text, Print, Step, TokensFrom;
    output := "";
    var literal := false;
    var iFormat := 0;
    while iFormat < |format|
      invariant 0 <= iFormat <= |format|
      invariant output + Print(TokensFrom(format, iFormat, literal, Printer), time, names)
             == Print(Tokens(format, Printer), time, names)
    {
      ghost var turn := Step(format, iFormat, literal, Printer);
      PrintTurn(format, iFormat, literal, output, time, names);
      var piece := "";
      if literal {
        LiteralTurn(format, iFormat);
        if format[iFormat] == '\'' && !Doubled(format, iFormat) {
          literal := false;
        } else {
          if format[iFormat] == '\'' {
            iFormat := iFormat + 1;
          }
          piece := [format[iFormat]];
          LiteralText(format[iFormat], time, names);
        }
      } else {
        piece, iFormat, literal := FormatChar(format, iFormat, time, names);
      }
      output := output + piece;
      iFormat := iFormat + 1;
      assert iFormat == turn.next && literal == turn.literal && piece == TurnText(turn, time, names);
    }
    NothingLeft(format, literal, time, names);
  }

  lemma LiteralText(c: char, time: int, names: Names)
    ensures Text(Literal(c), time, names) == [c]
  {
  }

  lemma NothingLeft(f: string, literal: bool, time: int, names: Names)
    ensures Print(TokensFrom(f, |f|, literal, Printer), time, names) == ""
  {
  }
}
