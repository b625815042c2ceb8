/**
 `parseDate`: reading a date under a format. "Now" is a parameter, and exceptions are results.
 */
module ParseDate {
  import opened Wrappers
  import opened Calendar
  import opened Decimal
  import opened MonthGrid
  import opened DateTokens
  import opened FormatDate

  datatype ParseError =
    | MissingNumber(pos: nat)
    | UnknownName(pos: nat)
    | UnexpectedLiteral(pos: nat)
    | ExtraCharacters(extra: string)
    | InvalidDate

  /** What has been read so far; -1 stands for a field not met. Months and days count from 1. */
  datatype Fields = Fields(year: int, month: int, day: int, doy: int)

  const NOTHING := Fields(-1, -1, -1, -1)

  datatype Reading = Reading(pos: nat, fields: Fields)

  // ---------- numbers ----------

  /** The fewest and the most digits taken for a token. */
  function MostDigits(tok: Token): nat {
    match tok
    case Millis => 14
    case Ticks => 20
    case Year(four) => if four then 4 else 2
    case YearDay(_) => 3
    case _ => 2
  }

  function FewestDigits(tok: Token): nat {
    if tok.Year? then MostDigits(tok) else 1
  }

  /** `getNumber`: as many digits as stand there, within the token's limits. */
  function GetNumber(tok: Token, value: string, pos: nat): (r: Result<(nat, nat), ParseError>)
    requires pos <= |value|
    ensures r.Ok? ==> r.value.1 <= |value|
  {
    var k := DigitRun(value, pos, MostDigits(tok));
    if k < FewestDigits(tok) then Err(MissingNumber(pos))
    else
      assert AllDigits(value[pos..pos + k]);
      Ok((NatValue(value[pos..pos + k]), pos + k))
  }

  // ---------- names ----------

  function Lower(c: char): char {
    if 'A' <= c <= 'Z' then c - 'A' + 'a' else c
  }

  /** A name stands at position pos, up to letter case. */
  predicate MatchesAt(value: string, pos: nat, name: string) {
    pos + |name| <= |value| && forall k :: 0 <= k < |name| ==> Lower(value[pos + k]) == Lower(name[k])
  }

  /** Places index k behind the names that are at least as long. */
  function InsertByLength(order: seq<nat>, k: nat, names: seq<string>): (r: seq<nat>)
    requires k < |names| && forall i :: 0 <= i < |order| ==> order[i] < |names|
    ensures forall i :: 0 <= i < |r| ==> r[i] < |names|
  {
    if order == [] || |names[order[0]]| < |names[k]| then [k] + order
    else [order[0]] + InsertByLength(order[1..], k, names)
  }

  /** The first k indices by falling length of their names; equal lengths keep their order. */
  function ByLength(names: seq<string>, k: nat): (r: seq<nat>)
    requires k <= |names|
    ensures forall i :: 0 <= i < |r| ==> r[i] < |names|
  {
    if k == 0 then [] else InsertByLength(ByLength(names, k - 1), k - 1, names)
  }

  function FirstMatch(order: seq<nat>, names: seq<string>, value: string, pos: nat): (r: Option<nat>)
    requires forall i :: 0 <= i < |order| ==> order[i] < |names|
    ensures r.Some? ==> r.value < |names| && MatchesAt(value, pos, names[r.value])
  {
    if order == [] then None
    else if MatchesAt(value, pos, names[order[0]]) then Some(order[0])
    else FirstMatch(order[1..], names, value, pos)
  }

  /** `getName`: index and end of the first match among the names sorted by falling length. */
  function GetName(names: seq<string>, value: string, pos: nat): (r: Result<(nat, nat), ParseError>)
    ensures r.Ok? ==> r.value.0 < |names| && r.value.1 <= |value|
  {
    var m := FirstMatch(ByLength(names, |names|), names, value, pos);
    if m.Some? then Ok((m.value, pos + |names[m.value]|)) else Err(UnknownName(pos))
  }

  // ---------- tokens ----------

  /** Division of whole numbers with the fraction cut off, as `new Date` treats its argument. */
  function JsTrunc(a: int, b: int): int
    requires 0 < b
  {
    if a >= 0 then a / b else -((-a) / b)
  }

  /** Year, month and day of a time. */
  function FromTime(time: int, f: Fields): Fields {
    var n := DayNumberOf(time);
    f.(year := YearOf(n), month := MonthOf(n) + 1, day := DayOf(n))
  }

  /** What a number read for a token does to the fields. */
  function StoreNumber(tok: Token, num: int, f: Fields): Fields {
    match tok
    case DayNumber(_) => f.(day := num)
    case YearDay(_) => f.(doy := num)
    case MonthNumber(_) => f.(month := num)
    case Year(_) => f.(year := num)
    case Millis => FromTime(num, f)
    case Ticks => FromTime(JsTrunc(num - TICKS_TO_1970, 10000), f)
    case _ => f
  }

  function ReadToken(tok: Token, value: string, pos: nat, names: Names, f: Fields)
    : (r: Result<Reading, ParseError>)
    requires pos <= |value|
    ensures r.Ok? ==> r.value.pos <= |value|
  {
    match tok
    case DayName(long) =>
      var (_, next) :- GetName(if long then names.dayLong else names.dayShort, value, pos);
      Ok(Reading(next, f))
    case MonthName(long) =>
      var (k, next) :- GetName(if long then names.monthLong else names.monthShort, value, pos);
      Ok(Reading(next, f.(month := k + 1)))
    case Literal(c) =>
      if pos < |value| && value[pos] == c then Ok(Reading(pos + 1, f)) else Err(UnexpectedLiteral(pos))
    case _ =>
      var (num, next) :- GetNumber(tok, value, pos);
      Ok(Reading(next, StoreNumber(tok, num, f)))
  }

  function ReadTokens(toks: seq<Token>, value: string, start: Reading, names: Names)
    : (r: Result<Reading, ParseError>)
    requires start.pos <= |value|
    ensures r.Ok? ==> r.value.pos <= |value|
    decreases |toks|
  {
    if toks == [] then Ok(start)
    else
      var next :- ReadToken(toks[0], value, start.pos, names, start.fields);
      ReadTokens(toks[1..], value, next, names)
  }

  // ---------- from fields to a date ----------

  /** The characters of the class `\s`. */
  predicate IsSpace(c: char) {
    c in {' ', '\t', '\n', '\r', '\U{000B}', '\U{000C}', '\U{00A0}', '\U{1680}', '\U{2028}', '\U{2029}',
          '\U{202F}', '\U{205F}', '\U{3000}', '\U{FEFF}'} || '\U{2000}' <= c <= '\U{200A}'
  }

  /** The setting `shortYearCutoff`: a number, or a string holding an offset from the current year. */
  datatype Cutoff = Absolute(n: int) | Offset(n: int)

  /** A missing setting, and the number 0, give way to the default "+10". */
  function ResolveCutoff(setting: Option<Cutoff>, nowYear: int): int {
    match setting
    case Some(Absolute(n)) => if n == 0 then JsRem(nowYear, 100) + 10 else n
    case Some(Offset(n)) => JsRem(nowYear, 100) + n
    case None => JsRem(nowYear, 100) + 10
  }

  function ResolveYear(year: int, nowYear: int, cutoff: int): int {
    if year == -1 then nowYear
    else if year < 100 then year + nowYear - JsRem(nowYear, 100) + (if year <= cutoff then 0 else -100)
    else year
  }

  lemma DaysInMonthPositive(year: int, month: int)
    ensures 28 <= GetDaysInMonth(year, month) <= 31
  {
    hide YearOf, MonthOf, DayOf, MakeDay;
    OverflowLength(ConstructorYear(year), month);
  }

  /** Month and day of a day of the year, taking off month lengths until the rest fits. */
  function FromDayOfYear(year: int, month: int, day: int): (int, int)
    decreases day
  {
    hide GetDaysInMonth;
    DaysInMonthPositive(year, month - 1);
    var dim := GetDaysInMonth(year, month - 1);
    if day <= dim then (month, day) else FromDayOfYear(year, month + 1, day - dim)
  }

  /** The date that the fields name, if it is a real one. */
  function DateOfFields(f: Fields, nowYear: int, cutoff: int): Result<int, ParseError> {
    var year := ResolveYear(f.year, nowYear, cutoff);
    var (month, day) := if f.doy > -1 then FromDayOfYear(year, 1, f.doy) else (f.month, f.day);
    var date := NewDate(year, month - 1, day);
    if YearOf(date) != year || MonthOf(date) + 1 != month || DayOf(date) != day then Err(InvalidDate)
    else Ok(date)
  }

  /** `parseDate` as a function: nothing for an empty value, else the day number or an error. */
  function Parse(format: string, value: string, names: Names, nowYear: int, setting: Option<Cutoff>)
    : Result<Option<int>, ParseError>
  {
    if value == "" then Ok(None)
    else
      var end :- ReadTokens(Tokens(format, Parser), value, Reading(0, NOTHING), names);
      if end.pos < |value| && !IsSpace(value[end.pos]) then Err(ExtraCharacters(value[end.pos..]))
      else
        var date :- DateOfFields(end.fields, nowYear, ResolveCutoff(setting, nowYear));
        Ok(Some(date))
  }

  // ---------- the loops ----------

  /** `getName` as a loop over the sorted names. */
  method FindName(names: seq<string>, value: string, pos: nat) returns (r: Result<(nat, nat), ParseError>)
    ensures r == GetName(names, value, pos)
  {
    var order := ByLength(names, |names|);
    var i := 0;
    while i < |order| && !MatchesAt(value, pos, names[order[i]])
      invariant 0 <= i <= |order|
      invariant FirstMatch(order[i..], names, value, pos) == FirstMatch(order, names, value, pos)
    {
      i := i + 1;
    }
    if i < |order| {
      r := Ok((order[i], pos + |names[order[i]]|));
    } else {
      r := Err(UnknownName(pos));
    }
  }

  /** The day-of-year loop. */
  method SplitDayOfYear(year: int, doy: int) returns (month: int, day: int)
    ensures (month, day) == FromDayOfYear(year, 1, doy)
  {
    hide GetDaysInMonth;
    month, day := 1, doy;
    while true
      invariant FromDayOfYear(year, month, day) == FromDayOfYear(year, 1, doy)
      decreases day
    {
      var dim := GetDaysInMonth(year, month - 1);
      if day <= dim {
        break;
      }
      DaysInMonthPositive(year, month - 1);
      month := month + 1;
      day := day - dim;
    }
  }

  /** What one turn of the loop reads. */
  function ReadTurn(turn: Turn, value: string, start: Reading, names: Names): (r: Result<Reading, ParseError>)
    requires |turn.token| <= 1 && start.pos <= |value|
    ensures r.Ok? ==> r.value.pos <= |value|
  {
    if turn.token == [] then Ok(start)
    else ReadToken(turn.token[0], value, start.pos, names, start.fields)
  }

  lemma TakeTurn(f: string, i: nat, literal: bool, value: string, start: Reading, names: Names)
    requires i < |f| && start.pos <= |value|
    ensures (var turn := Step(f, i, literal, Parser);
             var next := ReadTurn(turn, value, start, names);
             ReadTokens(TokensFrom(f, i, literal, Parser), value, start, names)
             == if next.Err? then next
                else ReadTokens(TokensFrom(f, turn.next, turn.literal, Parser), value, next.value, names))
  {
    hide ReadToken, Step;
    var turn := Step(f, i, literal, Parser);
    var rest := TokensFrom(f, turn.next, turn.literal, Parser);
    if turn.token != [] {
      assert (turn.token + rest)[1..] == rest;
    } else {
      assert turn.token + rest == rest;
    }
  }

  /** The switch on a format character outside quotes. */
  method ParseChar(format: string, i: nat, value: string, start: Reading, names: Names)
    returns (r: Result<Reading, ParseError>, iFormat: nat, literal: bool)
    requires i < |format| && start.pos <= |value|
    ensures (var turn := Step(format, i, false, Parser);
             r == ReadTurn(turn, value, start, names) && iFormat + 1 == turn.next && literal == turn.literal)
  {
    hide Doubled, GetNumber, GetName, StoreNumber;
    var ahead := Doubled(format, i);
    var c := format[i];
    iFormat, literal := i, false;
    if c == 'D' || c == 'M' {
      iFormat := if ahead then i + 1 else i;
      var list := if c == 'D' then (if ahead then names.dayLong else names.dayShort)
                  else (if ahead then names.monthLong else names.monthShort);
      var name := FindName(list, value, start.pos);
      if name.Err? {
        r := Err(name.error);
      } else {
        var (k, next) := name.value;
        r := Ok(Reading(next, if c == 'M' then start.fields.(month := k + 1) else start.fields));
      }
    } else if c in {'d', 'o', 'm', 'y', '@', '!'} {
      iFormat := if ahead then i + 1 else i;
      var tok := if c == 'd' then DayNumber(ahead) else if c == 'o' then YearDay(ahead)
                 else if c == 'm' then MonthNumber(ahead) else if c == 'y' then Year(ahead)
                 else if c == '@' then Millis else Ticks;
      var number := GetNumber(tok, value, start.pos);
      if number.Err? {
        r := Err(number.error);
      } else {
        var (num, next) := number.value;
        r := Ok(Reading(next, StoreNumber(tok, num, start.fields)));
      }
    } else if c == '\'' && !ahead {
      literal := true;
      r := Ok(start);
    } else {
      iFormat := if c == '\'' then i + 1 else i;
      r := CheckLiteral(c, value, start);
    }
  }

  /** `checkLiteral`. */
  function CheckLiteral(c: char, value: string, start: Reading): Result<Reading, ParseError> {
    if start.pos < |value| && value[start.pos] == c then Ok(start.(pos := start.pos + 1))
    else Err(UnexpectedLiteral(start.pos))
  }

  /** The walk over the format, with look-ahead, moving through the value. */
  method ReadFormat(format: string, value: string, names: Names) returns (r: Result<Reading, ParseError>)
    ensures r == ReadTokens(Tokens(format, Parser), value, Reading(0, NOTHING), names)
  {
    hide Step, TokensFrom, ReadTokens, ReadToken;
    var state := Reading(0, NOTHING);
    var literal := false;
    var iFormat := 0;
    while iFormat < |format|
      invariant 0 <= iFormat <= |format| && state.pos <= |value|
      invariant ReadTokens(TokensFrom(format, iFormat, literal, Parser), value, state, names)
             == ReadTokens(Tokens(format, Parser), value, Reading(0, NOTHING), names)
    {
      TakeTurn(format, iFormat, literal, value, state, names);
      ghost var turn := Step(format, iFormat, literal, Parser);
      var step: Result<Reading, ParseError> := Ok(state);
      if literal {
        LiteralTurn(format, iFormat);
        if format[iFormat] == '\'' && !Doubled(format, iFormat) {
          literal := false;
        } else {
          if format[iFormat] == '\'' {
            iFormat := iFormat + 1;
          }
          step := CheckLiteral(format[iFormat], value, state);
          LiteralReading(format[iFormat], value, state, names);
        }
      } else {
        step, iFormat, literal := ParseChar(format, iFormat, value, state, names);
      }
      iFormat := iFormat + 1;
      assert iFormat == turn.next && literal == turn.literal && step == ReadTurn(turn, value, state, names);
      if step.Err? {
        return step;
      }
      state := step.value;
    }
    NothingToRead(format, literal, value, state, names);
    r := Ok(state);
  }

  /** `parseDate`: the walk, what may follow it, and the date that the fields make. */
  method ParseDate(format: string, value: string, names: Names, nowYear: int, setting: Option<Cutoff>)
    returns (r: Result<Option<int>, ParseError>)
    ensures r == Parse(format, value, names, nowYear, setting)
  {
    hide TokensFrom, ReadTokens, FromDayOfYear, YearOf, MonthOf, DayOf, NewDate, IsSpace, ResolveYear, ResolveCutoff;
    if value == "" {
      return Ok(None);
    }
    var read := ReadFormat(format, value, names);
    if read.Err? {
      return Err(read.error);
    }
    var state := read.value;
    if state.pos < |value| && !IsSpace(value[state.pos]) {
      return Err(ExtraCharacters(value[state.pos..]));
    }
    var year := ResolveYear(state.fields.year, nowYear, ResolveCutoff(setting, nowYear));
    var month, day := state.fields.month, state.fields.day;
    if state.fields.doy > -1 {
      month, day := SplitDayOfYear(year, state.fields.doy);
    }
    var date := NewDate(year, month - 1, day);
    if YearOf(date) != year || MonthOf(date) + 1 != month || DayOf(date) != day {
      return Err(InvalidDate);
    }
    r := Ok(Some(date));
  }

  lemma LiteralReading(c: char, value: string, start: Reading, names: Names)
    requires start.pos <= |value|
    ensures ReadToken(Literal(c), value, start.pos, names, start.fields) == CheckLiteral(c, value, start)
  {
  }

  lemma NothingToRead(f: string, literal: bool, value: string, start: Reading, names: Names)
    requires start.pos <= |value|
    ensures ReadTokens(TokensFrom(f, |f|, literal, Parser), value, start, names) == Ok(start)
  {
  }
}
