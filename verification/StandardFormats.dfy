/**
 Conditions on format, names and date that can be checked by eye, and the formats the date picker
 ships with.
 */
module StandardFormats {
  import opened Wrappers
  import opened Calendar
  import opened Decimal
  import opened DateTokens
  import opened FormatDate
  import opened ParseDate
  import opened DateCheck
  import opened RoundTrip

  /** A number printed without padding, whose end only the next character can show. */
  predicate OpenEnded(tok: Token) {
    match tok
    case DayNumber(padded) => !padded
    case MonthNumber(padded) => !padded
    case YearDay(padded) => !padded
    case Millis => true
    case Ticks => true
    case _ => false
  }

  /** Every open-ended number comes last or is followed by literal text that is not a digit. */
  predicate WellSeparated(toks: seq<Token>) {
    forall i :: 0 <= i < |toks| - 1 && OpenEnded(toks[i]) ==> toks[i + 1].Literal? && !IsDigit(toks[i + 1].c)
  }

  /** The number printed has no more digits than the parser takes, and no sign. */
  predicate InRange(tok: Token, time: int) {
    var y := YearOf(DayNumberOf(time));
    match tok
    case Year(four) => if four then 1000 <= y <= 9999 else 0 <= ShortYearNumber(DayNumberOf(time))
    case Millis => 0 <= time < Pow10(14)
    case Ticks => 0 <= TicksOf(time) < Pow10(20)
    case _ => true
  }

  predicate AllInRange(toks: seq<Token>, time: int) {
    forall i :: 0 <= i < |toks| ==> InRange(toks[i], time)
  }

  /** No name begins with another one, up to letter case. */
  predicate PrefixFree(names: seq<string>) {
    forall i, j :: 0 <= i < |names| && 0 <= j < |names| && i != j ==> !MatchesAt(names[i], 0, names[j])
  }

  predicate DistinctNames(names: Names) {
    && PrefixFree(names.dayShort) && PrefixFree(names.dayLong)
    && PrefixFree(names.monthShort) && PrefixFree(names.monthLong)
  }

  lemma PrefixFreeReadable(names: seq<string>, k: nat, rest: string)
    requires PrefixFree(names) && k < |names|
    ensures ReadableName(names, k, rest) && ReadableLength(names, k, rest)
  {
  }

  /** The days of a year number 1..366. */
  lemma OrdinalRange(n: int)
    ensures 1 <= OrdinalOf(n) <= 366
  {
    hide DayFromYear, YearOf, IsLeap, MonthOf, DayOf, DaysBefore;
    var y, m := ConstructorYear(YearOf(n)), MonthOf(n);
    assert y + 0 / 12 == y && 0 % 12 == 0;
    assert m / 12 == 0 && m % 12 == m;
    DaysBeforeMonotone(y, 0, m);
    DaysBeforeStep(y, m);
    DaysBeforeMonotone(y, m + 1, 12);
    DaysBeforeDiffer(y, 1970, m);
    JanuaryLength(1970);
  }

  lemma JanuaryLength(y: int)
    ensures DaysBefore(y, 1) == 31
  {
  }

  /** How long the text of a number in range is. */
  lemma NumberLength(tok: Token, time: int, names: Names)
    requires IsNumber(tok) && InRange(tok, time)
    ensures (var s := Text(tok, time, names);
             AllDigits(s) && FewestDigits(tok) <= |s| <= MostDigits(tok)
             && (!OpenEnded(tok) ==> |s| == MostDigits(tok)))
  {
    hide YearOf, MonthOf, DayOf, OrdinalOf, TicksOf, NatText, NatValue, PadLeft, ShortYearNumber, Pow10, MonthLength;
    var n, v := DayNumberOf(time), NumberMeant(tok, time);
    OrdinalRange(n);
    ShortYearNumberIs(n);
    SmallPowers();
    if v >= 0 {
      TextLengths(v);
      PadLeftValue(v, 2);
      PadLeftValue(v, 3);
      OneZero(NatText(v));
    }
  }

  lemma SmallPowers()
    ensures Pow10(1) == 10 && Pow10(2) == 100 && Pow10(3) == 1000 && Pow10(4) == 10000
  {
  }

  lemma TextLengths(v: nat)
    ensures |NatText(v)| <= 1 <==> v < Pow10(1)
    ensures |NatText(v)| <= 2 <==> v < Pow10(2)
    ensures |NatText(v)| <= 3 <==> v < Pow10(3)
    ensures |NatText(v)| <= 4 <==> v < Pow10(4)
    ensures |NatText(v)| <= 14 <==> v < Pow10(14)
    ensures |NatText(v)| <= 20 <==> v < Pow10(20)
  {
    hide Pow10, NatText;
    TextLength(v, 1);
    TextLength(v, 2);
    TextLength(v, 3);
    TextLength(v, 4);
    TextLength(v, 14);
    TextLength(v, 20);
  }

  /** The checkable conditions make a token readable before the text of those behind it. */
  lemma HeadReadable(toks: seq<Token>, time: int, names: Names)
    requires toks != [] && WellSeparated(toks) && InRange(toks[0], time) && DistinctNames(names)
    ensures Readable(toks[0], time, names, Print(toks[1..], time, names))
  {
    hide Text, InRange, PrefixFree, ReadableName, ReadableLength, ReadableNumber, OpenEnded, DayNumberOf, WeekDay;
    hide MonthOf;
    var rest := Print(toks[1..], time, names);
    match toks[0]
    case DayName(long) =>
      PrefixFreeReadable(if long then names.dayLong else names.dayShort, WeekDay(DayNumberOf(time)), rest);
    case MonthName(long) =>
      PrefixFreeReadable(if long then names.monthLong else names.monthShort, MonthOf(DayNumberOf(time)), rest);
    case Literal(_) =>
    case _ =>
      NumberReadable(toks, time, names);
  }

  lemma TailSeparated(toks: seq<Token>)
    requires toks != [] && WellSeparated(toks)
    ensures WellSeparated(toks[1..])
  {
    assert forall i :: 0 <= i < |toks[1..]| ==> toks[1..][i] == toks[i + 1];
  }

  /** The checkable conditions make every token readable. */
  lemma {:induction false} SeparatedIsReadable(toks: seq<Token>, time: int, names: Names)
    requires WellSeparated(toks) && AllInRange(toks, time) && DistinctNames(names)
    ensures AllReadable(toks, time, names)
  {
    hide Readable, InRange, WellSeparated, DistinctNames;
    if toks != [] {
      HeadReadable(toks, time, names);
      TailSeparated(toks);
      assert forall i :: 0 <= i < |toks[1..]| ==> toks[1..][i] == toks[i + 1];
      SeparatedIsReadable(toks[1..], time, names);
    }
  }

  lemma ReadCons(toks: seq<Token>, value: string, start: Reading, names: Names, next: Reading)
    requires toks != [] && start.pos <= |value|
    requires ReadToken(toks[0], value, start.pos, names, start.fields) == Ok(next)
    ensures next.pos <= |value| && ReadTokens(toks, value, start, names) == ReadTokens(toks[1..], value, next, names)
  {
    hide ReadToken;
  }

  /** The first token, if in range, is read back up to the text of the rest. */
  lemma HeadBack(toks: seq<Token>, time: int, names: Names, value: string, start: Reading) returns (next: Reading)
    requires toks != [] && WellSeparated(toks) && DistinctNames(names) && InRange(toks[0], time)
    requires start.pos <= |value| && value[start.pos..] == Print(toks, time, names)
    ensures next.pos <= |value| && value[next.pos..] == Print(toks[1..], time, names)
    ensures next.fields == Effect(toks[0], time, start.fields)
    ensures ReadToken(toks[0], value, start.pos, names, start.fields) == Ok(next)
  {
    hide Text, Readable, ReadToken, Effect, InRange, WellSeparated, DistinctNames;
    var text, rest := Text(toks[0], time, names), Print(toks[1..], time, names);
    HeadReadable(toks, time, names);
    TokenBack(toks[0], time, names, rest, value, start.pos, start.fields);
    next := Reading(start.pos + |text|, Effect(toks[0], time, start.fields));
    assert value[next.pos..] == value[start.pos..][|text|..] == rest;
  }

  /** The first k tokens have been read back, up to the text of the rest. */
  ghost predicate ReadUpTo(toks: seq<Token>, k: nat, time: int, names: Names, value: string, start: Reading,
                           at: Reading)
    requires k <= |toks| && start.pos <= |value|
  {
    && at.pos <= |value| && value[at.pos..] == Print(toks[k..], time, names)
    && ReadTokens(toks, value, start, names) == ReadTokens(toks[k..], value, at, names)
    && ReadTokens(toks[..k], value, start, names) == Ok(at) && at.fields == Effects(toks[..k], time, start.fields)
  }

  lemma ReadUpToNone(toks: seq<Token>, time: int, names: Names, value: string, start: Reading)
    requires start.pos <= |value| && value[start.pos..] == Print(toks, time, names)
    ensures ReadUpTo(toks, 0, time, names, value, start, start)
  {
    assert toks[0..] == toks && toks[..0] == [];
  }

  lemma ReadUpToStep(toks: seq<Token>, k: nat, time: int, names: Names, value: string, start: Reading, next: Reading,
                     at: Reading)
    requires 1 <= k <= |toks| && start.pos <= |value| && next.pos <= |value|
    requires ReadToken(toks[0], value, start.pos, names, start.fields) == Ok(next)
    requires next.fields == Effect(toks[0], time, start.fields)
    requires ReadUpTo(toks[1..], k - 1, time, names, value, next, at)
    ensures ReadUpTo(toks, k, time, names, value, start, at)
  {
    hide ReadToken, Effect, Print;
    assert toks[1..][k - 1..] == toks[k..] && toks[..k][1..] == toks[1..][..k - 1];
    ReadCons(toks, value, start, names, next);
    ReadCons(toks[..k], value, start, names, next);
  }

  /** If in range, they are. */
  lemma {:induction false} FirstBack(toks: seq<Token>, k: nat, time: int, names: Names, value: string, start: Reading)
    returns (at: Reading)
    requires WellSeparated(toks) && DistinctNames(names)
    requires k <= |toks| && forall i :: 0 <= i < k ==> InRange(toks[i], time)
    requires start.pos <= |value| && value[start.pos..] == Print(toks, time, names)
    ensures ReadUpTo(toks, k, time, names, value, start, at)
    decreases k
  {
    hide Print, ReadToken, ReadTokens, Effect, Effects, InRange, WellSeparated, DistinctNames, ReadUpTo;
    if k == 0 {
      at := start;
      ReadUpToNone(toks, time, names, value, start);
    } else {
      TailSeparated(toks);
      var next := HeadBack(toks, time, names, value, start);
      at := FirstBack(toks[1..], k - 1, time, names, value, next);
      ReadUpToStep(toks, k, time, names, value, start, next, at);
    }
  }

  lemma NumberReadable(toks: seq<Token>, time: int, names: Names)
    requires toks != [] && IsNumber(toks[0]) && WellSeparated(toks) && InRange(toks[0], time)
    ensures ReadableNumber(toks[0], Text(toks[0], time, names), Print(toks[1..], time, names))
  {
    hide InRange, OpenEnded, IsNumber, AllDigits, FewestDigits, MostDigits, IsDigit, NumberMeant;
    NumberLength(toks[0], time, names);
    if OpenEnded(toks[0]) && |toks| > 1 {
      assert Print(toks[1..], time, names) == Text(toks[1], time, names) + Print(toks[1..][1..], time, names);
      LiteralText(toks[1].c, time, names);
    }
  }

  /** The format has a year token that always means its year, and a day of the year or a month and a day. */
  predicate FullFormat(toks: seq<Token>) {
    && (exists i :: 0 <= i < |toks| && FullYear(toks[i]))
    && (forall i :: 0 <= i < |toks| ==> toks[i] != Year(false))
    && (HasYearDay(toks) || (HasMonth(toks) && HasDay(toks)))
  }

  predicate FullYear(tok: Token) {
    tok == Year(true) || tok.Millis? || tok.Ticks?
  }

  lemma {:induction false} YearReadFull(toks: seq<Token>, n: int)
    requires exists i :: 0 <= i < |toks| && FullYear(toks[i])
    requires forall i :: 0 <= i < |toks| ==> toks[i] != Year(false)
    ensures YearRead(toks, n) == YearOf(n)
    decreases |toks|
  {
    hide YearOf, ShortYearNumber;
    var init, last := toks[..|toks| - 1], toks[|toks| - 1];
    assert toks == init + [last];
    if !FullYear(last) {
      assert forall i :: 0 <= i < |init| ==> init[i] == toks[i];
      YearReadFull(init, n);
    }
  }

  /**
   With these conditions the round trip always holds, whatever "now" and the cutoff are: for every
   date from the year 100 on, as far as the format's own numbers reach.
   */
  lemma FullRoundTrip(format: string, time: int, names: Names, nowYear: int, setting: Option<Cutoff>)
    requires NoDoubledStamp(format, 0, false) && DistinctNames(names)
    requires WellSeparated(Tokens(format, Printer)) && FullFormat(Tokens(format, Printer))
    requires AllInRange(Tokens(format, Printer), time) && 100 <= YearOf(DayNumberOf(time))
    ensures Parse(format, Print(Tokens(format, Printer), time, names), names, nowYear, setting)
         == Ok(Some(DayNumberOf(time)))
  {
    hide TokensFrom, Print, AllReadable, Parse, YearOf, DayNumberOf, DistinctNames, WellSeparated, AllInRange;
    hide NoDoubledStamp, HasYearDay, HasMonth, HasDay, YearRead;
    var toks := Tokens(format, Printer);
    SeparatedIsReadable(toks, time, names);
    ParseUndoesPrint(format, time, names, nowYear, setting);
    YearReadFull(toks, DayNumberOf(time));
  }

  /** A format without a year brings back exactly the days of the current year. */
  lemma YearlessRoundTrip(format: string, time: int, names: Names, nowYear: int, setting: Option<Cutoff>)
    requires NoDoubledStamp(format, 0, false) && DistinctNames(names) && WellSeparated(Tokens(format, Printer))
    requires (var toks := Tokens(format, Printer);
              && (forall i :: 0 <= i < |toks| ==> !toks[i].Year? && !toks[i].Millis? && !toks[i].Ticks?)
              && (HasYearDay(toks) || (HasMonth(toks) && HasDay(toks))))
    ensures Parse(format, Print(Tokens(format, Printer), time, names), names, nowYear, setting)
              == Ok(Some(DayNumberOf(time)))
       <==> YearOf(DayNumberOf(time)) == nowYear && !ShortYear(nowYear)
  {
    hide TokensFrom, Print, AllReadable, Parse, YearOf, DayNumberOf, DistinctNames, WellSeparated, NoDoubledStamp;
    hide HasYearDay, HasMonth, HasDay, YearRead, ResolveCutoff, ResolveYear, InRange, ShortYear;
    var toks := Tokens(format, Printer);
    forall i | 0 <= i < |toks| ensures InRange(toks[i], time) {
      OthersInRange(toks[i], time);
    }
    SeparatedIsReadable(toks, time, names);
    ParseUndoesPrint(format, time, names, nowYear, setting);
    YearReadNone(toks, DayNumberOf(time));
    OtherYears(0, nowYear, ResolveCutoff(setting, nowYear));
  }

  lemma {:induction false} YearReadNone(toks: seq<Token>, n: int)
    requires forall i :: 0 <= i < |toks| ==> !toks[i].Year? && !toks[i].Millis? && !toks[i].Ticks?
    ensures YearRead(toks, n) == -1
    decreases |toks|
  {
    hide YearOf, ShortYearNumber;
    if toks != [] {
      YearReadNone(toks[..|toks| - 1], n);
    }
  }

  /** A format whose only year is a two-digit one. */
  predicate ShortFormat(toks: seq<Token>) {
    && Year(false) in toks
    && (forall i :: 0 <= i < |toks| ==> !FullYear(toks[i]))
    && (HasYearDay(toks) || (HasMonth(toks) && HasDay(toks)))
  }

  lemma {:induction false} YearReadShort(toks: seq<Token>, n: int)
    requires Year(false) in toks && forall i :: 0 <= i < |toks| ==> !FullYear(toks[i])
    ensures YearRead(toks, n) == ShortYearNumber(n)
    decreases |toks|
  {
    hide YearOf, ShortYearNumber;
    var init, last := toks[..|toks| - 1], toks[|toks| - 1];
    assert toks == init + [last];
    if last != Year(false) {
      assert forall i :: 0 <= i < |init| ==> init[i] == toks[i];
      YearReadShort(init, n);
    }
  }

  lemma ShortInRange(toks: seq<Token>, time: int)
    requires Year(false) in toks && AllInRange(toks, time)
    ensures 0 <= ShortYearNumber(DayNumberOf(time))
  {
    hide YearOf, ShortYearNumber;
    var i :| 0 <= i < |toks| && toks[i] == Year(false);
    assert InRange(toks[i], time);
  }

  /** With a two-digit year, a date comes back exactly when its year lies in the window. */
  lemma ShortRoundTrip(format: string, time: int, names: Names, nowYear: int, setting: Option<Cutoff>)
    requires NoDoubledStamp(format, 0, false) && DistinctNames(names) && 0 <= nowYear
    requires WellSeparated(Tokens(format, Printer)) && ShortFormat(Tokens(format, Printer))
    requires AllInRange(Tokens(format, Printer), time) && !ShortYear(YearOf(DayNumberOf(time)))
    ensures Parse(format, Print(Tokens(format, Printer), time, names), names, nowYear, setting)
              == Ok(Some(DayNumberOf(time)))
       <==> InWindow(YearOf(DayNumberOf(time)), nowYear, ResolveCutoff(setting, nowYear))
  {
    hide TokensFrom, Print, AllReadable, Parse, YearOf, DayNumberOf, DistinctNames, WellSeparated, AllInRange;
    hide NoDoubledStamp, HasYearDay, HasMonth, HasDay, YearRead, InWindow, ResolveYear, ResolveCutoff;
    hide ShortYearNumber;
    var toks := Tokens(format, Printer);
    SeparatedIsReadable(toks, time, names);
    ParseUndoesPrint(format, time, names, nowYear, setting);
    YearReadShort(toks, DayNumberOf(time));
    ShortInRange(toks, time);
    TwoDigitRoundTrip(DayNumberOf(time), nowYear, ResolveCutoff(setting, nowYear));
  }

  // ---------- the formats and names shipped ----------

  const ATOM := "yy-mm-dd"
  const RFC_850 := "DD, dd-M-y"
  const RFC_1123 := "D, d M yy"

  const DEFAULT_NAMES: Names := NameLists(
    ["Sun", "Mon", "Tue", "Wed", "Thu", "Fri", "Sat"],
    ["Sunday", "Monday", "Tuesday", "Wednesday", "Thursday", "Friday", "Saturday"],
    ["Jan", "Feb", "Mar", "Apr", "May", "Jun", "Jul", "Aug", "Sep", "Oct", "Nov", "Dec"],
    ["January", "February", "March", "April", "May", "June",
     "July", "August", "September", "October", "November", "December"])

  /** One unquoted turn that is not a doubled stamp. */
  lemma Peel(f: string, i: nat, reader: Reader, tok: Token, next: nat)
    requires i < |f| && Step(f, i, false, reader) == Turn([tok], next, false)
    requires f[i] != '@' && f[i] != '!'
    ensures TokensFrom(f, i, false, reader) == [tok] + TokensFrom(f, next, false, reader)
    ensures NoDoubledStamp(f, i, false) <==> NoDoubledStamp(f, next, false)
  {
  }

  lemma Ended(f: string, reader: Reader)
    ensures TokensFrom(f, |f|, false, reader) == [] && NoDoubledStamp(f, |f|, false)
  {
  }

  lemma AtomTokens()
    ensures Tokens(ATOM, Printer) == [Year(true), Literal('-'), MonthNumber(true), Literal('-'), DayNumber(true)]
    ensures NoDoubledStamp(ATOM, 0, false)
  {
    hide TokensFrom, NoDoubledStamp;
    var f := ATOM;
    Peel(f, 0, Printer, Year(true), 2);
    Peel(f, 2, Printer, Literal('-'), 3);
    Peel(f, 3, Printer, MonthNumber(true), 5);
    Peel(f, 5, Printer, Literal('-'), 6);
    Peel(f, 6, Printer, DayNumber(true), 8);
    Ended(f, Printer);
  }

  lemma Rfc1123Tokens()
    ensures Tokens(RFC_1123, Printer) == [DayName(false), Literal(','), Literal(' '), DayNumber(false), Literal(' '),
                                          MonthName(false), Literal(' '), Year(true)]
    ensures NoDoubledStamp(RFC_1123, 0, false)
  {
    hide TokensFrom, NoDoubledStamp;
    var f := RFC_1123;
    Peel(f, 0, Printer, DayName(false), 1);
    Peel(f, 1, Printer, Literal(','), 2);
    Peel(f, 2, Printer, Literal(' '), 3);
    Peel(f, 3, Printer, DayNumber(false), 4);
    Rfc1123Rest();
  }

  lemma Rfc1123Rest()
    ensures TokensFrom(RFC_1123, 4, false, Printer) == [Literal(' '), MonthName(false), Literal(' '), Year(true)]
    ensures NoDoubledStamp(RFC_1123, 4, false)
  {
    hide TokensFrom, NoDoubledStamp;
    var f := RFC_1123;
    Peel(f, 4, Printer, Literal(' '), 5);
    Peel(f, 5, Printer, MonthName(false), 6);
    Peel(f, 6, Printer, Literal(' '), 7);
    Peel(f, 7, Printer, Year(true), 9);
    Ended(f, Printer);
  }

  lemma Rfc1123Shape()
    ensures WellSeparated(Tokens(RFC_1123, Printer)) && FullFormat(Tokens(RFC_1123, Printer))
  {
    hide Tokens, OpenEnded, HasMonth, HasDay, FullYear, WellSeparated;
    Rfc1123Tokens();
    Rfc1123Separated();
    var toks := Tokens(RFC_1123, Printer);
    HasThese(toks, 5, 3);
    assert FullYear(toks[7]) by {
      FourDigitsAreFull();
    }
    assert Year(false) !in toks;
  }

  lemma Rfc1123Separated()
    ensures WellSeparated(Tokens(RFC_1123, Printer))
  {
    hide Tokens, OpenEnded, WellSeparated;
    Rfc1123Tokens();
    var before := [DayName(false), Literal(','), Literal(' ')];
    var rest := [MonthName(false), Literal(' '), Year(true)];
    assert Tokens(RFC_1123, Printer) == before + [DayNumber(false), Literal(' ')] + rest;
    assert !IsDigit(' ');
    OneOpen(before, DayNumber(false), Literal(' '), rest);
  }

  lemma OneOpen(before: seq<Token>, open: Token, after: Token, rest: seq<Token>)
    requires forall tok :: tok in before || tok in rest ==> ClosedKind(tok)
    requires after.Literal? && !IsDigit(after.c)
    ensures WellSeparated(before + [open, after] + rest)
  {
    hide OpenEnded;
    var toks := before + [open, after] + rest;
    forall i | 0 <= i < |toks| && i != |before| ensures !OpenEnded(toks[i]) {
      OpenOnlyNumbers(toks[i]);
    }
  }

  predicate ClosedKind(tok: Token) {
    tok.DayName? || tok.MonthName? || tok.Year? || tok.Literal? || tok == DayNumber(true)
  }

  lemma FourDigitsAreFull()
    ensures FullYear(Year(true))
  {
  }

  lemma HasThese(toks: seq<Token>, month: nat, day: nat)
    requires month < |toks| && toks[month].MonthName? && day < |toks| && toks[day].DayNumber?
    ensures HasMonth(toks) && HasDay(toks)
  {
  }

  lemma OpenOnlyNumbers(tok: Token)
    ensures ClosedKind(tok) ==> !OpenEnded(tok)
  {
  }

  lemma Rfc850Tokens()
    ensures Tokens(RFC_850, Printer) == [DayName(true), Literal(','), Literal(' '), DayNumber(true), Literal('-'),
                                         MonthName(false), Literal('-'), Year(false)]
    ensures NoDoubledStamp(RFC_850, 0, false)
  {
    hide TokensFrom, NoDoubledStamp;
    var f := RFC_850;
    Peel(f, 0, Printer, DayName(true), 2);
    Peel(f, 2, Printer, Literal(','), 3);
    Peel(f, 3, Printer, Literal(' '), 4);
    Peel(f, 4, Printer, DayNumber(true), 6);
    Rfc850Rest();
  }

  lemma Rfc850Rest()
    ensures TokensFrom(RFC_850, 6, false, Printer) == [Literal('-'), MonthName(false), Literal('-'), Year(false)]
    ensures NoDoubledStamp(RFC_850, 6, false)
  {
    hide TokensFrom, NoDoubledStamp;
    var f := RFC_850;
    Peel(f, 6, Printer, Literal('-'), 7);
    Peel(f, 7, Printer, MonthName(false), 8);
    Peel(f, 8, Printer, Literal('-'), 9);
    Peel(f, 9, Printer, Year(false), 10);
    Ended(f, Printer);
  }

  lemma Rfc850Shape()
    ensures WellSeparated(Tokens(RFC_850, Printer)) && ShortFormat(Tokens(RFC_850, Printer))
  {
    hide Tokens, HasMonth, HasDay, WellSeparated, OpenEnded, FullYear;
    Rfc850Tokens();
    var toks := Tokens(RFC_850, Printer);
    HasThese(toks, 5, 3);
    assert toks[7] == Year(false);
    forall tok | tok in toks ensures !OpenEnded(tok) && !FullYear(tok) {
      OpenOnlyNumbers(tok);
      NotFull(tok);
    }
    NoneOpen(toks);
  }

  lemma NotFull(tok: Token)
    requires tok.DayName? || tok.MonthName? || tok.DayNumber? || tok.Literal? || tok == Year(false)
    ensures !FullYear(tok)
  {
  }

  lemma NoneOpen(toks: seq<Token>)
    requires forall tok :: tok in toks ==> !OpenEnded(tok)
    ensures WellSeparated(toks)
  {
  }

  /** A number told by the first three letters, in any case. */
  function MonthByLetters(a: char, b: char, c: char): int {
    if a == 'j' then (if b == 'a' then 0 else if c == 'n' then 5 else 6)
    else if a == 'f' then 1
    else if a == 'm' then (if c == 'r' then 2 else 4)
    else if a == 'a' then (if b == 'p' then 3 else 7)
    else if a == 's' then 8 else if a == 'o' then 9 else if a == 'n' then 10 else 11
  }

  function DayByLetters(a: char, b: char): int {
    if a == 's' then (if b == 'u' then 0 else 6)
    else if a == 'm' then 1
    else if a == 't' then (if b == 'u' then 2 else 4)
    else if a == 'w' then 3 else 5
  }

  predicate SpellsMonth(name: string, k: int) {
    3 <= |name| && MonthByLetters(Lower(name[0]), Lower(name[1]), Lower(name[2])) == k
  }

  predicate SpellsDay(name: string, k: int) {
    3 <= |name| && DayByLetters(Lower(name[0]), Lower(name[1])) == k
  }

  lemma MonthsDistinct(names: seq<string>)
    requires |names| == 12 && forall k :: 0 <= k < 12 ==> SpellsMonth(names[k], k)
    ensures PrefixFree(names)
  {
  }

  lemma DaysDistinct(names: seq<string>)
    requires |names| == 7 && forall k :: 0 <= k < 7 ==> SpellsDay(names[k], k)
    ensures PrefixFree(names)
  {
  }

  lemma DefaultNamesDistinct()
    ensures DistinctNames(DEFAULT_NAMES)
  {
    hide PrefixFree;
    DaysDistinct(DEFAULT_NAMES.dayShort);
    DaysDistinct(DEFAULT_NAMES.dayLong);
    MonthsDistinct(DEFAULT_NAMES.monthShort);
    MonthsDistinct(DEFAULT_NAMES.monthLong);
  }

  /** A year that does not have four digits is not taken back whole, so that something else follows its digits. */
  lemma YearNotBack(time: int, names: Names, rest: string, value: string, pos: nat)
    requires !(1000 <= YearOf(DayNumberOf(time)) <= 9999) && (rest != "" ==> !IsDigit(rest[0]))
    requires pos <= |value| && value[pos..] == Text(Year(true), time, names) + rest
    ensures NotTakenWhole(Year(true), value, pos)
  {
    hide YearOf, NatText, NatValue, DigitRun, IsDigit, Pow10;
    var y, s := YearOf(DayNumberOf(time)), Text(Year(true), time, names);
    TextInPlace(s, rest, value, pos);
    SmallPowers();
    if y < 0 {
      DashIsNoDigit();
      DigitRunIs(value, pos, 4, 0);
    } else {
      TextLengths(y);
      assert forall i :: pos <= i < pos + |s| ==> IsDigit(value[i]);
      DigitRunIs(value, pos, 4, if |s| < 4 then |s| else 4);
    }
  }

  lemma DashIsNoDigit()
    ensures !IsDigit('-')
  {
  }

  lemma DigitIsNoSpace(c: char)
    requires IsDigit(c)
    ensures !IsSpace(c)
  {
  }

  /** The number at a position is missing, or a digit is left behind it. */
  predicate NotTakenWhole(tok: Token, value: string, pos: nat)
    requires pos <= |value|
  {
    var r := GetNumber(tok, value, pos);
    r.Err? || (r.value.1 < |value| && IsDigit(value[r.value.1]))
  }

  /** Then, if the token is the last or stands before a dash, reading fails or stops before a digit. */
  lemma TailFails(toks: seq<Token>, value: string, at: Reading, names: Names)
    requires toks != [] && toks[0].Year? && (1 < |toks| ==> toks[1] == Literal('-'))
    requires at.pos <= |value| && NotTakenWhole(toks[0], value, at.pos)
    ensures (var r := ReadTokens(toks, value, at, names);
             r.Err? || (r.value.pos < |value| && IsDigit(value[r.value.pos])))
  {
    hide GetNumber, IsDigit, StoreNumber;
    DashIsNoDigit();
    if 1 < |toks| {
      assert toks[1..][0] == Literal('-');
    }
  }

  /** And the value is not parsed, whatever tokens have been read before. */
  lemma FailsAt(format: string, toks: seq<Token>, k: nat, names: Names, value: string, at: Reading, nowYear: int,
                setting: Option<Cutoff>)
    requires toks == Tokens(format, Parser) && k < |toks| && toks[k].Year? && value != "" && at.pos <= |value|
    requires k + 1 < |toks| ==> toks[k + 1] == Literal('-')
    requires ReadTokens(toks, value, Reading(0, NOTHING), names) == ReadTokens(toks[k..], value, at, names)
    requires NotTakenWhole(toks[k], value, at.pos)
    ensures Parse(format, value, names, nowYear, setting).Err?
  {
    hide IsDigit, IsSpace, TokensFrom, DateOfFields, ReadTokens, ResolveCutoff, NotTakenWhole;
    TailFails(toks[k..], value, at, names);
    var r := ReadTokens(toks[k..], value, at, names);
    if r.Ok? {
      DigitIsNoSpace(value[r.value.pos]);
    }
  }

  /** ATOM (also ISO_8601 and W3C) brings back exactly the days of the years 1000 to 9999. */
  lemma AtomRoundTrip(time: int, nowYear: int, setting: Option<Cutoff>)
    ensures Parse(ATOM, Print(Tokens(ATOM, Printer), time, DEFAULT_NAMES), DEFAULT_NAMES, nowYear, setting)
              == Ok(Some(DayNumberOf(time)))
       <==> 1000 <= YearOf(DayNumberOf(time)) <= 9999
  {
    hide TokensFrom, Print, Parse, YearOf, DayNumberOf, DistinctNames, NoDoubledStamp;
    AtomTokens();
    DefaultNamesDistinct();
    var toks := Tokens(ATOM, Printer);
    assert toks[2].MonthNumber? && toks[4].DayNumber? && FullYear(toks[0]);
    if 1000 <= YearOf(DayNumberOf(time)) <= 9999 {
      FullRoundTrip(ATOM, time, DEFAULT_NAMES, nowYear, setting);
    } else {
      AtomFails(time, nowYear, setting);
    }
  }

  lemma AtomFails(time: int, nowYear: int, setting: Option<Cutoff>)
    requires !(1000 <= YearOf(DayNumberOf(time)) <= 9999)
    ensures Parse(ATOM, Print(Tokens(ATOM, Printer), time, DEFAULT_NAMES), DEFAULT_NAMES, nowYear, setting).Err?
  {
    hide TokensFrom, Parse, YearOf, DayNumberOf, DistinctNames, NoDoubledStamp, NotTakenWhole, Text, IsDigit;
    hide ReadTokens;
    AtomTokens();
    DefaultNamesDistinct();
    SameTokens(ATOM, 0, false);
    var toks := Tokens(ATOM, Printer);
    var value, rest := Print(toks, time, DEFAULT_NAMES), Print(toks[1..], time, DEFAULT_NAMES);
    NumberLeavesText(toks, 0, time, DEFAULT_NAMES);
    LiteralText('-', time, DEFAULT_NAMES);
    DashIsNoDigit();
    assert rest == Text(Literal('-'), time, DEFAULT_NAMES) + Print(toks[1..][1..], time, DEFAULT_NAMES);
    assert toks[0..] == toks && value[0..] == value;
    YearNotBack(time, DEFAULT_NAMES, rest, value, 0);
    FailsAt(ATOM, toks, 0, DEFAULT_NAMES, value, Reading(0, NOTHING), nowYear, setting);
  }

  /** So does RFC_1123 (also RFC_2822) with the default names, its day unpadded and its year last. */
  lemma Rfc1123RoundTrip(time: int, nowYear: int, setting: Option<Cutoff>)
    ensures Parse(RFC_1123, Print(Tokens(RFC_1123, Printer), time, DEFAULT_NAMES), DEFAULT_NAMES, nowYear, setting)
              == Ok(Some(DayNumberOf(time)))
       <==> 1000 <= YearOf(DayNumberOf(time)) <= 9999
  {
    hide TokensFrom, Print, Parse, YearOf, DayNumberOf, DistinctNames, NoDoubledStamp;
    hide WellSeparated, FullFormat;
    Rfc1123Tokens();
    Rfc1123Shape();
    DefaultNamesDistinct();
    if 1000 <= YearOf(DayNumberOf(time)) <= 9999 {
      FullRoundTrip(RFC_1123, time, DEFAULT_NAMES, nowYear, setting);
    } else {
      Rfc1123Fails(time, nowYear, setting);
    }
  }

  /** Only years and times can be out of range. */
  lemma OthersInRange(tok: Token, time: int)
    requires !tok.Year? && !tok.Millis? && !tok.Ticks?
    ensures InRange(tok, time)
  {
  }

  lemma LastAlone(toks: seq<Token>, time: int, names: Names)
    requires toks != []
    ensures Print(toks[|toks| - 1..], time, names) == Text(toks[|toks| - 1], time, names)
  {
    hide Text;
    var last := toks[|toks| - 1..];
    assert last == [toks[|toks| - 1]];
    PrintOne(last[0], time, names);
  }

  lemma Rfc1123Fails(time: int, nowYear: int, setting: Option<Cutoff>)
    requires !(1000 <= YearOf(DayNumberOf(time)) <= 9999)
    ensures Parse(RFC_1123, Print(Tokens(RFC_1123, Printer), time, DEFAULT_NAMES), DEFAULT_NAMES, nowYear, setting).Err?
  {
    hide TokensFrom, Print, Parse, YearOf, DayNumberOf, DistinctNames, NoDoubledStamp, NotTakenWhole, Text, IsDigit;
    hide ReadTokens, InRange, FullFormat, WellSeparated;
    Rfc1123Tokens();
    Rfc1123Shape();
    DefaultNamesDistinct();
    SameTokens(RFC_1123, 0, false);
    var toks := Tokens(RFC_1123, Printer);
    var value := Print(toks, time, DEFAULT_NAMES);
    NumberLeavesText(toks, 7, time, DEFAULT_NAMES);
    LastAlone(toks, time, DEFAULT_NAMES);
    forall i | 0 <= i < 7 ensures InRange(toks[i], time) {
      OthersInRange(toks[i], time);
    }
    assert value[0..] == value;
    var at := FirstBack(toks, 7, time, DEFAULT_NAMES, value, Reading(0, NOTHING));
    assert Text(Year(true), time, DEFAULT_NAMES) + "" == Text(Year(true), time, DEFAULT_NAMES);
    YearNotBack(time, DEFAULT_NAMES, "", value, at.pos);
    FailsAt(RFC_1123, toks, 7, DEFAULT_NAMES, value, at, nowYear, setting);
  }

  /**
   RFC_850, with long day names and a two-digit year: exactly the hundred years of the window survive, as far
   as they are printed without a sign (from 1900 on, or ending in 00) and are not years 0 to 99.
   */
  lemma Rfc850RoundTrip(time: int, nowYear: int, setting: Option<Cutoff>)
    requires 0 <= nowYear
    ensures (var y := YearOf(DayNumberOf(time));
             Parse(RFC_850, Print(Tokens(RFC_850, Printer), time, DEFAULT_NAMES), DEFAULT_NAMES, nowYear, setting)
               == Ok(Some(DayNumberOf(time)))
             <==> InWindow(y, nowYear, ResolveCutoff(setting, nowYear)) && (1900 <= y || y % 100 == 0) && !ShortYear(y))
  {
    hide TokensFrom, Print, Parse, YearOf, DayNumberOf, DistinctNames, NoDoubledStamp, ShortYearNumber, InWindow;
    hide ResolveCutoff, ShortYear;
    hide WellSeparated, ShortFormat;
    Rfc850Tokens();
    Rfc850Shape();
    DefaultNamesDistinct();
    var n := DayNumberOf(time);
    ShortYearNumberIs(n);
    if ShortYear(YearOf(n)) {
      var value := Print(Tokens(RFC_850, Printer), time, DEFAULT_NAMES);
      ShortYearsNeverRead(RFC_850, value, DEFAULT_NAMES, nowYear, setting);
    } else if 0 <= ShortYearNumber(n) {
      ShortRoundTrip(RFC_850, time, DEFAULT_NAMES, nowYear, setting);
    } else {
      Rfc850Fails(time, nowYear, setting);
    }
  }

  /** No value is ever read as a day of the years 0 to 99. */
  lemma ShortYearsNeverRead(format: string, value: string, names: Names, nowYear: int, setting: Option<Cutoff>)
    ensures (var r := Parse(format, value, names, nowYear, setting);
             r.Ok? && r.value.Some? ==> !ShortYear(YearOf(r.value.value)))
  {
    hide TokensFrom, ReadTokens, YearOf, DateOfFields, ResolveCutoff, NamesDay, IsSpace;
    var read := ReadTokens(Tokens(format, Parser), value, Reading(0, NOTHING), names);
    var r := Parse(format, value, names, nowYear, setting);
    if read.Ok? && r.Ok? && r.value.Some? {
      var cutoff := ResolveCutoff(setting, nowYear);
      DateOfFieldsIs(read.value.fields, nowYear, cutoff, r.value.value);
      NamedIsNotShort(read.value.fields, nowYear, cutoff, r.value.value);
    }
  }

  lemma NamedIsNotShort(f: Fields, nowYear: int, cutoff: int, n: int)
    requires NamesDay(f, nowYear, cutoff, n)
    ensures !ShortYear(YearOf(n))
  {
  }

  /** A sign behind the padding zero is no second digit. */
  lemma SignedYearNotBack(time: int, names: Names, value: string, pos: nat)
    requires ShortYearNumber(DayNumberOf(time)) < 0
    requires pos <= |value| && value[pos..] == Text(Year(false), time, names)
    ensures NotTakenWhole(Year(false), value, pos)
  {
    hide ShortYearNumber, NatText, NatValue, DigitRun, DayNumberOf;
    var s := Text(Year(false), time, names);
    assert s[0] == '0' && s[1] == '-';
    assert s + "" == s;
    TextInPlace(s, "", value, pos);
    DigitRunIs(value, pos, 2, 1);
  }

  lemma Rfc850Fails(time: int, nowYear: int, setting: Option<Cutoff>)
    requires ShortYearNumber(DayNumberOf(time)) < 0
    ensures Parse(RFC_850, Print(Tokens(RFC_850, Printer), time, DEFAULT_NAMES), DEFAULT_NAMES, nowYear, setting).Err?
  {
    hide TokensFrom, Print, Parse, ShortYearNumber, DistinctNames, NoDoubledStamp, NotTakenWhole, Text, IsDigit;
    hide ReadTokens, InRange, ShortFormat, WellSeparated;
    Rfc850Tokens();
    Rfc850Shape();
    DefaultNamesDistinct();
    SameTokens(RFC_850, 0, false);
    var toks := Tokens(RFC_850, Printer);
    var value := Print(toks, time, DEFAULT_NAMES);
    NumberLeavesText(toks, 7, time, DEFAULT_NAMES);
    LastAlone(toks, time, DEFAULT_NAMES);
    forall i | 0 <= i < 7 ensures InRange(toks[i], time) {
      OthersInRange(toks[i], time);
    }
    assert value[0..] == value;
    var at := FirstBack(toks, 7, time, DEFAULT_NAMES, value, Reading(0, NOTHING));
    SignedYearNotBack(time, DEFAULT_NAMES, value, at.pos);
    FailsAt(RFC_850, toks, 7, DEFAULT_NAMES, value, at, nowYear, setting);
  }

  // ---------- the format TIMESTAMP ----------

  const TIMESTAMP := "@"

  lemma TimestampTokens(reader: Reader)
    ensures Tokens(TIMESTAMP, reader) == [Millis] && NoDoubledStamp(TIMESTAMP, 0, false)
  {
  }

  lemma PrintOne(tok: Token, time: int, names: Names)
    ensures Print([tok], time, names) == Text(tok, time, names)
  {
  }

  /** A number that is not entirely taken makes the value unreadable. */
  lemma TimestampRejected(time: int, value: string, names: Names, nowYear: int, setting: Option<Cutoff>)
    requires value == IntText(time) && !(0 <= time < Pow10(14))
    ensures Parse(TIMESTAMP, value, names, nowYear, setting).Err?
  {
    hide NatText, Pow10, TokensFrom, DateOfFields, StoreNumber, NatValue;
    TimestampTokens(Parser);
    assert [Millis][1..] == [];
    if time < 0 {
      assert !IsDigit(value[0]);
    } else {
      TextLengths(time);
      DigitRunIs(value, 0, 14, 14);
      assert IsDigit(value[14]);
    }
  }

  /**
   The parser takes at most 14 digits of a timestamp: exactly the times from 1970 up to (not
   including) 10^14 ms, in the year 5138, come back.
   */
  lemma TimestampExact(time: int, names: Names, nowYear: int, setting: Option<Cutoff>)
    ensures Parse(TIMESTAMP, Print(Tokens(TIMESTAMP, Printer), time, names), names, nowYear, setting)
              == Ok(Some(DayNumberOf(time)))
       <==> 0 <= time < Pow10(14)
  {
    hide TokensFrom, Pow10, Parse, YearOf, NoDoubledStamp, IntText, AllReadable, Print, FixesDate;
    TimestampTokens(Printer);
    PrintOne(Millis, time, names);
    if 0 <= time < Pow10(14) {
      TimestampReadable(time, names);
      ParseUndoesPrint(TIMESTAMP, time, names, nowYear, setting);
      TimestampFixes(time, nowYear, ResolveCutoff(setting, nowYear));
    } else {
      TimestampRejected(time, IntText(time), names, nowYear, setting);
    }
  }

  lemma TimestampReadable(time: int, names: Names)
    requires 0 <= time < Pow10(14)
    ensures AllReadable([Millis], time, names)
  {
    hide NatText, Pow10, Text;
    assert [Millis][1..] == [];
    assert AllReadable([], time, names);
    NumberLength(Millis, time, names);
  }

  lemma TimestampFixes(time: int, nowYear: int, cutoff: int)
    requires 0 <= time
    ensures FixesDate([Millis], DayNumberOf(time), nowYear, cutoff)
  {
    hide YearOf;
    var n := DayNumberOf(time);
    assert [Millis][0].Millis?;
    assert YearRead([Millis], n) == YearOf(n);
    Since1970(n);
  }

  lemma Since1970(n: int)
    requires 0 <= n
    ensures 1970 <= YearOf(n)
  {
    hide YearOf;
    if YearOf(n) < 1970 {
      DayFromYearMonotone(YearOf(n) + 1, 1970);
    }
  }
}
