/**
 Parsing undoes printing: exactly when a printed date is read back as the same day.
 */
module RoundTrip {
  import opened Wrappers
  import opened Calendar
  import opened Decimal
  import opened DateTokens
  import opened FormatDate
  import opened ParseDate
  import opened NameSearch
  import opened DateCheck

  // ---------- one token ----------

  predicate IsNumber(tok: Token) {
    !tok.DayName? && !tok.MonthName? && !tok.Literal?
  }

  /** The number a token stands for. */
  function NumberMeant(tok: Token, time: int): int {
    var n := DayNumberOf(time);
    match tok
    case DayNumber(_) => DayOf(n)
    case YearDay(_) => OrdinalOf(n)
    case MonthNumber(_) => MonthOf(n) + 1
    case Year(four) => if four then YearOf(n) else ShortYearNumber(n)
    case Millis => time
    case Ticks => TicksOf(time)
    case _ => 0
  }

  /** A printed number is taken back whole: digits only, as many as the parser takes, and no digit to follow. */
  predicate ReadableNumber(tok: Token, s: string, rest: string) {
    && AllDigits(s)
    && FewestDigits(tok) <= |s| <= MostDigits(tok)
    && (|s| == MostDigits(tok) || rest == "" || !IsDigit(rest[0]))
  }

  /** No other name that stands at the same place is looked at first. */
  predicate ReadableName(names: seq<string>, k: nat, rest: string)
    requires k < |names|
  {
    forall j :: 0 <= j < |names| && j != k && MatchesAt(names[k] + rest, 0, names[j]) ==> Before(names, k, j)
  }

  /** No longer name stands at the same place. */
  predicate ReadableLength(names: seq<string>, k: nat, rest: string)
    requires k < |names|
  {
    forall j :: 0 <= j < |names| && MatchesAt(names[k] + rest, 0, names[j]) ==> |names[j]| <= |names[k]|
  }

  /** The text of a token, with the given text behind it, can be read back. */
  predicate Readable(tok: Token, time: int, names: Names, rest: string) {
    var n := DayNumberOf(time);
    match tok
    case DayName(long) => ReadableLength(if long then names.dayLong else names.dayShort, WeekDay(n), rest)
    case MonthName(long) => ReadableName(if long then names.monthLong else names.monthShort, MonthOf(n), rest)
    case Literal(_) => true
    case _ => ReadableNumber(tok, Text(tok, time, names), rest)
  }

  /** What reading a token back does to the fields. */
  function Effect(tok: Token, time: int, f: Fields): Fields {
    if tok.MonthName? then f.(month := MonthOf(DayNumberOf(time)) + 1)
    else StoreNumber(tok, NumberMeant(tok, time), f)
  }

  lemma TextInPlace(s: string, rest: string, value: string, pos: nat)
    requires pos <= |value| && value[pos..] == s + rest
    ensures |value| == pos + |s| + |rest| && value[pos..pos + |s|] == s
    ensures forall i :: pos <= i < pos + |s| ==> value[i] == s[i - pos]
    ensures rest != "" ==> value[pos + |s|] == rest[0]
  {
  }

  lemma GetNumberBack(tok: Token, s: string, rest: string, value: string, pos: nat)
    requires IsNumber(tok) && s != "" && pos <= |value| && value[pos..] == s + rest
    ensures (var r := GetNumber(tok, value, pos);
             (r.Ok? && r.value.1 == pos + |s| <==> ReadableNumber(tok, s, rest))
             && (ReadableNumber(tok, s, rest) ==> r.value.0 == NatValue(s)))
  {
    hide MostDigits, FewestDigits, IsDigit, NatValue, DigitRun;
    TextInPlace(s, rest, value, pos);
    if ReadableNumber(tok, s, rest) {
      DigitRunIs(value, pos, MostDigits(tok), |s|);
    } else if DigitRun(value, pos, MostDigits(tok)) == |s| {
      TooFewDigits(tok, s, rest, value, pos);
    }
  }

  /** A run as long as the text is the text, which is then readable but for having too few digits. */
  lemma TooFewDigits(tok: Token, s: string, rest: string, value: string, pos: nat)
    requires pos <= |value| && value[pos..] == s + rest && DigitRun(value, pos, MostDigits(tok)) == |s|
    requires !ReadableNumber(tok, s, rest)
    ensures |s| < FewestDigits(tok)
  {
    hide MostDigits, FewestDigits, IsDigit, DigitRun;
    TextInPlace(s, rest, value, pos);
    assert forall i :: 0 <= i < |s| ==> s[i] == value[pos + i];
  }

  /** The digits printed denote the number meant, whenever they are digits at all. */
  lemma TextDenotes(tok: Token, time: int, names: Names)
    requires IsNumber(tok)
    ensures Text(tok, time, names) != ""
    ensures AllDigits(Text(tok, time, names)) ==> NatValue(Text(tok, time, names)) == NumberMeant(tok, time)
  {
    hide YearOf, MonthOf, DayOf, OrdinalOf, TicksOf, NatText, NatValue, PadLeft, ShortYearNumber;
    var v := NumberMeant(tok, time);
    if v >= 0 {
      var s := Text(tok, time, names);
      assert s == NatText(v) || s == "0" + NatText(v) || s == PadLeft(NatText(v), 2) || s == PadLeft(NatText(v), 3);
      NatValueOfText(v);
      PadLeftValue(v, 2);
      PadLeftValue(v, 3);
      OneZero(NatText(v));
    } else {
      PadMinus(-v, 2);
      PadMinus(-v, 3);
    }
  }

  lemma OneZero(s: string)
    requires AllDigits(s)
    ensures AllDigits("0" + s) && NatValue("0" + s) == NatValue(s)
  {
    LeadingZeros(1, s);
    assert Zeros(1) == "0";
  }

  lemma PadMinus(v: nat, len: nat)
    ensures !AllDigits("-" + NatText(v)) && !AllDigits("0" + ("-" + NatText(v)))
    ensures !AllDigits(PadLeft("-" + NatText(v), len))
  {
    var s := "-" + NatText(v);
    assert !IsDigit(s[0]);
    assert ("0" + s)[1] == s[0];
    if |s| < len {
      assert (Zeros(len - |s|) + s)[len - |s|] == s[0];
    }
  }

  lemma MatchesMoved(value: string, pos: nat, text: string, name: string)
    requires pos <= |value| && value[pos..] == text
    ensures MatchesAt(value, pos, name) <==> MatchesAt(text, 0, name)
  {
  }

  lemma MatchesSelf(name: string, rest: string)
    ensures MatchesAt(name + rest, 0, name)
  {
  }

  lemma MonthNameBack(names: seq<string>, k: nat, rest: string, value: string, pos: nat)
    requires k < |names| && pos <= |value| && value[pos..] == names[k] + rest
    ensures GetName(names, value, pos) == Ok((k, pos + |names[k]|)) <==> ReadableName(names, k, rest)
  {
    hide MatchesAt, GetName;
    forall name ensures MatchesAt(value, pos, name) <==> MatchesAt(names[k] + rest, 0, name) {
      MatchesMoved(value, pos, names[k] + rest, name);
    }
    MatchesSelf(names[k], rest);
    GetNameFinds(names, value, pos, k);
  }

  lemma DayNameBack(names: seq<string>, k: nat, rest: string, value: string, pos: nat)
    requires k < |names| && pos <= |value| && value[pos..] == names[k] + rest
    ensures GetName(names, value, pos).Ok?
    ensures GetName(names, value, pos).value.1 == pos + |names[k]| <==> ReadableLength(names, k, rest)
  {
    hide MatchesAt, GetName;
    forall name ensures MatchesAt(value, pos, name) <==> MatchesAt(names[k] + rest, 0, name) {
      MatchesMoved(value, pos, names[k] + rest, name);
    }
    MatchesSelf(names[k], rest);
    GetNameEnds(names, value, pos, k);
  }

  /**
   A printed token is read back, with its end and its meaning, exactly when it is readable; a month
   name read back with the right end and month counts, a day name with the right end.
   */
  lemma TokenBack(tok: Token, time: int, names: Names, rest: string, value: string, pos: nat, f: Fields)
    requires pos <= |value| && value[pos..] == Text(tok, time, names) + rest
    ensures Readable(tok, time, names, rest) ==>
              ReadToken(tok, value, pos, names, f) == Ok(Reading(pos + |Text(tok, time, names)|, Effect(tok, time, f)))
    ensures !Readable(tok, time, names, rest) ==>
              ReadToken(tok, value, pos, names, f) != Ok(Reading(pos + |Text(tok, time, names)|, Effect(tok, time, f)))
  {
    hide YearOf, MonthOf, DayOf, WeekDay, OrdinalOf, TicksOf, NatText, NatValue, NumberText, IntText, GetNumber;
    hide GetName, ReadableName, ReadableLength, ReadableNumber, MostDigits, StoreNumber, NumberMeant;
    var n := DayNumberOf(time);
    match tok
    case DayName(long) =>
      DayNameBack(if long then names.dayLong else names.dayShort, WeekDay(n), rest, value, pos);
      DayNameEffect(tok, time, f);
    case MonthName(long) =>
      MonthNameBack(if long then names.monthLong else names.monthShort, MonthOf(n), rest, value, pos);
    case Literal(c) =>
      assert value[pos] == value[pos..][0];
      DayNameEffect(tok, time, f);
    case _ =>
      TextDenotes(tok, time, names);
      GetNumberBack(tok, Text(tok, time, names), rest, value, pos);
      DigitsWhenReadable(tok, Text(tok, time, names), rest);
  }

  lemma DigitsWhenReadable(tok: Token, s: string, rest: string)
    ensures ReadableNumber(tok, s, rest) ==> AllDigits(s)
  {
  }

  lemma DayNameEffect(tok: Token, time: int, f: Fields)
    requires tok.DayName? || tok.Literal?
    ensures Effect(tok, time, f) == f
  {
  }

  // ---------- all tokens ----------

  predicate AllReadable(toks: seq<Token>, time: int, names: Names) {
    toks == [] ||
    (Readable(toks[0], time, names, Print(toks[1..], time, names)) && AllReadable(toks[1..], time, names))
  }

  function Effects(toks: seq<Token>, time: int, f: Fields): Fields
    decreases |toks|
  {
    if toks == [] then f else Effects(toks[1..], time, Effect(toks[0], time, f))
  }

  /** Readable tokens are read back one by one to the end of the value. */
  lemma {:induction false} TokensBack(toks: seq<Token>, time: int, names: Names, value: string, start: Reading)
    requires AllReadable(toks, time, names)
    requires start.pos <= |value| && value[start.pos..] == Print(toks, time, names)
    ensures ReadTokens(toks, value, start, names) == Ok(Reading(|value|, Effects(toks, time, start.fields)))
    decreases |toks|
  {
    hide Text, Readable, ReadToken, Effect;
    if toks != [] {
      var text, rest := Text(toks[0], time, names), Print(toks[1..], time, names);
      TokenBack(toks[0], time, names, rest, value, start.pos, start.fields);
      var next := Reading(start.pos + |text|, Effect(toks[0], time, start.fields));
      assert value[next.pos..] == value[start.pos..][|text|..] == rest;
      TokensBack(toks[1..], time, names, value, next);
    }
  }

  // ---------- which fields are known ----------

  predicate HasYearDay(toks: seq<Token>) {
    exists i :: 0 <= i < |toks| && toks[i].YearDay?
  }

  predicate HasMonth(toks: seq<Token>) {
    exists i :: 0 <= i < |toks| && (toks[i].MonthNumber? || toks[i].MonthName? || toks[i].Millis? || toks[i].Ticks?)
  }

  predicate HasDay(toks: seq<Token>) {
    exists i :: 0 <= i < |toks| && (toks[i].DayNumber? || toks[i].Millis? || toks[i].Ticks?)
  }

  /** The year field as the last token that carries a year leaves it. */
  function YearRead(toks: seq<Token>, n: int): int {
    if toks == [] then -1
    else
      var last := toks[|toks| - 1];
      if last.Year? && !last.four then ShortYearNumber(n)
      else if last.Year? || last.Millis? || last.Ticks? then YearOf(n)
      else YearRead(toks[..|toks| - 1], n)
  }

  lemma TruncTicks(time: int)
    ensures JsTrunc(TicksOf(time) - TICKS_TO_1970, 10000) == time
  {
  }

  /** The effect of one token, field by field. */
  lemma EffectIs(tok: Token, time: int, f: Fields)
    ensures (var n := DayNumberOf(time); var g := Effect(tok, time, f);
      && g.doy == (if tok.YearDay? then OrdinalOf(n) else f.doy)
      && g.month == (if tok.MonthNumber? || tok.MonthName? || tok.Millis? || tok.Ticks? then MonthOf(n) + 1
                     else f.month)
      && g.day == (if tok.DayNumber? || tok.Millis? || tok.Ticks? then DayOf(n) else f.day)
      && g.year == (if tok.Year? && !tok.four then ShortYearNumber(n)
                    else if tok.Year? || tok.Millis? || tok.Ticks? then YearOf(n) else f.year))
  {
    hide YearOf, MonthOf, DayOf, OrdinalOf, TicksOf, JsTrunc, DayNumberOf;
    TruncTicks(time);
  }

  lemma {:induction false} EffectsSnoc(toks: seq<Token>, time: int, f: Fields)
    requires toks != []
    ensures Effects(toks, time, f) == Effect(toks[|toks| - 1], time, Effects(toks[..|toks| - 1], time, f))
    decreases |toks|
  {
    hide Effect;
    if |toks| > 1 {
      EffectsSnoc(toks[1..], time, Effect(toks[0], time, f));
      assert toks[1..][..|toks| - 2] == toks[..|toks| - 1][1..];
    }
  }

  lemma HasSnoc(init: seq<Token>, last: Token)
    ensures HasYearDay(init + [last]) <==> HasYearDay(init) || HasYearDay([last])
    ensures HasMonth(init + [last]) <==> HasMonth(init) || HasMonth([last])
    ensures HasDay(init + [last]) <==> HasDay(init) || HasDay([last])
  {
    var toks := init + [last];
    assert forall i :: 0 <= i < |init| ==> toks[i] == init[i];
    assert toks[|init|] == last && [last][0] == last;
  }

  /** The fields after reading back a printed date. */
  lemma {:induction false} EffectsAre(toks: seq<Token>, time: int)
    ensures (var n := DayNumberOf(time); var g := Effects(toks, time, NOTHING);
      && g.doy == (if HasYearDay(toks) then OrdinalOf(n) else -1)
      && g.month == (if HasMonth(toks) then MonthOf(n) + 1 else -1)
      && g.day == (if HasDay(toks) then DayOf(n) else -1)
      && g.year == YearRead(toks, n))
    decreases |toks|
  {
    hide YearOf, MonthOf, DayOf, OrdinalOf, DayNumberOf, ShortYearNumber, Effect;
    if toks != [] {
      var init, last := toks[..|toks| - 1], toks[|toks| - 1];
      EffectsSnoc(toks, time, NOTHING);
      EffectsAre(init, time);
      EffectIs(last, time, Effects(init, time, NOTHING));
      assert toks == init + [last];
      HasSnoc(init, last);
    }
  }

  // ---------- the round trip ----------

  /**
   A format fixes the date: its last year token yields the year of day n (or, without one, "now" is in
   that year), and it has a day of the year, or a month and a day.
   */
  predicate FixesDate(toks: seq<Token>, n: int, nowYear: int, cutoff: int) {
    && ResolveYear(YearRead(toks, n), nowYear, cutoff) == YearOf(n) && !ShortYear(YearOf(n))
    && (HasYearDay(toks) || (HasMonth(toks) && HasDay(toks)))
  }

  lemma OrdinalIs(n: int)
    requires !ShortYear(YearOf(n))
    ensures OrdinalOf(n) == DayInYear(n) + 1
  {
    hide DayFromYear, YearOf, MonthOf, DayOf, IsLeap, MonthLength;
    MakeDayOfCivil(n);
    DaysBeforeMonotone(YearOf(n), 0, 0);
    assert YearOf(n) + 0 / 12 == YearOf(n) && 0 % 12 == 0;
  }

  /** The fields read back name the day exactly when the format fixes it. */
  lemma EffectsName(toks: seq<Token>, time: int, nowYear: int, cutoff: int)
    ensures NamesDay(Effects(toks, time, NOTHING), nowYear, cutoff, DayNumberOf(time))
       <==> FixesDate(toks, DayNumberOf(time), nowYear, cutoff)
  {
    hide YearOf, MonthOf, DayOf, OrdinalOf, DayNumberOf, Effects, HasYearDay, HasMonth, HasDay, YearRead, ShortYear;
    hide ResolveYear;
    var n := DayNumberOf(time);
    EffectsAre(toks, time);
    if !ShortYear(YearOf(n)) {
      OrdinalIs(n);
    }
  }

  lemma {:induction false} NumberLeavesText(toks: seq<Token>, i: nat, time: int, names: Names)
    requires i < |toks| && IsNumber(toks[i])
    ensures Print(toks, time, names) != ""
  {
    hide Text;
    if i == 0 {
      TextDenotes(toks[0], time, names);
    } else {
      NumberLeavesText(toks[1..], i - 1, time, names);
    }
  }

  lemma FixedDateLeavesText(toks: seq<Token>, n: int, nowYear: int, cutoff: int, time: int, names: Names)
    requires FixesDate(toks, n, nowYear, cutoff)
    ensures Print(toks, time, names) != ""
  {
    var i :| 0 <= i < |toks| && (toks[i].YearDay? || toks[i].DayNumber? || toks[i].Millis? || toks[i].Ticks?);
    NumberLeavesText(toks, i, time, names);
  }

  /**
   Parsing undoes printing: under a format without doubled stamps whose printed tokens are readable,
   the printed date is parsed as its day if and only if the format fixes the date.
   */
  lemma ParseUndoesPrint(format: string, time: int, names: Names, nowYear: int, setting: Option<Cutoff>)
    requires NoDoubledStamp(format, 0, false)
    requires AllReadable(Tokens(format, Printer), time, names)
    ensures Parse(format, Print(Tokens(format, Printer), time, names), names, nowYear, setting)
              == Ok(Some(DayNumberOf(time)))
       <==> FixesDate(Tokens(format, Printer), DayNumberOf(time), nowYear, ResolveCutoff(setting, nowYear))
  {
    hide TokensFrom, Print, ReadTokens, Effects, FixesDate, DateOfFields, ResolveCutoff, DayNumberOf, NamesDay;
    hide NoDoubledStamp, AllReadable;
    var toks := Tokens(format, Printer);
    var value := Print(toks, time, names);
    var cutoff := ResolveCutoff(setting, nowYear);
    SameTokens(format, 0, false);
    assert value[0..] == value;
    TokensBack(toks, time, names, value, Reading(0, NOTHING));
    DateOfFieldsIs(Effects(toks, time, NOTHING), nowYear, cutoff, DayNumberOf(time));
    EffectsName(toks, time, nowYear, cutoff);
    if FixesDate(toks, DayNumberOf(time), nowYear, cutoff) {
      FixedDateLeavesText(toks, DayNumberOf(time), nowYear, cutoff, time, names);
    }
  }

  /** Printing and then parsing, with the loops themselves. */
  method PrintAndParse(format: string, time: int, names: Names, nowYear: int, setting: Option<Cutoff>)
    returns (r: Result<Option<int>, ParseError>)
    requires NoDoubledStamp(format, 0, false)
    requires AllReadable(Tokens(format, Printer), time, names)
    ensures r == Ok(Some(DayNumberOf(time)))
       <==> FixesDate(Tokens(format, Printer), DayNumberOf(time), nowYear, ResolveCutoff(setting, nowYear))
  {
    hide *;
    var value := FormatDate.FormatDate(format, time, names);
    r := ParseDate.ParseDate(format, value, names, nowYear, setting);
    ParseUndoesPrint(format, time, names, nowYear, setting);
  }
}
