/**
 The documented meaning of each format character, stated on format strings and on the text itself: what is
 printed, and which texts are read.
 */
module DocumentedFormats {
  import opened Wrappers
  import opened Calendar
  import opened Decimal
  import opened DateTokens
  import opened FormatDate
  import opened ParseDate
  import opened DateCheck
  import opened RoundTrip
  import opened StandardFormats

  /** What formatDate prints. */
  function Printed(format: string, time: int, names: Names): string {
    Print(Tokens(format, Printer), time, names)
  }

  /** Digits for a number without leading zeros. */
  ghost predicate Plain(s: string, v: int) {
    s != "" && AllDigits(s) && NatValue(s) == v && (1 < |s| ==> s[0] != '0')
  }

  /** Digits for a number, as many as asked for. */
  ghost predicate OfLength(s: string, v: int, len: nat) {
    |s| == len && AllDigits(s) && NatValue(s) == v
  }

  lemma {:induction false} NatTextIsPlain(v: nat)
    ensures Plain(NatText(v), v)
    ensures NatText(v)[0] == '0' ==> v == 0
  {
    if 10 <= v {
      NatTextIsPlain(v / 10);
      assert NatText(v)[0] == NatText(v / 10)[0];
    }
    NatValueOfText(v);
  }

  lemma PaddedIs(v: nat, len: nat)
    requires 1 <= len && v < Pow10(len)
    ensures OfLength(PadLeft(NatText(v), len), v, len)
  {
    PadLeftValue(v, len);
    TextLength(v, len);
  }

  /** The text of a format that consists of one token. */
  lemma OneToken(format: string, tok: Token, time: int, names: Names)
    requires Tokens(format, Printer) == [tok]
    ensures Printed(format, time, names) == Text(tok, time, names)
  {
    PrintOne(tok, time, names);
  }

  lemma SingleLetters()
    ensures Tokens("d", Printer) == [DayNumber(false)] && Tokens("m", Printer) == [MonthNumber(false)]
    ensures Tokens("o", Printer) == [YearDay(false)] && Tokens("y", Printer) == [Year(false)]
    ensures Tokens("D", Printer) == [DayName(false)] && Tokens("M", Printer) == [MonthName(false)]
    ensures Tokens("@", Printer) == [Millis] && Tokens("!", Printer) == [Ticks]
  {
    hide Tokens;
    OneTurn("d", DayNumber(false));
    OneTurn("m", MonthNumber(false));
    OneTurn("o", YearDay(false));
    OneTurn("y", Year(false));
    OneTurn("D", DayName(false));
    OneTurn("M", MonthName(false));
    OneTurn("@", Millis);
    OneTurn("!", Ticks);
  }

  lemma DoubledLetters()
    ensures Tokens("dd", Printer) == [DayNumber(true)] && Tokens("mm", Printer) == [MonthNumber(true)]
    ensures Tokens("oo", Printer) == [YearDay(true)] && Tokens("yy", Printer) == [Year(true)]
    ensures Tokens("DD", Printer) == [DayName(true)] && Tokens("MM", Printer) == [MonthName(true)]
    ensures Tokens("''", Printer) == [Literal('\'')]
  {
    hide Tokens;
    OneTurn("dd", DayNumber(true));
    OneTurn("mm", MonthNumber(true));
    OneTurn("oo", YearDay(true));
    OneTurn("yy", Year(true));
    OneTurn("DD", DayName(true));
    OneTurn("MM", MonthName(true));
    OneTurn("''", Literal('\''));
  }

  lemma OneTurn(f: string, tok: Token)
    requires f != "" && Step(f, 0, false, Printer) == Turn([tok], |f|, false)
    ensures Tokens(f, Printer) == [tok]
  {
    assert TokensFrom(f, |f|, false, Printer) == [];
  }

  /** d, dd: the day of the month, without leading zero and with two digits; m, mm: so the month, from 1. */
  lemma DayAndMonth(time: int, names: Names)
    ensures (var n := DayNumberOf(time);
             && Plain(Printed("d", time, names), DayOf(n)) && OfLength(Printed("dd", time, names), DayOf(n), 2)
             && Plain(Printed("m", time, names), MonthOf(n) + 1)
             && OfLength(Printed("mm", time, names), MonthOf(n) + 1, 2))
  {
    hide Tokens, Print, YearOf, MonthOf, DayOf, NatText, PadLeft, Plain, OfLength;
    var n := DayNumberOf(time);
    SingleLetters();
    DoubledLetters();
    OneToken("d", DayNumber(false), time, names);
    OneToken("dd", DayNumber(true), time, names);
    OneToken("m", MonthNumber(false), time, names);
    OneToken("mm", MonthNumber(true), time, names);
    SmallPowers();
    NatTextIsPlain(DayOf(n));
    NatTextIsPlain(MonthOf(n) + 1);
    PaddedIs(DayOf(n), 2);
    PaddedIs(MonthOf(n) + 1, 2);
  }

  /** o, oo: the day of the year from 1, without leading zeros and with three digits. */
  lemma DayOfYear(time: int, names: Names)
    requires !ShortYear(YearOf(DayNumberOf(time)))
    ensures (var n := DayNumberOf(time);
             var ordinal := n - DayFromYear(YearOf(n)) + 1;
             && 1 <= ordinal <= 366
             && Plain(Printed("o", time, names), ordinal) && OfLength(Printed("oo", time, names), ordinal, 3))
  {
    hide Tokens, Print, YearOf, MonthOf, DayOf, NatText, PadLeft, Plain, OfLength, OrdinalOf, DayFromYear;
    var n := DayNumberOf(time);
    SingleLetters();
    DoubledLetters();
    OneToken("o", YearDay(false), time, names);
    OneToken("oo", YearDay(true), time, names);
    OrdinalIs(n);
    OrdinalRange(n);
    SmallPowers();
    NatTextIsPlain(OrdinalOf(n));
    PaddedIs(OrdinalOf(n), 3);
  }

  /** D, DD: the short and the long name of the day; M, MM: of the month. */
  lemma DayAndMonthNames(time: int, names: Names)
    ensures (var n := DayNumberOf(time);
             && Printed("D", time, names) == names.dayShort[WeekDay(n)]
             && Printed("DD", time, names) == names.dayLong[WeekDay(n)]
             && Printed("M", time, names) == names.monthShort[MonthOf(n)]
             && Printed("MM", time, names) == names.monthLong[MonthOf(n)])
  {
    hide Tokens, Print, YearOf, MonthOf, DayOf, WeekDay;
    SingleLetters();
    DoubledLetters();
    OneToken("D", DayName(false), time, names);
    OneToken("DD", DayName(true), time, names);
    OneToken("M", MonthName(false), time, names);
    OneToken("MM", MonthName(true), time, names);
  }

  /** y, yy: the last two digits of a year from 1900 on, and a year of four digits. */
  lemma Years(time: int, names: Names)
    ensures (var y := YearOf(DayNumberOf(time));
             && (1900 <= y ==> OfLength(Printed("y", time, names), y % 100, 2))
             && (0 <= y ==> Plain(Printed("yy", time, names), y))
             && (1000 <= y <= 9999 ==> OfLength(Printed("yy", time, names), y, 4)))
  {
    hide Tokens, Print, YearOf, NatText, Plain, OfLength, ShortYearNumber, NatValue;
    var n := DayNumberOf(time);
    SingleLetters();
    DoubledLetters();
    OneToken("y", Year(false), time, names);
    OneToken("yy", Year(true), time, names);
    ShortYearNumberIs(n);
    if 0 <= YearOf(n) {
      NatTextIsPlain(YearOf(n));
      FourDigits(YearOf(n));
    }
    if 1900 <= YearOf(n) {
      TwoDigitText(ShortYearNumber(n));
    }
  }

  lemma FourDigits(v: nat)
    ensures 1000 <= v <= 9999 ==> OfLength(NatText(v), v, 4)
  {
    hide NatText;
    SmallPowers();
    TextLengths(v);
    NatValueOfText(v);
  }

  lemma TwoDigitText(v: nat)
    requires v <= 99
    ensures OfLength((if v < 10 then "0" else "") + NatText(v), v, 2)
  {
    hide NatText, NatValue;
    SmallPowers();
    TextLengths(v);
    NatValueOfText(v);
    OneZero(NatText(v));
    assert "" + NatText(v) == NatText(v);
  }

  /** The first moment of the year 1. */
  lemma YearOne()
    ensures MakeDay(1, 0, 1) * MS_PER_DAY * 10000 == -TICKS_TO_1970
  {
    hide DayFromYear;
    DayFromYearIs(1);
  }

  /** @: milliseconds since 1 January 1970; !: units of 100 nanoseconds since 1 January of the year 1. */
  lemma Stamps(time: int, names: Names)
    ensures 0 <= time ==> Plain(Printed("@", time, names), time)
    ensures (var sinceYearOne := time - MakeDay(1, 0, 1) * MS_PER_DAY;
             0 <= sinceYearOne ==> Plain(Printed("!", time, names), 10000 * sinceYearOne))
  {
    hide Tokens, Print, NatText, Plain, MakeDay;
    SingleLetters();
    OneToken("@", Millis, time, names);
    OneToken("!", Ticks, time, names);
    YearOne();
    if 0 <= time {
      NatTextIsPlain(time);
    }
    if 0 <= TicksOf(time) {
      NatTextIsPlain(TicksOf(time));
    }
  }

  // ---------- literal text ----------

  /** Between quotes every character but a quote stands for itself. */
  lemma {:induction false} InQuotes(before: string, text: string, i: nat, time: int, names: Names)
    requires i <= |text| && forall k :: 0 <= k < |text| ==> text[k] != '\''
    ensures (var f := before + text + "'";
             Print(TokensFrom(f, |before| + i, true, Printer), time, names) == text[i..])
    decreases |text| - i
  {
    hide Step;
    var f := before + text + "'";
    LiteralTurn(f, |before| + i);
    if i == |text| {
      assert TokensFrom(f, |f|, false, Printer) == [];
      assert f[|before| + i] == '\'';
    } else {
      assert f[|before| + i] == text[i];
      InQuotes(before, text, i + 1, time, names);
      var rest := TokensFrom(f, |before| + i + 1, true, Printer);
      assert TokensFrom(f, |before| + i, true, Printer) == [Literal(text[i])] + rest;
      assert ([Literal(text[i])] + rest)[1..] == rest;
      assert text[i..] == [text[i]] + text[i + 1..];
    }
  }

  /** '...': text in single quotes is printed as it is, and two quotes as one. */
  lemma QuotedText(text: string, time: int, names: Names)
    requires forall k :: 0 <= k < |text| ==> text[k] != '\''
    ensures text != "" ==> Printed("'" + text + "'", time, names) == text
    ensures Printed("''", time, names) == "'"
  {
    hide Print;
    DoubledLetters();
    OneToken("''", Literal('\''), time, names);
    if text != "" {
      var f := "'" + text + "'";
      InQuotes("'", text, 0, time, names);
      assert !Doubled(f, 0);
      assert [] + TokensFrom(f, 1, true, Printer) == TokensFrom(f, 1, true, Printer);
      assert text[0..] == text;
    }
  }

  /** Any other character outside quotes is printed as it is. */
  lemma OtherCharacters(c: char, time: int, names: Names)
    requires c !in {'d', 'D', 'o', 'm', 'M', 'y', '@', '!', '\''}
    ensures Printed([c], time, names) == [c]
  {
    assert TokensFrom([c], 1, false, Printer) == [];
    OneToken([c], Literal(c), time, names);
  }

  // ---------- what is read ----------

  /** Of the digits at a place, a number takes all up to its limit; a year needs as many as its limit, others one. */
  lemma NumberTaken(tok: Token, digits: string, rest: string)
    requires IsNumber(tok) && AllDigits(digits) && (rest != "" ==> !IsDigit(rest[0]))
    ensures (var most := if tok.Millis? then 14 else if tok.Ticks? then 20 else if tok == Year(true) then 4
                         else if tok.YearDay? then 3 else 2;
             var fewest := if tok == Year(true) then 4 else if tok == Year(false) then 2 else 1;
             var taken := if |digits| <= most then digits else digits[..most];
             && (|digits| < fewest ==> GetNumber(tok, digits + rest, 0) == Err(MissingNumber(0)))
             && (fewest <= |digits| ==> GetNumber(tok, digits + rest, 0) == Ok((NatValue(taken), |taken|))))
  {
    hide DigitRun, IsDigit, NatValue;
    var most := MostDigits(tok);
    var k := if |digits| <= most then |digits| else most;
    var value := digits + rest;
    assert forall i :: 0 <= i < k ==> value[i] == digits[i];
    assert |digits| < |value| ==> value[|digits|] == rest[0];
    DigitRunIs(value, 0, most, k);
    assert value[0..k] == digits[..k];
  }

  /** Small and capital form of one ASCII letter. */
  predicate CaseOnly(a: char, b: char) {
    ('A' <= a <= 'Z' && b as int == a as int + 32) || ('A' <= b <= 'Z' && a as int == b as int + 32)
  }

  /** Names stand at a place when they differ from it in letter case only. */
  lemma NamesIgnoreCase(value: string, pos: nat, name: string)
    ensures MatchesAt(value, pos, name)
       <==> && pos + |name| <= |value|
            && forall k :: 0 <= k < |name| ==> value[pos + k] == name[k] || CaseOnly(value[pos + k], name[k])
  {
    forall a: char, b: char ensures Lower(a) == Lower(b) <==> a == b || CaseOnly(a, b) {
    }
  }

  /** Ticks are cut down to milliseconds, towards 1970. */
  lemma TicksCutDown(num: int)
    ensures (var ticks := num - TICKS_TO_1970; var time := JsTrunc(ticks, 10000);
             && (0 <= ticks ==> 10000 * time <= ticks < 10000 * (time + 1))
             && (ticks <= 0 ==> 10000 * (time - 1) < ticks <= 10000 * time))
  {
  }

  /** A literal character is read only from itself. */
  lemma LiteralRead(c: char, value: string, pos: nat, names: Names, f: Fields)
    requires pos <= |value|
    ensures ReadToken(Literal(c), value, pos, names, f)
         == if pos < |value| && value[pos] == c then Ok(Reading(pos + 1, f)) else Err(UnexpectedLiteral(pos))
  {
  }

  /** White space and line ends of sections 7.2 and 7.3 of ECMA-262, by their numbers. */
  lemma Spaces(c: char)
    ensures (var n := c as int;
             IsSpace(c) <==> 9 <= n <= 13 || 8192 <= n <= 8202
                             || n in {32, 160, 5760, 8232, 8233, 8239, 8287, 12288, 65279})
  {
  }

  /** Nothing is made of a blank value, and of no other. */
  lemma BlankIsNull(format: string, value: string, names: Names, nowYear: int, setting: Option<Cutoff>)
    ensures Parse(format, value, names, nowYear, setting) == Ok(None) <==> value == ""
  {
    hide Tokens, ReadTokens, DateOfFields, ResolveCutoff, IsSpace;
  }

  /** Literal tokens for a text. */
  function Literals(s: string): (r: seq<Token>)
    ensures |r| == |s| && forall i :: 0 <= i < |r| ==> r[i] == Literal(s[i])
  {
    seq(|s|, i requires 0 <= i < |s| => Literal(s[i]))
  }

  lemma {:induction false} PrintText(s: string, time: int, names: Names)
    ensures Print(Literals(s), time, names) == s
  {
    hide Text;
    if s != "" {
      PrintText(s[1..], time, names);
      LiteralText(s[0], time, names);
      assert Literals(s)[1..] == Literals(s[1..]);
      assert [s[0]] + s[1..] == s;
    }
  }

  lemma {:induction false} PrintLiterals(toks: seq<Token>, s: string, time: int, names: Names)
    ensures Print(toks + Literals(s), time, names) == Print(toks, time, names) + s
  {
    hide Print, Literals;
    if toks == [] {
      assert [] + Literals(s) == Literals(s);
      PrintText(s, time, names);
      PrintParts([], time, names);
    } else {
      PrintLiterals(toks[1..], s, time, names);
      assert (toks + Literals(s))[1..] == toks[1..] + Literals(s);
      PrintParts(toks, time, names);
      PrintParts(toks + Literals(s), time, names);
    }
  }

  lemma PrintParts(toks: seq<Token>, time: int, names: Names)
    ensures Print(toks, time, names)
         == if toks == [] then "" else Text(toks[0], time, names) + Print(toks[1..], time, names)
  {
    hide Text;
  }

  lemma SeparatedBefore(toks: seq<Token>, s: string)
    requires WellSeparated(toks) && s != "" && !IsDigit(s[0])
    ensures WellSeparated(toks + Literals(s))
  {
  }

  /**
   What may follow a date: text that begins with white space is passed over, any other text that is no digit is
   an error, whatever the format's last token is.
   */
  lemma TrailingText(format: string, extra: string, time: int, names: Names, nowYear: int, setting: Option<Cutoff>)
    requires NoDoubledStamp(format, 0, false) && DistinctNames(names)
    requires WellSeparated(Tokens(format, Printer)) && FullFormat(Tokens(format, Printer))
    requires AllInRange(Tokens(format, Printer), time) && 100 <= YearOf(DayNumberOf(time))
    requires extra != "" && !IsDigit(extra[0])
    ensures Parse(format, Printed(format, time, names) + extra, names, nowYear, setting)
         == if IsSpace(extra[0]) then Ok(Some(DayNumberOf(time))) else Err(ExtraCharacters(extra))
  {
    hide TokensFrom, Print, YearOf, DayNumberOf, DistinctNames, WellSeparated, NoDoubledStamp, HasYearDay, HasMonth;
    hide HasDay, YearRead, ReadTokens, Effects, DateOfFields, IsSpace, IsDigit, InRange, ResolveCutoff, NamesDay;
    var toks := Tokens(format, Printer);
    var all := toks + Literals(extra);
    var value := Printed(format, time, names) + extra;
    var cutoff := ResolveCutoff(setting, nowYear);
    SameTokens(format, 0, false);
    SeparatedBefore(toks, extra);
    PrintLiterals(toks, extra, time, names);
    PrintText(extra, time, names);
    assert value[0..] == value && all[..|toks|] == toks && all[|toks|..] == Literals(extra);
    var at := FirstBack(all, |toks|, time, names, value, Reading(0, NOTHING));
    assert value[at.pos] == value[at.pos..][0];
    YearReadFull(toks, DayNumberOf(time));
    EffectsName(toks, time, nowYear, cutoff);
    DateOfFieldsIs(at.fields, nowYear, cutoff, DayNumberOf(time));
    OtherYears(YearOf(DayNumberOf(time)), nowYear, cutoff);
  }
}
