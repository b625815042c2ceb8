/**
 `_possibleChars`: the characters a user may type under a format, against the characters that
 formatDate writes under the same format.
 */
module PossibleChars {
  import opened Wrappers
  import opened Calendar
  import opened Decimal
  import opened DateTokens
  import opened FormatDate
  import opened RoundTrip

  const DIGITS := "0123456789"

  /** The characters collected from position i on; None stands for "accept anything". */
  function PossibleFrom(f: string, i: nat, literal: bool): Option<string>
    requires i <= |f|
    decreases |f| - i
  {
    if i == |f| then Some("")
    else if literal then
      if f[i] == '\'' && !Doubled(f, i) then PossibleFrom(f, i + 1, false)
      else if f[i] == '\'' then Prepend("'", PossibleFrom(f, i + 2, true))
      else Prepend([f[i]], PossibleFrom(f, i + 1, true))
    else if f[i] in {'d', 'm', 'y', '@'} then Prepend(DIGITS, PossibleFrom(f, i + 1, false))
    else if f[i] == 'D' || f[i] == 'M' then None
    else if f[i] == '\'' && Doubled(f, i) then Prepend("'", PossibleFrom(f, i + 2, false))
    else if f[i] == '\'' then PossibleFrom(f, i + 1, true)
    else Prepend([f[i]], PossibleFrom(f, i + 1, false))
  }

  function Prepend(s: string, rest: Option<string>): Option<string> {
    if rest.None? then None else Some(s + rest.value)
  }

  /** `_possibleChars` as a loop. */
  method PossibleChars(format: string) returns (r: Option<string>)
    ensures r == PossibleFrom(format, 0, false)
  {
    var chars := "";
    var literal := false;
    var iFormat := 0;
    PrependNothing(PossibleFrom(format, 0, false));
    while iFormat < |format|
      invariant 0 <= iFormat <= |format|
      invariant Prepend(chars, PossibleFrom(format, iFormat, literal)) == PossibleFrom(format, 0, false)
    {
      var c := format[iFormat];
      var ahead := Doubled(format, iFormat);
      var piece := "";
      ghost var before := chars;
      if literal {
        if c == '\'' && !ahead {
          literal := false;
        } else {
          iFormat := if c == '\'' then iFormat + 1 else iFormat;
          piece := [format[iFormat]];
        }
      } else if c in {'d', 'm', 'y', '@'} {
        piece := DIGITS;
      } else if c == 'D' || c == 'M' {
        return None;
      } else if c == '\'' {
        if ahead {
          iFormat := iFormat + 1;
          piece := "'";
        } else {
          literal := true;
        }
      } else {
        piece := [c];
      }
      chars := chars + piece;
      iFormat := iFormat + 1;
      PrependTwice(before, piece, PossibleFrom(format, iFormat, literal));
    }
    r := Some(chars);
    assert chars + "" == chars;
  }

  lemma PrependNothing(rest: Option<string>)
    ensures Prepend("", rest) == rest
  {
    if rest.Some? {
      assert "" + rest.value == rest.value;
    }
  }

  lemma PrependTwice(a: string, b: string, rest: Option<string>)
    ensures Prepend(a + b, rest) == Prepend(a, Prepend(b, rest))
    ensures Prepend(a + "", rest) == Prepend(a, rest)
  {
    if rest.Some? {
      assert a + b + rest.value == a + (b + rest.value);
      assert a + "" == a;
    }
  }

  /** The characters that a token of formatDate makes `_possibleChars` collect. */
  predicate Collects(tok: Token, c: char) {
    match tok
    case DayNumber(_) => IsDigit(c)
    case MonthNumber(_) => IsDigit(c)
    case Year(_) => IsDigit(c)
    case Millis => IsDigit(c)
    case YearDay(_) => c == 'o'
    case Ticks => c == '!'
    case Literal(x) => c == x
    case _ => false
  }

  predicate AnyCollects(toks: seq<Token>, c: char) {
    exists i :: 0 <= i < |toks| && Collects(toks[i], c)
  }

  predicate HasName(toks: seq<Token>) {
    exists i :: 0 <= i < |toks| && (toks[i].DayName? || toks[i].MonthName?)
  }

  lemma CollectsCons(t: seq<Token>, rest: seq<Token>, c: char)
    requires |t| <= 1
    ensures AnyCollects(t + rest, c) <==> (t != [] && Collects(t[0], c)) || AnyCollects(rest, c)
    ensures HasName(t + rest) <==> (t != [] && (t[0].DayName? || t[0].MonthName?)) || HasName(rest)
  {
    hide Collects;
    var s := t + rest;
    assert forall i :: 0 <= i < |rest| ==> s[|t| + i] == rest[i];
    assert t != [] ==> s[0] == t[0];
    assert forall i :: |t| <= i < |s| ==> s[i] == rest[i - |t|];
  }

  /**
   The two loops step differently, but one collects exactly what the tokens of the other announce,
   and gives up exactly when there is a name.
   */
  lemma {:induction false} CollectedIs(f: string, i: nat, literal: bool, c: char)
    requires i <= |f|
    ensures PossibleFrom(f, i, literal).None? <==> HasName(TokensFrom(f, i, literal, Printer))
    ensures PossibleFrom(f, i, literal).Some? ==>
              (c in PossibleFrom(f, i, literal).value <==> AnyCollects(TokensFrom(f, i, literal, Printer), c))
    decreases |f| - i
  {
    hide HasName, AnyCollects, Collects, Step, Piece, PossibleFrom;
    if i == |f| {
      NothingCollected(f, literal, c);
    } else {
      var t := Step(f, i, literal, Printer);
      CollectedIs(f, t.next, t.literal, c);
      CollectsCons(t.token, TokensFrom(f, t.next, t.literal, Printer), c);
      TurnCollects(f, i, literal);
      if t.token != [] {
        PieceCollects(t.token[0], c);
      } else {
        assert [] + TokensFrom(f, t.next, t.literal, Printer) == TokensFrom(f, t.next, t.literal, Printer);
      }
    }
  }

  lemma NothingCollected(f: string, literal: bool, c: char)
    ensures PossibleFrom(f, |f|, literal) == Some("") && !AnyCollects([], c) && !HasName([])
  {
  }

  lemma PieceCollects(tok: Token, c: char)
    ensures !tok.DayName? && !tok.MonthName? ==> (c in Piece(tok) <==> Collects(tok, c))
  {
  }

  /** What a turn of the other loop, or two of them, collects. */
  function Piece(tok: Token): string {
    match tok
    case DayNumber(double) => if double then DIGITS + DIGITS else DIGITS
    case MonthNumber(double) => if double then DIGITS + DIGITS else DIGITS
    case Year(double) => if double then DIGITS + DIGITS else DIGITS
    case Millis => DIGITS
    case YearDay(double) => if double then "oo" else "o"
    case Ticks => "!"
    case Literal(x) => [x]
    case _ => ""
  }

  lemma TurnCollects(f: string, i: nat, literal: bool)
    requires i < |f|
    ensures (var t := Step(f, i, literal, Printer);
             PossibleFrom(f, i, literal)
             == if t.token == [] then PossibleFrom(f, t.next, t.literal)
                else if t.token[0].DayName? || t.token[0].MonthName? then None
                else Prepend(Piece(t.token[0]), PossibleFrom(f, t.next, t.literal)))
  {
    var t := Step(f, i, literal, Printer);
    if t.next == i + 2 && !literal && f[i] != '\'' && f[i] != 'D' && f[i] != 'M' {
      var piece := if f[i] == 'o' then "o" else DIGITS;
      assert PossibleFrom(f, i + 1, false) == Prepend(piece, PossibleFrom(f, i + 2, false));
      PrependTwice(piece, piece, PossibleFrom(f, i + 2, false));
      assert "o" + "o" == "oo";
    }
  }

  // ---------- what is written is admitted ----------

  /** A token for which digits are collected. */
  predicate BringsDigits(tok: Token) {
    tok.DayNumber? || tok.MonthNumber? || tok.Year? || tok.Millis?
  }

  /** A token whose digits are written but not collected. */
  predicate OwesDigits(tok: Token) {
    tok.YearDay? || tok.Ticks?
  }

  lemma {:induction false} PrintChars(toks: seq<Token>, time: int, names: Names, c: char)
    ensures c in Print(toks, time, names) <==> exists i :: 0 <= i < |toks| && c in Text(toks[i], time, names)
    decreases |toks|
  {
    hide Text;
    if toks != [] {
      PrintChars(toks[1..], time, names, c);
      assert forall i :: 1 <= i < |toks| ==> toks[i] == toks[1..][i - 1];
    }
  }

  /** The text of a number holds digits and, exactly if it is negative, a sign. */
  lemma NumberChars(tok: Token, time: int, names: Names)
    requires IsNumber(tok)
    ensures '-' in Text(tok, time, names) <==> NumberMeant(tok, time) < 0
    ensures forall c :: c in Text(tok, time, names) && c != '-' ==> IsDigit(c)
  {
    hide YearOf, MonthOf, DayOf, OrdinalOf, TicksOf, NatText, NatValue, PadLeft, ShortYearNumber, Zeros;
    var v := NumberMeant(tok, time);
    var s := IntText(v);
    SignedDigits(v);
    PadKeepsChars(s, 2);
    PadKeepsChars(s, 3);
    var t := Text(tok, time, names);
    assert t == s || t == "0" + s || t == PadLeft(s, 2) || t == PadLeft(s, 3);
  }

  lemma SignedDigits(v: int)
    ensures '-' in IntText(v) <==> v < 0
    ensures forall c :: c in IntText(v) && c != '-' ==> IsDigit(c)
  {
    hide NatText;
    assert IntText(v) == if v < 0 then "-" + NatText(-v) else NatText(v);
  }

  lemma PadKeepsChars(s: string, len: nat)
    ensures '-' in PadLeft(s, len) <==> '-' in s
    ensures (forall c :: c in s && c != '-' ==> IsDigit(c)) ==>
              forall c :: c in PadLeft(s, len) && c != '-' ==> IsDigit(c)
  {
    hide Zeros;
  }

  predicate Supplied(toks: seq<Token>) {
    exists i :: 0 <= i < |toks| && BringsDigits(toks[i])
  }

  /** Some number is written with a sign. */
  predicate Signed(toks: seq<Token>, time: int) {
    exists i :: 0 <= i < |toks| && IsNumber(toks[i]) && NumberMeant(toks[i], time) < 0
  }

  /**
   For a format without names, every character that formatDate writes is admitted if and only if two things
   are supplied that are not collected for the numbers themselves: the digits of day-of-year and tick
   numbers, by another number in the format or as literal text (or there are none), and the sign of negative
   numbers, as literal text (or there are none).
   */
  lemma WrittenIsAdmitted(format: string, time: int, names: Names, chars: string)
    requires PossibleFrom(format, 0, false) == Some(chars)
    ensures (var toks := Tokens(format, Printer);
             (forall c :: c in Print(toks, time, names) ==> c in chars)
             <==> && (Supplied(toks) || DebtsAreLiteral(toks, time, names))
                  && (Signed(toks, time) ==> Literal('-') in toks))
  {
    hide AnyCollects, Text, Print, TokensFrom, PossibleFrom, HasName, Supplied, Signed, DebtsAreLiteral;
    var toks := Tokens(format, Printer);
    forall c ensures c in chars <==> AnyCollects(toks, c) {
      CollectedIs(format, 0, false, c);
    }
    CollectedIs(format, 0, false, '0');
    forall c ensures c in Print(toks, time, names) <==> exists i :: 0 <= i < |toks| && c in Text(toks[i], time, names) {
      PrintChars(toks, time, names, c);
    }
    AdmittedTokens(toks, time, names);
  }

  /** Every character of every token is collected for some token. */
  ghost predicate AllCollected(toks: seq<Token>, time: int, names: Names) {
    forall i, c :: 0 <= i < |toks| && c in Text(toks[i], time, names) ==> AnyCollects(toks, c)
  }

  /** The digits that are owed are there as literal text. */
  ghost predicate DebtsAreLiteral(toks: seq<Token>, time: int, names: Names) {
    forall i, c :: 0 <= i < |toks| && OwesDigits(toks[i]) && c in Text(toks[i], time, names) ==> Literal(c) in toks
  }

  /** When a character of one token of a format without names is collected. */
  lemma CharCollected(toks: seq<Token>, i: nat, time: int, names: Names, c: char)
    requires i < |toks| && !HasName(toks) && c in Text(toks[i], time, names)
    ensures AnyCollects(toks, c)
       <==> if !IsNumber(toks[i]) then true
            else if c == '-' then Literal('-') in toks
            else !OwesDigits(toks[i]) || Supplied(toks) || Literal(c) in toks
    ensures IsNumber(toks[i]) && c == '-' ==> Signed(toks, time)
  {
    hide NumberMeant, Text, AnyCollects, Supplied;
    if IsNumber(toks[i]) {
      NumberChars(toks[i], time, names);
      if c == '-' {
        DashCollected(toks);
      } else {
        DigitCollected(toks, i, c);
      }
    } else {
      LiteralText(toks[i].c, time, names);
      CollectedAt(toks, i, c);
    }
  }

  lemma DashCollected(toks: seq<Token>)
    ensures AnyCollects(toks, '-') <==> Literal('-') in toks
  {
    assert !IsDigit('-');
  }

  lemma DigitCollected(toks: seq<Token>, i: nat, c: char)
    requires i < |toks| && IsDigit(c) && IsNumber(toks[i])
    ensures AnyCollects(toks, c) <==> !OwesDigits(toks[i]) || Supplied(toks) || Literal(c) in toks
  {
    hide AnyCollects, IsDigit;
    if Supplied(toks) {
      var b :| 0 <= b < |toks| && BringsDigits(toks[b]);
      CollectedAt(toks, b, c);
    } else {
      OnlyLiteralDigits(toks, c);
    }
  }

  lemma AdmittedTokens(toks: seq<Token>, time: int, names: Names)
    requires !HasName(toks)
    ensures AllCollected(toks, time, names)
       <==> && (Supplied(toks) || DebtsAreLiteral(toks, time, names))
            && (Signed(toks, time) ==> Literal('-') in toks)
  {
    hide Text, HasName, AnyCollects, Supplied, NumberMeant;
    forall i, c | 0 <= i < |toks| && c in Text(toks[i], time, names)
      ensures AnyCollects(toks, c)
         <==> if !IsNumber(toks[i]) then true
              else if c == '-' then Literal('-') in toks
              else !OwesDigits(toks[i]) || Supplied(toks) || Literal(c) in toks
      ensures IsNumber(toks[i]) && c == '-' ==> Signed(toks, time)
    {
      CharCollected(toks, i, time, names, c);
    }
    if Signed(toks, time) {
      var i :| 0 <= i < |toks| && IsNumber(toks[i]) && NumberMeant(toks[i], time) < 0;
      NumberChars(toks[i], time, names);
      assert '-' in Text(toks[i], time, names);
    }
  }

  lemma CollectedAt(toks: seq<Token>, i: nat, c: char)
    requires i < |toks| && Collects(toks[i], c)
    ensures AnyCollects(toks, c)
  {
  }

  lemma OnlyLiteralDigits(toks: seq<Token>, c: char)
    requires IsDigit(c) && !Supplied(toks)
    ensures AnyCollects(toks, c) <==> Literal(c) in toks
  {
  }

  lemma FirstDayOfAll(names: Names)
    ensures Text(YearDay(false), 0, names) == "1"
  {
    hide YearOf, MonthOf, DayOf, MakeDay, NatText;
    CivilOfMakeDay(Civil(1970, 0, 1));
    EpochDays();
    assert NatText(1) == "1" by {
      OneDigit();
    }
  }

  lemma EpochDays()
    ensures MakeDay(1970, 0, 1) == 0 && MakeDay(1970, 0, 0) == -1
  {
  }

  lemma OneDigit()
    ensures NatText(1) == "1"
  {
  }

  /** Under the format "o" a user may type only the letter, while 1 January 1970 is written "1". */
  lemma YearDayNotAdmitted(names: Names)
    ensures PossibleFrom("o", 0, false) == Some("o")
    ensures Tokens("o", Printer) == [YearDay(false)] && Print([YearDay(false)], 0, names) == "1"
  {
    hide Text;
    assert PossibleFrom("o", 1, false) == Some("");
    assert ['o'] + "" == "o";
    assert TokensFrom("o", 1, false, Printer) == [];
    assert Print([], 0, names) == "" && [YearDay(false)][1..] == [];
    FirstDayOfAll(names);
  }

  lemma Year1850()
    ensures MakeDay(1850, 0, 1) == -43829 && YearOf(-43829) == 1850
  {
    hide YearOf, MonthOf, DayOf, DayFromYear, DaysBefore;
    DayFromYearIs(1850);
    DaysBeforeStart(1850);
    CivilOfMakeDay(Civil(1850, 0, 1));
  }

  lemma YearText1850(names: Names)
    ensures Text(Year(false), -43829 * MS_PER_DAY, names) == "0-50"
  {
    hide YearOf, NatText;
    Year1850();
    TwoDigits();
    assert DayNumberOf(-43829 * MS_PER_DAY) == -43829;
    assert ShortYearNumber(-43829) == -50;
    assert "0" + ("-" + "50") == "0-50";
  }

  /** Under the format "y" a user may type digits only, while 1 January 1850 is written "0-50". */
  lemma SignNotAdmitted(names: Names)
    ensures PossibleFrom("y", 0, false) == Some(DIGITS) && '-' !in DIGITS
    ensures Tokens("y", Printer) == [Year(false)] && Print([Year(false)], -43829 * MS_PER_DAY, names) == "0-50"
  {
    hide Text;
    assert PossibleFrom("y", 1, false) == Some("");
    assert DIGITS + "" == DIGITS;
    assert TokensFrom("y", 1, false, Printer) == [];
    assert Print([], -43829 * MS_PER_DAY, names) == "" && [Year(false)][1..] == [];
    YearText1850(names);
  }

  lemma TwoDigits()
    ensures NatText(50) == "50"
  {
    assert NatText(5) == "5";
  }
}
