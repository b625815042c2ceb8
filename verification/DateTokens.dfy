/**
 How a date format is cut into tokens. The printer and the parser walk the format with separate
 loops; they agree except that only the parser takes a doubled "@" or "!" as one.
 */
module DateTokens {

  datatype Token =
    | DayNumber(padded: bool)    // d, dd
    | DayName(long: bool)        // D, DD
    | YearDay(padded: bool)      // o, oo
    | MonthNumber(padded: bool)  // m, mm
    | MonthName(long: bool)      // M, MM
    | Year(four: bool)           // y, yy
    | Millis                     // @
    | Ticks                      // !
    | Literal(c: char)

  datatype Reader = Printer | Parser

  /** `lookAhead`: the character at position i is followed by itself. */
  predicate Doubled(f: string, i: nat)
    requires i < |f|
  {
    i + 1 < |f| && f[i + 1] == f[i]
  }

  /** One turn of a loop: the token met, if any, the next position, and whether it lies in quotes. */
  datatype Turn = Turn(token: seq<Token>, next: nat, literal: bool)

  function Step(f: string, i: nat, literal: bool, reader: Reader): (t: Turn)
    requires i < |f|
    ensures i < t.next <= |f| && |t.token| <= 1
  {
    var double := Doubled(f, i);
    var past := if double then i + 2 else i + 1;
    var c := f[i];
    if literal then
      if c == '\'' && !double then Turn([], i + 1, false)
      else Turn([Literal(c)], if c == '\'' then i + 2 else i + 1, true)
    else if c == 'd' then Turn([DayNumber(double)], past, false)
    else if c == 'D' then Turn([DayName(double)], past, false)
    else if c == 'o' then Turn([YearDay(double)], past, false)
    else if c == 'm' then Turn([MonthNumber(double)], past, false)
    else if c == 'M' then Turn([MonthName(double)], past, false)
    else if c == 'y' then Turn([Year(double)], past, false)
    else if c == '@' then Turn([Millis], if reader.Parser? then past else i + 1, false)
    else if c == '!' then Turn([Ticks], if reader.Parser? then past else i + 1, false)
    else if c == '\'' then (if double then Turn([Literal('\'')], i + 2, false) else Turn([], i + 1, true))
    else Turn([Literal(c)], i + 1, false)
  }

  /** Inside quotes only a single quote matters. */
  lemma LiteralTurn(f: string, i: nat)
    requires i < |f|
    ensures forall reader :: Step(f, i, true, reader)
              == if f[i] != '\'' then Turn([Literal(f[i])], i + 1, true)
                 else if Doubled(f, i) then Turn([Literal('\'')], i + 2, true)
                 else Turn([], i + 1, false)
  {
  }

  /** The tokens from position i on. */
  function TokensFrom(f: string, i: nat, literal: bool, reader: Reader): seq<Token>
    requires i <= |f|
    decreases |f| - i
  {
    if i == |f| then []
    else
      var t := Step(f, i, literal, reader);
      t.token + TokensFrom(f, t.next, t.literal, reader)
  }

  function Tokens(f: string, reader: Reader): seq<Token> {
    TokensFrom(f, 0, false, reader)
  }

  /** No "@" or "!" outside quotes is followed by itself. */
  predicate NoDoubledStamp(f: string, i: nat, literal: bool)
    requires i <= |f|
    decreases |f| - i
  {
    i == |f| ||
    (var t := Step(f, i, literal, Parser);
     (!literal && (f[i] == '@' || f[i] == '!') ==> !Doubled(f, i)) && NoDoubledStamp(f, t.next, t.literal))
  }

  /** The loops see the same tokens exactly when no stamp is doubled; else the parser sees fewer. */
  lemma {:induction false} SameTokens(f: string, i: nat, literal: bool)
    requires i <= |f|
    ensures TokensFrom(f, i, literal, Parser) == TokensFrom(f, i, literal, Printer)
       <==> NoDoubledStamp(f, i, literal)
    ensures !NoDoubledStamp(f, i, literal) ==>
              |TokensFrom(f, i, literal, Parser)| < |TokensFrom(f, i, literal, Printer)|
    decreases |f| - i
  {
    if i < |f| {
      var p, q := Step(f, i, literal, Parser), Step(f, i, literal, Printer);
      SameTokens(f, p.next, p.literal);
      if !literal && (f[i] == '@' || f[i] == '!') && Doubled(f, i) {
        assert TokensFrom(f, i + 1, false, Printer) == p.token + TokensFrom(f, i + 2, false, Printer);
      } else {
        SameTurn(f, i, literal);
      }
    }
  }

  lemma SameTurn(f: string, i: nat, literal: bool)
    requires i < |f| && (!literal && (f[i] == '@' || f[i] == '!') ==> !Doubled(f, i))
    ensures Step(f, i, literal, Parser) == Step(f, i, literal, Printer)
  {
  }

  /** What is printed as two timestamps is read as one. */
  lemma DoubledStampDiffers()
    ensures Tokens("@@", Printer) == [Millis, Millis] && Tokens("@@", Parser) == [Millis]
  {
  }
}
