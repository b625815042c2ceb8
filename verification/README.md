# Verified models of the client libraries

The site ships two JavaScript libraries, jQuery 1.11 and jQuery UI 1.11. Apart from what they do to the page, both
contain small engines whose meaning does not depend on a browser. This project models those engines in Dafny and
proves what they promise, for all inputs and all runs:

* **The date picker's date engine** (`Calendar`, `MonthGrid`, `IsoWeek`, `Instance`, `DateTokens`, `Decimal`,
  `FormatDate`, `ParseDate`, `NameSearch`, `DateCheck`, `RoundTrip`, `StandardFormats`, `DocumentedFormats`,
  `PossibleChars`): printing and parsing dates under a format, on top of a Gregorian calendar in which a `Date` is a day
  number and the constructor normalises as sections 15.9.1.2 to 15.9.1.12 and 15.9.3.1 of ECMA-262, edition 5.1, say.
  "Now" is a parameter. Printer, parser and `_possibleChars` are loops with look-ahead, each proved against the same
  list of tokens; the round trip is then a theorem about tokens.
* **Callbacks, Deferred and when** (`CallbackList`, `CallbackDelivery`, `CallbackRuns`, `CallbackHistory`, `OpenLists`,
  `CallbackObject`, `OnceMemory`, `Deferred`, `DeferredObject`, `Notifications`, `When`, `WhenHistory`, `WhenObject`): a
  re-entrant notification protocol. The firing loop is cut at each call of a callback, so that between two steps anybody
  may add, remove, fire, disable or lock. Each of the three is a class that changes its fields in place and refines a
  state machine on values, and the theorems are about all runs of the latter. The record of a run (who was due, who was called) is history on which nothing depends.
* **Colour conversion** (`Color`), over exact reals with the rounding of hue and channels written out.
* **Four widgets with state** (`Slider`, `Tabs`, `Selectable`, `Autocomplete`).

`Division` and `Wrappers` hold arithmetic and the optional and result types. `dafny verify dfyconfig.toml` checks
everything.

Where the code falls short of what its documentation promises, the model follows the code, and the exact condition is
a theorem, with a concrete input where one helps:

* The `Date` constructor reads the years 0..99 as 1900..1999. So `_getDaysInMonth` is wrong for February of the year 0,
  `parseDate` never yields a date of these years, and `_adjustInstDate` leaves them for the twentieth century.
* A year printed with other than four digits under `yy` is not read back.
* `@` is printed with all its digits and sign but parsed with at most 14 digits and no sign.
* The comment on `formatDate` gives `"..."` as literal text; the code takes single quotes, and double quotes stand for
  themselves.
* A doubled `@` or `!` is two tokens to `formatDate` and one to `parseDate`.
* `_possibleChars` collects the letter, not digits, for `o` and `!`, and a sign for no number at all, though dates before 1900
  under `y`, before 1970 under `@` and before the year 0 have one.
* The number 0 as `shortYearCutoff` gives way to the default "+10", being falsy, so that two digits decode otherwise.
* `clamp` adds one turn to a hue before taking the remainder; far below -360 it stays negative, and channels may come out
  negative.
* The values that a slider stores can cross, if it was given values off the grid; those it shows cannot.
* `disable` of a tab index out of range spoils the list of disabled tabs, or disables them all.
* In a plain drag, the `selected` flag of an item can stay set when its class is gone.

## Model

| member | source | states |
|---|---|---|
| `Calendar.MonthTable` | resource/web/assets/jquery/jquery-ui.js:9245-9249 | The months begin on the days of the year that the table of section 15.9.1.4 of ECMA-262 lists: 0, 31, 59, 90, 120, 151, 181, 212, 243, 273, 304 and 334, and from March on one later in leap years |
| `Calendar.CivilOfMakeDay` | resource/web/assets/jquery/jquery-ui.js:9245-9246 | Every real Gregorian date, built with the normalising `Date` constructor's day arithmetic and read back, comes back as itself |
| `Calendar.MakeDayOfCivil` | resource/web/assets/jquery/jquery-ui.js:9245-9246 | The other direction: every day number reads as a real date, and that date builds the same day; so the calendar is a bijection |
| `Calendar.NormaliseAndCompare` | resource/web/assets/jquery/jquery-ui.js:9245-9249 | The final check of `parseDate` (build the date, compare year, month and day) succeeds iff the triple is a real Gregorian date and the year is not one of 0..99, which the constructor takes for 1900..1999 |
| `Calendar.YearFiftyMoves` | resource/web/assets/jquery/jquery-ui.js:9245-9249 | A concrete failure: 1 January 50 is a real date and comes back as 1 January 1950 |
| `Calendar.SetDateExact` | resource/web/assets/jquery/jquery-ui.js:9763 | `setDate` moves the day number by exactly the difference of the day numbers, over month and year ends too |
| `MonthGrid.OverflowLength` | resource/web/assets/jquery/jquery-ui.js:9900-9902 | Day 32 of a month runs over by exactly so much that 32 minus its day is the month's true length, for months in and out of 0..11 |
| `MonthGrid.DaysInMonthExact` | resource/web/assets/jquery/jquery-ui.js:9900-9902 | `_getDaysInMonth` is the true length for every year and every month number iff it is not a February of a year 0..99 that differs from the February 1900 years later |
| `MonthGrid.DaysInMonthInRange` | resource/web/assets/jquery/jquery-ui.js:9900-9902 | For months 0..11 the only wrong answer is the one for February of the year 0 |
| `MonthGrid.FebruaryOfYearZero` | resource/web/assets/jquery/jquery-ui.js:9900-9902 | The concrete failure: 28 is given, 29 is right |
| `MonthGrid.DrawMonth` | resource/web/assets/jquery/jquery-ui.js:9725-9767 | The row and cell loops of `_generateHTML` fill a table of 7 columns with consecutive days from the leading days on, with the computed number of rows or, beside other months, at least the rows used so far |
| `MonthGrid.DrawMonthRow` | resource/web/assets/jquery/jquery-ui.js:9691-9776 | A row of months: the k-th table is the k-th following month, over the year's end, and each has as many rows as the longest month up to it |
| `MonthGrid.RowsSoFarSuffice` | resource/web/assets/jquery/jquery-ui.js:9731-9732 | The number of rows that a table in a row of months has is enough for each month up to it, and is taken by one of them or is four |
| `MonthGrid.ConsecutiveCells` | resource/web/assets/jquery/jquery-ui.js:9762-9764 | Read row by row, over the rows' ends too, each cell is the day after the one before, and the first week holds the first of the month |
| `MonthGrid.ColumnWeekday` | resource/web/assets/jquery/jquery-ui.js:9719-9720 | Column c of every row holds the weekday (c + firstDay) mod 7 that the header announces |
| `MonthGrid.InMonthIsInterval` | resource/web/assets/jquery/jquery-ui.js:9725-9733 | A day belongs to the drawn month iff it lies in the interval from its first day over its computed length |
| `MonthGrid.EachDayOnce` | resource/web/assets/jquery/jquery-ui.js:9725-9767 | Every day of the month stands in exactly one cell, and within the rows computed |
| `MonthGrid.RowsAreUseful` | resource/web/assets/jquery/jquery-ui.js:9729-9731 | A single month takes 4 to 6 rows, and each of them shows at least one of its days |
| `MonthGrid.OtherMonthFlag` | resource/web/assets/jquery/jquery-ui.js:9741 | Comparing months alone is enough: the flag is set for exactly the cells outside the month, for months 0..11 in tables of up to six rows |
| `IsoWeek.WeekByThursday` | resource/web/assets/jquery/jquery-ui.js:9062-9073 | The setters of `iso8601Week` amount to counting sevens from 1 January of the year in which the week's Thursday lies |
| `IsoWeek.IsoYearByThursday` | resource/web/assets/jquery/jquery-ui.js:9066-9071 | A day lies between week 1 of ISO year y and week 1 of the next iff its week's Thursday is in calendar year y |
| `IsoWeek.WeekNumbersIsoYear` | resource/web/assets/jquery/jquery-ui.js:9062-9073 | Every day has an ISO year, and the number computed is its week's place from the Monday of that year's week 1 (section 2.2.10 of ISO 8601:2004) |
| `IsoWeek.WeeksInIsoYear` | resource/web/assets/jquery/jquery-ui.js:9072 | An ISO year has 53 weeks iff 1 January, or in a leap year 2 January, is a Thursday, and otherwise 52 |
| `IsoWeek.WeekRange` | resource/web/assets/jquery/jquery-ui.js:9072 | The number lies in 1..53 for every day |
| `IsoWeek.WeekConstant` | resource/web/assets/jquery/jquery-ui.js:9066-9067 | The number is the same from Monday to Sunday |
| `IsoWeek.WeekOneHoldsFirstThursday` | resource/web/assets/jquery/jquery-ui.js:9062-9073 | The number is 1 iff the week holds the first Thursday of some year |
| `IsoWeek.NextWeek` | resource/web/assets/jquery/jquery-ui.js:9062-9073 | Seven days later the number is one more, or 1 after week 52 or 53 |
| `Instance.RestrictIsNearest` | resource/web/assets/jquery/jquery-ui.js:9872-9877 | `_restrictMinMax` gives the nearest day within the bounds, is idempotent, and stays within them iff min <= max; otherwise it gives the maximum |
| `Instance.Inst.AdjustInstDate` | resource/web/assets/jquery/jquery-ui.js:9857-9869 | After every adjustment the instance holds a real date, the drawn month and year are the selected ones, the date is the requested one brought within the bounds, and it is within them iff they can be met |
| `Instance.Inst.SetDate` | resource/web/assets/jquery/jquery-ui.js:9537-9549 | Setting a date leaves the instance consistent, and within the bounds iff they can be met; the date is always the one brought within the bounds and then refreshed, so it is the former itself unless that falls in a year 0..99 |
| `Instance.MonthStep` | resource/web/assets/jquery/jquery-ui.js:9857-9861 | A month step moves 12 * year + month by exactly the offset iff the year is not one of 0..99, and then keeps the day as far as the month is long |
| `Instance.YearStep` | resource/web/assets/jquery/jquery-ui.js:9857-9861 | The same for a year step, with the year stepped to |
| `Instance.DayStep` | resource/web/assets/jquery/jquery-ui.js:9857-9861 | A day step moves the day number by exactly the offset iff the year is not one of 0..99 |
| `Instance.UnspecifiedKeeps` | resource/web/assets/jquery/jquery-ui.js:9857-9861 | Adjusting by nothing keeps the selected day iff its year is not one of 0..99 |
| `Instance.YearFiftyIsLost` | resource/web/assets/jquery/jquery-ui.js:9857-9861 | A concrete failure: refreshing 1 January 50 selects 1 January 1950 |
| `Instance.PagingAddsUp` | resource/web/assets/jquery/jquery-ui.js:9857-9869 | Any run of month steps none of which starts in a year 0..99 or meets a bound ends in the month named by the sum of its offsets, on the day capped by every month visited |
| `Instance.ForthAndBack` | resource/web/assets/jquery/jquery-ui.js:9857-9869 | k months forth and k months back end in the same month, on the day capped by the month in between |
| `DateTokens.SameTokens` | resource/web/assets/jquery/jquery-ui.js:9333-9379 | The loops of `formatDate` and `parseDate` cut a format, quotes and doubled quotes included, into the same tokens iff no `@` or `!` outside quotes is doubled; otherwise the parser sees fewer |
| `DateTokens.DoubledStampDiffers` | resource/web/assets/jquery/jquery-ui.js:9362-9367 | A concrete failure: `@@` is two timestamps to the printer and one to the parser |
| `FormatDate.FormatNumber` | resource/web/assets/jquery/jquery-ui.js:9316-9324 | The padding loop yields the number's text with zeros in front up to the length, and the text itself if it is long enough |
| `FormatDate.FormatChar` | resource/web/assets/jquery/jquery-ui.js:9341-9377 | One pass through the switch writes the text of the token at this place and moves the look-ahead as the tokenizer does |
| `FormatDate.FormatDate` | resource/web/assets/jquery/jquery-ui.js:9297-9382 | The whole loop writes the texts of the format's tokens in order |
| `Decimal.PadLeftValue` | resource/web/assets/jquery/jquery-ui.js:9316-9324 | A padded number consists of digits, denotes the same number, and has the length asked for or its own |
| `Decimal.TextLength` | resource/web/assets/jquery/jquery-ui.js:9122-9134 | A number is written with at most k digits iff it is below ten to the k |
| `ParseDate.FindName` | resource/web/assets/jquery/jquery-ui.js:9136-9157 | The search over the names sorted by length gives the first one that stands at the position, or the error |
| `NameSearch.GetNameFinds` | resource/web/assets/jquery/jquery-ui.js:9136-9157 | `getName` finds name k iff it stands at the position (up to letter case) and every other name that does is shorter, or as long and later in the list |
| `NameSearch.GetNameEnds` | resource/web/assets/jquery/jquery-ui.js:9136-9157 | The position moves past name k iff that stands there and no longer name does |
| `NameSearch.GetNameFails` | resource/web/assets/jquery/jquery-ui.js:9153-9157 | It fails, with the position reached, iff no name stands there |
| `ParseDate.SplitDayOfYear` | resource/web/assets/jquery/jquery-ui.js:9232-9243 | The day-of-year loop ends for every number and gives the month and day of the recursive definition that the lemmas below are about |
| `DateCheck.FromDayOfYearIs` | resource/web/assets/jquery/jquery-ui.js:9232-9243 | That loop, begun at any month, ends in the month and day with the same place in the year if there is one, and otherwise past December or below day 1 |
| `DateCheck.DayOfYearAccepted` | resource/web/assets/jquery/jquery-ui.js:9232-9249 | Loop and final check together accept exactly 1..365, or 1..366 in leap years, of years outside 0..99, and give that day; 0 and overflow are rejected |
| `DateCheck.MonthAndDayAccepted` | resource/web/assets/jquery/jquery-ui.js:9245-9249 | Without a day of the year exactly the real dates of years outside 0..99 are accepted |
| `DateCheck.DateOfFieldsIs` | resource/web/assets/jquery/jquery-ui.js:9225-9249 | The fields make day n iff they name it: the completed year is its year, and day of the year or month and day are its own |
| `DateCheck.TwoDigitYears` | resource/web/assets/jquery/jquery-ui.js:9225-9230 | Under a cutoff, two digits decode to year y iff y ends in them and lies among the hundred years that end at this century plus the cutoff; so the rule is a bijection onto that window |
| `DateCheck.DefaultDecodes` | resource/web/assets/jquery/jquery-ui.js:9100-9102 | Without a setting two digits decode to year y iff y ends in them and is one of the hundred years up to ten years from now, or up to the end of this century if that is nearer |
| `DateCheck.OffsetDecodes` | resource/web/assets/jquery/jquery-ui.js:9100-9102 | With an offset n, positive or negative, the same of the hundred years up to n years from now, held between the ends of the last century and of this one |
| `DateCheck.OtherYears` | resource/web/assets/jquery/jquery-ui.js:9225-9230 | No year read means the current one; a year of three digits and more is taken as it is |
| `DateCheck.NumericCutoffUsed` | resource/web/assets/jquery/jquery-ui.js:9100-9102 | A number as `shortYearCutoff` is used as it is iff it is not 0 |
| `DateCheck.NumericCutoffDecodes` | resource/web/assets/jquery/jquery-ui.js:9100-9102 | With the number c as the setting, all pairs of digits decode to the years ending in them of the hundred that end at this century plus c (plus -1 or 99 for c below or above these), iff c is not 0 |
| `DateCheck.CutoffZeroIn2015` | resource/web/assets/jquery/jquery-ui.js:9100-9102 | A concrete failure: in 2015 the setting 0 reads 05 as 2005, where the window asked for holds 1905 |
| `DateCheck.ShortYearNumberIs` | resource/web/assets/jquery/jquery-ui.js:9358-9361 | What `y` prints is the year modulo 100 from 1900 on and for years ending in 00; for all others it carries a sign |
| `DateCheck.TwoDigitRoundTrip` | resource/web/assets/jquery/jquery-ui.js:9225-9230 | A year printed with two digits and no sign decodes to itself iff it lies in the window |
| `ParseDate.ParseChar` | resource/web/assets/jquery/jquery-ui.js:9174-9214 | One pass through the parser's switch reads the token at this place, with its errors, and moves the look-ahead as the tokenizer does |
| `ParseDate.ReadFormat` | resource/web/assets/jquery/jquery-ui.js:9166-9216 | The whole loop reads the format's tokens one after the other from the value, or gives the first error |
| `ParseDate.ParseDate` | resource/web/assets/jquery/jquery-ui.js:9088-9250 | `parseDate` as a whole, with trailing characters, missing year and invalid dates, is the composition of reading the tokens and checking the fields |
| `RoundTrip.TokenBack` | resource/web/assets/jquery/jquery-ui.js:9174-9214 | A printed token is read back with its end and meaning iff it is readable: digits only, as many as the parser takes, no digit to follow; a name that no name tried earlier shadows |
| `RoundTrip.TokensBack` | resource/web/assets/jquery/jquery-ui.js:9166-9216 | If every token is readable before the text that follows it, all are read back to the end of the value |
| `RoundTrip.EffectsAre` | resource/web/assets/jquery/jquery-ui.js:9166-9216 | Which fields a format leaves known after reading back a date, and with which values; the last token that carries a year decides the year |
| `RoundTrip.ParseUndoesPrint` | resource/web/assets/jquery/jquery-ui.js:9088-9250 | Main result: for every format without doubled stamps whose printed tokens are readable, every time, all names, any "now" and cutoff, `parseDate` of what `formatDate` printed is the same day iff the format fixes the date |
| `RoundTrip.PrintAndParse` | resource/web/assets/jquery/jquery-ui.js:9297-9382 | The same of the two loops run one after the other |
| `StandardFormats.SeparatedIsReadable` | resource/web/assets/jquery/jquery-ui.js:9122-9134 | Conditions on the format alone: open-ended numbers last or before a literal that is no digit, names that do not begin with each other, numbers in range; then every printed token is readable |
| `StandardFormats.FullRoundTrip` | resource/web/assets/jquery/jquery-ui.js:9088-9250 | With these conditions a format with a full year and a day comes back for every date from the year 100 on, whatever "now" is |
| `StandardFormats.ShortRoundTrip` | resource/web/assets/jquery/jquery-ui.js:9225-9230 | A format whose year has two digits brings back a date of a year outside 0..99, printed without a sign, iff the year lies in the hundred-year window |
| `StandardFormats.ShortYearsNeverRead` | resource/web/assets/jquery/jquery-ui.js:9225-9249 | Whatever format and value, `parseDate` never yields a day of the years 0..99 |
| `StandardFormats.YearlessRoundTrip` | resource/web/assets/jquery/jquery-ui.js:9225-9249 | A format without a year brings a day back iff it lies in the current year, and that is not one of 0..99 |
| `StandardFormats.DefaultNamesDistinct` | resource/web/assets/jquery/jquery-ui.js:8055-8059 | No default month or day name begins with another |
| `StandardFormats.AtomRoundTrip` | resource/web/assets/jquery/jquery-ui.js:9253 | ATOM brings a day back iff its year is one of 1000..9999: `yy` is printed with the digits there are, and parsed with exactly four |
| `StandardFormats.Rfc1123RoundTrip` | resource/web/assets/jquery/jquery-ui.js:9259 | The same of RFC_1123, with names, an unpadded day and the year last |
| `StandardFormats.Rfc850RoundTrip` | resource/web/assets/jquery/jquery-ui.js:9257 | RFC_850, with long names and a two-digit year, brings a day back iff its year lies in the window, is from 1900 on or ends in 00, and is not one of 0..99 |
| `StandardFormats.TimestampExact` | resource/web/assets/jquery/jquery-ui.js:9263 | TIMESTAMP brings a time's day back iff 0 <= time < 10^14: the parser takes 14 digits and no sign |
| `DocumentedFormats.DayAndMonth` | resource/web/assets/jquery/jquery-ui.js:9270-9277 | `d`, `dd`, `m`, `mm`: what is printed are decimal digits of the day and of the month counted from 1, with no leading zero or with exactly two digits |
| `DocumentedFormats.DayOfYear` | resource/web/assets/jquery/jquery-ui.js:9272-9273 | `o`, `oo`: the day of the year from 1, with no leading zeros or with exactly three digits, outside the years 0..99 |
| `DocumentedFormats.DayAndMonthNames` | resource/web/assets/jquery/jquery-ui.js:9274-9279 | `D`, `DD`, `M`, `MM`: the short and the long names of the weekday and of the month |
| `DocumentedFormats.Years` | resource/web/assets/jquery/jquery-ui.js:9280-9281 | `y` prints two digits, the year modulo 100, from 1900 on; `yy` the year, with four digits from 1000 to 9999 |
| `DocumentedFormats.Stamps` | resource/web/assets/jquery/jquery-ui.js:9282-9283 | `@` prints milliseconds since 1970, and `!` ten thousand times the milliseconds since 1 January of the year 1 |
| `DocumentedFormats.QuotedText` | resource/web/assets/jquery/jquery-ui.js:9334-9374 | Text between single quotes is printed as it stands, whatever letters it holds, and two quotes as one |
| `DocumentedFormats.OtherCharacters` | resource/web/assets/jquery/jquery-ui.js:9375-9376 | Every character that is no format letter is printed as it is |
| `DocumentedFormats.NumberTaken` | resource/web/assets/jquery/jquery-ui.js:9122-9134 | Of a run of digits `getNumber` takes all up to 14, 20, 4, 3 or 2, and fails below 4 for `yy`, 2 for `y` and 1 for the others |
| `DocumentedFormats.NamesIgnoreCase` | resource/web/assets/jquery/jquery-ui.js:9146 | A name stands at a place iff the texts differ in the case of ASCII letters at most |
| `DocumentedFormats.TicksCutDown` | resource/web/assets/jquery/jquery-ui.js:9200 | Ticks are cut down to whole milliseconds, towards 1970 |
| `DocumentedFormats.LiteralRead` | resource/web/assets/jquery/jquery-ui.js:9159-9164 | A literal is read from the same character only, and anything else, or the end, is an error at this place |
| `DocumentedFormats.BlankIsNull` | resource/web/assets/jquery/jquery-ui.js:9094-9096 | A blank value, and no other, gives null |
| `DocumentedFormats.Spaces` | resource/web/assets/jquery/jquery-ui.js:9220 | White space is just the characters of sections 7.2 and 7.3 of ECMA-262, edition 5.1: the numbers 9 to 13, 8192 to 8202, 32, 160, 5760, 8232, 8233, 8239, 8287, 12288 and 65279 |
| `DocumentedFormats.TrailingText` | resource/web/assets/jquery/jquery-ui.js:9218-9223 | A date that a well separated full format printed, with text after it that is no digit: it is read as the same day if the text begins with white space, and otherwise refused, with just that text in the error |
| `PossibleChars.PossibleChars` | resource/web/assets/jquery/jquery-ui.js:9385-9425 | The loop of `_possibleChars`, which does not skip doubled letters, collects what its recursive form says |
| `PossibleChars.CollectedIs` | resource/web/assets/jquery/jquery-ui.js:9385-9425 | Though it steps differently, it gives up iff the format has a name and otherwise collects exactly the characters announced by the tokens of `formatDate` |
| `PossibleChars.WrittenIsAdmitted` | resource/web/assets/jquery/jquery-ui.js:9385-9425 | Without names, for every time, all characters that `formatDate` writes are admitted iff the digits owed by `o` and `!` are supplied by another number of the format or by its literal text, and the sign, if some number is negative, by literal text |
| `PossibleChars.YearDayNotAdmitted` | resource/web/assets/jquery/jquery-ui.js:9407-9420 | A concrete failure: the format `o` admits only the letter, while 1 January 1970 is written `1` |
| `PossibleChars.SignNotAdmitted` | resource/web/assets/jquery/jquery-ui.js:9407-9408 | Another: the format `y` admits only digits, while 1 January 1850 is written `0-50` |
| `CallbackObject.Callbacks.constructor` | resource/web/assets/jquery/jquery.js:2 | A new list of given flags is in the initial state of the state machine |
| `CallbackObject.Callbacks.Add` | resource/web/assets/jquery/jquery.js:2 | `add`, with its loop and its replay of the memory, takes the step that the state machine says |
| `CallbackObject.Callbacks.Remove` | resource/web/assets/jquery/jquery.js:2 | `remove` takes out every place of every function, with the corrections of index and length, as the state machine says; what is left is said by `CallbackRuns.RemoveAllIs` |
| `CallbackObject.Callbacks.InArray` | resource/web/assets/jquery/jquery.js:2 | The search gives the first place of a function from a position on, or -1 if there is none |
| `CallbackObject.Callbacks.FireWith` | resource/web/assets/jquery/jquery.js:2 | `fireWith` fires, queues or ignores as the state machine says |
| `CallbackObject.Callbacks.Return` | resource/web/assets/jquery/jquery.js:2 | When a callback returns, the firing loop goes on to the next call, into a queued fire, or to rest, as the state machine says |
| `CallbackObject.Callbacks.Lock` | resource/web/assets/jquery/jquery.js:2 | `lock` drops the queue and disables a list without memory |
| `CallbackObject.Callbacks.Disable` | resource/web/assets/jquery/jquery.js:2 | `disable` forgets list, queue and memory |
| `CallbackDelivery.RemoveAtKeeps` | resource/web/assets/jquery/jquery.js:2 | Removing an entry during a walk keeps the invariant: those called so far followed by the rest of the list are those due and not removed before their turn |
| `CallbackDelivery.RunKeeps` | resource/web/assets/jquery/jquery.js:2 | That invariant holds after every sequence of actions, in whatever way callbacks add, remove and fire |
| `CallbackDelivery.EachDueCalledOnce` | resource/web/assets/jquery/jquery.js:2 | In every run a finished walk has called an entry iff it was due and not removed before its turn, never twice, and in the order of registration |
| `CallbackDelivery.IndexDivides` | resource/web/assets/jquery/jquery.js:2 | At any moment of a walk the due entries at positions up to firingIndex have been called and those behind it have not |
| `CallbackDelivery.FiresInOrder` | resource/web/assets/jquery/jquery.js:2 | Fires are carried out in the order asked for, and an idle list that was not locked or disabled owes none |
| `CallbackDelivery.DisabledForGood` | resource/web/assets/jquery/jquery.js:2 | A disabled list stays disabled: no walk begins or is finished any more |
| `CallbackRuns.RemoveAllIs` | resource/web/assets/jquery/jquery.js:2 | After `remove` the list holds exactly the former entries of other functions, in their order |
| `CallbackRuns.RemovedNotCalled` | resource/web/assets/jquery/jquery.js:2 | A function that has been removed, and is not added again, is called by no later turn of any run, and is listed at no later moment |
| `CallbackRuns.RunKind` | resource/web/assets/jquery/jquery.js:2 | The flags of a list never change |
| `CallbackHistory.OnlyRemovedSkipped` | resource/web/assets/jquery/jquery.js:2 | In every run a finished walk has called everybody who was due, except functions that somebody removed |
| `CallbackHistory.FireCallsListed` | resource/web/assets/jquery/jquery.js:2 | At any moment of a fire that is no replay, exactly those listed at positions up to firingIndex have been called, so that nobody on the list is passed over |
| `CallbackHistory.MemoryMeansCalled` | resource/web/assets/jquery/jquery.js:2 | At rest, a list with a memory has called everybody on it, unless the function was removed at some time |
| `CallbackHistory.MemoryIsLastFire` | resource/web/assets/jquery/jquery.js:2 | A list with `memory` remembers the data of its last fire, others nothing, and newcomers are called with just that |
| `CallbackHistory.UniqueMeansOnce` | resource/web/assets/jquery/jquery.js:2 | A list with `unique` never holds a function twice |
| `OpenLists.EveryFireCarriedOut` | resource/web/assets/jquery/jquery.js:2 | Main result: a list that is not "once" and that nobody locks or disables carries out all that the acts fire, in order (finished walks, the one under way, and the queue make up what was fired); and whatever walks are under way, its functions are those of a plain list under the same adds and removes |
| `OpenLists.TakenIs` | resource/web/assets/jquery/jquery.js:2 | Adding to that plain list keeps the order and leaves nobody out, and a unique one stays free of duplicates |
| `OpenLists.OnlyFirstFire` | resource/web/assets/jquery/jquery.js:2 | A list of the kind "once" carries out the first of the fires and no other; then it is empty if it has a memory, and disabled otherwise |
| `OpenLists.AfterLock` | resource/web/assets/jquery/jquery.js:2 | After `lock` nothing fired is ever carried out, nor what was queued; a list without memory is disabled, one with a memory goes on and never loses it unless disabled |
| `OpenLists.OpenThenLocked` | resource/web/assets/jquery/jquery.js:2 | A list with a memory that is open and then locked stands iff something was fired before the lock, and carries out only that |
| `OpenLists.FireStarts` | resource/web/assets/jquery/jquery.js:2 | A fire at rest calls the first on the list, with the whole list due |
| `OpenLists.AddReplays` | resource/web/assets/jquery/jquery.js:2 | Adding at rest to a list that remembers calls the first of those added, with the remembered data, and just they are due |
| `OpenLists.ReturnGoesOn` | resource/web/assets/jquery/jquery.js:2 | When a callback returns the next on the list is called with the same data, and after the last the walk is finished |
| `OpenLists.ComesToRest` | resource/web/assets/jquery/jquery.js:2 | From every reachable state finitely many returns alone bring the list to rest, fires queued included |
| `OnceMemory.FireUnfired` | resource/web/assets/jquery/jquery.js:2 | The first fire of a "once memory" list calls all registered so far, in order, up to those still to come |
| `OnceMemory.FireAgain` | resource/web/assets/jquery/jquery.js:2 | Any further fire changes nothing at all |
| `OnceMemory.AddUnfired` | resource/web/assets/jquery/jquery.js:2 | Registering before the fire only gathers |
| `OnceMemory.AddFired` | resource/web/assets/jquery/jquery.js:2 | Registering after it joins the walk under way or calls at once, with the remembered data, keeping the order of registration |
| `OnceMemory.ResumeFired` | resource/web/assets/jquery/jquery.js:2 | The walk goes on entry by entry until all ever registered have been called |
| `DeferredObject.Deferral.constructor` | resource/web/assets/jquery/jquery.js:2 | A new Deferred has its three internal callbacks first on both settling lists and is pending |
| `DeferredObject.Deferral.Register` | resource/web/assets/jquery/jquery.js:2 | `done`, `fail` and `progress` on the three list objects take the step of the state machine and keep its invariant |
| `DeferredObject.Deferral.Settle` | resource/web/assets/jquery/jquery.js:2 | So do `resolveWith`, `rejectWith` and `notifyWith`, with the internal callbacks run first; the first resolve or reject fixes the outcome. What becomes of a notification is said by `Notifications.PendingProgress` |
| `DeferredObject.Deferral.Finish` | resource/web/assets/jquery/jquery.js:2 | So does the return of the innermost callback |
| `Deferred.SettleFirst` | resource/web/assets/jquery/jquery.js:2 | The first resolve or reject sets the state, disables the rival list and locks the progress list before any user's callback runs |
| `Deferred.SettledForGood` | resource/web/assets/jquery/jquery.js:2 | Once settled, resolving, rejecting and notifying change nothing at all |
| `Deferred.StepConsistent` | resource/web/assets/jquery/jquery.js:2 | Every act, from within callbacks or not, keeps the invariant and the outcome |
| `Deferred.RunRecords` | resource/web/assets/jquery/jquery.js:2 | Over a whole run the winning list records exactly the functions registered on it, in order |
| `Deferred.WinnerCalls` | resource/web/assets/jquery/jquery.js:2 | In a settled state the calls made on the winning list are a beginning of its registrations, all of them unless a walk is under way, each with the settling data; the rival list has made none |
| `Deferred.EveryRun` | resource/web/assets/jquery/jquery.js:2 | Main result: in every re-entrant run the first resolve or reject decides for good; on the winning list all functions, registered before, during or after, are called once, in order, with the same data; on the rival list nobody is ever called |
| `Deferred.ProgressInOrder` | resource/web/assets/jquery/jquery.js:2 | In every run each finished walk over the progress list has called all that were due once and in order; fires of it are carried out in the order it took them up; which these are is said by `Notifications.PendingProgress` and `Notifications.SettledProgress` |
| `Deferred.InnermostFirst` | resource/web/assets/jquery/jquery.js:2 | A walk that begins nests inside those under way, and when a callback returns only the innermost walk goes on |
| `Notifications.NotifyCalls` | resource/web/assets/jquery/jquery.js:2 | While pending, a notification at rest calls the first function on the progress list, a user's, with its data and with all on the list due |
| `Notifications.RunMeans` | resource/web/assets/jquery/jquery.js:2 | In every run the progress list has just done what a callback list does under adds for the registrations, fires for the notifications and a lock for the settling, so that all results on callback lists hold of it |
| `Notifications.PendingProgress` | resource/web/assets/jquery/jquery.js:2 | Main result: in every run without resolve or reject, the data given to `notify`, in order, are what finished walks, the one under way and the queue have, and at rest finished walks alone; and everybody registered on the progress list stands on it, in order |
| `Notifications.SettledProgress` | resource/web/assets/jquery/jquery.js:2 | With a resolve or reject, only what was notified before the first is ever carried out; the progress list is disabled iff that is nothing, and otherwise keeps what it remembered |
| `Notifications.AllAreNotified` | resource/web/assets/jquery/jquery.js:2 | Finished walks over the progress list have called all that were due, and at rest, once something was carried out, everybody listed has been called |
| `WhenObject.Gather` | resource/web/assets/jquery/jquery.js:2 | The arrays, the set-up loop over plain values and promises, settled or not, with and without a report to repeat, and the final check leave just the state that `When.Started` describes, and its invariant |
| `WhenObject.Gathering.Handle` | resource/web/assets/jquery/jquery.js:2 | Every later arrival, rejection, report or act on the master takes the step of the state machine, on the arrays in place, and keeps the invariant |
| `When.SetUpKeeps` | resource/web/assets/jquery/jquery.js:2 | Each turn of the set-up loop counts and stores one input, repeats its remembered report, and settles the master only when that is due |
| `When.StartedOk` | resource/web/assets/jquery/jquery.js:2 | Set-up as a whole leaves the invariant, whatever had become of the inputs before |
| `When.StepKeeps` | resource/web/assets/jquery/jquery.js:2 | Every later event keeps the invariant |
| `When.UnresolvedZero` | resource/web/assets/jquery/jquery.js:2 | The number of unresolved inputs is zero iff each is a plain value or resolved |
| `When.MasterFollowsInputs` | resource/web/assets/jquery/jquery.js:2 | Main result: at every moment of every run from the call on, the counter is the number of inputs not resolved; the master is resolved iff all are, and then calls its done list only, with the values in argument order whatever the order of arrival (a single argument by itself, several as an array, none as undefined); it is rejected iff one is, and then calls its fail list only, with the first reason; all registered are called unless a walk is under way |
| `WhenHistory.InputsFollowEvents` | resource/web/assets/jquery/jquery.js:2 | At every moment an input is what it was at the call, or what the one event that settled it since then says |
| `WhenHistory.FirstRejection` | resource/web/assets/jquery/jquery.js:2 | The reason is that of the first input rejected before the call, or else of the first rejection since, and stays |
| `WhenHistory.LastReportsStand` | resource/web/assets/jquery/jquery.js:2 | At every moment of every run the arrays handed to progress callbacks hold the last report of each input, before or after the call, and nothing for inputs that never reported |
| `WhenHistory.ReportNotifies` | resource/web/assets/jquery/jquery.js:2 | Each report notifies the master with those arrays, the new report in its place, and changes nothing else |
| `WhenHistory.MasterIsADeferred` | resource/web/assets/jquery/jquery.js:2 | The master is in a state that acts on a Deferred lead to, with the users' functions registered in their order |
| `WhenHistory.MasterCallsUsers` | resource/web/assets/jquery/jquery.js:2 | Main result: once the master is resolved and no walk is under way, its done list has called all that users registered on it, each once, in order and with the values of all inputs; once it is rejected, its fail list with the first reason |
| `Color.HueShowsChannels` | resource/web/assets/jquery/jquery-ui.js:14669-14677 | With the hue unrounded, the wave of `hue2rgb` at the three places gives exactly the three channels' shares of the span |
| `Color.LevelsRecovered` | resource/web/assets/jquery/jquery-ui.js:14681-14700 | q and p recover the largest and the smallest channel exactly from saturation and lightness |
| `Color.HslOfColors` | resource/web/assets/jquery/jquery-ui.js:14654-14688 | Hue, saturation and lightness lie in 0..359, 0..1 and 0..1; just the greys have no saturation, and their hue is 0; pure red, green and blue, and their tints and shades, have the hues 0, 120 and 240 |
| `Color.Hue2RgbIsGentle` | resource/web/assets/jquery/jquery-ui.js:14640-14652 | `hue2rgb` changes by at most 6 (q - p) times the change of the hue, round the circle too |
| `Color.ChannelBack` | resource/web/assets/jquery/jquery-ui.js:14702-14708 | A channel whose share stands on the wave comes back, from a hue at most half a degree off, within the span over 120, rounded |
| `Color.RoundTrip` | resource/web/assets/jquery/jquery-ui.js:14654-14709 | From red, green, blue to hue, saturation, lightness and back every channel is off by at most (span + 60) div 120: nothing for greys and spans below 60, never more than 2 |
| `Color.GreyBack` | resource/web/assets/jquery/jquery-ui.js:14654-14709 | A grey comes back exactly, with whatever whole hue its saturation and lightness are combined |
| `Color.AlwaysBytes` | resource/web/assets/jquery/jquery-ui.js:14691-14709 | For a whole hue, all saturations and lightnesses in 0..1 come out in 0..255 iff the hue is not below -240 |
| `Color.ClampLeavesTurnsOut` | resource/web/assets/jquery/jquery-ui.js:14380-14384 | `clamp` changes a hue by whole turns only, gives less than one turn, and no negative hue from -360 on |
| `Color.ClampedGivesBytes` | resource/web/assets/jquery/jquery-ui.js:14371-14384 | `clamp` takes a hue where that holds iff it is at least -360 or not more than 240 short of a turn |
| `Color.NegativeBlue` | resource/web/assets/jquery/jquery-ui.js:14380-14384 | A concrete failure: -700 is clamped to -340, and a pure colour of that hue has a blue of -425 |
| `Color.TwoIsLost` | resource/web/assets/jquery/jquery-ui.js:14654-14709 | The bound is met: (255, 2, 0) comes back as (255, 0, 0) |
| `Slider.NewMaxIsLast` | resource/web/assets/jquery/jquery-ui.js:12196-12203 | The recomputed maximum is the last grid point that does not exceed the maximum |
| `Slider.TrimAlignIs` | resource/web/assets/jquery/jquery-ui.js:12176-12194 | Rounding by remainder gives the grid point whose number is the position plus a half, rounded down, within the ends |
| `Slider.AlignsToNearest` | resource/web/assets/jquery/jquery-ui.js:12176-12203 | `_trimAlignValue` gives a grid point between min and the recomputed maximum that no grid point is nearer than, and the larger of two equally near |
| `Slider.AlignMonotone` | resource/web/assets/jquery/jquery-ui.js:12176-12194 | Larger values never align to smaller points |
| `Slider.AlignIdempotent` | resource/web/assets/jquery/jquery-ui.js:12176-12194 | Aligning twice is aligning once |
| `Slider.Handles.Slide` | resource/web/assets/jquery/jquery-ui.js:11957-11985 | `_slide` on several handles, with the callback's answer, leaves the values that the state function says |
| `Slider.Handles.SetValue` | resource/web/assets/jquery/jquery-ui.js:12046-12051 | Setting one value stores the grid point nearest to it within the ends, which is then what the getter gives, and leaves the other handles as they are |
| `Slider.SlideShows` | resource/web/assets/jquery/jquery-ui.js:11957-11985 | After an allowed slide of a range the moved handle shows the aligned new value or the other handle's value, whichever comes first, and the other handle stays |
| `Slider.UnlimitedSlide` | resource/web/assets/jquery/jquery-ui.js:11957-11985 | Handles that form no range, or are not two, are not limited: the moved one shows the aligned new value, the others stay |
| `Slider.CancelledSlide` | resource/web/assets/jquery/jquery-ui.js:11972-11984 | A slide that the callback cancels changes nothing |
| `Slider.SlideKeepsOrder` | resource/web/assets/jquery/jquery-ui.js:11962-11984 | An allowed slide puts the handles in order, a cancelled one leaves them |
| `Slider.HandlesNeverCross` | resource/web/assets/jquery/jquery-ui.js:11962-11984 | Over any sequence of slides the values that the getter shows stay in order |
| `Slider.StoredNeverCross` | resource/web/assets/jquery/jquery-ui.js:11962-11984 | The values stored, which the getter aligns, stay in order over every sequence of slides iff they begin in order and neither lies beyond its own aligned value towards the other |
| `Slider.AlignedIsSafe` | resource/web/assets/jquery/jquery-ui.js:11962-11984 | Aligned values in order, such as the setter and former slides leave, are such |
| `Slider.StoredValuesCross` | resource/web/assets/jquery/jquery-ui.js:11962-11984 | A concrete failure: from 4.6 and 4.7 on whole numbers, sliding the first handle to 4 and then to 5 stores 5 and 4.7 |
| `Tabs.TabSet.SetupDisabled` | resource/web/assets/jquery/jquery-ui.js:13333-13356 | The option is simplified to false or true where it can be, and each tab is marked iff it is disabled |
| `Tabs.TabSet.Enable` | resource/web/assets/jquery/jquery-ui.js:13615-13636 | `enable` leaves the option in the state that the lemmas below are about, with the marks following it |
| `Tabs.TabSet.Disable` | resource/web/assets/jquery/jquery-ui.js:13638-13658 | So does `disable` |
| `Tabs.TabSet.Drop` | resource/web/assets/jquery/jquery-ui.js:13626-13632 | The loop of `$.map` keeps the list without the index, in order |
| `Tabs.TabSet.FindNextTab` | resource/web/assets/jquery/jquery-ui.js:13092-13110 | The cyclic search ends, at the first enabled tab in its direction from where it starts; if all are disabled, where it starts |
| `Tabs.SomeEnabled` | resource/web/assets/jquery/jquery-ui.js:13105-13107 | A list shorter than the number of tabs leaves an enabled one within n - 1 steps of anywhere, which is why the search ends |
| `Tabs.EnableDenotes` | resource/web/assets/jquery/jquery-ui.js:13615-13636 | Enabling takes exactly this tab out of the disabled set and keeps the form canonical |
| `Tabs.DisableDenotes` | resource/web/assets/jquery/jquery-ui.js:13638-13658 | Disabling adds the index, if it is a tab, to the disabled set and keeps the form canonical iff the index is in range or all tabs are disabled already |
| `Tabs.NoTabDisablesAll` | resource/web/assets/jquery/jquery-ui.js:13638-13658 | A concrete failure: disabling tab 5 of a single tab disables that one |
| `Tabs.RunDenotes` | resource/web/assets/jquery/jquery-ui.js:13615-13658 | In every run of enable and in-range disable calls the mixed form is canonical and denotes the true set of disabled tabs |
| `Selectable.Lasso.MouseStart` | resource/web/assets/jquery/jquery-ui.js:4279-4346 | The press sets class and flags of every item, and of the item pressed on, as the item functions say |
| `Selectable.Lasso.MouseDrag` | resource/web/assets/jquery/jquery-ui.js:4348-4439 | Each move sets class and flags of every item by whether the rectangle hits it, under either tolerance |
| `Selectable.Lasso.MouseStop` | resource/web/assets/jquery/jquery-ui.js:4441-4470 | The release turns selecting items into selected ones and clears the unselecting ones |
| `Selectable.Lasso.PlainDrag` | resource/web/assets/jquery/jquery-ui.js:4279-4470 | A whole drag without keys over any path leaves selected exactly the items that the last rectangle hits, and nobody marked as selecting or unselecting |
| `Selectable.HitByPoints` | resource/web/assets/jquery/jquery-ui.js:4364-4380 | Wherever the drag begins and ends, an item is touched iff it shares a point with the rectangle between, and fits iff all its points lie strictly inside |
| `Selectable.NeverBoth` | resource/web/assets/jquery/jquery-ui.js:4279-4470 | After every event of every drag, with keys pressed and let go at will, no item is both selecting and unselecting, flags and classes of these agree, and the release clears them |
| `Selectable.PlainDragSelects` | resource/web/assets/jquery/jquery-ui.js:4279-4470 | The same for one item: selected iff the last rectangle hits it, whatever earlier rectangles and the starting selection were |
| `Selectable.ModifierDragAdds` | resource/web/assets/jquery/jquery-ui.js:4279-4470 | With Ctrl or Meta held throughout, the hits are added to the selection; a selected item pressed on is given up unless some rectangle hits it |
| `Selectable.RestKept` | resource/web/assets/jquery/jquery-ui.js:4241-4257 | A refreshed idle item is at rest, and every drag leaves an item at rest so, whatever keys are held and whether or not items are refreshed before the next; the two results around this one hold of all items at rest |
| `Selectable.FlagLags` | resource/web/assets/jquery/jquery-ui.js:4348-4470 | After a plain drag the `selected` flag agrees with the class iff it is not a selected item that was pressed on and never hit |
| `Selectable.FlagLeftBehind` | resource/web/assets/jquery/jquery-ui.js:4348-4470 | Such a drag: the class is gone and the flag is still set |
| `Autocomplete.OnlyTheLatestAnswers` | resource/web/assets/jquery/jquery-ui.js:7402-7415 | In every run, answers in any order, an answer reaches `__response` iff no later request was issued before it |
| `Autocomplete.AnsweredOnce` | resource/web/assets/jquery/jquery-ui.js:7402-7415 | A request can be answered iff it has not been, and its responder returns iff it was called and has not returned |
| `Autocomplete.MenuOpens` | resource/web/assets/jquery/jquery-ui.js:7402-7435 | In every run an answer opens the menu, as far as the request decides it, iff no later request was issued before it and the widget was not closed since its request, or searched again after that, when its handlers are through; so if they do nothing, iff neither a search nor a close came between |
| `Autocomplete.CancelledIs` | resource/web/assets/jquery/jquery-ui.js:7394-7435 | `cancelSearch` is set iff the widget has been closed since the last search |
| `Autocomplete.PendingCounts` | resource/web/assets/jquery/jquery-ui.js:7394-7415 | `pending` is always the number of requests made less that of responders returned, never negative, and the loading mark is on exactly while it is positive |
| `Autocomplete.RunKeeps` | resource/web/assets/jquery/jquery-ui.js:7394-7415 | `pending` counts the open requests at every moment, handlers that search while an answer is dealt with included |
| `Autocomplete.Widget.Search` | resource/web/assets/jquery/jquery-ui.js:7394-7403 | `_search` and the responder's number take the step of the state machine and keep the invariant: the number is new, one more request is pending, and the loading mark is on |
| `Autocomplete.Widget.Respond` | resource/web/assets/jquery/jquery-ui.js:7405-7408 | The responder, called at most once, passes the answer on iff its number is still the latest |
| `Autocomplete.Widget.Responded` | resource/web/assets/jquery/jquery-ui.js:7410-7413 | The counter goes down by one, and the mark stays iff another request is open |

## Left out

- Time zones and daylight saving (`_daylightSavingAdjust`), and times within a day except in `@` and `!`: a date is a day number.
- Floating point: ticks, 20-digit numbers, colours and slider values are exact; the slider's rounding to five digits and `toFixed` do not appear.
- The validity range of a `Date` (about 285,000 years round 1970): day numbers are unbounded.
- Missing arguments and settings: formats, values and name lists are given; null dates, and names and cutoffs looked up in settings, are not modelled.
- Letter case is folded for ASCII letters only when names are compared; the order of equally long names is that of the list, as with a stable sort.
- The regular expressions for digits and white space are written as functions; no engine is modelled.
- The page: elements, styles, events, animation, focus and all HTML. In the month grid only the days of the cells remain.
- `_generateHTML` before the grid: which month is drawn first (`showCurrentAtPos`, stepping back from `maxDate`), and the selected day it caps.
- Instance.Inst.SetDate: `_determineDate`, which turns relative settings into a date, and the `current` fields and notifications are not modelled.
- Instance.PagingAddsUp: is about steps that the bounds do not hinder, because a bound may hold the date on any day.
- Callbacks: `stopOnFalse`, `empty`, exceptions thrown by callbacks, and nested argument lists of `add` are left out; a callback's end is an event, so nothing is said about callbacks that never return.
- Callbacks identify functions by equality; the number that tells two registrations of a function apart exists in the model only.
- Deferred: `then`, `pipe`, `always` and `promise`, which are built from the operations modelled; context and arguments are one value.
- Deferred.ProgressInOrder: does not promise that every notification is carried out, because settling locks the list and drops those queued.
- When: what a promise had reported before the call is repeated during set-up and then not kept up to date.
- When: a single promise is handed back as it is, so the model starts with the other cases; for no input or one plain value the code hands on an undefined array of contexts where the model has one without entries.
- When: the array of contexts is handed to progress callbacks by reference, so that they see later entries; the model hands on its value.
- Color.ClampedGivesBytes: takes whole numbers; the truncation of others, and of numbers beyond 32 bits, is not modelled.
- Colour: missing channels and the alpha channel, which is passed through.
- Slider: the value of a single handle, setting all values at once (which may leave them out of order), a step that is not positive, and callbacks that change the values themselves.
- Tabs.TabSet.Disable: the list's order, because the code sorts numbers as text, and nothing looks at it.
- Tabs: looking an index up by its link, and tabs being added or removed.
- Selectable: items that move or appear during a drag, and the option that disables the widget.
- Autocomplete: the menu itself, which also stays closed without content or when disabled, the delay before searching, and sources other than through the responder.
- Everything else in both libraries (selectors, requests, event delegation, dragging, resizing, sorting, spinner), bootstrap and the page scripts: bound to the browser, or without properties beyond their own text.
- The Java client and the PHP upload scripts: network and file access, reflection and table look-up.
