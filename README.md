# daterange-parser, modelled in Dafny

`daterange` turns English date-range text such as "9 December 2020 – 28 February 2021",
"1 Jan - 31 Dec 2000" or "1 - 31 December 2000" into a `DateRange`: the first nanosecond of
the first day and the last nanosecond of the second. `NewParser` builds a `Parser` with
twelve case-insensitive month regexps and three constructors, one per shape of range (both
dates in full; the year shared; the month and the year shared). Each constructor holds a
pattern, the regexp compiled from it and a handler that feeds its capture groups to
`startDate` and `endDate`. `Parse` tries the constructors in that order and the first
regexp that finds a match decides the result. With no match, `Parse` returns an error.

The model, module by module:

- `Wrappers`: `Option`.
- `Lexical`: the character classes `\d` (ASCII digits), `\s` (`\t \n \f \r` and space) and
  the separator class `[–-]`. Also decimal values and fixed-width numerals.
- `Months`: the twelve month patterns (`jan(?:uary)?` …) as an abbreviation plus an optional
  suffix, matched under `(?i)` with Go's simple case folding. `MatchString` searches
  anywhere in the text. `ParseMonth` picks the first pattern that matches, and a proof shows
  the lexicon is unambiguous.
- `Recogniser`: `FindStringSubmatch` for the three constructor patterns, over their token
  templates. It is unanchored and leftmost, and returns the whole match followed by the
  capture groups.
- `Resolver`: `strconv.Atoi` over the int64 range, then `parseDay`/`parseYear`,
  `startDate`/`endDate` and the handlers as a `Layout` of capture indices. It also holds
  `Result` and the errors: `NoMatch` (Parse's "could not parse date range") and
  `InvalidField`, which stands where `parseDay`/`parseYear` would call `log.Fatal`.
- `Rendering`, `Kinds`: text built from tokens and gaps, and the kind of each character.
  These are used to prove what a pattern matches and what it cannot match.
- `DateRangeParser`: the shapes, their templates and handlers, the constructor table, `Parse`
  as a first-finder search, and the class `Parser` with its `NewParser` constructor, `Parse`
  and `parseMonth` methods.
- `Properties`: what `Parse` promises for every input:
  - it never reaches `log.Fatal`;
  - the empty text is rejected, and so is any text in which no letter directly follows a
    digit or a space;
  - the shapes are tried in order.
- `RoundTrip`: any range written in one of the three shapes parses to the dates it spells.
  This holds for any run of whitespace, either separator and either spelling of each month.
- `Texts`, `Examples`: the package's own test cases as instances of the round trips.
- `AsWritten`: the one test case that, as written, the parser rejects (see "Findings").

## Model

| member | source | states |
|---|---|---|
| DateRangeParser.Parser.constructor | date_range.go:32-86 | `NewParser` leaves the twelve month patterns in calendar order as the month regexps, and the three constructors, in order, each with its pattern compiled over those months and its handler |
| DateRangeParser.TableFromPatterns | date_range.go:60-83 | the compiled table is the list of patterns with every regexp compiled; order, patterns and handlers are unchanged |
| DateRangeParser.WithRegexp | date_range.go:81-83 | compiling a constructor sets its regexp to its own pattern compiled, and keeps the pattern and handler |
| DateRangeParser.Table | date_range.go:60-79 | the parser holds three constructors, each shape at its own place in the order (full, shared year, shared month and year) |
| DateRangeParser.Template | date_range.go:62-74 | every pattern starts with a day group and ends with a year group |
| DateRangeParser.TemplateReads | date_range.go:60-79 | each handler reads years from year groups, months from month groups and days from day groups of its own pattern |
| DateRangeParser.FullBothCaptures | date_range.go:62 | the full pattern's groups are day, month, year, day, month, year |
| DateRangeParser.SharedYearCaptures | date_range.go:68 | the shared-year pattern's groups are day, month, day, month, year |
| DateRangeParser.SharedMonthYearCaptures | date_range.go:74 | the shared-month-and-year pattern's groups are day, day, month, year |
| DateRangeParser.EntryCompiled | date_range.go:60-83 | each handler reads only capture groups that its regexp has |
| DateRangeParser.TableCompiled | date_range.go:60-83 | every constructor of the table is compiled and its handler stays within its groups |
| DateRangeParser.ParseWith | date_range.go:92-100 | the result is the no-match error exactly when no constructor's regexp finds a match; otherwise the first constructor that finds one decides, through its handler, on its captures |
| DateRangeParser.ParseText | date_range.go:89-101 | `Parse` fails with the no-match error exactly when none of the three shapes matches anywhere in the text |
| DateRangeParser.Parser.Parse | date_range.go:89-101 | the loop over the constructors returns what the first-finder search over the table returns |
| DateRangeParser.Parser.ParseMonth | date_range.go:120-129 | the loop over the month regexps returns the month that the first-match search over them returns |
| Months.ParseMonth | date_range.go:120-129 | the result is the 1-based place of the first month regexp that matches; every earlier one fails; 0 exactly when none matches |
| Months.ParseMonthFrom | date_range.go:121-128 | a search that starts at regexp `j` returns 0 or a later place; the regexp found matches and none skipped does |
| Months.LexiconUnambiguous | date_range.go:35-48 | every abbreviation has three lower-case letters, and no month's abbreviation occurs inside another month's full name |
| Months.SpellingResolves | date_range.go:120-129 | over an unambiguous lexicon, `parseMonth` of an abbreviation or full name of month `k`, in any letter case, is `k` |
| Months.MonthTokenResolves | date_range.go:35-48 | every spelling of month `k` in the twelve patterns resolves to `k` |
| Months.OtherMonthsDoNotMatch | date_range.go:121-126 | no other month's regexp matches a spelling of month `k` |
| Months.MonthAtFrom | date_range.go:58 | the alternation tried from alternative `j` on finds a later month, and its match ends within the text |
| Months.MonthAt | date_range.go:58 | the month alternation at a position finds one of the months, and its match ends within the text |
| Months.MonthStartsWithLetter | date_range.go:58 | a month group matches only where the text has an ASCII letter or one of the two non-ASCII characters that fold to `s` and `k` |
| Months.MonthAtSpells | date_range.go:62-74 | what a month group matches is a spelling of the month found |
| Months.MonthAtToken | date_range.go:62-74 | a month group reads exactly a month name that is followed by a digit, space or separator, and finds that month |
| Recogniser.SkipSpace | date_range.go:62 | `\s*` takes the longest run of whitespace: everything it skips is whitespace, and it stops at the end or at a character that is not |
| Recogniser.ReadToken | date_range.go:62-74 | a token read at a position ends between that position and the end of the text |
| Recogniser.ReadTokenFits | date_range.go:62-74 | the text a token reads is of its kind: one or two digits, four digits, a month spelling or one separator |
| Recogniser.MatchTokens | date_range.go:62-74 | a match of the token sequence ends between its start and the end of the text |
| Recogniser.MatchTokensCaptures | date_range.go:62-74 | a match has one capture per capture group |
| Recogniser.MatchTokensFit | date_range.go:62-74 | each capture of a match holds text of its group's kind |
| Recogniser.LeftmostFrom | date_range.go:93 | the search from position `p` returns the first position at which the pattern matches, and nothing only when no position from `p` on matches |
| Recogniser.MatchAt | date_range.go:62-74 | a match at a position exists exactly when the token sequence matches there, and yields the whole matched text followed by the captured strings, one per capture group |
| Recogniser.MatchAtFits | date_range.go:62-74 | each group of a match holds text of its kind: 1–2 digits, 4 digits, a month spelling |
| Recogniser.FindStringSubmatch | date_range.go:93 | the result is empty exactly when no start position matches; otherwise it is the match at some position, with one entry per group plus the whole match |
| Rendering.LeftmostIs | date_range.go:93 | a match with no match at any earlier position is the one `FindStringSubmatch` returns |
| Rendering.MatchWritten | date_range.go:62-74 | a pattern matches text written as its tokens with whitespace between them, and captures those tokens |
| Rendering.NoMatchWithoutDigit | date_range.go:62-74 | no pattern matches where the text has no digit, because every pattern starts with a day group |
| Resolver.Atoi | date_range.go:112 | Go's `strconv.Atoi`: the empty string fails; digits give their value up to 2^63 - 1 and fail above; `+` digits likewise; `-` digits give the negative value down to -2^63 and fail below; anything else fails |
| Resolver.ParseNumber | date_range.go:111-118 | `parseDay` succeeds exactly when `Atoi` does and returns its value; otherwise it reports the field where `log.Fatal` would stop the program |
| Resolver.DateOf | date_range.go:103-109 | a date is built from the parsed year and day, the month that `parseMonth` finds and the given time of day; it fails on the year first, then on the day |
| Resolver.StartDate | date_range.go:103-105 | `startDate` succeeds when year and day parse, and is then the date with the parsed year, the looked-up month and the parsed day at 00:00:00.000000000 |
| Resolver.EndDate | date_range.go:107-109 | `endDate` succeeds when year and day parse, and is then the date with the parsed year, the looked-up month and the parsed day at 23:59:59.999999999 |
| Resolver.DayBounds | date_range.go:103-109 | the start and end of one day share year, month and day, and lie one nanosecond short of a day apart |
| Resolver.Handle | date_range.go:63-77 | a handler gives the range of `startDate` and `endDate` over its capture indices; a failure names one of the year or day fields it reads |
| Resolver.HandleOutcome | date_range.go:63-77 | a handler succeeds exactly when `startDate` and `endDate` both do; otherwise it reports the failure of `startDate` if there is one, else that of `endDate` |
| Resolver.DayFieldParses | date_range.go:111-118 | a 1–2 digit day parses to its decimal value, below 100, without `log.Fatal` |
| Resolver.YearFieldParses | date_range.go:131-138 | a 4-digit year parses to its decimal value, below 10000, without `log.Fatal` |
| Resolver.YearRoundTrip | date_range.go:131-138 | any year below 10000, written with four digits, parses back to itself |
| Resolver.AtoiNegative | date_range.go:132 | `Atoi` reads a minus sign followed by up to four digits as the negative value |
| Resolver.AtoiShortDigits | date_range.go:112 | up to four digits never overflow and give their decimal value |
| Properties.HandleFields | date_range.go:63-77 | a handler over well-formed captures gives the first nanosecond of the start date and the last of the end date, with the spelled months |
| Properties.FittingCaptures | date_range.go:63-77 | a handler over captures that fit their groups succeeds, with fields in range and the start and end times of day |
| Properties.TriedNeverFatal | date_range.go:92-100 | trying any compiled constructors in turn either finds nothing or yields a range whose fields parsed |
| Properties.TableReads | date_range.go:60-83 | every constructor of the table is compiled over the parser's months and its handler reads the right kinds |
| Properties.ParseNeverFatal | date_range.go:111-138 | on every text, `Parse` either reports no match or returns a range whose years, months and days parsed, at 00:00 and 23:59:59.999999999: `log.Fatal` is never reached |
| Properties.NoDigitNoMatch | date_range.go:89-101 | a text without digits is rejected with the no-match error |
| Properties.DayThenMonth | date_range.go:62-74 | where a pattern has a day group followed by a month group, a match puts a letter right after a digit or a whitespace character |
| Properties.NoLetterAfterDigitOrSpaceRejected | date_range.go:62-100 | a text in which no letter directly follows a digit or a whitespace character matches none of the patterns and is rejected with the no-match error |
| Properties.EmptyTextRejected | date_range_test.go:11-17 | `Parse("")` returns an error |
| Properties.FullBothOrder | date_range.go:62 | a match of the full pattern has a character that is not a digit, whitespace or a separator (the month's first letter), then a digit, then a separator |
| Properties.SharedYearOrder | date_range.go:68 | a match of the shared-year pattern has a character that is not a digit, whitespace or a separator (the month's first letter) before a separator |
| Properties.FullBothAbsent | date_range.go:62 | a text with no character that is not a digit, whitespace or a separator, followed later by a digit and then a separator, does not match the full pattern |
| Properties.SharedYearAbsent | date_range.go:68 | a text with no character that is not a digit, whitespace or a separator before a separator does not match the shared-year pattern |
| Properties.ShapeFound | date_range.go:93 | a shape written after leading whitespace is found, with its tokens as the capture groups |
| Properties.ParsedAs | date_range.go:92-97 | when shape `p` matches and no earlier shape does, `Parse` is `p`'s handler applied to `p`'s captures |
| RoundTrip.FullBothRoundTrip | date_range.go:62-65 | "d month yyyy – d month yyyy", with any whitespace and either separator, parses to the first nanosecond of the first date and the last of the second, whatever follows |
| RoundTrip.FullBothFound | date_range.go:62 | the full pattern captures the written tokens |
| RoundTrip.SharedYearRoundTrip | date_range.go:68-71 | "d month – d month yyyy" parses to both days in the one year, each in its own month |
| RoundTrip.SharedYearFound | date_range.go:68 | the shared-year pattern captures the written tokens |
| RoundTrip.SharedYearParsed | date_range.go:92-97 | the full pattern does not match such a text, so the shared-year handler decides |
| RoundTrip.SharedYearKinds | date_range.go:62 | such a text has no character that is not a digit, whitespace or a separator, then a digit, then a separator, in that order |
| RoundTrip.SharedMonthYearRoundTrip | date_range.go:74-77 | "d – d month yyyy" parses to both days in the one month and year |
| RoundTrip.SharedMonthYearFound | date_range.go:74 | the shared-month-and-year pattern captures the written tokens |
| RoundTrip.SharedMonthYearParsed | date_range.go:92-97 | neither earlier pattern matches such a text, so its own handler decides |
| RoundTrip.SharedMonthYearAlone | date_range.go:62-68 | a text with no character that is not a digit, whitespace or a separator before a separator matches neither the full nor the shared-year pattern |
| Examples.FullBothExample | date_range.go:62-65 | a range written in full, over any unambiguous month lexicon such as the twelve patterns, parses to the dates whose numerals and month names it holds |
| Examples.SharedYearExample | date_range.go:68-71 | the same for the shared-year shape, over any unambiguous month lexicon such as the twelve patterns |
| Examples.SharedMonthYearExample | date_range.go:74-77 | the same for the shared-month-and-year shape, over any unambiguous month lexicon such as the twelve patterns |
| Examples.FullRange | date_range_test.go:26 | "1 January 1900 - 31 December 2000" parses to 1900-01-01 00:00 through 2000-12-31 23:59:59.999999999 |
| Examples.EnDashRange | date_range_test.go:27 | the en-dash case as its test evidently intends it, with plain spaces: "9 December 2020 – 28 February 2021" parses to 2020-12-09 00:00 through 2021-02-28 23:59:59.999999999 |
| AsWritten.NoBreakSpaceRange | date_range_test.go:27 | the en-dash case as the test writes it, "9\u00A0December\u00A02020 – 28\u00A0February\u00A02021" with no-break spaces inside each date, is rejected with the no-match error |
| Examples.PaddedFullRange | date_range_test.go:28 | leading and trailing spaces do not change the result |
| Examples.LineBrokenFullRange | date_range_test.go:29 | line breaks around the separator do not change the result |
| Examples.UnspacedFullRange | date_range_test.go:30 | "1January1900-31December2000" parses like the spaced text |
| Examples.AbbreviatedFullRange | date_range_test.go:31 | "Jan" and "Dec" give the same months as the full names |
| Examples.SharedYearRange | date_range_test.go:32 | "1 January - 31 December 2000" puts both dates in 2000 |
| Examples.AbbreviatedSharedYearRange | date_range_test.go:33 | "1 Jan - 31 Dec 2000" gives the same range |
| Examples.PaddedSharedYearRange | date_range_test.go:34 | double spaces give the same range |
| Examples.UnspacedSharedYearRange | date_range_test.go:35 | "1Jan-31Dec2000" gives the same range |
| Examples.SharedMonthYearRange | date_range_test.go:36 | "1 - 31 December 2000" parses to 2000-12-01 through 2000-12-31 |
| Examples.PaddedSharedMonthYearRange | date_range_test.go:37 | double spaces give the same range |
| Examples.UnspacedSharedMonthYearRange | date_range_test.go:38 | "1-31December2000" gives the same range |
| Examples.ReversedRange | date_range.go:74-77 | "31 - 1 December 2000" is accepted as 2000-12-31 00:00 through 2000-12-01 23:59:59.999999999: nothing checks that a range runs forward |

## Left out

- Go's `regexp` engine in general. The recogniser handles only the three constructor patterns and the twelve month patterns. It relies on the fact that at a fixed start these patterns never need backtracking:
  - `\s*` can be maximal, because the token after it never starts with whitespace;
  - the day group `\d{1,2}` can be greedy, because the token after a day never starts with a digit;
  - in the month alternation, the first alternative whose abbreviation matches is the only one that can match, because the abbreviations are pairwise distinct;
  - its optional suffix can be taken whenever it matches, because every suffix starts with a letter while the token after a month starts with whitespace, a digit or a separator (`Months.MonthAtToken`).
- `(?i)` beyond simple case folding of ASCII letters and of the two non-ASCII folds Go applies (`ſ` for `s`, the Kelvin sign for `k`); the text is a sequence of code points, so invalid UTF-8 is not modelled.
- `time.Date` normalisation and time zones: a date is a plain record of year, month, day and time of day, so "31 February" or month 0 are not rolled over as Go would roll them.
- `log.Fatal` stopping the program: it is an `InvalidField` result, and `Properties.ParseNeverFatal` shows it is never produced.
- `fmt.Sprintf` and `strings.Join` building the pattern strings: a compiled regexp is its token template plus the month alternatives.
- Heap references (`*Constructor`, `*DateRange`) and the closures' capture of `parser`: a handler is its capture indices (`Layout`), and a range is a value.
- RoundTrip.FullBothRoundTrip, RoundTrip.SharedYearRoundTrip, RoundTrip.SharedMonthYearRoundTrip: they assume only whitespace before the range, and for the two shared shapes no separator after it; other surrounding text is not characterised.
- Resolver.Atoi: Go's `int` is taken as 64 bits, so the limits are 2^63 - 1 and -2^63; on a 32-bit platform they are 2^31 - 1 and -2^31. No caller can tell the difference, since the fields it parses have at most four digits.
- A range whose start comes after its end is accepted: the code does not check the order, and the model follows it (`Examples.ReversedRange`).

## Findings

| source | as written | input that shows it | evidently intended | confidence | as-written member | corrected member |
|---|---|---|---|---|---|---|
| date_range_test.go:27 | the en-dash test case separates day, month and year with U+00A0 (no-break space), which `\s` does not match, so `Parse` returns "could not parse date range" instead of the expected range | "9\u00A0December\u00A02020 – 28\u00A0February\u00A02021" | plain spaces inside each date, as in every other test case, which parse to 2020-12-09 through 2021-02-28 | high; not executed | AsWritten.NoBreakSpaceRange | Examples.EnDashRange |
