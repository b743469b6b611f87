/** Turning the captured texts of a match into a date range: `parseDay`, `parseYear`
    (both `strconv.Atoi`, with `log.Fatal` on failure), `startDate`, `endDate` and the three
    handlers that pick captures by index. */
module Resolver {
  import opened Wrappers
  import opened Lexical
  import opened Months

  const MaxInt64: int := 0x7FFF_FFFF_FFFF_FFFF
  const MinInt64: int := -0x8000_0000_0000_0000
  const NanosPerDay: int := 24 * 60 * 60 * 1_000_000_000

  /** A calendar date and time of day in UTC, with the fields exactly as passed to
      `time.Date` (no normalisation of out-of-range fields). */
  datatype Date = Date(year: int, month: int, day: int,
                       hour: int, minute: int, second: int, nanosecond: int)
  {
    /** Nanoseconds since the start of the day. */
    function TimeOfDay(): int {
      ((hour * 60 + minute) * 60 + second) * 1_000_000_000 + nanosecond
    }
  }

  datatype DateRange = DateRange(start: Date, end: Date)

  /** Why a text gives no date range: none of the patterns matches it, or a captured number
      is rejected by `strconv.Atoi` (where the program stops in `log.Fatal`). */
  datatype ParseError = NoMatch | InvalidField(text: string)

  datatype Result<+T> = Success(value: T) | Failure(error: ParseError)

  /** A non-empty run of decimal digits. */
  predicate IsDecimal(s: string) {
    |s| > 0 && AllDigits(s)
  }

  /** `strconv.Atoi`: an optional `+` or `-` sign followed by at least one decimal digit,
      whose value fits a 64-bit `int`; anything else is an error. */
  function Atoi(s: string): (r: Option<int>)
    ensures s == [] ==> r.None?
    ensures r.Some? ==> MinInt64 <= r.value <= MaxInt64
    ensures IsDecimal(s) && DecimalValue(s) <= MaxInt64 ==> r == Some(DecimalValue(s))
    ensures IsDecimal(s) && DecimalValue(s) > MaxInt64 ==> r.None?
    ensures r.Some? ==> IsDecimal(s) || (IsDecimal(s[1..]) && (s[0] == '+' || s[0] == '-'))
    ensures |s| > 0 && s[0] == '+' && IsDecimal(s[1..]) ==>
              r == (if DecimalValue(s[1..]) <= MaxInt64 then Some(DecimalValue(s[1..])) else None)
    ensures |s| > 0 && s[0] == '-' && IsDecimal(s[1..]) ==>
              r == (if DecimalValue(s[1..]) <= -MinInt64 then Some(-(DecimalValue(s[1..]) as int)) else None)
  {
    if |s| > 0 && (s[0] == '+' || s[0] == '-') then
      var digits := s[1..];
      if !IsDecimal(digits) then None
      else
        var v: int := if s[0] == '-' then 0 - DecimalValue(digits) else DecimalValue(digits);
        if MinInt64 <= v <= MaxInt64 then Some(v) else None
    else if IsDecimal(s) && DecimalValue(s) <= MaxInt64 then Some(DecimalValue(s))
    else None
  }

  /** `parseDay` and `parseYear`, which are the same code: `strconv.Atoi`, where an error
      ends the program in `log.Fatal`; here it is an `InvalidField` naming the text. */
  function ParseNumber(s: string): (r: Result<int>)
    ensures r.Success? <==> Atoi(s).Some?
    ensures r.Success? ==> r.value == Atoi(s).value
    ensures r.Failure? ==> r.error == InvalidField(s)
  {
    match Atoi(s)
    case Some(v) => Success(v)
    case None => Failure(InvalidField(s))
  }

  /** A time of day: hour, minute, second and nanosecond. */
  datatype Clock = Clock(hour: int, minute: int, second: int, nanosecond: int)

  const Midnight := Clock(0, 0, 0, 0)
  const LastNanosecond := Clock(23, 59, 59, 999_999_999)

  /** `time.Date(parseYear(y), parseMonth(m), parseDay(d), clock..., time.UTC)`. Go evaluates
      the arguments left to right, so a bad year is reported before a bad day. */
  function DateOf(months: seq<MonthPattern>, y: string, m: string, d: string, c: Clock): (r: Result<Date>)
    ensures r.Success? <==> Atoi(y).Some? && Atoi(d).Some?
    ensures r.Failure? ==> r.error == InvalidField(if Atoi(y).None? then y else d)
    ensures r.Success? ==> r.value.year == Atoi(y).value && r.value.day == Atoi(d).value
    ensures r.Success? ==> r.value.month == ParseMonth(months, m) && 0 <= r.value.month <= |months|
    ensures r.Success? ==> r.value.hour == c.hour && r.value.minute == c.minute
                           && r.value.second == c.second && r.value.nanosecond == c.nanosecond
  {
    match ParseNumber(y)
    case Failure(e) => Failure(e)
    case Success(year) =>
      var month := ParseMonth(months, m);
      match ParseNumber(d)
      case Failure(e) => Failure(e)
      case Success(day) => Success(Date(year, month, day, c.hour, c.minute, c.second, c.nanosecond))
  }

  /** `startDate`: the first nanosecond of the day. */
  function StartDate(months: seq<MonthPattern>, y: string, m: string, d: string): (r: Result<Date>)
    ensures r.Success? <==> Atoi(y).Some? && Atoi(d).Some?
    ensures r.Success? ==> r.value.TimeOfDay() == 0
    ensures r.Success? ==> r.value == Date(Atoi(y).value, ParseMonth(months, m), Atoi(d).value, 0, 0, 0, 0)
  {
    DateOf(months, y, m, d, Midnight)
  }

  /** `endDate`: the last nanosecond of the day, 23:59:59.999999999. */
  function EndDate(months: seq<MonthPattern>, y: string, m: string, d: string): (r: Result<Date>)
    ensures r.Success? <==> Atoi(y).Some? && Atoi(d).Some?
    ensures r.Success? ==> r.value.TimeOfDay() == NanosPerDay - 1
    ensures r.Success? ==> r.value == Date(Atoi(y).value, ParseMonth(months, m), Atoi(d).value, 23, 59, 59, 999_999_999)
  {
    DateOf(months, y, m, d, LastNanosecond)
  }

  /** `startDate` and `endDate` on the same fields bound the same calendar day: every instant
      of that day lies between them. */
  lemma DayBounds(months: seq<MonthPattern>, y: string, m: string, d: string)
    requires StartDate(months, y, m, d).Success?
    ensures EndDate(months, y, m, d).Success?
    ensures var s, e := StartDate(months, y, m, d).value, EndDate(months, y, m, d).value;
            s.year == e.year && s.month == e.month && s.day == e.day
            && e.TimeOfDay() - s.TimeOfDay() == NanosPerDay - 1
  {
  }

  /** A handler: which capture supplies each field of the range. Capture 0 is the whole match. */
  datatype Layout = Layout(startYear: nat, startMonth: nat, startDay: nat,
                           endYear: nat, endMonth: nat, endDay: nat)
  {
    predicate Within(n: nat) {
      startYear < n && startMonth < n && startDay < n && endYear < n && endMonth < n && endDay < n
    }
  }

  /** A handler applied to the captures `m`: the start from `startDate`, then the end from
      `endDate` (Go evaluates the fields of the composite literal in order). */
  function Handle(h: Layout, months: seq<MonthPattern>, m: seq<string>): (r: Result<DateRange>)
    requires h.Within(|m|)
    ensures r.Failure? ==> r.error.InvalidField?
    ensures r.Failure? ==> r.error.text in {m[h.startYear], m[h.startDay], m[h.endYear], m[h.endDay]}
    ensures r.Success? ==> StartDate(months, m[h.startYear], m[h.startMonth], m[h.startDay]) == Success(r.value.start)
    ensures r.Success? ==> EndDate(months, m[h.endYear], m[h.endMonth], m[h.endDay]) == Success(r.value.end)
  {
    match StartDate(months, m[h.startYear], m[h.startMonth], m[h.startDay])
    case Failure(e) => Failure(e)
    case Success(start) =>
      match EndDate(months, m[h.endYear], m[h.endMonth], m[h.endDay])
      case Failure(e) => Failure(e)
      case Success(end) => Success(DateRange(start, end))
  }

  /** A handler succeeds exactly when both `startDate` and `endDate` do; otherwise it
      reports the failure of `startDate` if there is one, and that of `endDate` if not. */
  lemma HandleOutcome(h: Layout, months: seq<MonthPattern>, m: seq<string>)
    requires h.Within(|m|)
    ensures Handle(h, months, m).Success? <==>
              StartDate(months, m[h.startYear], m[h.startMonth], m[h.startDay]).Success?
              && EndDate(months, m[h.endYear], m[h.endMonth], m[h.endDay]).Success?
    ensures StartDate(months, m[h.startYear], m[h.startMonth], m[h.startDay]).Failure? ==>
              Handle(h, months, m) == Failure(StartDate(months, m[h.startYear], m[h.startMonth], m[h.startDay]).error)
    ensures StartDate(months, m[h.startYear], m[h.startMonth], m[h.startDay]).Success?
            && EndDate(months, m[h.endYear], m[h.endMonth], m[h.endDay]).Failure? ==>
              Handle(h, months, m) == Failure(EndDate(months, m[h.endYear], m[h.endMonth], m[h.endDay]).error)
  {
  }

  // ---- Numbers that a pattern captures ----

  /** `strconv.Atoi` on one to four digits is their decimal value: day and year captures are
      always accepted. */
  lemma AtoiShortDigits(s: string)
    requires IsDecimal(s) && |s| <= 4
    ensures Atoi(s) == Some(DecimalValue(s))
  {
    DecimalValueBound(s);
    assert Pow10(|s|) <= Pow10(4) == 10000 by {
      assert Pow10(1) == 10 && Pow10(2) == 100 && Pow10(3) == 1000;
    }
  }

  /** `parseDay` accepts a one- or two-digit day and gives its value (below 100). */
  lemma DayFieldParses(s: string)
    requires 1 <= |s| <= 2 && AllDigits(s)
    ensures ParseNumber(s) == Success(DecimalValue(s))
    ensures 0 <= DecimalValue(s) < 100
  {
    AtoiShortDigits(s);
    DecimalValueBound(s);
    assert Pow10(2) == 100 by { assert Pow10(1) == 10; }
  }

  /** `parseYear` accepts a four-digit year, and a year written with four digits reads back
      as itself. */
  lemma YearFieldParses(s: string)
    requires |s| == 4 && AllDigits(s)
    ensures ParseNumber(s) == Success(DecimalValue(s))
    ensures 0 <= DecimalValue(s) < 10000
  {
    AtoiShortDigits(s);
    DecimalValueBound(s);
    assert Pow10(4) == 10000 by {
      assert Pow10(1) == 10 && Pow10(2) == 100 && Pow10(3) == 1000;
    }
  }

  /** `parseYear` on a year written with exactly four digits gives the year back. */
  lemma YearRoundTrip(year: nat)
    requires year < 10000
    ensures ParseNumber(Digits(year, 4)) == Success(year)
  {
    assert Pow10(4) == 10000 by {
      assert Pow10(1) == 10 && Pow10(2) == 100 && Pow10(3) == 1000;
    }
    DigitsRoundTrip(year, 4);
    YearFieldParses(Digits(year, 4));
  }

  /** A leading minus sign negates: `strconv.Atoi` accepts negative numbers. A sanity fact about
      `Atoi` alone: `parseDay` and `parseYear` only ever receive digit captures, so no caller
      passes a sign. */
  lemma AtoiNegative(ds: string)
    requires IsDecimal(ds) && |ds| <= 4
    ensures Atoi(['-'] + ds) == Some(0 - DecimalValue(ds) as int)
  {
    var s := ['-'] + ds;
    assert s[1..] == ds;
    AtoiShortDigits(ds);
  }
}
