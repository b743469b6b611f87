/** The parser: three constructors (a pattern, its compiled regexp and a handler) tried in
    order, and the twelve month regexps that `parseMonth` consults. */
module DateRangeParser {
  import opened Wrappers
  import opened Months
  import opened Recogniser
  import opened Resolver

  /** The three date-range shapes, in the order the parser tries them. */
  datatype Shape =
    | FullBoth         // "9 December 2020 – 28 February 2021": day month year – day month year
    | SharedYear       // "1 Jan - 31 Dec 2000": day month – day month year
    | SharedMonthYear  // "1 - 31 December 2000": day – day month year

  /** The token sequence of each shape's pattern. */
  function Template(p: Shape): (ts: seq<Token>)
    ensures ts != [] && ts[0] == Day && ts[|ts| - 1] == Year
  {
    match p
    case FullBoth => [Day, MonthName, Year, Sep, Day, MonthName, Year]
    case SharedYear => [Day, MonthName, Sep, Day, MonthName, Year]
    case SharedMonthYear => [Day, Sep, Day, MonthName, Year]
  }

  /** The handler `h` reads the year, month and day of each end of the range from capture
      groups of those kinds (capture `i` is group `kinds[i - 1]`). */
  predicate Reads(h: Layout, kinds: seq<Token>) {
    0 < h.startYear <= |kinds| && 0 < h.startMonth <= |kinds| && 0 < h.startDay <= |kinds|
    && 0 < h.endYear <= |kinds| && 0 < h.endMonth <= |kinds| && 0 < h.endDay <= |kinds|
    && kinds[h.startYear - 1] == Year && kinds[h.startMonth - 1] == MonthName && kinds[h.startDay - 1] == Day
    && kinds[h.endYear - 1] == Year && kinds[h.endMonth - 1] == MonthName && kinds[h.endDay - 1] == Day
  }

  /** `regexp.MustCompile` of a shape's pattern, with the alternatives `months` (joined with
      `|`) spliced into each month group. */
  function Compile(p: Shape, months: seq<MonthPattern>): Regexp {
    Regexp(Template(p), months)
  }

  /** Each handler reads each field from a capture group of the right kind of its own
      template. */
  lemma TemplateReads(p: Shape)
    ensures Reads(LayoutOf(p), Captured(Template(p)))
  {
    match p
    case FullBoth => FullBothCaptures();
    case SharedYear => SharedYearCaptures();
    case SharedMonthYear => SharedMonthYearCaptures();
  }

  /** A constructor: its pattern, its regexp once compiled, and its handler. */
  datatype Constructor = Constructor(pattern: Shape, regexp: Option<Regexp>, handler: Layout)

  /** A constructor ready for `Parse`: compiled, with a handler that only reads captures its
      regexp has. */
  predicate Compiled(c: Constructor) {
    c.regexp.Some? && c.regexp.value.tokens != []
    && c.handler.Within(|Captured(c.regexp.value.tokens)| + 1)
  }

  /** The handler of each shape, as the capture indices it passes to `startDate(y, m, d)` and
      `endDate(y, m, d)`. */
  function LayoutOf(p: Shape): Layout {
    match p
    case FullBoth => Layout(3, 2, 1, 6, 5, 4)
    case SharedYear => Layout(5, 2, 1, 5, 4, 3)
    case SharedMonthYear => Layout(4, 3, 1, 4, 3, 2)
  }

  /** The constructors as `NewParser` lists them, before their regexps are compiled. */
  const Patterns: seq<Constructor> := [
    Constructor(FullBoth, None, LayoutOf(FullBoth)),
    Constructor(SharedYear, None, LayoutOf(SharedYear)),
    Constructor(SharedMonthYear, None, LayoutOf(SharedMonthYear))
  ]

  /** The constructor of shape `p` once its regexp is compiled over the month alternatives
      `months`. */
  function Entry(p: Shape, months: seq<MonthPattern>): Constructor {
    Constructor(p, Some(Compile(p, months)), LayoutOf(p))
  }

  /** The constructors once `NewParser` has compiled their regexps over the month
      alternatives `months`: each shape's constructor sits at its place in the order. */
  function Table(months: seq<MonthPattern>): (cs: seq<Constructor>)
    ensures |cs| == 3
    ensures forall p: Shape :: cs[ShapeIndex(p)] == Entry(p, months)
  {
    [Entry(FullBoth, months), Entry(SharedYear, months), Entry(SharedMonthYear, months)]
  }

  /** A constructor with its pattern compiled into its regexp. */
  function WithRegexp(c: Constructor, months: seq<MonthPattern>): (r: Constructor)
    ensures r.pattern == c.pattern && r.handler == c.handler && r.regexp == Some(Compile(c.pattern, months))
  {
    c.(regexp := Some(Compile(c.pattern, months)))
  }

  /** `Table` is `Patterns` with every pattern compiled. */
  lemma TableFromPatterns(months: seq<MonthPattern>)
    ensures |Table(months)| == |Patterns|
    ensures forall k :: 0 <= k < |Patterns| ==> Table(months)[k] == WithRegexp(Patterns[k], months)
  {
  }

  /** The regexp of constructor `c` finds a match in `text`. */
  predicate Finds(c: Constructor, text: string)
    requires Compiled(c)
  {
    FindStringSubmatch(c.regexp.value, text) != []
  }

  /** Constructor `j` is the first of `cs` whose regexp finds a match in `text`. */
  predicate FirstFinder(cs: seq<Constructor>, text: string, j: nat)
    requires forall i :: 0 <= i < |cs| ==> Compiled(cs[i])
  {
    j < |cs| && Finds(cs[j], text) && forall i :: 0 <= i < j ==> !Finds(cs[i], text)
  }

  /** `Parse` over the constructors `cs`: the first constructor whose regexp finds a match
      decides the result through its handler; when none does, the text cannot be parsed. */
  function ParseWith(cs: seq<Constructor>, months: seq<MonthPattern>, text: string): (r: Result<DateRange>)
    requires forall i :: 0 <= i < |cs| ==> Compiled(cs[i])
    ensures r == Failure(NoMatch) <==> forall i :: 0 <= i < |cs| ==> !Finds(cs[i], text)
    ensures forall j: nat :: FirstFinder(cs, text, j) ==>
              r == Handle(cs[j].handler, months, FindStringSubmatch(cs[j].regexp.value, text))
    decreases |cs|
  {
    if cs == [] then Failure(NoMatch)
    else if Finds(cs[0], text) then Handle(cs[0].handler, months, FindStringSubmatch(cs[0].regexp.value, text))
    else
      var r := ParseWith(cs[1..], months, text);
      FirstFinderShift(cs, text);
      r
  }

  /** Past a constructor that finds nothing, the first finder is one place further on. */
  lemma FirstFinderShift(cs: seq<Constructor>, text: string)
    requires forall i :: 0 <= i < |cs| ==> Compiled(cs[i])
    requires cs != [] && !Finds(cs[0], text)
    ensures forall j: nat :: FirstFinder(cs, text, j) ==> j > 0 && FirstFinder(cs[1..], text, j - 1)
  {
    forall j: nat | FirstFinder(cs, text, j) ensures j > 0 && FirstFinder(cs[1..], text, j - 1) {
      assert cs[1..][j - 1] == cs[j];
      forall i | 0 <= i < j - 1 ensures !Finds(cs[1..][i], text) {
        assert cs[1..][i] == cs[i + 1];
      }
    }
  }

  /** The constructors of a parser made by `NewParser` are all ready for `Parse`. */
  lemma TableCompiled(months: seq<MonthPattern>)
    ensures forall i :: 0 <= i < |Table(months)| ==> Compiled(Table(months)[i])
  {
    forall i | 0 <= i < |Table(months)| ensures Compiled(Table(months)[i]) {
      var p := if i == 0 then FullBoth else if i == 1 then SharedYear else SharedMonthYear;
      assert Table(months)[i] == Entry(p, months);
      EntryCompiled(p, months);
    }
  }

  /** Each shape's handler reads only capture groups its regexp has. */
  lemma EntryCompiled(p: Shape, months: seq<MonthPattern>)
    ensures Compiled(Entry(p, months))
  {
    TemplateReads(p);
  }

  /** The capture groups of each shape, in order. */
  lemma SharedMonthYearCaptures()
    ensures Captured(Template(SharedMonthYear)) == [Day, Day, MonthName, Year]
  {
    assert Template(SharedMonthYear) == [Day, Sep, Day, MonthName, Year];
    assert Captured([Day, Sep, Day, MonthName, Year]) == [Day, Day, MonthName, Year];
  }

  lemma SharedYearCaptures()
    ensures Captured(Template(SharedYear)) == [Day, MonthName, Day, MonthName, Year]
  {
    assert Template(SharedYear) == [Day, MonthName, Sep, Day, MonthName, Year];
    assert Captured([Day, MonthName, Sep, Day, MonthName, Year]) == [Day, MonthName, Day, MonthName, Year];
  }

  lemma FullBothCaptures()
    ensures Captured(Template(FullBoth)) == [Day, MonthName, Year, Day, MonthName, Year]
  {
    assert Template(FullBoth) == [Day, MonthName, Year, Sep, Day, MonthName, Year];
    assert Captured([Day, MonthName, Year, Sep, Day, MonthName, Year]) == [Day, MonthName, Year, Day, MonthName, Year];
  }

  /** `Parse` of a parser made by `NewParser`, whose month alternatives are `months`. */
  function ParseText(months: seq<MonthPattern>, text: string): (r: Result<DateRange>)
    ensures r == Failure(NoMatch) <==>
              forall p: Shape :: FindStringSubmatch(Compile(p, months), text) == []
  {
    TableCompiled(months);
    ParseWith(Table(months), months, text)
  }

  /** Where each shape's constructor sits in the parser. */
  function ShapeIndex(p: Shape): (j: nat)
    ensures j < 3
  {
    match p
    case FullBoth => 0
    case SharedYear => 1
    case SharedMonthYear => 2
  }

  /** The parser: its constructors, tried in order by `Parse`, and the month regexps,
      tried in order by `parseMonth`. */
  class Parser {
    var constructors: seq<Constructor>
    var monthRegexps: seq<MonthPattern>

    /** What `NewParser` establishes and nothing changes afterwards. */
    ghost predicate Valid()
      reads this
    {
      monthRegexps == MonthPatterns && constructors == Table(monthRegexps)
    }

    /** `NewParser`: compiles one regexp per month pattern, lists the three constructors and
        compiles each constructor's pattern into its regexp. A month regexp is its pattern
        compiled with the `(?i)` flag; `MatchString` reads every month pattern that way. */
    constructor()
      ensures Valid()
    {
      var monthPatterns := MonthPatterns;
      var regexps := new MonthPattern[|monthPatterns|];
      for i := 0 to |monthPatterns|
        invariant forall k :: 0 <= k < i ==> regexps[k] == monthPatterns[k]
      {
        regexps[i] := monthPatterns[i];
      }
      assert regexps[..] == monthPatterns;
      monthRegexps := regexps[..];
      constructors := Patterns;
      new;
      for i := 0 to |constructors|
        invariant |constructors| == |Patterns|
        invariant forall k :: 0 <= k < i ==> constructors[k] == WithRegexp(Patterns[k], monthRegexps)
        invariant forall k :: i <= k < |Patterns| ==> constructors[k] == Patterns[k]
        invariant monthRegexps == MonthPatterns
      {
        constructors := constructors[i := WithRegexp(constructors[i], monthRegexps)];
      }
      TableFromPatterns(monthRegexps);
    }

    /** `Parse`: tries each constructor in turn and returns what the handler of the first
        one whose regexp finds a match makes of the captures. */
    method Parse(text: string) returns (r: Result<DateRange>)
      requires Valid()
      ensures r == ParseText(monthRegexps, text)
    {
      TableCompiled(monthRegexps);
      var i := 0;
      while i < |constructors|
        invariant 0 <= i <= |constructors|
        invariant ParseWith(constructors[i..], monthRegexps, text) == ParseText(monthRegexps, text)
      {
        var c := constructors[i];
        var m := FindStringSubmatch(c.regexp.value, text);
        if |m| > 0 {
          return Handle(c.handler, monthRegexps, m);
        }
        i := i + 1;
      }
      return Failure(NoMatch);
    }

    /** `parseMonth`: the 1-based position of the first month regexp that matches `s`,
        or 0 when none does. */
    method ParseMonth(s: string) returns (k: nat)
      ensures k == Months.ParseMonth(monthRegexps, s)
    {
      for i := 0 to |monthRegexps|
        invariant ParseMonthFrom(monthRegexps, s, i) == Months.ParseMonth(monthRegexps, s)
      {
        if MatchString(monthRegexps[i], s) {
          return i + 1;
        }
      }
      return 0;
    }
  }
}
