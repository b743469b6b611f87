/** The cases of the package's own tests, each an instance of a round trip over the twelve
    month patterns, and one range the parser accepts although it ends before it starts. */
module Examples {
  import opened Lexical
  import opened Months
  import opened Recogniser
  import opened Resolver
  import opened Rendering
  import opened DateRangeParser
  import opened RoundTrip
  import opened Texts

  /** The range from the first nanosecond of `sY`-`sM`-`sD` to the last nanosecond of
      `eY`-`eM`-`eD`, as the tests build it. */
  function Want(sY: int, sM: int, sD: int, eY: int, eM: int, eD: int): DateRange {
    DateRange(Date(sY, sM, sD, 0, 0, 0, 0), Date(eY, eM, eD, 23, 59, 59, 999_999_999))
  }

  /** A range written in full over an unambiguous month lexicon, such as the twelve month
      patterns, parses to the first nanosecond of its first date and the last nanosecond of
      its second. */
  lemma FullBothExample(months: seq<MonthPattern>, pre: string, start: Written, gap1: string, dash: string, gap2: string, end: Written, post: string,
                        text: string, k1: nat, k2: nat, sD: nat, sY: nat, eD: nat, eY: nat)
    requires Unambiguous(months)
    requires text == pre + (Spelled(start) + gap1 + dash + gap2 + Spelled(end)) + post
    requires Fits(months, Day, start.day) && IsSpelling(months, start.month, k1) && Fits(months, Year, start.year)
    requires Fits(months, Sep, dash)
    requires Fits(months, Day, end.day) && IsSpelling(months, end.month, k2) && Fits(months, Year, end.year)
    requires DecimalValue(start.day) == sD && DecimalValue(start.year) == sY
    requires DecimalValue(end.day) == eD && DecimalValue(end.year) == eY
    requires AllSpace(pre) && AllSpace(start.gap1) && AllSpace(start.gap2) && AllSpace(gap1)
    requires AllSpace(gap2) && AllSpace(end.gap1) && AllSpace(end.gap2)
    ensures ParseText(months, text) == Success(Want(sY, k1, sD, eY, k2, eD))
  {
    var toks := [start.day, start.month, start.year, dash, end.day, end.month, end.year];
    var gaps := [start.gap1, start.gap2, gap1, gap2, end.gap1, end.gap2];
    RenderFullBoth(start, gap1, dash, gap2, end);
    assert text == pre + Render(toks, gaps) + post;
    FullBothRoundTrip(months, pre, toks, gaps, post, k1, k2);
  }

  /** A range written as day, month, separator and a full date over an unambiguous month
      lexicon parses to the first nanosecond of its first day and the last nanosecond of its
      second, both in the one year written. */
  lemma SharedYearExample(months: seq<MonthPattern>, pre: string, day: string, gap: string, month: string, gap1: string, dash: string, gap2: string,
                          end: Written, post: string, text: string, k1: nat, k2: nat, sD: nat, eD: nat, y: nat)
    requires Unambiguous(months)
    requires text == pre + (day + gap + month + gap1 + dash + gap2 + Spelled(end)) + post
    requires Fits(months, Day, day) && IsSpelling(months, month, k1) && Fits(months, Sep, dash)
    requires Fits(months, Day, end.day) && IsSpelling(months, end.month, k2) && Fits(months, Year, end.year)
    requires DecimalValue(day) == sD && DecimalValue(end.day) == eD && DecimalValue(end.year) == y
    requires AllSpace(pre) && AllSpace(gap) && AllSpace(gap1) && AllSpace(gap2)
    requires AllSpace(end.gap1) && AllSpace(end.gap2) && NoSep(post)
    ensures ParseText(months, text) == Success(Want(y, k1, sD, y, k2, eD))
  {
    var toks := [day, month, dash, end.day, end.month, end.year];
    var gaps := [gap, gap1, gap2, end.gap1, end.gap2];
    RenderSharedYear(day, gap, month, gap1, dash, gap2, end);
    assert text == pre + Render(toks, gaps) + post;
    FiveGaps(gaps);
    SharedYearRoundTrip(months, pre, toks, gaps, post, k1, k2);
  }

  /** A range written as day, separator and a full date over an unambiguous month lexicon
      parses to the first nanosecond of its first day and the last nanosecond of its second,
      both in the one month and year written. */
  lemma SharedMonthYearExample(months: seq<MonthPattern>, pre: string, day: string, gap1: string, dash: string, gap2: string,
                               end: Written, post: string, text: string, k: nat, sD: nat, eD: nat, y: nat)
    requires Unambiguous(months)
    requires text == pre + (day + gap1 + dash + gap2 + Spelled(end)) + post
    requires Fits(months, Day, day) && Fits(months, Sep, dash)
    requires Fits(months, Day, end.day) && IsSpelling(months, end.month, k) && Fits(months, Year, end.year)
    requires DecimalValue(day) == sD && DecimalValue(end.day) == eD && DecimalValue(end.year) == y
    requires AllSpace(pre) && AllSpace(gap1) && AllSpace(gap2) && AllSpace(end.gap1) && AllSpace(end.gap2) && NoSep(post)
    ensures ParseText(months, text) == Success(Want(y, k, sD, y, k, eD))
  {
    var toks := [day, dash, end.day, end.month, end.year];
    var gaps := [gap1, gap2, end.gap1, end.gap2];
    RenderSharedMonthYear(day, gap1, dash, gap2, end);
    assert text == pre + Render(toks, gaps) + post;
    FourGaps(gaps);
    SharedMonthYearRoundTrip(months, pre, toks, gaps, post, k);
  }

  // Proof steps: FiveGaps, FourGaps, RenderCons, RenderDate, the Render* shapes and the
  // Value* numerals below state no property of the package; each keeps one literal
  // equation out of the case lemmas so that their proofs stay small.

  /** Gaps that are each spaces, gathered. */
  lemma FiveGaps(gaps: seq<string>)
    requires |gaps| == 5
    requires AllSpace(gaps[0]) && AllSpace(gaps[1]) && AllSpace(gaps[2]) && AllSpace(gaps[3]) && AllSpace(gaps[4])
    ensures forall i :: 0 <= i < 5 ==> AllSpace(gaps[i])
  {
  }

  lemma FourGaps(gaps: seq<string>)
    requires |gaps| == 4
    requires AllSpace(gaps[0]) && AllSpace(gaps[1]) && AllSpace(gaps[2]) && AllSpace(gaps[3])
    ensures forall i :: 0 <= i < 4 ==> AllSpace(gaps[i])
  {
  }

  /** Rendering a token in front of others puts it and its gap in front. */
  lemma RenderCons(t: string, g: string, toks: seq<string>, gaps: seq<string>)
    requires |toks| == |gaps| + 1
    ensures Render([t] + toks, [g] + gaps) == t + g + Render(toks, gaps)
  {
    assert ([t] + toks)[1..] == toks && ([g] + gaps)[1..] == gaps;
  }

  /** A written date is the rendering of its day, month and year with its gaps. */
  lemma RenderDate(w: Written)
    ensures Render([w.day, w.month, w.year], [w.gap1, w.gap2]) == Spelled(w)
  {
    RenderCons(w.month, w.gap2, [w.year], []);
    RenderCons(w.day, w.gap1, [w.month, w.year], [w.gap2]);
  }

  /** The three shapes rendered piece by piece. */
  lemma RenderFullBoth(start: Written, gap1: string, dash: string, gap2: string, end: Written)
    ensures Render([start.day, start.month, start.year, dash, end.day, end.month, end.year],
                   [start.gap1, start.gap2, gap1, gap2, end.gap1, end.gap2])
            == Spelled(start) + gap1 + dash + gap2 + Spelled(end)
  {
    RenderDate(end);
    RenderCons(dash, gap2, [end.day, end.month, end.year], [end.gap1, end.gap2]);
    RenderCons(start.year, gap1, [dash, end.day, end.month, end.year], [gap2, end.gap1, end.gap2]);
    RenderCons(start.month, start.gap2, [start.year, dash, end.day, end.month, end.year], [gap1, gap2, end.gap1, end.gap2]);
    RenderCons(start.day, start.gap1, [start.month, start.year, dash, end.day, end.month, end.year],
               [start.gap2, gap1, gap2, end.gap1, end.gap2]);
  }

  lemma RenderSharedYear(day: string, gap: string, month: string, gap1: string, dash: string, gap2: string, end: Written)
    ensures Render([day, month, dash, end.day, end.month, end.year], [gap, gap1, gap2, end.gap1, end.gap2])
            == day + gap + month + gap1 + dash + gap2 + Spelled(end)
  {
    RenderDate(end);
    RenderCons(dash, gap2, [end.day, end.month, end.year], [end.gap1, end.gap2]);
    RenderCons(month, gap1, [dash, end.day, end.month, end.year], [gap2, end.gap1, end.gap2]);
    RenderCons(day, gap, [month, dash, end.day, end.month, end.year], [gap1, gap2, end.gap1, end.gap2]);
  }

  lemma RenderSharedMonthYear(day: string, gap1: string, dash: string, gap2: string, end: Written)
    ensures Render([day, dash, end.day, end.month, end.year], [gap1, gap2, end.gap1, end.gap2])
            == day + gap1 + dash + gap2 + Spelled(end)
  {
    RenderDate(end);
    RenderCons(dash, gap2, [end.day, end.month, end.year], [end.gap1, end.gap2]);
    RenderCons(day, gap1, [dash, end.day, end.month, end.year], [gap2, end.gap1, end.gap2]);
  }

  /** Reading back the `w` digits of `n` gives `n`. */
  lemma Value(s: string, n: nat, w: nat)
    requires n < Pow10(w) && Digits(n, w) == s
    ensures AllDigits(s) && DecimalValue(s) == n
  {
    DigitsRoundTrip(n, w);
  }

  /** The month names the examples use, and the month each names. */
  lemma Spellings()
    ensures IsSpelling(MonthPatterns, "January", 1) && IsSpelling(MonthPatterns, "Jan", 1)
    ensures IsSpelling(MonthPatterns, "February", 2)
    ensures IsSpelling(MonthPatterns, "December", 12) && IsSpelling(MonthPatterns, "Dec", 12)
  {
  }

  /** The gaps the examples use are spaces, and what follows them holds no separator. */
  lemma Blanks()
    ensures AllSpace("") && AllSpace(" ") && AllSpace("  ") && AllSpace("\n ")
    ensures NoSep("") && NoSep(" ")
  {
  }

  /** Both dates written in full, separated by a hyphen. */
  lemma FullRange()
    ensures ParseText(MonthPatterns, "1 January 1900 - 31 December 2000") == Success(Want(1900, 1, 1, 2000, 12, 31))
  {
    Value1();
    Value31();
    Value1900();
    Value2000();
    Spellings();
    Blanks();
    Spelled1January1900();
    Spelled31December2000();
    FullRangeText();
    LexiconUnambiguous();
    FullBothExample(MonthPatterns, "", Written("1", " ", "January", " ", "1900"), " ", "-", " ", Written("31", " ", "December", " ", "2000"), "",
      "1 January 1900 - 31 December 2000", 1, 12, 1, 1900, 31, 2000);
  }

  /** The en dash separates the dates as the hyphen does: the en-dash case with plain
      spaces, as its test evidently intends (see `AsWritten.NoBreakSpaceRange`). */
  lemma EnDashRange()
    ensures ParseText(MonthPatterns, "9 December 2020 \U{2013} 28 February 2021") == Success(Want(2020, 12, 9, 2021, 2, 28))
  {
    Value9();
    Value28();
    Value2020();
    Value2021();
    Spellings();
    Blanks();
    Spelled9December2020();
    Spelled28February2021();
    EnDashRangeText();
    LexiconUnambiguous();
    FullBothExample(MonthPatterns, "", Written("9", " ", "December", " ", "2020"), " ", "\U{2013}", " ", Written("28", " ", "February", " ", "2021"), "",
      "9 December 2020 \U{2013} 28 February 2021", 12, 2, 9, 2020, 28, 2021);
  }

  /** Spaces around the text are skipped. */
  lemma PaddedFullRange()
    ensures ParseText(MonthPatterns, " 1 January 1900 - 31 December 2000 ") == Success(Want(1900, 1, 1, 2000, 12, 31))
  {
    Value1();
    Value31();
    Value1900();
    Value2000();
    Spellings();
    Blanks();
    Spelled1January1900();
    Spelled31December2000();
    PaddedFullRangeText();
    LexiconUnambiguous();
    FullBothExample(MonthPatterns, " ", Written("1", " ", "January", " ", "1900"), " ", "-", " ", Written("31", " ", "December", " ", "2000"), " ",
      " 1 January 1900 - 31 December 2000 ", 1, 12, 1, 1900, 31, 2000);
  }

  /** Line breaks count as spaces around the separator. */
  lemma LineBrokenFullRange()
    ensures ParseText(MonthPatterns, " 1 January 1900\n -\n 31 December 2000 ") == Success(Want(1900, 1, 1, 2000, 12, 31))
  {
    Value1();
    Value31();
    Value1900();
    Value2000();
    Spellings();
    Blanks();
    Spelled1January1900();
    Spelled31December2000();
    LineBrokenFullRangeText();
    LexiconUnambiguous();
    FullBothExample(MonthPatterns, " ", Written("1", " ", "January", " ", "1900"), "\n ", "-", "\n ", Written("31", " ", "December", " ", "2000"), " ",
      " 1 January 1900\n -\n 31 December 2000 ", 1, 12, 1, 1900, 31, 2000);
  }

  /** No spaces are needed between the parts. */
  lemma UnspacedFullRange()
    ensures ParseText(MonthPatterns, "1January1900-31December2000") == Success(Want(1900, 1, 1, 2000, 12, 31))
  {
    Value1();
    Value31();
    Value1900();
    Value2000();
    Spellings();
    Blanks();
    Spelled1January1900Tight();
    Spelled31December2000Tight();
    UnspacedFullRangeText();
    LexiconUnambiguous();
    FullBothExample(MonthPatterns, "", Written("1", "", "January", "", "1900"), "", "-", "", Written("31", "", "December", "", "2000"), "",
      "1January1900-31December2000", 1, 12, 1, 1900, 31, 2000);
  }

  /** Three-letter month names are accepted. */
  lemma AbbreviatedFullRange()
    ensures ParseText(MonthPatterns, "1 Jan 1900 - 31 Dec 2000") == Success(Want(1900, 1, 1, 2000, 12, 31))
  {
    Value1();
    Value31();
    Value1900();
    Value2000();
    Spellings();
    Blanks();
    Spelled1Jan1900();
    Spelled31Dec2000();
    AbbreviatedFullRangeText();
    LexiconUnambiguous();
    FullBothExample(MonthPatterns, "", Written("1", " ", "Jan", " ", "1900"), " ", "-", " ", Written("31", " ", "Dec", " ", "2000"), "",
      "1 Jan 1900 - 31 Dec 2000", 1, 12, 1, 1900, 31, 2000);
  }

  /** Both dates in one year, written once at the end. */
  lemma SharedYearRange()
    ensures ParseText(MonthPatterns, "1 January - 31 December 2000") == Success(Want(2000, 1, 1, 2000, 12, 31))
  {
    Value1();
    Value31();
    Value2000();
    Spellings();
    Blanks();
    Spelled31December2000();
    SharedYearRangeText();
    LexiconUnambiguous();
    SharedYearExample(MonthPatterns, "", "1", " ", "January", " ", "-", " ", Written("31", " ", "December", " ", "2000"), "",
      "1 January - 31 December 2000", 1, 12, 1, 31, 2000);
  }

  /** The shared year with three-letter month names. */
  lemma AbbreviatedSharedYearRange()
    ensures ParseText(MonthPatterns, "1 Jan - 31 Dec 2000") == Success(Want(2000, 1, 1, 2000, 12, 31))
  {
    Value1();
    Value31();
    Value2000();
    Spellings();
    Blanks();
    Spelled31Dec2000();
    AbbreviatedSharedYearRangeText();
    LexiconUnambiguous();
    SharedYearExample(MonthPatterns, "", "1", " ", "Jan", " ", "-", " ", Written("31", " ", "Dec", " ", "2000"), "",
      "1 Jan - 31 Dec 2000", 1, 12, 1, 31, 2000);
  }

  /** The shared year with runs of spaces between the parts. */
  lemma PaddedSharedYearRange()
    ensures ParseText(MonthPatterns, " 1  Jan  -  31  Dec  2000 ") == Success(Want(2000, 1, 1, 2000, 12, 31))
  {
    Value1();
    Value31();
    Value2000();
    Spellings();
    Blanks();
    Spelled31Dec2000Wide();
    PaddedSharedYearRangeText();
    LexiconUnambiguous();
    SharedYearExample(MonthPatterns, " ", "1", "  ", "Jan", "  ", "-", "  ", Written("31", "  ", "Dec", "  ", "2000"), " ",
      " 1  Jan  -  31  Dec  2000 ", 1, 12, 1, 31, 2000);
  }

  /** The shared year with no spaces at all. */
  lemma UnspacedSharedYearRange()
    ensures ParseText(MonthPatterns, "1Jan-31Dec2000") == Success(Want(2000, 1, 1, 2000, 12, 31))
  {
    Value1();
    Value31();
    Value2000();
    Spellings();
    Blanks();
    Spelled31Dec2000Tight();
    UnspacedSharedYearRangeText();
    LexiconUnambiguous();
    SharedYearExample(MonthPatterns, "", "1", "", "Jan", "", "-", "", Written("31", "", "Dec", "", "2000"), "",
      "1Jan-31Dec2000", 1, 12, 1, 31, 2000);
  }

  /** Both dates in one month, written once at the end. */
  lemma SharedMonthYearRange()
    ensures ParseText(MonthPatterns, "1 - 31 December 2000") == Success(Want(2000, 12, 1, 2000, 12, 31))
  {
    Value1();
    Value31();
    Value2000();
    Spellings();
    Blanks();
    Spelled31December2000();
    SharedMonthYearRangeText();
    LexiconUnambiguous();
    SharedMonthYearExample(MonthPatterns, "", "1", " ", "-", " ", Written("31", " ", "December", " ", "2000"), "",
      "1 - 31 December 2000", 12, 1, 31, 2000);
  }

  /** The shared month with runs of spaces between the parts. */
  lemma PaddedSharedMonthYearRange()
    ensures ParseText(MonthPatterns, " 1  -  31  December  2000 ") == Success(Want(2000, 12, 1, 2000, 12, 31))
  {
    Value1();
    Value31();
    Value2000();
    Spellings();
    Blanks();
    Spelled31December2000Wide();
    PaddedSharedMonthYearRangeText();
    LexiconUnambiguous();
    SharedMonthYearExample(MonthPatterns, " ", "1", "  ", "-", "  ", Written("31", "  ", "December", "  ", "2000"), " ",
      " 1  -  31  December  2000 ", 12, 1, 31, 2000);
  }

  /** The shared month with no spaces at all. */
  lemma UnspacedSharedMonthYearRange()
    ensures ParseText(MonthPatterns, "1-31December2000") == Success(Want(2000, 12, 1, 2000, 12, 31))
  {
    Value1();
    Value31();
    Value2000();
    Spellings();
    Blanks();
    Spelled31December2000Tight();
    UnspacedSharedMonthYearRangeText();
    LexiconUnambiguous();
    SharedMonthYearExample(MonthPatterns, "", "1", "", "-", "", Written("31", "", "December", "", "2000"), "",
      "1-31December2000", 12, 1, 31, 2000);
  }

  /** Nothing checks that the range runs forward: a range that ends before it starts is
      accepted as written. */
  lemma ReversedRange()
    ensures ParseText(MonthPatterns, "31 - 1 December 2000") == Success(Want(2000, 12, 31, 2000, 12, 1))
  {
    Value1();
    Value31();
    Value2000();
    Spellings();
    Blanks();
    Spelled1December2000();
    ReversedRangeText();
    LexiconUnambiguous();
    SharedMonthYearExample(MonthPatterns, "", "31", " ", "-", " ", Written("1", " ", "December", " ", "2000"), "",
      "31 - 1 December 2000", 12, 31, 1, 2000);
  }

  // The dates as the examples write them.

  // The numerals the examples use.

  lemma Value1()
    ensures AllDigits("1") && DecimalValue("1") == 1
  {
    Value("1", 1, 1);
  }

  lemma Value9()
    ensures AllDigits("9") && DecimalValue("9") == 9
  {
    Value("9", 9, 1);
  }

  lemma Value28()
    ensures AllDigits("28") && DecimalValue("28") == 28
  {
    Value("28", 28, 2);
  }

  lemma Value31()
    ensures AllDigits("31") && DecimalValue("31") == 31
  {
    Value("31", 31, 2);
  }

  // Proof steps: the numerals of the test dates, one per lemma.
  lemma Value1900()
    ensures AllDigits("1900") && DecimalValue("1900") == 1900
  {
    Value("1900", 1900, 4);
  }

  lemma Value2000()
    ensures AllDigits("2000") && DecimalValue("2000") == 2000
  {
    Value("2000", 2000, 4);
  }

  lemma Value2020()
    ensures AllDigits("2020") && DecimalValue("2020") == 2020
  {
    Value("2020", 2020, 4);
  }

  lemma Value2021()
    ensures AllDigits("2021") && DecimalValue("2021") == 2021
  {
    Value("2021", 2021, 4);
  }
}
