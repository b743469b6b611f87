/** What `Parse` makes of texts: a text written in one of the three shapes, with any spaces
    around and between its parts, either dash and any spelling of the months, gives the range
    its handler promises; a text that matches nothing is an error; and a matched text never
    reaches `log.Fatal`. */
module Properties {
  import opened Wrappers
  import opened Lexical
  import opened Months
  import opened Recogniser
  import opened Resolver
  import opened Rendering
  import opened Kinds
  import opened DateRangeParser

  // ---- Handlers ----

  /** A handler given a four-digit year, a one- or two-digit day and a spelling of month `k`
      for each end builds the range from the first nanosecond of the start day to the last
      nanosecond of the end day, with those numbers. */
  lemma HandleFields(h: Layout, months: seq<MonthPattern>, m: seq<string>, k1: nat, k2: nat)
    requires Unambiguous(months) && h.Within(|m|)
    requires |m[h.startYear]| == 4 && AllDigits(m[h.startYear]) && 1 <= |m[h.startDay]| <= 2 && AllDigits(m[h.startDay])
    requires |m[h.endYear]| == 4 && AllDigits(m[h.endYear]) && 1 <= |m[h.endDay]| <= 2 && AllDigits(m[h.endDay])
    requires IsSpelling(months, m[h.startMonth], k1) && IsSpelling(months, m[h.endMonth], k2)
    ensures Handle(h, months, m) == Success(DateRange(
              Date(DecimalValue(m[h.startYear]), k1, DecimalValue(m[h.startDay]), 0, 0, 0, 0),
              Date(DecimalValue(m[h.endYear]), k2, DecimalValue(m[h.endDay]), 23, 59, 59, 999_999_999)))
  {
    YearFieldParses(m[h.startYear]);
    DayFieldParses(m[h.startDay]);
    YearFieldParses(m[h.endYear]);
    DayFieldParses(m[h.endDay]);
    SpellingResolves(months, m[h.startMonth], k1);
    SpellingResolves(months, m[h.endMonth], k2);
  }

  // ---- What a parsed range looks like ----

  function ClockOf(d: Date): Clock {
    Clock(d.hour, d.minute, d.second, d.nanosecond)
  }

  /** The fields a matched text can give: a year of four digits, a month named by one of the
      `n` month patterns and a day of one or two digits. */
  predicate FieldsInRange(d: Date, n: nat) {
    0 <= d.year <= 9999 && 1 <= d.month <= n && 0 <= d.day <= 99
  }

  /** A range built from matched fields: both ends in range, from the first nanosecond of the
      start day to the last nanosecond of the end day. */
  predicate MatchedFields(r: DateRange, n: nat) {
    FieldsInRange(r.start, n) && FieldsInRange(r.end, n)
    && ClockOf(r.start) == Midnight && ClockOf(r.end) == LastNanosecond
  }

  /** A result of `Parse` that never came from `log.Fatal`: the text matched nothing, or it
      gave a range of matched fields. */
  predicate NeverFatal(r: Result<DateRange>, n: nat) {
    r == Failure(NoMatch) || (r.Success? && MatchedFields(r.value, n))
  }

  /** `Parse` either finds nothing or gives a range: the numbers a pattern captures are always
      accepted, so `parseDay` and `parseYear` never reach `log.Fatal`. The range starts at
      00:00:00.000000000 and ends at 23:59:59.999999999, and its months are among the month
      patterns. */
  lemma ParseNeverFatal(months: seq<MonthPattern>, text: string)
    requires Unambiguous(months)
    ensures NeverFatal(ParseText(months, text), |months|)
  {
    TableCompiled(months);
    TableReads(months);
    TriedNeverFatal(Table(months), months, text);
  }

  /** Every constructor of the parser has a handler that reads each field from a capture
      group of the right kind. */
  lemma TableReads(months: seq<MonthPattern>)
    ensures forall i :: 0 <= i < |Table(months)| ==>
              Table(months)[i].regexp.Some? && Table(months)[i].regexp.value.months == months
              && Reads(Table(months)[i].handler, Captured(Table(months)[i].regexp.value.tokens))
  {
    forall i | 0 <= i < |Table(months)|
      ensures Table(months)[i].regexp.Some? && Table(months)[i].regexp.value.months == months
              && Reads(Table(months)[i].handler, Captured(Table(months)[i].regexp.value.tokens))
    {
      var p := if i == 0 then FullBoth else if i == 1 then SharedYear else SharedMonthYear;
      assert Table(months)[i] == Entry(p, months);
      TemplateReads(p);
    }
  }

  /** Trying constructors in turn, as `Parse` does, never reaches `log.Fatal` when every
      handler reads fields of the right kinds: a match is turned into a range. */
  lemma {:induction false} TriedNeverFatal(cs: seq<Constructor>, months: seq<MonthPattern>, text: string)
    requires Unambiguous(months)
    requires forall i :: 0 <= i < |cs| ==>
               Compiled(cs[i]) && cs[i].regexp.value.months == months && Reads(cs[i].handler, Captured(cs[i].regexp.value.tokens))
    ensures NeverFatal(ParseWith(cs, months, text), |months|)
    decreases |cs|
  {
    if cs != [] {
      if Finds(cs[0], text) {
        var re := cs[0].regexp.value;
        var m := FindStringSubmatch(re, text);
        var q :| 0 <= q <= |text| && MatchAt(re, text, q) == Some(m);
        MatchAtFits(re, text, q);
        FittingCaptures(cs[0].handler, months, Captured(re.tokens), m);
      } else {
        TriedNeverFatal(cs[1..], months, text);
      }
    }
  }

  /** A handler that reads fields of the right kinds from captures that fit their kinds
      succeeds, and builds a range of matched fields. */
  lemma FittingCaptures(h: Layout, months: seq<MonthPattern>, kinds: seq<Token>, m: seq<string>)
    requires Unambiguous(months) && Reads(h, kinds) && |m| == |kinds| + 1
    requires forall c :: 0 <= c < |kinds| ==> Fits(months, kinds[c], m[c + 1])
    ensures h.Within(|m|) && Handle(h, months, m).Success?
    ensures MatchedFields(Handle(h, months, m).value, |months|)
  {
    assert Fits(months, kinds[h.startYear - 1], m[h.startYear]);
    assert Fits(months, kinds[h.startDay - 1], m[h.startDay]);
    assert Fits(months, kinds[h.startMonth - 1], m[h.startMonth]);
    assert Fits(months, kinds[h.endYear - 1], m[h.endYear]);
    assert Fits(months, kinds[h.endDay - 1], m[h.endDay]);
    assert Fits(months, kinds[h.endMonth - 1], m[h.endMonth]);
    var k1: nat :| IsSpelling(months, m[h.startMonth], k1);
    var k2: nat :| IsSpelling(months, m[h.endMonth], k2);
    HandleFields(h, months, m, k1, k2);
    YearFieldParses(m[h.startYear]);
    DayFieldParses(m[h.startDay]);
    YearFieldParses(m[h.endYear]);
    DayFieldParses(m[h.endDay]);
  }

  // ---- Texts that match nothing ----

  /** A text without a digit matches no pattern, since every pattern starts with a day. */
  lemma NoDigitNoMatch(months: seq<MonthPattern>, text: string)
    requires forall i :: 0 <= i < |text| ==> !IsDigit(text[i])
    ensures ParseText(months, text) == Failure(NoMatch)
  {
    forall p: Shape ensures FindStringSubmatch(Compile(p, months), text) == [] {
      forall q | 0 <= q <= |text| ensures MatchAt(Compile(p, months), text, q).None? {
        NoMatchWithoutDigit(Compile(p, months), text, q);
      }
    }
  }

  /** No letter follows a digit or a space directly in `s`. */
  predicate NoLetterAfterDigitOrSpace(s: string) {
    forall x :: 0 < x < |s| && (IsDigit(s[x - 1]) || IsSpace(s[x - 1])) ==> !CaseLetter(s[x])
  }

  /** Where token `m` of a matched sequence is a day and token `m + 1` a month, the text
      has a letter right after a digit (no space between) or right after a space. */
  lemma {:induction false} DayThenMonth(months: seq<MonthPattern>, ts: seq<Token>, s: string, i: nat, m: nat)
    requires Unambiguous(months) && i <= |s| && ts != [] && MatchTokens(months, ts, s, i).Some?
    requires m + 1 < |ts| && ts[m] == Day && ts[m + 1] == MonthName
    ensures !NoLetterAfterDigitOrSpace(s)
    decreases m
  {
    var j := ReadToken(months, ts[0], s, i).value;
    var k := SkipSpace(s, j);
    assert MatchTokens(months, ts[1..], s, k).Some?;
    if m == 0 {
      assert ReadToken(months, MonthName, s, k).Some?;
      MonthStartsWithLetter(months, s, k);
      if k == j {
        assert IsDigit(s[k - 1]);
      } else {
        assert s[j..k][k - 1 - j] == s[k - 1];
      }
      assert 0 < k < |s| && (IsDigit(s[k - 1]) || IsSpace(s[k - 1])) && CaseLetter(s[k]);
    } else {
      DayThenMonth(months, ts[1..], s, k, m - 1);
    }
  }

  /** Every pattern has a day group followed by a month group, with only `\s*` between them.
      So a text in which no letter directly follows a digit or a space matches none of the
      patterns, and `Parse` reports that it could not parse it. */
  lemma NoLetterAfterDigitOrSpaceRejected(months: seq<MonthPattern>, text: string)
    requires Unambiguous(months) && NoLetterAfterDigitOrSpace(text)
    ensures ParseText(months, text) == Failure(NoMatch)
  {
    forall p: Shape ensures FindStringSubmatch(Compile(p, months), text) == [] {
      forall q | 0 <= q <= |text| ensures MatchAt(Compile(p, months), text, q).None? {
        NoDayThenMonthAt(months, p, text, q);
      }
    }
  }

  /** At no position does a pattern's token sequence match such a text. */
  lemma NoDayThenMonthAt(months: seq<MonthPattern>, p: Shape, text: string, q: nat)
    requires Unambiguous(months) && NoLetterAfterDigitOrSpace(text) && q <= |text|
    ensures MatchTokens(months, Template(p), text, q).None?
  {
    if MatchTokens(months, Template(p), text, q).Some? {
      DayThenMonth(months, Template(p), text, q, if p == SharedMonthYear then 2 else 0);
    }
  }

  /** The empty text is an error. */
  lemma EmptyTextRejected()
    ensures ParseText(MonthPatterns, "") == Failure(NoMatch)
  {
    NoDigitNoMatch(MonthPatterns, "");
  }

  // ---- Which shape a text is parsed as ----

  /** A match of the shared-year pattern shows a month name before a dash. */
  lemma SharedYearOrder(months: seq<MonthPattern>, s: string, q: nat)
    requires Unambiguous(months) && q <= |s|
    ensures MatchAt(Compile(SharedYear, months), s, q).Some? ==>
              exists a, b :: 0 <= a < b < |s| && KindOf(s[a]) == Other && KindOf(s[b]) == Dash
  {
    if MatchAt(Compile(SharedYear, months), s, q).Some? {
      var ps := TokenPositions(months, Template(SharedYear), s, q);
      assert KindOf(s[ps[1]]) == Other && KindOf(s[ps[2]]) == Dash;
    }
  }

  /** A match of the full pattern shows a month name, then a year, then a dash. */
  lemma FullBothOrder(months: seq<MonthPattern>, s: string, q: nat)
    requires Unambiguous(months) && q <= |s|
    ensures MatchAt(Compile(FullBoth, months), s, q).Some? ==>
              exists a, b, c :: 0 <= a < b < c < |s| && KindOf(s[a]) == Other && KindOf(s[b]) == Digit && KindOf(s[c]) == Dash
  {
    if MatchAt(Compile(FullBoth, months), s, q).Some? {
      var ps := TokenPositions(months, Template(FullBoth), s, q);
      assert KindOf(s[ps[1]]) == Other && KindOf(s[ps[2]]) == Digit && KindOf(s[ps[3]]) == Dash;
    }
  }

  /** A text with no `Other` character (a letter, punctuation, ...) before a dash is not a
      shared-year range. */
  lemma SharedYearAbsent(months: seq<MonthPattern>, s: string)
    requires Unambiguous(months) && NoPair(s, Other, Dash)
    ensures FindStringSubmatch(Compile(SharedYear, months), s) == []
  {
    forall q | 0 <= q <= |s| ensures MatchAt(Compile(SharedYear, months), s, q).None? {
      SharedYearOrder(months, s, q);
    }
  }

  /** A text with no `Other` character, digit and dash in that order is not a full range. */
  lemma FullBothAbsent(months: seq<MonthPattern>, s: string)
    requires Unambiguous(months) && NoOtherDigitDash(s)
    ensures FindStringSubmatch(Compile(FullBoth, months), s) == []
  {
    forall q | 0 <= q <= |s| ensures MatchAt(Compile(FullBoth, months), s, q).None? {
      FullBothOrder(months, s, q);
    }
  }

  /** Texts of a shape, written with spaces before and after: the shape's regexp finds the
      written text, with each capture group holding the text written for its token. */
  lemma ShapeFound(p: Shape, months: seq<MonthPattern>, pre: string, toks: seq<string>, gaps: seq<string>, post: string)
    requires AllSpace(pre) && WellFormed(months, Template(p), toks, gaps)
    ensures FindStringSubmatch(Compile(p, months), pre + Render(toks, gaps) + post)
              == [Render(toks, gaps)] + CapturedText(Template(p), toks)
  {
    var r := Render(toks, gaps);
    var s := pre + r + post;
    var re := Compile(p, months);
    WrittenInside(pre, r, post);
    WrittenSlice(s, |pre|, r);
    MatchWritten(months, Template(p), toks, gaps, s, |pre|);
    forall q | 0 <= q < |pre| ensures MatchAt(re, s, q).None? {
      assert s[q] == pre[q];
      NoMatchWithoutDigit(re, s, q);
    }
    LeftmostIs(re, s, |pre|);
  }

  /** A text that the regexp of shape `p` finds, and none of the shapes tried before it:
      `Parse` gives what the handler of `p` makes of the match. */
  lemma ParsedAs(p: Shape, months: seq<MonthPattern>, text: string)
    requires FindStringSubmatch(Compile(p, months), text) != []
    requires p != FullBoth ==> FindStringSubmatch(Compile(FullBoth, months), text) == []
    requires p == SharedMonthYear ==> FindStringSubmatch(Compile(SharedYear, months), text) == []
    ensures LayoutOf(p).Within(|FindStringSubmatch(Compile(p, months), text)|)
    ensures ParseText(months, text) == Handle(LayoutOf(p), months, FindStringSubmatch(Compile(p, months), text))
  {
    var cs := Table(months);
    TableCompiled(months);
    assert cs[ShapeIndex(p)] == Entry(p, months);
    forall i | 0 <= i < ShapeIndex(p) ensures !Finds(cs[i], text) {
      var e := if i == 0 then FullBoth else SharedYear;
      assert ShapeIndex(e) == i;
    }
    assert FirstFinder(cs, text, ShapeIndex(p));
  }
}
