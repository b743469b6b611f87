/** Round trips: a date range written in one of the three shapes, with spaces (or none)
    around and between its parts, either dash and any spelling of its months, is parsed back
    into the range it describes. */
module RoundTrip {
  import opened Lexical
  import opened Months
  import opened Recogniser
  import opened Resolver
  import opened Rendering
  import opened Kinds
  import opened DateRangeParser
  import opened Properties

  // ---- Kinds of the written pieces ----

  /** Spaces hold no character of any other kind. */
  lemma SpaceNever(g: string, k: Kind)
    requires AllSpace(g) && k != Space
    ensures Never(g, k)
  {
  }

  /** Text without a separator holds no dash. */
  lemma NoSepNever(s: string)
    requires NoSep(s)
    ensures Never(s, Dash)
  {
  }

  /** Tokens that fit their kinds and space gaps, none of the tokens holding kind `k`: the
      rendered text does not hold it either. */
  lemma RenderedNever(months: seq<MonthPattern>, ts: seq<Token>, toks: seq<string>, gaps: seq<string>, k: Kind)
    requires Unambiguous(months) && |ts| == |toks| == |gaps| + 1 && k != Space
    requires forall i :: 0 <= i < |ts| ==> Fits(months, ts[i], toks[i])
    requires forall i :: 0 <= i < |ts| ==> (k == Other ==> ts[i] != MonthName) && (k == Dash ==> ts[i] != Sep)
    requires k == Digit ==> forall i :: 0 <= i < |ts| ==> ts[i] == MonthName || ts[i] == Sep
    requires forall i :: 0 <= i < |gaps| ==> AllSpace(gaps[i])
    ensures Never(Render(toks, gaps), k)
  {
    forall i | 0 <= i < |toks| ensures Never(toks[i], k) {
      TokenKinds(months, ts[i], toks[i]);
    }
    forall i | 0 <= i < |gaps| ensures Never(gaps[i], k) {
      SpaceNever(gaps[i], k);
    }
    RenderNever(toks, gaps, k);
  }

  // Proof steps: Regroup, Regroup3 and Flatten5-7 state no property of the package; each
  // keeps one sequence equation out of the round-trip lemmas so that their proofs stay small.

  /** Concatenation regrouped. */
  lemma Regroup(a: string, b: string, c: string, d: string, e: string)
    ensures a + (b + c + d) + e == (a + b + c) + (d + e)
  {
  }

  /** Concatenation regrouped into a front, a middle and a back. */
  lemma Regroup3(pre: string, t: string, g: string, b: string, c: string, d: string, post: string)
    ensures pre + (t + g + (b + c + d)) + post == (pre + t + g) + (b + c) + (d + post)
  {
  }

  /** One step of `CapturedText`: the separator captures nothing, any other token its text. */
  lemma CapturedStep(ts: seq<Token>, toks: seq<string>, i: nat, rest: seq<string>)
    requires |ts| == |toks| && i < |ts|
    requires CapturedText(ts[i + 1..], toks[i + 1..]) == rest
    ensures CapturedText(ts[i..], toks[i..]) == (if ts[i] == Sep then [] else [toks[i]]) + rest
  {
    assert ts[i..][1..] == ts[i + 1..] && toks[i..][1..] == toks[i + 1..];
  }

  /** Captures gathered one at a time, as one list. */
  lemma Flatten5(a: string, b: string, c: string, d: string, e: string)
    ensures [a] + ([b] + [c, d, e]) == [a, b, c, d, e]
  {
  }

  lemma Flatten6(a: string, b: string, c: string, d: string, e: string, f: string)
    ensures [a] + ([b] + ([c] + [d, e, f])) == [a, b, c, d, e, f]
  {
    assert [b] + ([c] + [d, e, f]) == [b, c, d, e, f];
  }

  lemma Flatten7(a: string, b: string, c: string, d: string, e: string, f: string, g: string)
    ensures [a] + ([b] + ([c] + ([d] + [e, f, g]))) == [a, b, c, d, e, f, g]
  {
    Flatten6(b, c, d, e, f, g);
  }

  // ---- "1 - 31 December 2000": day – day month year ----

  /** The pieces of a shared-month-and-year range fit the shape's template. */
  lemma SharedMonthYearWellFormed(months: seq<MonthPattern>, toks: seq<string>, gaps: seq<string>)
    requires Unambiguous(months) && |toks| == 5 && |gaps| == 4
    requires Fits(months, Day, toks[0]) && Fits(months, Sep, toks[1]) && Fits(months, Day, toks[2])
    requires Fits(months, MonthName, toks[3]) && Fits(months, Year, toks[4])
    requires forall i :: 0 <= i < 4 ==> AllSpace(gaps[i])
    ensures WellFormed(months, Template(SharedMonthYear), toks, gaps)
  {
    var ts := Template(SharedMonthYear);
    assert ts == [Day, Sep, Day, MonthName, Year];
    forall k | 0 <= k < 5 ensures Fits(months, ts[k], toks[k]) {
    }
  }

  /** The regexp of the shared-month-and-year shape captures the two days, the month and
      the year of such a range. */
  lemma SharedMonthYearFound(months: seq<MonthPattern>, pre: string, toks: seq<string>, gaps: seq<string>, post: string)
    requires |toks| == 5 && AllSpace(pre) && WellFormed(months, Template(SharedMonthYear), toks, gaps)
    ensures FindStringSubmatch(Compile(SharedMonthYear, months), pre + Render(toks, gaps) + post)
              == [Render(toks, gaps), toks[0], toks[2], toks[3], toks[4]]
  {
    SharedMonthYearCaptured(Render(toks, gaps), toks);
    ShapeFound(SharedMonthYear, months, pre, toks, gaps, post);
  }

  /** The match of the shared-month-and-year shape: the whole text and the first day, then
      the second day, the month and the year. */
  lemma SharedMonthYearCaptured(whole: string, toks: seq<string>)
    requires |toks| == 5
    ensures [whole] + CapturedText(Template(SharedMonthYear), toks) == [whole, toks[0], toks[2], toks[3], toks[4]]
  {
    var ts := Template(SharedMonthYear);
    assert ts == [Day, Sep, Day, MonthName, Year];
    SharedMonthYearCapturedBack(toks);
    CapturedStep(ts, toks, 0, [toks[2], toks[3], toks[4]]);
    assert ts[0..] == ts && toks[0..] == toks;
    Flatten5(whole, toks[0], toks[2], toks[3], toks[4]);
  }

  /** The captures of a shared-month-and-year range from the dash on. */
  lemma SharedMonthYearCapturedBack(toks: seq<string>)
    requires |toks| == 5
    ensures CapturedText(Template(SharedMonthYear)[1..], toks[1..]) == [toks[2], toks[3], toks[4]]
  {
    var ts := Template(SharedMonthYear);
    assert ts == [Day, Sep, Day, MonthName, Year];
    assert CapturedText(ts[4..], toks[4..]) == [toks[4]];
    assert CapturedText(ts[3..], toks[3..]) == [toks[3], toks[4]];
    assert CapturedText(ts[2..], toks[2..]) == [toks[2], toks[3], toks[4]];
  }

  /** No month name comes before a dash in such a range: the month follows both days. */
  lemma SharedMonthYearKinds(months: seq<MonthPattern>, pre: string, toks: seq<string>, gaps: seq<string>, post: string)
    requires |toks| == 5 && |gaps| == 4
    requires AllSpace(pre) && NoSep(post) && WellFormed(months, Template(SharedMonthYear), toks, gaps)
    ensures NoPair(pre + Render(toks, gaps) + post, Other, Dash)
  {
    RenderSplit(toks, gaps, 3);
    SharedMonthYearFront(months, pre, toks, gaps);
    SharedMonthYearBack(months, toks, gaps, post);
    PairSplit(pre + Render(toks[..3], gaps[..2]) + gaps[2], Render(toks[3..], gaps[3..]) + post, Other, Dash);
    Regroup(pre, Render(toks[..3], gaps[..2]), gaps[2], Render(toks[3..], gaps[3..]), post);
  }

  /** Up to the gap before the month, such a range holds no `Other` character. */
  lemma SharedMonthYearFront(months: seq<MonthPattern>, pre: string, toks: seq<string>, gaps: seq<string>)
    requires |toks| == 5 && |gaps| == 4
    requires AllSpace(pre) && WellFormed(months, Template(SharedMonthYear), toks, gaps)
    ensures Never(pre + Render(toks[..3], gaps[..2]) + gaps[2], Other)
  {
    var ts := Template(SharedMonthYear);
    assert ts[..3] == [Day, Sep, Day];
    RenderedNever(months, ts[..3], toks[..3], gaps[..2], Other);
    SpaceNever(pre, Other);
    SpaceNever(gaps[2], Other);
    NeverConcat(pre, Render(toks[..3], gaps[..2]), Other);
    NeverConcat(pre + Render(toks[..3], gaps[..2]), gaps[2], Other);
  }

  /** From the month on, such a range holds no dash. */
  lemma SharedMonthYearBack(months: seq<MonthPattern>, toks: seq<string>, gaps: seq<string>, post: string)
    requires |toks| == 5 && |gaps| == 4
    requires NoSep(post) && WellFormed(months, Template(SharedMonthYear), toks, gaps)
    ensures Never(Render(toks[3..], gaps[3..]) + post, Dash)
  {
    var ts := Template(SharedMonthYear);
    assert ts[3..] == [MonthName, Year];
    RenderedNever(months, ts[3..], toks[3..], gaps[3..], Dash);
    NoSepNever(post);
    NeverConcat(Render(toks[3..], gaps[3..]), post, Dash);
  }

  /** So neither of the shapes tried before it matches such a range. */
  lemma SharedMonthYearAlone(months: seq<MonthPattern>, text: string)
    requires Unambiguous(months) && NoPair(text, Other, Dash)
    ensures FindStringSubmatch(Compile(FullBoth, months), text) == []
    ensures FindStringSubmatch(Compile(SharedYear, months), text) == []
  {
    PairExcludesTriple(text);
    FullBothAbsent(months, text);
    SharedYearAbsent(months, text);
  }

  /** Such a range is parsed by the handler of its shape, from the captures its regexp
      finds. */
  lemma SharedMonthYearParsed(months: seq<MonthPattern>, pre: string, toks: seq<string>, gaps: seq<string>, post: string)
    requires |toks| == 5 && |gaps| == 4
    requires AllSpace(pre) && NoSep(post) && WellFormed(months, Template(SharedMonthYear), toks, gaps)
    ensures LayoutOf(SharedMonthYear).Within(5)
    ensures ParseText(months, pre + Render(toks, gaps) + post)
              == Handle(LayoutOf(SharedMonthYear), months, [Render(toks, gaps), toks[0], toks[2], toks[3], toks[4]])
  {
    SharedMonthYearFound(months, pre, toks, gaps, post);
    SharedMonthYearKinds(months, pre, toks, gaps, post);
    SharedMonthYearAlone(months, pre + Render(toks, gaps) + post);
    ParsedAs(SharedMonthYear, months, pre + Render(toks, gaps) + post);
  }

  /** A range written as day, dash, day, month and year parses to the first nanosecond of
      the first day and the last nanosecond of the second day of that month and year. */
  lemma SharedMonthYearRoundTrip(months: seq<MonthPattern>, pre: string, toks: seq<string>, gaps: seq<string>, post: string, k: nat)
    requires Unambiguous(months) && |toks| == 5 && |gaps| == 4
    requires Fits(months, Day, toks[0]) && Fits(months, Sep, toks[1]) && Fits(months, Day, toks[2])
    requires IsSpelling(months, toks[3], k) && Fits(months, Year, toks[4])
    requires forall i :: 0 <= i < 4 ==> AllSpace(gaps[i])
    requires AllSpace(pre) && NoSep(post)
    ensures ParseText(months, pre + Render(toks, gaps) + post) == Success(DateRange(
              Date(DecimalValue(toks[4]), k, DecimalValue(toks[0]), 0, 0, 0, 0),
              Date(DecimalValue(toks[4]), k, DecimalValue(toks[2]), 23, 59, 59, 999_999_999)))
  {
    SharedMonthYearWellFormed(months, toks, gaps);
    SharedMonthYearParsed(months, pre, toks, gaps, post);
    HandleFields(LayoutOf(SharedMonthYear), months, [Render(toks, gaps), toks[0], toks[2], toks[3], toks[4]], k, k);
  }

  // ---- "1 Jan - 31 Dec 2000": day month – day month year ----

  /** The pieces of a shared-year range fit the shape's template. */
  lemma SharedYearWellFormed(months: seq<MonthPattern>, toks: seq<string>, gaps: seq<string>)
    requires Unambiguous(months) && |toks| == 6 && |gaps| == 5
    requires Fits(months, Day, toks[0]) && Fits(months, MonthName, toks[1]) && Fits(months, Sep, toks[2])
    requires Fits(months, Day, toks[3]) && Fits(months, MonthName, toks[4]) && Fits(months, Year, toks[5])
    requires forall i :: 0 <= i < 5 ==> AllSpace(gaps[i])
    ensures WellFormed(months, Template(SharedYear), toks, gaps)
  {
    var ts := Template(SharedYear);
    assert ts == [Day, MonthName, Sep, Day, MonthName, Year];
    forall k | 0 <= k < 6 ensures Fits(months, ts[k], toks[k]) {
    }
  }

  /** The match of the shared-year shape: the whole text, the first day and month, then
      the second day and month and the year. */
  lemma SharedYearCaptured(whole: string, toks: seq<string>)
    requires |toks| == 6
    ensures [whole] + CapturedText(Template(SharedYear), toks) == [whole, toks[0], toks[1], toks[3], toks[4], toks[5]]
  {
    var ts := Template(SharedYear);
    assert ts == [Day, MonthName, Sep, Day, MonthName, Year];
    SharedYearCapturedBack(toks);
    var back := [toks[3], toks[4], toks[5]];
    CapturedStep(ts, toks, 1, back);
    CapturedStep(ts, toks, 0, [toks[1]] + back);
    assert ts[0..] == ts && toks[0..] == toks;
    Flatten6(whole, toks[0], toks[1], toks[3], toks[4], toks[5]);
  }

  /** The captures of a shared-year range from the dash on: the second day and month and
      the year. */
  lemma SharedYearCapturedBack(toks: seq<string>)
    requires |toks| == 6
    ensures CapturedText(Template(SharedYear)[2..], toks[2..]) == [toks[3], toks[4], toks[5]]
  {
    var ts := Template(SharedYear);
    assert ts == [Day, MonthName, Sep, Day, MonthName, Year];
    assert CapturedText(ts[5..], toks[5..]) == [toks[5]];
    assert CapturedText(ts[4..], toks[4..]) == [toks[4], toks[5]];
    assert CapturedText(ts[3..], toks[3..]) == [toks[3], toks[4], toks[5]];
  }

  /** The regexp of the shared-year shape finds such a range. */
  lemma SharedYearFound(months: seq<MonthPattern>, pre: string, toks: seq<string>, gaps: seq<string>, post: string)
    requires |toks| == 6 && AllSpace(pre) && WellFormed(months, Template(SharedYear), toks, gaps)
    ensures FindStringSubmatch(Compile(SharedYear, months), pre + Render(toks, gaps) + post)
              == [Render(toks, gaps), toks[0], toks[1], toks[3], toks[4], toks[5]]
  {
    SharedYearCaptured(Render(toks, gaps), toks);
    ShapeFound(SharedYear, months, pre, toks, gaps, post);
  }

  /** In such a range no `Other` character, digit and dash come in that order: before the first month
      there are only the first day and spaces, from the first month to the dash there is no
      digit, and after the dash there is no dash. */
  lemma SharedYearKinds(months: seq<MonthPattern>, pre: string, toks: seq<string>, gaps: seq<string>, post: string)
    requires |toks| == 6 && |gaps| == 5
    requires AllSpace(pre) && NoSep(post) && WellFormed(months, Template(SharedYear), toks, gaps)
    ensures NoOtherDigitDash(pre + Render(toks, gaps) + post)
  {
    var rest := Render(toks[1..], gaps[1..]);
    assert Render(toks, gaps) == toks[0] + gaps[0] + rest;
    RenderSplit(toks[1..], gaps[1..], 2);
    var middle := Render(toks[1..][..2], gaps[1..][..1]);
    var back := Render(toks[1..][2..], gaps[1..][2..]);
    SharedYearFront(months, pre, toks, gaps);
    SharedYearMiddle(months, toks, gaps);
    SharedYearBack(months, toks, gaps, post);
    PairSplit(pre + toks[0] + gaps[0], middle + gaps[2], Other, Digit);
    TripleSplit(pre + toks[0] + gaps[0] + (middle + gaps[2]), back + post);
    Regroup3(pre, toks[0], gaps[0], middle, gaps[2], back, post);
  }

  /** Up to the first month, a shared-year range holds no `Other` character. */
  lemma SharedYearFront(months: seq<MonthPattern>, pre: string, toks: seq<string>, gaps: seq<string>)
    requires |toks| == 6 && |gaps| == 5
    requires AllSpace(pre) && WellFormed(months, Template(SharedYear), toks, gaps)
    ensures Never(pre + toks[0] + gaps[0], Other)
  {
    assert Template(SharedYear)[0] == Day;
    TokenKinds(months, Day, toks[0]);
    SpaceNever(pre, Other);
    SpaceNever(gaps[0], Other);
    NeverConcat(pre, toks[0], Other);
    NeverConcat(pre + toks[0], gaps[0], Other);
  }

  /** From the first month to the dash, a shared-year range holds no digit. */
  lemma SharedYearMiddle(months: seq<MonthPattern>, toks: seq<string>, gaps: seq<string>)
    requires |toks| == 6 && |gaps| == 5
    requires WellFormed(months, Template(SharedYear), toks, gaps)
    ensures Never(Render(toks[1..][..2], gaps[1..][..1]) + gaps[2], Digit)
  {
    var ts := Template(SharedYear);
    assert ts[1..][..2] == [MonthName, Sep];
    assert toks[1..][..2] == [toks[1], toks[2]] && gaps[1..][..1] == [gaps[1]];
    RenderedNever(months, ts[1..][..2], toks[1..][..2], gaps[1..][..1], Digit);
    SpaceNever(gaps[2], Digit);
    NeverConcat(Render(toks[1..][..2], gaps[1..][..1]), gaps[2], Digit);
  }

  /** After the dash, a shared-year range holds no dash. */
  lemma SharedYearBack(months: seq<MonthPattern>, toks: seq<string>, gaps: seq<string>, post: string)
    requires |toks| == 6 && |gaps| == 5
    requires NoSep(post) && WellFormed(months, Template(SharedYear), toks, gaps)
    ensures Never(Render(toks[1..][2..], gaps[1..][2..]) + post, Dash)
  {
    var ts := Template(SharedYear);
    assert ts[1..][2..] == [Day, MonthName, Year];
    assert toks[1..][2..] == toks[3..] && gaps[1..][2..] == gaps[3..];
    RenderedNever(months, ts[1..][2..], toks[1..][2..], gaps[1..][2..], Dash);
    NoSepNever(post);
    NeverConcat(Render(toks[1..][2..], gaps[1..][2..]), post, Dash);
  }

  /** Such a range is parsed by the handler of its shape, from the captures its regexp
      finds. */
  lemma SharedYearParsed(months: seq<MonthPattern>, pre: string, toks: seq<string>, gaps: seq<string>, post: string)
    requires |toks| == 6 && |gaps| == 5
    requires AllSpace(pre) && NoSep(post) && WellFormed(months, Template(SharedYear), toks, gaps)
    ensures LayoutOf(SharedYear).Within(6)
    ensures ParseText(months, pre + Render(toks, gaps) + post)
              == Handle(LayoutOf(SharedYear), months, [Render(toks, gaps), toks[0], toks[1], toks[3], toks[4], toks[5]])
  {
    SharedYearFound(months, pre, toks, gaps, post);
    SharedYearKinds(months, pre, toks, gaps, post);
    FullBothAbsent(months, pre + Render(toks, gaps) + post);
    ParsedAs(SharedYear, months, pre + Render(toks, gaps) + post);
  }

  /** A range written as day, month, dash, day, month and year parses to the first
      nanosecond of the first day and the last nanosecond of the second day, both in that
      year. */
  lemma SharedYearRoundTrip(months: seq<MonthPattern>, pre: string, toks: seq<string>, gaps: seq<string>, post: string, k1: nat, k2: nat)
    requires Unambiguous(months) && |toks| == 6 && |gaps| == 5
    requires Fits(months, Day, toks[0]) && IsSpelling(months, toks[1], k1) && Fits(months, Sep, toks[2])
    requires Fits(months, Day, toks[3]) && IsSpelling(months, toks[4], k2) && Fits(months, Year, toks[5])
    requires forall i :: 0 <= i < 5 ==> AllSpace(gaps[i])
    requires AllSpace(pre) && NoSep(post)
    ensures ParseText(months, pre + Render(toks, gaps) + post) == Success(DateRange(
              Date(DecimalValue(toks[5]), k1, DecimalValue(toks[0]), 0, 0, 0, 0),
              Date(DecimalValue(toks[5]), k2, DecimalValue(toks[3]), 23, 59, 59, 999_999_999)))
  {
    SharedYearWellFormed(months, toks, gaps);
    SharedYearParsed(months, pre, toks, gaps, post);
    HandleFields(LayoutOf(SharedYear), months, [Render(toks, gaps), toks[0], toks[1], toks[3], toks[4], toks[5]], k1, k2);
  }

  // ---- "9 December 2020 – 28 February 2021": day month year – day month year ----

  /** The pieces of a full range fit the shape's template. */
  lemma FullBothWellFormed(months: seq<MonthPattern>, toks: seq<string>, gaps: seq<string>)
    requires Unambiguous(months) && |toks| == 7 && |gaps| == 6
    requires Fits(months, Day, toks[0]) && Fits(months, MonthName, toks[1]) && Fits(months, Year, toks[2])
    requires Fits(months, Sep, toks[3])
    requires Fits(months, Day, toks[4]) && Fits(months, MonthName, toks[5]) && Fits(months, Year, toks[6])
    requires forall i :: 0 <= i < 6 ==> AllSpace(gaps[i])
    ensures WellFormed(months, Template(FullBoth), toks, gaps)
  {
    var ts := Template(FullBoth);
    assert ts == [Day, MonthName, Year, Sep, Day, MonthName, Year];
    forall k | 0 <= k < 7 ensures Fits(months, ts[k], toks[k]) {
    }
  }

  /** The match of the full shape: the whole text, the day, month and year of the start,
      then those of the end. */
  lemma FullBothCaptured(whole: string, toks: seq<string>)
    requires |toks| == 7
    ensures [whole] + CapturedText(Template(FullBoth), toks) == [whole, toks[0], toks[1], toks[2], toks[4], toks[5], toks[6]]
  {
    var ts := Template(FullBoth);
    assert ts == [Day, MonthName, Year, Sep, Day, MonthName, Year];
    FullBothCapturedBack(toks);
    var back := [toks[4], toks[5], toks[6]];
    CapturedStep(ts, toks, 2, back);
    CapturedStep(ts, toks, 1, [toks[2]] + back);
    CapturedStep(ts, toks, 0, [toks[1]] + ([toks[2]] + back));
    assert ts[0..] == ts && toks[0..] == toks;
    Flatten7(whole, toks[0], toks[1], toks[2], toks[4], toks[5], toks[6]);
  }

  /** The captures of a full range from the dash on: day, month and year of the end. */
  lemma FullBothCapturedBack(toks: seq<string>)
    requires |toks| == 7
    ensures CapturedText(Template(FullBoth)[3..], toks[3..]) == [toks[4], toks[5], toks[6]]
  {
    var ts := Template(FullBoth);
    assert ts == [Day, MonthName, Year, Sep, Day, MonthName, Year];
    assert CapturedText(ts[6..], toks[6..]) == [toks[6]];
    assert CapturedText(ts[5..], toks[5..]) == [toks[5], toks[6]];
    assert CapturedText(ts[4..], toks[4..]) == [toks[4], toks[5], toks[6]];
  }

  /** The regexp of the full shape finds such a range. */
  lemma FullBothFound(months: seq<MonthPattern>, pre: string, toks: seq<string>, gaps: seq<string>, post: string)
    requires |toks| == 7 && AllSpace(pre) && WellFormed(months, Template(FullBoth), toks, gaps)
    ensures FindStringSubmatch(Compile(FullBoth, months), pre + Render(toks, gaps) + post)
              == [Render(toks, gaps), toks[0], toks[1], toks[2], toks[4], toks[5], toks[6]]
  {
    FullBothCaptured(Render(toks, gaps), toks);
    ShapeFound(FullBoth, months, pre, toks, gaps, post);
  }

  /** A range written in full, day, month and year at each end, parses to the first
      nanosecond of the first date and the last nanosecond of the second; the full shape is
      tried first, so whatever follows the range does not matter. */
  lemma FullBothRoundTrip(months: seq<MonthPattern>, pre: string, toks: seq<string>, gaps: seq<string>, post: string, k1: nat, k2: nat)
    requires Unambiguous(months) && |toks| == 7 && |gaps| == 6
    requires Fits(months, Day, toks[0]) && IsSpelling(months, toks[1], k1) && Fits(months, Year, toks[2])
    requires Fits(months, Sep, toks[3])
    requires Fits(months, Day, toks[4]) && IsSpelling(months, toks[5], k2) && Fits(months, Year, toks[6])
    requires forall i :: 0 <= i < 6 ==> AllSpace(gaps[i])
    requires AllSpace(pre)
    ensures ParseText(months, pre + Render(toks, gaps) + post) == Success(DateRange(
              Date(DecimalValue(toks[2]), k1, DecimalValue(toks[0]), 0, 0, 0, 0),
              Date(DecimalValue(toks[6]), k2, DecimalValue(toks[4]), 23, 59, 59, 999_999_999)))
  {
    FullBothWellFormed(months, toks, gaps);
    FullBothFound(months, pre, toks, gaps, post);
    ParsedAs(FullBoth, months, pre + Render(toks, gaps) + post);
    HandleFields(LayoutOf(FullBoth), months, [Render(toks, gaps), toks[0], toks[1], toks[2], toks[4], toks[5], toks[6]], k1, k2);
  }
}
