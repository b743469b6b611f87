/** A test case of the package as it is written, where that differs from what it evidently
    intends: the en-dash case puts no-break spaces inside each date, and the parser rejects
    it. */
module AsWritten {
  import opened Lexical
  import opened Months
  import opened Resolver
  import opened Rendering
  import opened DateRangeParser
  import opened Properties
  import opened Examples
  import opened Texts

  /** The en-dash case as the package's test writes it: U+00A0 (no-break space) stands
      between day, month and year. `\s` does not match U+00A0, so no pattern matches and
      `Parse` reports that it could not parse the range. */
  lemma NoBreakSpaceRange()
    ensures ParseText(MonthPatterns, "9\U{00A0}December\U{00A0}2020 \U{2013} 28\U{00A0}February\U{00A0}2021") == Failure(NoMatch)
  {
    LexiconUnambiguous();
    Value9();
    Value28();
    Value2020();
    Value2021();
    Spellings();
    MonthTextLetters(MonthPatterns, "December");
    MonthTextLetters(MonthPatterns, "February");
    var start := Written("9", "\U{00A0}", "December", "\U{00A0}", "2020");
    var end := Written("28", "\U{00A0}", "February", "\U{00A0}", "2021");
    SeparatedRange(start, " ", "\U{2013}", " ", end);
    SpelledNoBreak9December2020();
    SpelledNoBreak28February2021();
    NoBreakSpaceText();
    NoLetterAfterDigitOrSpaceRejected(MonthPatterns, "9\U{00A0}December\U{00A0}2020 \U{2013} 28\U{00A0}February\U{00A0}2021");
  }

  /** `s` holds no character a month name can start with. */
  predicate Unlettered(s: string) {
    forall i :: 0 <= i < |s| ==> !CaseLetter(s[i])
  }

  /** A date whose day, month and year are separated by characters that are neither
      whitespace, digits nor letters, as U+00A0 is. */
  predicate SeparatedDate(w: Written) {
    |w.day| > 0 && AllDigits(w.day) && AllDigits(w.year)
    && (forall i :: 0 <= i < |w.month| ==> !IsDigit(w.month[i]) && !IsSpace(w.month[i]))
    && |w.gap1| > 0 && Unlettered(w.gap1) && !IsDigit(w.gap1[|w.gap1| - 1]) && !IsSpace(w.gap1[|w.gap1| - 1])
    && Unlettered(w.gap2)
  }

  /** Joining two texts keeps the property when the join is not a digit or a space followed
      by a letter. */
  lemma JoinNoLetterAfter(a: string, b: string)
    requires NoLetterAfterDigitOrSpace(a) && NoLetterAfterDigitOrSpace(b)
    requires a == [] || b == [] || !(IsDigit(a[|a| - 1]) || IsSpace(a[|a| - 1])) || !CaseLetter(b[0])
    ensures NoLetterAfterDigitOrSpace(a + b)
  {
    var s := a + b;
    forall x | 0 < x < |s| && (IsDigit(s[x - 1]) || IsSpace(s[x - 1])) ensures !CaseLetter(s[x]) {
      if x < |a| {
        assert s[x - 1] == a[x - 1] && s[x] == a[x];
      } else if x == |a| {
        assert s[x - 1] == a[|a| - 1] && s[x] == b[0];
      } else {
        assert s[x - 1] == b[x - 1 - |a|] && s[x] == b[x - |a|];
      }
    }
  }

  /** Text without letters, and text without digits and spaces, have no letter after a
      digit or a space. */
  lemma UnletteredNoLetterAfter(s: string)
    requires Unlettered(s)
    ensures NoLetterAfterDigitOrSpace(s)
  {
  }

  lemma WordNoLetterAfter(s: string)
    requires forall i :: 0 <= i < |s| ==> !IsDigit(s[i]) && !IsSpace(s[i])
    ensures NoLetterAfterDigitOrSpace(s)
  {
  }

  lemma SeparatedDateNoLetterAfter(w: Written)
    requires SeparatedDate(w)
    ensures NoLetterAfterDigitOrSpace(Spelled(w)) && Spelled(w)[0] == w.day[0]
  {
    UnletteredNoLetterAfter(w.day);
    UnletteredNoLetterAfter(w.gap1);
    JoinNoLetterAfter(w.day, w.gap1);
    WordNoLetterAfter(w.month);
    assert (w.day + w.gap1)[|w.day + w.gap1| - 1] == w.gap1[|w.gap1| - 1];
    JoinNoLetterAfter(w.day + w.gap1, w.month);
    UnletteredNoLetterAfter(w.gap2);
    JoinNoLetterAfter(w.day + w.gap1 + w.month, w.gap2);
    UnletteredNoLetterAfter(w.year);
    JoinNoLetterAfter(w.day + w.gap1 + w.month + w.gap2, w.year);
  }

  /** A full range of two such dates, with whitespace and a separator between them. */
  lemma SeparatedRange(start: Written, gap1: string, dash: string, gap2: string, end: Written)
    requires SeparatedDate(start) && SeparatedDate(end)
    requires AllSpace(gap1) && AllSpace(gap2) && |dash| == 1 && IsSep(dash[0])
    ensures NoLetterAfterDigitOrSpace(Spelled(start) + gap1 + dash + gap2 + Spelled(end))
  {
    SeparatedDateNoLetterAfter(start);
    SeparatedDateNoLetterAfter(end);
    UnletteredNoLetterAfter(gap1);
    JoinNoLetterAfter(Spelled(start), gap1);
    UnletteredNoLetterAfter(dash);
    JoinNoLetterAfter(Spelled(start) + gap1, dash);
    UnletteredNoLetterAfter(gap2);
    JoinNoLetterAfter(Spelled(start) + gap1 + dash, gap2);
    JoinNoLetterAfter(Spelled(start) + gap1 + dash + gap2, Spelled(end));
  }
}
