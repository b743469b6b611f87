/** The texts of the package's test cases, each split into the pieces the round trips
    take: a date is its day, month and year with the gaps between them. */
module Texts {
  /** A date written as day, month and year, with the gaps between them. */
  datatype Written = Written(day: string, gap1: string, month: string, gap2: string, year: string)

  function Spelled(w: Written): string {
    w.day + w.gap1 + w.month + w.gap2 + w.year
  }

  /** Each test's text as its dates and the gaps and separator between them; a shared
      shape's first date is its day and month alone. These and the `Spelled*` lemmas are
      proof steps: each literal equation is proved on its own so that the case lemmas that
      use it stay small. */
  lemma FullRangeText()
    ensures "1 January 1900 - 31 December 2000" == "" + ("1 January 1900" + " " + "-" + " " + "31 December 2000") + ""
  {
  }

  lemma EnDashRangeText()
    ensures "9 December 2020 \U{2013} 28 February 2021" == "" + ("9 December 2020" + " " + "\U{2013}" + " " + "28 February 2021") + ""
  {
  }

  lemma PaddedFullRangeText()
    ensures " 1 January 1900 - 31 December 2000 " == " " + ("1 January 1900" + " " + "-" + " " + "31 December 2000") + " "
  {
  }

  lemma LineBrokenFullRangeText()
    ensures " 1 January 1900\n -\n 31 December 2000 " == " " + ("1 January 1900" + "\n " + "-" + "\n " + "31 December 2000") + " "
  {
  }

  lemma UnspacedFullRangeText()
    ensures "1January1900-31December2000" == "" + ("1January1900" + "" + "-" + "" + "31December2000") + ""
  {
  }

  lemma AbbreviatedFullRangeText()
    ensures "1 Jan 1900 - 31 Dec 2000" == "" + ("1 Jan 1900" + " " + "-" + " " + "31 Dec 2000") + ""
  {
  }

  lemma SharedYearRangeText()
    ensures "1 January - 31 December 2000" == "" + ("1" + " " + "January" + " " + "-" + " " + "31 December 2000") + ""
  {
  }

  lemma AbbreviatedSharedYearRangeText()
    ensures "1 Jan - 31 Dec 2000" == "" + ("1" + " " + "Jan" + " " + "-" + " " + "31 Dec 2000") + ""
  {
  }

  lemma PaddedSharedYearRangeText()
    ensures " 1  Jan  -  31  Dec  2000 " == " " + ("1" + "  " + "Jan" + "  " + "-" + "  " + "31  Dec  2000") + " "
  {
  }

  lemma UnspacedSharedYearRangeText()
    ensures "1Jan-31Dec2000" == "" + ("1" + "" + "Jan" + "" + "-" + "" + "31Dec2000") + ""
  {
  }

  lemma SharedMonthYearRangeText()
    ensures "1 - 31 December 2000" == "" + ("1" + " " + "-" + " " + "31 December 2000") + ""
  {
  }

  lemma PaddedSharedMonthYearRangeText()
    ensures " 1  -  31  December  2000 " == " " + ("1" + "  " + "-" + "  " + "31  December  2000") + " "
  {
  }

  lemma UnspacedSharedMonthYearRangeText()
    ensures "1-31December2000" == "" + ("1" + "" + "-" + "" + "31December2000") + ""
  {
  }

  lemma ReversedRangeText()
    ensures "31 - 1 December 2000" == "" + ("31" + " " + "-" + " " + "1 December 2000") + ""
  {
  }

  lemma Spelled1January1900()
    ensures Spelled(Written("1", " ", "January", " ", "1900")) == "1 January 1900"
  {
  }

  lemma Spelled31December2000()
    ensures Spelled(Written("31", " ", "December", " ", "2000")) == "31 December 2000"
  {
  }

  lemma Spelled9December2020()
    ensures Spelled(Written("9", " ", "December", " ", "2020")) == "9 December 2020"
  {
  }

  lemma Spelled28February2021()
    ensures Spelled(Written("28", " ", "February", " ", "2021")) == "28 February 2021"
  {
  }

  lemma Spelled1January1900Tight()
    ensures Spelled(Written("1", "", "January", "", "1900")) == "1January1900"
  {
  }

  lemma Spelled31December2000Tight()
    ensures Spelled(Written("31", "", "December", "", "2000")) == "31December2000"
  {
  }

  lemma Spelled1Jan1900()
    ensures Spelled(Written("1", " ", "Jan", " ", "1900")) == "1 Jan 1900"
  {
  }

  lemma Spelled31Dec2000()
    ensures Spelled(Written("31", " ", "Dec", " ", "2000")) == "31 Dec 2000"
  {
  }

  lemma Spelled31Dec2000Wide()
    ensures Spelled(Written("31", "  ", "Dec", "  ", "2000")) == "31  Dec  2000"
  {
  }

  lemma Spelled31Dec2000Tight()
    ensures Spelled(Written("31", "", "Dec", "", "2000")) == "31Dec2000"
  {
  }

  lemma Spelled31December2000Wide()
    ensures Spelled(Written("31", "  ", "December", "  ", "2000")) == "31  December  2000"
  {
  }

  lemma Spelled1December2000()
    ensures Spelled(Written("1", " ", "December", " ", "2000")) == "1 December 2000"
  {
  }

  lemma NoBreakSpaceText()
    ensures "9\U{00A0}December\U{00A0}2020 \U{2013} 28\U{00A0}February\U{00A0}2021"
            == "9\U{00A0}December\U{00A0}2020" + " " + "\U{2013}" + " "
               + "28\U{00A0}February\U{00A0}2021"
  {
  }

  lemma SpelledNoBreak9December2020()
    ensures Spelled(Written("9", "\U{00A0}", "December", "\U{00A0}", "2020")) == "9\U{00A0}December\U{00A0}2020"
  {
  }

  lemma SpelledNoBreak28February2021()
    ensures Spelled(Written("28", "\U{00A0}", "February", "\U{00A0}", "2021")) == "28\U{00A0}February\U{00A0}2021"
  {
  }
}
