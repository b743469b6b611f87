/** The month lexicon: twelve case-insensitive patterns `abbrev(?:suffix)?`, January first.
    Position j of the lexicon (0-based) stands for calendar month j + 1. */
module Months {
  import opened Lexical
  import opened Wrappers

  /** The pattern `abbrev(?:suffix)?`: the three-letter abbreviation, optionally followed by the
      rest of the full name. Both parts are written in lower case. */
  datatype MonthPattern = MonthPattern(abbrev: string, suffix: string)
  {
    function Full(): string {
      abbrev + suffix
    }
  }

  /** The twelve spellings in calendar order; `may` has no optional part. */
  const MonthPatterns: seq<MonthPattern> := [
    MonthPattern("jan", "uary"),
    MonthPattern("feb", "ruary"),
    MonthPattern("mar", "ch"),
    MonthPattern("apr", "il"),
    MonthPattern("may", ""),
    MonthPattern("jun", "e"),
    MonthPattern("jul", "y"),
    MonthPattern("aug", "ust"),
    MonthPattern("sep", "tember"),
    MonthPattern("oct", "ober"),
    MonthPattern("nov", "ember"),
    MonthPattern("dec", "ember")
  ]

  /** Under the `(?i)` flag a lower-case pattern letter `l` matches every character of its
      simple case-folding orbit: `l`, its upper-case form, and also U+017F (long s) for `s`
      and U+212A (Kelvin sign) for `k`. Any other pattern character matches only itself. */
  predicate FoldsTo(c: char, l: char) {
    c == l
    || (IsLower(l) && c as int == l as int - 32)
    || (l == 's' && c == '\U{017F}')
    || (l == 'k' && c == '\U{212A}')
  }

  /** `t` matches the literal lower-case text `p` case-insensitively. */
  predicate FoldEq(t: string, p: string) {
    |t| == |p| && forall i :: 0 <= i < |t| ==> FoldsTo(t[i], p[i])
  }

  /** `p` matches case-insensitively at position `i` of `s`. */
  predicate MatchesAt(s: string, i: nat, p: string) {
    i + |p| <= |s| && FoldEq(s[i..i + |p|], p)
  }

  /** `MatchString` of the compiled `(?i)abbrev(?:suffix)?`: the pattern is not anchored,
      so it holds when either spelling occurs anywhere in `s`. */
  predicate MatchString(re: MonthPattern, s: string) {
    exists i :: 0 <= i <= |s| && (MatchesAt(s, i, re.abbrev) || MatchesAt(s, i, re.Full()))
  }

  /** `t` is a spelling of month `k` (1-based) of the lexicon: its abbreviation or its full
      name, in any case. */
  predicate IsSpelling(months: seq<MonthPattern>, t: string, k: nat) {
    1 <= k <= |months| && (FoldEq(t, months[k - 1].abbrev) || FoldEq(t, months[k - 1].Full()))
  }

  /** `parseMonth`, from position `j` of the lexicon on: the 1-based index of the first month
      regexp that matches `s`, or 0 when none does. */
  function ParseMonthFrom(regexps: seq<MonthPattern>, s: string, j: nat): (k: nat)
    requires j <= |regexps|
    ensures k == 0 || j < k <= |regexps|
    ensures k > 0 ==> MatchString(regexps[k - 1], s)
    ensures forall i :: j <= i < |regexps| && (k == 0 || i < k - 1) ==> !MatchString(regexps[i], s)
    decreases |regexps| - j
  {
    if j == |regexps| then 0
    else if MatchString(regexps[j], s) then j + 1
    else ParseMonthFrom(regexps, s, j + 1)
  }

  /** `parseMonth`: the first month regexp, in lexicon order, that matches `s` gives the result
      (its 1-based position); 0 exactly when none matches. */
  function ParseMonth(regexps: seq<MonthPattern>, s: string): (k: nat)
    ensures k <= |regexps|
    ensures k > 0 ==> MatchString(regexps[k - 1], s) && forall i :: 0 <= i < k - 1 ==> !MatchString(regexps[i], s)
    ensures k == 0 <==> forall i :: 0 <= i < |regexps| ==> !MatchString(regexps[i], s)
  {
    ParseMonthFrom(regexps, s, 0)
  }

  /** What makes a lexicon unambiguous: lower-case three-letter abbreviations, and no full
      name containing the abbreviation of another month (so abbreviations are distinct too). */
  ghost predicate Unambiguous(months: seq<MonthPattern>) {
    (forall j :: 0 <= j < |months| ==> |months[j].abbrev| == 3 && AllLower(months[j].Full()))
    && (forall j: nat, k: nat, i: nat :: j < |months| && k < |months| && j != k ==> !Clashes(months, j, k, i))
  }

  /** The abbreviation of month `j` occurs at position `i` of the full name of month `k`. */
  ghost predicate Clashes(months: seq<MonthPattern>, j: nat, k: nat, i: nat)
    requires j < |months| && k < |months|
  {
    i + 3 <= |months[k].Full()| && months[k].Full()[i..i + 3] == months[j].abbrev
  }

  // ---- The lexicon is unambiguous ----

  /** The abbreviation of a month, as its calendar index 0..11, or -1 for any other text. */
  function AbbrevIndex(a: string): (r: int)
    ensures -1 <= r < 12
  {
    if |a| != 3 then -1
    else if a[0] == 'j' && a[1] == 'a' && a[2] == 'n' then 0
    else if a[0] == 'f' && a[1] == 'e' && a[2] == 'b' then 1
    else if a[0] == 'm' && a[1] == 'a' && a[2] == 'r' then 2
    else if a[0] == 'a' && a[1] == 'p' && a[2] == 'r' then 3
    else if a[0] == 'm' && a[1] == 'a' && a[2] == 'y' then 4
    else if a[0] == 'j' && a[1] == 'u' && a[2] == 'n' then 5
    else if a[0] == 'j' && a[1] == 'u' && a[2] == 'l' then 6
    else if a[0] == 'a' && a[1] == 'u' && a[2] == 'g' then 7
    else if a[0] == 's' && a[1] == 'e' && a[2] == 'p' then 8
    else if a[0] == 'o' && a[1] == 'c' && a[2] == 't' then 9
    else if a[0] == 'n' && a[1] == 'o' && a[2] == 'v' then 10
    else if a[0] == 'd' && a[1] == 'e' && a[2] == 'c' then 11
    else -1
  }

  lemma AbbrevIndexOf(j: nat)
    requires j < 12
    ensures AbbrevIndex(MonthPatterns[j].abbrev) == j
  {
  }

  /** Every three-letter window of a full month name, except the leading abbreviation, is no
      month abbreviation. (`may` has no other window.) */
  lemma FullNameWindows(k: nat, i: nat)
    requires k < 12 && 0 < i && i + 3 <= |MonthPatterns[k].Full()|
    ensures AbbrevIndex(MonthPatterns[k].Full()[i..i + 3]) == -1
  {
    if k < 4 {
      WindowsJanToApr(k, i);
    } else if k == 4 {
      assert false;
    } else if k < 9 {
      WindowsJunToSep(k, i);
    } else {
      WindowsOctToDec(k, i);
    }
  }

  /** The windows of the full names of months 0 to 3 (0-based), listed one by one. */
  lemma WindowsJanToApr(k: nat, i: nat)
    requires 0 <= k <= 3 && 0 < i && i + 3 <= |MonthPatterns[k].Full()|
    ensures AbbrevIndex(MonthPatterns[k].Full()[i..i + 3]) == -1
  {
    var w := MonthPatterns[k].Full();
    if k == 0 {
      assert w == "january";
      if i == 1 { assert w[1] == 'a' && w[2] == 'n' && w[3] == 'u'; }
      else if i == 2 { assert w[2] == 'n' && w[3] == 'u' && w[4] == 'a'; }
      else if i == 3 { assert w[3] == 'u' && w[4] == 'a' && w[5] == 'r'; }
      else { assert w[4] == 'a' && w[5] == 'r' && w[6] == 'y'; }
    } else if k == 1 {
      assert w == "february";
      if i == 1 { assert w[1] == 'e' && w[2] == 'b' && w[3] == 'r'; }
      else if i == 2 { assert w[2] == 'b' && w[3] == 'r' && w[4] == 'u'; }
      else if i == 3 { assert w[3] == 'r' && w[4] == 'u' && w[5] == 'a'; }
      else if i == 4 { assert w[4] == 'u' && w[5] == 'a' && w[6] == 'r'; }
      else { assert w[5] == 'a' && w[6] == 'r' && w[7] == 'y'; }
    } else if k == 2 {
      assert w == "march";
      if i == 1 { assert w[1] == 'a' && w[2] == 'r' && w[3] == 'c'; }
      else { assert w[2] == 'r' && w[3] == 'c' && w[4] == 'h'; }
    } else {
      assert w == "april";
      if i == 1 { assert w[1] == 'p' && w[2] == 'r' && w[3] == 'i'; }
      else { assert w[2] == 'r' && w[3] == 'i' && w[4] == 'l'; }
    }
  }

  /** The windows of the full names of months 5 to 8 (0-based), listed one by one. */
  lemma WindowsJunToSep(k: nat, i: nat)
    requires 5 <= k <= 8 && 0 < i && i + 3 <= |MonthPatterns[k].Full()|
    ensures AbbrevIndex(MonthPatterns[k].Full()[i..i + 3]) == -1
  {
    var w := MonthPatterns[k].Full();
    if k == 5 {
      assert w == "june";
      assert w[1] == 'u' && w[2] == 'n' && w[3] == 'e';
    } else if k == 6 {
      assert w == "july";
      assert w[1] == 'u' && w[2] == 'l' && w[3] == 'y';
    } else if k == 7 {
      assert w == "august";
      if i == 1 { assert w[1] == 'u' && w[2] == 'g' && w[3] == 'u'; }
      else if i == 2 { assert w[2] == 'g' && w[3] == 'u' && w[4] == 's'; }
      else { assert w[3] == 'u' && w[4] == 's' && w[5] == 't'; }
    } else {
      assert w == "september";
      if i == 1 { assert w[1] == 'e' && w[2] == 'p' && w[3] == 't'; }
      else if i == 2 { assert w[2] == 'p' && w[3] == 't' && w[4] == 'e'; }
      else if i == 3 { assert w[3] == 't' && w[4] == 'e' && w[5] == 'm'; }
      else if i == 4 { assert w[4] == 'e' && w[5] == 'm' && w[6] == 'b'; }
      else if i == 5 { assert w[5] == 'm' && w[6] == 'b' && w[7] == 'e'; }
      else { assert w[6] == 'b' && w[7] == 'e' && w[8] == 'r'; }
    }
  }

  /** The windows of the full names of months 9 to 11 (0-based), listed one by one. */
  lemma WindowsOctToDec(k: nat, i: nat)
    requires 9 <= k <= 11 && 0 < i && i + 3 <= |MonthPatterns[k].Full()|
    ensures AbbrevIndex(MonthPatterns[k].Full()[i..i + 3]) == -1
  {
    var w := MonthPatterns[k].Full();
    if k == 9 {
      assert w == "october";
      if i == 1 { assert w[1] == 'c' && w[2] == 't' && w[3] == 'o'; }
      else if i == 2 { assert w[2] == 't' && w[3] == 'o' && w[4] == 'b'; }
      else if i == 3 { assert w[3] == 'o' && w[4] == 'b' && w[5] == 'e'; }
      else { assert w[4] == 'b' && w[5] == 'e' && w[6] == 'r'; }
    } else if k == 10 {
      assert w == "november";
      if i == 1 { assert w[1] == 'o' && w[2] == 'v' && w[3] == 'e'; }
      else if i == 2 { assert w[2] == 'v' && w[3] == 'e' && w[4] == 'm'; }
      else if i == 3 { assert w[3] == 'e' && w[4] == 'm' && w[5] == 'b'; }
      else if i == 4 { assert w[4] == 'm' && w[5] == 'b' && w[6] == 'e'; }
      else { assert w[5] == 'b' && w[6] == 'e' && w[7] == 'r'; }
    } else {
      assert w == "december";
      if i == 1 { assert w[1] == 'e' && w[2] == 'c' && w[3] == 'e'; }
      else if i == 2 { assert w[2] == 'c' && w[3] == 'e' && w[4] == 'm'; }
      else if i == 3 { assert w[3] == 'e' && w[4] == 'm' && w[5] == 'b'; }
      else if i == 4 { assert w[4] == 'm' && w[5] == 'b' && w[6] == 'e'; }
      else { assert w[5] == 'b' && w[6] == 'e' && w[7] == 'r'; }
    }
  }

  /** The twelve month patterns form an unambiguous lexicon. */
  lemma LexiconUnambiguous()
    ensures Unambiguous(MonthPatterns)
  {
    forall j: nat, k: nat, i: nat | j < 12 && k < 12 && j != k
      ensures !Clashes(MonthPatterns, j, k, i)
    {
      AbbrevIndexOf(j);
      if i + 3 > |MonthPatterns[k].Full()| {
      } else if i == 0 {
        assert MonthPatterns[k].Full()[0..3] == MonthPatterns[k].abbrev;
        AbbrevIndexOf(k);
      } else {
        FullNameWindows(k, i);
      }
    }
  }

  // ---- Case folding ----

  /** Case folding never merges two distinct lower-case letters. */
  lemma FoldUnique(c: char, l1: char, l2: char)
    requires IsLower(l1) && IsLower(l2) && FoldsTo(c, l1) && FoldsTo(c, l2)
    ensures l1 == l2
  {
  }

  lemma FoldEqUnique(t: string, p: string, q: string)
    requires AllLower(p) && AllLower(q) && FoldEq(t, p) && FoldEq(t, q)
    ensures p == q
  {
    forall i | 0 <= i < |t| ensures p[i] == q[i] {
      FoldUnique(t[i], p[i], q[i]);
    }
  }

  /** A character that case-folds to a letter is no digit, space or separator. */
  lemma LetterClass(c: char, l: char)
    requires IsLower(l) && FoldsTo(c, l)
    ensures !IsDigit(c) && !IsSpace(c) && !IsSep(c)
  {
  }

  lemma AbbrevLower(months: seq<MonthPattern>, j: nat)
    requires Unambiguous(months) && j < |months|
    ensures AllLower(months[j].abbrev) && |months[j].abbrev| == 3
  {
    assert forall n :: 0 <= n < 3 ==> months[j].abbrev[n] == months[j].Full()[n];
  }

  /** A case-insensitive match of a lower-case pattern inside a case variant of a lower-case
      word is a window of that word. */
  lemma MatchIsWindow(t: string, w: string, i: nat, a: string)
    requires FoldEq(t, w) && AllLower(w) && AllLower(a)
    ensures MatchesAt(t, i, a) ==> w[i..i + |a|] == a
  {
    if MatchesAt(t, i, a) {
      var x := w[i..i + |a|];
      forall n | 0 <= n < |a| ensures FoldsTo(t[i..i + |a|][n], x[n]) {
        assert t[i..i + |a|][n] == t[i + n];
      }
      FoldEqUnique(t[i..i + |a|], x, a);
    }
  }

  /** Matching a full name implies matching its abbreviation at the same place. */
  lemma FullMatchHasAbbrev(s: string, i: nat, p: MonthPattern)
    ensures MatchesAt(s, i, p.Full()) ==> MatchesAt(s, i, p.abbrev)
  {
    if MatchesAt(s, i, p.Full()) {
      forall n | 0 <= n < |p.abbrev| ensures FoldsTo(s[i..i + |p.abbrev|][n], p.abbrev[n]) {
        assert s[i..i + |p.abbrev|][n] == s[i..i + |p.Full()|][n];
        assert p.Full()[n] == p.abbrev[n];
      }
    }
  }

  // ---- parseMonth on a spelling ----

  /** A spelling of month `k` (0-based) is matched by no other month regexp. */
  lemma OtherMonthsDoNotMatch(months: seq<MonthPattern>, t: string, w: string, k: nat, j: nat)
    requires Unambiguous(months) && k < |months| && j < |months| && j != k
    requires w == months[k].abbrev || w == months[k].Full()
    requires FoldEq(t, w)
    ensures !MatchString(months[j], t)
  {
    var p := months[j];
    AbbrevLower(months, j);
    AbbrevLower(months, k);
    forall i | 0 <= i <= |t| ensures !MatchesAt(t, i, p.abbrev) && !MatchesAt(t, i, p.Full()) {
      FullMatchHasAbbrev(t, i, p);
      MatchIsWindow(t, w, i, p.abbrev);
      if i + 3 <= |w| {
        if w == months[k].abbrev {
          assert i == 0 && w[0..3] == months[k].Full()[0..3];
        }
        assert !Clashes(months, j, k, i);
      }
    }
  }

  /** In an unambiguous lexicon, every spelling of month `k` resolves to exactly `k`. */
  lemma {:induction false} SpellingResolves(months: seq<MonthPattern>, t: string, k: nat)
    requires Unambiguous(months) && IsSpelling(months, t, k)
    ensures ParseMonth(months, t) == k
  {
    var p := months[k - 1];
    var w := if FoldEq(t, p.abbrev) then p.abbrev else p.Full();
    assert t[0..|w|] == t;
    assert MatchesAt(t, 0, w);
    assert MatchString(p, t);
    forall j | 0 <= j < k - 1 ensures !MatchString(months[j], t) {
      OtherMonthsDoNotMatch(months, t, w, k - 1, j);
    }
  }

  /** `parseMonth` returns `k` for every spelling of calendar month `k`, abbreviated or full,
      in any case. */
  lemma MonthTokenResolves(t: string, k: nat)
    requires IsSpelling(MonthPatterns, t, k)
    ensures ParseMonth(MonthPatterns, t) == k
  {
    LexiconUnambiguous();
    SpellingResolves(MonthPatterns, t, k);
  }

  // ---- The combined month alternative inside the date-range patterns ----

  /** A month token recognised at some position: its calendar month and where it ends. */
  datatype MonthHit = MonthHit(month: nat, end: nat)

  /** The alternation `jan(?:uary)?|feb(?:ruary)?|...|dec(?:ember)?` tried at position `i`,
      from alternative `j` on. The first alternative whose abbreviation matches is taken, with
      its optional rest when that matches too (the optional group is greedy). */
  function MonthAtFrom(months: seq<MonthPattern>, s: string, i: nat, j: nat): (r: Option<MonthHit>)
    requires i <= |s| && j <= |months|
    ensures r.Some? ==> j < r.value.month <= |months| && i <= r.value.end <= |s|
    decreases |months| - j
  {
    if j == |months| then None
    else
      var p := months[j];
      if MatchesAt(s, i, p.Full()) then Some(MonthHit(j + 1, i + |p.Full()|))
      else if MatchesAt(s, i, p.abbrev) then Some(MonthHit(j + 1, i + |p.abbrev|))
      else MonthAtFrom(months, s, i, j + 1)
  }

  function MonthAt(months: seq<MonthPattern>, s: string, i: nat): (r: Option<MonthHit>)
    requires i <= |s|
    ensures r.Some? ==> 1 <= r.value.month <= |months| && i <= r.value.end <= |s|
  {
    MonthAtFrom(months, s, i, 0)
  }

  /** What `MonthAtFrom` finds is a spelling of the month it names. */
  lemma {:induction false} MonthAtFromSpells(months: seq<MonthPattern>, s: string, i: nat, j: nat)
    requires i <= |s| && j <= |months| && MonthAtFrom(months, s, i, j).Some?
    ensures var hit := MonthAtFrom(months, s, i, j).value;
            IsSpelling(months, s[i..hit.end], hit.month)
    decreases |months| - j
  {
    var p := months[j];
    if !MatchesAt(s, i, p.Full()) && !MatchesAt(s, i, p.abbrev) {
      MonthAtFromSpells(months, s, i, j + 1);
    }
  }

  /** What `MonthAt` finds is a spelling of the month it names: a month's abbreviation or its
      full name, in any case. */
  lemma MonthAtSpells(months: seq<MonthPattern>, s: string, i: nat)
    requires i <= |s| && MonthAt(months, s, i).Some?
    ensures IsSpelling(months, s[i..MonthAt(months, s, i).value.end], MonthAt(months, s, i).value.month)
  {
    MonthAtFromSpells(months, s, i, 0);
  }

  /** The characters a month name can start with under `(?i)`: the ASCII letters, and the
      two non-ASCII characters that fold to `s` and `k`. */
  predicate CaseLetter(c: char) {
    'a' <= c <= 'z' || 'A' <= c <= 'Z' || c == '\U{017F}' || c == '\U{212A}'
  }

  /** A month group only matches where the text has a letter. */
  lemma MonthStartsWithLetter(months: seq<MonthPattern>, s: string, i: nat)
    requires Unambiguous(months) && i <= |s| && MonthAt(months, s, i).Some?
    ensures i < |s| && CaseLetter(s[i])
  {
    MonthAtSpells(months, s, i);
    var hit := MonthAt(months, s, i).value;
    var p := months[hit.month - 1];
    AbbrevLower(months, hit.month - 1);
    assert p.Full()[0] == p.abbrev[0];
    assert |s[i..hit.end]| >= 3 && s[i..hit.end][0] == s[i];
    assert FoldsTo(s[i], p.abbrev[0]);
  }

  /** Where a spelling of month `k` starts, the alternatives before month `k` do not match. */
  lemma {:induction false} EarlierAlternativesSkip(months: seq<MonthPattern>, s: string, i: nat, m: string, k: nat, j: nat)
    requires Unambiguous(months) && IsSpelling(months, m, k) && i + |m| <= |s| && s[i..i + |m|] == m
    requires j <= k - 1
    ensures MonthAtFrom(months, s, i, j) == MonthAtFrom(months, s, i, k - 1)
    decreases k - 1 - j
  {
    if j < k - 1 {
      var p := months[j];
      var a := months[k - 1].abbrev;
      AbbrevLower(months, j);
      AbbrevLower(months, k - 1);
      FullMatchHasAbbrev(s, i, p);
      FullMatchHasAbbrev(m, 0, months[k - 1]);
      assert m[0..|m|] == m;
      assert FoldEq(m[..3], a) by {
        assert MatchesAt(m, 0, a);
      }
      assert s[i..i + 3] == m[..3];
      MatchIsWindow(s[i..i + 3], a, 0, p.abbrev);
      assert s[i..i + 3][0..3] == s[i..i + 3];
      assert months[k - 1].Full()[0..3] == a;
      assert !Clashes(months, j, k - 1, 0);
      assert !MatchesAt(s, i, p.abbrev);
      EarlierAlternativesSkip(months, s, i, m, k, j + 1);
    }
  }

  /** An abbreviation followed by a digit, space or separator (or by nothing) is not the
      start of the full name. */
  lemma AbbrevNotExtended(s: string, i: nat, p: MonthPattern)
    requires AllLower(p.Full()) && |p.abbrev| == 3 && |p.suffix| > 0
    requires i + 3 < |s| ==> IsDigit(s[i + 3]) || IsSpace(s[i + 3]) || IsSep(s[i + 3])
    ensures !MatchesAt(s, i, p.Full())
  {
    if i + |p.Full()| <= |s| {
      assert p.Full()[3] == p.suffix[0];
      assert s[i..i + |p.Full()|][3] == s[i + 3];
      if FoldsTo(s[i + 3], p.Full()[3]) {
        LetterClass(s[i + 3], p.Full()[3]);
      }
    }
  }

  /** A spelling of month `k` followed by the end of the text, a digit, a space or a separator
      is recognised as exactly that token, of month `k`. */
  lemma MonthAtToken(months: seq<MonthPattern>, s: string, i: nat, m: string, k: nat)
    requires Unambiguous(months) && IsSpelling(months, m, k) && i + |m| <= |s| && s[i..i + |m|] == m
    requires i + |m| < |s| ==> IsDigit(s[i + |m|]) || IsSpace(s[i + |m|]) || IsSep(s[i + |m|])
    ensures MonthAt(months, s, i) == Some(MonthHit(k, i + |m|))
  {
    EarlierAlternativesSkip(months, s, i, m, k, 0);
    var p := months[k - 1];
    if FoldEq(m, p.Full()) {
      assert MatchesAt(s, i, p.Full());
    } else {
      assert MatchesAt(s, i, p.abbrev);
      assert |p.suffix| > 0 by {
        assert |p.suffix| == 0 ==> p.Full() == p.abbrev;
      }
      AbbrevNotExtended(s, i, p);
    }
  }
}
