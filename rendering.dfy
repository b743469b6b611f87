/** Texts written in the shape of a pattern: one text per token (a day, a month spelling, a
    year, a separator character) with a run of spaces after each token but the last. Such a
    text is matched token by token, each capture group holding exactly the text written. */
module Rendering {
  import opened Wrappers
  import opened Lexical
  import opened Months
  import opened Recogniser

  /** The token texts `toks`, with gap `gaps[k]` between `toks[k]` and `toks[k + 1]`. */
  function Render(toks: seq<string>, gaps: seq<string>): string
    requires |toks| == |gaps| + 1
    decreases |gaps|
  {
    if gaps == [] then toks[0] else toks[0] + gaps[0] + Render(toks[1..], gaps[1..])
  }

  /** The length of `Render(toks, gaps)`, summed piece by piece. */
  function Width(toks: seq<string>, gaps: seq<string>): nat
    requires |toks| == |gaps| + 1
    decreases |gaps|
  {
    if gaps == [] then |toks[0]| else |toks[0]| + |gaps[0]| + Width(toks[1..], gaps[1..])
  }

  /** The texts of the tokens that are capture groups, in order. */
  function CapturedText(ts: seq<Token>, toks: seq<string>): seq<string>
    requires |ts| == |toks|
  {
    if ts == [] then []
    else (if ts[0] == Sep then [] else [toks[0]]) + CapturedText(ts[1..], toks[1..])
  }

  /** A character that can be part of a month spelling but of no other token or gap. */
  predicate Letterish(c: char) {
    !IsDigit(c) && !IsSpace(c) && !IsSep(c)
  }

  /** Token `u` may come straight after token `t` without changing where `t` ends: a day
      must not run on into more digits, and a month name must not run on into letters. */
  predicate Follows(t: Token, u: Token) {
    match t
    case Day => u == MonthName || u == Sep
    case MonthName => u != MonthName
    case _ => true
  }

  /** What may come right after a token of kind `t` so that the token ends there. */
  predicate EndsBefore(t: Token, c: char) {
    match t
    case Day => !IsDigit(c)
    case MonthName => IsDigit(c) || IsSpace(c) || IsSep(c)
    case _ => true
  }

  /** Text `x` is written in `s` from position `i` on. */
  predicate WrittenAt(s: string, i: nat, x: string) {
    i + |x| <= |s| && forall n :: 0 <= n < |x| ==> s[i + n] == x[n]
  }

  /** The token texts `toks` and the gaps between them are written one after the other in
      `s` from position `i` on. */
  predicate WrittenPieces(s: string, i: nat, toks: seq<string>, gaps: seq<string>)
    requires |toks| == |gaps| + 1
    decreases |gaps|
  {
    WrittenAt(s, i, toks[0])
    && (gaps != [] ==>
          WrittenAt(s, i + |toks[0]|, gaps[0])
          && WrittenPieces(s, i + |toks[0]| + |gaps[0]|, toks[1..], gaps[1..]))
  }

  /** Token texts `toks` of the kinds `ts` with space-only gaps, in an order where each token
      ends where it is written, closing with a year. */
  ghost predicate WellFormed(months: seq<MonthPattern>, ts: seq<Token>, toks: seq<string>, gaps: seq<string>) {
    Unambiguous(months)
    && |ts| == |toks| == |gaps| + 1 && ts[|ts| - 1] == Year
    && (forall k :: 0 <= k < |ts| ==> Fits(months, ts[k], toks[k]))
    && (forall k :: 0 <= k < |gaps| ==> AllSpace(gaps[k]))
    && (forall k :: 0 <= k < |gaps| ==> Follows(ts[k], ts[k + 1]))
  }

  /** Text written at `i` is the slice of `s` from `i`. */
  lemma WrittenSlice(s: string, i: nat, x: string)
    requires WrittenAt(s, i, x)
    ensures s[i..i + |x|] == x
  {
    forall n | 0 <= n < |x| ensures s[i..i + |x|][n] == x[n] {
      assert s[i + n] == x[n];
    }
  }

  /** Text `a + b` written at `i` is `a` written at `i` and `b` written right after it. */
  lemma WrittenSplit(s: string, i: nat, a: string, b: string)
    requires WrittenAt(s, i, a + b)
    ensures WrittenAt(s, i, a) && WrittenAt(s, i + |a|, b)
  {
    forall n | 0 <= n < |a| ensures s[i + n] == a[n] {
      assert (a + b)[n] == a[n];
    }
    forall n | 0 <= n < |b| ensures s[i + |a| + n] == b[n] {
      assert (a + b)[|a| + n] == b[n];
    }
  }

  /** A text is written in itself, after what precedes it. */
  lemma WrittenInside(pre: string, x: string, post: string)
    ensures WrittenAt(pre + x + post, |pre|, x)
  {
    var s := pre + x + post;
    forall n | 0 <= n < |x| ensures s[|pre| + n] == x[n] {
      assert s[|pre| + n] == (pre + x)[|pre| + n];
    }
  }

  /** A rendered text written at `i` is its pieces written one after the other, and it is
      as long as they are together. */
  lemma {:induction false} RenderWritten(s: string, i: nat, toks: seq<string>, gaps: seq<string>)
    requires |toks| == |gaps| + 1 && WrittenAt(s, i, Render(toks, gaps))
    ensures WrittenPieces(s, i, toks, gaps) && |Render(toks, gaps)| == Width(toks, gaps)
    decreases |gaps|
  {
    if gaps != [] {
      var x, g, rest := toks[0], gaps[0], Render(toks[1..], gaps[1..]);
      WrittenSplit(s, i, x + g, rest);
      WrittenSplit(s, i, x, g);
      RenderWritten(s, i + |x| + |g|, toks[1..], gaps[1..]);
    }
  }

  /** A month spelling is at least three characters, none of them a digit, whitespace or a
      separator (they are letters in some case). */
  lemma MonthTextLetters(months: seq<MonthPattern>, x: string)
    requires Unambiguous(months) && Fits(months, MonthName, x)
    ensures |x| >= 3 && forall n :: 0 <= n < |x| ==> Letterish(x[n])
  {
    var k: nat :| IsSpelling(months, x, k);
    AbbrevLower(months, k - 1);
    var p := months[k - 1];
    var w := if FoldEq(x, p.abbrev) then p.abbrev else p.Full();
    assert |w| >= 3 && AllLower(w);
    forall n | 0 <= n < |x| ensures Letterish(x[n]) {
      LetterClass(x[n], w[n]);
    }
  }

  /** The first character of a token that may follow `t` ends `t`, and is not a space. */
  lemma HeadFollows(months: seq<MonthPattern>, t: Token, u: Token, x: string)
    requires Unambiguous(months) && Follows(t, u) && Fits(months, u, x)
    ensures |x| > 0 && EndsBefore(t, x[0]) && !IsSpace(x[0])
  {
    if u == MonthName {
      MonthTextLetters(months, x);
    }
  }

  /** A token written at `i` and ended properly is read up to its end. */
  lemma ReadWritten(months: seq<MonthPattern>, t: Token, s: string, i: nat, x: string)
    requires Unambiguous(months) && Fits(months, t, x) && WrittenAt(s, i, x)
    requires i + |x| < |s| ==> EndsBefore(t, s[i + |x|])
    ensures ReadToken(months, t, s, i) == Some(i + |x|)
  {
    WrittenSlice(s, i, x);
    match t
    case Day =>
      assert s[i] == x[0];
      if |x| == 2 {
        assert s[i + 1] == x[1];
      }
    case Year =>
    case Sep =>
      assert s[i] == x[0];
    case MonthName =>
      var k: nat :| IsSpelling(months, x, k);
      MonthAtToken(months, s, i, x, k);
  }

  /** `\s*` over a written gap stops where the gap ends, when a non-space follows. */
  lemma {:induction false} SkipWrittenGap(s: string, j: nat, g: string)
    requires AllSpace(g) && WrittenAt(s, j, g)
    requires j + |g| < |s| ==> !IsSpace(s[j + |g|])
    ensures SkipSpace(s, j) == j + |g|
    decreases |g|
  {
    if g != [] {
      assert s[j] == g[0];
      forall n | 0 <= n < |g| - 1 ensures s[j + 1 + n] == g[1..][n] {
        assert s[j + (n + 1)] == g[n + 1];
      }
      SkipWrittenGap(s, j + 1, g[1..]);
    }
  }

  /** The tail of a well-formed written text is well formed. */
  lemma WellFormedTail(months: seq<MonthPattern>, ts: seq<Token>, toks: seq<string>, gaps: seq<string>)
    requires WellFormed(months, ts, toks, gaps) && gaps != []
    ensures WellFormed(months, ts[1..], toks[1..], gaps[1..])
    ensures Fits(months, ts[0], toks[0]) && Fits(months, ts[1], toks[1])
    ensures Follows(ts[0], ts[1]) && AllSpace(gaps[0])
  {
    forall k | 0 <= k < |gaps| - 1 ensures Follows(ts[1..][k], ts[1..][k + 1]) {
      assert ts[1..][k] == ts[k + 1] && ts[1..][k + 1] == ts[k + 2];
    }
    assert Fits(months, ts[1], toks[1]) && Follows(ts[0], ts[1]);
  }

  /** A token `x` of kind `t`, the gap `g` after it and a token `y` of kind `u` written from
      `i` on: the token is read to its end and the gap is skipped. */
  lemma TokenThenGap(months: seq<MonthPattern>, t: Token, u: Token, x: string, g: string, y: string, s: string, i: nat)
    requires Unambiguous(months) && Fits(months, t, x) && Fits(months, u, y) && Follows(t, u) && AllSpace(g)
    requires WrittenAt(s, i, x) && WrittenAt(s, i + |x|, g) && WrittenAt(s, i + |x| + |g|, y)
    ensures ReadToken(months, t, s, i) == Some(i + |x|)
    ensures SkipSpace(s, i + |x|) == i + |x| + |g|
  {
    HeadFollows(months, t, u, y);
    assert s[i + |x| + |g| + 0] == y[0];
    if g != [] {
      assert s[i + |x| + 0] == g[0];
    }
    SkipWrittenGap(s, i + |x|, g);
    ReadWritten(months, t, s, i, x);
  }

  /** Matching a single token. */
  lemma MatchLast(months: seq<MonthPattern>, ts: seq<Token>, s: string, i: nat, j: nat)
    requires |ts| == 1 && i <= |s| && ReadToken(months, ts[0], s, i) == Some(j)
    ensures MatchTokens(months, ts, s, i) == Some(Matched(j, if ts[0] == Sep then [] else [s[i..j]]))
  {
  }

  /** Matching a token, the spaces after it and then the rest of the tokens. */
  lemma MatchStep(months: seq<MonthPattern>, ts: seq<Token>, s: string, i: nat, j: nat, k: nat, here: seq<string>, tail: Matched)
    requires |ts| > 1 && i <= j <= |s| && ReadToken(months, ts[0], s, i) == Some(j)
    requires here == if ts[0] == Sep then [] else [s[i..j]]
    requires SkipSpace(s, j) == k && MatchTokens(months, ts[1..], s, k) == Some(tail)
    ensures MatchTokens(months, ts, s, i) == Some(Matched(tail.end, here + tail.captures))
  {
  }

  /** A written text of a single token, a year, is matched whole. */
  lemma MatchWrittenYear(months: seq<MonthPattern>, ts: seq<Token>, toks: seq<string>, gaps: seq<string>, s: string, i: nat)
    requires gaps == [] && WellFormed(months, ts, toks, gaps) && WrittenPieces(s, i, toks, gaps)
    ensures MatchTokens(months, ts, s, i) == Some(Matched(i + Width(toks, gaps), CapturedText(ts, toks)))
  {
    var x := toks[0];
    assert ts[0] == Year && Fits(months, Year, x);
    assert ts[1..] == [] && toks[1..] == [];
    assert CapturedText(ts, toks) == [x];
    ReadWritten(months, ts[0], s, i, x);
    WrittenSlice(s, i, x);
    MatchLast(months, ts, s, i, i + |x|);
  }

  /** A token `x` of kind `ts[0]` and the gap `g` after it, written at `i` in front of a token
      `y` of kind `ts[1]` from which the rest of the tokens match up to `e`: the whole
      sequence matches up to `e`, capturing `x` unless it is the separator. */
  lemma TokenThenRest(months: seq<MonthPattern>, ts: seq<Token>, x: string, g: string, y: string, s: string, i: nat,
                      e: nat, rest: seq<string>, captures: seq<string>)
    requires |ts| > 1 && Unambiguous(months) && Fits(months, ts[0], x) && Fits(months, ts[1], y)
    requires Follows(ts[0], ts[1]) && AllSpace(g)
    requires WrittenAt(s, i, x) && WrittenAt(s, i + |x|, g) && WrittenAt(s, i + |x| + |g|, y)
    requires MatchTokens(months, ts[1..], s, i + |x| + |g|) == Some(Matched(e, rest))
    requires captures == (if ts[0] == Sep then [] else [x]) + rest
    ensures MatchTokens(months, ts, s, i) == Some(Matched(e, captures))
  {
    TokenThenGap(months, ts[0], ts[1], x, g, y, s, i);
    WrittenSlice(s, i, x);
    MatchStep(months, ts, s, i, i + |x|, i + |x| + |g|, if ts[0] == Sep then [] else [x], Matched(e, rest));
  }

  /** Token texts written in the shape of `ts` are matched from where they start up to where
      they end, and each capture group holds the text written for its token. */
  lemma MatchPieces(months: seq<MonthPattern>, ts: seq<Token>, toks: seq<string>, gaps: seq<string>, s: string, i: nat)
    requires WellFormed(months, ts, toks, gaps) && WrittenPieces(s, i, toks, gaps)
    ensures MatchTokens(months, ts, s, i) == Some(Matched(i + Width(toks, gaps), CapturedText(ts, toks)))
    decreases |gaps|, 1
  {
    if gaps == [] {
      MatchWrittenYear(months, ts, toks, gaps, s, i);
    } else {
      MatchMorePieces(months, ts, toks, gaps, s, i);
    }
  }

  /** `MatchPieces` for more than one token: the first token and the gap after it, then the
      rest. */
  lemma {:induction false} MatchMorePieces(months: seq<MonthPattern>, ts: seq<Token>, toks: seq<string>, gaps: seq<string>, s: string, i: nat)
    requires gaps != [] && WellFormed(months, ts, toks, gaps) && WrittenPieces(s, i, toks, gaps)
    ensures MatchTokens(months, ts, s, i) == Some(Matched(i + Width(toks, gaps), CapturedText(ts, toks)))
    decreases |gaps|, 0
  {
    var k := i + |toks[0]| + |gaps[0]|;
    WellFormedTail(months, ts, toks, gaps);
    assert WrittenPieces(s, k, toks[1..], gaps[1..]);
    assert WrittenAt(s, k, toks[1]) by {
      assert toks[1..][0] == toks[1];
    }
    MatchPieces(months, ts[1..], toks[1..], gaps[1..], s, k);
    PiecesStep(months, ts, toks, gaps, s, i);
  }

  /** The step of `MatchMorePieces`: the first token and its gap in front of the rest, already
      matched. */
  lemma PiecesStep(months: seq<MonthPattern>, ts: seq<Token>, toks: seq<string>, gaps: seq<string>, s: string, i: nat)
    requires gaps != [] && |ts| == |toks| == |gaps| + 1
    requires Unambiguous(months) && Fits(months, ts[0], toks[0]) && Fits(months, ts[1], toks[1])
    requires Follows(ts[0], ts[1]) && AllSpace(gaps[0])
    requires WrittenAt(s, i, toks[0]) && WrittenAt(s, i + |toks[0]|, gaps[0]) && WrittenAt(s, i + |toks[0]| + |gaps[0]|, toks[1])
    requires MatchTokens(months, ts[1..], s, i + |toks[0]| + |gaps[0]|)
               == Some(Matched(i + |toks[0]| + |gaps[0]| + Width(toks[1..], gaps[1..]), CapturedText(ts[1..], toks[1..])))
    ensures MatchTokens(months, ts, s, i) == Some(Matched(i + Width(toks, gaps), CapturedText(ts, toks)))
  {
    TokenThenRest(months, ts, toks[0], gaps[0], toks[1], s, i,
                  i + Width(toks, gaps), CapturedText(ts[1..], toks[1..]), CapturedText(ts, toks));
  }

  /** A text written in the shape of `ts` is matched from where it starts up to where it ends,
      and each capture group holds the text written for its token. */
  lemma MatchWritten(months: seq<MonthPattern>, ts: seq<Token>, toks: seq<string>, gaps: seq<string>, s: string, i: nat)
    requires WellFormed(months, ts, toks, gaps) && WrittenAt(s, i, Render(toks, gaps))
    ensures MatchTokens(months, ts, s, i) == Some(Matched(i + |Render(toks, gaps)|, CapturedText(ts, toks)))
  {
    RenderWritten(s, i, toks, gaps);
    MatchPieces(months, ts, toks, gaps, s, i);
  }

  /** A template that starts with a day cannot match where there is no digit. */
  lemma NoMatchWithoutDigit(re: Regexp, s: string, q: nat)
    requires re.tokens != [] && re.tokens[0] == Day && q <= |s|
    requires q < |s| ==> !IsDigit(s[q])
    ensures MatchAt(re, s, q).None?
  {
  }

  /** A match at `p` with none before it is what `FindStringSubmatch` returns. */
  lemma LeftmostIs(re: Regexp, s: string, p: nat)
    requires re.tokens != [] && p <= |s|
    requires MatchAt(re, s, p).Some?
    requires forall q :: 0 <= q < p ==> MatchAt(re, s, q).None?
    ensures FindStringSubmatch(re, s) == MatchAt(re, s, p).value
  {
  }
}
