/** A dedicated recogniser for the three date-range patterns, in place of a general regular
    expression engine. A pattern is a sequence of tokens with `\s*` between consecutive tokens:
    a day `(\d{1,2})`, a month `(jan(?:uary)?|...|dec(?:ember)?)`, a year `(\d{4})` or the
    separator `[–-]`; every token but the separator is a capture group. Matching is
    case-insensitive (the `(?i)` flag) and not anchored. */
module Recogniser {
  import opened Wrappers
  import opened Lexical
  import opened Months

  datatype Token = Day | MonthName | Year | Sep

  /** A compiled pattern: its tokens, in order, and the month alternatives spliced into each
      month group. */
  datatype Regexp = Regexp(tokens: seq<Token>, months: seq<MonthPattern>)

  /** The outcome of matching a token sequence at a position: where the match ends and the
      text of each capture group, in order. */
  datatype Matched = Matched(end: nat, captures: seq<string>)

  /** The tokens that are capture groups, in order: all but the separator. */
  function Captured(ts: seq<Token>): (cs: seq<Token>)
    ensures |cs| <= |ts| && Sep !in cs
  {
    if ts == [] then []
    else (if ts[0] == Sep then [] else [ts[0]]) + Captured(ts[1..])
  }

  /** What a capture group of each kind can hold. */
  ghost predicate Fits(months: seq<MonthPattern>, t: Token, x: string) {
    match t
    case Day => 1 <= |x| <= 2 && AllDigits(x)
    case Year => |x| == 4 && AllDigits(x)
    case MonthName => exists k :: IsSpelling(months, x, k)
    case Sep => |x| == 1 && IsSep(x[0])
  }

  /** `\s*`: the end of the longest run of spaces starting at `i`. */
  function SkipSpace(s: string, i: nat): (j: nat)
    requires i <= |s|
    ensures i <= j <= |s| && AllSpace(s[i..j])
    ensures j == |s| || !IsSpace(s[j])
    decreases |s| - i
  {
    if i < |s| && IsSpace(s[i]) then
      var j := SkipSpace(s, i + 1);
      assert forall n :: 0 < n < j - i ==> s[i..j][n] == s[i + 1..j][n - 1];
      j
    else i
  }

  /** One token at position `i`: the position just after it, if it is there. The day group
      `\d{1,2}` is greedy and takes a second digit when there is one. */
  function ReadToken(months: seq<MonthPattern>, t: Token, s: string, i: nat): (r: Option<nat>)
    requires i <= |s|
    ensures r.Some? ==> i <= r.value <= |s|
  {
    match t
    case Day =>
      if i < |s| && IsDigit(s[i]) then
        if i + 1 < |s| && IsDigit(s[i + 1]) then Some(i + 2) else Some(i + 1)
      else None
    case Year =>
      if i + 4 <= |s| && AllDigits(s[i..i + 4]) then Some(i + 4) else None
    case MonthName =>
      (match MonthAt(months, s, i)
       case None => None
       case Some(hit) => Some(hit.end))
    case Sep =>
      if i < |s| && IsSep(s[i]) then Some(i + 1) else None
  }

  /** The token sequence `ts` matched from position `i`, with `\s*` between tokens (none before
      the first or after the last). Each capture group holds text of its kind. */
  function MatchTokens(months: seq<MonthPattern>, ts: seq<Token>, s: string, i: nat): (r: Option<Matched>)
    requires i <= |s| && ts != []
    ensures r.Some? ==> i <= r.value.end <= |s|
    decreases |ts|
  {
    match ReadToken(months, ts[0], s, i)
    case None => None
    case Some(j) =>
      var here := if ts[0] == Sep then [] else [s[i..j]];
      if |ts| == 1 then Some(Matched(j, here))
      else
        match MatchTokens(months, ts[1..], s, SkipSpace(s, j))
        case None => None
        case Some(rest) => Some(Matched(rest.end, here + rest.captures))
  }

  /** A match has one capture per capture group. */
  lemma {:induction false} MatchTokensCaptures(months: seq<MonthPattern>, ts: seq<Token>, s: string, i: nat)
    requires i <= |s| && ts != [] && MatchTokens(months, ts, s, i).Some?
    ensures |MatchTokens(months, ts, s, i).value.captures| == |Captured(ts)|
    decreases |ts|
  {
    assert Captured(ts) == (if ts[0] == Sep then [] else [ts[0]]) + Captured(ts[1..]);
    if |ts| > 1 {
      var j := ReadToken(months, ts[0], s, i).value;
      MatchTokensCaptures(months, ts[1..], s, SkipSpace(s, j));
    }
  }

  /** A match starting exactly at `p`, as `FindStringSubmatch` reports it: the whole match
      followed by the text of each capture group. */
  function MatchAt(re: Regexp, s: string, p: nat): (r: Option<seq<string>>)
    requires p <= |s| && re.tokens != []
    ensures r.Some? ==> |r.value| == |Captured(re.tokens)| + 1
    ensures r.Some? <==> MatchTokens(re.months, re.tokens, s, p).Some?
    ensures r.Some? ==> r.value == [s[p..MatchTokens(re.months, re.tokens, s, p).value.end]]
                                   + MatchTokens(re.months, re.tokens, s, p).value.captures
  {
    match MatchTokens(re.months, re.tokens, s, p)
    case None => None
    case Some(m) =>
      MatchTokensCaptures(re.months, re.tokens, s, p);
      Some([s[p..m.end]] + m.captures)
  }

  /** A token read at `i` is text of its kind. */
  lemma ReadTokenFits(months: seq<MonthPattern>, t: Token, s: string, i: nat)
    requires i <= |s| && ReadToken(months, t, s, i).Some?
    ensures Fits(months, t, s[i..ReadToken(months, t, s, i).value])
  {
    if t == MonthName {
      MonthAtSpells(months, s, i);
    }
  }

  /** Each capture group of a match holds text of its kind. */
  lemma {:induction false} MatchTokensFit(months: seq<MonthPattern>, ts: seq<Token>, s: string, i: nat)
    requires i <= |s| && ts != [] && MatchTokens(months, ts, s, i).Some?
    ensures var caps := MatchTokens(months, ts, s, i).value.captures;
            |caps| == |Captured(ts)| && forall c :: 0 <= c < |caps| ==> Fits(months, Captured(ts)[c], caps[c])
    decreases |ts|
  {
    var j := ReadToken(months, ts[0], s, i).value;
    ReadTokenFits(months, ts[0], s, i);
    var kinds := if ts[0] == Sep then [] else [ts[0]];
    var here := if ts[0] == Sep then [] else [s[i..j]];
    assert Captured(ts) == kinds + Captured(ts[1..]);
    var caps := MatchTokens(months, ts, s, i).value.captures;
    MatchTokensCaptures(months, ts, s, i);
    if |ts| == 1 {
      assert caps == here;
    } else {
      var k := SkipSpace(s, j);
      var rest := MatchTokens(months, ts[1..], s, k).value.captures;
      assert caps == here + rest;
      MatchTokensFit(months, ts[1..], s, k);
      forall c | 0 <= c < |caps| ensures Fits(months, Captured(ts)[c], caps[c]) {
        if c >= |here| {
          assert caps[c] == rest[c - |here|];
          assert Captured(ts)[c] == Captured(ts[1..])[c - |here|];
        }
      }
    }
  }

  /** Each capture group of a match found at `p` holds text of its kind. */
  lemma MatchAtFits(re: Regexp, s: string, p: nat)
    requires p <= |s| && re.tokens != [] && MatchAt(re, s, p).Some?
    ensures forall c :: 0 <= c < |Captured(re.tokens)| ==>
              Fits(re.months, Captured(re.tokens)[c], MatchAt(re, s, p).value[c + 1])
  {
    var m := MatchTokens(re.months, re.tokens, s, p).value;
    MatchTokensFit(re.months, re.tokens, s, p);
    assert MatchAt(re, s, p).value == [s[p..m.end]] + m.captures;
    forall c | 0 <= c < |Captured(re.tokens)|
      ensures Fits(re.months, Captured(re.tokens)[c], MatchAt(re, s, p).value[c + 1])
    {
      assert MatchAt(re, s, p).value[c + 1] == m.captures[c];
    }
  }

  /** Where the leftmost match starting at `p` or later begins, if there is one. */
  function LeftmostFrom(re: Regexp, s: string, p: nat): (q: Option<nat>)
    requires p <= |s| && re.tokens != []
    ensures q.None? ==> forall q' :: p <= q' <= |s| ==> MatchAt(re, s, q').None?
    ensures q.Some? ==> p <= q.value <= |s| && MatchAt(re, s, q.value).Some?
    ensures q.Some? ==> forall q' :: p <= q' < q.value ==> MatchAt(re, s, q').None?
    decreases |s| - p
  {
    if MatchAt(re, s, p).Some? then Some(p)
    else if p == |s| then None
    else LeftmostFrom(re, s, p + 1)
  }

  /** `FindStringSubmatch`: the leftmost match anywhere in `s` (the pattern is not anchored),
      or `[]` when `s` holds no match. */
  function FindStringSubmatch(re: Regexp, s: string): (m: seq<string>)
    requires re.tokens != []
    ensures m != [] ==> |m| == |Captured(re.tokens)| + 1
    ensures m == [] <==> forall q :: 0 <= q <= |s| ==> MatchAt(re, s, q).None?
    ensures m != [] ==> exists q :: 0 <= q <= |s| && MatchAt(re, s, q) == Some(m)
                                 && forall q' :: 0 <= q' < q ==> MatchAt(re, s, q').None?
  {
    match LeftmostFrom(re, s, 0)
    case None => []
    case Some(q) => MatchAt(re, s, q).value
  }
}
