/** The kind of each character as the patterns see it (digit, space, dash or other), and the
    order in which the tokens of a match show their kinds in the text. This is what keeps one
    date-range shape from matching a text written in another. */
module Kinds {
  import opened Lexical
  import opened Months
  import opened Recogniser
  import opened Rendering

  /** `Other` is every character that is not a digit, a `\s` character or a separator: the
      letters, but also punctuation, `/` and U+00A0. */
  datatype Kind = Digit | Space | Dash | Other

  function KindOf(c: char): Kind {
    if IsDigit(c) then Digit else if IsSpace(c) then Space else if IsSep(c) then Dash else Other
  }

  /** The kind of the first character of a token. */
  function KindFor(t: Token): Kind {
    match t
    case Day => Digit
    case Year => Digit
    case MonthName => Other
    case Sep => Dash
  }

  /** No character of `s` is of kind `k`. */
  predicate Never(s: string, k: Kind) {
    forall i :: 0 <= i < |s| ==> KindOf(s[i]) != k
  }

  /** No character of kind `k1` in `s` is followed, anywhere later, by one of kind `k2`. */
  predicate NoPair(s: string, k1: Kind, k2: Kind) {
    forall a, b :: 0 <= a < b < |s| && KindOf(s[a]) == k1 ==> KindOf(s[b]) != k2
  }

  /** No `Other` character in `s` is followed later by a digit that is followed later by a
      dash. */
  predicate NoOtherDigitDash(s: string) {
    forall a, b, c :: 0 <= a < b < c < |s| && KindOf(s[a]) == Other && KindOf(s[b]) == Digit ==> KindOf(s[c]) != Dash
  }

  /** The text of a token starts with a character of the token's kind. A proof step for
      the kind sequences below. */
  lemma FitsHead(months: seq<MonthPattern>, t: Token, x: string)
    requires Unambiguous(months) && Fits(months, t, x)
    ensures |x| > 0 && KindOf(x[0]) == KindFor(t)
  {
    if t == MonthName {
      MonthTextLetters(months, x);
    }
  }

  /** Where a token sequence matches, each token starts at a character of its kind, and the
      tokens start in order: `ps[k]` is where token `k` starts. */
  lemma {:induction false} TokenPositions(months: seq<MonthPattern>, ts: seq<Token>, s: string, q: nat) returns (ps: seq<nat>)
    requires Unambiguous(months) && ts != [] && q <= |s| && MatchTokens(months, ts, s, q).Some?
    ensures |ps| == |ts|
    ensures forall k :: 0 <= k < |ps| ==> q <= ps[k] < |s| && KindOf(s[ps[k]]) == KindFor(ts[k])
    ensures forall k :: 0 <= k < |ps| - 1 ==> ps[k] < ps[k + 1]
    decreases |ts|
  {
    var j := ReadToken(months, ts[0], s, q).value;
    ReadTokenFits(months, ts[0], s, q);
    FitsHead(months, ts[0], s[q..j]);
    assert s[q..j][0] == s[q];
    if |ts| == 1 {
      ps := [q];
    } else {
      var rest := TokenPositions(months, ts[1..], s, SkipSpace(s, j));
      ps := [q] + rest;
      forall k | 0 <= k < |ps| ensures q <= ps[k] < |s| && KindOf(s[ps[k]]) == KindFor(ts[k]) {
        if k > 0 {
          assert ps[k] == rest[k - 1] && ts[k] == ts[1..][k - 1];
        }
      }
    }
  }

  /** A text with no `Other` character before a dash has no `Other` character, digit and dash
      in that order. */
  lemma PairExcludesTriple(s: string)
    requires NoPair(s, Other, Dash)
    ensures NoOtherDigitDash(s)
  {
  }

  /** Two pieces, the first without kind `k1` and the second without kind `k2`: nothing of
      kind `k1` comes before something of kind `k2`. */
  lemma PairSplit(x: string, y: string, k1: Kind, k2: Kind)
    requires Never(x, k1) && Never(y, k2)
    ensures NoPair(x + y, k1, k2)
  {
    var s := x + y;
    forall a, b | 0 <= a < b < |s| && KindOf(s[a]) == k1 ensures KindOf(s[b]) != k2 {
      if a >= |x| {
        assert s[a] == y[a - |x|] && s[b] == y[b - |x|];
      }
    }
  }

  /** A first piece with no `Other` character before a digit and a second piece without
      dashes: no `Other` character, digit and dash come in that order. */
  lemma TripleSplit(x: string, y: string)
    requires NoPair(x, Other, Digit) && Never(y, Dash)
    ensures NoOtherDigitDash(x + y)
  {
    var s := x + y;
    forall a, b, c | 0 <= a < b < c < |s| && KindOf(s[a]) == Other && KindOf(s[b]) == Digit
      ensures KindOf(s[c]) != Dash
    {
      if c >= |x| {
        assert s[c] == y[c - |x|];
      }
    }
  }

  /** Two pieces without kind `k` make a text without it. */
  lemma NeverConcat(x: string, y: string, k: Kind)
    requires Never(x, k) && Never(y, k)
    ensures Never(x + y, k)
  {
    var s := x + y;
    forall i | 0 <= i < |s| ensures KindOf(s[i]) != k {
      if i < |x| {
        assert s[i] == x[i];
      } else {
        assert s[i] == y[i - |x|];
      }
    }
  }

  /** The kinds a token's text never holds: digits are not `Other` or dashes, a month name is
      not digits or dashes, the separator is not `Other` or a digit. */
  lemma TokenKinds(months: seq<MonthPattern>, t: Token, x: string)
    requires Unambiguous(months) && Fits(months, t, x)
    ensures Never(x, Space)
    ensures t == Day || t == Year ==> Never(x, Other) && Never(x, Dash)
    ensures t == MonthName ==> Never(x, Digit) && Never(x, Dash)
    ensures t == Sep ==> Never(x, Other) && Never(x, Digit)
  {
    if t == MonthName {
      MonthTextLetters(months, x);
    }
  }

  /** A rendered text with no token and no gap holding kind `k` does not hold it. A proof
      step for the round trips. */
  lemma {:induction false} RenderNever(toks: seq<string>, gaps: seq<string>, k: Kind)
    requires |toks| == |gaps| + 1
    requires forall i :: 0 <= i < |toks| ==> Never(toks[i], k)
    requires forall i :: 0 <= i < |gaps| ==> Never(gaps[i], k)
    ensures Never(Render(toks, gaps), k)
    decreases |gaps|
  {
    if gaps != [] {
      assert Never(toks[0], k) && Never(gaps[0], k);
      RenderNever(toks[1..], gaps[1..], k);
      NeverConcat(toks[0], gaps[0], k);
      NeverConcat(toks[0] + gaps[0], Render(toks[1..], gaps[1..]), k);
    }
  }

  /** A rendered text is the rendering of its first `n` tokens, the gap after them and the
      rendering of the rest. A proof step for the round trips. */
  lemma {:induction false} RenderSplit(toks: seq<string>, gaps: seq<string>, n: nat)
    requires |toks| == |gaps| + 1 && 0 < n < |toks|
    ensures Render(toks, gaps) == Render(toks[..n], gaps[..n - 1]) + gaps[n - 1] + Render(toks[n..], gaps[n..])
    decreases n
  {
    if n == 1 {
      assert toks[..1] == [toks[0]] && gaps[..0] == [];
      assert toks[n..] == toks[1..] && gaps[n..] == gaps[1..];
    } else {
      RenderSplit(toks[1..], gaps[1..], n - 1);
      assert toks[1..][..n - 1] == toks[..n][1..] && gaps[1..][..n - 2] == gaps[..n - 1][1..];
      assert toks[1..][n - 1..] == toks[n..] && gaps[1..][n - 1..] == gaps[n..];
      assert gaps[1..][n - 2] == gaps[n - 1];
      assert toks[..n][0] == toks[0] && gaps[..n - 1][0] == gaps[0];
    }
  }
}
