/** The three regular-expression shapes of the passage cleaner and `replaceAll(regex, "")` over
    them. Each pattern is given by the length of its match at a position, computed the way the
    Java regex engine finds it. */
module Patterns {
  import opened Text
  import opened Subsequence
  import opened Deletion

  /** What follows the page number in a page footer: space, `|`, two spaces, `P a g e`. */
  const FooterTail: string := " |  P a g e"

  /** The regular expressions of the cleaner. */
  datatype Pattern =
    | MarkerLine(marker: string)  // `(?m)^<marker>.*$`: the text of a line that begins with `marker`
    | PageFooter                  // `\d+ \|  P a g e`: a page number and the spaced-out word
    | LineIndent                  // `(?m)^\s+`: whitespace at the start of a line

  /** Length of the match of `p` that starts at `i` in `s`; 0 when there is none. `\d+` is
      greedy and the tail starts with a non-digit, so backtracking never finds a shorter digit
      run; `.*` stops at the first terminator, where `$` matches. */
  function MatchLen(p: Pattern, s: string, i: nat): (n: nat)
    ensures n > 0 ==> i + n <= |s|
  {
    if i >= |s| then 0
    else match p
      case MarkerLine(m) =>
        if LineStartAt(s, i) && m <= s[i..] then RunEnd(s, i + |m|, LineChar) - i else 0
      case PageFooter =>
        var k := RunEnd(s, i, Digit);
        if i < k && FooterTail <= s[k..] then k + |FooterTail| - i else 0
      case LineIndent =>
        if LineStartAt(s, i) && Space.Has(s[i]) then RunEnd(s, i, Space) - i else 0
  }

  /** The matcher of a pattern, for the deletion scan. */
  function MatcherOf(p: Pattern): Matcher {
    (s: string, i: nat) => MatchLen(p, s, i)
  }

  /** `s.replaceAll(p, "")`. */
  function ReplaceAll(p: Pattern, s: string): (r: string)
    ensures |r| <= |s|
  {
    DeleteAll(MatcherOf(p), s)
  }

  /** The matcher of a pattern reports the pattern's match length. */
  lemma ApplyOf(p: Pattern, s: string, i: nat)
    ensures MatcherOf(p)(s, i) == MatchLen(p, s, i)
  {
  }

  /** Equal match lengths are equal matcher results. */
  lemma SameMatchAt(p: Pattern, s: string, i: nat, t: string, j: nat)
    requires MatchLen(p, s, i) == MatchLen(p, t, j)
    ensures MatcherOf(p)(s, i) == MatcherOf(p)(t, j)
  {
    ApplyOf(p, s, i);
    ApplyOf(p, t, j);
  }

  /** A match of the pattern is a match of its matcher, of the same length. */
  lemma MatchAtOf(p: Pattern, s: string, i: nat)
    requires MatchLen(p, s, i) > 0
    ensures MatchAt(MatcherOf(p), s, i) && MatcherOf(p)(s, i) == MatchLen(p, s, i)
  {
  }

  /** No match of the pattern in `[i, j)` is no match of its matcher there. */
  lemma MatchFreeOf(p: Pattern, s: string, i: nat, j: nat)
    requires forall t :: i <= t < j ==> MatchLen(p, s, t) == 0
    ensures MatchFree(MatcherOf(p), s, i, j)
  {
  }

  /** `replaceAll` keeps the text in front of the leftmost match, deletes the match and goes on
      after it. */
  lemma ReplaceLeftmost(p: Pattern, s: string, i: nat, e: nat)
    requires forall j :: 0 <= j < i ==> MatchLen(p, s, j) == 0
    requires MatchLen(p, s, i) > 0 && e == i + MatchLen(p, s, i)
    ensures i < e <= |s|
    ensures DeleteFrom(MatcherOf(p), s, 0) == s[..i] + DeleteFrom(MatcherOf(p), s, e)
  {
    MatchAtOf(p, s, i);
    MatchFreeOf(p, s, 0, i);
    LeftmostMatch(MatcherOf(p), s, 0, i, e);
    assert s[0..i] == s[..i];
  }

  /** `p` occurs nowhere in `s`. */
  predicate Absent(p: Pattern, s: string) {
    forall i :: 0 <= i < |s| ==> MatchLen(p, s, i) == 0
  }

  /** `replaceAll` returns its input exactly when the pattern occurs nowhere in it. */
  lemma ReplaceAllUnchangedIff(p: Pattern, s: string)
    ensures ReplaceAll(p, s) == s <==> Absent(p, s)
  {
    DeleteAllUnchangedIff(MatcherOf(p), s);
    assert NoMatch(MatcherOf(p), s) <==> Absent(p, s) by {
      forall i | 0 <= i < |s|
        ensures MatchAt(MatcherOf(p), s, i) <==> MatchLen(p, s, i) > 0
      {
      }
    }
  }

  // ----- What each pattern matches -----

  /** Page number `s[i..k]` followed by the footer tail, as `\d+ \|  P a g e` reads it. */
  predicate FooterOccursAt(s: string, i: nat, k: nat) {
    && i < k <= |s|
    && (forall t :: i <= t < k ==> Digit.Has(s[t]))
    && FooterTail <= s[k..]
  }

  /** The footer matcher agrees with the regular expression: a match starts at `i` exactly when
      some digits from `i` are followed by the tail, and it then spans those digits and the tail. */
  lemma FooterMatchIff(s: string, i: nat)
    ensures MatchLen(PageFooter, s, i) > 0 <==> exists k: nat :: FooterOccursAt(s, i, k)
    ensures forall k: nat :: FooterOccursAt(s, i, k) ==> MatchLen(PageFooter, s, i) == k - i + |FooterTail|
  {
    forall k: nat | FooterOccursAt(s, i, k)
      ensures MatchLen(PageFooter, s, i) == k - i + |FooterTail|
    {
      RunEndInside(s, i, k, Digit);
      assert s[k] == FooterTail[0];
    }
    if MatchLen(PageFooter, s, i) > 0 {
      assert FooterOccursAt(s, i, RunEnd(s, i, Digit));
    }
  }

  /** A marker line matches exactly at a line start that begins with the marker, and the match
      runs to the end of that line's text, leaving the terminator. */
  lemma MarkerMatch(m: string, s: string, i: nat)
    requires m != [] && NoBreaks(m)
    ensures MatchLen(MarkerLine(m), s, i) > 0 <==> LineStartAt(s, i) && m <= s[i..]
    ensures MatchLen(MarkerLine(m), s, i) > 0 ==> i + MatchLen(MarkerLine(m), s, i) == RunEnd(s, i, LineChar)
  {
    if LineStartAt(s, i) && m <= s[i..] {
      forall t | i <= t < i + |m|
        ensures LineChar.Has(s[t])
      {
        assert s[t] == s[i..][t - i] == m[t - i];
      }
      RunEndInside(s, i, i + |m|, LineChar);
    }
  }

  // ----- Line structure -----

  /** A marker line matches alike at `k` in `b` and at `|a| + k` in `a + b`. */
  lemma MarkerShift(m: string, a: string, b: string, k: nat)
    requires k < |b|
    requires LineStartAt(a + b, |a| + k) == LineStartAt(b, k)
    ensures MatchLen(MarkerLine(m), a + b, |a| + k) == MatchLen(MarkerLine(m), b, k)
  {
    assert (a + b)[|a| + k..] == b[k..];
    if m <= b[k..] {
      RunEndShift(a, b, k + |m|, LineChar);
    }
  }

  /** A page footer matches alike at `k` in `b` and at `|a| + k` in `a + b`. */
  lemma FooterShift(a: string, b: string, k: nat)
    requires k < |b|
    ensures MatchLen(PageFooter, a + b, |a| + k) == MatchLen(PageFooter, b, k)
  {
    RunEndShift(a, b, k, Digit);
    var kb := RunEnd(b, k, Digit);
    assert (a + b)[|a| + kb..] == b[kb..];
  }

  /** An indentation matches alike at `k` in `b` and at `|a| + k` in `a + b`. */
  lemma IndentShift(a: string, b: string, k: nat)
    requires k < |b|
    requires LineStartAt(a + b, |a| + k) == LineStartAt(b, k)
    ensures MatchLen(LineIndent, a + b, |a| + k) == MatchLen(LineIndent, b, k)
  {
    assert (a + b)[|a| + k] == b[k];
    RunEndShift(a, b, k, Space);
  }

  /** For the deletion scan, a marker line matches alike at `k` in `b` and at `|a| + k` in
      `a + b`. */
  lemma MarkerAlike(m: string, a: string, b: string, k: nat)
    requires k < |b|
    requires LineStartAt(a + b, |a| + k) == LineStartAt(b, k)
    ensures MatchesAlike(MatcherOf(MarkerLine(m)), a, b, k)
  {
    MarkerShift(m, a, b, k);
    var s, i := a + b, |a| + k;
    SameMatchAt(MarkerLine(m), s, i, b, k);
    AlikeAt(MatcherOf(MarkerLine(m)), a, b, k, s, i);
  }

  /** For the deletion scan, a page footer matches alike at `k` in `b` and at `|a| + k` in
      `a + b`. */
  lemma FooterAlike(a: string, b: string, k: nat)
    requires k < |b|
    ensures MatchesAlike(MatcherOf(PageFooter), a, b, k)
  {
    FooterShift(a, b, k);
    var s, i := a + b, |a| + k;
    SameMatchAt(PageFooter, s, i, b, k);
    AlikeAt(MatcherOf(PageFooter), a, b, k, s, i);
  }

  /** For the deletion scan, an indentation matches alike at `k` in `b` and at `|a| + k` in
      `a + b`. */
  lemma IndentAlike(a: string, b: string, k: nat)
    requires k < |b|
    requires LineStartAt(a + b, |a| + k) == LineStartAt(b, k)
    ensures MatchesAlike(MatcherOf(LineIndent), a, b, k)
  {
    IndentShift(a, b, k);
    var s, i := a + b, |a| + k;
    SameMatchAt(LineIndent, s, i, b, k);
    AlikeAt(MatcherOf(LineIndent), a, b, k, s, i);
  }

  /** If `a` ends a line (or is empty), `b` matches `p` alike with or without `a` in front. */
  lemma MatchesAfterLine(p: Pattern, a: string, b: string)
    requires b == [] || LineStartAt(a + b, |a|)
    ensures SameMatches(MatcherOf(p), a, b)
  {
    forall k | 0 <= k < |b|
      ensures MatchesAlike(MatcherOf(p), a, b, k)
    {
      if k > 0 {
        LineStartShift(a, b, k);
      }
      match p
      case MarkerLine(m) => MarkerAlike(m, a, b, k);
      case PageFooter => FooterAlike(a, b, k);
      case LineIndent => IndentAlike(a, b, k);
    }
  }

  /** The replacement of `b` does not depend on a complete line `a` in front of it. */
  lemma ReplaceAfterLine(p: Pattern, a: string, b: string, k: nat)
    requires b == [] || LineStartAt(a + b, |a|)
    requires k <= |b|
    ensures DeleteFrom(MatcherOf(p), a + b, |a| + k) == DeleteFrom(MatcherOf(p), b, k)
  {
    MatchesAfterLine(p, a, b);
    DeleteShift(MatcherOf(p), a, b, k);
  }

  /** Marker lines and page footers never reach across a line terminator. */
  predicate WithinLines(p: Pattern) {
    p.PageFooter? || (p.MarkerLine? && NoBreaks(p.marker))
  }

  /** Every match of a within-line pattern is free of terminators. */
  lemma MatchWithinLine(p: Pattern, s: string, i: nat)
    requires WithinLines(p)
    requires MatchLen(p, s, i) > 0
    ensures NoBreaks(s[i..i + MatchLen(p, s, i)])
  {
    var n := MatchLen(p, s, i);
    if p.MarkerLine? {
      var m := p.marker;
      forall t | i <= t < i + |m|
        ensures !IsBreak(s[t])
      {
        assert s[t] == s[i..][t - i] == m[t - i];
      }
    } else {
      var k := RunEnd(s, i, Digit);
      forall t | k <= t < i + n
        ensures !IsBreak(s[t])
      {
        assert s[t] == s[k..][t - k] == FooterTail[t - k];
      }
    }
  }

  /** Deleting marker lines or page footers keeps every line terminator, in order. */
  lemma ReplaceAllKeepsBreaks(p: Pattern, s: string)
    requires WithinLines(p)
    ensures Breaks(ReplaceAll(p, s)) == Breaks(s)
  {
    forall i | 0 <= i < |s| && MatchAt(MatcherOf(p), s, i)
      ensures NoBreaks(s[i..i + MatcherOf(p)(s, i)])
    {
      MatchWithinLine(p, s, i);
    }
    DeleteKeepsBreaks(MatcherOf(p), s, 0);
    assert s[0..] == s;
  }

  // ----- Chains of replacements -----

  /** `s.replaceAll(ps[0], "").replaceAll(ps[1], "")...`: the patterns applied in order. */
  function ReplaceEach(ps: seq<Pattern>, s: string): (r: string)
    ensures |r| <= |s|
  {
    if ps == [] then s else ReplaceEach(ps[1..], ReplaceAll(ps[0], s))
  }

  /** A chain of replacements only deletes: its result is a subsequence of its input. */
  lemma {:induction false} ReplaceEachIsSubseq(ps: seq<Pattern>, s: string)
    ensures IsSubseq(ReplaceEach(ps, s), s)
  {
    if ps == [] {
      SubseqRefl(s);
    } else {
      var t := ReplaceAll(ps[0], s);
      DeleteAllIsSubseq(MatcherOf(ps[0]), s);
      ReplaceEachIsSubseq(ps[1..], t);
      SubseqTrans(ReplaceEach(ps[1..], t), t, s);
    }
  }

  /** A chain of replacements returns its input exactly when none of its patterns occurs in it. */
  lemma {:induction false} ReplaceEachUnchangedIff(ps: seq<Pattern>, s: string)
    ensures ReplaceEach(ps, s) == s <==> forall k :: 0 <= k < |ps| ==> Absent(ps[k], s)
  {
    if ps != [] {
      var t := ReplaceAll(ps[0], s);
      ReplaceAllUnchangedIff(ps[0], s);
      if t == s {
        ReplaceEachUnchangedIff(ps[1..], s);
        assert forall k :: 1 <= k < |ps| ==> ps[k] == ps[1..][k - 1];
      } else {
        DeleteAllIsSubseq(MatcherOf(ps[0]), s);
        if |t| == |s| {
          SubseqSameLength(t, s);
        }
      }
    }
  }
}
