/** The scan behind `Matcher.replaceAll(String)` with an empty replacement: from left to right,
    every leftmost, non-overlapping match is deleted and every other character is kept. A
    pattern enters only through a matcher that reports the length of the match starting at a
    position. */
module Deletion {
  import opened Text
  import opened Subsequence

  /** Length of the match starting at a position of a text; 0 when there is none. */
  type Matcher = (string, nat) -> nat

  /** A non-empty match of `f` starts at `i` and fits in `s`. */
  predicate MatchAt(f: Matcher, s: string, i: nat) {
    i < |s| && 0 < f(s, i) <= |s| - i
  }

  /** No match of `f` starts anywhere in `[i, j)`. */
  predicate MatchFree(f: Matcher, s: string, i: nat, j: nat) {
    forall k :: i <= k < j ==> !MatchAt(f, s, k)
  }

  /** No match of `f` starts anywhere in `s`. */
  predicate NoMatch(f: Matcher, s: string) {
    MatchFree(f, s, 0, |s|)
  }

  /** The text from `i` on with every leftmost, non-overlapping match of `f` deleted. */
  function DeleteFrom(f: Matcher, s: string, i: nat): (r: string)
    requires i <= |s|
    ensures |r| <= |s| - i
    decreases |s| - i
  {
    if i == |s| then []
    else if MatchAt(f, s, i) then DeleteFrom(f, s, i + f(s, i))
    else [s[i]] + DeleteFrom(f, s, i + 1)
  }

  /** The scan only deletes: its result is a subsequence of the text it scans. */
  lemma {:induction false} DeleteFromIsSubseq(f: Matcher, s: string, i: nat)
    requires i <= |s|
    ensures IsSubseq(DeleteFrom(f, s, i), s[i..])
    decreases |s| - i
  {
    if i < |s| {
      if MatchAt(f, s, i) {
        var n := f(s, i);
        var r := DeleteFrom(f, s, i + n);
        DeleteFromIsSubseq(f, s, i + n);
        assert s[i..] == s[i..i + n] + s[i + n..];
        SubseqDropPrefix(r, s[i..i + n], s[i + n..]);
      } else {
        var r := DeleteFrom(f, s, i + 1);
        DeleteFromIsSubseq(f, s, i + 1);
        assert s[i..][1..] == s[i + 1..];
        assert ([s[i]] + r)[1..] == r;
      }
    }
  }

  /** The whole text with every leftmost, non-overlapping match of `f` deleted. */
  function DeleteAll(f: Matcher, s: string): (r: string)
    ensures |r| <= |s|
  {
    DeleteFrom(f, s, 0)
  }

  /** Deletion only deletes: its result is a subsequence of the text. */
  lemma DeleteAllIsSubseq(f: Matcher, s: string)
    ensures IsSubseq(DeleteAll(f, s), s)
  {
    DeleteFromIsSubseq(f, s, 0);
    assert s[0..] == s;
  }

  /** Text in which no match starts is copied unchanged. */
  lemma {:induction false} CopyUnmatched(f: Matcher, s: string, i: nat, j: nat)
    requires i <= j <= |s|
    requires MatchFree(f, s, i, j)
    ensures DeleteFrom(f, s, i) == s[i..j] + DeleteFrom(f, s, j)
    decreases j - i
  {
    if i < j {
      KeepFirst(f, s, i, j);
      CopyUnmatched(f, s, i + 1, j);
      ConsSlice(s, i, j, DeleteFrom(f, s, j));
    }
  }

  /** The first character of a stretch without matches is kept. */
  lemma KeepFirst(f: Matcher, s: string, i: nat, j: nat)
    requires i < j <= |s|
    requires MatchFree(f, s, i, j)
    ensures MatchFree(f, s, i + 1, j)
    ensures DeleteFrom(f, s, i) == [s[i]] + DeleteFrom(f, s, i + 1)
  {
    assert !MatchAt(f, s, i);
  }

  /** A slice is its first character followed by the rest of it. */
  lemma ConsSlice(s: string, i: nat, j: nat, d: string)
    requires i < j <= |s|
    ensures s[i..j] + d == [s[i]] + (s[i + 1..j] + d)
  {
    assert s[i..j] == [s[i]] + s[i + 1..j];
  }

  /** The leftmost match is deleted, everything in front of it is kept, and the scan resumes
      right after it. */
  lemma LeftmostMatch(f: Matcher, s: string, i: nat, j: nat, e: nat)
    requires i <= j <= |s|
    requires MatchFree(f, s, i, j)
    requires MatchAt(f, s, j) && e == j + f(s, j)
    ensures e <= |s|
    ensures DeleteFrom(f, s, i) == s[i..j] + DeleteFrom(f, s, e)
  {
    CopyUnmatched(f, s, i, j);
  }

  /** A match anywhere from `i` on makes the result strictly shorter than the text. */
  lemma {:induction false} MatchShortens(f: Matcher, s: string, i: nat, j: nat)
    requires i <= j
    requires MatchAt(f, s, j)
    ensures |DeleteFrom(f, s, i)| < |s| - i
    decreases j - i
  {
    if MatchAt(f, s, i) {
      var n := f(s, i);
    } else {
      MatchShortens(f, s, i + 1, j);
    }
  }

  /** Deletion returns its input exactly when the pattern occurs nowhere in it. */
  lemma DeleteAllUnchangedIff(f: Matcher, s: string)
    ensures DeleteAll(f, s) == s <==> NoMatch(f, s)
  {
    if NoMatch(f, s) {
      CopyUnmatched(f, s, 0, |s|);
      assert s[0..|s|] == s;
    } else {
      var j :| 0 <= j < |s| && MatchAt(f, s, j);
      MatchShortens(f, s, 0, j);
    }
  }

  /** The matches in `b` are the same whether or not `a` stands in front of it. */
  predicate SameMatches(f: Matcher, a: string, b: string) {
    forall k :: 0 <= k < |b| ==> MatchesAlike(f, a, b, k)
  }

  /** The match at `k` in `b` is the match at `|a| + k` in `a + b`. */
  predicate MatchesAlike(f: Matcher, a: string, b: string, k: nat) {
    f(a + b, |a| + k) == f(b, k)
  }

  /** Equal results at `k` in `b` and at `|a| + k` in `s = a + b` are alike matches. */
  lemma AlikeAt(f: Matcher, a: string, b: string, k: nat, s: string, i: nat)
    requires s == a + b && i == |a| + k
    requires f(s, i) == f(b, k)
    ensures MatchesAlike(f, a, b, k)
  {
  }

  /** With the same matches, the deletion in `b` is the same with or without `a` in front. */
  lemma {:induction false} DeleteShift(f: Matcher, a: string, b: string, k: nat)
    requires k <= |b|
    requires SameMatches(f, a, b)
    ensures DeleteFrom(f, a + b, |a| + k) == DeleteFrom(f, b, k)
    decreases |b| - k
  {
    if k < |b| {
      if MatchAt(f, b, k) {
        ShiftedMatch(f, a, b, k);
        DeleteShift(f, a, b, k + f(b, k));
      } else {
        ShiftedKeep(f, a, b, k);
        DeleteShift(f, a, b, k + 1);
      }
    }
  }

  /** A match in `b` is the same match in `a + b`, and the scan skips it in both. */
  lemma ShiftedMatch(f: Matcher, a: string, b: string, k: nat)
    requires k < |b| && SameMatches(f, a, b) && MatchAt(f, b, k)
    ensures DeleteFrom(f, a + b, |a| + k) == DeleteFrom(f, a + b, |a| + k + f(b, k))
    ensures DeleteFrom(f, b, k) == DeleteFrom(f, b, k + f(b, k))
  {
    assert MatchesAlike(f, a, b, k);
  }

  /** A character of `b` that starts no match is kept in both scans. */
  lemma ShiftedKeep(f: Matcher, a: string, b: string, k: nat)
    requires k < |b| && SameMatches(f, a, b) && !MatchAt(f, b, k)
    ensures DeleteFrom(f, a + b, |a| + k) == [b[k]] + DeleteFrom(f, a + b, |a| + k + 1)
    ensures DeleteFrom(f, b, k) == [b[k]] + DeleteFrom(f, b, k + 1)
  {
    assert (a + b)[|a| + k] == b[k];
    assert MatchesAlike(f, a, b, k);
  }

  /** Every match of `f` lies within one line. */
  predicate MatchesWithinLines(f: Matcher, s: string) {
    forall i :: 0 <= i < |s| && MatchAt(f, s, i) ==> NoBreaks(s[i..i + f(s, i)])
  }

  /** Skipping a terminator-free stretch skips no terminator. */
  lemma BreaksSkip(s: string, i: nat, j: nat)
    requires i <= j <= |s|
    requires NoBreaks(s[i..j])
    ensures Breaks(s[i..]) == Breaks(s[j..])
  {
    assert s[i..] == s[i..j] + s[j..];
    BreaksAppend(s[i..j], s[j..]);
    BreaksNone(s[i..j]);
  }

  /** Keeping the character at `i` keeps it as a terminator if it is one. */
  lemma BreaksKeep(s: string, i: nat, r: string)
    requires i < |s|
    ensures Breaks([s[i]] + r) == Breaks([s[i]]) + Breaks(r)
    ensures Breaks(s[i..]) == Breaks([s[i]]) + Breaks(s[i + 1..])
  {
    assert s[i..] == [s[i]] + s[i + 1..];
    BreaksAppend([s[i]], r);
    BreaksAppend([s[i]], s[i + 1..]);
  }

  /** Deleting matches that lie within lines keeps every line terminator, in order. */
  lemma {:induction false} DeleteKeepsBreaks(f: Matcher, s: string, i: nat)
    requires MatchesWithinLines(f, s)
    requires i <= |s|
    ensures Breaks(DeleteFrom(f, s, i)) == Breaks(s[i..])
    decreases |s| - i
  {
    if i < |s| {
      if MatchAt(f, s, i) {
        var n := f(s, i);
        DeleteKeepsBreaks(f, s, i + n);
        BreaksSkip(s, i, i + n);
      } else {
        DeleteKeepsBreaks(f, s, i + 1);
        BreaksKeep(s, i, DeleteFrom(f, s, i + 1));
      }
    }
  }
}
