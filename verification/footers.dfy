/** Page footers, `\d+ \|  P a g e`: unlike the other patterns they match anywhere in a line,
    so their deletion does not depend on the text in front of them. */
module Footers {
  import opened Text
  import opened Deletion
  import opened Patterns

  /** Footers match alike at `k` in `b` and at `|a| + k` in `a + b`. */
  lemma FooterSameMatches(a: string, b: string)
    ensures SameMatches(MatcherOf(PageFooter), a, b)
  {
    forall j | 0 <= j < |b|
      ensures MatchesAlike(MatcherOf(PageFooter), a, b, j)
    {
      FooterAlike(a, b, j);
    }
  }

  /** The footer deletion of `b` does not depend on any text in front of it. */
  lemma FooterAfterAnything(a: string, b: string, k: nat)
    requires k <= |b|
    ensures DeleteFrom(MatcherOf(PageFooter), a + b, |a| + k) == DeleteFrom(MatcherOf(PageFooter), b, k)
  {
    FooterSameMatches(a, b);
    DeleteShift(MatcherOf(PageFooter), a, b, k);
  }

  /** The scan from `e` on is the footer deletion of the text from `e` on. */
  lemma FooterRest(s: string, e: nat)
    requires e <= |s|
    ensures DeleteFrom(MatcherOf(PageFooter), s, e) == ReplaceAll(PageFooter, s[e..])
  {
    var a, b := s[..e], s[e..];
    assert a + b == s && |a| + 0 == e;
    FooterAfterAnything(a, b, 0);
  }

  /** The leftmost footer match goes; the text in front of it stays. */
  lemma FooterLeftmostMatch(s: string, i: nat, e: nat)
    requires forall j :: 0 <= j < i ==> MatchLen(PageFooter, s, j) == 0
    requires MatchLen(PageFooter, s, i) > 0 && e == i + MatchLen(PageFooter, s, i)
    ensures e <= |s|
    ensures ReplaceAll(PageFooter, s) == s[..i] + ReplaceAll(PageFooter, s[e..])
  {
    ReplaceLeftmost(PageFooter, s, i, e);
    FooterRest(s, e);
  }

  /** A footer needs a `|` right after its page number and its space. */
  lemma NoPipeNoMatch(s: string, i: nat)
    requires '|' !in s
    ensures MatchLen(PageFooter, s, i) == 0
  {
    if i < |s| {
      var k := RunEnd(s, i, Digit);
      if k + 1 < |s| {
        assert s[k + 1] != '|';
        assert s[k..][1] != FooterTail[1];
      }
    }
  }

  /** A text without a `|` has no footer, so `replaceAll` leaves it alone. */
  lemma NoPipeNoFooter(s: string)
    requires '|' !in s
    ensures ReplaceAll(PageFooter, s) == s
  {
    forall i | 0 <= i < |s|
      ensures MatchLen(PageFooter, s, i) == 0
    {
      NoPipeNoMatch(s, i);
    }
    ReplaceAllUnchangedIff(PageFooter, s);
  }
}
