/** Line-by-line readings of the two `^`-anchored replacements: what `(?m)^<marker>.*$` and
    `(?m)^\s+` do to each line of a text, stated on the lines themselves. */
module LineRewrites {
  import opened Text
  import opened Deletion
  import opened Patterns

  /** Reference for a marker-line replacement: every line that begins with `m` is reduced to
      its terminator, every other line is kept, in order. */
  function BlankMarked(m: string, lines: seq<string>): string {
    if lines == [] then []
    else (if m <= lines[0] then LineTerminator(lines[0]) else lines[0]) + BlankMarked(m, lines[1..])
  }

  /** A line without its leading whitespace. A line that is all whitespace up to a `\n`, `\r` or
      `\r\n` terminator loses the terminator too, since `\s` holds those; a NEL, U+2028 or U+2029
      terminator is not whitespace and stays. */
  function StripIndent(line: string): string {
    line[RunEnd(line, 0, Space)..]
  }

  /** Reference for the indentation replacement: every line loses its leading whitespace. */
  function StripIndents(lines: seq<string>): string {
    if lines == [] then [] else StripIndent(lines[0]) + StripIndents(lines[1..])
  }

  /** If the text begins with a marker, the whole marker lies in the first line's body. */
  lemma MarkerInFirstLine(m: string, s: string)
    requires s != [] && NoBreaks(m)
    ensures m <= s <==> m <= s[..LineLength(s)]
    ensures m <= s ==> |m| <= RunEnd(s, 0, LineChar)
  {
  }

  /** The first line of `s`, and the split of `s` at its end. */
  lemma SplitFirst(s: string)
    requires s != []
    ensures s == s[..LineLength(s)] + s[LineLength(s)..]
    ensures SplitLines(s) == [s[..LineLength(s)]] + SplitLines(s[LineLength(s)..])
    ensures s[LineLength(s)..] == [] || LineStartAt(s, LineLength(s))
    ensures forall k :: 0 < k < LineLength(s) ==> !LineStartAt(s, k)
  {
    LineShape(s);
  }

  /** The marker-line replacement of the first line, followed by that of the rest. */
  lemma MarkerFirstLine(m: string, s: string)
    requires m != [] && NoBreaks(m) && s != []
    ensures var n := LineLength(s); var l := s[..n];
      DeleteFrom(MatcherOf(MarkerLine(m)), s, 0)
        == (if m <= l then LineTerminator(l) else l) + DeleteFrom(MatcherOf(MarkerLine(m)), s, n)
  {
    var f := MatcherOf(MarkerLine(m));
    var n := LineLength(s);
    var l := s[..n];
    var e := RunEnd(s, 0, LineChar);
    SplitFirst(s);
    FirstLineParts(s);
    MarkerInFirstLine(m, s);
    forall k | 0 < k < n
      ensures MatchLen(MarkerLine(m), s, k) == 0
    {
      MarkerMatch(m, s, k);
    }
    MarkerMatch(m, s, 0);
    if m <= l {
      assert MatchAt(f, s, 0) && f(s, 0) == e;
      CopyUnmatched(f, s, e, n);
      assert s[e..n] == l[e..];
    } else {
      CopyUnmatched(f, s, 0, n);
    }
  }

  /** The marker-line replacement of a text is that of its first line followed by that of the
      rest of the text on its own. */
  lemma MarkerNextLine(m: string, s: string)
    requires m != [] && NoBreaks(m) && s != []
    ensures var n := LineLength(s); var l := s[..n];
      ReplaceAll(MarkerLine(m), s)
        == (if m <= l then LineTerminator(l) else l) + ReplaceAll(MarkerLine(m), s[n..])
  {
    var n := LineLength(s);
    SplitFirst(s);
    MarkerFirstLine(m, s);
    ReplaceAfterLine(MarkerLine(m), s[..n], s[n..], 0);
  }

  /** `replaceAll("(?m)^<m>.*$", "")` blanks exactly the lines that begin with `m`: each keeps
      only its terminator (a last line without one vanishes), and every other line is
      unchanged. */
  lemma {:induction false} MarkerLinesByLine(m: string, s: string)
    requires m != [] && NoBreaks(m)
    ensures ReplaceAll(MarkerLine(m), s) == BlankMarked(m, SplitLines(s))
    decreases |s|
  {
    if s != [] {
      var n := LineLength(s);
      MarkerNextLine(m, s);
      MarkerLinesByLine(m, s[n..]);
      assert SplitLines(s) == [s[..n]] + SplitLines(s[n..]);
    }
  }

  /** The indentation replacement of the first line, followed by that of the rest, when the
      whitespace run from the start ends inside the first line. */
  lemma IndentFirstLine(s: string)
    requires s != []
    requires RunEnd(s, 0, Space) < LineLength(s)
    ensures var n := LineLength(s);
      DeleteFrom(MatcherOf(LineIndent), s, 0)
        == StripIndent(s[..n]) + DeleteFrom(MatcherOf(LineIndent), s, n)
  {
    var f := MatcherOf(LineIndent);
    var n := LineLength(s);
    var q := RunEnd(s, 0, Space);
    SplitFirst(s);
    RunEndPrefix(s, n, 0, Space);
    assert s[..n][q..] == s[q..n];
    if q > 0 {
      assert MatchAt(f, s, 0) && f(s, 0) == q;
    }
    assert MatchLen(LineIndent, s, q) == 0;
    CopyUnmatched(f, s, q, n);
  }

  /** A first line that is whitespace through its terminator (so ended by `\n`, `\r` or
      `\r\n`) strips to nothing, and the whitespace run from the start of the text runs on
      through the whitespace that opens the rest. */
  lemma BlankFirstLineRun(s: string)
    requires s != []
    requires RunEnd(s, 0, Space) >= LineLength(s)
    ensures StripIndent(s[..LineLength(s)]) == []
    ensures RunEnd(s, 0, Space) == LineLength(s) + RunEnd(s[LineLength(s)..], 0, Space)
  {
    var n := LineLength(s);
    var l := s[..n];
    var rest := s[n..];
    SplitFirst(s);
    RunEndInside(l, 0, n, Space);
    RunEndInside(s, 0, n, Space);
    RunEndShift(l, rest, 0, Space);
  }

  /** Deleting a leading whitespace run gives the same as deleting from its end. */
  lemma IndentSkipsRun(s: string)
    ensures DeleteFrom(MatcherOf(LineIndent), s, 0)
        == DeleteFrom(MatcherOf(LineIndent), s, RunEnd(s, 0, Space))
  {
    var q := RunEnd(s, 0, Space);
    if q > 0 {
      assert MatchAt(MatcherOf(LineIndent), s, 0) && MatcherOf(LineIndent)(s, 0) == q;
    }
  }

  /** A first line that is whitespace through its terminator vanishes together with the
      whitespace that opens the rest. */
  lemma BlankFirstLine(s: string)
    requires s != []
    requires RunEnd(s, 0, Space) >= LineLength(s)
    ensures StripIndent(s[..LineLength(s)]) == []
    ensures DeleteFrom(MatcherOf(LineIndent), s, 0)
        == DeleteFrom(MatcherOf(LineIndent), s[LineLength(s)..], 0)
  {
    var n := LineLength(s);
    var l := s[..n];
    var rest := s[n..];
    SplitFirst(s);
    BlankFirstLineRun(s);
    var q' := RunEnd(rest, 0, Space);
    assert s == l + rest && RunEnd(s, 0, Space) == |l| + q';
    IndentSkipsRun(s);
    ReplaceAfterLine(LineIndent, l, rest, q');
    IndentSkipsRun(rest);
  }

  /** The indentation replacement of a text is that of its first line followed by that of the
      rest of the text on its own. */
  lemma IndentNextLine(s: string)
    requires s != []
    ensures var n := LineLength(s);
      ReplaceAll(LineIndent, s) == StripIndent(s[..n]) + ReplaceAll(LineIndent, s[n..])
  {
    var n := LineLength(s);
    var l := s[..n];
    var rest := s[n..];
    SplitFirst(s);
    if RunEnd(s, 0, Space) < n {
      IndentFirstLine(s);
      assert s == l + rest && n == |l| + 0;
      ReplaceAfterLine(LineIndent, l, rest, 0);
    } else {
      BlankFirstLine(s);
    }
  }

  /** `replaceAll("(?m)^\\s+", "")` strips the leading whitespace of every line. A blank line
      ended by `\n`, `\r` or `\r\n` goes entirely, terminator included; one ended by NEL,
      U+2028 or U+2029 keeps its terminator. */
  lemma {:induction false} IndentByLine(s: string)
    ensures ReplaceAll(LineIndent, s) == StripIndents(SplitLines(s))
    decreases |s|
  {
    if s != [] {
      var n := LineLength(s);
      IndentNextLine(s);
      IndentByLine(s[n..]);
      assert SplitLines(s) == [s[..n]] + SplitLines(s[n..]);
    }
  }

  // ----- No line of the result is indented -----

  /** What the indentation scan emits first from `i`: the character at `i` itself when no line
      starts there, and never whitespace when one does. */
  lemma IndentHead(s: string, i: nat)
    requires i <= |s|
    ensures i < |s| && !LineStartAt(s, i) ==>
      var r := DeleteFrom(MatcherOf(LineIndent), s, i); r != [] && r[0] == s[i]
    ensures LineStartAt(s, i) ==>
      var r := DeleteFrom(MatcherOf(LineIndent), s, i); r == [] || !Space.Has(r[0])
  {
    var f := MatcherOf(LineIndent);
    if LineStartAt(s, i) && Space.Has(s[i]) {
      var j := RunEnd(s, i, Space);
      assert MatchAt(f, s, i) && f(s, i) == j - i;
      if j < |s| {
        assert !MatchAt(f, s, j);
      }
    }
  }

  /** A line of `r` begins with whitespace at `k`. */
  predicate IndentAt(r: string, k: nat) {
    MatchLen(LineIndent, r, k) > 0
  }

  /** No line of `r` after its first character begins with whitespace. */
  predicate IndentFreeTail(r: string) {
    forall k :: 0 < k < |r| ==> !IndentAt(r, k)
  }

  /** A character in front of a text free of indented lines after its start leaves it so,
      unless the text itself then begins an indented line. */
  lemma IndentFreeCons(c: string, r: string)
    requires |c| == 1
    requires IndentFreeTail(r)
    requires r != [] ==> !IndentAt(c + r, 1)
    ensures IndentFreeTail(c + r)
  {
    forall k | 0 < k < |c + r|
      ensures !IndentAt(c + r, k)
    {
      if k >= 2 {
        assert !IndentAt(r, k - 1);
        LineStartShift(c, r, k - 1);
        IndentShift(c, r, k - 1);
      }
    }
  }

  /** Keeping the character at `i` creates no indented line right after it. */
  lemma IndentFreeAfterKept(s: string, i: nat)
    requires i < |s|
    requires !MatchAt(MatcherOf(LineIndent), s, i)
    requires IndentFreeTail(DeleteFrom(MatcherOf(LineIndent), s, i + 1))
    ensures IndentFreeTail(DeleteFrom(MatcherOf(LineIndent), s, i))
  {
    var r := DeleteFrom(MatcherOf(LineIndent), s, i + 1);
    IndentHead(s, i + 1);
    var c := [s[i]];
    assert DeleteFrom(MatcherOf(LineIndent), s, i) == c + r;
    if r != [] && LineStartAt(c + r, 1) {
      assert (c + r)[1] == r[0];
    }
    IndentFreeCons(c, r);
  }

  /** After the first character, no line of the scan's output begins with whitespace. */
  lemma {:induction false} IndentFreeFrom(s: string, i: nat)
    requires i <= |s|
    ensures IndentFreeTail(DeleteFrom(MatcherOf(LineIndent), s, i))
    decreases |s| - i
  {
    var f := MatcherOf(LineIndent);
    if i < |s| {
      if MatchAt(f, s, i) {
        assert DeleteFrom(f, s, i) == DeleteFrom(f, s, i + f(s, i));
        IndentFreeFrom(s, i + f(s, i));
      } else {
        IndentFreeFrom(s, i + 1);
        IndentFreeAfterKept(s, i);
      }
    }
  }

  /** After `replaceAll("(?m)^\\s+", "")` no line begins with whitespace: the text does not
      start with whitespace, and no whitespace starts a line after a terminator (`\r\n`
      counting as one). */
  lemma IndentFree(s: string)
    ensures Absent(LineIndent, ReplaceAll(LineIndent, s))
  {
    var r := ReplaceAll(LineIndent, s);
    IndentFreeFrom(s, 0);
    IndentHead(s, 0);
    forall k | 0 < k < |r|
      ensures MatchLen(LineIndent, r, k) == 0
    {
      assert !IndentAt(r, k);
    }
  }
}
