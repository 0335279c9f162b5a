/** Characters and lines as `java.util.regex` sees them with its default flags: the five line
    terminators, the `\d`, `\s` and `.` classes, the positions where a MULTILINE `^` matches,
    and the split of a text into lines. */
module Text {

  /** A line terminator: `\n`, `\r`, NEL, LINE SEPARATOR or PARAGRAPH SEPARATOR. */
  predicate IsBreak(c: char) {
    c == '\n' || c == '\r' || c == '\U{85}' || c == '\U{2028}' || c == '\U{2029}'
  }

  /** The character classes the cleaning patterns use. */
  datatype CharClass =
    | Digit     // `\d`: ASCII digits
    | Space     // `\s`: space, tab, newline, vertical tab, form feed, carriage return
    | LineChar  // `.`: anything but a line terminator
  {
    predicate Has(c: char) {
      match this
      case Digit => '0' <= c <= '9'
      case Space => c == ' ' || c == '\t' || c == '\n' || c == '\U{B}' || c == '\U{C}' || c == '\r'
      case LineChar => !IsBreak(c)
    }
  }

  /** True iff no character of `s` is a line terminator. */
  predicate NoBreaks(s: string) {
    forall k :: 0 <= k < |s| ==> !IsBreak(s[k])
  }

  /** The end of the longest run of `cls` characters starting at `i`. */
  function RunEnd(s: string, i: nat, cls: CharClass): (k: nat)
    requires i <= |s|
    ensures i <= k <= |s|
    ensures forall j :: i <= j < k ==> cls.Has(s[j])
    ensures k < |s| ==> !cls.Has(s[k])
    decreases |s| - i
  {
    if i < |s| && cls.Has(s[i]) then RunEnd(s, i + 1, cls) else i
  }

  /** Where a MULTILINE `^` matches: at the start of a non-empty input, and after a line
      terminator, but never at the end of the input and never between `\r` and `\n`. */
  predicate LineStartAt(s: string, i: int) {
    0 <= i < |s| && (i == 0 || (IsBreak(s[i - 1]) && !(s[i - 1] == '\r' && s[i] == '\n')))
  }

  /** A run that starts inside a class run ends where that run ends. */
  lemma {:induction false} RunEndInside(s: string, i: nat, j: nat, cls: CharClass)
    requires i <= j <= |s|
    requires forall t :: i <= t < j ==> cls.Has(s[t])
    ensures RunEnd(s, i, cls) == RunEnd(s, j, cls)
    decreases j - i
  {
    if i < j {
      RunEndInside(s, i + 1, j, cls);
    }
  }

  /** Runs are unaffected by text in front of them. */
  lemma {:induction false} RunEndShift(a: string, b: string, k: nat, cls: CharClass)
    requires k <= |b|
    ensures RunEnd(a + b, |a| + k, cls) == |a| + RunEnd(b, k, cls)
    decreases |b| - k
  {
    if k < |b| {
      assert (a + b)[|a| + k] == b[k];
      if cls.Has(b[k]) {
        RunEndShift(a, b, k + 1, cls);
      }
    }
  }

  /** Runs that end inside a prefix are the same in the prefix. */
  lemma RunEndPrefix(s: string, n: nat, i: nat, cls: CharClass)
    requires i <= n <= |s|
    requires RunEnd(s, i, cls) <= n
    ensures RunEnd(s[..n], i, cls) == RunEnd(s, i, cls)
  {
    var k := RunEnd(s, i, cls);
    RunEndInside(s[..n], i, k, cls);
  }

  /** Line starts from the second character on depend only on the text from the previous
      character on. */
  lemma LineStartShift(a: string, b: string, k: nat)
    requires 0 < k < |b|
    ensures LineStartAt(a + b, |a| + k) == LineStartAt(b, k)
  {
    assert (a + b)[|a| + k - 1] == b[k - 1];
    assert (a + b)[|a| + k] == b[k];
  }

  // ----- Lines -----

  /** Length of the line terminator at `e`: none at the end, two for `\r\n`, else one. */
  function BreakLength(s: string, e: nat): nat
    requires e <= |s|
  {
    if e == |s| then 0
    else if s[e] == '\r' && e + 1 < |s| && s[e + 1] == '\n' then 2
    else 1
  }

  /** Length of the first line of `s`, its terminator included. */
  function LineLength(s: string): (n: nat)
    requires s != []
    ensures 0 < n <= |s|
  {
    var e := RunEnd(s, 0, LineChar);
    e + BreakLength(s, e)
  }

  /** The lines of `s` in order; each keeps its terminator, only the last may lack one. */
  function SplitLines(s: string): (lines: seq<string>)
    ensures forall k :: 0 <= k < |lines| ==> lines[k] != []
    decreases |s|
  {
    if s == [] then [] else
      var n := LineLength(s);
      [s[..n]] + SplitLines(s[n..])
  }

  /** Concatenation of a sequence of strings. */
  function Concat(parts: seq<string>): string {
    if parts == [] then [] else parts[0] + Concat(parts[1..])
  }

  /** The text of a line without its terminator. */
  function LineBody(line: string): string {
    line[..RunEnd(line, 0, LineChar)]
  }

  /** The terminator of a line (empty for a last line that has none). */
  function LineTerminator(line: string): string {
    line[RunEnd(line, 0, LineChar)..]
  }

  /** The first line of `s` is a line in the `^` sense: no line starts inside it, and the text
      after it, if any, starts a line. */
  lemma {:induction false} LineShape(s: string)
    requires s != []
    ensures forall k :: 0 < k < LineLength(s) ==> !LineStartAt(s, k)
    ensures LineLength(s) < |s| ==> LineStartAt(s, LineLength(s))
  {
    var e := RunEnd(s, 0, LineChar);
    var n := LineLength(s);
    forall k | 0 < k < n
      ensures !LineStartAt(s, k)
    {
      if k <= e {
        assert LineChar.Has(s[k - 1]);
      } else {
        assert k == e + 1 && BreakLength(s, e) == 2;
      }
    }
  }

  /** The first line is its body followed by its terminator; the body holds no terminator and
      the terminator is empty only at the end of the text. */
  lemma FirstLineParts(s: string)
    requires s != []
    ensures var l := s[..LineLength(s)];
      && l == LineBody(l) + LineTerminator(l)
      && NoBreaks(LineBody(l))
      && |LineBody(l)| == RunEnd(s, 0, LineChar)
      && (LineTerminator(l) == [] <==> RunEnd(s, 0, LineChar) == |s|)
  {
    var l := s[..LineLength(s)];
    RunEndPrefix(s, LineLength(s), 0, LineChar);
  }

  /** Splitting into lines loses nothing: the lines concatenate back to the text. */
  lemma {:induction false} ConcatSplitLines(s: string)
    ensures Concat(SplitLines(s)) == s
    decreases |s|
  {
    if s != [] {
      var n := LineLength(s);
      ConcatSplitLines(s[n..]);
      assert s == s[..n] + s[n..];
    }
  }

  /** Every line the split produces is a line of its own: splitting it again gives just it. */
  lemma {:induction false} SplitLinesAreLines(s: string)
    ensures forall k :: 0 <= k < |SplitLines(s)| ==> SplitLines(SplitLines(s)[k]) == [SplitLines(s)[k]]
    decreases |s|
  {
    if s != [] {
      var n := LineLength(s);
      var l := s[..n];
      SplitLinesAreLines(s[n..]);
      var e := RunEnd(s, 0, LineChar);
      RunEndPrefix(s, n, 0, LineChar);
      assert l[..LineLength(l)] == l;
      assert SplitLines(l) == [l] + SplitLines(l[n..]);
    }
  }

  /** A non-empty text without terminators is a single line. */
  lemma OneLine(s: string)
    requires s != [] && NoBreaks(s)
    ensures SplitLines(s) == [s]
    ensures LineBody(s) == s && LineTerminator(s) == []
  {
    RunEndInside(s, 0, |s|, LineChar);
    assert s[..|s|] == s;
    assert s[|s|..] == [];
  }

  // ----- Line terminators -----

  /** The line terminators of `s`, in order. */
  function Breaks(s: string): string {
    if s == [] then [] else (if IsBreak(s[0]) then [s[0]] else []) + Breaks(s[1..])
  }

  /** Collecting terminators distributes over concatenation. */
  lemma {:induction false} BreaksAppend(a: string, b: string)
    ensures Breaks(a + b) == Breaks(a) + Breaks(b)
    decreases |a|
  {
    if a != [] {
      var c := a + b;
      var h := if IsBreak(a[0]) then [a[0]] else [];
      BreaksAppend(a[1..], b);
      assert c[0] == a[0];
      assert c[1..] == a[1..] + b;
      assert Breaks(c) == h + Breaks(c[1..]);
      assert Breaks(a) == h + Breaks(a[1..]);
    } else {
      assert a + b == b;
    }
  }

  /** A text without terminators has none to collect. */
  lemma {:induction false} BreaksNone(s: string)
    requires NoBreaks(s)
    ensures Breaks(s) == []
    decreases |s|
  {
    if s != [] {
      BreaksNone(s[1..]);
    }
  }
}
