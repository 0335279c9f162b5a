/** Worked examples on small passages: the cleaner is not idempotent, and an empty cleaned
    passage leaves a blank line in the information block. */
module Scenarios {
  import opened Text
  import opened LineRewrites
  import opened Cleaner
  import opened Information
  import opened Patterns
  import opened Footers

  /** The `distance:` line of the examples. */
  const DistanceLine: string := DistanceMarker + " 1"

  /** The example line is one line without `|`, and it begins with the `distance:` marker. */
  lemma DistanceLineShape()
    ensures NoBreaks(DistanceLine) && '|' !in DistanceLine && DistanceLine != []
    ensures DistanceMarker <= DistanceLine && !Space.Has(DistanceLine[0])
  {
    MarkersWellFormed();
    var s := DistanceLine;
    assert forall k :: 0 <= k < |s| ==> s[k] == if k < |DistanceMarker| then DistanceMarker[k] else " 1"[k - |DistanceMarker|];
  }

  /** Indentation: a non-empty run of whitespace that holds no line terminator. */
  predicate Indentation(ws: string) {
    ws != [] && forall k :: 0 <= k < |ws| ==> Space.Has(ws[k]) && !IsBreak(ws[k])
  }

  /** Indenting a line without `|` keeps it one line without `|`. */
  lemma IndentedNoBreaks(ws: string, line: string)
    requires Indentation(ws) && NoBreaks(line) && '|' !in line
    ensures NoBreaks(ws + line) && '|' !in ws + line
  {
    var s := ws + line;
    forall k | 0 <= k < |s|
      ensures !IsBreak(s[k]) && s[k] != '|'
    {
      if k < |ws| {
        assert s[k] == ws[k] && Space.Has(s[k]);
      } else {
        assert s[k] == line[k - |ws|];
      }
    }
  }

  /** An indented one-line passage without `|` cleans to the line without its indentation,
      even when that line is a metadata line: the marker steps only look at column 0. */
  lemma CleanIndented(ws: string, line: string)
    requires Indentation(ws)
    requires NoBreaks(line) && '|' !in line && line != [] && !Space.Has(line[0])
    ensures Clean(ws + line) == line
  {
    var s := ws + line;
    IndentedNoBreaks(ws, line);
    SingleLineClean(s);
    MarkersWellFormed();
    assert s[0] == ws[0] && Space.Has(s[0]);
    assert !Marked(s) by {
      assert !Space.Has(DistanceMarker[0]) && !Space.Has(FileNameMarker[0]) && !Space.Has(PageNumberMarker[0]);
    }
    RunEndShift(ws, line, 0, Space);
    RunEndInside(s, 0, |ws|, Space);
  }

  /** A `distance:` line is dropped whole. */
  lemma DistanceLineDropped()
    ensures Clean(DistanceLine) == []
  {
    DistanceLineShape();
    SingleLineClean(DistanceLine);
  }

  /** Cleaning is not idempotent: an indented `distance:` line survives the first pass, since
      the metadata steps run before the indentation is stripped, and is dropped by the second. */
  lemma CleanNotIdempotent()
    ensures Clean("  " + DistanceLine) == DistanceLine
    ensures Clean(Clean("  " + DistanceLine)) == []
    ensures Clean(Clean("  " + DistanceLine)) != Clean("  " + DistanceLine)
  {
    DistanceLineShape();
    assert Indentation("  ");
    CleanIndented("  ", DistanceLine);
    DistanceLineDropped();
  }

  /** A passage holding only a metadata line cleans to nothing, yet still gets its `\n` in the
      information block: between two passages it leaves a blank line. */
  lemma EmptyPassageLeavesBlankLine(a: string, b: string)
    ensures var r := InformationBlock([a, DistanceLine, b]);
      r == Clean(a) + "\n\n" + Clean(b)
  {
    DistanceLineDropped();
    assert CleanAll([a, DistanceLine, b]) == [Clean(a), [], Clean(b)];
    JoinEmptyMiddle(Clean(a), Clean(b));
  }

  /** Joining around an empty part puts two separators side by side. */
  lemma JoinEmptyMiddle(x: string, z: string)
    ensures Join([x, [], z], "\n") == x + "\n\n" + z
  {
    var parts := [x, [], z];
    assert parts[1..] == [[], z] && parts[1..][1..] == [z];
    assert Join([[], z], "\n") == [] + "\n" + z;
    assert x + "\n" + ([] + "\n" + z) == x + "\n\n" + z;
  }

  /** So the information block, unlike every cleaned passage, can hold a line that begins with
      whitespace. */
  lemma BlockMayHaveBlankLine()
    ensures !NoIndentedLine(InformationBlock([DistanceLine, DistanceLine, DistanceLine]))
  {
    var line := DistanceLine;
    EmptyPassageLeavesBlankLine(line, line);
    DistanceLineDropped();
    var r := InformationBlock([line, line, line]);
    assert r == "\n\n";
    assert LineStartAt(r, 1) && Space.Has(r[1]);
  }

  /** A plain line with its terminator comes out of the cleaner as it went in: the `^` of the
      indentation step never matches at the end of the text, so the final `\n` stays. */
  lemma TrailingBreakKept(line: string)
    requires NoBreaks(line) && '|' !in line && line != []
    requires !Space.Has(line[0]) && !Marked(line)
    ensures Clean(line + "\n") == line + "\n"
  {
    var s := line + "\n";
    MarkersWellFormed();
    assert forall i :: LineStartAt(s, i) ==> i == 0;
    assert s[0] == line[0];
    NoMarkedLineHere(DistanceMarker, line);
    NoMarkedLineHere(FileNameMarker, line);
    NoMarkedLineHere(PageNumberMarker, line);
    assert '|' !in s;
    NoPipeNoFooter(s);
    ReplaceAllUnchangedIff(PageFooter, s);
    AbsentFooterIff(s);
    CleanUnchangedIff(s);
  }

  /** The only line of a one-line text with a terminator does not begin with `m` unless the
      text itself does. */
  lemma NoMarkedLineHere(m: string, line: string)
    requires NoBreaks(m) && NoBreaks(line) && !(m <= line)
    ensures NoMarkedLine(m, line + "\n")
  {
    var s := line + "\n";
    forall i | LineStartAt(s, i)
      ensures !(m <= s[i..])
    {
      assert i == 0;
      assert s[..|line|] == line && s[|line|] == '\n';
    }
  }

  /** A cleaned passage can end in a line break, and then the join makes a blank line. */
  lemma BlankLineAtJoin(line: string, b: string)
    requires NoBreaks(line) && '|' !in line && line != []
    requires !Space.Has(line[0]) && !Marked(line)
    ensures InformationBlock([line + "\n", b]) == line + "\n\n" + Clean(b)
  {
    TrailingBreakKept(line);
    var parts := [line + "\n", Clean(b)];
    assert CleanAll([line + "\n", b]) == parts;
    assert parts[1..] == [Clean(b)] && Join(parts[1..], "\n") == Clean(b);
    assert (line + "\n") + "\n" + Clean(b) == line + "\n\n" + Clean(b);
  }
}
