/** The passage cleaner of the query endpoint: five `replaceAll(regex, "")` calls in a fixed
    order. Three blank the metadata lines (`distance:`, `file_name:`, `page_number:`), one deletes
    the page footers, and the last one strips whitespace at the start of every line. */
module Cleaner {
  import opened Text
  import opened Subsequence
  import opened Deletion
  import opened Patterns
  import opened LineRewrites
  import opened Footers

  const DistanceMarker: string := "distance:"
  const FileNameMarker: string := "file_name:"
  const PageNumberMarker: string := "page_number:"

  /** The five patterns, in the order the cleaner applies them. */
  const Steps: seq<Pattern> :=
    [MarkerLine(DistanceMarker), MarkerLine(FileNameMarker), MarkerLine(PageNumberMarker), PageFooter, LineIndent]

  /** The markers are non-empty and lie within one line. */
  lemma MarkersWellFormed()
    ensures DistanceMarker != [] && NoBreaks(DistanceMarker)
    ensures FileNameMarker != [] && NoBreaks(FileNameMarker)
    ensures PageNumberMarker != [] && NoBreaks(PageNumberMarker)
  {
  }

  // ----- The patterns' meaning, stated without the matcher -----

  /** No line of `s` begins with `m`. */
  ghost predicate NoMarkedLine(m: string, s: string) {
    forall i :: LineStartAt(s, i) ==> !(m <= s[i..])
  }

  /** No page number followed by the footer tail occurs anywhere in `s`. */
  ghost predicate NoFooter(s: string) {
    forall i: nat, k: nat :: !FooterOccursAt(s, i, k)
  }

  /** No line of `s` begins with whitespace: `s` does not start with it, and no whitespace
      starts a line after a terminator (`\r\n` counting as one). */
  ghost predicate NoIndentedLine(s: string) {
    forall i :: LineStartAt(s, i) ==> !Space.Has(s[i])
  }

  lemma AbsentMarkerIff(m: string, s: string)
    requires m != [] && NoBreaks(m)
    ensures Absent(MarkerLine(m), s) <==> NoMarkedLine(m, s)
  {
    forall i | 0 <= i < |s|
      ensures MatchLen(MarkerLine(m), s, i) > 0 <==> LineStartAt(s, i) && m <= s[i..]
    {
      MarkerMatch(m, s, i);
    }
  }

  lemma AbsentFooterIff(s: string)
    ensures Absent(PageFooter, s) <==> NoFooter(s)
  {
    if Absent(PageFooter, s) {
      forall i: nat, k: nat
        ensures !FooterOccursAt(s, i, k)
      {
        FooterMatchIff(s, i);
      }
    } else {
      var i :| 0 <= i < |s| && MatchLen(PageFooter, s, i) > 0;
      FooterMatchIff(s, i);
    }
  }

  lemma AbsentIndentIff(s: string)
    ensures Absent(LineIndent, s) <==> NoIndentedLine(s)
  {
    forall i | 0 <= i < |s|
      ensures MatchLen(LineIndent, s, i) > 0 <==> LineStartAt(s, i) && Space.Has(s[i])
    {
    }
  }

  // ----- The cleaner -----

  /** Lines 38-41: the metadata lines blanked and the page footers deleted. */
  function StripMetadata(s: string): (r: string)
    ensures |r| <= |s|
  {
    var distance := ReplaceAll(MarkerLine(DistanceMarker), s);
    var fileName := ReplaceAll(MarkerLine(FileNameMarker), distance);
    var pageNumber := ReplaceAll(MarkerLine(PageNumberMarker), fileName);
    ReplaceAll(PageFooter, pageNumber)
  }

  /** The cleaning lambda of lines 38-42. Its result has no line that begins with whitespace,
      so no leading whitespace and no empty line ended by `\n`, `\r` or `\r\n`. */
  function Clean(s: string): (r: string)
    ensures |r| <= |s|
    ensures NoIndentedLine(r)
  {
    var t := StripMetadata(s);
    IndentFree(t);
    AbsentIndentIff(ReplaceAll(LineIndent, t));
    ReplaceAll(LineIndent, t)
  }

  /** The cleaner is the chain of its five steps. */
  lemma CleanIsChain(s: string)
    ensures Clean(s) == ReplaceEach(Steps, s)
  {
    var t1 := ReplaceAll(Steps[0], s);
    var t2 := ReplaceAll(Steps[1], t1);
    var t3 := ReplaceAll(Steps[2], t2);
    var t4 := ReplaceAll(Steps[3], t3);
    var t5 := ReplaceAll(Steps[4], t4);
    assert Steps[1..][1..][1..][1..][1..] == [];
    assert ReplaceEach(Steps[1..][1..][1..][1..], t4) == t5;
    assert ReplaceEach(Steps[1..][1..][1..], t3) == t5;
    assert ReplaceEach(Steps[1..][1..], t2) == t5;
    assert ReplaceEach(Steps[1..], t1) == t5;
  }

  /** Cleaning only deletes characters: the cleaned passage is a subsequence of the raw one. */
  lemma CleanIsSubseq(s: string)
    ensures IsSubseq(Clean(s), s)
  {
    CleanIsChain(s);
    ReplaceEachIsSubseq(Steps, s);
  }

  /** A passage comes out of the cleaner unchanged exactly when it has no metadata line, no
      page footer and no line that begins with whitespace. */
  lemma CleanUnchangedIff(s: string)
    ensures Clean(s) == s <==>
      && NoMarkedLine(DistanceMarker, s)
      && NoMarkedLine(FileNameMarker, s)
      && NoMarkedLine(PageNumberMarker, s)
      && NoFooter(s)
      && NoIndentedLine(s)
  {
    MarkersWellFormed();
    CleanIsChain(s);
    ReplaceEachUnchangedIff(Steps, s);
    AbsentMarkerIff(DistanceMarker, s);
    AbsentMarkerIff(FileNameMarker, s);
    AbsentMarkerIff(PageNumberMarker, s);
    AbsentFooterIff(s);
    AbsentIndentIff(s);
    assert (forall k :: 0 <= k < |Steps| ==> Absent(Steps[k], s)) <==>
      && Absent(Steps[0], s) && Absent(Steps[1], s) && Absent(Steps[2], s)
      && Absent(Steps[3], s) && Absent(Steps[4], s);
  }

  /** After cleaning, every `\n` is followed by the end of the text or by a character other
      than whitespace, and the text does not begin with whitespace. */
  lemma CleanNoBlankLines(s: string)
    ensures var r := Clean(s); r == [] || !Space.Has(r[0])
    ensures var r := Clean(s);
      forall i :: 0 <= i < |r| - 1 && r[i] == '\n' ==> !Space.Has(r[i + 1])
  {
    var r := Clean(s);
    assert r != [] ==> LineStartAt(r, 0);
    forall i | 0 <= i < |r| - 1 && r[i] == '\n'
      ensures !Space.Has(r[i + 1])
    {
      assert LineStartAt(r, i + 1);
    }
  }

  /** Blanking metadata lines and deleting page footers keeps every line terminator, in order,
      until the last step. */
  lemma StripMetadataKeepsBreaks(s: string)
    ensures Breaks(StripMetadata(s)) == Breaks(s)
  {
    MarkersWellFormed();
    var distance := ReplaceAll(MarkerLine(DistanceMarker), s);
    var fileName := ReplaceAll(MarkerLine(FileNameMarker), distance);
    var pageNumber := ReplaceAll(MarkerLine(PageNumberMarker), fileName);
    ReplaceAllKeepsBreaks(MarkerLine(DistanceMarker), s);
    ReplaceAllKeepsBreaks(MarkerLine(FileNameMarker), distance);
    ReplaceAllKeepsBreaks(MarkerLine(PageNumberMarker), fileName);
    ReplaceAllKeepsBreaks(PageFooter, pageNumber);
  }

  /** Each metadata step blanks exactly the lines that begin with its marker and keeps every
      other line as it is. */
  lemma MetadataStepsByLine(s: string)
    ensures ReplaceAll(MarkerLine(DistanceMarker), s) == BlankMarked(DistanceMarker, SplitLines(s))
    ensures ReplaceAll(MarkerLine(FileNameMarker), s) == BlankMarked(FileNameMarker, SplitLines(s))
    ensures ReplaceAll(MarkerLine(PageNumberMarker), s) == BlankMarked(PageNumberMarker, SplitLines(s))
  {
    MarkersWellFormed();
    MarkerLinesByLine(DistanceMarker, s);
    MarkerLinesByLine(FileNameMarker, s);
    MarkerLinesByLine(PageNumberMarker, s);
  }

  // ----- A single line -----

  /** A metadata step on a single line: the line goes if it begins with the marker. */
  lemma MarkerOnOneLine(m: string, s: string)
    requires m != [] && NoBreaks(m) && NoBreaks(s)
    ensures ReplaceAll(MarkerLine(m), s) == if m <= s then [] else s
  {
    MarkerLinesByLine(m, s);
    if s != [] {
      OneLine(s);
    }
  }

  /** Line 42 on a single line: its leading whitespace goes. */
  lemma IndentOnOneLine(s: string)
    requires NoBreaks(s)
    ensures ReplaceAll(LineIndent, s) == StripIndent(s)
  {
    IndentByLine(s);
    if s != [] {
      OneLine(s);
    }
  }

  /** The passage begins with one of the metadata markers. */
  predicate Marked(s: string) {
    DistanceMarker <= s || FileNameMarker <= s || PageNumberMarker <= s
  }

  /** A one-line passage without `|` is dropped when it begins with a metadata marker and
      otherwise only loses its leading whitespace. */
  lemma SingleLineClean(s: string)
    requires NoBreaks(s) && '|' !in s
    ensures Clean(s) == if Marked(s) then [] else StripIndent(s)
  {
    MarkersWellFormed();
    MarkerOnOneLine(DistanceMarker, s);
    var distance := ReplaceAll(MarkerLine(DistanceMarker), s);
    MarkerOnOneLine(FileNameMarker, distance);
    var fileName := ReplaceAll(MarkerLine(FileNameMarker), distance);
    MarkerOnOneLine(PageNumberMarker, fileName);
    var pageNumber := ReplaceAll(MarkerLine(PageNumberMarker), fileName);
    assert pageNumber == if Marked(s) then [] else s;
    NoPipeNoFooter(pageNumber);
    IndentOnOneLine(pageNumber);
  }
}
