# Query-time context assembly of the confidential-AI chatbot

The `/query` endpoint (`ChatbotController.chat`) turns the passages returned by the vector
store into the prompt it sends to the chat model. It does this in three pure string stages, and
this project models and verifies all three:

1. **Cleaning** (lines 38-42). Each passage goes through five `String.replaceAll(regex, "")`
   calls, in this order:
   - blank every line that begins with `distance:`;
   - blank every line that begins with `file_name:`;
   - blank every line that begins with `page_number:`;
   - delete every page footer `\d+ \|  P a g e`;
   - delete the whitespace at the start of every line (`(?m)^\s+`).
2. **Information block** (lines 36-44). The cleaned passages are joined with `"\n"` in
   retrieval order.
3. **Prompt** (lines 46-56). The block and the question are substituted into the fixed
   template's `{information}` and `{question}` placeholders.

## Modules

- `Text`: the characters and lines as `java.util.regex` sees them.
  - All five Java line terminators are modelled, with `\r\n` as one terminator.
  - A MULTILINE `^` matches at the start of the input and after a terminator. It never matches
    at the end of the input, and never between `\r` and `\n`.
  - `\d` and `\s` are the default ASCII classes. `.` is any character except the five line
    terminators.
  - The module also gives the split of a text into lines, each line keeping its terminator.
- `Deletion`: `replaceAll` with an empty replacement. This is a left-to-right scan that deletes
  every leftmost, non-overlapping match of a matcher. The matcher reports the length of the
  match that starts at a position.
- `Patterns`: the three regular-expression shapes of the cleaner and the match length of each.
  The match length is computed the way the Java engine finds the match: greedy `\d+` and `.*`,
  and `$` before a terminator.
- `LineRewrites`: the two `^`-anchored replacements, restated line by line.
- `Footers`: the page-footer replacement. It does not depend on the text in front of it.
- `Cleaner`: the cleaning lambda and its properties.
- `Information`: `Collectors.joining("\n")` over the cleaned passages.
- `Templates`: `{name}` substitution.
- `Prompt`: the controller's template and how to recover the two values from a prompt.
- `Chatbot`: the whole assembly, from the retrieved passages and the question to the prompt.
- `Scenarios`: small worked passages that show what the code does at its edges.

Two behaviours of the code are worth naming:

- **The cleaner is not idempotent.** The marker steps are anchored at column 0 and run before
  the indentation step. An indented `distance:` line therefore survives the marker steps, and
  the last step strips its indentation, so a second pass drops the line
  (`Scenarios.CleanNotIdempotent`).
- **An empty question is accepted.** `chat` has no empty-question check, so an empty question
  is rendered like any other (`Chatbot.EmptyQuestionAccepted`).

## Model

| member | source | states |
|---|---|---|
| Deletion.DeleteFrom | src/main/java/com/shubham/confidentialai/ChatbotController.java:38-42 | the scan from a position yields no more characters than remain after it |
| Deletion.DeleteFromIsSubseq | src/main/java/com/shubham/confidentialai/ChatbotController.java:38-42 | what a replacement keeps from a position on is a subsequence of the text from there: it only deletes |
| Deletion.DeleteAllIsSubseq | src/main/java/com/shubham/confidentialai/ChatbotController.java:38-42 | a replacement's result is a subsequence of its input |
| Deletion.CopyUnmatched | src/main/java/com/shubham/confidentialai/ChatbotController.java:38-42 | a stretch in which no match starts is copied unchanged |
| Deletion.LeftmostMatch | src/main/java/com/shubham/confidentialai/ChatbotController.java:38-42 | the leftmost match is deleted, the text before it kept, and the scan resumes right after it |
| Deletion.MatchShortens | src/main/java/com/shubham/confidentialai/ChatbotController.java:38-42 | any match from a position on makes the result strictly shorter than the rest of the text |
| Deletion.DeleteAllUnchangedIff | src/main/java/com/shubham/confidentialai/ChatbotController.java:38-42 | a replacement returns its input exactly when no match starts anywhere in it |
| Deletion.DeleteShift | src/main/java/com/shubham/confidentialai/ChatbotController.java:38-42 | when a text matches alike with or without a prefix, its replacement is the same with or without that prefix |
| Deletion.DeleteKeepsBreaks | src/main/java/com/shubham/confidentialai/ChatbotController.java:38-41 | deleting only matches that lie within a line keeps every line terminator, in order |
| Patterns.ReplaceAll | src/main/java/com/shubham/confidentialai/ChatbotController.java:38-42 | `replaceAll(regex, "")` never lengthens the text |
| Patterns.MatchLen | src/main/java/com/shubham/confidentialai/ChatbotController.java:38-42 | the match each of the three regular expressions reports at a position lies within the text |
| Patterns.ReplaceEach | src/main/java/com/shubham/confidentialai/ChatbotController.java:38-42 | the chain of `.replaceAll(regex, "")` calls never lengthens the text |
| Patterns.MarkerMatch | src/main/java/com/shubham/confidentialai/ChatbotController.java:38-40 | `(?m)^<marker>.*$` matches exactly where a line starts with the marker, and the match runs to the end of that line's text, leaving its terminator |
| Patterns.FooterMatchIff | src/main/java/com/shubham/confidentialai/ChatbotController.java:41 | a footer match starts at a position exactly when digits followed by `" \|  P a g e"` start there; the match spans the whole digit run and that tail |
| Patterns.ReplaceLeftmost | src/main/java/com/shubham/confidentialai/ChatbotController.java:38-42 | with no match before position i and one at i, the replacement keeps the text before i and continues after the match |
| Patterns.ReplaceAllUnchangedIff | src/main/java/com/shubham/confidentialai/ChatbotController.java:38-42 | a pattern's replacement leaves a text unchanged exactly when the pattern occurs nowhere in it |
| Patterns.MatchesAfterLine | src/main/java/com/shubham/confidentialai/ChatbotController.java:38-42 | after a complete line, each pattern matches the rest of the text as if that rest stood alone |
| Patterns.ReplaceAfterLine | src/main/java/com/shubham/confidentialai/ChatbotController.java:38-42 | the replacement of a text after a complete line equals the replacement of that text on its own |
| Patterns.MatchWithinLine | src/main/java/com/shubham/confidentialai/ChatbotController.java:38-41 | marker-line and footer matches contain no line terminator |
| Patterns.ReplaceAllKeepsBreaks | src/main/java/com/shubham/confidentialai/ChatbotController.java:38-41 | the marker and footer replacements keep every line terminator, in order |
| Patterns.ReplaceEachIsSubseq | src/main/java/com/shubham/confidentialai/ChatbotController.java:38-42 | a chain of replacements only deletes: its result is a subsequence of its input |
| Patterns.ReplaceEachUnchangedIff | src/main/java/com/shubham/confidentialai/ChatbotController.java:38-42 | a chain of replacements leaves a text unchanged exactly when none of its patterns occurs in it |
| Text.ConcatSplitLines | src/main/java/com/shubham/confidentialai/ChatbotController.java:38-42 | the `(?m)` lines of a text, terminators included, concatenate back to the text |
| Text.SplitLinesAreLines | src/main/java/com/shubham/confidentialai/ChatbotController.java:38-42 | each line of the split is one line on its own |
| LineRewrites.MarkerLinesByLine | src/main/java/com/shubham/confidentialai/ChatbotController.java:38-40 | a marker step replaces each line that starts with the marker by its terminator alone and keeps every other line as it is, in order |
| LineRewrites.IndentByLine | src/main/java/com/shubham/confidentialai/ChatbotController.java:42 | `(?m)^\s+` strips each line's leading whitespace; a blank line ended by `\n`, `\r` or `\r\n` goes whole, terminator included, while one ended by NEL, U+2028 or U+2029 keeps its terminator |
| LineRewrites.IndentFree | src/main/java/com/shubham/confidentialai/ChatbotController.java:42 | after `(?m)^\s+` no line, the first included, starts with whitespace |
| Footers.FooterAfterAnything | src/main/java/com/shubham/confidentialai/ChatbotController.java:41 | unlike the `^` patterns, the footer deletion of a text is the same whatever text stands before it |
| Footers.FooterLeftmostMatch | src/main/java/com/shubham/confidentialai/ChatbotController.java:41 | the leftmost footer is deleted; the text before it is kept and the rest is cleaned the same way |
| Footers.NoPipeNoFooter | src/main/java/com/shubham/confidentialai/ChatbotController.java:41 | text without a `\|` is left untouched by the footer step |
| Cleaner.MarkersWellFormed | src/main/java/com/shubham/confidentialai/ChatbotController.java:38-40 | the three markers are non-empty and lie within one line |
| Cleaner.AbsentMarkerIff | src/main/java/com/shubham/confidentialai/ChatbotController.java:38-40 | a marker pattern occurs nowhere exactly when no line starts with the marker |
| Cleaner.AbsentFooterIff | src/main/java/com/shubham/confidentialai/ChatbotController.java:41 | the footer pattern occurs nowhere exactly when no digit run followed by the footer tail occurs |
| Cleaner.AbsentIndentIff | src/main/java/com/shubham/confidentialai/ChatbotController.java:42 | the indentation pattern occurs nowhere exactly when no line starts with whitespace |
| Cleaner.StripMetadata | src/main/java/com/shubham/confidentialai/ChatbotController.java:38-41 | the first four steps never lengthen a passage |
| Cleaner.Clean | src/main/java/com/shubham/confidentialai/ChatbotController.java:38-42 | a cleaned passage is no longer than the raw one and none of its lines starts with whitespace |
| Cleaner.CleanIsChain | src/main/java/com/shubham/confidentialai/ChatbotController.java:38-42 | cleaning is the five replacements, applied in the source's order |
| Cleaner.CleanIsSubseq | src/main/java/com/shubham/confidentialai/ChatbotController.java:38-42 | the cleaned passage is a subsequence of the raw one |
| Cleaner.CleanUnchangedIff | src/main/java/com/shubham/confidentialai/ChatbotController.java:38-42 | a passage comes out of the cleaner unchanged exactly when it has no metadata line, no page footer and no line starting with whitespace |
| Cleaner.CleanNoBlankLines | src/main/java/com/shubham/confidentialai/ChatbotController.java:42 | a cleaned passage does not start with whitespace, and every `\n` in it is followed by its end or by a character that is not whitespace |
| Cleaner.StripMetadataKeepsBreaks | src/main/java/com/shubham/confidentialai/ChatbotController.java:38-41 | up to the indentation step, a passage keeps every line terminator, in order |
| Cleaner.MetadataStepsByLine | src/main/java/com/shubham/confidentialai/ChatbotController.java:38-40 | each metadata step blanks exactly the lines that start with its marker and keeps all other lines |
| Cleaner.MarkerOnOneLine | src/main/java/com/shubham/confidentialai/ChatbotController.java:38-40 | on a single line, a metadata step empties the line when it starts with the marker and otherwise leaves it alone |
| Cleaner.IndentOnOneLine | src/main/java/com/shubham/confidentialai/ChatbotController.java:42 | on a single line, the last step removes exactly the leading whitespace |
| Cleaner.SingleLineClean | src/main/java/com/shubham/confidentialai/ChatbotController.java:38-42 | a one-line passage without `\|` cleans to nothing when it starts with a marker, and otherwise to itself without its leading whitespace |
| Information.Join | src/main/java/com/shubham/confidentialai/ChatbotController.java:44 | joining no parts gives the empty string; otherwise the result begins with the first part and ends with the last |
| Information.JoinLength | src/main/java/com/shubham/confidentialai/ChatbotController.java:44 | n parts joined carry exactly n - 1 separators besides their own characters |
| Information.JoinAppend | src/main/java/com/shubham/confidentialai/ChatbotController.java:44 | joining two non-empty runs of parts puts exactly one separator between their joins |
| Information.JoinPartAt | src/main/java/com/shubham/confidentialai/ChatbotController.java:44 | every part stands whole at its offset, in order, and a separator follows each part but the last |
| Information.CleanAll | src/main/java/com/shubham/confidentialai/ChatbotController.java:36-43 | the stream keeps one cleaned text per passage, in retrieval order |
| Information.CleanAllAppend | src/main/java/com/shubham/confidentialai/ChatbotController.java:36-43 | one more passage adds its cleaned text at the end |
| Information.InformationBlock | src/main/java/com/shubham/confidentialai/ChatbotController.java:36-44 | no passages give the empty block, and one passage gives its cleaned text |
| Information.InformationOrder | src/main/java/com/shubham/confidentialai/ChatbotController.java:36-44 | each cleaned passage stands whole in the block, in retrieval order, with a `\n` after it unless it is the last |
| Information.InformationAppend | src/main/java/com/shubham/confidentialai/ChatbotController.java:36-44 | one more passage adds a `\n` and its cleaned text at the end of the block |
| Templates.Render | src/main/java/com/shubham/confidentialai/ChatbotController.java:49-56 | a template without `{` renders to itself, and a missing-variable failure names a variable that is not bound |
| Templates.FindClose | src/main/java/com/shubham/confidentialai/ChatbotController.java:49-56 | the search finds the first `}` from its start, or reports that there is none |
| Templates.RenderPlainFront | src/main/java/com/shubham/confidentialai/ChatbotController.java:49-56 | plain text before a template is copied before its rendering |
| Templates.RenderPlaceholder | src/main/java/com/shubham/confidentialai/ChatbotController.java:49-56 | a bound placeholder is replaced by its value, inserted verbatim |
| Templates.RenderMissing | src/main/java/com/shubham/confidentialai/ChatbotController.java:49-56 | an unbound placeholder makes the rendering fail and names the variable |
| Templates.RenderTwoSlots | src/main/java/com/shubham/confidentialai/ChatbotController.java:49-56 | two bound placeholders between plain texts render to the texts with the two values in their places |
| Prompt.PiecesPlain | src/main/java/com/shubham/confidentialai/ChatbotController.java:50-52 | the fixed texts of the template contain no `{` |
| Prompt.RenderChatTemplate | src/main/java/com/shubham/confidentialai/ChatbotController.java:46-56 | rendering the controller's template with its two variables never fails, and yields the fixed texts with the information and the question inserted verbatim |
| Prompt.Recover | src/main/java/com/shubham/confidentialai/ChatbotController.java:50-52 | the recovered information has the requested length |
| Prompt.RecoverRendered | src/main/java/com/shubham/confidentialai/ChatbotController.java:50-52 | recovering the values from a rendered prompt gives back exactly the information and the question |
| Prompt.RecoveredRenders | src/main/java/com/shubham/confidentialai/ChatbotController.java:50-52 | whatever is recovered from a prompt renders back to that prompt |
| Prompt.RecoverIff | src/main/java/com/shubham/confidentialai/ChatbotController.java:46-56 | recovery yields a given information and question exactly when the prompt is their rendering |
| Chatbot.ChatPrompt | src/main/java/com/shubham/confidentialai/ChatbotController.java:36-56 | the endpoint's prompt always renders, as the introduction, the information block, `"\nQuestion: "`, the question and the closing instruction |
| Chatbot.NoPassagesPrompt | src/main/java/com/shubham/confidentialai/ChatbotController.java:36-56 | with nothing retrieved, the prompt is the fixed text around the question |
| Chatbot.ChatPromptRecover | src/main/java/com/shubham/confidentialai/ChatbotController.java:36-56 | the prompt holds the information block and the question verbatim, information first |
| Chatbot.ChatPromptPassage | src/main/java/com/shubham/confidentialai/ChatbotController.java:36-56 | every cleaned passage stands whole in the prompt, after the introduction and the passages before it |
| Chatbot.ChatPromptPart | src/main/java/com/shubham/confidentialai/ChatbotController.java:46-56 | whatever stands in the information block stands in the prompt, shifted by the introduction |
| Chatbot.EmptyQuestionAccepted | src/main/java/com/shubham/confidentialai/ChatbotController.java:46-56 | an empty question is rendered, not refused |
| Scenarios.CleanIndented | src/main/java/com/shubham/confidentialai/ChatbotController.java:38-42 | a one-line passage without `\|`, indented by any non-empty run of spaces, tabs, vertical tabs or form feeds, cleans to its text without the indentation, even when that text is a metadata line, because the marker steps only look at column 0 |
| Scenarios.DistanceLineDropped | src/main/java/com/shubham/confidentialai/ChatbotController.java:38 | a `distance:` line cleans to nothing |
| Scenarios.CleanNotIdempotent | src/main/java/com/shubham/confidentialai/ChatbotController.java:38-42 | an indented `distance:` line survives one cleaning and is dropped by a second, so cleaning twice differs from cleaning once |
| Scenarios.EmptyPassageLeavesBlankLine | src/main/java/com/shubham/confidentialai/ChatbotController.java:36-44 | a passage that cleans to nothing still contributes its `\n`, leaving a blank line between its neighbours |
| Scenarios.BlockMayHaveBlankLine | src/main/java/com/shubham/confidentialai/ChatbotController.java:36-44 | unlike each cleaned passage, the information block can hold lines that start with whitespace: passages that clean to nothing leave blank lines |
| Scenarios.TrailingBreakKept | src/main/java/com/shubham/confidentialai/ChatbotController.java:38-42 | a plain line keeps its final `\n` through cleaning, because `^` never matches at the end of the text |
| Scenarios.BlankLineAtJoin | src/main/java/com/shubham/confidentialai/ChatbotController.java:36-44 | a cleaned passage that ends in `\n` is followed by the separator, so a blank line appears at the join |

## Left out

- `PdfReader.java` is not part of this model. It extracts PDF text, chunks it and stores it,
  all through library code whose logic is not visible here.
- `VectorStoreConfig.java` is not part of this model. It only wires beans.
- `vectorStore.similaritySearch` (line 31) is not modelled. Its ranking is a library's
  floating-point cosine scoring. The retrieved passages are an input `seq<string>`, in the
  order the search returned them.
- `Document::getFormattedContent` (line 37) is not modelled. Its output is taken as the raw
  passage text.
- `chatModel.call`, `OllamaOptions` and `System.out.println` (lines 58-64) are left out. They
  are a network call to the model, a floating-point temperature and console output. The model
  ends at the prompt text.
- The commented-out join (lines 32-34) is dead code.
- The template engine behind `SystemPromptTemplate` is a library and is not part of this model.
  It is modelled as plain `{name}` substitution, with values inserted verbatim. An unbound name
  or an unclosed `{` is an error result. Neither can happen for the controller's template
  (`Prompt.RenderChatTemplate`).
- Java strings are UTF-16. The model's characters are Unicode scalar values. A character outside
  the Basic Multilingual Plane is one unit in the model and in the regex engine, which matches
  by code point (`.` matches it), but it is two `char`s in Java. Unpaired surrogates, which a
  Java `String` can hold, cannot be represented as a Dafny `char` and are not modelled.
- Regular-expression backtracking is not modelled in general. Each pattern's match length is
  written out directly. For these three patterns the greedy match is the only match the engine
  can return: the footer tail starts with a non-digit, and `.*` stops only at a terminator.
- `Chatbot.ChatPromptPassage` places each passage in the prompt. The `\n` that follows each
  passage but the last is stated inside the information block (`Information.InformationOrder`)
  and carried into the prompt by `Chatbot.ChatPromptPart`, not restated as a separate lemma
  about the prompt.
