/** The prompt of lines 46-56: the controller's fixed template, whose `{information}` and
    `{question}` placeholders receive the information block and the user's question. */
module Prompt {
  import opened Templates

  /** The outcome of recovering the template's variables from a prompt. */
  datatype Option<T> = None | Some(value: T)

  /** The text in front of `{information}`. The fixed texts are written as concatenations of
      short literals because the verifier cannot check that one long literal holds no `{`; each
      concatenation spells the source's text exactly. */
  const Intro: string :=
    "You are a " + "helpful " + "assistant. " + "Use the " + "following " + "information " + "to answer " + "the " + "question:\n"

  /** The text between `{information}` and `{question}`. */
  const QuestionLabel: string := "\nQuestion: "

  /** The text after `{question}`, with its two spaces and the dot that opens the last line. */
  const Closing: string :=
    "  \n.If you " + "dont know " + "the answer, " + "simply say " + "that you " + "don't know. " + "Do not try " + "to make up " + "an answer."

  /** The template of lines 50-52. */
  const ChatTemplate: string := Intro + Slot("information") + QuestionLabel + Slot("question") + Closing

  /** The variables of lines 46-48. */
  function Variables(information: string, question: string): map<string, string> {
    map["question" := question, "information" := information]
  }

  /** The rendered prompt, assembled piece by piece. */
  function PromptText(information: string, question: string): string {
    Intro + information + QuestionLabel + question + Closing
  }

  lemma IntroPlain()
    ensures '{' !in Intro
  {
    assert '{' !in "You are a " + "helpful " + "assistant. ";
    assert '{' !in "Use the " + "following " + "information ";
    assert '{' !in "to answer " + "the " + "question:\n";
  }

  lemma ClosingPlain()
    ensures '{' !in Closing
  {
  }

  /** The fixed pieces of the template hold no `{`. */
  lemma PiecesPlain()
    ensures '{' !in Intro && '{' !in QuestionLabel && '{' !in Closing
  {
    IntroPlain();
    ClosingPlain();
  }

  /** Lines 46-56: rendering the template never fails, and yields the fixed text with the two
      values inserted as they are, whatever they contain. */
  lemma RenderChatTemplate(information: string, question: string)
    ensures Render(ChatTemplate, Variables(information, question))
         == Success(PromptText(information, question))
  {
    PiecesPlain();
    RenderTwoSlots(Intro, "information", QuestionLabel, "question", Closing, Variables(information, question));
  }

  /** Splits a prompt back into the information block of length `n` and the question: `None`
      when the prompt does not have the template's shape. */
  function Recover(prompt: string, n: nat): (r: Option<(string, string)>)
    ensures r.Some? ==> |r.value.0| == n
  {
    var i := |Intro|;
    var q := i + n + |QuestionLabel|;
    if q + |Closing| <= |prompt|
      && prompt[..i] == Intro
      && prompt[i + n..q] == QuestionLabel
      && prompt[|prompt| - |Closing|..] == Closing
    then Some((prompt[i..i + n], prompt[q..|prompt| - |Closing|]))
    else None
  }

  /** Recovering the values of a rendered prompt gives back exactly what was rendered. */
  lemma RecoverRendered(information: string, question: string)
    ensures Recover(PromptText(information, question), |information|) == Some((information, question))
  {
    var prompt := PromptText(information, question);
    var n := |information|;
    var i := |Intro|;
    var q := i + n + |QuestionLabel|;
    assert prompt[..i] == Intro;
    assert prompt[i..i + n] == information;
    assert prompt[i + n..q] == QuestionLabel;
    assert prompt[q..|prompt| - |Closing|] == question;
    assert prompt[|prompt| - |Closing|..] == Closing;
  }

  /** Whatever is recovered from a prompt renders back to that same prompt. */
  lemma RecoveredRenders(prompt: string, n: nat)
    requires Recover(prompt, n).Some?
    ensures var (information, question) := Recover(prompt, n).value;
      prompt == PromptText(information, question)
  {
    var i := |Intro|;
    var q := i + n + |QuestionLabel|;
    var e := |prompt| - |Closing|;
    assert prompt == prompt[..i] + prompt[i..i + n] + prompt[i + n..q] + prompt[q..e] + prompt[e..];
  }

  /** The prompt holds both values verbatim and in this order, information first: recovery and
      rendering are inverse to each other. */
  lemma RecoverIff(prompt: string, information: string, question: string)
    ensures Recover(prompt, |information|) == Some((information, question))
        <==> prompt == PromptText(information, question)
  {
    if prompt == PromptText(information, question) {
      RecoverRendered(information, question);
    }
    if Recover(prompt, |information|) == Some((information, question)) {
      RecoveredRenders(prompt, |information|);
    }
  }
}
