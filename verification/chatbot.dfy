/** The query endpoint of lines 29-64 up to the prompt it hands to the chat model: the retrieved
    passages are cleaned and joined into the information block, and the block and the question
    are rendered into the fixed template. The retrieval itself and the model call are inputs and
    outputs of this model, not part of it. */
module Chatbot {
  import opened Cleaner
  import opened Information
  import opened Templates
  import opened Prompt

  /** The prompt text the endpoint builds for `question` from the retrieved `passages`, in
      retrieval order. Rendering cannot fail: the template names exactly the two variables the
      controller binds. */
  function ChatPrompt(passages: seq<string>, question: string): (r: Result<string>)
    ensures r == Success(PromptText(InformationBlock(passages), question))
  {
    RenderChatTemplate(InformationBlock(passages), question);
    Render(ChatTemplate, Variables(InformationBlock(passages), question))
  }

  /** With nothing retrieved the information block is empty and the prompt is the template's
      fixed text around the question. */
  lemma NoPassagesPrompt(question: string)
    ensures ChatPrompt([], question) == Success(Intro + QuestionLabel + question + Closing)
  {
    assert Intro + [] == Intro;
  }

  /** The information block and the question can be read back from the prompt: the prompt
      holds them verbatim, information first. */
  lemma ChatPromptRecover(passages: seq<string>, question: string)
    ensures var information := InformationBlock(passages);
      Recover(ChatPrompt(passages, question).value, |information|) == Some((information, question))
  {
    RecoverRendered(InformationBlock(passages), question);
  }

  /** Every retrieved passage, cleaned, stands whole in the prompt right after the introduction
      and the passages before it. */
  lemma ChatPromptPassage(passages: seq<string>, question: string, k: nat)
    requires k < |passages|
    ensures StandsAt(ChatPrompt(passages, question).value,
      |Intro| + Offset(CleanAll(passages), "\n", k), CleanAll(passages)[k])
  {
    InformationOrder(passages, k);
    ChatPromptPart(passages, question, Offset(CleanAll(passages), "\n", k), CleanAll(passages)[k]);
  }

  /** What stands in the information block stands in the prompt, after the introduction. */
  lemma ChatPromptPart(passages: seq<string>, question: string, o: nat, c: string)
    requires StandsAt(InformationBlock(passages), o, c)
    ensures StandsAt(ChatPrompt(passages, question).value, |Intro| + o, c)
  {
    PromptPart(InformationBlock(passages), question, o, c);
  }

  /** What stands in the information block stands in the prompt, shifted by the introduction. */
  lemma PromptPart(information: string, question: string, o: nat, c: string)
    requires StandsAt(information, o, c)
    ensures StandsAt(PromptText(information, question), |Intro| + o, c)
  {
    RegroupTail(Intro, information, QuestionLabel, question, Closing);
    PartInMiddle(PromptText(information, question), Intro, information, QuestionLabel + question + Closing, o, c);
  }

  /** What stands in the middle text stands in the whole, shifted by the length of the front
      text. */
  lemma PartInMiddle(p: string, front: string, mid: string, back: string, o: nat, c: string)
    requires p == front + mid + back
    requires StandsAt(mid, o, c)
    ensures StandsAt(p, |front| + o, c)
  {
    assert p[|front| + o..|front| + o + |c|] == mid[o..o + |c|];
  }

  /** An empty question is not refused: it is rendered like any other. */
  lemma EmptyQuestionAccepted(passages: seq<string>)
    ensures ChatPrompt(passages, []).Success?
    ensures ChatPrompt(passages, []).value == Intro + InformationBlock(passages) + QuestionLabel + Closing
  {
    assert QuestionLabel + [] == QuestionLabel;
  }
}
