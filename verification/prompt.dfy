/** Per-mode dispatch: which shape of retrieval a mode asks for, and how the
    prompt is put together from the context, the question and the optional
    prior knowledge. */
module Prompt {
  import opened Wrappers
  import opened Config

  /** The retrieval call a mode makes: the flat-text retrieval with its
      gene-filter flag, or the JSON-record retrieval. */
  datatype Retrieval = Flat(mode4: bool) | Json

  function RetrievalFor(m: Mode): (r: Retrieval)
    ensures r.Flat? <==> m in {Mode0, Mode2, Mode4}
    ensures r.Json? <==> m in {Mode1, Mode3}
    ensures r.Flat? ==> (r.mode4 <==> m == Mode4)
  {
    match m
    case Mode0 => Flat(false)
    case Mode2 => Flat(false)
    case Mode4 => Flat(true)
    case Mode1 => Json
    case Mode3 => Json
  }

  const ContextLabel: string := "Context: "
  const QuestionLabel: string := "Question: "
  const NotesLabel: string := "IMPORTANT NOTES:\n"

  /** The user prompt sent to the model. Modes 2 and 3 put the prior
      knowledge, under a notes heading, between the context and the question. */
  function BuildPrompt(m: Mode, context: string, question: string, priorKnowledge: Option<string>): (p: string)
    requires m.NeedsPriorKnowledge() ==> priorKnowledge.Some?
    ensures |p| == |ContextLabel| + |context| + 1 + |QuestionLabel| + |question|
      + (if m.NeedsPriorKnowledge() then |NotesLabel| + |priorKnowledge.value| + 1 else 0)
    ensures p[..|ContextLabel| + |context| + 1] == ContextLabel + context + "\n"
    ensures p[|p| - |QuestionLabel| - |question|..] == QuestionLabel + question
  {
    if m.NeedsPriorKnowledge() then
      ContextLabel + context + "\n" + NotesLabel + priorKnowledge.value + "\n" + QuestionLabel + question
    else
      ContextLabel + context + "\n" + QuestionLabel + question
  }

  /** Modes 0, 1 and 4 build the same prompt and ignore prior knowledge. */
  lemma PlainModesShareTemplate(m: Mode, context: string, question: string, pk1: Option<string>, pk2: Option<string>)
    requires m in {Mode0, Mode1, Mode4}
    ensures BuildPrompt(m, context, question, pk1) == BuildPrompt(Mode0, context, question, pk2)
    ensures |BuildPrompt(m, context, question, pk1)| == |ContextLabel| + |context| + 1 + |QuestionLabel| + |question|
  {
  }

  /** A mode 2 or 3 prompt is the plain prompt with the notes block
      inserted right after the context line. */
  lemma NotesInsertedAfterContext(m: Mode, context: string, question: string, pk: string)
    requires m.NeedsPriorKnowledge()
    ensures var plain := BuildPrompt(Mode0, context, question, None);
      var cut := |ContextLabel| + |context| + 1;
      BuildPrompt(m, context, question, Some(pk)) == plain[..cut] + NotesLabel + pk + "\n" + plain[cut..]
  {
    var plain := BuildPrompt(Mode0, context, question, None);
    var cut := |ContextLabel| + |context| + 1;
    assert plain[..cut] == ContextLabel + context + "\n";
    assert plain[cut..] == QuestionLabel + question;
  }

  /** Modes 2 and 3 build the same prompt; they differ only in retrieval. */
  lemma NotesModesShareTemplate(context: string, question: string, pk: Option<string>)
    requires pk.Some?
    ensures BuildPrompt(Mode2, context, question, pk) == BuildPrompt(Mode3, context, question, pk)
    ensures RetrievalFor(Mode2) != RetrievalFor(Mode3)
  {
  }
}
