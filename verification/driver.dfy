/** The script end to end: start-up validation, then the batch loop with
    each attempt running retrieval, prompt building and the model call.
    Retrieval and the model are parameters: `retrieve` stands for the
    retrieval utilities (flat or JSON, with the gene-filter flag) and
    `generate` for the remote model call, indexed by position because the
    model's answers are not a function of the prompt alone. */
module Driver {
  import opened Wrappers
  import opened Config
  import opened Prompt
  import opened Batch
  import BatchLaws

  /** What a retrieval call returns, or that it raised. */
  datatype Fetch = Fetched(context: string) | FetchFailed

  datatype Env = Env(retrieve: (string, Retrieval) -> Fetch, generate: (nat, string) -> Outcome)

  /** One attempted question: retrieve with the mode's retrieval shape, build
      the mode's prompt, ask the model. An exception in either call ends the
      attempt with `Failure`; the two are not told apart. */
  function AttemptQuestion(s: Settings, env: Env, i: nat, q: Question): (o: Outcome)
    requires s.Valid()
    ensures env.retrieve(q.text, RetrievalFor(s.mode)).FetchFailed? ==> o == Failure
    ensures env.retrieve(q.text, RetrievalFor(s.mode)).Fetched? ==>
      o == env.generate(i, BuildPrompt(s.mode, env.retrieve(q.text, RetrievalFor(s.mode)).context, q.text, s.priorKnowledge))
  {
    match env.retrieve(q.text, RetrievalFor(s.mode))
    case FetchFailed => Failure
    case Fetched(context) => env.generate(i, BuildPrompt(s.mode, context, q.text, s.priorKnowledge))
  }

  /** In modes 0, 1 and 4 an attempt does not depend on the prior knowledge. */
  lemma PlainModesIgnorePriorKnowledge(s1: Settings, s2: Settings, env: Env, i: nat, q: Question)
    requires s1.Valid() && s2.Valid()
    requires s1.mode == s2.mode && s1.mode in {Mode0, Mode1, Mode4}
    ensures AttemptQuestion(s1, env, i, q) == AttemptQuestion(s2, env, i, q)
  {
  }

  /** A run of the script: a configuration error aborts before any question
      is looked at; otherwise the loop runs over the question table with the
      window `start_index - 1 <= index <= end_index`. */
  function Evaluate(args: Args, files: map<string, string>, timestamp: nat, env: Env, qs: seq<Question>)
    : (r: Result<Trace, ConfigError>)
    ensures r.Err? <==> Validate(args, files, timestamp).Err?
    ensures r.Err? ==> r.error == Validate(args, files, timestamp).error
    ensures r.Ok? ==> forall i: nat :: i in r.value.attempts <==>
      i < |qs| && args.startIndex - 1 <= i <= args.endIndex
  {
    match Validate(args, files, timestamp)
    case Err(e) => Err(e)
    case Ok(s) =>
      var attempt := (i: nat, q: Question) => AttemptQuestion(s, env, i, q);
      BatchLaws.AttemptedWindow(AsWritten(s.startIndex, s.endIndex), attempt, qs);
      Ok(Run(AsWritten(s.startIndex, s.endIndex), attempt, qs))
  }

  /** An index below `start_index - 1` gets a "Skipped" row at its own
      position and is never attempted. */
  lemma SkipBelowStartMinusOne(startIndex: int, endIndex: int, attempt: Attempter, qs: seq<Question>, i: nat)
    requires i < |qs| && i < startIndex - 1
    ensures var t := Run(AsWritten(startIndex, endIndex), attempt, qs);
      i < |t.rows| && t.rows[i] == SkipRow(qs[i]) && i !in t.attempts
  {
    BatchLaws.SkippedPrefix(AsWritten(startIndex, endIndex), attempt, qs, i);
  }

  /** The index `start_index - 1` itself is not skipped: it is attempted
      whenever it exists and does not pass `end_index`. */
  lemma StartMinusOneAttempted(startIndex: int, endIndex: int, attempt: Attempter, qs: seq<Question>)
    requires 1 <= startIndex <= |qs|
    requires startIndex - 1 <= endIndex
    ensures startIndex - 1 in Run(AsWritten(startIndex, endIndex), attempt, qs).attempts
  {
    BatchLaws.AttemptedWindow(AsWritten(startIndex, endIndex), attempt, qs);
  }

  /** `end_index` is inclusive: it is attempted when it exists and is not
      skipped, and no index past it is ever attempted. */
  lemma EndIndexInclusive(startIndex: int, endIndex: int, attempt: Attempter, qs: seq<Question>)
    ensures var t := Run(AsWritten(startIndex, endIndex), attempt, qs);
      && (0 <= endIndex < |qs| && startIndex - 1 <= endIndex ==> endIndex in t.attempts)
      && (forall j :: 0 <= j < |t.attempts| ==> t.attempts[j] <= endIndex)
  {
    var w := AsWritten(startIndex, endIndex);
    var t := Run(w, attempt, qs);
    BatchLaws.AttemptedWindow(w, attempt, qs);
    forall j | 0 <= j < |t.attempts|
      ensures t.attempts[j] <= endIndex
    {
      assert t.attempts[j] in t.attempts;
    }
  }

  /** No answer row comes from an index outside the window: every row that is
      not a skip row of an index below `start_index - 1` is a successful
      attempt's answer from an index in `[start_index - 1, end_index]`. */
  lemma AnswersInsideWindow(startIndex: int, endIndex: int, attempt: Attempter, qs: seq<Question>, r: nat)
    requires r < |Run(AsWritten(startIndex, endIndex), attempt, qs).rows|
    ensures var t := Run(AsWritten(startIndex, endIndex), attempt, qs);
      t.origins[r] >= startIndex - 1 ==>
        && startIndex - 1 <= t.origins[r] <= endIndex
        && attempt(t.origins[r], qs[t.origins[r]]).Success?
        && t.rows[r] == AnswerRow(qs[t.origins[r]], attempt(t.origins[r], qs[t.origins[r]]).answer)
  {
    BatchLaws.RowProvenance(AsWritten(startIndex, endIndex), attempt, qs, r);
  }

  /** With `start_index <= end_index + 2` the output holds at most
      `min(number of questions, end_index + 1)` rows. */
  lemma RowBound(startIndex: int, endIndex: int, attempt: Attempter, qs: seq<Question>)
    requires startIndex <= endIndex + 2
    requires endIndex >= -1
    ensures var t := Run(AsWritten(startIndex, endIndex), attempt, qs);
      |t.rows| <= |qs| && |t.rows| <= endIndex + 1
  {
    BatchLaws.RowCount(AsWritten(startIndex, endIndex), attempt, qs);
  }

  function Q(text: string): Question
  {
    Question(text, "answer of " + text)
  }

  /** Three questions with `start_index = 2` and `end_index = 2`: only row 0
      is skipped; indices 1 and 2 are both attempted, and each attempt
      writes the whole list so far. */
  lemma StartTwoEndTwo(answer: string)
    ensures var qs := [Q("Q0"), Q("Q1"), Q("Q2")];
      var t := Run(AsWritten(2, 2), (i: nat, q: Question) => Success(answer), qs);
      var rows := [SkipRow(Q("Q0")), AnswerRow(Q("Q1"), answer), AnswerRow(Q("Q2"), answer)];
      && t.rows == rows
      && t.attempts == [1, 2]
      && t.writes == [rows[..2], rows]
  {
    var qs := [Q("Q0"), Q("Q1"), Q("Q2")];
    var attempt := (i: nat, q: Question) => Success(answer);
    var w := AsWritten(2, 2);
    var t0 := Trace([SkipRow(qs[0])], [0], [], []);
    assert Classify(w, 0) == Skip && Classify(w, 1) == Attempt && Classify(w, 2) == Attempt;
    assert Empty.(rows := Empty.rows + [SkipRow(qs[0])], origins := Empty.origins + [0]) == t0;
    assert Run(w, attempt, qs) == RunFrom(w, attempt, qs, 1, t0);
    var t1 := AfterAttempt(t0, 1, qs[1], Success(answer));
    assert RunFrom(w, attempt, qs, 1, t0) == RunFrom(w, attempt, qs, 2, t1);
    var t2 := AfterAttempt(t1, 2, qs[2], Success(answer));
    assert RunFrom(w, attempt, qs, 2, t1) == RunFrom(w, attempt, qs, 3, t2);
  }

  /** When `start_index` is far past `end_index` the skip rows run past
      `end_index`, the loop stops at the first non-skipped index, and the
      output file is never written. */
  lemma SkipRowsPastEnd(answer: string)
    ensures var qs := [Q("a"), Q("b"), Q("c"), Q("d"), Q("e"), Q("f")];
      var t := Run(AsWritten(5, 1), (i: nat, q: Question) => Success(answer), qs);
      && |t.rows| == 4
      && |t.rows| > 1 + 1
      && t.attempts == []
      && t.writes == []
  {
    var qs := [Q("a"), Q("b"), Q("c"), Q("d"), Q("e"), Q("f")];
    var attempt := (i: nat, q: Question) => Success(answer);
    BatchLaws.RowCount(AsWritten(5, 1), attempt, qs);
    BatchLaws.FinalWrite(AsWritten(5, 1), attempt, qs);
  }

  /** When every attempt fails the output holds only the skipped prefix, and
      every write repeats it. */
  lemma AllFailuresKeepOnlySkips(startIndex: int, endIndex: int, qs: seq<Question>)
    ensures var t := Run(AsWritten(startIndex, endIndex), (i: nat, q: Question) => Failure, qs);
      && (forall r :: 0 <= r < |t.rows| ==> t.rows[r].llmAnswer == SkippedMarker)
      && (forall j :: 0 <= j < |t.writes| ==> t.writes[j] == t.rows)
  {
    var w := AsWritten(startIndex, endIndex);
    var attempt := (i: nat, q: Question) => Failure;
    var t := Run(w, attempt, qs);
    var k := SkipEnd(w, |qs|);
    BatchLaws.RunShape(w, attempt, qs);
    BatchLaws.WritesShape(w, attempt, qs);
    BatchLaws.NoSuccessNoAnswers(attempt, qs, k, AttemptEnd(w, |qs|));
    forall j | 0 <= j < |t.writes|
      ensures t.writes[j] == t.rows
    {
      BatchLaws.NoSuccessNoAnswers(attempt, qs, k, k + j + 1);
    }
  }
}
