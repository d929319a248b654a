/** The evaluation loop over the question table: which indices are skipped,
    where the loop stops, which rows are appended, and which snapshots of the
    answer list are written to the output file. Retrieval and the model call
    are folded into one per-index outcome oracle. */
module Batch {

  /** One row of the question table. */
  datatype Question = Question(text: string, correctNode: string)

  /** One row of the output table: question, correct answer, model answer. */
  datatype Row = Row(question: string, correctAnswer: string, llmAnswer: string)

  /** What one attempted iteration produced: the model's answer, or an
      exception somewhere in retrieval, prompt building or the model call. */
  datatype Outcome = Success(answer: string) | Failure

  /** The outcome of attempting the question at an index. */
  type Attempter = (nat, Question) -> Outcome

  const SkippedMarker: string := "Skipped"

  function SkipRow(q: Question): Row
  {
    Row(q.text, q.correctNode, SkippedMarker)
  }

  function AnswerRow(q: Question, answer: string): Row
  {
    Row(q.text, q.correctNode, answer)
  }

  /** The index window of a run: indices below `skipBelow` get a "Skipped"
      row, the first index above `lastIndex` (that is not skipped) stops the
      loop, and everything in between is attempted. */
  datatype Window = Window(skipBelow: int, lastIndex: int)

  /** The window the script uses: it skips `index < start_index - 1` and
      stops on `index > end_index`. */
  function AsWritten(startIndex: int, endIndex: int): Window
  {
    Window(startIndex - 1, endIndex)
  }

  /** What the loop body decides for an index, in the order the body tests:
      the skip test first, then the stop test. */
  datatype Step = Skip | Stop | Attempt

  function Classify(w: Window, i: nat): (s: Step)
    ensures s == Skip <==> i < w.skipBelow
    ensures s == Stop <==> w.skipBelow <= i && w.lastIndex < i
  {
    if i < w.skipBelow then Skip
    else if i > w.lastIndex then Stop
    else Attempt
  }

  /** Everything a run leaves behind: the answer list, the index each row
      came from, the indices whose pipeline was invoked, and the successive
      contents of the output file (one entry per write, in order). */
  datatype Trace = Trace(rows: seq<Row>, origins: seq<nat>, attempts: seq<nat>, writes: seq<seq<Row>>)

  const Empty: Trace := Trace([], [], [], [])

  /** The bookkeeping every trace keeps: one origin per row, one write per
      attempt, and only indices of the question table. */
  predicate WellFormed(t: Trace, n: nat)
  {
    && |t.rows| == |t.origins|
    && |t.writes| == |t.attempts|
    && (forall r :: 0 <= r < |t.origins| ==> t.origins[r] < n)
    && (forall j :: 0 <= j < |t.attempts| ==> t.attempts[j] < n)
  }

  /** The loop from index `i` on, with `acc` the state reached so far. A skip
      appends a row and writes nothing; a stop ends the loop without a write;
      an attempt appends a row only on success and then always writes the
      whole answer list. */
  function RunFrom(w: Window, attempt: Attempter, qs: seq<Question>, i: nat, acc: Trace): (t: Trace)
    requires WellFormed(acc, |qs|)
    decreases |qs| - i
    ensures WellFormed(t, |qs|)
  {
    if i >= |qs| then acc
    else match Classify(w, i)
      case Skip =>
        RunFrom(w, attempt, qs, i + 1, acc.(rows := acc.rows + [SkipRow(qs[i])], origins := acc.origins + [i]))
      case Stop => acc
      case Attempt => RunFrom(w, attempt, qs, i + 1, AfterAttempt(acc, i, qs[i], attempt(i, qs[i])))
  }

  /** The state after attempting index `i`: the answer appended on success,
      nothing on failure, then the whole answer list written. */
  function AfterAttempt(acc: Trace, i: nat, q: Question, o: Outcome): Trace
  {
    var t := match o
      case Success(a) => acc.(rows := acc.rows + [AnswerRow(q, a)], origins := acc.origins + [i])
      case Failure => acc;
    t.(attempts := t.attempts + [i], writes := t.writes + [t.rows])
  }

  /** A whole run over the question table. */
  function Run(w: Window, attempt: Attempter, qs: seq<Question>): (t: Trace)
    ensures WellFormed(t, |qs|)
  {
    RunFrom(w, attempt, qs, 0, Empty)
  }

  // ---------------------------------------------------------------------
  // An independent, closed-form description of the same run.
  // ---------------------------------------------------------------------

  /** Number of leading indices that are skipped. */
  function SkipEnd(w: Window, n: nat): (k: nat)
    ensures k <= n
    ensures k == 0 || k <= w.skipBelow
    ensures k < n ==> w.skipBelow <= k
  {
    if w.skipBelow <= 0 then 0 else if w.skipBelow < n then w.skipBelow else n
  }

  /** One past the last attempted index. */
  function AttemptEnd(w: Window, n: nat): (h: nat)
    ensures SkipEnd(w, n) <= h <= n
    ensures h == SkipEnd(w, n) || h <= w.lastIndex + 1
    ensures h < n ==> w.lastIndex < h
  {
    var k := SkipEnd(w, n);
    if w.lastIndex + 1 <= k then k
    else if w.lastIndex + 1 < n then w.lastIndex + 1
    else n
  }

  function Range(lo: nat, hi: nat): (r: seq<nat>)
    requires lo <= hi
    ensures |r| == hi - lo
    ensures forall j :: 0 <= j < |r| ==> r[j] == lo + j
  {
    seq(hi - lo, j requires 0 <= j < hi - lo => lo + j)
  }

  function Skipped(qs: seq<Question>, k: nat): (rows: seq<Row>)
    requires k <= |qs|
    ensures |rows| == k
    ensures forall j :: 0 <= j < k ==> rows[j] == SkipRow(qs[j])
  {
    seq(k, j requires 0 <= j < k => SkipRow(qs[j]))
  }

  /** Rows paired with the index each came from. */
  datatype Log = Log(rows: seq<Row>, origins: seq<nat>)

  /** The rows the attempts at indices `lo` to `hi - 1` append, in order:
      exactly one per successful attempt. */
  function Answered(attempt: Attempter, qs: seq<Question>, lo: nat, hi: nat): (log: Log)
    requires lo <= hi <= |qs|
    decreases hi
    ensures |log.rows| == |log.origins| <= hi - lo
    ensures forall r :: 0 <= r < |log.origins| ==>
      && lo <= log.origins[r] < hi
      && attempt(log.origins[r], qs[log.origins[r]]).Success?
      && log.rows[r] == AnswerRow(qs[log.origins[r]], attempt(log.origins[r], qs[log.origins[r]]).answer)
    ensures forall r, s :: 0 <= r < s < |log.origins| ==> log.origins[r] < log.origins[s]
  {
    if hi == lo then Log([], [])
    else
      var p := Answered(attempt, qs, lo, hi - 1);
      match attempt(hi - 1, qs[hi - 1])
      case Success(a) => Log(p.rows + [AnswerRow(qs[hi - 1], a)], p.origins + [hi - 1])
      case Failure => p
  }

  /** The run described directly: the skipped prefix, then the answers of
      the successful attempts; one write per attempted index holding the
      skipped prefix and the answers up to and including that index. */
  function Reference(w: Window, attempt: Attempter, qs: seq<Question>): (t: Trace)
    ensures WellFormed(t, |qs|)
  {
    var k := SkipEnd(w, |qs|);
    var h := AttemptEnd(w, |qs|);
    var a := Answered(attempt, qs, k, h);
    Trace(
      Skipped(qs, k) + a.rows,
      Range(0, k) + a.origins,
      Range(k, h),
      seq(h - k, j requires 0 <= j < h - k => Skipped(qs, k) + Answered(attempt, qs, k, k + j + 1).rows))
  }

  /** The trace of the attempt phase after the attempts at `k` to `i - 1`. */
  function Partial(w: Window, attempt: Attempter, qs: seq<Question>, i: nat): (t: Trace)
    requires SkipEnd(w, |qs|) <= i <= |qs|
    ensures WellFormed(t, |qs|)
  {
    var k := SkipEnd(w, |qs|);
    var a := Answered(attempt, qs, k, i);
    Trace(
      Skipped(qs, k) + a.rows,
      Range(0, k) + a.origins,
      Range(k, i),
      seq(i - k, j requires 0 <= j < i - k => Skipped(qs, k) + Answered(attempt, qs, k, k + j + 1).rows))
  }

  lemma {:induction false} SkipPhase(w: Window, attempt: Attempter, qs: seq<Question>, i: nat)
    requires i <= SkipEnd(w, |qs|)
    decreases SkipEnd(w, |qs|) - i
    ensures RunFrom(w, attempt, qs, i, Trace(Skipped(qs, i), Range(0, i), [], []))
         == RunFrom(w, attempt, qs, SkipEnd(w, |qs|), Trace(Skipped(qs, SkipEnd(w, |qs|)), Range(0, SkipEnd(w, |qs|)), [], []))
  {
    var k := SkipEnd(w, |qs|);
    if i < k {
      assert Classify(w, i) == Skip;
      assert Skipped(qs, i) + [SkipRow(qs[i])] == Skipped(qs, i + 1);
      assert Range(0, i) + [i] == Range(0, i + 1);
      SkipPhase(w, attempt, qs, i + 1);
    }
  }

  /** The partial trace at `i + 1` is the one at `i` after attempting `i`. */
  lemma PartialAdvance(w: Window, attempt: Attempter, qs: seq<Question>, i: nat)
    requires SkipEnd(w, |qs|) <= i < |qs|
    ensures Partial(w, attempt, qs, i + 1) == AfterAttempt(Partial(w, attempt, qs, i), i, qs[i], attempt(i, qs[i]))
  {
    var k := SkipEnd(w, |qs|);
    var acc := Partial(w, attempt, qs, i);
    var nxt := Partial(w, attempt, qs, i + 1);
    var a0 := Answered(attempt, qs, k, i);
    var a1 := Answered(attempt, qs, k, i + 1);
    assert nxt.attempts == acc.attempts + [i];
    match attempt(i, qs[i]) {
      case Success(a) =>
        assert a1 == Log(a0.rows + [AnswerRow(qs[i], a)], a0.origins + [i]);
        assert nxt.rows == acc.rows + [AnswerRow(qs[i], a)];
        assert nxt.origins == acc.origins + [i];
        assert nxt.writes == acc.writes + [nxt.rows];
      case Failure =>
        assert a1 == a0;
        assert nxt.writes == acc.writes + [acc.rows];
    }
  }

  /** One attempted iteration takes the partial trace at `i` to the one at `i + 1`. */
  lemma AttemptStep(w: Window, attempt: Attempter, qs: seq<Question>, i: nat)
    requires SkipEnd(w, |qs|) <= i < AttemptEnd(w, |qs|)
    ensures RunFrom(w, attempt, qs, i, Partial(w, attempt, qs, i))
         == RunFrom(w, attempt, qs, i + 1, Partial(w, attempt, qs, i + 1))
  {
    assert Classify(w, i) == Attempt;
    PartialAdvance(w, attempt, qs, i);
  }

  lemma {:induction false} AttemptPhase(w: Window, attempt: Attempter, qs: seq<Question>, i: nat)
    requires SkipEnd(w, |qs|) <= i <= AttemptEnd(w, |qs|)
    decreases AttemptEnd(w, |qs|) - i
    ensures RunFrom(w, attempt, qs, i, Partial(w, attempt, qs, i)) == Reference(w, attempt, qs)
  {
    if i == AttemptEnd(w, |qs|) {
      if i < |qs| {
        assert Classify(w, i) == Stop;
      }
    } else {
      AttemptStep(w, attempt, qs, i);
      AttemptPhase(w, attempt, qs, i + 1);
    }
  }

  /** The loop computes exactly the closed-form description. */
  lemma RunMatchesReference(w: Window, attempt: Attempter, qs: seq<Question>)
    ensures Run(w, attempt, qs) == Reference(w, attempt, qs)
  {
    var k := SkipEnd(w, |qs|);
    assert Empty == Trace(Skipped(qs, 0), Range(0, 0), [], []);
    SkipPhase(w, attempt, qs, 0);
    var a := Answered(attempt, qs, k, k);
    assert Skipped(qs, k) + a.rows == Skipped(qs, k);
    assert Range(0, k) + a.origins == Range(0, k);
    assert Partial(w, attempt, qs, k) == Trace(Skipped(qs, k), Range(0, k), [], []);
    AttemptPhase(w, attempt, qs, k);
  }
}

/** The script's `main` loop, statement for statement, shown to leave behind
    the same trace as the fold and hence as the closed-form description. */
module BatchLoop {
  import opened Batch

  method RunLoop(w: Window, attempt: Attempter, qs: seq<Question>) returns (t: Trace)
    ensures t == Run(w, attempt, qs)
    ensures t == Reference(w, attempt, qs)
  {
    var rows: seq<Row> := [];
    var origins: seq<nat> := [];
    var attempts: seq<nat> := [];
    var writes: seq<seq<Row>> := [];
    var index: nat := 0;
    while index < |qs|
      invariant index <= |qs|
      invariant WellFormed(Trace(rows, origins, attempts, writes), |qs|)
      invariant RunFrom(w, attempt, qs, index, Trace(rows, origins, attempts, writes)) == Run(w, attempt, qs)
    {
      var q := qs[index];
      if index < w.skipBelow {
        rows := rows + [SkipRow(q)];
        origins := origins + [index];
        index := index + 1;
        continue;
      }
      if index > w.lastIndex {
        break;
      }
      attempts := attempts + [index];
      match attempt(index, q) {
        case Success(a) =>
          rows := rows + [AnswerRow(q, a)];
          origins := origins + [index];
        case Failure =>
      }
      writes := writes + [rows];
      index := index + 1;
    }
    t := Trace(rows, origins, attempts, writes);
    RunMatchesReference(w, attempt, qs);
  }
}
