/** What a run of the evaluation loop guarantees, derived from the
    closed-form description: the skipped prefix, the attempted window, where
    every row comes from, how many rows there can be, and what each write of
    the output file holds. */
module BatchLaws {
  import opened Batch

  /** Answers of a shorter attempt range are a prefix of those of a longer one. */
  lemma {:induction false} AnsweredPrefix(attempt: Attempter, qs: seq<Question>, lo: nat, m: nat, h: nat)
    requires lo <= m <= h <= |qs|
    decreases h
    ensures var a := Answered(attempt, qs, lo, h);
      var b := Answered(attempt, qs, lo, m);
      && |b.rows| <= |a.rows|
      && b.rows == a.rows[..|b.rows|]
      && b.origins == a.origins[..|b.origins|]
  {
    if h > m {
      AnsweredPrefix(attempt, qs, lo, m, h - 1);
      var p := Answered(attempt, qs, lo, h - 1);
      var a := Answered(attempt, qs, lo, h);
      var b := Answered(attempt, qs, lo, m);
      match attempt(h - 1, qs[h - 1]) {
        case Success(x) =>
          assert a.rows == p.rows + [AnswerRow(qs[h - 1], x)];
          assert a.origins == p.origins + [h - 1];
          assert a.rows[..|b.rows|] == p.rows[..|b.rows|];
          assert a.origins[..|b.origins|] == p.origins[..|b.origins|];
        case Failure =>
      }
    }
  }

  /** Every successful attempt in a range contributes its row. */
  lemma {:induction false} AnsweredComplete(attempt: Attempter, qs: seq<Question>, lo: nat, hi: nat, i: nat)
    requires lo <= i < hi <= |qs|
    requires attempt(i, qs[i]).Success?
    decreases hi
    ensures i in Answered(attempt, qs, lo, hi).origins
  {
    if i < hi - 1 {
      AnsweredComplete(attempt, qs, lo, hi - 1, i);
    }
  }

  /** A range in which every attempt fails contributes no rows. */
  lemma {:induction false} NoSuccessNoAnswers(attempt: Attempter, qs: seq<Question>, lo: nat, hi: nat)
    requires lo <= hi <= |qs|
    requires forall i :: lo <= i < hi ==> attempt(i, qs[i]).Failure?
    decreases hi
    ensures Answered(attempt, qs, lo, hi) == Log([], [])
  {
    if hi > lo {
      NoSuccessNoAnswers(attempt, qs, lo, hi - 1);
    }
  }

  /** The prefix for a shorter range ends exactly where the rows from
      indices at or past its end begin. */
  lemma AnsweredCut(attempt: Attempter, qs: seq<Question>, lo: nat, m: nat, h: nat, r: nat)
    requires lo <= m <= h <= |qs|
    requires r < |Answered(attempt, qs, lo, h).origins|
    ensures r < |Answered(attempt, qs, lo, m).origins| <==> Answered(attempt, qs, lo, h).origins[r] < m
  {
    var a := Answered(attempt, qs, lo, h);
    var b := Answered(attempt, qs, lo, m);
    AnsweredPrefix(attempt, qs, lo, m, h);
    if a.origins[r] < m {
      var o := a.origins[r];
      AnsweredComplete(attempt, qs, lo, m, o);
      var r' :| 0 <= r' < |b.origins| && b.origins[r'] == o;
      assert a.origins[r'] == o;
    }
  }

  /** The rows, origins and attempts of a run in closed form. */
  lemma RunShape(w: Window, attempt: Attempter, qs: seq<Question>)
    ensures var t := Run(w, attempt, qs);
      var k := SkipEnd(w, |qs|);
      var h := AttemptEnd(w, |qs|);
      && t.rows == Skipped(qs, k) + Answered(attempt, qs, k, h).rows
      && t.origins == Range(0, k) + Answered(attempt, qs, k, h).origins
      && t.attempts == Range(k, h)
  {
    RunMatchesReference(w, attempt, qs);
  }

  /** The writes of a run in closed form. */
  lemma WritesShape(w: Window, attempt: Attempter, qs: seq<Question>)
    ensures var t := Run(w, attempt, qs);
      var k := SkipEnd(w, |qs|);
      var h := AttemptEnd(w, |qs|);
      && |t.writes| == h - k
      && (forall j :: 0 <= j < h - k ==>
            t.writes[j] == Skipped(qs, k) + Answered(attempt, qs, k, k + j + 1).rows)
  {
    RunMatchesReference(w, attempt, qs);
  }

  /** Every index below the skip bound that exists gets a "Skipped" row at
      its own position, and its pipeline is never invoked. */
  lemma SkippedPrefix(w: Window, attempt: Attempter, qs: seq<Question>, i: nat)
    requires i < |qs| && i < w.skipBelow
    ensures var t := Run(w, attempt, qs);
      && i < |t.rows|
      && t.rows[i] == SkipRow(qs[i])
      && t.origins[i] == i
      && i !in t.attempts
  {
    RunShape(w, attempt, qs);
    var t := Run(w, attempt, qs);
    var k := SkipEnd(w, |qs|);
    assert i < k;
    assert t.rows[i] == Skipped(qs, k)[i];
    assert t.origins[i] == Range(0, k)[i];
    assert forall j :: 0 <= j < |t.attempts| ==> t.attempts[j] >= k;
  }

  /** An index is attempted exactly when it exists and lies in the window
      `skipBelow <= i <= lastIndex`, both ends included, and the attempts
      happen in increasing index order. */
  lemma AttemptedWindow(w: Window, attempt: Attempter, qs: seq<Question>)
    ensures var t := Run(w, attempt, qs);
      && (forall i: nat :: i in t.attempts <==> i < |qs| && w.skipBelow <= i <= w.lastIndex)
      && (forall a, b :: 0 <= a < b < |t.attempts| ==> t.attempts[a] < t.attempts[b])
  {
    RunShape(w, attempt, qs);
    var t := Run(w, attempt, qs);
    var k := SkipEnd(w, |qs|);
    var h := AttemptEnd(w, |qs|);
    forall i: nat
      ensures i in t.attempts <==> i < |qs| && w.skipBelow <= i <= w.lastIndex
    {
      if i in t.attempts {
        var j :| 0 <= j < |t.attempts| && t.attempts[j] == i;
        assert k <= i < h;
      }
      if i < |qs| && w.skipBelow <= i <= w.lastIndex {
        assert t.attempts[i - k] == i;
      }
    }
  }

  /** Rows appear in strictly increasing order of the index they come from. */
  lemma RowsInOrder(w: Window, attempt: Attempter, qs: seq<Question>)
    ensures var t := Run(w, attempt, qs);
      forall r, s :: 0 <= r < s < |t.origins| ==> t.origins[r] < t.origins[s]
  {
    var t := Run(w, attempt, qs);
    var k := SkipEnd(w, |qs|);
    var a := Answered(attempt, qs, k, AttemptEnd(w, |qs|));
    assert t.origins == Range(0, k) + a.origins by {
      RunShape(w, attempt, qs);
    }
    forall r, s | 0 <= r < s < |t.origins|
      ensures t.origins[r] < t.origins[s]
    {
      if s < k {
        assert t.origins[r] == r && t.origins[s] == s;
      } else if r < k {
        assert t.origins[r] == r && t.origins[s] == a.origins[s - k];
      } else {
        assert t.origins[r] == a.origins[r - k] && t.origins[s] == a.origins[s - k];
      }
    }
  }

  /** A row is either the "Skipped" row of an index below the skip bound, or
      the answer of a successful attempt at an attempted index; so no answer
      row ever comes from outside the window. */
  lemma RowProvenance(w: Window, attempt: Attempter, qs: seq<Question>, r: nat)
    requires r < |Run(w, attempt, qs).rows|
    ensures var t := Run(w, attempt, qs);
      var o := t.origins[r];
      || (o < w.skipBelow && t.rows[r] == SkipRow(qs[o]))
      || (&& o in t.attempts
          && w.skipBelow <= o <= w.lastIndex
          && attempt(o, qs[o]) == Success(t.rows[r].llmAnswer)
          && t.rows[r] == AnswerRow(qs[o], t.rows[r].llmAnswer))
  {
    RunShape(w, attempt, qs);
    var t := Run(w, attempt, qs);
    var k := SkipEnd(w, |qs|);
    var a := Answered(attempt, qs, k, AttemptEnd(w, |qs|));
    if r < k {
      assert t.origins[r] == Range(0, k)[r];
      assert t.rows[r] == Skipped(qs, k)[r];
    } else {
      var o := a.origins[r - k];
      assert t.origins[r] == o;
      assert t.rows[r] == a.rows[r - k];
      assert t.attempts[o - k] == o;
    }
  }

  /** An attempted index leaves a row exactly when its attempt succeeded: a
      failing attempt appends nothing. */
  lemma FailedAttemptLeavesNoRow(w: Window, attempt: Attempter, qs: seq<Question>, i: nat)
    requires i in Run(w, attempt, qs).attempts
    ensures i < |qs|
    ensures i in Run(w, attempt, qs).origins <==> attempt(i, qs[i]).Success?
  {
    AttemptedWindow(w, attempt, qs);
    if attempt(i, qs[i]).Success? {
      SuccessLeavesRow(w, attempt, qs, i);
    }
    if i in Run(w, attempt, qs).origins {
      RowMeansSuccess(w, attempt, qs, i);
    }
  }

  lemma SuccessLeavesRow(w: Window, attempt: Attempter, qs: seq<Question>, i: nat)
    requires i < |qs| && w.skipBelow <= i <= w.lastIndex
    requires attempt(i, qs[i]).Success?
    ensures i in Run(w, attempt, qs).origins
  {
    var t := Run(w, attempt, qs);
    var k := SkipEnd(w, |qs|);
    var h := AttemptEnd(w, |qs|);
    var a := Answered(attempt, qs, k, h);
    RunShape(w, attempt, qs);
    AnsweredComplete(attempt, qs, k, h, i);
    var r :| 0 <= r < |a.origins| && a.origins[r] == i;
    assert t.origins[k + r] == i;
  }

  lemma RowMeansSuccess(w: Window, attempt: Attempter, qs: seq<Question>, i: nat)
    requires i < |qs| && w.skipBelow <= i
    requires i in Run(w, attempt, qs).origins
    ensures attempt(i, qs[i]).Success?
  {
    var t := Run(w, attempt, qs);
    var k := SkipEnd(w, |qs|);
    var a := Answered(attempt, qs, k, AttemptEnd(w, |qs|));
    RunShape(w, attempt, qs);
    var r :| 0 <= r < |t.origins| && t.origins[r] == i;
    assert r >= k;
    assert a.origins[r - k] == i;
  }

  /** The answer list is never longer than the question table. When the
      skip bound does not pass `lastIndex + 1` it holds at most
      `lastIndex + 1` rows; when it does, nothing is attempted and the list is
      the skipped prefix alone, which then reaches past `lastIndex`. */
  lemma RowCount(w: Window, attempt: Attempter, qs: seq<Question>)
    ensures var t := Run(w, attempt, qs);
      && |t.rows| <= |qs|
      && (w.skipBelow <= w.lastIndex + 1 ==> |t.rows| <= (if w.lastIndex < 0 then 0 else w.lastIndex + 1))
      && (w.skipBelow > w.lastIndex + 1 ==>
            && t.attempts == []
            && |t.rows| == (if w.skipBelow <= 0 then 0 else if w.skipBelow < |qs| then w.skipBelow else |qs|))
  {
    RunShape(w, attempt, qs);
  }

  /** Write `j` holds the skipped prefix and the answers of the attempts up
      to and including the `j`-th attempted index. */
  lemma WriteContents(w: Window, attempt: Attempter, qs: seq<Question>, j: nat)
    requires j < |Run(w, attempt, qs).writes|
    ensures var t := Run(w, attempt, qs);
      var k := SkipEnd(w, |qs|);
      && k + j + 1 <= AttemptEnd(w, |qs|)
      && t.attempts[j] == k + j
      && t.writes[j] == Skipped(qs, k) + Answered(attempt, qs, k, k + j + 1).rows
  {
    RunShape(w, attempt, qs);
    WritesShape(w, attempt, qs);
  }

  /** Each write holds a prefix of the final answer list. */
  lemma WriteIsPrefix(w: Window, attempt: Attempter, qs: seq<Question>, j: nat)
    requires j < |Run(w, attempt, qs).writes|
    ensures var t := Run(w, attempt, qs);
      && |t.writes[j]| <= |t.rows|
      && t.writes[j] == t.rows[..|t.writes[j]|]
  {
    var t := Run(w, attempt, qs);
    var k := SkipEnd(w, |qs|);
    var h := AttemptEnd(w, |qs|);
    var a := Answered(attempt, qs, k, h);
    WriteContents(w, attempt, qs, j);
    var b := Answered(attempt, qs, k, k + j + 1);
    assert t.rows == Skipped(qs, k) + a.rows by {
      RunShape(w, attempt, qs);
    }
    AnsweredPrefix(attempt, qs, k, k + j + 1, h);
    assert t.rows[..|t.writes[j]|] == Skipped(qs, k) + a.rows[..|b.rows|];
  }

  /** Write `j` reaches exactly the rows that come from indices up to the
      `j`-th attempted index: the saved table is the whole answer list as it
      stood after that attempt. */
  lemma WriteCut(w: Window, attempt: Attempter, qs: seq<Question>, j: nat)
    requires j < |Run(w, attempt, qs).writes|
    ensures var t := Run(w, attempt, qs);
      forall r :: 0 <= r < |t.rows| ==> (r < |t.writes[j]| <==> t.origins[r] <= t.attempts[j])
  {
    var t := Run(w, attempt, qs);
    forall r | 0 <= r < |t.rows|
      ensures r < |t.writes[j]| <==> t.origins[r] <= t.attempts[j]
    {
      WriteCutAt(w, attempt, qs, j, r);
    }
  }

  lemma WriteCutAt(w: Window, attempt: Attempter, qs: seq<Question>, j: nat, r: nat)
    requires j < |Run(w, attempt, qs).writes|
    requires r < |Run(w, attempt, qs).rows|
    ensures var t := Run(w, attempt, qs);
      r < |t.writes[j]| <==> t.origins[r] <= t.attempts[j]
  {
    var t := Run(w, attempt, qs);
    var k := SkipEnd(w, |qs|);
    var h := AttemptEnd(w, |qs|);
    var a := Answered(attempt, qs, k, h);
    WriteContents(w, attempt, qs, j);
    var b := Answered(attempt, qs, k, k + j + 1);
    assert t.origins == Range(0, k) + a.origins by {
      RunShape(w, attempt, qs);
    }
    if r >= k {
      assert t.origins[r] == a.origins[r - k];
      AnsweredCut(attempt, qs, k, k + j + 1, h, r - k);
    } else {
      assert t.origins[r] == r;
    }
  }

  /** A failed attempt rewrites the previous contents of the file unchanged;
      a successful one adds exactly its answer row. */
  lemma WriteAfterAttempt(w: Window, attempt: Attempter, qs: seq<Question>, j: nat)
    requires 0 < j < |Run(w, attempt, qs).writes|
    ensures var t := Run(w, attempt, qs);
      var i := t.attempts[j];
      && i < |qs|
      && (attempt(i, qs[i]).Failure? ==> t.writes[j] == t.writes[j - 1])
      && (attempt(i, qs[i]).Success? ==>
            t.writes[j] == t.writes[j - 1] + [AnswerRow(qs[i], attempt(i, qs[i]).answer)])
  {
    WriteContents(w, attempt, qs, j);
    WriteContents(w, attempt, qs, j - 1);
  }

  /** One write per attempted index and none otherwise: a run that attempts
      nothing writes nothing, and otherwise the last write holds the final
      answer list. */
  lemma FinalWrite(w: Window, attempt: Attempter, qs: seq<Question>)
    ensures var t := Run(w, attempt, qs);
      && |t.writes| == |t.attempts|
      && (|t.attempts| == 0 <==> t.writes == [])
      && (|t.attempts| > 0 ==> t.writes[|t.writes| - 1] == t.rows)
  {
    var t := Run(w, attempt, qs);
    if |t.attempts| > 0 {
      RunShape(w, attempt, qs);
      WriteContents(w, attempt, qs, |t.writes| - 1);
    }
  }
}
