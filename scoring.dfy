/** Score counting in `take_quiz` (app.py): one point per question whose
    submitted answer, stripped, equals its stored correct answer, stripped. */
module Scoring {
  import opened PyStr

  /** The parts of a stored question that scoring reads. */
  datatype StoredQuestion = StoredQuestion(id: int, correctAnswer: string)

  /** The submitted form, keyed by question id: the field `question_<id>`. */
  type Form = map<int, string>

  /** The submitted answer for question `id`, or the empty string when the
      form has no such field. */
  function Submitted(form: Form, id: int): string {
    if id in form then form[id] else ""
  }

  /** The submitted answer equals the correct answer once both are stripped. */
  predicate IsCorrect(form: Form, q: StoredQuestion) {
    Strip(Submitted(form, q.id)) == Strip(q.correctAnswer)
  }

  /** Whether each question was answered correctly, in order. */
  function Verdicts(form: Form, questions: seq<StoredQuestion>): (v: seq<bool>)
    ensures |v| == |questions|
  {
    seq(|questions|, k requires 0 <= k < |questions| => IsCorrect(form, questions[k]))
  }

  /** Entry `k` is the verdict on question `k`. */
  lemma VerdictsMean(form: Form, questions: seq<StoredQuestion>)
    ensures forall k :: 0 <= k < |questions| ==> Verdicts(form, questions)[k] == IsCorrect(form, questions[k])
  {
  }

  /** Verdicts on consecutive runs of questions line up. */
  lemma VerdictsAppend(form: Form, xs: seq<StoredQuestion>, ys: seq<StoredQuestion>)
    ensures Verdicts(form, xs + ys) == Verdicts(form, xs) + Verdicts(form, ys)
  {
    var v, a, b := Verdicts(form, xs + ys), Verdicts(form, xs), Verdicts(form, ys);
    VerdictsMean(form, xs + ys);
    VerdictsMean(form, xs);
    VerdictsMean(form, ys);
    forall k | 0 <= k < |v|
      ensures v[k] == (a + b)[k]
    {
      if k < |xs| {
        assert (xs + ys)[k] == xs[k];
      } else {
        assert (xs + ys)[k] == ys[k - |xs|];
      }
    }
  }

  /** The number of `true` entries. */
  function CountTrue(v: seq<bool>): (n: nat)
    ensures n <= |v|
  {
    if v == [] then 0 else CountTrue(v[..|v| - 1]) + (if v[|v| - 1] then 1 else 0)
  }

  /** Counting one more entry adds one exactly when it is `true`. */
  lemma CountTrueSnoc(v: seq<bool>, i: nat)
    requires i < |v|
    ensures CountTrue(v[..i + 1]) == CountTrue(v[..i]) + (if v[i] then 1 else 0)
  {
    assert v[..i + 1][..i] == v[..i];
  }

  /** The number of correctly answered questions. */
  function CorrectCount(form: Form, questions: seq<StoredQuestion>): nat {
    CountTrue(Verdicts(form, questions))
  }

  /** The test of one question: the submitted answer, or "" when the field is
      missing, compared with the correct answer after stripping both. */
  method CheckAnswer(form: Form, question: StoredQuestion) returns (correct: bool)
    ensures correct == IsCorrect(form, question)
  {
    var answer := Submitted(form, question.id);
    correct := Strip(answer) == Strip(question.correctAnswer);
  }

  /** The counter loop of `take_quiz`: `score` and `total_questions`. */
  method ScoreSubmission(form: Form, questions: seq<StoredQuestion>) returns (score: nat, totalQuestions: nat)
    ensures score == CorrectCount(form, questions) && totalQuestions == |questions|
    ensures score <= totalQuestions
  {
    score := 0;
    totalQuestions := |questions|;
    ghost var verdicts := Verdicts(form, questions);
    var i := 0;
    while i < |questions|
      invariant i <= |questions|
      invariant score == CountTrue(verdicts[..i])
    {
      var question := questions[i];
      var correct := CheckAnswer(form, question);
      CountTrueSnoc(verdicts, i);
      if correct {
        score := score + 1;
      }
      i := i + 1;
    }
    assert verdicts[..i] == verdicts;
  }

  /** The positions holding `true`. */
  function TruePositions(v: seq<bool>): set<nat> {
    set k: nat | k < |v| && v[k]
  }

  /** Counting agrees with the number of `true` positions. */
  lemma {:induction false} CountTrueIsPositions(v: seq<bool>)
    ensures CountTrue(v) == |TruePositions(v)|
  {
    if v != [] {
      var n := |v| - 1;
      var init := v[..n];
      CountTrueIsPositions(init);
      assert forall k :: 0 <= k < n ==> init[k] == v[k];
      if v[n] {
        assert TruePositions(v) == TruePositions(init) + {n};
      } else {
        assert TruePositions(v) == TruePositions(init);
      }
    }
  }

  /** The count is the length exactly when every entry is `true`. */
  lemma {:induction false} CountTrueAll(v: seq<bool>)
    ensures CountTrue(v) == |v| <==> forall k :: 0 <= k < |v| ==> v[k]
  {
    if v != [] {
      var n := |v| - 1;
      var init := v[..n];
      CountTrueAll(init);
      assert forall k :: 0 <= k < n ==> init[k] == v[k];
    }
  }

  /** The count is zero exactly when no entry is `true`. */
  lemma {:induction false} CountTrueNone(v: seq<bool>)
    ensures CountTrue(v) == 0 <==> forall k :: 0 <= k < |v| ==> !v[k]
  {
    if v != [] {
      var n := |v| - 1;
      var init := v[..n];
      CountTrueNone(init);
      assert forall k :: 0 <= k < n ==> init[k] == v[k];
    }
  }

  /** Counts add up over concatenation. */
  lemma {:induction false} CountTrueAppend(v: seq<bool>, w: seq<bool>)
    ensures CountTrue(v + w) == CountTrue(v) + CountTrue(w)
    decreases |w|
  {
    if w == [] {
      assert v + w == v;
    } else {
      var u := v + w;
      assert u[..|u| - 1] == v + w[..|w| - 1];
      CountTrueAppend(v, w[..|w| - 1]);
    }
  }

  /** The score is the number of questions answered correctly, counted by
      position. */
  lemma ScoreIsCorrectPositions(form: Form, questions: seq<StoredQuestion>)
    ensures CorrectCount(form, questions)
         == |set k: nat | k < |questions| && IsCorrect(form, questions[k])|
  {
    var v := Verdicts(form, questions);
    CountTrueIsPositions(v);
    assert TruePositions(v) == set k: nat | k < |questions| && IsCorrect(form, questions[k]);
  }

  /** Full marks exactly when every answer is correct. */
  lemma FullMarks(form: Form, questions: seq<StoredQuestion>)
    ensures CorrectCount(form, questions) == |questions|
        <==> forall k :: 0 <= k < |questions| ==> IsCorrect(form, questions[k])
  {
    var v := Verdicts(form, questions);
    CountTrueAll(v);
    VerdictsMean(form, questions);
  }

  /** A zero score exactly when no answer is correct. */
  lemma ZeroScore(form: Form, questions: seq<StoredQuestion>)
    ensures CorrectCount(form, questions) == 0
        <==> forall k :: 0 <= k < |questions| ==> !IsCorrect(form, questions[k])
  {
    var v := Verdicts(form, questions);
    CountTrueNone(v);
    VerdictsMean(form, questions);
  }

  /** Scores add up over consecutive runs of questions. */
  lemma ScoreAppend(form: Form, xs: seq<StoredQuestion>, ys: seq<StoredQuestion>)
    ensures CorrectCount(form, xs + ys) == CorrectCount(form, xs) + CorrectCount(form, ys)
  {
    VerdictsAppend(form, xs, ys);
    CountTrueAppend(Verdicts(form, xs), Verdicts(form, ys));
  }

  /** Whitespace around a submitted answer does not matter. */
  lemma PaddingIgnored(form: Form, q: StoredQuestion, padded: string)
    requires Strip(padded) == Strip(Submitted(form, q.id))
    ensures IsCorrect(form[q.id := padded], q) == IsCorrect(form, q)
  {
  }
}
