/** utils/feedback_utils.py: exact-match grading of a list of answers and a
    three-way verdict on one answer. */
module FeedbackUtils {
  import opened Text
  import opened Outcomes

  datatype Status = Correct | Incorrect

  /** One item of the `feedback` list of `generate_feedback`. */
  datatype Entry = Entry(questionNumber: nat, status: Status, userAnswer: string, correctAnswer: string)

  /** What `generate_feedback` returns (the percentage before rounding). */
  datatype Grade = Grade(score: nat, totalQuestions: nat, percentage: real, feedback: seq<Entry>)

  /** `generate_feedback` divides by the number of correct answers. */
  datatype GradeError = DivisionByZero

  /** `a.strip().lower() == b.strip().lower()`. */
  predicate SameAnswer(a: string, b: string) {
    Lower(Strip(a)) == Lower(Strip(b))
  }

  /** How many entries are marked correct. */
  function CorrectCount(entries: seq<Entry>): (n: nat)
    ensures n <= |entries|
    ensures n == |entries| <==> forall i :: 0 <= i < |entries| ==> entries[i].status == Correct
  {
    if entries == [] then 0
    else
      var init := entries[..|entries| - 1];
      assert forall i :: 0 <= i < |init| ==> init[i] == entries[i];
      CorrectCount(init) + (if entries[|entries| - 1].status == Correct then 1 else 0)
  }

  /** The entry for the `i`-th zipped pair (counting from 0). */
  function EntryFor(i: nat, userAnswer: string, correctAnswer: string): Entry {
    Entry(i + 1, if SameAnswer(userAnswer, correctAnswer) then Correct else Incorrect, userAnswer, correctAnswer)
  }

  /** The entries for the first `n` zipped pairs. */
  function Graded(userAnswers: seq<string>, correctAnswers: seq<string>, n: nat): (r: seq<Entry>)
    requires n <= |userAnswers| && n <= |correctAnswers|
    ensures |r| == n
  {
    if n == 0 then []
    else Graded(userAnswers, correctAnswers, n - 1) + [EntryFor(n - 1, userAnswers[n - 1], correctAnswers[n - 1])]
  }

  lemma {:induction false} GradedEntries(userAnswers: seq<string>, correctAnswers: seq<string>, n: nat)
    requires n <= |userAnswers| && n <= |correctAnswers|
    ensures forall i :: 0 <= i < n ==>
      Graded(userAnswers, correctAnswers, n)[i] == EntryFor(i, userAnswers[i], correctAnswers[i])
  {
    if n > 0 {
      GradedEntries(userAnswers, correctAnswers, n - 1);
    }
  }

  /** `generate_feedback(user_answers, correct_answers)`: one entry per
      zipped pair, numbered from 1, marked correct when the two answers
      agree up to surrounding whitespace and case; division by zero when
      there is no correct answer. */
  method GenerateFeedback(userAnswers: seq<string>, correctAnswers: seq<string>)
    returns (r: Result<Grade, GradeError>)
    ensures r.Failure? <==> correctAnswers == []
    ensures r.Success? ==>
      var n := if |userAnswers| < |correctAnswers| then |userAnswers| else |correctAnswers|;
      && |r.value.feedback| == n
      && (forall i :: 0 <= i < n ==>
            && r.value.feedback[i].questionNumber == i + 1
            && r.value.feedback[i].userAnswer == userAnswers[i]
            && r.value.feedback[i].correctAnswer == correctAnswers[i]
            && (r.value.feedback[i].status == Correct <==> SameAnswer(userAnswers[i], correctAnswers[i])))
      && r.value.score == CorrectCount(r.value.feedback)
      && r.value.totalQuestions == |correctAnswers|
      && r.value.percentage == Percent(r.value.score, |correctAnswers|)
  {
    var n := if |userAnswers| < |correctAnswers| then |userAnswers| else |correctAnswers|;
    var feedback, score := GradePairs(userAnswers, correctAnswers, n);
    GradedEntries(userAnswers, correctAnswers, n);
    if correctAnswers == [] {
      return Failure(DivisionByZero);
    }
    r := Success(Grade(score, |correctAnswers|, Percent(score, |correctAnswers|), feedback));
  }

  /** The loop of `generate_feedback` over the first `n` pairs. */
  method GradePairs(userAnswers: seq<string>, correctAnswers: seq<string>, n: nat)
    returns (feedback: seq<Entry>, score: nat)
    requires n <= |userAnswers| && n <= |correctAnswers|
    ensures feedback == Graded(userAnswers, correctAnswers, n)
    ensures score == CorrectCount(feedback)
  {
    feedback, score := [], 0;
    for i := 0 to n
      invariant feedback == Graded(userAnswers, correctAnswers, i)
      invariant score == CorrectCount(feedback)
    {
      var entry := EntryFor(i, userAnswers[i], correctAnswers[i]);
      assert (feedback + [entry])[..i] == feedback;
      feedback := feedback + [entry];
      if entry.status == Correct {
        score := score + 1;
      }
    }
  }

  /** `score / len(correct_answers) * 100`: the percentage times the total is
      a hundred times the score. */
  function Percent(score: nat, total: nat): (p: real)
    requires total > 0
    ensures p * total as real == score as real * 100.0
  {
    var x, d := score as real, total as real;
    assert (x / d) * d == x;
    (x / d) * 100.0
  }

  /** The percentage is 100 exactly when the user answered every question
      and every answer agrees; a shorter user list never gets there, since
      the total still counts the unanswered questions. */
  lemma FullMarksIff(grade: Grade, correctAnswers: seq<string>)
    requires correctAnswers != [] && |grade.feedback| <= |correctAnswers|
    requires grade.score == CorrectCount(grade.feedback)
    requires grade.percentage == Percent(grade.score, |correctAnswers|)
    ensures grade.percentage == 100.0 <==>
      |grade.feedback| == |correctAnswers| && forall i :: 0 <= i < |grade.feedback| ==> grade.feedback[i].status == Correct
  {
    PercentFullIff(grade.score, |correctAnswers|);
  }

  /** The percentage is 100 exactly when the score equals the total. */
  lemma PercentFullIff(score: nat, total: nat)
    requires total > 0
    ensures Percent(score, total) == 100.0 <==> score == total
  {
    var p, t := Percent(score, total), total as real;
    if score == total {
      CancelFactor(p, 100.0, t);
    }
  }

  /** A positive factor cancels from both sides of an equation. */
  lemma CancelFactor(a: real, b: real, t: real)
    requires t > 0.0 && a * t == b * t
    ensures a == b
  {
    assert (a - b) * t == 0.0;
  }

  const ExcellentMessage := "Excellent! Your answer is spot-on."
  const GoodMessage := "Good! You mentioned key points, but you could be more precise."
  const MissedMessage := "You missed the main points. Please review the topic."

  /** `generate_detailed_feedback`: excellent when the answers agree up to
      surrounding whitespace and case, good when the lowercased correct
      answer occurs in the lowercased user answer, missed otherwise. */
  function GenerateDetailedFeedback(userAnswer: string, correctAnswer: string): (r: string)
    ensures r == ExcellentMessage <==> SameAnswer(userAnswer, correctAnswer)
    ensures r == GoodMessage <==>
      !SameAnswer(userAnswer, correctAnswer) && Contains(Lower(userAnswer), Lower(correctAnswer))
    ensures r == MissedMessage <==>
      !SameAnswer(userAnswer, correctAnswer) && !Contains(Lower(userAnswer), Lower(correctAnswer))
  {
    if SameAnswer(userAnswer, correctAnswer) then ExcellentMessage
    else if Contains(Lower(userAnswer), Lower(correctAnswer)) then GoodMessage
    else MissedMessage
  }

  /** An empty correct answer occurs in every answer, so any answer that is
      not blank is judged good. */
  lemma EmptyCorrectAnswerIsGood(userAnswer: string)
    requires Strip(userAnswer) != []
    ensures GenerateDetailedFeedback(userAnswer, "") == GoodMessage
  {
    assert Lower(userAnswer)[0..][..0] == Lower("");
    assert Strip("") == [];
  }
}
