/** The interview state machine of app.py: `api_start`,
    `api_next_question` and `api_submit_answer`, acting on one user's
    session (`session['interview_state']` and `session['report']`). */
module Interview {
  import opened Outcomes
  import opened Sampling
  import opened Scoring
  import opened Selection
  import opened Reporting

  /** A question as the API returns it: its position, text and level. */
  datatype QuestionView = QuestionView(id: nat, text: string, level: Option<string>)

  datatype StartError =
    | CategoryNotSpecified             // HTTP 400 "Category not specified"
    | SelectionFailed(reason: SelectError)  // pick_questions raised
    | NoFirstQuestion                  // IndexError on questions[0]

  datatype StartResponse = Started(first: QuestionView, ioMode: string) | StartFailed(error: StartError)

  datatype NextResponse = NotStarted | Finished | Current(question: QuestionView)

  datatype SubmitResponse =
    | SubmitNotStarted                                   // HTTP 400 "Interview not started"
    | NoMoreQuestions                                    // "No more questions", finished
    | Answered(evaluation: Evaluation, next: QuestionView)
    | Completed(evaluation: Evaluation, report: Report)

  /** `r` is the log entry for answering question `q` at position `i`. */
  predicate RecordFor(r: AnswerRecord, i: nat, q: Question) {
    r.questionIndex == i && r.question == q.text
  }

  /** Answer `i` of `answers` was given to question `i` of `questions`. */
  predicate RecordsFor(answers: seq<AnswerRecord>, questions: seq<Question>)
    decreases |answers|
  {
    |answers| <= |questions|
    && (answers != [] ==>
          && RecordsFor(answers[..|answers| - 1], questions)
          && RecordFor(answers[|answers| - 1], |answers| - 1, questions[|answers| - 1]))
  }

  /** Appending the record of the next question keeps the log aligned. */
  lemma RecordsExtend(answers: seq<AnswerRecord>, questions: seq<Question>, rec: AnswerRecord)
    requires RecordsFor(answers, questions) && |answers| < |questions|
    requires RecordFor(rec, |answers|, questions[|answers|])
    ensures RecordsFor(answers + [rec], questions)
  {
    assert (answers + [rec])[..|answers|] == answers;
  }

  /** One user's Flask session: the interview state, when started, and the
      last report built. */
  class InterviewSession {
    var started: bool
    var category: string
    var ioMode: string
    var difficulty: string
    var questions: seq<Question>
    var currentIndex: nat
    var answers: seq<AnswerRecord>
    var report: Option<Report>

    /** The cursor counts the answers and never passes the questions; answer
        `i` was given to question `i`; a session that was never started has
        neither questions nor answers. */
    ghost predicate Valid()
      reads this
    {
      && currentIndex == |answers| <= |questions|
      && RecordsFor(answers, questions)
      && (!started ==> questions == [] && answers == [])
    }

    /** An empty session. */
    constructor ()
      ensures Valid() && !started && report == None
    {
      started := false;
      category, ioMode, difficulty := "", "", "";
      questions, currentIndex, answers := [], 0, [];
      report := None;
    }

    /** `api_start`, with `category`, `ioMode`, `difficulty` and
        `numQuestions` already resolved from the request body and the
        session (an empty category is a missing one). */
    method Start(bank: Bank, category: string, ioMode: string, difficulty: string, numQuestions: int)
      returns (r: StartResponse, ghost positions: seq<nat>)
      requires Valid()
      modifies this
      ensures Valid()
      ensures category == [] ==> r == StartFailed(CategoryNotSpecified) && unchanged(this)
      ensures category != [] && Pool(bank, category, difficulty).Failure? ==>
        r == StartFailed(SelectionFailed(UnknownCategory)) && unchanged(this)
      ensures category != [] && Pool(bank, category, difficulty).Success? ==>
        var pool := Pool(bank, category, difficulty).value;
        if numQuestions < 0 || (pool == [] && numQuestions > 0) then
          && r == StartFailed(SelectionFailed(if numQuestions < 0 then NegativeCount else EmptyPool))
          && unchanged(this)
        else
          && started && this.category == category && this.ioMode == ioMode && this.difficulty == difficulty
          && |questions| == numQuestions && PickedAt(questions, pool, positions)
          && (|pool| >= numQuestions ==> Distinct(positions))
          && (|pool| < numQuestions ==> questions[..|pool|] == pool)
          && currentIndex == 0 && answers == [] && report == old(report)
          && (numQuestions == 0 ==> r == StartFailed(NoFirstQuestion))
          && (numQuestions > 0 ==>
                r == Started(QuestionView(0, questions[0].text, Some(questions[0].level.GetOr(difficulty))), ioMode))
    {
      positions := [];
      if category == [] {
        return StartFailed(CategoryNotSpecified), positions;
      }
      var picked;
      picked, positions := PickQuestions(bank, category, difficulty, numQuestions);
      if picked.Failure? {
        return StartFailed(SelectionFailed(picked.error)), positions;
      }
      this.category, this.ioMode, this.difficulty := category, ioMode, difficulty;
      questions, currentIndex, answers := picked.value, 0, [];
      started := true;
      if |questions| == 0 {
        return StartFailed(NoFirstQuestion), positions;
      }
      var first := questions[0];
      r := Started(QuestionView(0, first.text, Some(first.level.GetOr(difficulty))), ioMode);
    }

    /** `api_next_question`: the question at the cursor, without moving it. */
    function NextQuestion(): (r: NextResponse)
      reads this
      requires Valid()
      ensures r == NotStarted <==> !started
      ensures r == Finished <==> started && currentIndex == |questions|
      ensures r.Current? ==> r.question.id == currentIndex < |questions|
                             && r.question.text == questions[currentIndex].text
                             && r.question.level == questions[currentIndex].level
    {
      if !started then NotStarted
      else if currentIndex >= |questions| then Finished
      else
        var q := questions[currentIndex];
        Current(QuestionView(currentIndex, q.text, q.level))
    }

    /** Appends the record of the question at the cursor and advances it. */
    method Record(rec: AnswerRecord)
      requires Valid() && started && currentIndex < |questions|
      requires RecordFor(rec, currentIndex, questions[currentIndex])
      modifies this
      ensures Valid()
      ensures answers == old(answers) + [rec] && currentIndex == old(currentIndex) + 1
      ensures started && questions == old(questions) && category == old(category)
      ensures ioMode == old(ioMode) && difficulty == old(difficulty) && report == old(report)
    {
      RecordsExtend(answers, questions, rec);
      answers := answers + [rec];
      currentIndex := currentIndex + 1;
    }

    /** `api_submit_answer`, with the similarity ratio of the answer and the
        question's reference answer given as `ratio`. */
    method SubmitAnswer(answerText: string, ratio: real) returns (r: SubmitResponse)
      requires Valid() && 0.0 <= ratio <= 1.0
      modifies this
      ensures Valid()
      ensures !old(started) ==> r == SubmitNotStarted && unchanged(this)
      ensures old(started) && old(currentIndex) == |old(questions)| ==> r == NoMoreQuestions && unchanged(this)
      ensures old(started) && old(currentIndex) < |old(questions)| ==>
        var i := old(currentIndex);
        var e := ComputeQuestionScore(answerText, old(questions)[i], ratio);
        && started && questions == old(questions)
        && category == old(category) && ioMode == old(ioMode) && difficulty == old(difficulty)
        && answers == old(answers) + [AnswerRecord(i, questions[i].text, answerText, e)]
        && currentIndex == i + 1
        && (currentIndex == |questions| ==>
              report == Some(ReportOf(category, difficulty, answers)) && r == Completed(e, report.value))
        && (currentIndex < |questions| ==>
              report == old(report)
              && r == Answered(e, QuestionView(currentIndex, questions[currentIndex].text, questions[currentIndex].level)))
    {
      if !started {
        return SubmitNotStarted;
      }
      var idx := currentIndex;
      if idx >= |questions| {
        return NoMoreQuestions;
      }
      var q := questions[idx];
      var evaluation := ScoreAnswer(answerText, q, ratio);
      Record(AnswerRecord(idx, q.text, answerText, evaluation));
      if currentIndex >= |questions| {
        var built := PrepareReport(category, difficulty, answers);
        report := Some(built);
        r := Completed(evaluation, built);
      } else {
        var next := questions[currentIndex];
        r := Answered(evaluation, QuestionView(currentIndex, next.text, next.level));
      }
    }
  }
}
