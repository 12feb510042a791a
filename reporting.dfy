/** `prepare_report` of app.py, without the file write: the average score,
    every feedback note sorted into strengths or weaknesses by a
    case-sensitive substring test, and fixed suggestions. */
module Reporting {
  import opened Text
  import opened Scoring

  /** One entry of the session's `answers` log. */
  datatype AnswerRecord = AnswerRecord(questionIndex: nat, question: string, givenAnswer: string, evaluation: Evaluation)

  /** A `{"question": ..., "note": ...}` item of strengths or weaknesses. */
  datatype NoteEntry = NoteEntry(question: string, note: string)

  /** The report, without its two timestamps. */
  datatype Report = Report(category: string, difficulty: string, numQuestions: nat, averageScore: real,
                           strengths: seq<NoteEntry>, weaknesses: seq<NoteEntry>,
                           suggestions: seq<string>, detailedAnswers: seq<AnswerRecord>)

  const StarSuggestion := "Try structuring answers using STAR method (Situation, Task, Action, Result) for HR questions."
  const KeywordsSuggestion := "Mention core keywords and definitions for technical answers. Briefly give an example or use-case if possible."
  const GreatJobSuggestion := "Great job. Continue practicing live mock interviews."

  /** The weakness test: one of four phrases occurs, compared as written
      (so "Partial" with a capital P does not match "partial"). */
  predicate IsWeakNote(note: string) {
    Contains(note, "not detected") || Contains(note, "lacks") || Contains(note, "needs") || Contains(note, "partial")
  }

  /** The notes of one answer, each paired with its question. */
  function AnswerEntries(a: AnswerRecord): (es: seq<NoteEntry>)
    ensures |es| == |a.evaluation.notes|
    ensures forall j :: 0 <= j < |es| ==> es[j] == NoteEntry(a.question, a.evaluation.notes[j])
  {
    seq(|a.evaluation.notes|, j requires 0 <= j < |a.evaluation.notes| => NoteEntry(a.question, a.evaluation.notes[j]))
  }

  /** Every note of every answer, in the order the loops visit them. */
  function Entries(answers: seq<AnswerRecord>): seq<NoteEntry> {
    if answers == [] then []
    else Entries(answers[..|answers| - 1]) + AnswerEntries(answers[|answers| - 1])
  }

  /** Total number of notes over all answers. */
  function NoteCount(answers: seq<AnswerRecord>): nat {
    if answers == [] then 0
    else NoteCount(answers[..|answers| - 1]) + |answers[|answers| - 1].evaluation.notes|
  }

  /** The entries whose note is a weakness, in order. */
  function WeakOnly(es: seq<NoteEntry>): seq<NoteEntry> {
    if es == [] then []
    else
      var init := WeakOnly(es[..|es| - 1]);
      if IsWeakNote(es[|es| - 1].note) then init + [es[|es| - 1]] else init
  }

  /** The entries whose note is not a weakness, in order. */
  function StrongOnly(es: seq<NoteEntry>): seq<NoteEntry> {
    if es == [] then []
    else
      var init := StrongOnly(es[..|es| - 1]);
      if IsWeakNote(es[|es| - 1].note) then init else init + [es[|es| - 1]]
  }

  /** Sum of the answers' scores. */
  function TotalScore(answers: seq<AnswerRecord>): real {
    if answers == [] then 0.0
    else TotalScore(answers[..|answers| - 1]) + answers[|answers| - 1].evaluation.score
  }

  /** The two fixed suggestions when there is a weakness, else the
      congratulation. */
  function Suggestions(weaknesses: seq<NoteEntry>): (r: seq<string>)
    ensures weaknesses != [] <==> r == [StarSuggestion, KeywordsSuggestion]
    ensures weaknesses == [] <==> r == [GreatJobSuggestion]
  {
    if weaknesses != [] then [StarSuggestion, KeywordsSuggestion] else [GreatJobSuggestion]
  }

  /** `total_score / max(1, len(answers))`. */
  function AverageScore(answers: seq<AnswerRecord>): real {
    TotalScore(answers) / (if |answers| > 1 then |answers| else 1) as real
  }

  /** The report `prepare_report` builds from the session's log. */
  function ReportOf(category: string, difficulty: string, answers: seq<AnswerRecord>): Report {
    var es := Entries(answers);
    var weaknesses := WeakOnly(es);
    Report(category, difficulty, |answers|, AverageScore(answers), StrongOnly(es), weaknesses, Suggestions(weaknesses), answers)
  }

  lemma SortOneMore(es: seq<NoteEntry>, e: NoteEntry)
    ensures WeakOnly(es + [e]) == if IsWeakNote(e.note) then WeakOnly(es) + [e] else WeakOnly(es)
    ensures StrongOnly(es + [e]) == if IsWeakNote(e.note) then StrongOnly(es) else StrongOnly(es) + [e]
  {
    assert (es + [e])[..|es|] == es;
  }

  lemma EntriesOneMore(answers: seq<AnswerRecord>, i: nat)
    requires i < |answers|
    ensures Entries(answers[..i + 1]) == Entries(answers[..i]) + AnswerEntries(answers[i])
  {
    assert answers[..i + 1][..i] == answers[..i];
  }

  lemma TotalOneMore(answers: seq<AnswerRecord>, i: nat)
    requires i < |answers|
    ensures TotalScore(answers[..i + 1]) == TotalScore(answers[..i]) + answers[i].evaluation.score
  {
    assert answers[..i + 1][..i] == answers[..i];
  }

  /** Sorting one more entry of `mine` after `done`. */
  lemma SortNextNote(done: seq<NoteEntry>, mine: seq<NoteEntry>, j: nat)
    requires j < |mine|
    ensures WeakOnly(done + mine[..j + 1]) ==
      if IsWeakNote(mine[j].note) then WeakOnly(done + mine[..j]) + [mine[j]] else WeakOnly(done + mine[..j])
    ensures StrongOnly(done + mine[..j + 1]) ==
      if IsWeakNote(mine[j].note) then StrongOnly(done + mine[..j]) else StrongOnly(done + mine[..j]) + [mine[j]]
  {
    assert done + mine[..j + 1] == (done + mine[..j]) + [mine[j]];
    SortOneMore(done + mine[..j], mine[j]);
  }

  /** The inner loop of `prepare_report`: sorts one answer's notes onto
      the two lists. */
  method SortNotes(ans: AnswerRecord, strengths: seq<NoteEntry>, weaknesses: seq<NoteEntry>, ghost done: seq<NoteEntry>)
    returns (strengths': seq<NoteEntry>, weaknesses': seq<NoteEntry>)
    requires strengths == StrongOnly(done) && weaknesses == WeakOnly(done)
    ensures strengths' == StrongOnly(done + AnswerEntries(ans)) && weaknesses' == WeakOnly(done + AnswerEntries(ans))
  {
    var notes := ans.evaluation.notes;
    ghost var mine := AnswerEntries(ans);
    strengths', weaknesses' := strengths, weaknesses;
    assert done + mine[..0] == done;
    for j := 0 to |notes|
      invariant weaknesses' == WeakOnly(done + mine[..j])
      invariant strengths' == StrongOnly(done + mine[..j])
    {
      var note := notes[j];
      SortNextNote(done, mine, j);
      if IsWeakNote(note) {
        weaknesses' := weaknesses' + [NoteEntry(ans.question, note)];
      } else {
        strengths' := strengths' + [NoteEntry(ans.question, note)];
      }
    }
    assert mine[..|notes|] == mine;
  }

  /** `prepare_report`, minus the timestamps and the write to disk. */
  method PrepareReport(category: string, difficulty: string, answers: seq<AnswerRecord>) returns (report: Report)
    ensures report == ReportOf(category, difficulty, answers)
  {
    var total := 0.0;
    var strengths: seq<NoteEntry> := [];
    var weaknesses: seq<NoteEntry> := [];
    for i := 0 to |answers|
      invariant total == TotalScore(answers[..i])
      invariant weaknesses == WeakOnly(Entries(answers[..i]))
      invariant strengths == StrongOnly(Entries(answers[..i]))
    {
      var ans := answers[i];
      TotalOneMore(answers, i);
      EntriesOneMore(answers, i);
      total := total + ans.evaluation.score;
      strengths, weaknesses := SortNotes(ans, strengths, weaknesses, Entries(answers[..i]));
    }
    assert answers[..|answers|] == answers;
    assert total == TotalScore(answers);
    assert weaknesses == WeakOnly(Entries(answers)) && strengths == StrongOnly(Entries(answers));
    var average := total / (if |answers| > 1 then |answers| else 1) as real;
    var suggestions: seq<string> := [];
    if weaknesses != [] {
      suggestions := suggestions + [StarSuggestion];
      suggestions := suggestions + [KeywordsSuggestion];
    } else {
      suggestions := suggestions + [GreatJobSuggestion];
    }
    report := Report(category, difficulty, |answers|, average, strengths, weaknesses, suggestions, answers);
  }

  /** Each note lands in exactly one list: weaknesses hold the weak ones,
      strengths the others, so the two lengths add up to all notes. */
  lemma {:induction false} SortedPartition(es: seq<NoteEntry>)
    ensures |WeakOnly(es)| + |StrongOnly(es)| == |es|
    ensures forall e :: e in WeakOnly(es) <==> e in es && IsWeakNote(e.note)
    ensures forall e :: e in StrongOnly(es) <==> e in es && !IsWeakNote(e.note)
  {
    if es != [] {
      SortedPartition(es[..|es| - 1]);
      assert es == es[..|es| - 1] + [es[|es| - 1]];
    }
  }

  lemma {:induction false} EntriesCount(answers: seq<AnswerRecord>)
    ensures |Entries(answers)| == NoteCount(answers)
  {
    if answers != [] {
      EntriesCount(answers[..|answers| - 1]);
    }
  }

  /** What the report promises: one entry per note, split by the weakness
      test; the fixed suggestions exactly when a weakness exists; the
      count of answers; the answers themselves. */
  lemma ReportContents(category: string, difficulty: string, answers: seq<AnswerRecord>)
    ensures var r := ReportOf(category, difficulty, answers);
      && r.numQuestions == |answers| && r.detailedAnswers == answers
      && |r.strengths| + |r.weaknesses| == NoteCount(answers)
      && (forall e :: e in r.weaknesses <==> e in Entries(answers) && IsWeakNote(e.note))
      && (forall e :: e in r.strengths <==> e in Entries(answers) && !IsWeakNote(e.note))
      && (r.suggestions == [StarSuggestion, KeywordsSuggestion] <==> r.weaknesses != [])
      && (r.suggestions == [GreatJobSuggestion] <==> r.weaknesses == [])
  {
    SortedPartition(Entries(answers));
    EntriesCount(answers);
  }

  /** The average is the total over the number of answers (1 when there is
      none); with every score in [0, 10] it lies in [0, 10] too. */
  lemma AverageBounds(answers: seq<AnswerRecord>)
    requires forall i :: 0 <= i < |answers| ==> 0.0 <= answers[i].evaluation.score <= 10.0
    ensures AverageScore(answers) * (if |answers| > 1 then |answers| else 1) as real == TotalScore(answers)
    ensures 0.0 <= AverageScore(answers) <= 10.0
  {
    TotalBounds(answers);
    var n := if |answers| > 1 then |answers| else 1;
    assert 10.0 * |answers| as real <= 10.0 * n as real;
    DivisionBounds(TotalScore(answers), n as real, 10.0);
  }

  lemma DivisionBounds(total: real, n: real, bound: real)
    requires 1.0 <= n && 0.0 <= total <= bound * n
    ensures (total / n) * n == total
    ensures 0.0 <= total / n <= bound
  {
  }

  lemma {:induction false} TotalBounds(answers: seq<AnswerRecord>)
    requires forall i :: 0 <= i < |answers| ==> 0.0 <= answers[i].evaluation.score <= 10.0
    ensures 0.0 <= TotalScore(answers) <= 10.0 * |answers| as real
  {
    if answers != [] {
      TotalBounds(answers[..|answers| - 1]);
    }
  }

  lemma KeywordsMissingIsWeak()
    ensures IsWeakNote(KeywordsMissingNote)
  {
    KeywordsMissingWordsNotDetected();
    KeywordsMissingSpelling();
  }

  /** "not detected" occurs in the words of the "not detected" note. */
  lemma KeywordsMissingWordsNotDetected()
    ensures Contains(Sentence(KeywordsMissingWords), "not detected")
  {
    SentenceContainsRun(KeywordsMissingWords, 1, 3);
    NotDetectedRun();
    ContainsPart(Sentence(KeywordsMissingWords), Sentence(KeywordsMissingWords[1..3]), 0, 12);
  }

  /** The second and third words of the note, joined, begin with
      "not detected". */
  lemma NotDetectedRun()
    ensures |Sentence(KeywordsMissingWords[1..3])| >= 12
    ensures Sentence(KeywordsMissingWords[1..3])[0..12] == "not detected"
  {
    assert KeywordsMissingWords[1..3] == ["not", "detected."];
    assert Sentence(["not", "detected."]) == "not detected.";
    assert "not detected."[0..12] == "not detected";
  }

  lemma NeedsClarityIsWeak()
    ensures IsWeakNote(NeedsClarityNote)
  {
    assert IsWeakNote(Sentence(NeedsClarityWords)) by {
      SentenceContainsRun(NeedsClarityWords, 6, 7);
      assert NeedsClarityWords[6..7] == ["needs"];
    }
    NeedsClaritySpelling();
  }

  lemma LacksSimilarityIsWeak()
    ensures IsWeakNote(LacksSimilarityNote)
  {
    assert IsWeakNote(Sentence(LacksSimilarityWords)) by {
      SentenceContainsRun(LacksSimilarityWords, 1, 2);
      assert LacksSimilarityWords[1..2] == ["lacks"];
    }
    LacksSimilaritySpelling();
  }

  /** A sentence is not a weakness when "partial", "lacks", "needs" and a
      space-free block `part` of "not detected" each miss its words (see
      `SentenceLacks` for the meaning of the index lists). */
  lemma SentenceNotWeak(words: seq<string>, inPartial: seq<nat>, inLacks: seq<nat>, inNeeds: seq<nat>,
                        from: nat, to: nat, inPart: seq<nat>)
    requires from < to <= 12 && ' ' !in "not detected"[from..to]
    requires |inPartial| == |inLacks| == |inNeeds| == |inPart| == |words|
    requires forall j :: 0 <= j < |words| ==> inPartial[j] < 7 && (|words[j]| < 7 || "partial"[inPartial[j]] !in words[j])
    requires forall j :: 0 <= j < |words| ==> inLacks[j] < 5 && (|words[j]| < 5 || "lacks"[inLacks[j]] !in words[j])
    requires forall j :: 0 <= j < |words| ==> inNeeds[j] < 5 && (|words[j]| < 5 || "needs"[inNeeds[j]] !in words[j])
    requires forall j :: 0 <= j < |words| ==>
      var part := "not detected"[from..to];
      inPart[j] < |part| && (|words[j]| < |part| || part[inPart[j]] !in words[j])
    ensures !IsWeakNote(Sentence(words))
  {
    SentenceLacks(words, "partial", inPartial);
    SentenceLacks(words, "lacks", inLacks);
    SentenceLacks(words, "needs", inNeeds);
    SentenceLacks(words, "not detected"[from..to], inPart);
    if Contains(Sentence(words), "not detected") {
      ContainsPart(Sentence(words), "not detected", from, to);
    }
  }

  /** The "Partial keywords detected" note is sorted into strengths: the
      test looks for a lowercase "partial". */
  lemma PartialKeywordsIsStrength()
    ensures !IsWeakNote(PartialKeywordsNote)
  {
    SentenceNotWeak(PartialKeywordsWords, [0, 0, 0, 0, 0, 0, 0], [2, 0, 0, 0, 0, 0, 0], [0, 0, 0, 0, 0, 1, 0],
                    0, 3, [0, 0, 0, 0, 0, 1, 0]);
    PartialKeywordsSpelling();
  }

  lemma KeywordsMentionedIsStrength()
    ensures !IsWeakNote(KeywordsMentionedNote)
  {
    SentenceNotWeak(KeywordsMentionedWords, [0, 0, 0, 0], [0, 0, 2, 0], [0, 4, 4, 0], 8, 9, [0, 0, 0, 0]);
    KeywordsMentionedSpelling();
  }

  lemma CloseToIdealIsStrength()
    ensures !IsWeakNote(CloseToIdealNote)
  {
    SentenceNotWeak(CloseToIdealWords, [0, 0, 0, 0, 0, 0, 1], [0, 0, 1, 0, 0, 2, 0], [3, 0, 0, 0, 0, 0, 3],
                    0, 3, [1, 0, 0, 0, 0, 0, 2]);
    CloseToIdealSpelling();
  }

  /** How the report sorts the scorer's two notes: the keyword note is a
      weakness only when no keyword was found (a partial match counts as a
      strength), the similarity note whenever similarity is at most 0.6. */
  lemma ScorerNotesSorted(answerText: string, q: Question, ratio: real)
    requires 0.0 <= ratio <= 1.0
    ensures var e := ComputeQuestionScore(answerText, q, ratio);
      && (IsWeakNote(e.notes[0]) <==> e.keywordScore == 0.0)
      && (IsWeakNote(e.notes[1]) <==> e.similarity <= 0.6)
  {
    KeywordsMissingIsWeak();
    PartialKeywordsIsStrength();
    KeywordsMentionedIsStrength();
    CloseToIdealIsStrength();
    NeedsClarityIsWeak();
    LacksSimilarityIsWeak();
  }
}
