# Mock interview scoring and session bookkeeping, in Dafny

This project models the core of a small Flask mock-interview application and
proves properties of the model. The application asks a candidate a handful of
questions, scores each typed or spoken answer, and builds a final report. The
model covers:

- **the per-answer scorer of `app.py`**: `normalize_text`, `keyword_score`,
  the empty-input guard of `similarity_score` and `compute_question_score`
  (module `Scoring`, file `scoring.dfy`). The score blends keyword coverage
  and a similarity ratio, 0.6/0.4, into a score out of 10 with exactly two
  tiered notes.
- **question selection** (`pick_questions`, module `Selection`). It does a
  lowercase category lookup and filters by level, falling back to the whole
  category. It then samples without repeats, or takes the whole pool and
  tops it up with random repeats. `random.sample` and `random.choice` are
  modelled in module `Sampling` as a nondeterministic choice of positions.
- **the session state machine** (`api_start`, `api_next_question`,
  `api_submit_answer`): class `Interview.InterviewSession`, whose fields are
  the interview state kept in one user's session. Its invariant keeps the
  cursor equal to the number of answers and the answers aligned with the
  questions. Each submit appends one record whose evaluation is the
  scorer's output. The report is built exactly when the last question is
  answered.
- **the report** (`prepare_report` minus the file write, module
  `Reporting`). It averages the scores, sorts every note into strengths or
  weaknesses by a case-sensitive substring test, and picks the fixed
  suggestions. The test looks for a lowercase `"partial"`, so the note
  "Partial keywords detected. Add the missing terms." is proved to land
  among the strengths, as the code does.
- **`utils/nlp_utils.py`** (module `NlpUtils`): `clean_text`,
  `evaluate_answer`, `calculate_percentage` and the de-duplicating
  `generate_feedback`.
- **`utils/feedback_utils.py`** (module `FeedbackUtils`): exact-match
  grading over zipped lists, and the three-way verdict
  `generate_detailed_feedback`.
- **`utils/question_loader.py`** (module `QuestionLoader`): the two field
  filters and the bounded random selection. These filter on the
  `"difficulty"` and `"category"` fields of flat question objects. `app.py`
  instead reads a `"level"` field from a bank keyed by category. Both are
  modelled as written.

Python's `str.lower`, `str.strip` and the substring test `in` are modelled in
module `Text`. Scores are reals. An exception the code raises is a
`Failure` of the `Result` type in module `Outcomes`.

## Model

| member | source | states |
|---|---|---|
| Scoring.NormalizeText | app.py:34-37 | an empty text stays empty. Otherwise the result is a block of the lowercased input with only whitespace around it, and has no whitespace at either end (so exactly the surrounding whitespace is removed); it has no uppercase letter |
| Scoring.NormalizeIdempotent | app.py:34-37 | normalizing twice is normalizing once |
| Scoring.FoundCount | app.py:47-50 | the `found` counter never exceeds the number of keywords |
| Scoring.Coverage | app.py:44-51 | `keyword_score` lies in [0, 1] |
| Scoring.KeywordScore | app.py:39-51 | the counting loop returns 0 without keywords, else found/total, with found the number of keywords whose lowercase occurs in the normalized answer |
| Scoring.FoundNoneIff | app.py:47-50 | no keyword is counted exactly when no lowercased keyword occurs in the answer |
| Scoring.FoundAllIff | app.py:47-50 | every keyword is counted exactly when every lowercased keyword occurs |
| Scoring.CoverageExtremes | app.py:44-51 | with keywords, the score is 0 iff none is found and 1 iff all are found |
| Scoring.SimilarityScore | app.py:58-63 | 0 when either normalized text is empty, else the given ratio; always in [0, 1] |
| Scoring.ComputeQuestionScore | app.py:70-104 | both components lie in [0, 1], the score in [0, 10]; exactly two notes, the first from the keyword tier and the second from the similarity tier |
| Scoring.ScoreAnswer | app.py:73-104 | computing the components, the blend and the two notes in turn gives the scorer's evaluation |
| Scoring.KeywordNoteTier | app.py:85-90 | the first note is the "not detected" note iff the keyword score is 0, the "Partial" note iff it is in (0, 0.5), the "relevant keywords" note iff it is at least 0.5 |
| Scoring.SimilarityNoteTier | app.py:92-97 | the second note is "close" iff similarity > 0.6, "needs clarity" iff in (0.3, 0.6], "lacks" iff at most 0.3 |
| Scoring.ScoreIsBlend | app.py:73-81 | the score is 6·k + 4·s, with k the keyword coverage and s the guarded similarity |
| Scoring.BlankAnswerScoresZero | app.py:58-97 | a blank answer, with no empty keyword, scores 0 with the "not detected" and "lacks" notes |
| Scoring.AllKeywordsScoreAtLeastSix | app.py:44-90 | an answer mentioning every keyword has keyword score 1, scores at least 6 and gets the "relevant keywords" note |
| Sampling.Sample | app.py:120 | `random.sample(pool, k)`: k items read off k distinct positions of the pool |
| Sampling.Choice | app.py:125 | `random.choice(pool)`: one item at some position of a non-empty pool |
| Selection.WithLevelKeeps | app.py:114 | the level filter keeps, in order, every copy of each question whose lowercased level equals the lowercased difficulty, and nothing else |
| Selection.PickQuestions | app.py:109-126 | `num_questions` defaults to 5; an unknown category fails; a negative count fails; an empty pool with a positive count fails. Otherwise the result has exactly `num_questions` items, all read off the pool. They come from distinct positions when the pool is large enough; otherwise the result starts with the whole pool in order |
| Selection.PoolIsLevelOrWholeCategory | app.py:111-117 | the pool fails exactly for an unknown lowercase category. Otherwise it is an ordered part of the category: every copy of each of its questions of that level, and nothing else, when one exists; the whole category otherwise |
| Selection.PickedFromCategory | app.py:111-126 | every picked question belongs to the requested category |
| Reporting.Suggestions | app.py:348-352 | the two fixed suggestions iff there is a weakness, else the single congratulation |
| Reporting.SortNotes | app.py:337-343 | the inner loop appends one answer's notes to the strengths or weaknesses by the weakness test |
| Reporting.PrepareReport | app.py:324-365 | the accumulating loops build exactly the report `ReportOf` describes |
| Reporting.SortedPartition | app.py:339-343 | each note lands in exactly one list: weaknesses hold the weak ones, strengths the rest, and the lengths add up |
| Reporting.ReportContents | app.py:332-365 | the report counts the answers and keeps them; strengths plus weaknesses hold one entry per note, split by the test; the suggestions follow the weaknesses |
| Reporting.TotalBounds | app.py:332-335 | with scores in [0, 10], the total lies in [0, 10·n] |
| Reporting.AverageBounds | app.py:345 | the average times max(1, n) is the total, and lies in [0, 10] when every score does |
| Reporting.KeywordsMissingIsWeak | app.py:340-341 | the "not detected" note of line 86 is a weakness |
| Reporting.NeedsClarityIsWeak | app.py:340-341 | the "needs clarity" note of line 95 is a weakness |
| Reporting.LacksSimilarityIsWeak | app.py:340-341 | the "lacks similarity" note of line 97 is a weakness |
| Reporting.PartialKeywordsIsStrength | app.py:340-343 | the "Partial keywords" note of line 88 is a strength, because the test looks for lowercase "partial" |
| Reporting.KeywordsMentionedIsStrength | app.py:340-343 | the "relevant keywords" note of line 90 is a strength |
| Reporting.CloseToIdealIsStrength | app.py:340-343 | the "close to an ideal response" note of line 93 is a strength |
| Reporting.ScorerNotesSorted | app.py:339-343 | the scorer's keyword note is a weakness iff no keyword was found; its similarity note is one iff similarity is at most 0.6 |
| Interview.RecordsExtend | app.py:276-285 | appending the record of the question at the cursor keeps answer i aligned with question i |
| Interview.InterviewSession.constructor | app.py:263-265 | a fresh session has no interview started and no report |
| Interview.InterviewSession.Start | app.py:189-229 | a missing category fails with nothing changed, and so does a selection failure. A negative count fails with `NegativeCount`, an empty pool with `EmptyPool`. Otherwise the state is set: the stored questions are the ones `pick_questions` picks off the pool, from distinct positions when the pool is large enough and starting with the whole pool in order otherwise; the cursor is 0 and there are no answers. The first question is returned, with the difficulty as its default level, or the call fails after the state is set when no question was asked for |
| Interview.InterviewSession.NextQuestion | app.py:236-251 | not started iff there is no state; finished iff the cursor is at the end; otherwise the question at the cursor, with nothing changed |
| Interview.InterviewSession.Record | app.py:276-287 | appends one record and advances the cursor by one, keeping the invariant and every other field |
| Interview.InterviewSession.SubmitAnswer | app.py:260-312 | without a state, or at the end, nothing changes. Otherwise one record is appended with the old cursor, the question's text, the answer and the scorer's evaluation, and the cursor advances by one. On reaching the end the report of all answers is stored and returned; otherwise the next question is returned and the stored report is untouched |
| NlpUtils.RemoveSpecial | utils/nlp_utils.py:13 | a character occurs in the result iff it occurs in the input and is a lowercase letter, a digit or whitespace |
| NlpUtils.CollapseLoneSpaces | utils/nlp_utils.py:14 | after collapsing, the only whitespace is a space, and no two whitespace characters are adjacent |
| NlpUtils.CollapseChars | utils/nlp_utils.py:14 | collapsing keeps only characters of the input, besides spaces |
| NlpUtils.CleanText | utils/nlp_utils.py:7-15 | the result has only a–z, 0–9 and single spaces, with no space at either end, and its letters and digits are exactly those of the lowercased input, in order |
| NlpUtils.CleanUnchanged | utils/nlp_utils.py:12-15 | a string of that form is left unchanged by cleaning |
| NlpUtils.CleanIdempotent | utils/nlp_utils.py:12-15 | cleaning twice is cleaning once |
| NlpUtils.SpecialKeywordNeverFound | utils/nlp_utils.py:12-38 | a keyword whose lowercase holds a character other than a–z, 0–9 or space never occurs in a cleaned answer |
| NlpUtils.MissingFeedback | utils/nlp_utils.py:37-41 | the number of messages plus the number of found keywords is the number of keywords |
| NlpUtils.MissingFeedbackNames | utils/nlp_utils.py:37-41 | there is a "Consider mentioning" message for a keyword iff it was not found |
| NlpUtils.Tally | utils/nlp_utils.py:34-43 | the loop counts the found keywords and collects the messages for the others, in keyword order |
| NlpUtils.EvaluateAnswer | utils/nlp_utils.py:33-43 | the score counts keywords whose lowercase occurs in the cleaned answer; the feedback has one message per missing keyword in order; score + feedback length = number of keywords |
| NlpUtils.CalculatePercentage | utils/nlp_utils.py:50-52 | 0 for a zero total, else the percentage times the total equals 100 times the score |
| NlpUtils.PercentageBounds | utils/nlp_utils.py:50-52 | for 0 ≤ score ≤ total > 0 the percentage lies in [0, 100], and is 100 iff the score is full |
| NlpUtils.FirstOccurrences | utils/nlp_utils.py:59-65 | the de-duplicated list has the same items as the input and no repeats |
| NlpUtils.FirstOccurrencesInOrder | utils/nlp_utils.py:59-65 | it keeps the input's order (it is a subsequence of the input) |
| NlpUtils.FirstOccurrencesUnchanged | utils/nlp_utils.py:59-65 | a list without repeats is returned unchanged |
| NlpUtils.FirstOccurrencesIdempotent | utils/nlp_utils.py:59-65 | de-duplicating twice is de-duplicating once |
| NlpUtils.GenerateFeedback | utils/nlp_utils.py:59-65 | the loop with the `seen` set keeps exactly the first occurrence of each message |
| FeedbackUtils.CorrectCount | utils/feedback_utils.py:25 | the score never exceeds the number of entries, and equals it iff every entry is correct |
| FeedbackUtils.Graded | utils/feedback_utils.py:17-32 | one entry per pair among the first n |
| FeedbackUtils.GradedEntries | utils/feedback_utils.py:17-32 | entry i is numbered i + 1, carries the i-th pair, and its status follows the exact-match test |
| FeedbackUtils.GradePairs | utils/feedback_utils.py:14-32 | the loop builds those entries and counts the correct ones |
| FeedbackUtils.GenerateFeedback | utils/feedback_utils.py:14-40 | fails (division by zero) iff there is no correct answer. Otherwise: one entry per zipped pair, numbered from 1, "Correct" iff the stripped, lowercased answers are equal; the score counts the correct entries; the total is the length of `correct_answers`; the percentage is score over that total, times 100 |
| FeedbackUtils.Percent | utils/feedback_utils.py:37 | the percentage times the total equals 100 times the score |
| FeedbackUtils.PercentFullIff | utils/feedback_utils.py:37 | the percentage is 100 exactly when the score equals the number of correct answers |
| FeedbackUtils.FullMarksIff | utils/feedback_utils.py:17-37 | 100 percent iff the user answered every question and every answer is correct; a shorter user list never reaches it |
| FeedbackUtils.GenerateDetailedFeedback | utils/feedback_utils.py:55-60 | "Excellent" iff the stripped, lowercased answers are equal; otherwise "Good" iff the lowercased correct answer occurs in the lowercased user answer, else "You missed" |
| FeedbackUtils.EmptyCorrectAnswerIsGood | utils/feedback_utils.py:55-58 | an empty correct answer makes every non-blank answer "Good" |
| QuestionLoader.WithFieldKeeps | utils/question_loader.py:26-32 | the filter keeps, in order, every copy of each question whose field (default empty) equals the value ignoring case, and nothing else |
| QuestionLoader.WithFieldAppend | utils/question_loader.py:26-32 | filtering a concatenation filters each part and keeps their order |
| QuestionLoader.WithFieldAllMatch | utils/question_loader.py:26-32 | a list whose questions all match is returned unchanged |
| QuestionLoader.WithFieldIdempotent | utils/question_loader.py:26-32 | filtering twice is filtering once, and the result is never longer than the input |
| QuestionLoader.GetQuestionsByDifficulty | utils/question_loader.py:26 | an ordered part of the input holding every copy of each question whose "difficulty" matches, and nothing else |
| QuestionLoader.GetQuestionsByCategory | utils/question_loader.py:32 | an ordered part of the input holding every copy of each question whose "category" matches, and nothing else |
| QuestionLoader.GetRandomQuestions | utils/question_loader.py:34-39 | `limit` defaults to 5; fails iff the limit is negative; otherwise min(limit, n) questions from distinct positions |
| QuestionLoader.SelectionHasNoRepeats | utils/question_loader.py:39 | from a list without repeated questions, the selection has no repeats either |

## Left out

- Flask routing, templates, redirects, `jsonify`, `/api/get_report`, `/reset` and the cookie store: the model keeps only the state transitions of the three API endpoints. HTTP status codes become response constructors.
- Reading the request: `api_start` receives category, I/O mode, difficulty and question count already resolved from the body and the session. The `int()` conversion of the count is not modelled.
- Loading questions from JSON (`load_all_questions`, `load_questions`) and `os.makedirs`: the bank and the question list are inputs.
- Timestamps (`started_at`, `completed_at`) and writing the report to disk: the `Report` datatype has no timestamp fields, and `PrepareReport` has no I/O.
- `difflib.SequenceMatcher.ratio` and `similarity_ratio`: library code. The ratio is an input assumed to lie in [0, 1]; only the empty-text guard of `similarity_score` is modelled.
- Scoring.ComputeQuestionScore: rounding (`round(…, 2)`, `round(…, 3)`) is not modelled. Scores, averages and percentages are exact reals, so no claim is made about rounded values.
- NlpUtils.CalculatePercentage: rounding to two decimals is not modelled, for the same reason.
- FeedbackUtils.GenerateFeedback: rounding of the percentage is not modelled.
- Randomness: `random.sample` and `random.choice` are nondeterministic choices of positions, with no distribution.
- `str.lower` and whitespace cover ASCII only. Non-ASCII uppercase letters are left as they are, and only the ASCII whitespace characters count for `strip` and `\s`.
- Question fields other than text, level, keywords and answer. For the loader, fields with non-string values, and questions that are not JSON objects.
- Interview.InterviewSession.Start: does not model a missing `questions`/`answers` key or a malformed session, since the state is always created by `api_start`.
- Interview.InterviewSession.Valid: the invariant records positions and question texts. That each stored evaluation is the scorer's output is stated per call in `SubmitAnswer`'s postcondition, not kept in the invariant.
- `utils/speech_utils.py`, `static/js/voice.js` and `config/settings.py` are not part of this model: device and network I/O, and constants only.
- The "combines multiple feedback lists" wording of `generate_feedback` in `utils/nlp_utils.py`: the code iterates over one flat list of messages, and that is what is modelled.
