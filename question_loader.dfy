/** utils/question_loader.py: filters of a loaded question list by the
    `"difficulty"` and `"category"` fields, and a bounded random selection. */
module QuestionLoader {
  import opened Text
  import opened Outcomes
  import opened Sampling

  /** A question as the JSON object it was loaded from, with its
      string-valued fields. */
  type QuestionRecord = map<string, string>

  /** Why `get_random_questions` raises. */
  datatype SampleError = NegativeSampleSize   // ValueError from random.sample

  /** `q.get(key, "")`. */
  function Field(q: QuestionRecord, key: string): string {
    if key in q then q[key] else ""
  }

  /** The condition of both list comprehensions:
      `q.get(key, "").lower() == value.lower()`. */
  predicate FieldMatches(q: QuestionRecord, key: string, value: string) {
    Lower(Field(q, key)) == Lower(value)
  }

  /** The questions whose `key` field matches `value`, in their order. */
  function WithField(questions: seq<QuestionRecord>, key: string, value: string): seq<QuestionRecord> {
    if questions == [] then []
    else
      var init := WithField(questions[..|questions| - 1], key, value);
      var last := questions[|questions| - 1];
      if FieldMatches(last, key, value) then init + [last] else init
  }

  /** The filter keeps, in order, every copy of each matching question and
      nothing else. */
  lemma WithFieldKeeps(questions: seq<QuestionRecord>, key: string, value: string)
    ensures IsSubsequence(WithField(questions, key, value), questions)
    ensures forall q :: q in WithField(questions, key, value) <==> q in questions && FieldMatches(q, key, value)
    ensures forall q ::
      multiset(WithField(questions, key, value))[q] == if FieldMatches(q, key, value) then multiset(questions)[q] else 0
  {
    WithFieldInOrder(questions, key, value);
    WithFieldCounts(questions, key, value);
    var r := WithField(questions, key, value);
    forall q ensures q in r <==> q in questions && FieldMatches(q, key, value) {
      assert q in r <==> multiset(r)[q] > 0;
      assert q in questions <==> multiset(questions)[q] > 0;
    }
  }

  lemma {:induction false} WithFieldInOrder(questions: seq<QuestionRecord>, key: string, value: string)
    ensures IsSubsequence(WithField(questions, key, value), questions)
  {
    if questions != [] {
      var init, last := questions[..|questions| - 1], questions[|questions| - 1];
      WithFieldInOrder(init, key, value);
      var kept := WithField(init, key, value);
      assert questions == init + [last];
      if FieldMatches(last, key, value) {
        assert (kept + [last])[..|kept|] == kept;
      }
    }
  }

  lemma {:induction false} WithFieldCounts(questions: seq<QuestionRecord>, key: string, value: string)
    ensures forall q ::
      multiset(WithField(questions, key, value))[q] == if FieldMatches(q, key, value) then multiset(questions)[q] else 0
  {
    if questions != [] {
      var init, last := questions[..|questions| - 1], questions[|questions| - 1];
      WithFieldCounts(init, key, value);
      assert questions == init + [last];
    }
  }

  /** Filtering a concatenation filters each part: the kept questions stay
      in their order. */
  lemma {:induction false} WithFieldAppend(a: seq<QuestionRecord>, b: seq<QuestionRecord>, key: string, value: string)
    ensures WithField(a + b, key, value) == WithField(a, key, value) + WithField(b, key, value)
  {
    if b != [] {
      var init := b[..|b| - 1];
      WithFieldAppend(a, init, key, value);
      assert (a + b)[..|a + b| - 1] == a + init;
    } else {
      assert a + b == a;
    }
  }

  /** A list whose questions all match is left as it is. */
  lemma {:induction false} WithFieldAllMatch(questions: seq<QuestionRecord>, key: string, value: string)
    requires forall i :: 0 <= i < |questions| ==> FieldMatches(questions[i], key, value)
    ensures WithField(questions, key, value) == questions
  {
    if questions != [] {
      var init := questions[..|questions| - 1];
      WithFieldAllMatch(init, key, value);
      assert questions == init + [questions[|questions| - 1]];
    }
  }

  /** Filtering twice by the same field and value is filtering once; the
      result is never longer than the input. */
  lemma WithFieldIdempotent(questions: seq<QuestionRecord>, key: string, value: string)
    ensures WithField(WithField(questions, key, value), key, value) == WithField(questions, key, value)
    ensures |WithField(questions, key, value)| <= |questions|
  {
    var r := WithField(questions, key, value);
    WithFieldKeeps(questions, key, value);
    assert forall i :: 0 <= i < |r| ==> r[i] in r;
    WithFieldAllMatch(r, key, value);
    SubsequenceItems(r, questions);
  }

  /** `get_questions_by_difficulty`: every copy of the questions whose
      `"difficulty"` field (default empty) matches ignoring case, in order. */
  function GetQuestionsByDifficulty(questions: seq<QuestionRecord>, difficulty: string): (r: seq<QuestionRecord>)
    ensures IsSubsequence(r, questions)
    ensures forall q :: q in r <==> q in questions && Lower(Field(q, "difficulty")) == Lower(difficulty)
    ensures forall q :: multiset(r)[q] == if Lower(Field(q, "difficulty")) == Lower(difficulty) then multiset(questions)[q] else 0
  {
    WithFieldKeeps(questions, "difficulty", difficulty);
    WithField(questions, "difficulty", difficulty)
  }

  /** `get_questions_by_category`: every copy of the questions whose
      `"category"` field (default empty) matches ignoring case, in order. */
  function GetQuestionsByCategory(questions: seq<QuestionRecord>, category: string): (r: seq<QuestionRecord>)
    ensures IsSubsequence(r, questions)
    ensures forall q :: q in r <==> q in questions && Lower(Field(q, "category")) == Lower(category)
    ensures forall q :: multiset(r)[q] == if Lower(Field(q, "category")) == Lower(category) then multiset(questions)[q] else 0
  {
    WithFieldKeeps(questions, "category", category);
    WithField(questions, "category", category)
  }

  /** `get_random_questions(questions, limit)`: `min(limit, len(questions))`
      questions from distinct positions; a negative limit makes
      `random.sample` raise. */
  method GetRandomQuestions(questions: seq<QuestionRecord>, limit: int := 5)
    returns (r: Result<seq<QuestionRecord>, SampleError>, ghost positions: seq<nat>)
    ensures r.Failure? <==> limit < 0
    ensures r.Success? ==>
      && |r.value| == (if limit < |questions| then limit else |questions|)
      && PickedAt(r.value, questions, positions)
      && Distinct(positions)
  {
    var k := if limit < |questions| then limit else |questions|;
    positions := [];
    if k < 0 {
      return Failure(NegativeSampleSize), positions;
    }
    var picked;
    picked, positions := Sample(questions, k);
    r := Success(picked);
  }

  /** From a list without repeated questions, the selection repeats none
      either. */
  lemma SelectionHasNoRepeats(picked: seq<QuestionRecord>, questions: seq<QuestionRecord>, positions: seq<nat>)
    requires forall i, j :: 0 <= i < j < |questions| ==> questions[i] != questions[j]
    requires PickedAt(picked, questions, positions) && Distinct(positions)
    ensures forall i, j :: 0 <= i < j < |picked| ==> picked[i] != picked[j]
  {
    forall i, j | 0 <= i < j < |picked| ensures picked[i] != picked[j] {
      var a, b := positions[i], positions[j];
      if a < b {
        assert questions[a] != questions[b];
      } else {
        assert questions[b] != questions[a];
      }
    }
  }
}
