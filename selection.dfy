/** `pick_questions` of app.py: a case-insensitive category lookup, a level
    filter that falls back to the whole category, then a sample without
    repeats or the whole pool topped up with random repeats. */
module Selection {
  import opened Text
  import opened Outcomes
  import opened Sampling
  import opened Scoring

  /** The question bank: lowercase category name to its questions. */
  type Bank = map<string, seq<Question>>

  /** Why `pick_questions` raises. */
  datatype SelectError =
    | UnknownCategory    // ValueError: the lowercased category is not a key
    | NegativeCount      // ValueError from random.sample: a negative count
    | EmptyPool          // IndexError from random.choice on an empty pool

  /** `q.get("level", "")`. */
  function LevelOf(q: Question): string {
    q.level.GetOr("")
  }

  predicate LevelMatches(q: Question, difficulty: string) {
    Lower(LevelOf(q)) == Lower(difficulty)
  }

  /** The questions of `qs` whose level matches, in their order. */
  function WithLevel(qs: seq<Question>, difficulty: string): seq<Question> {
    if qs == [] then []
    else
      var init := WithLevel(qs[..|qs| - 1], difficulty);
      if LevelMatches(qs[|qs| - 1], difficulty) then init + [qs[|qs| - 1]] else init
  }

  /** The level filter keeps, in order, every copy of each matching question
      and nothing else. */
  lemma {:induction false} WithLevelKeeps(qs: seq<Question>, difficulty: string)
    ensures IsSubsequence(WithLevel(qs, difficulty), qs)
    ensures forall q :: q in WithLevel(qs, difficulty) <==> q in qs && LevelMatches(q, difficulty)
    ensures forall q ::
      multiset(WithLevel(qs, difficulty))[q] == if LevelMatches(q, difficulty) then multiset(qs)[q] else 0
  {
    if qs != [] {
      var init, last := qs[..|qs| - 1], qs[|qs| - 1];
      WithLevelKeeps(init, difficulty);
      var kept := WithLevel(init, difficulty);
      assert qs == init + [last];
      if LevelMatches(last, difficulty) {
        assert (kept + [last])[..|kept|] == kept;
      }
    }
  }

  /** The candidate pool, or `UnknownCategory`. */
  function Pool(bank: Bank, category: string, difficulty: string): Result<seq<Question>, SelectError> {
    var key := Lower(category);
    if key !in bank then Failure(UnknownCategory)
    else
      var matching := WithLevel(bank[key], difficulty);
      Success(if matching == [] then bank[key] else matching)
  }

  /** `pick_questions(category, difficulty, num_questions)`. */
  method PickQuestions(bank: Bank, category: string, difficulty: string, numQuestions: int := 5)
    returns (r: Result<seq<Question>, SelectError>, ghost positions: seq<nat>)
    ensures Pool(bank, category, difficulty).Failure? ==> r == Failure(UnknownCategory)
    ensures Pool(bank, category, difficulty).Success? ==>
      var pool := Pool(bank, category, difficulty).value;
      && (numQuestions < 0 ==> r == Failure(NegativeCount))
      && (pool == [] && numQuestions > 0 ==> r == Failure(EmptyPool))
      && (0 <= numQuestions && (pool != [] || numQuestions == 0) ==>
            && r.Success?
            && |r.value| == numQuestions
            && PickedAt(r.value, pool, positions)
            && (|pool| >= numQuestions ==> Distinct(positions))
            && (|pool| < numQuestions ==> r.value[..|pool|] == pool))
  {
    positions := [];
    var found := Pool(bank, category, difficulty);
    if found.Failure? {
      return Failure(UnknownCategory), positions;
    }
    var pool := found.value;
    if |pool| >= numQuestions {
      if numQuestions < 0 {
        return Failure(NegativeCount), positions;
      }
      var picked;
      picked, positions := Sample(pool, numQuestions);
      return Success(picked), positions;
    }
    var selected := pool;
    positions := seq(|pool|, i => i);
    while |selected| < numQuestions
      invariant |pool| <= |selected| <= numQuestions
      invariant selected[..|pool|] == pool
      invariant pool == [] ==> selected == []
      invariant PickedAt(selected, pool, positions)
      decreases numQuestions - |selected|
    {
      if pool == [] {
        return Failure(EmptyPool), positions;
      }
      var item;
      ghost var at;
      item, at := Choice(pool);
      selected, positions := selected + [item], positions + [at];
    }
    r := Success(selected);
  }

  /** The pool is the category's questions of the requested level, in bank
      order, or the whole category when none has that level; an unknown
      category is the only failure. */
  lemma PoolIsLevelOrWholeCategory(bank: Bank, category: string, difficulty: string)
    ensures Pool(bank, category, difficulty).Failure? <==> Lower(category) !in bank
    ensures Lower(category) in bank ==>
      var questions, pool := bank[Lower(category)], Pool(bank, category, difficulty).value;
      && IsSubsequence(pool, questions)
      && ((exists q :: q in questions && LevelMatches(q, difficulty)) ==>
            && (forall q :: q in pool <==> q in questions && LevelMatches(q, difficulty))
            && (forall q :: multiset(pool)[q] == if LevelMatches(q, difficulty) then multiset(questions)[q] else 0))
      && ((forall q :: q in questions ==> !LevelMatches(q, difficulty)) ==> pool == questions)
  {
    var key := Lower(category);
    if key in bank {
      var questions := bank[key];
      var matching := WithLevel(questions, difficulty);
      WithLevelKeeps(questions, difficulty);
      if matching == [] {
        SubsequenceReflexive(questions);
      } else {
        assert matching[0] in matching;
      }
    }
  }

  /** Every question `pick_questions` returns comes from the requested
      category. */
  lemma PickedFromCategory(bank: Bank, category: string, difficulty: string,
                           picked: seq<Question>, positions: seq<nat>)
    requires Pool(bank, category, difficulty).Success?
    requires PickedAt(picked, Pool(bank, category, difficulty).value, positions)
    ensures Lower(category) in bank
    ensures forall q :: q in picked ==> q in bank[Lower(category)]
  {
    PoolIsLevelOrWholeCategory(bank, category, difficulty);
    var pool := Pool(bank, category, difficulty).value;
    SubsequenceItems(pool, bank[Lower(category)]);
    PickedItems(picked, pool, positions);
  }
}
