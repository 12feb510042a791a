/** The per-answer scorer of app.py: keyword coverage blended with a
    similarity ratio into a score out of 10, plus two feedback notes. */
module Scoring {
  import opened Text
  import opened Outcomes

  /** A question of the bank. Missing `keywords` and `answer` read as the
      empty list and the empty string, as `dict.get` gives them; a missing
      `level` is `None`. */
  datatype Question = Question(text: string, level: Option<string>, keywords: seq<string>, answer: string)

  /** What `compute_question_score` returns (before rounding). */
  datatype Evaluation = Evaluation(score: real, keywordScore: real, similarity: real, notes: seq<string>)

  const KeywordWeight: real := 0.6
  const SimilarityWeight: real := 0.4

  /** The six feedback notes of `compute_question_score`. */
  const KeywordsMissingNote := "Keywords not detected. Try to mention core concepts."
  const PartialKeywordsNote := "Partial keywords detected. Add the missing terms."
  const KeywordsMentionedNote := "You mentioned relevant keywords."
  const CloseToIdealNote := "Answer is close to an ideal response."
  const NeedsClarityNote := "Answer has some relevant points but needs clarity."
  const LacksSimilarityNote := "Answer lacks similarity to the expected response." + " " + "Explain concepts in a structured manner."

  /** The same notes as sequences of words, for reasoning about what
      occurs in them. */
  const KeywordsMissingWords := ["Keywords", "not", "detected.", "Try", "to", "mention", "core", "concepts."]
  const PartialKeywordsWords := ["Partial", "keywords", "detected.", "Add", "the", "missing", "terms."]
  const KeywordsMentionedWords := ["You", "mentioned", "relevant", "keywords."]
  const CloseToIdealWords := ["Answer", "is", "close", "to", "an", "ideal", "response."]
  const NeedsClarityWords := ["Answer", "has", "some", "relevant", "points", "but", "needs", "clarity."]
  const LacksSimilarityWords := ["Answer", "lacks", "similarity", "to", "the", "expected", "response.",
                                 "Explain", "concepts", "in", "a", "structured", "manner."]

  /** The note is its words joined by spaces. */
  lemma KeywordsMissingSpelling()
    ensures KeywordsMissingNote == Sentence(KeywordsMissingWords)
  {
    var prefixes := [
      "Keywords",
      "Keywords not",
      "Keywords not detected.",
      "Keywords not detected. Try",
      "Keywords not detected. Try to",
      "Keywords not detected. Try to mention",
      "Keywords not detected. Try to mention core",
      "Keywords not detected. Try to mention core concepts."
    ];
    assert JoinedStepwise(KeywordsMissingWords, prefixes, 8);
    SentenceOfPrefixes(KeywordsMissingWords, prefixes, 8);
    assert KeywordsMissingWords[..8] == KeywordsMissingWords;
  }

  /** The note is its words joined by spaces. */
  lemma PartialKeywordsSpelling()
    ensures PartialKeywordsNote == Sentence(PartialKeywordsWords)
  {
    var prefixes := [
      "Partial",
      "Partial keywords",
      "Partial keywords detected.",
      "Partial keywords detected. Add",
      "Partial keywords detected. Add the",
      "Partial keywords detected. Add the missing",
      "Partial keywords detected. Add the missing terms."
    ];
    assert JoinedStepwise(PartialKeywordsWords, prefixes, 7);
    SentenceOfPrefixes(PartialKeywordsWords, prefixes, 7);
    assert PartialKeywordsWords[..7] == PartialKeywordsWords;
  }

  /** The note is its words joined by spaces. */
  lemma KeywordsMentionedSpelling()
    ensures KeywordsMentionedNote == Sentence(KeywordsMentionedWords)
  {
    var prefixes := [
      "You",
      "You mentioned",
      "You mentioned relevant",
      "You mentioned relevant keywords."
    ];
    assert JoinedStepwise(KeywordsMentionedWords, prefixes, 4);
    SentenceOfPrefixes(KeywordsMentionedWords, prefixes, 4);
    assert KeywordsMentionedWords[..4] == KeywordsMentionedWords;
  }

  /** The note is its words joined by spaces. */
  lemma CloseToIdealSpelling()
    ensures CloseToIdealNote == Sentence(CloseToIdealWords)
  {
    var prefixes := [
      "Answer",
      "Answer is",
      "Answer is close",
      "Answer is close to",
      "Answer is close to an",
      "Answer is close to an ideal",
      "Answer is close to an ideal response."
    ];
    assert JoinedStepwise(CloseToIdealWords, prefixes, 7);
    SentenceOfPrefixes(CloseToIdealWords, prefixes, 7);
    assert CloseToIdealWords[..7] == CloseToIdealWords;
  }

  /** The note is its words joined by spaces. */
  lemma NeedsClaritySpelling()
    ensures NeedsClarityNote == Sentence(NeedsClarityWords)
  {
    var prefixes := [
      "Answer",
      "Answer has",
      "Answer has some",
      "Answer has some relevant",
      "Answer has some relevant points",
      "Answer has some relevant points but",
      "Answer has some relevant points but needs",
      "Answer has some relevant points but needs clarity."
    ];
    assert JoinedStepwise(NeedsClarityWords, prefixes, 8);
    SentenceOfPrefixes(NeedsClarityWords, prefixes, 8);
    assert NeedsClarityWords[..8] == NeedsClarityWords;
  }

  /** The note is its words joined by spaces. */
  lemma LacksSimilaritySpelling()
    ensures LacksSimilarityNote == Sentence(LacksSimilarityWords)
  {
    LacksSimilarityHead();
    LacksSimilarityTail();
    assert LacksSimilarityHeadWords + LacksSimilarityTailWords == LacksSimilarityWords;
    SentenceAppend(LacksSimilarityHeadWords, LacksSimilarityTailWords);
  }

  const LacksSimilarityHeadWords := ["Answer", "lacks", "similarity", "to", "the", "expected", "response."]
  const LacksSimilarityTailWords := ["Explain", "concepts", "in", "a", "structured", "manner."]

  /** The first sentence of the note, word by word. */
  lemma LacksSimilarityHead()
    ensures Sentence(LacksSimilarityHeadWords) == "Answer lacks similarity to the expected response."
  {
    var prefixes := [
      "Answer",
      "Answer lacks",
      "Answer lacks similarity",
      "Answer lacks similarity to",
      "Answer lacks similarity to the",
      "Answer lacks similarity to the expected",
      "Answer lacks similarity to the expected response."
    ];
    assert JoinedStepwise(LacksSimilarityHeadWords, prefixes, 7);
    SentenceOfPrefixes(LacksSimilarityHeadWords, prefixes, 7);
    assert LacksSimilarityHeadWords[..7] == LacksSimilarityHeadWords;
  }

  /** The second sentence of the note, word by word. */
  lemma LacksSimilarityTail()
    ensures Sentence(LacksSimilarityTailWords) == "Explain concepts in a structured manner."
  {
    var prefixes := [
      "Explain",
      "Explain concepts",
      "Explain concepts in",
      "Explain concepts in a",
      "Explain concepts in a structured",
      "Explain concepts in a structured manner."
    ];
    assert JoinedStepwise(LacksSimilarityTailWords, prefixes, 6);
    SentenceOfPrefixes(LacksSimilarityTailWords, prefixes, 6);
    assert LacksSimilarityTailWords[..6] == LacksSimilarityTailWords;
  }

  /** `normalize_text`: the empty string stays empty; otherwise lowercase
      and strip. */
  function NormalizeText(t: string): (r: string)
    ensures t == [] ==> r == []
    ensures |r| <= |t|
    ensures forall c :: c in r ==> !IsUpper(c)
    ensures r == [] || (!IsSpace(r[0]) && !IsSpace(r[|r| - 1]))
    ensures t != [] ==> Trims(Lower(t), r)
  {
    if t == [] then [] else
      StripTrims(Lower(t));
      StripChars(Lower(t));
      LowerNoUpper(t);
      Strip(Lower(t))
  }

  /** Number of keywords whose lowercase occurs in the normalized answer
      `ans` (the `found` counter of `keyword_score`). */
  function FoundCount(ans: string, keywords: seq<string>): (n: nat)
    ensures n <= |keywords|
  {
    if keywords == [] then 0
    else FoundCount(ans, keywords[..|keywords| - 1])
         + (if Contains(ans, Lower(keywords[|keywords| - 1])) then 1 else 0)
  }

  /** The value `keyword_score` returns: 0 without keywords, else the
      fraction of keywords found. */
  function Coverage(answerText: string, keywords: seq<string>): (k: real)
    ensures 0.0 <= k <= 1.0
  {
    if keywords == [] then 0.0
    else
      var found := FoundCount(NormalizeText(answerText), keywords);
      FractionBounds(found, |keywords|);
      found as real / |keywords| as real
  }

  lemma FractionBounds(n: nat, d: nat)
    requires n <= d && 0 < d
    ensures 0.0 <= n as real / d as real <= 1.0
  {
    assert n as real / d as real * d as real == n as real;
  }

  /** `keyword_score`. */
  method KeywordScore(answerText: string, keywords: seq<string>) returns (k: real)
    ensures k == Coverage(answerText, keywords)
  {
    if keywords == [] {
      return 0.0;
    }
    var ans := NormalizeText(answerText);
    var found := 0;
    for i := 0 to |keywords|
      invariant found == FoundCount(ans, keywords[..i])
    {
      assert keywords[..i + 1][..i] == keywords[..i];
      if Contains(ans, Lower(keywords[i])) {
        found := found + 1;
      }
    }
    assert keywords[..|keywords|] == keywords;
    k := found as real / |keywords| as real;
  }

  /** `similarity_score`, with `SequenceMatcher(None, a, b).ratio()` given as
      `ratio`: 0 when either normalized text is empty, else the ratio. */
  function SimilarityScore(answerText: string, idealAnswer: string, ratio: real): (s: real)
    requires 0.0 <= ratio <= 1.0
    ensures 0.0 <= s <= 1.0
    ensures NormalizeText(answerText) == [] || NormalizeText(idealAnswer) == [] ==> s == 0.0
    ensures NormalizeText(answerText) != [] && NormalizeText(idealAnswer) != [] ==> s == ratio
  {
    var a := NormalizeText(answerText);
    var b := NormalizeText(idealAnswer);
    if a == [] || b == [] then 0.0 else ratio
  }

  /** The keyword-tier note. */
  function KeywordNote(k: real): string {
    if k == 0.0 then KeywordsMissingNote
    else if k < 0.5 then PartialKeywordsNote
    else KeywordsMentionedNote
  }

  /** The similarity-tier note. */
  function SimilarityNote(s: real): string {
    if s > 0.6 then CloseToIdealNote
    else if s > 0.3 then NeedsClarityNote
    else LacksSimilarityNote
  }

  /** `compute_question_score` (without rounding): a score out of 10 and
      exactly two notes, the keyword tier first. */
  function ComputeQuestionScore(answerText: string, q: Question, ratio: real): (e: Evaluation)
    requires 0.0 <= ratio <= 1.0
    ensures 0.0 <= e.keywordScore <= 1.0 && 0.0 <= e.similarity <= 1.0
    ensures 0.0 <= e.score <= 10.0
    ensures |e.notes| == 2
    ensures e.notes[0] in {KeywordsMissingNote, PartialKeywordsNote, KeywordsMentionedNote}
    ensures e.notes[1] in {CloseToIdealNote, NeedsClarityNote, LacksSimilarityNote}
  {
    var k := Coverage(answerText, q.keywords);
    var s := SimilarityScore(answerText, q.answer, ratio);
    var combined := KeywordWeight * k + SimilarityWeight * s;
    Evaluation(combined * 10.0, k, s, [KeywordNote(k), SimilarityNote(s)])
  }

  /** `compute_question_score`: the two component scores, their blend, and
      the two notes appended in turn. */
  method ScoreAnswer(answerText: string, q: Question, ratio: real) returns (e: Evaluation)
    requires 0.0 <= ratio <= 1.0
    ensures e == ComputeQuestionScore(answerText, q, ratio)
  {
    var k := KeywordScore(answerText, q.keywords);
    var s := SimilarityScore(answerText, q.answer, ratio);
    var combined := KeywordWeight * k + SimilarityWeight * s;
    var notes := [KeywordNote(k)];
    notes := notes + [SimilarityNote(s)];
    e := Evaluation(combined * 10.0, k, s, notes);
  }

  /** Keyword coverage is 0 exactly when no keyword is found. */
  lemma {:induction false} FoundNoneIff(ans: string, keywords: seq<string>)
    ensures FoundCount(ans, keywords) == 0
        <==> forall i :: 0 <= i < |keywords| ==> !Contains(ans, Lower(keywords[i]))
  {
    if keywords != [] {
      var init := keywords[..|keywords| - 1];
      FoundNoneIff(ans, init);
      assert forall i :: 0 <= i < |init| ==> init[i] == keywords[i];
    }
  }

  /** Keyword coverage is 1 exactly when every keyword is found. */
  lemma {:induction false} FoundAllIff(ans: string, keywords: seq<string>)
    ensures FoundCount(ans, keywords) == |keywords|
        <==> forall i :: 0 <= i < |keywords| ==> Contains(ans, Lower(keywords[i]))
  {
    if keywords != [] {
      var init := keywords[..|keywords| - 1];
      FoundAllIff(ans, init);
      assert forall i :: 0 <= i < |init| ==> init[i] == keywords[i];
    }
  }

  /** `keyword_score` is 0 without keywords or when none is found, 1 when
      all are found, and strictly between otherwise. */
  lemma CoverageExtremes(answerText: string, keywords: seq<string>)
    requires keywords != []
    ensures Coverage(answerText, keywords) == 0.0
        <==> forall i :: 0 <= i < |keywords| ==> !Contains(NormalizeText(answerText), Lower(keywords[i]))
    ensures Coverage(answerText, keywords) == 1.0
        <==> forall i :: 0 <= i < |keywords| ==> Contains(NormalizeText(answerText), Lower(keywords[i]))
  {
    var ans := NormalizeText(answerText);
    FoundNoneIff(ans, keywords);
    FoundAllIff(ans, keywords);
    FractionExtremes(FoundCount(ans, keywords), |keywords|);
  }

  lemma FractionExtremes(n: nat, d: nat)
    requires n <= d && 0 < d
    ensures n as real / d as real == 0.0 <==> n == 0
    ensures n as real / d as real == 1.0 <==> n == d
  {
    var x := n as real / d as real;
    assert x * d as real == n as real;
  }

  /** Normalizing twice is normalizing once. */
  lemma NormalizeIdempotent(t: string)
    ensures NormalizeText(NormalizeText(t)) == NormalizeText(t)
  {
    var r := NormalizeText(t);
    if r != [] {
      LowerUnchanged(r);
      StripUnchanged(r);
    }
  }

  /** An empty or blank answer to a question whose keywords are all
      non-empty scores 0, with the "not detected" and "lacks" notes. */
  lemma BlankAnswerScoresZero(answerText: string, q: Question, ratio: real)
    requires 0.0 <= ratio <= 1.0
    requires NormalizeText(answerText) == []
    requires forall i :: 0 <= i < |q.keywords| ==> q.keywords[i] != []
    ensures ComputeQuestionScore(answerText, q, ratio).score == 0.0
    ensures ComputeQuestionScore(answerText, q, ratio).notes == [KeywordsMissingNote, LacksSimilarityNote]
  {
    if q.keywords != [] {
      CoverageExtremes(answerText, q.keywords);
      assert forall i :: 0 <= i < |q.keywords| ==> |Lower(q.keywords[i])| > 0;
    }
  }

  /** An answer that mentions every keyword of a question with keywords
      scores at least 6, with the "relevant keywords" note. */
  lemma AllKeywordsScoreAtLeastSix(answerText: string, q: Question, ratio: real)
    requires 0.0 <= ratio <= 1.0 && q.keywords != []
    requires forall i :: 0 <= i < |q.keywords| ==> Contains(NormalizeText(answerText), Lower(q.keywords[i]))
    ensures ComputeQuestionScore(answerText, q, ratio).keywordScore == 1.0
    ensures ComputeQuestionScore(answerText, q, ratio).score >= 6.0
    ensures ComputeQuestionScore(answerText, q, ratio).notes[0] == KeywordsMentionedNote
  {
    CoverageExtremes(answerText, q.keywords);
  }

  /** The first note names the keyword tier: none found, fewer than half,
      or at least half. */
  lemma KeywordNoteTier(answerText: string, q: Question, ratio: real)
    requires 0.0 <= ratio <= 1.0
    ensures var e := ComputeQuestionScore(answerText, q, ratio);
      && (e.notes[0] == KeywordsMissingNote <==> e.keywordScore == 0.0)
      && (e.notes[0] == PartialKeywordsNote <==> 0.0 < e.keywordScore < 0.5)
      && (e.notes[0] == KeywordsMentionedNote <==> e.keywordScore >= 0.5)
  {
  }

  /** The second note names the similarity tier: above 0.6, above 0.3, or
      at most 0.3. */
  lemma SimilarityNoteTier(answerText: string, q: Question, ratio: real)
    requires 0.0 <= ratio <= 1.0
    ensures var e := ComputeQuestionScore(answerText, q, ratio);
      && (e.notes[1] == CloseToIdealNote <==> e.similarity > 0.6)
      && (e.notes[1] == NeedsClarityNote <==> 0.3 < e.similarity <= 0.6)
      && (e.notes[1] == LacksSimilarityNote <==> e.similarity <= 0.3)
  {
  }

  /** The score is the 0.6/0.4 blend of the two components, times 10. */
  lemma ScoreIsBlend(answerText: string, q: Question, ratio: real)
    requires 0.0 <= ratio <= 1.0
    ensures var e := ComputeQuestionScore(answerText, q, ratio);
      && e.keywordScore == Coverage(answerText, q.keywords)
      && e.similarity == SimilarityScore(answerText, q.answer, ratio)
      && e.score == 6.0 * e.keywordScore + 4.0 * e.similarity
  {
  }
}
