/** utils/nlp_utils.py: text cleaning, keyword counting against the cleaned
    answer, percentages, and order-preserving removal of repeated feedback. */
module NlpUtils {
  import opened Text
  import opened Sampling
  import opened Scoring

  /** A lowercase ASCII letter or a digit. */
  predicate IsAlnum(c: char) {
    ('a' <= c <= 'z') || ('0' <= c <= '9')
  }

  /** The characters `[^a-z0-9\s]` does not match, which survive the first
      substitution. */
  predicate Kept(c: char) {
    IsAlnum(c) || IsSpace(c)
  }

  /** The letters and digits of `s`, in order. */
  function Alnums(s: string): string {
    if s == [] then []
    else (if IsAlnum(s[0]) then [s[0]] else []) + Alnums(s[1..])
  }

  lemma {:induction false} AlnumsAppend(a: string, b: string)
    ensures Alnums(a + b) == Alnums(a) + Alnums(b)
  {
    if a != [] {
      assert (a + b)[1..] == a[1..] + b;
      AlnumsAppend(a[1..], b);
    } else {
      assert a + b == b;
    }
  }

  /** `re.sub(r"[^a-z0-9\s]", "", s)`: every other character is removed. */
  function RemoveSpecial(s: string): (r: string)
    ensures forall c :: c in r <==> c in s && Kept(c)
  {
    if s == [] then []
    else if Kept(s[0]) then [s[0]] + RemoveSpecial(s[1..])
    else RemoveSpecial(s[1..])
  }

  /** `re.sub(r"\s+", " ", s)`: every maximal run of whitespace becomes one
      space. */
  function CollapseSpaces(s: string): string
    decreases |s|
  {
    if s == [] then []
    else if IsSpace(s[0]) then " " + CollapseSpaces(StripLeft(s[1..]))
    else [s[0]] + CollapseSpaces(s[1..])
  }

  /** Collapsing keeps a leading non-space character in front. */
  lemma CollapseFirst(s: string)
    requires s != [] && !IsSpace(s[0])
    ensures CollapseSpaces(s) != [] && CollapseSpaces(s)[0] == s[0]
  {
  }

  /** The only whitespace left after collapsing is lone spaces. */
  lemma {:induction false} CollapseLoneSpaces(s: string)
    ensures forall i :: 0 <= i < |CollapseSpaces(s)| && IsSpace(CollapseSpaces(s)[i]) ==> CollapseSpaces(s)[i] == ' '
    ensures forall i :: 0 <= i < |CollapseSpaces(s)| - 1 ==>
      !IsSpace(CollapseSpaces(s)[i]) || !IsSpace(CollapseSpaces(s)[i + 1])
    decreases |s|
  {
    if s != [] {
      if IsSpace(s[0]) {
        var rest := StripLeft(s[1..]);
        StripLeftShape(s[1..]);
        CollapseLoneSpaces(rest);
        if rest != [] {
          CollapseFirst(rest);
        }
      } else {
        CollapseLoneSpaces(s[1..]);
        var t := CollapseSpaces(s[1..]);
        assert CollapseSpaces(s) == [s[0]] + t;
        if s[1..] != [] && !IsSpace(s[1]) {
          CollapseFirst(s[1..]);
        }
      }
    }
  }

  /** Collapsing keeps only the characters of the input, besides spaces. */
  lemma {:induction false} CollapseChars(s: string)
    ensures forall c :: c in CollapseSpaces(s) && !IsSpace(c) ==> c in s
    decreases |s|
  {
    if s != [] {
      var tail := s[1..];
      assert forall c :: c in tail ==> c in s;
      if IsSpace(s[0]) {
        var rest := StripLeft(tail);
        StripLeftShape(tail);
        assert forall c :: c in rest ==> c in tail;
        CollapseChars(rest);
      } else {
        CollapseChars(tail);
      }
    }
  }

  /** Removing special characters keeps every letter and digit. */
  lemma {:induction false} AlnumsRemoveSpecial(s: string)
    ensures Alnums(RemoveSpecial(s)) == Alnums(s)
  {
    if s != [] {
      AlnumsRemoveSpecial(s[1..]);
      if Kept(s[0]) {
        AlnumsAppend([s[0]], RemoveSpecial(s[1..]));
      }
    }
  }

  /** Dropping leading whitespace keeps every letter and digit. */
  lemma {:induction false} AlnumsStripLeft(s: string)
    ensures Alnums(StripLeft(s)) == Alnums(s)
  {
    if s != [] && IsSpace(s[0]) {
      AlnumsStripLeft(s[1..]);
    }
  }

  /** Dropping trailing whitespace keeps every letter and digit. */
  lemma {:induction false} AlnumsStripRight(s: string)
    ensures Alnums(StripRight(s)) == Alnums(s)
  {
    if s != [] && IsSpace(s[|s| - 1]) {
      var init := s[..|s| - 1];
      AlnumsStripRight(init);
      assert s == init + [s[|s| - 1]];
      AlnumsAppend(init, [s[|s| - 1]]);
    }
  }

  /** Collapsing whitespace keeps every letter and digit. */
  lemma {:induction false} AlnumsCollapse(s: string)
    ensures Alnums(CollapseSpaces(s)) == Alnums(s)
    decreases |s|
  {
    if s != [] {
      if IsSpace(s[0]) {
        var rest := StripLeft(s[1..]);
        AlnumsCollapse(rest);
        AlnumsStripLeft(s[1..]);
        AlnumsAppend(" ", CollapseSpaces(rest));
      } else {
        AlnumsCollapse(s[1..]);
        AlnumsAppend([s[0]], CollapseSpaces(s[1..]));
      }
    }
  }

  /** What `clean_text` returns: lowercase letters, digits and single
      spaces, with no space at either end. */
  predicate IsClean(s: string) {
    && (forall i :: 0 <= i < |s| ==> IsAlnum(s[i]) || s[i] == ' ')
    && (s == [] || (s[0] != ' ' && s[|s| - 1] != ' '))
    && (forall i :: 0 <= i < |s| - 1 ==> s[i] != ' ' || s[i + 1] != ' ')
  }

  /** `clean_text`: lowercase, drop special characters, collapse whitespace,
      strip. The result is clean, and its words spell out exactly the
      letters and digits of the lowercased input, in order. */
  function CleanText(text: string): (r: string)
    ensures IsClean(r)
    ensures Alnums(r) == Alnums(Lower(text))
  {
    var removed := RemoveSpecial(Lower(text));
    var collapsed := CollapseSpaces(removed);
    AlnumsRemoveSpecial(Lower(text));
    AlnumsCollapse(removed);
    AlnumsStripLeft(collapsed);
    AlnumsStripRight(StripLeft(collapsed));
    CollapseLoneSpaces(removed);
    CollapseChars(removed);
    LowerNoUpper(text);
    assert forall i :: 0 <= i < |collapsed| ==> IsAlnum(collapsed[i]) || collapsed[i] == ' ' by {
      forall i | 0 <= i < |collapsed| ensures IsAlnum(collapsed[i]) || collapsed[i] == ' ' {
        if !IsSpace(collapsed[i]) {
          assert collapsed[i] in collapsed;
          assert collapsed[i] in removed;
        }
      }
    }
    StripClean(collapsed);
    Strip(collapsed)
  }

  /** Stripping a string of letters, digits and lone spaces leaves a clean
      one. */
  lemma StripClean(s: string)
    requires forall i :: 0 <= i < |s| ==> IsAlnum(s[i]) || s[i] == ' '
    requires forall i :: 0 <= i < |s| - 1 ==> !IsSpace(s[i]) || !IsSpace(s[i + 1])
    ensures IsClean(Strip(s))
  {
    var left := StripLeft(s);
    var a := |s| - |left|;
    var r := StripRight(left);
    assert r == s[a..a + |r|] by {
      StripLeftShape(s);
      StripRightShape(left);
    }
    SliceClean(s, a, a + |r|);
  }

  /** A block of a string of letters, digits and lone spaces is one too. */
  lemma SliceClean(s: string, a: nat, b: nat)
    requires a <= b <= |s|
    requires forall i :: 0 <= i < |s| ==> IsAlnum(s[i]) || s[i] == ' '
    requires forall i :: 0 <= i < |s| - 1 ==> !IsSpace(s[i]) || !IsSpace(s[i + 1])
    ensures forall i :: 0 <= i < b - a ==> IsAlnum(s[a..b][i]) || s[a..b][i] == ' '
    ensures forall i :: 0 <= i < b - a - 1 ==> s[a..b][i] != ' ' || s[a..b][i + 1] != ' '
  {
    forall i | 0 <= i < b - a - 1
      ensures s[a..b][i] != ' ' || s[a..b][i + 1] != ' '
    {
      assert s[a..b][i] == s[a + i] && s[a..b][i + 1] == s[a + i + 1];
    }
  }

  lemma {:induction false} RemoveSpecialUnchanged(s: string)
    requires forall c :: c in s ==> Kept(c)
    ensures RemoveSpecial(s) == s
  {
    if s != [] {
      assert s[0] in s;
      assert forall c :: c in s[1..] ==> c in s;
      RemoveSpecialUnchanged(s[1..]);
    }
  }

  lemma {:induction false} CollapseUnchanged(s: string)
    requires forall i :: 0 <= i < |s| && IsSpace(s[i]) ==> s[i] == ' '
    requires forall i :: 0 <= i < |s| - 1 ==> !IsSpace(s[i]) || !IsSpace(s[i + 1])
    ensures CollapseSpaces(s) == s
  {
    if s != [] {
      if |s| > 1 {
        assert s[1..][0] == s[1];
      }
      CollapseUnchanged(s[1..]);
    }
  }

  /** Cleaning a clean string changes nothing. */
  lemma CleanUnchanged(s: string)
    requires IsClean(s)
    ensures CleanText(s) == s
  {
    assert forall c :: c in s ==> !IsUpper(c) && Kept(c);
    LowerUnchanged(s);
    RemoveSpecialUnchanged(s);
    CollapseUnchanged(s);
    StripUnchanged(s);
  }

  /** `clean_text` is idempotent. */
  lemma CleanIdempotent(text: string)
    ensures CleanText(CleanText(text)) == CleanText(text)
  {
    CleanUnchanged(CleanText(text));
  }

  /** A keyword whose lowercase holds a character other than a letter, a
      digit or a space is never found in a cleaned answer. */
  lemma SpecialKeywordNeverFound(answer: string, keyword: string, k: nat)
    requires k < |Lower(keyword)| && !IsAlnum(Lower(keyword)[k]) && Lower(keyword)[k] != ' '
    ensures !Contains(CleanText(answer), Lower(keyword))
  {
    var cleaned := CleanText(answer);
    if Contains(cleaned, Lower(keyword)) {
      ContainsChars(cleaned, Lower(keyword), k);
    }
  }

  /** The message `evaluate_answer` gives for a keyword it did not find. */
  function Mention(keyword: string): string {
    "Consider mentioning '" + keyword + "' in your answer."
  }

  /** The messages for the keywords not found in `ans`, in keyword order. */
  function MissingFeedback(ans: string, keywords: seq<string>): (r: seq<string>)
    ensures |r| + FoundCount(ans, keywords) == |keywords|
  {
    if keywords == [] then []
    else
      var init := MissingFeedback(ans, keywords[..|keywords| - 1]);
      var keyword := keywords[|keywords| - 1];
      if Contains(ans, Lower(keyword)) then init else init + [Mention(keyword)]
  }

  /** There is a message for a keyword exactly when it was not found. */
  lemma {:induction false} MissingFeedbackNames(ans: string, keywords: seq<string>)
    ensures forall i :: 0 <= i < |keywords| && !Contains(ans, Lower(keywords[i])) ==>
      Mention(keywords[i]) in MissingFeedback(ans, keywords)
    ensures forall m :: m in MissingFeedback(ans, keywords) ==>
      exists i :: 0 <= i < |keywords| && !Contains(ans, Lower(keywords[i])) && m == Mention(keywords[i])
  {
    if keywords != [] {
      var init := keywords[..|keywords| - 1];
      MissingFeedbackNames(ans, init);
      assert forall i :: 0 <= i < |init| ==> init[i] == keywords[i];
    }
  }

  /** `evaluate_answer`: counts the keywords found in the cleaned answer and
      collects a message for each of the others. */
  method EvaluateAnswer(userAnswer: string, keywords: seq<string>) returns (score: nat, feedback: seq<string>)
    ensures score == FoundCount(CleanText(userAnswer), keywords)
    ensures feedback == MissingFeedback(CleanText(userAnswer), keywords)
    ensures score + |feedback| == |keywords|
  {
    var cleaned := CleanText(userAnswer);
    score, feedback := Tally(cleaned, keywords);
  }

  /** The loop of `evaluate_answer` over the already cleaned answer. */
  method Tally(cleaned: string, keywords: seq<string>) returns (score: nat, feedback: seq<string>)
    ensures score == FoundCount(cleaned, keywords)
    ensures feedback == MissingFeedback(cleaned, keywords)
  {
    score, feedback := 0, [];
    for i := 0 to |keywords|
      invariant score == FoundCount(cleaned, keywords[..i])
      invariant feedback == MissingFeedback(cleaned, keywords[..i])
    {
      assert keywords[..i + 1][..i] == keywords[..i];
      if Contains(cleaned, Lower(keywords[i])) {
        score := score + 1;
      } else {
        feedback := feedback + [Mention(keywords[i])];
      }
    }
    assert keywords[..|keywords|] == keywords;
  }

  /** `calculate_percentage` (before rounding): 0 for a zero total, else
      the score as a percentage of the total. */
  function CalculatePercentage(score: int, total: int): (r: real)
    ensures total == 0 ==> r == 0.0
    ensures total != 0 ==> r * total as real == score as real * 100.0
  {
    if total == 0 then 0.0 else (score as real / total as real) * 100.0
  }

  /** A score between 0 and a positive total gives a percentage between 0
      and 100, reaching 100 exactly for a full score. */
  lemma PercentageBounds(score: int, total: int)
    requires 0 <= score <= total && 0 < total
    ensures 0.0 <= CalculatePercentage(score, total) <= 100.0
    ensures CalculatePercentage(score, total) == 100.0 <==> score == total
  {
    FractionBounds(score, total);
    FractionExtremes(score, total);
  }

  predicate NoDuplicates(s: seq<string>) {
    forall i, j :: 0 <= i < j < |s| ==> s[i] != s[j]
  }

  /** Each item of `xs` at its first occurrence, in order: the items kept by
      the de-duplicating `generate_feedback`. */
  function FirstOccurrences(xs: seq<string>): (r: seq<string>)
    ensures forall x :: x in r <==> x in xs
    ensures NoDuplicates(r)
  {
    if xs == [] then []
    else
      var init := xs[..|xs| - 1];
      var last := xs[|xs| - 1];
      assert xs == init + [last];
      if last in init then FirstOccurrences(init) else FirstOccurrences(init) + [last]
  }

  /** The de-duplicated list keeps the order of the input. */
  lemma {:induction false} FirstOccurrencesInOrder(xs: seq<string>)
    ensures IsSubsequence(FirstOccurrences(xs), xs)
  {
    if xs != [] {
      var init := xs[..|xs| - 1];
      FirstOccurrencesInOrder(init);
      var d := FirstOccurrences(init);
      if xs[|xs| - 1] !in init {
        assert (d + [xs[|xs| - 1]])[..|d|] == d;
      }
    }
  }

  /** A list without repeats is left as it is. */
  lemma {:induction false} FirstOccurrencesUnchanged(xs: seq<string>)
    requires NoDuplicates(xs)
    ensures FirstOccurrences(xs) == xs
  {
    if xs != [] {
      var init := xs[..|xs| - 1];
      assert NoDuplicates(init);
      FirstOccurrencesUnchanged(init);
      assert xs == init + [xs[|xs| - 1]];
    }
  }

  /** De-duplicating twice is de-duplicating once. */
  lemma FirstOccurrencesIdempotent(xs: seq<string>)
    ensures FirstOccurrences(FirstOccurrences(xs)) == FirstOccurrences(xs)
  {
    FirstOccurrencesUnchanged(FirstOccurrences(xs));
  }

  /** `generate_feedback`: keeps each message the first time it is seen. */
  method GenerateFeedback(allFeedback: seq<string>) returns (unique: seq<string>)
    ensures unique == FirstOccurrences(allFeedback)
  {
    var seen: set<string> := {};
    unique := [];
    for i := 0 to |allFeedback|
      invariant unique == FirstOccurrences(allFeedback[..i])
      invariant forall x :: x in seen <==> x in allFeedback[..i]
    {
      var fb := allFeedback[i];
      assert allFeedback[..i + 1] == allFeedback[..i] + [fb];
      if fb !in seen {
        unique := unique + [fb];
        seen := seen + {fb};
      }
    }
    assert allFeedback[..|allFeedback|] == allFeedback;
  }
}
