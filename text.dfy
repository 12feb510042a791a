/** String primitives the Python code relies on: `str.lower`, `str.strip`,
    the `in` substring test, and notes written as space-separated words.
    Characters outside ASCII are left as they are by `Lower` and are not
    whitespace for `IsSpace` (see README, "Left out"). */
module Text {

  /** `c.isspace()` for the ASCII range: tab, line feed, vertical tab,
      form feed, carriage return, the four separators 0x1C-0x1F, space. */
  predicate IsSpace(c: char) {
    c == ' ' || (0x09 <= c as int <= 0x0D) || (0x1C <= c as int <= 0x1F)
  }

  predicate IsUpper(c: char) { 'A' <= c <= 'Z' }

  /** `str.lower()` on one character (ASCII letters only). */
  function LowerChar(c: char): (r: char)
    ensures !IsUpper(r)
    ensures IsUpper(c) ==> r as int == c as int + 32
    ensures !IsUpper(c) ==> r == c
  {
    if IsUpper(c) then (c as int + 32) as char else c
  }

  /** `s.lower()`: lowercases every character, keeping the length. */
  function Lower(s: string): (r: string)
    ensures |r| == |s|
  {
    if s == [] then [] else [LowerChar(s[0])] + Lower(s[1..])
  }

  /** Each character of `s.lower()` is its counterpart lowercased. */
  lemma {:induction false} LowerChars(s: string)
    ensures forall i :: 0 <= i < |s| ==> Lower(s)[i] == LowerChar(s[i])
  {
    if s != [] {
      LowerChars(s[1..]);
    }
  }

  /** `s.lstrip()`: drops leading whitespace. */
  function StripLeft(s: string): (r: string)
    ensures |r| <= |s|
  {
    if s != [] && IsSpace(s[0]) then StripLeft(s[1..]) else s
  }

  /** What `lstrip` keeps is a suffix starting with a non-space; what it
      drops is whitespace. */
  lemma {:induction false} StripLeftShape(s: string)
    ensures var r := StripLeft(s);
      && r == s[|s| - |r|..]
      && (r == [] || !IsSpace(r[0]))
      && (forall i :: 0 <= i < |s| - |r| ==> IsSpace(s[i]))
  {
    if s != [] && IsSpace(s[0]) {
      StripLeftShape(s[1..]);
    }
  }

  /** `s.rstrip()`: drops trailing whitespace. */
  function StripRight(s: string): (r: string)
    ensures |r| <= |s|
  {
    if s != [] && IsSpace(s[|s| - 1]) then StripRight(s[..|s| - 1]) else s
  }

  /** What `rstrip` keeps is a prefix ending with a non-space; what it
      drops is whitespace. */
  lemma {:induction false} StripRightShape(s: string)
    ensures var r := StripRight(s);
      && r == s[..|r|]
      && (r == [] || !IsSpace(r[|r| - 1]))
      && (forall i :: |r| <= i < |s| ==> IsSpace(s[i]))
  {
    if s != [] && IsSpace(s[|s| - 1]) {
      StripRightShape(s[..|s| - 1]);
    }
  }

  /** `s.strip()`. */
  function Strip(s: string): (r: string)
    ensures |r| <= |s|
    ensures r == [] || (!IsSpace(r[0]) && !IsSpace(r[|r| - 1]))
  {
    StripLeftShape(s);
    StripRightShape(StripLeft(s));
    StripRight(StripLeft(s))
  }

  /** `r` is a block of `s` with nothing but whitespace around it. */
  predicate Trims(s: string, r: string) {
    exists a {:trigger s[a..]} :: 0 <= a <= |s| - |r| && s[a..][..|r|] == r
      && (forall i :: 0 <= i < a ==> IsSpace(s[i]))
      && (forall i :: a + |r| <= i < |s| ==> IsSpace(s[i]))
  }

  /** `strip` removes whitespace at both ends and nothing else. */
  lemma StripTrims(s: string)
    ensures Trims(s, Strip(s))
  {
    var l := StripLeft(s);
    var r := StripRight(l);
    var a := |s| - |l|;
    StripLeftShape(s);
    StripRightShape(l);
    assert s[a..][..|r|] == r;
    forall i | a + |r| <= i < |s| ensures IsSpace(s[i]) {
      assert s[i] == l[i - a];
    }
  }

  lemma StripChars(s: string)
    ensures forall c :: c in Strip(s) ==> c in s
  {
    var l := StripLeft(s);
    StripLeftShape(s);
    assert forall c :: c in l ==> c in s;
    var r := StripRight(l);
    StripRightShape(l);
    assert forall c :: c in r ==> c in l;
  }

  lemma LowerNoUpper(s: string)
    ensures forall c :: c in Lower(s) ==> !IsUpper(c)
  {
    LowerChars(s);
  }

  lemma {:induction false} LowerUnchanged(s: string)
    requires forall c :: c in s ==> !IsUpper(c)
    ensures Lower(s) == s
  {
    LowerChars(s);
    assert forall i :: 0 <= i < |s| ==> s[i] in s;
  }

  lemma StripUnchanged(s: string)
    requires s == [] || (!IsSpace(s[0]) && !IsSpace(s[|s| - 1]))
    ensures Strip(s) == s
  {
  }

  /** Python's `p in s` for two strings: `p` occurs in `s` as a contiguous
      block (the empty string occurs in every string). */
  predicate Contains(s: string, p: string) {
    exists i {:trigger s[i..]} :: 0 <= i <= |s| - |p| && s[i..][..|p|] == p
  }

  lemma ContainsAt(s: string, p: string, i: nat)
    requires i + |p| <= |s| && s[i..i + |p|] == p
    ensures Contains(s, p)
  {
    assert s[i..][..|p|] == s[i..i + |p|];
  }

  lemma BlockAt(s: string, p: string, i: nat, k: nat)
    requires i <= |s| - |p| && s[i..][..|p|] == p && k < |p|
    ensures p[k] == s[i + k]
  {
  }

  /** Every block of an occurring string occurs as well. */
  lemma {:induction false} ContainsPart(s: string, p: string, a: nat, b: nat)
    requires a <= b <= |p| && Contains(s, p)
    ensures Contains(s, p[a..b])
  {
    var i :| 0 <= i <= |s| - |p| && s[i..][..|p|] == p;
    assert s[i + a..][..b - a] == p[a..b] by {
      forall k | 0 <= k < b - a ensures s[i + a..][..b - a][k] == p[a..b][k] {
        assert s[i..][..|p|][a + k] == p[a + k];
      }
    }
  }

  /** An occurring string's characters all occur. */
  lemma {:induction false} ContainsChars(s: string, p: string, k: nat)
    requires k < |p| && Contains(s, p)
    ensures p[k] in s
  {
    var i :| 0 <= i <= |s| - |p| && s[i..][..|p|] == p;
    assert s[i..][..|p|][k] == s[i + k];
  }

  /** `words` joined by single spaces, the way a sentence is written. */
  function Sentence(words: seq<string>): string {
    if |words| <= 1 then (if words == [] then "" else words[0])
    else words[0] + " " + Sentence(words[1..])
  }

  /** A sentence grows word by word at its end. */
  lemma {:induction false} SentenceExtend(words: seq<string>, w: string)
    requires words != []
    ensures Sentence(words + [w]) == Sentence(words) + " " + w
  {
    if |words| > 1 {
      assert (words + [w])[1..] == words[1..] + [w];
      SentenceExtend(words[1..], w);
    }
  }

  /** Two sentences joined by a space are the sentence of both word lists. */
  lemma {:induction false} SentenceAppend(a: seq<string>, b: seq<string>)
    requires a != [] && b != []
    ensures Sentence(a + b) == Sentence(a) + " " + Sentence(b)
  {
    if |a| == 1 {
      assert (a + b)[1..] == b;
    } else {
      assert (a + b)[1..] == a[1..] + b;
      SentenceAppend(a[1..], b);
    }
  }

  /** `prefixes[i]` is the first `i + 1` of `words` joined by spaces, for
      every `i < n`, each built from the one before. */
  predicate JoinedStepwise(words: seq<string>, prefixes: seq<string>, n: nat)
  {
    && n <= |words| == |prefixes|
    && (n > 0 ==> prefixes[0] == words[0])
    && (n > 1 ==> JoinedStepwise(words, prefixes, n - 1) && prefixes[n - 1] == prefixes[n - 2] + " " + words[n - 1])
  }

  /** The stepwise prefixes are the sentences of the first words. */
  lemma {:induction false} SentenceOfPrefixes(words: seq<string>, prefixes: seq<string>, n: nat)
    requires 0 < n && JoinedStepwise(words, prefixes, n)
    ensures Sentence(words[..n]) == prefixes[n - 1]
  {
    if n > 1 {
      SentenceOfPrefixes(words, prefixes, n - 1);
      SentenceExtend(words[..n - 1], words[n - 1]);
      assert words[..n - 1] + [words[n - 1]] == words[..n];
    } else {
      assert words[..1] == [words[0]];
    }
  }

  /** A string without a space can only occur in a sentence inside one of
      its words. */
  lemma {:induction false} SentenceContains(words: seq<string>, p: string)
    requires p != [] && ' ' !in p && Contains(Sentence(words), p)
    ensures exists j :: 0 <= j < |words| && Contains(words[j], p)
  {
    if |words| == 1 {
      assert Contains(words[0], p);
    } else if |words| > 1 {
      var w, rest := words[0], Sentence(words[1..]);
      var s := w + " " + rest;
      var i :| 0 <= i <= |s| - |p| && s[i..][..|p|] == p;
      if i + |p| <= |w| {
        ContainsAt(w, p, i);
        assert s[i..][..|p|] == w[i..i + |p|];
      } else if i > |w| {
        assert s[i..][..|p|] == rest[i - |w| - 1..i - |w| - 1 + |p|];
        ContainsAt(rest, p, i - |w| - 1);
        SentenceContains(words[1..], p);
        var j :| 0 <= j < |words[1..]| && Contains(words[1..][j], p);
        assert Contains(words[1 + j], p);
      } else {
        BlockAt(s, p, i, |w| - i);
        assert false;
      }
    }
  }

  lemma {:induction false} ContainsInSuffix(a: string, b: string, p: string)
    requires Contains(b, p)
    ensures Contains(a + b, p)
  {
    var i :| 0 <= i <= |b| - |p| && b[i..][..|p|] == p;
    assert (a + b)[|a| + i..][..|p|] == b[i..][..|p|];
  }

  /** The sentence of the first `k` words begins the whole sentence. */
  lemma {:induction false} SentencePrefix(words: seq<string>, k: nat)
    requires 1 <= k <= |words|
    ensures |Sentence(words[..k])| <= |Sentence(words)|
    ensures Sentence(words)[..|Sentence(words[..k])|] == Sentence(words[..k])
  {
    if k > 1 {
      SentencePrefix(words[1..], k - 1);
      assert words[..k][1..] == words[1..][..k - 1];
    }
  }

  /** A run of consecutive words, joined by single spaces, occurs in the
      sentence. */
  lemma {:induction false} SentenceContainsRun(words: seq<string>, j: nat, k: nat)
    requires j < k <= |words|
    ensures Contains(Sentence(words), Sentence(words[j..k]))
  {
    if j == 0 {
      SentencePrefix(words, k);
      assert words[..k] == words[j..k];
      ContainsAt(Sentence(words), Sentence(words[j..k]), 0);
    } else {
      SentenceContainsRun(words[1..], j - 1, k - 1);
      assert words[1..][j - 1..k - 1] == words[j..k];
      ContainsInSuffix(words[0] + " ", Sentence(words[1..]), Sentence(words[j..k]));
      assert words[0] + " " + Sentence(words[1..]) == Sentence(words);
    }
  }

  /** A string without a space does not occur in a sentence when each word
      is shorter than it or misses one of its characters: `ks[j]` names
      a character of `p` absent from word `j`. */
  lemma SentenceLacks(words: seq<string>, p: string, ks: seq<nat>)
    requires p != [] && ' ' !in p && |ks| == |words|
    requires forall j :: 0 <= j < |words| ==> ks[j] < |p| && (|words[j]| < |p| || p[ks[j]] !in words[j])
    ensures !Contains(Sentence(words), p)
  {
    if Contains(Sentence(words), p) {
      SentenceContains(words, p);
      var j :| 0 <= j < |words| && Contains(words[j], p);
      ContainsChars(words[j], p, ks[j]);
    }
  }
}
