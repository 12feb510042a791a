/** Ways of taking items from a sequence: keeping some of them in order
    (what a list comprehension with a condition does), and `random.sample`
    and `random.choice`, modelled as a nondeterministic choice of
    positions in the population rather than as a distribution. */
module Sampling {

  /** `a` is `b` with some items left out, the rest in their order. */
  ghost predicate IsSubsequence<T>(a: seq<T>, b: seq<T>) {
    if b == [] then a == []
    else (a != [] && a[|a| - 1] == b[|b| - 1] && IsSubsequence(a[..|a| - 1], b[..|b| - 1]))
         || IsSubsequence(a, b[..|b| - 1])
  }

  lemma {:induction false} SubsequenceItems<T>(a: seq<T>, b: seq<T>)
    requires IsSubsequence(a, b)
    ensures |a| <= |b|
    ensures forall x :: x in a ==> x in b
  {
    if b != [] {
      if a != [] && a[|a| - 1] == b[|b| - 1] && IsSubsequence(a[..|a| - 1], b[..|b| - 1]) {
        SubsequenceItems(a[..|a| - 1], b[..|b| - 1]);
        assert a == a[..|a| - 1] + [a[|a| - 1]];
        assert b == b[..|b| - 1] + [b[|b| - 1]];
      } else {
        SubsequenceItems(a, b[..|b| - 1]);
        assert b == b[..|b| - 1] + [b[|b| - 1]];
      }
    }
  }

  /** Every sequence is a subsequence of itself. */
  lemma {:induction false} SubsequenceReflexive<T>(s: seq<T>)
    ensures IsSubsequence(s, s)
  {
    if s != [] {
      SubsequenceReflexive(s[..|s| - 1]);
    }
  }

  /** No position is chosen twice. */
  predicate Distinct(positions: seq<nat>) {
    forall i, j :: 0 <= i < j < |positions| ==> positions[i] != positions[j]
  }

  /** `picked` is read off `pool` at `positions`. */
  ghost predicate PickedAt<T>(picked: seq<T>, pool: seq<T>, positions: seq<nat>) {
    |positions| == |picked| &&
    forall i :: 0 <= i < |picked| ==> positions[i] < |pool| && picked[i] == pool[positions[i]]
  }

  /** Whatever is picked is an item of the pool. */
  lemma PickedItems<T>(picked: seq<T>, pool: seq<T>, positions: seq<nat>)
    requires PickedAt(picked, pool, positions)
    ensures forall x :: x in picked ==> x in pool
  {
    forall x | x in picked ensures x in pool {
      var i :| 0 <= i < |picked| && picked[i] == x;
      assert pool[positions[i]] == x;
    }
  }

  /** `random.sample(pool, k)` for `0 <= k <= len(pool)`: `k` items from
      `k` distinct positions of `pool`, in the order they were drawn. */
  method Sample<T>(pool: seq<T>, k: nat) returns (picked: seq<T>, ghost positions: seq<nat>)
    requires k <= |pool|
    ensures |picked| == k
    ensures PickedAt(picked, pool, positions) && Distinct(positions)
  {
    var first := seq(k, i => i);
    assert Distinct(first);
    var drawn: seq<nat> :| |drawn| == k && Distinct(drawn) && forall i :: 0 <= i < k ==> drawn[i] < |pool|;
    picked := seq(k, i requires 0 <= i < k => pool[drawn[i]]);
    positions := drawn;
  }

  /** `random.choice(pool)` for a non-empty `pool`: one item of it. */
  method Choice<T>(pool: seq<T>) returns (item: T, ghost position: nat)
    requires pool != []
    ensures position < |pool| && item == pool[position]
  {
    var drawn: nat :| drawn < |pool|;
    item, position := pool[drawn], drawn;
  }
}
