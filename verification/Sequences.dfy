/** Sequences without repetitions, their elements, and how they are put together. */
module Sequences {

  ghost predicate Distinct<T>(s: seq<T>) {
    forall i, j :: 0 <= i < j < |s| ==> s[i] != s[j]
  }

  function Members<T(==)>(s: seq<T>): set<T> {
    set x | x in s
  }

  lemma Regroup<T>(a: seq<T>, b: seq<T>, c: seq<T>)
    ensures a + (b + c) == a + b + c
  {
  }

  lemma LastApart<T>(a: seq<T>, b: seq<T>)
    requires b != []
    ensures var init, last := b[..|b| - 1], b[|b| - 1];
      b == init + [last] && a + b == (a + init) + [last]
  {
  }

  /** One step further along a sequence. */
  lemma Advance<T>(s: seq<T>, j: nat)
    requires j < |s|
    ensures s[j..][0] == s[j] && s[j..][1..] == s[j + 1..]
    ensures s[..j + 1] == s[..j] + [s[j]] && s[..j + 1][..j] == s[..j]
  {
  }

  lemma DistinctConcat<T>(a: seq<T>, b: seq<T>)
    requires Distinct(a) && Distinct(b) && forall i, j :: 0 <= i < |a| && 0 <= j < |b| ==> a[i] != b[j]
    ensures Distinct(a + b)
  {
  }

  // ----- Positions from front to back -----

  /** `s` lists the positions in `a` from front to back. */
  ghost predicate Enumerates(s: seq<nat>, a: set<nat>) {
    && (forall i, j :: 0 <= i < j < |s| ==> s[i] < s[j])
    && (forall k :: 0 <= k < |s| ==> s[k] in a)
    && (forall i :: i in a ==> i in s)
  }

  lemma EnumerateNext(s: seq<nat>, a: set<nat>, n: nat)
    requires Enumerates(s, a) && forall i :: i in a ==> i < n
    ensures Enumerates(s + [n], a + {n})
  {
    assert (s + [n])[|s|] == n;
  }

  lemma {:induction false} EnumerationSize(s: seq<nat>, a: set<nat>)
    requires Enumerates(s, a)
    ensures |s| == |a|
  {
    if s == [] {
      assert a == {};
    } else {
      var init, last := s[..|s| - 1], s[|s| - 1];
      assert s == init + [last];
      EnumerationSize(init, a - {last});
    }
  }
}
