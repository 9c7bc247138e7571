/** Totals over the elements of a sequence. */
module Sums {

  function Sum<T>(s: seq<T>, f: T -> nat): nat {
    if s == [] then 0 else f(s[0]) + Sum(s[1..], f)
  }

  lemma {:induction false} SumAppend<T>(s: seq<T>, x: T, f: T -> nat)
    ensures Sum(s + [x], f) == Sum(s, f) + f(x)
  {
    if s != [] {
      assert (s + [x])[1..] == s[1..] + [x];
      SumAppend(s[1..], x, f);
    }
  }

  lemma {:induction false} SumUpdate<T>(s: seq<T>, i: nat, x: T, f: T -> nat)
    requires i < |s|
    ensures Sum(s[i := x], f) + f(s[i]) == Sum(s, f) + f(x)
  {
    if i > 0 {
      assert s[i := x][1..] == s[1..][i - 1 := x];
      SumUpdate(s[1..], i - 1, x, f);
    } else {
      assert s[i := x][1..] == s[1..];
    }
  }

  lemma {:induction false} SumZero<T>(s: seq<T>, f: T -> nat)
    ensures Sum(s, f) == 0 <==> forall i :: 0 <= i < |s| ==> f(s[i]) == 0
  {
    if s != [] {
      SumZero(s[1..], f);
      assert forall i :: 0 < i < |s| ==> s[i] == s[1..][i - 1];
    }
  }

  lemma {:induction false} SumOnes<T>(s: seq<T>, f: T -> nat)
    requires forall i :: 0 <= i < |s| ==> f(s[i]) == 1
    ensures Sum(s, f) == |s|
  {
    if s != [] {
      SumOnes(s[1..], f);
    }
  }

  /** Terms of at most one fall short of the length when one of them is zero. */
  lemma {:induction false} SumShort<T>(s: seq<T>, f: T -> nat, z: nat)
    requires z < |s| && f(s[z]) == 0 && forall i :: 0 <= i < |s| ==> f(s[i]) <= 1
    ensures Sum(s, f) < |s|
  {
    if z > 0 {
      SumShort(s[1..], f, z - 1);
    } else {
      SumBound(s[1..], f);
    }
  }

  lemma {:induction false} SumBound<T>(s: seq<T>, f: T -> nat)
    requires forall i :: 0 <= i < |s| ==> f(s[i]) <= 1
    ensures Sum(s, f) <= |s|
  {
    if s != [] {
      SumBound(s[1..], f);
    }
  }

  lemma {:induction false} SumSame<T>(s: seq<T>, f: T -> nat, g: T -> nat)
    requires forall i :: 0 <= i < |s| ==> f(s[i]) == g(s[i])
    ensures Sum(s, f) == Sum(s, g)
  {
    if s != [] {
      SumSame(s[1..], f, g);
    }
  }

  // ----- Counting positions -----

  ghost function Where<T>(s: seq<T>, p: T -> bool): set<nat> {
    set i: nat | i < |s| && p(s[i])
  }

  /** The positions in a sequence are the first one, if it qualifies, and those in the rest,
      each moved on by one. */
  lemma WhereStep<T>(s: seq<T>, p: T -> bool)
    requires s != []
    ensures |Where(s, p)| == (if p(s[0]) then 1 else 0) + |Where(s[1..], p)|
  {
    var moved := set i | i in Where(s[1..], p) :: i + 1;
    MovedSize(Where(s[1..], p), moved);
    assert Where(s, p) - {0} == moved by {
      forall i | i in Where(s, p) && i != 0 ensures i in moved {
        assert i - 1 in Where(s[1..], p);
      }
    }
    if p(s[0]) {
      assert Where(s, p) == {0} + moved;
    } else {
      assert Where(s, p) == moved;
    }
  }

  lemma {:induction false} MovedSize(a: set<nat>, moved: set<nat>)
    requires moved == set i | i in a :: i + 1
    ensures |moved| == |a|
  {
    if x :| x in a {
      var smaller := moved - {x + 1};
      assert forall y :: y in smaller ==> y - 1 in a - {x};
      MovedSize(a - {x}, smaller);
    }
  }

  /** Adding ones counts positions. */
  lemma {:induction false} SumIsCount<T>(s: seq<T>, f: T -> nat, p: T -> bool)
    requires forall i :: 0 <= i < |s| ==> f(s[i]) == if p(s[i]) then 1 else 0
    ensures Sum(s, f) == |Where(s, p)|
  {
    if s != [] {
      SumIsCount(s[1..], f, p);
      WhereStep(s, p);
    }
  }
}
