/** All permutations of a list, by inserting its first item everywhere. */
module Permutations {
  import opened Sequences

  function Factorial(n: nat): nat {
    if n == 0 then 1 else n * Factorial(n - 1)
  }

  function Insert<T>(s: seq<T>, i: nat, x: T): (r: seq<T>)
    requires i <= |s|
  {
    s[..i] + [x] + s[i..]
  }

  /** `x` inserted into `s` at each of the first `n` positions. */
  function Insertions<T>(x: T, s: seq<T>, n: nat): seq<seq<T>>
    requires n <= |s| + 1
  {
    if n == 0 then [] else Insertions(x, s, n - 1) + [Insert(s, n - 1, x)]
  }

  /** `x` inserted everywhere into each of the lists of length `m`. */
  function InsertAll<T>(x: T, subs: seq<seq<T>>, m: nat): seq<seq<T>>
    requires forall k :: 0 <= k < |subs| ==> |subs[k]| == m
  {
    if subs == [] then []
    else
      var n := |subs| - 1;
      InsertAll(x, subs[..n], m) + Insertions(x, subs[n], m + 1)
  }

  function Perms<T>(s: seq<T>): (r: seq<seq<T>>)
    ensures forall k :: 0 <= k < |r| ==> |r[k]| == |s|
  {
    if |s| <= 1 then [s]
    else
      InsertAllLength(s[0], Perms(s[1..]), |s| - 1);
      InsertAll(s[0], Perms(s[1..]), |s| - 1)
  }

  lemma {:induction false} InsertionsLength<T>(x: T, s: seq<T>, n: nat)
    requires n <= |s| + 1
    ensures |Insertions(x, s, n)| == n
    ensures forall k :: 0 <= k < n ==> Insertions(x, s, n)[k] == Insert(s, k, x)
  {
    if n > 0 {
      InsertionsLength(x, s, n - 1);
    }
  }

  lemma OneMore(n: nat, m: nat)
    ensures (n + 1) * m == n * m + m
  {
  }

  lemma InsertAllStep<T>(x: T, subs: seq<seq<T>>, m: nat) returns (last: seq<seq<T>>)
    requires subs != [] && forall k :: 0 <= k < |subs| ==> |subs[k]| == m
    ensures InsertAll(x, subs, m) == InsertAll(x, subs[..|subs| - 1], m) + last
    ensures |last| == m + 1 && forall k :: 0 <= k <= m ==> |last[k]| == m + 1
  {
    last := Insertions(x, subs[|subs| - 1], m + 1);
    InsertionsLength(x, subs[|subs| - 1], m + 1);
    hide Insertions;
  }

  lemma {:induction false} InsertAllLength<T>(x: T, subs: seq<seq<T>>, m: nat)
    requires forall k :: 0 <= k < |subs| ==> |subs[k]| == m
    ensures forall k :: 0 <= k < |InsertAll(x, subs, m)| ==> |InsertAll(x, subs, m)[k]| == m + 1
  {
    if subs != [] {
      hide *;
      var _ := InsertAllStep(x, subs, m);
      InsertAllLength(x, subs[..|subs| - 1], m);
    }
  }

  lemma {:induction false} InsertAllCount<T>(x: T, subs: seq<seq<T>>, m: nat)
    requires forall k :: 0 <= k < |subs| ==> |subs[k]| == m
    ensures |InsertAll(x, subs, m)| == |subs| * (m + 1)
  {
    if subs != [] {
      hide *;
      var _ := InsertAllStep(x, subs, m);
      InsertAllCount(x, subs[..|subs| - 1], m);
      OneMore(|subs| - 1, m + 1);
    }
  }

  lemma {:induction false} PermsCount<T>(s: seq<T>)
    ensures |Perms(s)| == Factorial(|s|)
  {
    if |s| > 1 {
      PermsCount(s[1..]);
      InsertAllCount(s[0], Perms(s[1..]), |s| - 1);
    } else {
      assert Factorial(1) == 1;
    }
  }

  // ----- In which order -----

  lemma {:induction false} InsertAllAt<T>(x: T, subs: seq<seq<T>>, m: nat, k: nat, i: nat)
    requires (forall j :: 0 <= j < |subs| ==> |subs[j]| == m) && k < |subs| && i <= m
    ensures 0 <= k * (m + 1) + i < |InsertAll(x, subs, m)|
    ensures InsertAll(x, subs, m)[k * (m + 1) + i] == Insert(subs[k], i, x)
  {
    var n := |subs| - 1;
    InsertAllCount(x, subs[..n], m);
    InsertionsLength(x, subs[n], m + 1);
    if k < n {
      InsertAllAt(x, subs[..n], m, k, i);
    }
  }

  lemma PermsOfOne<T>(s: seq<T>)
    requires |s| == 1
    ensures Perms(s[1..]) == [[]] && Perms(s) == InsertAll(s[0], [[]], 0)
  {
    InsertAllCount(s[0], [[]], 0);
    InsertAllAt(s[0], [[]], 0, 0, 0);
    assert s == [s[0]] == Insert([], 0, s[0]);
    hide InsertAll;
  }

  lemma PermsUnrolled<T>(s: seq<T>, m: nat)
    requires |s| == m + 1
    ensures forall k :: 0 <= k < |Perms(s[1..])| ==> |Perms(s[1..])[k]| == m
    ensures Perms(s) == InsertAll(s[0], Perms(s[1..]), m)
  {
    if m == 0 {
      PermsOfOne(s);
    }
    hide InsertAll;
  }

  /** The first item goes to every position of the first permutation of the rest, then of the second,
      and so on. */
  lemma PermsInOrder<T>(s: seq<T>, k: nat, i: nat, m: nat)
    requires |s| == m + 1 && i <= m && k < |Perms(s[1..])|
    ensures 0 <= k * (m + 1) + i < |Perms(s)| && |Perms(s[1..])[k]| == m
    ensures Perms(s)[k * (m + 1) + i] == Perms(s[1..])[k][..i] + [s[0]] + Perms(s[1..])[k][i..]
  {
    hide Perms, InsertAll;
    PermsUnrolled(s, m);
    InsertAllAt(s[0], Perms(s[1..]), m, k, i);
  }

  // ----- Which lists occur -----

  /** `p` is one of the lists with `x` inserted somewhere. */
  ghost predicate InsertedInto<T>(x: T, subs: seq<seq<T>>, p: seq<T>) {
    exists k, i :: 0 <= k < |subs| && 0 <= i <= |subs[k]| && p == Insert(subs[k], i, x)
  }

  lemma {:induction false} InsertAllIff<T>(x: T, subs: seq<seq<T>>, m: nat, p: seq<T>)
    requires forall k :: 0 <= k < |subs| ==> |subs[k]| == m
    ensures p in InsertAll(x, subs, m) <==> InsertedInto(x, subs, p)
  {
    if subs != [] {
      var n := |subs| - 1;
      var last := subs[n];
      var ins := Insertions(x, last, m + 1);
      assert InsertAll(x, subs, m) == InsertAll(x, subs[..n], m) + ins;
      InsertAllIff(x, subs[..n], m, p);
      InsertionsLength(x, last, m + 1);
      hide Insertions, InsertAll, Insert;
      if i: nat :| i <= m && p == Insert(last, i, x) {
        assert ins[i] == p;
      }
    }
  }

  lemma InsertMultiset<T>(s: seq<T>, i: nat, x: T)
    requires i <= |s|
    ensures multiset(Insert(s, i, x)) == multiset(s) + multiset{x}
  {
    assert s == s[..i] + s[i..];
  }

  /** Taking out an occurrence of `x`. */
  lemma TakeOut<T>(p: seq<T>, x: T) returns (sub: seq<T>, i: nat)
    requires x in multiset(p)
    ensures i <= |sub| && p == Insert(sub, i, x) && multiset(sub) == multiset(p) - multiset{x}
  {
    i :| 0 <= i < |p| && p[i] == x;
    sub := p[..i] + p[i + 1..];
    assert p == Insert(sub, i, x);
    InsertMultiset(sub, i, x);
  }

  lemma FirstAndRest<T>(s: seq<T>)
    requires s != []
    ensures multiset(s) == multiset(s[1..]) + multiset{s[0]}
  {
    assert s == [s[0]] + s[1..];
  }

  lemma {:induction false} PermsAreArrangements<T>(s: seq<T>, p: seq<T>)
    requires p in Perms(s)
    ensures multiset(p) == multiset(s)
  {
    if |s| > 1 {
      var subs := Perms(s[1..]);
      assert Perms(s) == InsertAll(s[0], subs, |s| - 1);
      hide Perms, InsertAll;
      InsertAllIff(s[0], subs, |s| - 1, p);
      var k, i :| 0 <= k < |subs| && 0 <= i <= |subs[k]| && p == Insert(subs[k], i, s[0]);
      PermsAreArrangements(s[1..], subs[k]);
      InsertMultiset(subs[k], i, s[0]);
      FirstAndRest(s);
    }
  }

  /** The first item inserted anywhere into a permutation of the others. */
  lemma InsertedIsPerm<T>(s: seq<T>, sub: seq<T>, i: nat)
    requires |s| > 1 && sub in Perms(s[1..]) && i <= |sub|
    ensures Insert(sub, i, s[0]) in Perms(s)
  {
    var subs := Perms(s[1..]);
    var k :| 0 <= k < |subs| && subs[k] == sub;
    assert InsertedInto(s[0], subs, Insert(sub, i, s[0]));
    InsertAllIff(s[0], subs, |s| - 1, Insert(sub, i, s[0]));
  }

  lemma {:induction false} ArrangementsArePerms<T>(s: seq<T>, p: seq<T>)
    requires multiset(p) == multiset(s)
    ensures p in Perms(s)
  {
    if |s| <= 1 {
      SmallArrangement(s, p);
    } else {
      FirstAndRest(s);
      var sub, i := TakeOut(p, s[0]);
      assert multiset(sub) == multiset(s[1..]);
      ArrangementsArePerms(s[1..], sub);
      InsertedIsPerm(s, sub, i);
      hide Perms, Insert;
    }
  }

  /** The lists produced are exactly the arrangements of the input. */
  lemma PermsIff<T>(s: seq<T>, p: seq<T>)
    ensures p in Perms(s) <==> multiset(p) == multiset(s)
  {
    if p in Perms(s) {
      PermsAreArrangements(s, p);
    }
    if multiset(p) == multiset(s) {
      ArrangementsArePerms(s, p);
    }
  }

  lemma SmallArrangement<T>(s: seq<T>, p: seq<T>)
    requires |s| <= 1
    ensures p == s <==> multiset(p) == multiset(s)
  {
  }

  // ----- No repetitions -----

  /** A new item is found where it was inserted and nowhere else. */
  lemma OnlyAt<T>(a: seq<T>, i: nat, x: T, k: nat)
    requires i <= |a| && x !in a && k <= |a|
    ensures Insert(a, i, x)[k] == x <==> k == i
  {
  }

  /** Inserting a new item in two ways gives two lists. */
  lemma InsertInjective<T>(a: seq<T>, i: nat, b: seq<T>, j: nat, x: T)
    requires i <= |a| && j <= |b| && x !in a && x !in b
    requires Insert(a, i, x) == Insert(b, j, x)
    ensures i == j && a == b
  {
    var p := Insert(a, i, x);
    assert |p| == |a| + 1 == |b| + 1;
    OnlyAt(a, i, x, i);
    OnlyAt(b, j, x, i);
    assert a == p[..i] + p[i + 1..] && b == p[..j] + p[j + 1..];
  }

  lemma InsertionsDistinct<T>(x: T, s: seq<T>)
    requires x !in s
    ensures Distinct(Insertions(x, s, |s| + 1))
  {
    var ins := Insertions(x, s, |s| + 1);
    InsertionsLength(x, s, |s| + 1);
    hide Insertions;
    forall i, j | 0 <= i < j < |ins| ensures ins[i] != ins[j] {
      if ins[i] == ins[j] {
        InsertInjective(s, i, s, j, x);
      }
    }
  }

  /** What comes of a list is not among what comes of others. */
  lemma InsertionsApart<T>(x: T, subs: seq<seq<T>>, m: nat, s: seq<T>, p: seq<T>)
    requires forall k :: 0 <= k < |subs| ==> |subs[k]| == m && x !in subs[k] && subs[k] != s
    requires x !in s && p in Insertions(x, s, |s| + 1)
    ensures p !in InsertAll(x, subs, m)
  {
    InsertionsLength(x, s, |s| + 1);
    InsertAllIff(x, subs, m, p);
    hide Insertions, InsertAll;
    if p in InsertAll(x, subs, m) {
      var h, k :| 0 <= h < |subs| && 0 <= k <= |subs[h]| && p == Insert(subs[h], k, x);
      var j :| 0 <= j <= |s| && p == Insert(s, j, x);
      InsertInjective(subs[h], k, s, j, x);
    }
  }

  lemma {:induction false} InsertAllNoRepeats<T>(x: T, subs: seq<seq<T>>, m: nat)
    requires forall k :: 0 <= k < |subs| ==> |subs[k]| == m && x !in subs[k]
    requires Distinct(subs)
    ensures Distinct(InsertAll(x, subs, m))
  {
    if subs != [] {
      var n := |subs| - 1;
      var before, ins := InsertAll(x, subs[..n], m), Insertions(x, subs[n], m + 1);
      assert InsertAll(x, subs, m) == before + ins;
      assert Distinct(subs[..n]) && forall k :: 0 <= k < n ==> subs[..n][k] != subs[n];
      hide *;
      InsertAllNoRepeats(x, subs[..n], m);
      InsertionsDistinct(x, subs[n]);
      forall i, j | 0 <= i < |before| && 0 <= j < |ins| ensures before[i] != ins[j] {
        InsertionsApart(x, subs[..n], m, subs[n], ins[j]);
      }
      DistinctConcat(before, ins);
    }
  }

  /** A list without repetitions has no arrangement twice. */
  lemma {:induction false} PermsNoRepeats<T>(s: seq<T>)
    requires Distinct(s)
    ensures Distinct(Perms(s))
  {
    if |s| > 1 {
      var rest := s[1..];
      PermsNoRepeats(rest);
      forall k | 0 <= k < |Perms(rest)| ensures s[0] !in Perms(rest)[k] {
        PermsIff(rest, Perms(rest)[k]);
        assert multiset(rest)[s[0]] == 0;
      }
      InsertAllNoRepeats(s[0], Perms(rest), |rest|);
    }
  }

  // ----- permutations -----

  /** The inner loop, over the positions of one list. */
  method InsertEverywhere<T>(item: T, subList: seq<T>, outLists0: seq<seq<T>>) returns (outLists: seq<seq<T>>)
    ensures outLists == outLists0 + Insertions(item, subList, |subList| + 1)
  {
    outLists := outLists0;
    for i := 0 to |subList| + 1
      invariant outLists == outLists0 + Insertions(item, subList, i)
    {
      outLists := outLists + [subList[..i] + [item] + subList[i..]];
    }
  }

  lemma InsertAllNext<T>(x: T, subs: seq<seq<T>>, k: nat, m: nat)
    requires k < |subs| && forall j :: 0 <= j < |subs| ==> |subs[j]| == m
    ensures InsertAll(x, subs[..k + 1], m) == InsertAll(x, subs[..k], m) + Insertions(x, subs[k], m + 1)
  {
    assert subs[..k + 1][..k] == subs[..k];
  }

  method PermutationsOf<T>(inputList: seq<T>) returns (outLists: seq<seq<T>>)
    ensures outLists == Perms(inputList)
  {
    outLists := [];
    if |inputList| > 1 {
      var item := inputList[0];
      var subLists := PermutationsOf(inputList[1..]);
      hide InsertAll, Insertions;
      for k := 0 to |subLists|
        invariant outLists == InsertAll(item, subLists[..k], |inputList| - 1)
      {
        InsertAllNext(item, subLists, k, |inputList| - 1);
        outLists := InsertEverywhere(item, subLists[k], outLists);
      }
      assert subLists[..|subLists|] == subLists;
    } else {
      outLists := [inputList];
    }
  }
}
