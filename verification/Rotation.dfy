/** Rotations of a list, and the test for them. */
module Rotation {
  import opened Graph
  import opened Sequences

  function Rotate(s: seq<Node>, k: nat): (r: seq<Node>)
    requires k <= |s|
  {
    s[k..] + s[..k]
  }

  ghost predicate IsRotation(a: seq<Node>, b: seq<Node>) {
    exists k :: 0 <= k <= |a| && b == Rotate(a, k)
  }

  lemma RotateTwice(s: seq<Node>, i: nat, j: nat)
    requires i <= |s| && j <= |s|
    ensures Rotate(Rotate(s, i), j) == Rotate(s, if i + j <= |s| then i + j else i + j - |s|)
  {
    var r, n := Rotate(s, i), |s|;
    if i + j <= n {
      assert r[j..] == s[i + j..] + s[..i] && r[..j] == s[i..i + j];
      assert s[..i] + s[i..i + j] == s[..i + j];
    } else {
      var k := i + j - n;
      assert r[j..] == s[k..i] && r[..j] == s[i..] + s[..k];
      assert s[k..i] + s[i..] == s[k..];
    }
  }

  lemma RotationSymmetric(a: seq<Node>, b: seq<Node>)
    requires IsRotation(a, b)
    ensures IsRotation(b, a)
  {
    var k :| 0 <= k <= |a| && b == Rotate(a, k);
    RotateTwice(a, k, |a| - k);
    assert Rotate(a, |a|) == a;
  }

  lemma RotationTransitive(a: seq<Node>, b: seq<Node>, c: seq<Node>)
    requires IsRotation(a, b) && IsRotation(b, c)
    ensures IsRotation(a, c)
  {
    var i :| 0 <= i <= |a| && b == Rotate(a, i);
    var j :| 0 <= j <= |b| && c == Rotate(b, j);
    RotateTwice(a, i, j);
  }

  /** A rotation of an elementary cycle is the same cycle listed from another node. */
  lemma RotatedCycle(es: Edges, c: seq<Node>, k: nat)
    requires IsElementaryCycle(es, c) && k < |c|
    ensures IsElementaryCycle(es, Rotate(c, k))
  {
  }

  lemma Doubled(s: seq<Node>, k: nat)
    requires k <= |s|
    ensures (s + s)[k..k + |s|] == Rotate(s, k)
  {
  }

  /** Python fails on the head of an empty second list, which only equal lengths let it reach. */
  method IsRotated(seq1: seq<Node>, seq2: seq<Node>) returns (r: bool)
    requires |seq1| == |seq2| ==> seq2 != []
    ensures r <==> IsRotation(seq1, seq2)
  {
    if |seq1| != |seq2| {
      return false;
    }
    var n := |seq1|;
    var startIndexes := [];
    var headItem := seq2[0];
    for index1 := 0 to n
      invariant forall k :: k in startIndexes <==> 0 <= k < index1 && seq1[k] == headItem
    {
      if seq1[index1] == headItem {
        startIndexes := startIndexes + [index1];
      }
    }
    var doubleSeq1 := seq1 + seq1;
    for m := 0 to |startIndexes|
      invariant forall k :: k in startIndexes[..m] && 0 <= k <= n ==> Rotate(seq1, k) != seq2
    {
      var index1 := startIndexes[m];
      assert index1 in startIndexes;
      Doubled(seq1, index1);
      if doubleSeq1[index1..index1 + n] == seq2 {
        return true;
      }
      Advance(startIndexes, m);
    }
    assert startIndexes[..|startIndexes|] == startIndexes;
    forall k | 0 <= k <= n
      ensures Rotate(seq1, k) != seq2
    {
      if k == n {
        assert Rotate(seq1, n) == Rotate(seq1, 0);
      }
      if Rotate(seq1, k % n) == seq2 {
        assert seq1[k % n] == headItem;
      }
    }
    return false;
  }
}
