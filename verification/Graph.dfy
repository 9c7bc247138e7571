/** Finite directed graphs given by their edges: walks, cycles, and the facts about them
    that the sorting and cycle-finding algorithms rest on. */
module Graph {
  import opened Sequences

  /** A graph element. Any hashable value will do, so nothing is assumed about it. */
  type Node(==, !new)

  type Edges = set<(Node, Node)>

  // ----- Walks -----

  ghost predicate IsWalk(es: Edges, w: seq<Node>) {
    w != [] && forall i, j :: 0 <= i < |w| && j == i + 1 < |w| ==> (w[i], w[j]) in es
  }

  function Last(w: seq<Node>): Node
    requires w != []
  {
    w[|w| - 1]
  }

  /** Some walk of exactly `k` edges ends at `x`. */
  ghost predicate EndsWalk(es: Edges, x: Node, k: nat) {
    exists w: seq<Node> :: IsWalk(es, w) && |w| == k + 1 && Last(w) == x
  }

  /** `k` is the number of edges on the longest walk ending at `x`. */
  ghost predicate LongestWalkTo(es: Edges, x: Node, k: nat) {
    && EndsWalk(es, x, k)
    && forall w: seq<Node> :: IsWalk(es, w) && Last(w) == x ==> |w| <= k + 1
  }

  // ----- Cycles -----

  ghost predicate IsClosedWalk(es: Edges, w: seq<Node>) {
    IsWalk(es, w) && |w| >= 2 && w[0] == Last(w)
  }

  ghost predicate Acyclic(es: Edges) {
    forall w: seq<Node> :: !IsClosedWalk(es, w)
  }

  /** `tail` leads from a node of the closed walk `cycle` to `x`. */
  ghost predicate CycleReaches(es: Edges, cycle: seq<Node>, tail: seq<Node>, x: Node) {
    IsClosedWalk(es, cycle) && IsWalk(es, tail) && tail[0] == cycle[0] && Last(tail) == x
  }

  /** `x` lies on a cycle or can be reached from one. */
  ghost predicate AfterCycle(es: Edges, x: Node) {
    exists cycle: seq<Node>, tail: seq<Node> :: CycleReaches(es, cycle, tail, x)
  }

  /** An elementary cycle, listed from any of its nodes; the edge from the last node back to
      the first is implicit. */
  ghost predicate IsElementaryCycle(es: Edges, c: seq<Node>) {
    IsWalk(es, c) && Distinct(c) && (Last(c), c[0]) in es
  }

  /** The nodes of `order` are distinct and no edge between two of them points backwards. */
  ghost predicate IsTopologicalOrder(es: Edges, order: seq<Node>) {
    && Distinct(order)
    && forall i, j :: 0 <= i < |order| && 0 <= j < |order| && (order[i], order[j]) in es ==> i < j
  }

  // ----- Facts about walks -----

  lemma WalkStep(es: Edges, w: seq<Node>, x: Node)
    requires IsWalk(es, w) && (Last(w), x) in es
    ensures IsWalk(es, w + [x]) && Last(w + [x]) == x
  {
  }

  lemma EndsWalkStep(es: Edges, x: Node, k: nat)
    ensures EndsWalk(es, x, k + 1) <==> exists p :: (p, x) in es && EndsWalk(es, p, k)
  {
    if EndsWalk(es, x, k + 1) {
      var w: seq<Node> :| IsWalk(es, w) && |w| == k + 2 && Last(w) == x;
      var v := w[..k + 1];
      assert IsWalk(es, v) && |v| == k + 1 && Last(v) == w[k];
      assert (w[k], w[k + 1]) in es;
      assert EndsWalk(es, w[k], k);
    }
    if p :| (p, x) in es && EndsWalk(es, p, k) {
      var w: seq<Node> :| IsWalk(es, w) && |w| == k + 1 && Last(w) == p;
      WalkStep(es, w, x);
    }
  }

  lemma EndsWalkZero(es: Edges, x: Node)
    ensures EndsWalk(es, x, 0)
  {
    assert IsWalk(es, [x]) && Last([x]) == x;
  }

  /** Dropping the first node shortens a walk. */
  lemma {:induction false} EndsShorterWalk(es: Edges, x: Node, k: nat, m: nat)
    requires EndsWalk(es, x, k) && m <= k
    ensures EndsWalk(es, x, m)
  {
    var w: seq<Node> :| IsWalk(es, w) && |w| == k + 1 && Last(w) == x;
    var v := w[k - m..];
    assert IsWalk(es, v) && |v| == m + 1 && Last(v) == x;
  }

  /** The length of a longest walk, in terms of the lengths walks have. */
  lemma LongestWalkIff(es: Edges, x: Node, k: nat)
    ensures LongestWalkTo(es, x, k) <==> EndsWalk(es, x, k) && !EndsWalk(es, x, k + 1)
  {
    if EndsWalk(es, x, k) && !EndsWalk(es, x, k + 1) {
      forall w: seq<Node> | IsWalk(es, w) && Last(w) == x
        ensures |w| <= k + 1
      {
        if |w| > k + 1 {
          assert EndsWalk(es, x, |w| - 1);
          EndsShorterWalk(es, x, |w| - 1, k + 1);
        }
      }
    }
  }

  // ----- Sets in which every node has a predecessor -----

  ghost predicate HasPredecessor(es: Edges, s: set<Node>, x: Node) {
    exists p :: p in s && (p, x) in es
  }

  ghost predicate PredecessorClosed(es: Edges, s: set<Node>) {
    forall x {:trigger HasPredecessor(es, s, x)} :: x in s ==> HasPredecessor(es, s, x)
  }

  lemma PredecessorIn(es: Edges, s: set<Node>, x: Node) returns (p: Node)
    requires PredecessorClosed(es, s) && x in s
    ensures p in s && (p, x) in es
  {
    assert HasPredecessor(es, s, x);
    p :| p in s && (p, x) in es;
  }

  lemma {:induction false} Pigeonhole(w: seq<Node>, s: set<Node>)
    requires (forall i :: 0 <= i < |w| ==> w[i] in s) && |w| > |s|
    ensures !Distinct(w)
  {
    if Distinct(w) {
      var v := w[..|w| - 1];
      Pigeonhole(v, s - {Last(w)});
    }
  }

  lemma {:induction false} WalkInside(es: Edges, s: set<Node>, x: Node, k: nat)
    returns (w: seq<Node>)
    requires PredecessorClosed(es, s) && x in s
    ensures IsWalk(es, w) && |w| == k + 1 && Last(w) == x && forall i :: 0 <= i < |w| ==> w[i] in s
  {
    if k == 0 {
      w := [x];
    } else {
      var p := PredecessorIn(es, s, x);
      var v := WalkInside(es, s, p, k - 1);
      w := v + [x];
    }
  }

  /** A cycle reaches every node of a finite predecessor-closed set. */
  lemma ClosedSetAfterCycle(es: Edges, s: set<Node>, x: Node)
    requires PredecessorClosed(es, s) && x in s
    ensures AfterCycle(es, x)
  {
    var w := WalkInside(es, s, x, |s|);
    Pigeonhole(w, s);
    var i, j :| 0 <= i < j < |w| && w[i] == w[j];
    var cycle, tail := w[i..j + 1], w[i..];
    assert CycleReaches(es, cycle, tail, x);
  }

  /** A node that a cycle reaches belongs to such a set. */
  lemma AfterCycleClosedSet(es: Edges, x: Node) returns (s: set<Node>)
    requires AfterCycle(es, x)
    ensures PredecessorClosed(es, s) && x in s
  {
    var cycle: seq<Node>, tail: seq<Node> :| CycleReaches(es, cycle, tail, x);
    s := (set y | y in cycle) + (set y | y in tail);
    forall y | y in s
      ensures HasPredecessor(es, s, y)
    {
      if i :| 0 < i < |tail| && tail[i] == y {
        assert (tail[i - 1], tail[i]) in es && tail[i - 1] in s;
      } else {
        var i :| 0 < i < |cycle| && cycle[i] == y;
        assert (cycle[i - 1], cycle[i]) in es && cycle[i - 1] in s;
      }
    }
  }

  /** Walks of every length end at a node that a cycle reaches. */
  lemma AfterCycleEndsWalk(es: Edges, x: Node, k: nat)
    requires AfterCycle(es, x)
    ensures EndsWalk(es, x, k)
  {
    var s := AfterCycleClosedSet(es, x);
    var w := WalkInside(es, s, x, k);
  }

  lemma AcyclicIff(es: Edges)
    ensures Acyclic(es) <==> forall x :: !AfterCycle(es, x)
  {
    if w: seq<Node> :| IsClosedWalk(es, w) {
      assert CycleReaches(es, w, [w[0]], w[0]);
      assert AfterCycle(es, w[0]);
    }
    if !forall x :: !AfterCycle(es, x) {
      var x :| AfterCycle(es, x);
      var cycle: seq<Node>, tail: seq<Node> :| CycleReaches(es, cycle, tail, x);
      assert IsClosedWalk(es, cycle);
    }
  }

  // ----- Elementary cycles -----

  /** Every closed walk contains an elementary cycle. */
  lemma {:induction false} ClosedWalkHasElementaryCycle(es: Edges, w: seq<Node>) returns (c: seq<Node>)
    requires IsClosedWalk(es, w)
    ensures IsElementaryCycle(es, c)
    decreases |w|
  {
    c := w[..|w| - 1];
    assert IsWalk(es, c) && (w[|w| - 2], w[|w| - 1]) in es;
    if !Distinct(c) {
      var i, j :| 0 <= i < j < |c| && c[i] == c[j];
      var v := w[i..j + 1];
      c := ClosedWalkHasElementaryCycle(es, v);
    }
  }

  lemma ElementaryCycleCloses(es: Edges, c: seq<Node>)
    requires IsElementaryCycle(es, c)
    ensures IsClosedWalk(es, c + [c[0]])
  {
  }

  lemma AcyclicNoElementaryCycle(es: Edges)
    ensures Acyclic(es) <==> forall c: seq<Node> :: !IsElementaryCycle(es, c)
  {
    if c: seq<Node> :| IsElementaryCycle(es, c) {
      ElementaryCycleCloses(es, c);
    }
    if w: seq<Node> :| IsClosedWalk(es, w) {
      var c := ClosedWalkHasElementaryCycle(es, w);
    }
  }
}
