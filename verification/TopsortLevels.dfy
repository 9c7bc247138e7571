/** The level-by-level topological sort. The generator is modelled by the list of levels it
    offers and the way it ends. */
module TopsortLevels {
  import opened Graph
  import opened Sequences
  import opened Topsort

  datatype LevelsEnd =
    | StopIteration
    | CycleError(numParents: map<Node, int>, children: map<Node, seq<Node>>)

  function Flatten(levels: seq<seq<Node>>): seq<Node> {
    if levels == [] then []
    else Flatten(levels[..|levels| - 1]) + levels[|levels| - 1]
  }

  // ----- What a level is -----

  /** The nodes still live after `k` levels: those at which a walk of `k` edges ends. */
  ghost predicate LiveAt(es: Edges, nodes: set<Node>, live: set<Node>, k: nat) {
    forall x :: x in live <==> x in nodes && EndsWalk(es, x, k)
  }

  /** Level `k` lists the nodes whose longest incoming walk has `k` edges. */
  ghost predicate IsLevel(es: Edges, nodes: set<Node>, level: seq<Node>, k: nat) {
    && level != [] && Distinct(level)
    && forall x :: x in level <==> x in nodes && LongestWalkTo(es, x, k)
  }

  ghost predicate AreLevels(es: Edges, nodes: set<Node>, levels: seq<seq<Node>>) {
    forall k :: 0 <= k < |levels| ==> IsLevel(es, nodes, levels[k], k)
  }

  lemma StillLive(pairs: Pairs, nodes: set<Node>, live: set<Node>, k: nat, x: Node)
    requires Nodes(pairs) <= nodes && LiveAt(EdgesOf(pairs), nodes, live, k)
    ensures ParentCount(pairs, live, x) > 0 <==> EndsWalk(EdgesOf(pairs), x, k + 1)
  {
    var es := EdgesOf(pairs);
    ParentCountZero(pairs, live, x);
    EndsWalkStep(es, x, k);
    forall p | (p, x) in es ensures p in nodes {
      EdgeEnds(pairs, p, x);
    }
  }

  /** The live nodes without live parents form the next level. */
  lemma NextLevel(pairs: Pairs, nodes: set<Node>, live: set<Node>, k: nat, level: seq<Node>)
    requires Nodes(pairs) <= nodes && LiveAt(EdgesOf(pairs), nodes, live, k)
    requires level != [] && Distinct(level)
    requires forall x :: x in level <==> x in live && ParentCount(pairs, live, x) == 0
    ensures IsLevel(EdgesOf(pairs), nodes, level, k)
    ensures LiveAt(EdgesOf(pairs), nodes, live - Members(level), k + 1)
  {
    var es := EdgesOf(pairs);
    forall x
      ensures x in level <==> x in nodes && LongestWalkTo(es, x, k)
      ensures x in live && x !in level <==> x in nodes && EndsWalk(es, x, k + 1)
    {
      StillLive(pairs, nodes, live, k, x);
      LongestWalkIff(es, x, k);
      if EndsWalk(es, x, k + 1) {
        EndsShorterWalk(es, x, k + 1, k);
      }
    }
  }

  /** A child of a node of the level is live and outside the level. */
  lemma ChildBelowLevel(pairs: Pairs, nodes: set<Node>, live: set<Node>, k: nat, p: Node, c: Node)
    requires Nodes(pairs) <= nodes && LiveAt(EdgesOf(pairs), nodes, live, k)
    requires p in live && c in ChildrenOf(pairs, p)
    ensures c in live && ParentCount(pairs, live, c) > 0
  {
    var es := EdgesOf(pairs);
    ChildrenOfIff(pairs, p, c);
    EdgeEnds(pairs, p, c);
    ParentCountZero(pairs, live, c);
    EndsWalkStep(es, c, k);
    EndsShorterWalk(es, c, k + 1, k);
  }

  /** If no live node lacks a live parent, a cycle reaches exactly the live nodes. */
  lemma NoNextLevel(pairs: Pairs, nodes: set<Node>, live: set<Node>, k: nat)
    requires Nodes(pairs) <= nodes && LiveAt(EdgesOf(pairs), nodes, live, k)
    requires forall x :: x in live ==> ParentCount(pairs, live, x) > 0
    ensures forall x :: x in live <==> AfterCycle(EdgesOf(pairs), x)
    ensures live == {} <==> Acyclic(EdgesOf(pairs))
  {
    var es := EdgesOf(pairs);
    forall x | x in live ensures HasPredecessor(es, live, x) {
      ParentCountZero(pairs, live, x);
    }
    forall x ensures x in live <==> AfterCycle(es, x) {
      if x in live {
        ClosedSetAfterCycle(es, live, x);
      }
      if AfterCycle(es, x) {
        AfterCycleInNodes(pairs, x);
        AfterCycleEndsWalk(es, x, k);
      }
    }
    AcyclicIff(es);
  }

  // ----- The concatenated levels -----

  lemma FlattenAppend(levels: seq<seq<Node>>, level: seq<Node>)
    ensures Flatten(levels + [level]) == Flatten(levels) + level
  {
  }

  /** Every node is either live or listed in a level, not both. */
  ghost predicate Splits(nodes: set<Node>, live: set<Node>, listed: seq<Node>) {
    nodes == live + Members(listed) && live !! Members(listed)
  }

  lemma LevelMoves(nodes: set<Node>, live: set<Node>, listed: seq<Node>, level: seq<Node>)
    requires Splits(nodes, live, listed) && level != [] && Members(level) <= live
    ensures Splits(nodes, live - Members(level), listed + level) && live - Members(level) < live
  {
    assert Members(listed + level) == Members(listed) + Members(level);
    assert level[0] in Members(level);
  }

  lemma {:induction false} FlattenMember(levels: seq<seq<Node>>, i: nat) returns (k: nat)
    requires i < |Flatten(levels)|
    ensures k < |levels| && Flatten(levels)[i] in levels[k]
  {
    var n := |levels| - 1;
    var before := Flatten(levels[..n]);
    if i < |before| {
      k := FlattenMember(levels[..n], i);
    } else {
      k := n;
      assert Flatten(levels)[i] == levels[n][i - |before|];
    }
  }

  /** An edge leads from a level to a later one. */
  lemma EdgeClimbs(es: Edges, p: Node, c: Node, j: nat, k: nat)
    requires (p, c) in es && LongestWalkTo(es, p, j) && LongestWalkTo(es, c, k)
    ensures j < k
  {
    EndsWalkStep(es, c, j);
    var w: seq<Node> :| IsWalk(es, w) && |w| == j + 2 && Last(w) == c;
  }

  lemma {:induction false} LevelsAreTopological(es: Edges, nodes: set<Node>, levels: seq<seq<Node>>)
    requires AreLevels(es, nodes, levels)
    ensures IsTopologicalOrder(es, Flatten(levels))
  {
    if levels != [] {
      var n := |levels| - 1;
      var before, level, all := Flatten(levels[..n]), levels[n], Flatten(levels);
      LevelsAreTopological(es, nodes, levels[..n]);
      forall i, j | 0 <= i <= j < |all|
        ensures (all[j], all[i]) !in es && (i < j ==> all[i] != all[j])
      {
        if j < |before| {
          assert all[i] == before[i] && all[j] == before[j];
        } else {
          assert all[j] == level[j - |before|] && all[j] in level;
          var k := n;
          if i < |before| {
            k := FlattenMember(levels[..n], i);
          } else {
            assert all[i] == level[i - |before|];
          }
          assert IsLevel(es, nodes, levels[k], k) && IsLevel(es, nodes, level, n);
          if (all[j], all[i]) in es {
            EdgeClimbs(es, all[j], all[i], n, k);
          }
        }
      }
    }
  }

  // ----- topsort_levels_core and topsort_levels -----

  /** The loop over the children of a parent just deleted. */
  method DropChildren(ghost pairs: Pairs, ghost live: set<Node>, cs: seq<Node>, numParents0: map<Node, int>)
    returns (numParents: map<Node, int>)
    requires Counts(pairs, live, numParents0, cs)
    requires forall c :: c in cs ==> c in live
    ensures Counts(pairs, live, numParents, [])
  {
    numParents := numParents0;
    for j := 0 to |cs|
      invariant Counts(pairs, live, numParents, cs[j..])
    {
      assert cs[j] in cs && cs[j..][1..] == cs[j + 1..];
      DropChild(pairs, live, numParents, cs[j..]);
      numParents := numParents[cs[j] := numParents[cs[j]] - 1];
    }
  }

  /** One node of a level is deleted and its children lose a parent. */
  method DeleteParent(ghost pairs: Pairs, p: Node, numParents0: map<Node, int>, children0: map<Node, seq<Node>>)
    returns (numParents: map<Node, int>, children: map<Node, seq<Node>>)
    requires p in numParents0 && Describes(pairs, numParents0, children0)
    requires forall c :: c in ChildrenOf(pairs, p) ==> c in numParents0 && c != p
    ensures Describes(pairs, numParents, children) && numParents.Keys == numParents0.Keys - {p}
  {
    ghost var live := numParents0.Keys - {p};
    RetireCounts(pairs, numParents0, p);
    numParents, children := numParents0 - {p}, children0;
    if p in children {
      numParents := DropChildren(pairs, live, children[p], numParents);
      children := children - {p};
    }
    RetireDone(pairs, live, numParents, children);
  }

  /** A whole level is deleted. `below` are the live nodes outside it. */
  method DeleteLevel(ghost pairs: Pairs, level: seq<Node>, ghost below: set<Node>,
        numParents0: map<Node, int>, children0: map<Node, seq<Node>>)
    returns (numParents: map<Node, int>, children: map<Node, seq<Node>>)
    requires Distinct(level) && Describes(pairs, numParents0, children0)
    requires numParents0.Keys == below + Members(level) && below !! Members(level)
    requires forall p, c :: p in level && c in ChildrenOf(pairs, p) ==> c in below
    ensures Describes(pairs, numParents, children) && numParents.Keys == below
  {
    numParents, children := numParents0, children0;
    for m := 0 to |level|
      invariant Describes(pairs, numParents, children)
      invariant numParents.Keys == below + Members(level[m..])
    {
      assert level[m] in level && level[m..] == [level[m]] + level[m + 1..];
      assert below + Members(level[m + 1..]) == numParents.Keys - {level[m]} by {
        assert level[m] in Members(level);
      }
      numParents, children := DeleteParent(pairs, level[m], numParents, children);
    }
  }

  lemma ChildrenBelowLevel(pairs: Pairs, nodes: set<Node>, live: set<Node>, k: nat, level: seq<Node>)
    requires Nodes(pairs) <= nodes && LiveAt(EdgesOf(pairs), nodes, live, k)
    requires forall x :: x in level <==> x in live && ParentCount(pairs, live, x) == 0
    ensures forall p, c :: p in level && c in ChildrenOf(pairs, p) ==> c in live && c !in level
  {
    forall p, c | p in level && c in ChildrenOf(pairs, p)
      ensures c in live && c !in level
    {
      ChildBelowLevel(pairs, nodes, live, k, p, c);
    }
  }

  /** The state between two levels. */
  ghost predicate Between(pairs: Pairs, nodes: set<Node>, levels: seq<seq<Node>>,
        numParents: map<Node, int>, children: map<Node, seq<Node>>)
  {
    && Nodes(pairs) <= nodes
    && AreLevels(EdgesOf(pairs), nodes, levels)
    && Splits(nodes, numParents.Keys, Flatten(levels))
    && LiveAt(EdgesOf(pairs), nodes, numParents.Keys, |levels|)
    && Describes(pairs, numParents, children)
  }

  lemma LevelOffered(pairs: Pairs, nodes: set<Node>, level: seq<Node>, levels: seq<seq<Node>>, live: set<Node>)
    requires Nodes(pairs) <= nodes && level != [] && Distinct(level)
    requires AreLevels(EdgesOf(pairs), nodes, levels) && Splits(nodes, live, Flatten(levels))
    requires LiveAt(EdgesOf(pairs), nodes, live, |levels|)
    requires forall x :: x in level <==> x in live && ParentCount(pairs, live, x) == 0
    ensures AreLevels(EdgesOf(pairs), nodes, levels + [level])
    ensures Members(level) <= live && live - Members(level) < live
    ensures Splits(nodes, live - Members(level), Flatten(levels + [level]))
    ensures LiveAt(EdgesOf(pairs), nodes, live - Members(level), |levels + [level]|)
    ensures forall p, c :: p in level && c in ChildrenOf(pairs, p) ==> c in live - Members(level)
  {
    NextLevel(pairs, nodes, live, |levels|, level);
    ChildrenBelowLevel(pairs, nodes, live, |levels|, level);
    FlattenAppend(levels, level);
    LevelMoves(nodes, live, Flatten(levels), level);
  }

  /** One turn of the main loop: a level is offered and deleted. */
  method OfferLevel(ghost pairs: Pairs, ghost nodes: set<Node>, level: seq<Node>, levels0: seq<seq<Node>>,
        numParents0: map<Node, int>, children0: map<Node, seq<Node>>)
    returns (levels: seq<seq<Node>>, numParents: map<Node, int>, children: map<Node, seq<Node>>)
    requires Between(pairs, nodes, levels0, numParents0, children0) && level != [] && Distinct(level)
    requires forall x :: x in level <==> x in numParents0 && ParentCount(pairs, numParents0.Keys, x) == 0
    ensures Between(pairs, nodes, levels, numParents, children)
    ensures levels == levels0 + [level] && numParents.Keys < numParents0.Keys
  {
    LevelOffered(pairs, nodes, level, levels0, numParents0.Keys);
    levels := levels0 + [level];
    numParents, children := DeleteLevel(pairs, level, numParents0.Keys - Members(level), numParents0, children0);
  }

  lemma NoLevelsYet(pairs: Pairs, numParents: map<Node, int>, children: map<Node, seq<Node>>)
    requires Nodes(pairs) <= numParents.Keys && Describes(pairs, numParents, children)
    ensures Between(pairs, numParents.Keys, [], numParents, children)
  {
    forall x ensures EndsWalk(EdgesOf(pairs), x, 0) {
      EndsWalkZero(EdgesOf(pairs), x);
    }
  }

  lemma AllLevels(pairs: Pairs, nodes: set<Node>, levels: seq<seq<Node>>,
        numParents: map<Node, int>, children: map<Node, seq<Node>>)
    requires Between(pairs, nodes, levels, numParents, children)
    requires forall x :: x in numParents ==> numParents[x] != 0
    ensures OrdersTheRest(EdgesOf(pairs), nodes, Flatten(levels)) && IsLeftover(pairs, numParents, children)
    ensures numParents == map[] <==> Acyclic(EdgesOf(pairs))
  {
    LevelsAreTopological(EdgesOf(pairs), nodes, levels);
    NoNextLevel(pairs, nodes, numParents.Keys, |levels|);
    forall x ensures x in Flatten(levels) <==> x in nodes && !AfterCycle(EdgesOf(pairs), x) {
      assert x in Flatten(levels) <==> x in Members(Flatten(levels));
    }
  }

  /** `numParents0` and `children0` may mention nodes that no pair does. */
  method TopsortLevelsCore(ghost pairs: Pairs, numParents0: map<Node, int>, children0: map<Node, seq<Node>>)
    returns (levels: seq<seq<Node>>, end: LevelsEnd)
    requires Nodes(pairs) <= numParents0.Keys && Describes(pairs, numParents0, children0)
    ensures AreLevels(EdgesOf(pairs), numParents0.Keys, levels)
    ensures OrdersTheRest(EdgesOf(pairs), numParents0.Keys, Flatten(levels))
    ensures end.StopIteration? <==> Acyclic(EdgesOf(pairs))
    ensures end.CycleError? ==> IsLeftover(pairs, end.numParents, end.children)
  {
    var numParents, children := numParents0, children0;
    levels := [];
    NoLevelsYet(pairs, numParents, children);
    while true
      invariant Between(pairs, numParents0.Keys, levels, numParents, children)
      decreases numParents.Keys
    {
      var level := ParentlessKeys(numParents);
      if level == [] {
        break;
      }
      levels, numParents, children := OfferLevel(pairs, numParents0.Keys, level, levels, numParents, children);
    }
    AllLevels(pairs, numParents0.Keys, levels, numParents, children);
    if numParents != map[] {
      end := LevelsEnd.CycleError(numParents, children);
    } else {
      end := StopIteration;
    }
  }

  /** The two halves of the generator together: level `k` lists exactly the elements whose
      longest chain of ancestors has `k` links and that no cycle reaches. */
  method TopsortLevels(pairs: Pairs) returns (levels: seq<seq<Node>>, end: LevelsEnd)
    ensures AreLevels(EdgesOf(pairs), Nodes(pairs), levels)
    ensures OrdersTheRest(EdgesOf(pairs), Nodes(pairs), Flatten(levels))
    ensures end.StopIteration? <==> Acyclic(EdgesOf(pairs))
    ensures end.CycleError? ==> IsLeftover(pairs, end.numParents, end.children)
  {
    var numParents, children := CountParents(pairs);
    levels, end := TopsortLevelsCore(pairs, numParents, children);
  }
}
