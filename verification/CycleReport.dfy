/** What a sorting failure and the cycle finder tell about the same graph. */
module CycleReport {
  import opened Graph
  import Topsort
  import FindCycles

  lemma CycleNodesAfterCycle(es: Edges, c: seq<Node>, k: nat)
    requires IsElementaryCycle(es, c) && k < |c|
    ensures AfterCycle(es, c[k])
  {
    ElementaryCycleCloses(es, c);
    var tail := c[..k + 1];
    assert IsWalk(es, tail);
    assert CycleReaches(es, c + [c[0]], tail, c[k]);
  }

  /** The children left in a sorting failure keep every cycle of the input and add none, so
      running the cycle finder on them finds what made the sort fail. */
  lemma LeftoverKeepsCycles(pairs: Topsort.Pairs, numParents: map<Node, int>, children: map<Node, seq<Node>>,
        c: seq<Node>)
    requires Topsort.IsLeftover(pairs, numParents, children)
    ensures IsElementaryCycle(Topsort.EdgesOf(pairs), c) <==> IsElementaryCycle(FindCycles.EdgesOf(children), c)
  {
    var all, left := Topsort.EdgesOf(pairs), FindCycles.EdgesOf(children);
    forall p, x ensures (p, x) in left <==> p in numParents && (p, x) in all {
      FindCycles.EdgeIff(children, p, x);
      Topsort.ChildrenOfIff(pairs, p, x);
    }
    if IsElementaryCycle(all, c) {
      forall k | 0 <= k < |c| ensures c[k] in numParents {
        CycleNodesAfterCycle(all, c, k);
      }
    }
  }
}
