/** Kahn's topological sort of a list of (parent, child) pairs, whole and by levels. */
module Topsort {
  import opened Graph
  import opened Sequences

  type Pairs = seq<(Node, Node)>

  function EdgesOf(pairs: Pairs): Edges {
    set e | e in pairs
  }

  /** Every element that some pair mentions. */
  function Nodes(pairs: Pairs): set<Node> {
    if pairs == [] then {}
    else
      var (parent, child) := pairs[|pairs| - 1];
      Nodes(pairs[..|pairs| - 1]) + {parent, child}
  }

  // ----- What the two dictionaries hold -----

  /** The children listed for `p`, in pair order and with repetitions. */
  function ChildrenOf(pairs: Pairs, p: Node): seq<Node> {
    if pairs == [] then []
    else
      var (parent, child) := pairs[|pairs| - 1];
      ChildrenOf(pairs[..|pairs| - 1], p) + (if parent == p then [child] else [])
  }

  /** How many pairs give `x` a parent in `live`. */
  function ParentCount(pairs: Pairs, live: set<Node>, x: Node): nat {
    if pairs == [] then 0
    else
      var (parent, child) := pairs[|pairs| - 1];
      ParentCount(pairs[..|pairs| - 1], live, x) + (if parent in live && child == x then 1 else 0)
  }

  function Lookup(children: map<Node, seq<Node>>, p: Node): seq<Node> {
    if p in children then children[p] else []
  }

  /** The dictionaries describe the pairs whose parents are still live, and the nodes that are. */
  ghost predicate Describes(pairs: Pairs, numParents: map<Node, int>, children: map<Node, seq<Node>>) {
    && (forall x :: x in numParents ==> numParents[x] == ParentCount(pairs, numParents.Keys, x))
    && (forall p :: p in numParents ==> Lookup(children, p) == ChildrenOf(pairs, p))
    && children.Keys <= numParents.Keys
  }

  lemma LastPair(pairs: Pairs)
    requires pairs != []
    ensures var (parent, child) := pairs[|pairs| - 1];
      EdgesOf(pairs) == EdgesOf(pairs[..|pairs| - 1]) + {(parent, child)}
  {
    var (parent, child) := pairs[|pairs| - 1];
    assert pairs == pairs[..|pairs| - 1] + [(parent, child)];
  }

  lemma {:induction false} EdgeEnds(pairs: Pairs, p: Node, c: Node)
    requires (p, c) in EdgesOf(pairs)
    ensures p in Nodes(pairs) && c in Nodes(pairs)
  {
    LastPair(pairs);
    if (p, c) != pairs[|pairs| - 1] {
      EdgeEnds(pairs[..|pairs| - 1], p, c);
    }
  }

  lemma {:induction false} ChildrenOfIff(pairs: Pairs, p: Node, c: Node)
    ensures c in ChildrenOf(pairs, p) <==> (p, c) in EdgesOf(pairs)
  {
    if pairs != [] {
      ChildrenOfIff(pairs[..|pairs| - 1], p, c);
      LastPair(pairs);
    }
  }

  ghost function PairsOf(pairs: Pairs, p: Node): set<nat> {
    set i: nat | i < |pairs| && pairs[i].0 == p
  }

  /** The children of `p` stand in the order of the pairs that name them: `source` lists the
      positions of the pairs with parent `p` from front to back. */
  lemma {:induction false} ChildrenInPairOrder(pairs: Pairs, p: Node) returns (source: seq<nat>)
    ensures Enumerates(source, PairsOf(pairs, p)) && |source| == |ChildrenOf(pairs, p)|
    ensures forall k :: 0 <= k < |source| ==> pairs[source[k]] == (p, ChildrenOf(pairs, p)[k])
  {
    source := [];
    if pairs != [] {
      var n := |pairs| - 1;
      source := ChildrenInPairOrder(pairs[..n], p);
      var before := PairsOf(pairs[..n], p);
      if pairs[n].0 == p {
        EnumerateNext(source, before, n);
        source := source + [n];
        assert PairsOf(pairs, p) == before + {n};
      } else {
        assert PairsOf(pairs, p) == before;
      }
    }
  }

  lemma {:induction false} ParentCountZero(pairs: Pairs, live: set<Node>, x: Node)
    ensures ParentCount(pairs, live, x) == 0 <==> forall p :: p in live ==> (p, x) !in EdgesOf(pairs)
  {
    if pairs != [] {
      ParentCountZero(pairs[..|pairs| - 1], live, x);
      LastPair(pairs);
    }
  }

  /** Retiring `p` costs `x` one parent for each time `x` is listed among the children of `p`. */
  lemma {:induction false} ParentCountRemove(pairs: Pairs, live: set<Node>, p: Node, x: Node)
    requires p in live
    ensures ParentCount(pairs, live, x)
         == ParentCount(pairs, live - {p}, x) + multiset(ChildrenOf(pairs, p))[x]
  {
    if pairs != [] {
      ParentCountRemove(pairs[..|pairs| - 1], live, p, x);
    }
  }

  /** The dictionaries hold what the pairs of `done` say. */
  ghost predicate Tallied(done: Pairs, live: set<Node>, numParents: map<Node, int>, children: map<Node, seq<Node>>) {
    && numParents.Keys == Nodes(done)
    && children.Keys <= numParents.Keys
    && (forall x :: x in numParents ==> numParents[x] == ParentCount(done, live, x))
    && (forall p :: Lookup(children, p) == ChildrenOf(done, p))
  }

  lemma {:induction false} NoParentsYet(pairs: Pairs, live: set<Node>, x: Node)
    requires x !in Nodes(pairs)
    ensures ParentCount(pairs, live, x) == 0
  {
    if pairs != [] {
      NoParentsYet(pairs[..|pairs| - 1], live, x);
    }
  }

  /** One more pair, once both its elements are keys. */
  lemma TallyPair(done: Pairs, live: set<Node>, parent: Node, child: Node,
      numParents: map<Node, int>, children: map<Node, seq<Node>>)
    requires parent in live && numParents.Keys == Nodes(done) + {parent, child} && children.Keys <= Nodes(done)
    requires forall x :: x in numParents ==> numParents[x] == ParentCount(done, live, x)
    requires forall p :: Lookup(children, p) == ChildrenOf(done, p)
    ensures Tallied(done + [(parent, child)], live, numParents[child := numParents[child] + 1],
      children[parent := Lookup(children, parent) + [child]])
  {
    var next := done + [(parent, child)];
    assert |next| == |done| + 1 && next[|done|] == (parent, child) && next[..|done|] == done;
    var listed := children[parent := Lookup(children, parent) + [child]];
    assert forall p :: Lookup(listed, p) == ChildrenOf(next, p);
  }

  /** The counting loop that `topsort` and `topsort_levels` share. */
  method CountParents(pairs: Pairs) returns (numParents: map<Node, int>, children: map<Node, seq<Node>>)
    ensures numParents.Keys == Nodes(pairs)
    ensures Describes(pairs, numParents, children)
  {
    numParents, children := map[], map[];
    ghost var live := Nodes(pairs);
    for i := 0 to |pairs|
      invariant Tallied(pairs[..i], live, numParents, children)
    {
      var (parent, child) := pairs[i];
      ghost var done := pairs[..i];
      Advance(pairs, i);
      EdgeEnds(pairs, parent, child);
      forall x | x !in numParents {
        NoParentsYet(done, live, x);
      }
      if parent !in numParents {
        numParents := numParents[parent := 0];
      }
      if child !in numParents {
        numParents := numParents[child := 0];
      }
      TallyPair(done, live, parent, child, numParents, children);
      numParents := numParents[child := numParents[child] + 1];
      children := children[parent := Lookup(children, parent) + [child]];
    }
    assert pairs[..|pairs|] == pairs;
  }

  /** The keys whose count is zero, listed in whatever order the dictionary has. */
  method ParentlessKeys(numParents: map<Node, int>) returns (keys: seq<Node>)
    ensures Distinct(keys)
    ensures forall x :: x in keys <==> x in numParents && numParents[x] == 0
  {
    keys := [];
    var rest := numParents.Keys;
    while rest != {}
      invariant rest <= numParents.Keys && Distinct(keys)
      invariant forall x :: x in keys <==> x in numParents && x !in rest && numParents[x] == 0
      decreases rest
    {
      var x :| x in rest;
      rest := rest - {x};
      if numParents[x] == 0 {
        keys := keys + [x];
      }
    }
  }

  // ----- Retiring a parent -----

  /** `numParents` counts, for each live node, its live parents and its occurrences in `rest`. */
  ghost predicate Counts(pairs: Pairs, live: set<Node>, numParents: map<Node, int>, rest: seq<Node>) {
    && numParents.Keys == live
    && forall x :: x in live ==> numParents[x] == ParentCount(pairs, live, x) + multiset(rest)[x]
  }

  lemma RetireCounts(pairs: Pairs, numParents: map<Node, int>, p: Node)
    requires p in numParents
    requires forall x :: x in numParents ==> numParents[x] == ParentCount(pairs, numParents.Keys, x)
    ensures Counts(pairs, numParents.Keys - {p}, numParents - {p}, ChildrenOf(pairs, p))
  {
    forall x | x in numParents {
      ParentCountRemove(pairs, numParents.Keys, p, x);
    }
  }

  lemma RetireDone(pairs: Pairs, live: set<Node>, numParents: map<Node, int>, children: map<Node, seq<Node>>)
    requires Counts(pairs, live, numParents, []) && children.Keys <= live
    requires forall p :: p in live ==> Lookup(children, p) == ChildrenOf(pairs, p)
    ensures Describes(pairs, numParents, children)
  {
  }

  /** One step of the inner loop: the next child gives up one of its counts. */
  lemma DropChild(pairs: Pairs, live: set<Node>, numParents: map<Node, int>, rest: seq<Node>)
    requires Counts(pairs, live, numParents, rest) && rest != [] && rest[0] in live
    ensures numParents[rest[0]] > 0
    ensures Counts(pairs, live, numParents[rest[0] := numParents[rest[0]] - 1], rest[1..])
  {
    assert rest == [rest[0]] + rest[1..];
  }

  // ----- What a sort achieves -----

  /** `order` lists, once each and parents first, the nodes that no cycle reaches. */
  ghost predicate OrdersTheRest(es: Edges, nodes: set<Node>, order: seq<Node>) {
    && IsTopologicalOrder(es, order)
    && forall x :: x in order <==> x in nodes && !AfterCycle(es, x)
  }

  /** The dictionaries hold the nodes on cycles or reachable from them, and what the pairs say
      about these. */
  ghost predicate IsLeftover(pairs: Pairs, numParents: map<Node, int>, children: map<Node, seq<Node>>) {
    && (forall x :: x in numParents <==> AfterCycle(EdgesOf(pairs), x))
    && Describes(pairs, numParents, children)
  }

  // ----- topsort -----

  /** The nodes are split between those still live and those retired, parents first. */
  ghost predicate Waiting(pairs: Pairs, live: set<Node>, retired: seq<Node>) {
    && Distinct(retired) && ParentsFirst(EdgesOf(pairs), retired)
    && (forall x :: x in Nodes(pairs) <==> x in live || x in retired)
    && forall x :: x in retired ==> x !in live
  }

  /** `answer` extends the retired nodes by the live ones without parents. */
  ghost predicate Listed(pairs: Pairs, live: set<Node>, retired: seq<Node>, numParents: map<Node, int>,
        answer: seq<Node>)
  {
    && retired <= answer
    && Distinct(answer) && ParentsFirst(EdgesOf(pairs), answer)
    && forall x :: x in answer <==> x in retired || (x in live && x in numParents && numParents[x] == 0)
  }

  datatype TopsortResult =
    | Sorted(order: seq<Node>)
    | CycleError(answer: seq<Node>, numParents: map<Node, int>, children: map<Node, seq<Node>>)

  /** The parents of every listed node are listed before it. */
  ghost predicate ParentsFirst(es: Edges, order: seq<Node>) {
    forall j, p :: 0 <= j < |order| && (p, order[j]) in es ==> p in order[..j]
  }

  lemma ParentsFirstAppend(es: Edges, order: seq<Node>, x: Node)
    requires ParentsFirst(es, order)
    requires forall p :: (p, x) in es ==> p in order
    ensures ParentsFirst(es, order + [x])
  {
    var longer := order + [x];
    forall j, p | 0 <= j < |longer| && (p, longer[j]) in es
      ensures p in longer[..j]
    {
      assert longer[..j] == order[..j];
      if j == |order| {
        assert longer[..j] == order;
      } else {
        assert (p, order[j]) in es;
      }
    }
  }

  lemma ParentsFirstIsTopological(es: Edges, order: seq<Node>)
    requires Distinct(order) && ParentsFirst(es, order)
    ensures IsTopologicalOrder(es, order)
  {
  }

  /** No cycle reaches a node all of whose ancestors could be listed before it. */
  lemma ParentsFirstAvoidsCycles(es: Edges, order: seq<Node>, x: Node)
    requires ParentsFirst(es, order) && x in order
    ensures !AfterCycle(es, x)
  {
    if AfterCycle(es, x) {
      var s := AfterCycleClosedSet(es, x);
      for j := 0 to |order|
        invariant forall k :: 0 <= k < j ==> order[k] !in s
      {
        if order[j] in s {
          var p := PredecessorIn(es, s, order[j]);
        }
      }
    }
  }

  /** A child of the parent being retired has not been retired itself. */
  lemma ChildStillLive(pairs: Pairs, retired: seq<Node>, parent: Node, child: Node)
    requires ParentsFirst(EdgesOf(pairs), retired) && Distinct(retired)
    requires retired != [] && Last(retired) == parent && child in ChildrenOf(pairs, parent)
    ensures child in Nodes(pairs) && child !in retired
  {
    ChildrenOfIff(pairs, parent, child);
    EdgeEnds(pairs, parent, child);
  }

  lemma NobodyRetired(pairs: Pairs, numParents: map<Node, int>, roots: seq<Node>)
    requires numParents.Keys == Nodes(pairs) && Distinct(roots)
    requires forall x :: x in numParents ==> numParents[x] == ParentCount(pairs, numParents.Keys, x)
    requires forall x :: x in roots <==> x in numParents && numParents[x] == 0
    ensures Waiting(pairs, numParents.Keys, [])
    ensures Listed(pairs, numParents.Keys, [], numParents, roots)
  {
    forall j, p | 0 <= j < |roots|
      ensures (p, roots[j]) !in EdgesOf(pairs)
    {
      assert roots[j] in roots;
      ParentCountZero(pairs, numParents.Keys, roots[j]);
      if (p, roots[j]) in EdgesOf(pairs) {
        EdgeEnds(pairs, p, roots[j]);
      }
    }
  }

  /** A node with no live parent has all its parents among the retired nodes. */
  lemma NowParentless(pairs: Pairs, live: set<Node>, retired: seq<Node>, x: Node)
    requires forall y :: y in Nodes(pairs) ==> y in live || y in retired
    requires ParentCount(pairs, live, x) == 0
    ensures forall p :: (p, x) in EdgesOf(pairs) ==> p in retired
  {
    ParentCountZero(pairs, live, x);
    forall p | (p, x) in EdgesOf(pairs) ensures p in retired {
      EdgeEnds(pairs, p, x);
    }
  }

  /** The next node of the growing list is retired. */
  lemma NextRetired(pairs: Pairs, numParents: map<Node, int>, answer: seq<Node>, i: nat)
    requires i < |answer|
    requires Waiting(pairs, numParents.Keys, answer[..i])
    requires Listed(pairs, numParents.Keys, answer[..i], numParents, answer)
    ensures answer[i] in numParents && numParents[answer[i]] == 0
    ensures Waiting(pairs, numParents.Keys - {answer[i]}, answer[..i + 1])
    ensures Listed(pairs, numParents.Keys - {answer[i]}, answer[..i + 1], numParents - {answer[i]}, answer)
  {
  }

  /** The loop over the children of the parent just retired, which is the last of `retired`. */
  method RetireChildren(pairs: Pairs, ghost live: set<Node>, ghost retired: seq<Node>,
        cs: seq<Node>, numParents0: map<Node, int>, answer0: seq<Node>)
    returns (numParents: map<Node, int>, answer: seq<Node>)
    requires Waiting(pairs, live, retired) && retired != [] && cs == ChildrenOf(pairs, Last(retired))
    requires Counts(pairs, live, numParents0, cs)
    requires Listed(pairs, live, retired, numParents0, answer0)
    ensures Counts(pairs, live, numParents, [])
    ensures Listed(pairs, live, retired, numParents, answer)
  {
    numParents, answer := numParents0, answer0;
    for j := 0 to |cs|
      invariant Counts(pairs, live, numParents, cs[j..])
      invariant Listed(pairs, live, retired, numParents, answer)
    {
      var child := cs[j];
      assert child in cs;
      ChildStillLive(pairs, retired, Last(retired), child);
      DropChild(pairs, live, numParents, cs[j..]);
      numParents := numParents[child := numParents[child] - 1];
      assert cs[j..][1..] == cs[j + 1..];
      if numParents[child] == 0 {
        NowParentless(pairs, live, retired, child);
        ParentsFirstAppend(EdgesOf(pairs), answer, child);
        answer := answer + [child];
      }
    }
  }

  /** When nobody listed is still live, the live nodes are those a cycle reaches. */
  lemma AllRetired(pairs: Pairs, numParents: map<Node, int>, children: map<Node, seq<Node>>, answer: seq<Node>)
    requires Waiting(pairs, numParents.Keys, answer)
    requires Listed(pairs, numParents.Keys, answer, numParents, answer)
    requires Describes(pairs, numParents, children)
    ensures OrdersTheRest(EdgesOf(pairs), Nodes(pairs), answer) && IsLeftover(pairs, numParents, children)
    ensures numParents == map[] <==> Acyclic(EdgesOf(pairs))
  {
    var es, left := EdgesOf(pairs), numParents.Keys;
    ParentsFirstIsTopological(es, answer);
    forall x | x in left ensures HasPredecessor(es, left, x) {
      assert numParents[x] > 0;
      ParentCountZero(pairs, left, x);
    }
    forall x | x in left ensures AfterCycle(es, x) {
      ClosedSetAfterCycle(es, left, x);
    }
    forall x | x in answer ensures !AfterCycle(es, x) {
      ParentsFirstAvoidsCycles(es, answer, x);
    }
    forall x | AfterCycle(es, x) ensures x in Nodes(pairs) {
      AfterCycleInNodes(pairs, x);
    }
    AcyclicIff(es);
  }

  lemma AfterCycleInNodes(pairs: Pairs, x: Node)
    requires AfterCycle(EdgesOf(pairs), x)
    ensures x in Nodes(pairs)
  {
    var s := AfterCycleClosedSet(EdgesOf(pairs), x);
    var p := PredecessorIn(EdgesOf(pairs), s, x);
    EdgeEnds(pairs, p, x);
  }

  /** One turn of the main loop: the `i`-th listed node is retired. */
  method RetireParent(pairs: Pairs, numParents0: map<Node, int>, children0: map<Node, seq<Node>>,
        answer0: seq<Node>, i: nat)
    returns (numParents: map<Node, int>, children: map<Node, seq<Node>>, answer: seq<Node>)
    requires i < |answer0|
    requires Waiting(pairs, numParents0.Keys, answer0[..i])
    requires Listed(pairs, numParents0.Keys, answer0[..i], numParents0, answer0)
    requires Describes(pairs, numParents0, children0)
    ensures i < |answer| && numParents.Keys < numParents0.Keys
    ensures Waiting(pairs, numParents.Keys, answer[..i + 1])
    ensures Listed(pairs, numParents.Keys, answer[..i + 1], numParents, answer)
    ensures Describes(pairs, numParents, children)
  {
    var parent := answer0[i];
    ghost var live, retired := numParents0.Keys - {parent}, answer0[..i + 1];
    NextRetired(pairs, numParents0, answer0, i);
    RetireCounts(pairs, numParents0, parent);
    numParents, children, answer := numParents0 - {parent}, children0, answer0;
    if parent in children {
      numParents, answer := RetireChildren(pairs, live, retired, children[parent], numParents, answer);
      children := children - {parent};
    }
    RetireDone(pairs, live, numParents, children);
    assert numParents.Keys == live && answer[..i + 1] == retired;
  }

  method Topsort(pairs: Pairs) returns (r: TopsortResult)
    ensures r.Sorted? <==> Acyclic(EdgesOf(pairs))
    ensures r.Sorted? ==> OrdersTheRest(EdgesOf(pairs), Nodes(pairs), r.order)
    ensures r.CycleError? ==>
      OrdersTheRest(EdgesOf(pairs), Nodes(pairs), r.answer) && IsLeftover(pairs, r.numParents, r.children)
  {
    var numParents, children := CountParents(pairs);
    var answer := ParentlessKeys(numParents);
    NobodyRetired(pairs, numParents, answer);
    var i := 0;
    assert answer[..i] == [];
    while i < |answer|
      invariant 0 <= i <= |answer|
      invariant Waiting(pairs, numParents.Keys, answer[..i])
      invariant Listed(pairs, numParents.Keys, answer[..i], numParents, answer)
      invariant Describes(pairs, numParents, children)
      decreases numParents.Keys
    {
      numParents, children, answer := RetireParent(pairs, numParents, children, answer, i);
      i := i + 1;
    }
    assert answer[..i] == answer;
    AllRetired(pairs, numParents, children, answer);
    if numParents != map[] {
      return CycleError(answer, numParents, children);
    }
    return Sorted(answer);
  }
}
