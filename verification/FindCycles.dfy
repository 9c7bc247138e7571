/** The stack-based enumeration of all elementary cycles. */
module FindCycles {
  import opened Graph
  import opened Rotation
  import opened Sequences

  type ChildMap = map<Node, seq<Node>>

  function EdgesOf(g: ChildMap): Edges {
    set p, c | p in g && c in g[p] :: (p, c)
  }

  function Children(g: ChildMap, p: Node): seq<Node> {
    if p in g then g[p] else []
  }

  lemma EdgeIff(g: ChildMap, p: Node, c: Node)
    ensures (p, c) in EdgesOf(g) <==> c in Children(g, p)
  {
  }

  // ----- What is recorded -----

  ghost predicate Recorded(cycles: seq<seq<Node>>, c: seq<Node>) {
    exists k :: 0 <= k < |cycles| && IsRotation(cycles[k], c)
  }

  /** The recorded lists are elementary cycles and no two of them are the same cycle. */
  ghost predicate CyclesOk(es: Edges, cycles: seq<seq<Node>>) {
    && (forall k :: 0 <= k < |cycles| ==> IsElementaryCycle(es, cycles[k]))
    && (forall i, j :: 0 <= i < j < |cycles| ==> !IsRotation(cycles[i], cycles[j]))
  }

  method RecordCycle(ghost es: Edges, cycles: seq<seq<Node>>, cycle: seq<Node>) returns (r: seq<seq<Node>>)
    requires CyclesOk(es, cycles) && IsElementaryCycle(es, cycle)
    ensures CyclesOk(es, r) && cycles <= r && Recorded(r, cycle)
  {
    var isDup := false;
    var k := 0;
    while k < |cycles| && !isDup
      invariant 0 <= k <= |cycles|
      invariant !isDup ==> forall i :: 0 <= i < k ==> !IsRotation(cycles[i], cycle)
      invariant isDup ==> Recorded(cycles, cycle)
      decreases |cycles| - k, !isDup
    {
      isDup := IsRotated(cycles[k], cycle);
      k := k + 1;
    }
    if isDup {
      return cycles;
    }
    r := cycles + [cycle];
    assert Rotate(cycle, 0) == cycle;
    assert IsRotation(r[|cycles|], cycle);
  }

  // ----- Simple paths from a root -----

  ghost predicate IsSimplePath(es: Edges, root: Node, p: seq<Node>) {
    IsWalk(es, p) && Distinct(p) && p[0] == root
  }

  function IndexOf(path: seq<Node>, x: Node): (i: nat)
    requires x in path
    ensures i < |path| && path[i] == x
  {
    if path[0] == x then 0 else 1 + IndexOf(path[1..], x)
  }

  ghost predicate ChildExplored(p: seq<Node>, c: Node, cycles: seq<seq<Node>>, visited: set<Node>) {
    if c in p then Recorded(cycles, p[IndexOf(p, c)..]) else c in visited
  }

  /** Every child of the end of `p` has been dealt with: it closes a recorded cycle or is marked. */
  ghost predicate Explored(g: ChildMap, p: seq<Node>, cycles: seq<seq<Node>>, visited: set<Node>)
    requires p != []
  {
    forall c :: c in Children(g, Last(p)) ==> ChildExplored(p, c, cycles, visited)
  }

  ghost predicate Traversed(g: ChildMap, root: Node, cycles: seq<seq<Node>>, visited: set<Node>) {
    forall p: seq<Node> :: IsSimplePath(EdgesOf(g), root, p) ==> Explored(g, p, cycles, visited)
  }

  lemma ChildExploredGrows(p: seq<Node>, c: Node, cycles: seq<seq<Node>>, visited: set<Node>,
        moreCycles: seq<seq<Node>>, moreVisited: set<Node>)
    requires ChildExplored(p, c, cycles, visited)
    requires cycles <= moreCycles && visited <= moreVisited
    ensures ChildExplored(p, c, moreCycles, moreVisited)
  {
  }

  lemma ExploredGrows(g: ChildMap, p: seq<Node>, cycles: seq<seq<Node>>, visited: set<Node>,
        moreCycles: seq<seq<Node>>, moreVisited: set<Node>)
    requires p != [] && Explored(g, p, cycles, visited)
    requires cycles <= moreCycles && visited <= moreVisited
    ensures Explored(g, p, moreCycles, moreVisited)
  {
  }

  lemma TraversedGrows(g: ChildMap, root: Node, cycles: seq<seq<Node>>, visited: set<Node>,
        moreCycles: seq<seq<Node>>, moreVisited: set<Node>)
    requires Traversed(g, root, cycles, visited)
    requires cycles <= moreCycles && visited <= moreVisited
    ensures Traversed(g, root, moreCycles, moreVisited)
  {
  }

  /** The node is the end of a simple path from one of the roots. */
  ghost predicate ReachedFrom(es: Edges, roots: set<Node>, x: Node) {
    exists r, p: seq<Node> :: r in roots && IsSimplePath(es, r, p) && Last(p) == x
  }

  lemma PathStep(g: ChildMap, root: Node, p: seq<Node>, c: Node)
    requires IsSimplePath(EdgesOf(g), root, p) && c in Children(g, Last(p)) && c !in p
    ensures IsSimplePath(EdgesOf(g), root, p + [c])
  {
  }

  /** A child already on the path closes an elementary cycle. */
  lemma PathCloses(g: ChildMap, root: Node, p: seq<Node>, c: Node)
    requires IsSimplePath(EdgesOf(g), root, p) && c in Children(g, Last(p)) && c in p
    ensures IsElementaryCycle(EdgesOf(g), p[IndexOf(p, c)..])
  {
  }

  // ----- How much work a path is -----

  /** The number of pops that `path` and the paths pushed on its account take. */
  ghost function Work(g: ChildMap, path: seq<Node>): nat
    requires path != [] && Distinct(path)
    decreases g.Keys - Members(path[..|path| - 1]), 0
  {
    if Last(path) !in g then 1
    else
      assert path == path[..|path| - 1] + [Last(path)];
      assert Last(path) in g.Keys - Members(path[..|path| - 1]) && Last(path) in Members(path);
      assert g.Keys - Members(path) <= g.Keys - Members(path[..|path| - 1]);
      1 + WorkOf(g, path, g[Last(path)])
  }

  ghost function WorkOf(g: ChildMap, path: seq<Node>, children: seq<Node>): nat
    requires path != [] && Distinct(path)
    decreases g.Keys - Members(path), |children| + 1
  {
    if children == [] then 0
    else
      var c := children[0];
      assert (path + [c])[..|path|] == path;
      (if c in path then 0 else Work(g, path + [c])) + WorkOf(g, path, children[1..])
  }

  ghost predicate SimplePaths(es: Edges, root: Node, paths: seq<seq<Node>>) {
    forall k :: 0 <= k < |paths| ==> IsSimplePath(es, root, paths[k])
  }

  ghost function TotalWork(g: ChildMap, root: Node, paths: seq<seq<Node>>): nat
    requires SimplePaths(EdgesOf(g), root, paths)
  {
    if paths == [] then 0
    else TotalWork(g, root, paths[..|paths| - 1]) + Work(g, paths[|paths| - 1])
  }

  lemma TotalWorkAppend(g: ChildMap, root: Node, paths: seq<seq<Node>>, p: seq<Node>)
    requires SimplePaths(EdgesOf(g), root, paths) && IsSimplePath(EdgesOf(g), root, p)
    ensures SimplePaths(EdgesOf(g), root, paths + [p])
    ensures TotalWork(g, root, paths + [p]) == TotalWork(g, root, paths) + Work(g, p)
  {
  }

  // ----- The search from one root -----

  /** Some path on the stack is a prefix of `p`. */
  ghost predicate Covered(paths: seq<seq<Node>>, p: seq<Node>) {
    exists k :: 0 <= k < |paths| && paths[k] <= p
  }

  /** The loop over the children of the end of the popped path. */
  method ExpandPath(g: ChildMap, ghost root: Node, path: seq<Node>, paths0: seq<seq<Node>>,
        cycles0: seq<seq<Node>>, visited0: set<Node>)
    returns (paths: seq<seq<Node>>, cycles: seq<seq<Node>>, visited: set<Node>)
    requires IsSimplePath(EdgesOf(g), root, path) && Last(path) in g
    requires SimplePaths(EdgesOf(g), root, paths0) && CyclesOk(EdgesOf(g), cycles0)
    ensures paths0 <= paths && SimplePaths(EdgesOf(g), root, paths)
    ensures cycles0 <= cycles && CyclesOk(EdgesOf(g), cycles)
    ensures visited0 <= visited && forall v :: v in visited - visited0 ==> ReachedFrom(EdgesOf(g), {root}, v)
    ensures Explored(g, path, cycles, visited)
    ensures forall c :: c in g[Last(path)] && c !in path ==> path + [c] in paths
    ensures TotalWork(g, root, paths) == TotalWork(g, root, paths0) + WorkOf(g, path, g[Last(path)])
  {
    ghost var es := EdgesOf(g);
    var children := g[Last(path)];
    paths, cycles, visited := paths0, cycles0, visited0;
    assert children[0..] == children;
    for j := 0 to |children|
      invariant paths0 <= paths && SimplePaths(es, root, paths)
      invariant cycles0 <= cycles && CyclesOk(es, cycles)
      invariant visited0 <= visited && forall v :: v in visited - visited0 ==> ReachedFrom(es, {root}, v)
      invariant forall c :: c in children[..j] ==> ChildExplored(path, c, cycles, visited)
      invariant forall c :: c in children[..j] && c !in path ==> path + [c] in paths
      invariant TotalWork(g, root, paths) + WorkOf(g, path, children[j..])
             == TotalWork(g, root, paths0) + WorkOf(g, path, children)
    {
      var child := children[j];
      Advance(children, j);
      assert child in children;
      ghost var cyclesBefore, visitedBefore := cycles, visited;
      if child in path {
        PathCloses(g, root, path, child);
        cycles := RecordCycle(es, cycles, path[IndexOf(path, child)..]);
      } else {
        PathStep(g, root, path, child);
        TotalWorkAppend(g, root, paths, path + [child]);
        paths := paths + [path + [child]];
        visited := visited + {child};
      }
      forall c | c in children[..j]
        ensures ChildExplored(path, c, cycles, visited)
      {
        ChildExploredGrows(path, c, cyclesBefore, visitedBefore, cycles, visited);
      }
    }
    assert children[..|children|] == children;
  }

  /** Popping a path leaves every simple path explored or covered. */
  lemma PopKeepsCover(g: ChildMap, root: Node, p: seq<Node>, path: seq<Node>, rest: seq<seq<Node>>,
        paths: seq<seq<Node>>)
    requires IsSimplePath(EdgesOf(g), root, p) && path != []
    requires Covered(rest + [path], p) && rest <= paths
    requires forall c :: c in Children(g, Last(path)) && c !in path ==> path + [c] in paths
    ensures p == path || Covered(paths, p)
  {
    var k :| 0 <= k < |rest| + 1 && (rest + [path])[k] <= p;
    if k < |rest| {
      assert paths[k] <= p;
    } else if p != path {
      var n := |path|;
      assert path == p[..n] && Last(path) == p[n - 1];
      assert (p[n - 1], p[n]) in EdgesOf(g);
      EdgeIff(g, p[n - 1], p[n]);
      assert path + [p[n]] in paths && path + [p[n]] <= p;
    }
  }

  /** The stack loop for one root. */
  method ExploreFrom(g: ChildMap, root: Node, cycles0: seq<seq<Node>>, visited0: set<Node>)
    returns (cycles: seq<seq<Node>>, visited: set<Node>)
    requires CyclesOk(EdgesOf(g), cycles0)
    ensures cycles0 <= cycles && CyclesOk(EdgesOf(g), cycles)
    ensures visited0 <= visited && forall v :: v in visited - visited0 ==> ReachedFrom(EdgesOf(g), {root}, v)
    ensures Traversed(g, root, cycles, visited)
  {
    ghost var es := EdgesOf(g);
    cycles, visited := cycles0, visited0;
    var paths := [[root]];
    forall p: seq<Node> | IsSimplePath(es, root, p) ensures Covered(paths, p) {
      assert paths[0] <= p;
    }
    while paths != []
      invariant SimplePaths(es, root, paths)
      invariant cycles0 <= cycles && CyclesOk(es, cycles)
      invariant visited0 <= visited && forall v :: v in visited - visited0 ==> ReachedFrom(es, {root}, v)
      invariant forall p: seq<Node> :: IsSimplePath(es, root, p) ==>
        Explored(g, p, cycles, visited) || Covered(paths, p)
      decreases TotalWork(g, root, paths)
    {
      var path := paths[|paths| - 1];
      ghost var stack, cyclesBefore, visitedBefore := paths, cycles, visited;
      paths := paths[..|paths| - 1];
      ghost var rest := paths;
      assert stack == rest + [path];
      if Last(path) in g {
        paths, cycles, visited := ExpandPath(g, root, path, paths, cycles, visited);
      }
      forall p: seq<Node> | IsSimplePath(es, root, p)
        ensures Explored(g, p, cycles, visited) || Covered(paths, p)
      {
        if Covered(stack, p) {
          PopKeepsCover(g, root, p, path, rest, paths);
        } else {
          ExploredGrows(g, p, cyclesBefore, visitedBefore, cycles, visited);
        }
      }
    }
  }

  // ----- All roots together -----

  /** The path up to its first node on the cycle, then once around. */
  lemma PathAroundCycle(es: Edges, root: Node, q: seq<Node>, c: seq<Node>) returns (m: nat, i: nat)
    requires IsSimplePath(es, root, q) && IsElementaryCycle(es, c) && Last(q) == c[0]
    ensures m < |q| && i < |c| && q[m] == c[i]
    ensures IsSimplePath(es, root, q[..m] + Rotate(c, i))
  {
    m := 0;
    while q[m] !in c
      invariant 0 <= m < |q| && forall k :: 0 <= k < m ==> q[k] !in c
      decreases |q| - m
    {
      m := m + 1;
    }
    i :| 0 <= i < |c| && c[i] == q[m];
    RotatedCycle(es, c, i);
    var d := Rotate(c, i);
    assert forall k :: 0 <= k < |d| ==> d[k] in c;
    var p := q[..m] + d;
    hide Rotate, IndexOf;
    forall a, b | 0 <= a < |p| && b == a + 1 < |p|
      ensures (p[a], p[b]) in es
    {
      if b <= m {
        assert p[a] == q[a] && p[b] == q[b];
      } else {
        assert p[a] == d[a - m] && p[b] == d[b - m];
      }
    }
    assert p[0] == q[0];
  }

  lemma {:induction false} IndexOfSkip(q: seq<Node>, d: seq<Node>)
    requires d != [] && Distinct(q + d)
    ensures d[0] in q + d && IndexOf(q + d, d[0]) == |q|
  {
    assert (q + d)[|q|] == d[0];
  }

  /** A cycle is recorded once the roots reach every node that has children. */
  lemma CycleIsRecorded(g: ChildMap, roots: set<Node>, cycles: seq<seq<Node>>, visited: set<Node>, c: seq<Node>)
    requires forall x :: x in g ==> ReachedFrom(EdgesOf(g), roots, x)
    requires forall r :: r in roots ==> Traversed(g, r, cycles, visited)
    requires IsElementaryCycle(EdgesOf(g), c)
    ensures Recorded(cycles, c)
  {
    var es := EdgesOf(g);
    RotatedCycle(es, c, 0);
    assert c[0] in g by {
      if |c| > 1 {
        assert (c[0], c[1]) in es;
      }
    }
    var r, q: seq<Node> :| r in roots && IsSimplePath(es, r, q) && Last(q) == c[0];
    var m, i := PathAroundCycle(es, r, q, c);
    RotatedCycle(es, c, i);
    var d := Rotate(c, i);
    var p := q[..m] + d;
    EdgeIff(g, Last(d), d[0]);
    IndexOfSkip(q[..m], d);
    assert Explored(g, p, cycles, visited) && Last(p) == Last(d);
    assert ChildExplored(p, d[0], cycles, visited);
    assert p[m..] == d;
    var k :| 0 <= k < |cycles| && IsRotation(cycles[k], d);
    assert IsRotation(c, d);
    RotationSymmetric(c, d);
    RotationTransitive(cycles[k], d, c);
  }

  lemma RootReached(es: Edges, roots: set<Node>, r: Node)
    requires r in roots
    ensures ReachedFrom(es, roots, r)
  {
    assert IsSimplePath(es, r, [r]) && Last([r]) == r;
  }

  method FindCycles(g: ChildMap) returns (cycles: seq<seq<Node>>)
    ensures CyclesOk(EdgesOf(g), cycles)
    ensures forall c: seq<Node> :: IsElementaryCycle(EdgesOf(g), c) ==> Recorded(cycles, c)
    ensures cycles == [] <==> Acyclic(EdgesOf(g))
  {
    ghost var es := EdgesOf(g);
    cycles := [];
    var visited: set<Node> := {};
    var rest := g.Keys;
    ghost var roots: set<Node> := {};
    while rest != {}
      invariant CyclesOk(es, cycles)
      invariant rest <= g.Keys && forall x :: x in g.Keys - rest ==> ReachedFrom(es, roots, x)
      invariant forall v :: v in visited ==> ReachedFrom(es, roots, v)
      invariant forall r :: r in roots ==> Traversed(g, r, cycles, visited)
      decreases rest
    {
      var parent :| parent in rest;
      rest := rest - {parent};
      if parent in visited {
        continue;
      }
      ghost var cyclesBefore, visitedBefore, rootsBefore := cycles, visited, roots;
      cycles, visited := ExploreFrom(g, parent, cycles, visited);
      roots := roots + {parent};
      RootReached(es, roots, parent);
      forall x | ReachedFrom(es, rootsBefore, x) || ReachedFrom(es, {parent}, x)
        ensures ReachedFrom(es, roots, x)
      {
      }
      forall r | r in rootsBefore ensures Traversed(g, r, cycles, visited) {
        TraversedGrows(g, r, cyclesBefore, visitedBefore, cycles, visited);
      }
    }
    forall c: seq<Node> | IsElementaryCycle(es, c) ensures Recorded(cycles, c) {
      CycleIsRecorded(g, roots, cycles, visited, c);
    }
    AcyclicNoElementaryCycle(es);
    if cycles != [] {
      assert IsElementaryCycle(es, cycles[0]);
    }
  }
}
