/** The gathering of configuration paths from the registered types. */
module ConfigPaths {
  import opened LabelledWalks
  import opened Sequences

  /** The position of a type in the registry. */
  type TypeId = nat

  datatype Checker = PointerChecker(pointee: TypeId) | ObjectPtrContainerChecker(item: TypeId) | OtherChecker

  datatype Attribute = Attribute(name: string, checker: Checker)

  /** `childOf` holds the pairs (a, b) for which a is a child of b, and `plainObject` is the type of
      plain objects. */
  datatype Registry = Registry(names: seq<string>, attributes: seq<seq<Attribute>>,
    childOf: set<(TypeId, TypeId)>, plainObject: TypeId)

  ghost predicate ValidRegistry(r: Registry) {
    && |r.attributes| == |r.names|
    && forall t, i :: 0 <= t < |r.names| && 0 <= i < |r.attributes[t]| ==>
         match r.attributes[t][i].checker
         case PointerChecker(p) => p < |r.names|
         case ObjectPtrContainerChecker(p) => p < |r.names|
         case OtherChecker => true
  }

  type Aggregates = seq<(TypeId, TypeId)>

  ghost predicate ValidAggregates(r: Registry, aggregates: Aggregates) {
    forall k :: 0 <= k < |aggregates| ==> aggregates[k].0 < |r.names| && aggregates[k].1 < |r.names|
  }

  // ----- The type graph -----

  /** Pointers to plain objects lead nowhere; other pointers and containers lead to their types. */
  function AttributeEdge(r: Registry, a: Attribute): seq<Edge> {
    match a.checker
    case PointerChecker(p) => if p == r.plainObject then [] else [Edge(a.name, p)]
    case ObjectPtrContainerChecker(p) => [Edge(a.name + "/[i]", p)]
    case OtherChecker => []
  }

  /** The edges given by the first `n` attributes of `t`. */
  function AttributeEdges(r: Registry, t: TypeId, n: nat): seq<Edge>
    requires t < |r.attributes| && n <= |r.attributes[t]|
  {
    if n == 0 then [] else AttributeEdges(r, t, n - 1) + AttributeEdge(r, r.attributes[t][n - 1])
  }

  function ChildEdge(r: Registry, t: TypeId, child: TypeId): seq<Edge>
    requires child < |r.names|
  {
    if (child, t) in r.childOf then [Edge("$" + r.names[child], child)] else []
  }

  function ChildEdges(r: Registry, t: TypeId, n: nat): seq<Edge>
    requires n <= |r.names|
  {
    if n == 0 then [] else ChildEdges(r, t, n - 1) + ChildEdge(r, t, n - 1)
  }

  /** Aggregation relates both types to each other. */
  function AggregateEdge(r: Registry, t: TypeId, pair: (TypeId, TypeId)): seq<Edge>
    requires pair.0 < |r.names| && pair.1 < |r.names|
  {
    if pair.0 == t then [Edge("$" + r.names[pair.1], pair.1)]
    else if pair.1 == t then [Edge("$" + r.names[pair.0], pair.0)]
    else []
  }

  function AggregateEdges(r: Registry, aggregates: Aggregates, t: TypeId, n: nat): seq<Edge>
    requires ValidAggregates(r, aggregates) && n <= |aggregates|
  {
    if n == 0 then [] else AggregateEdges(r, aggregates, t, n - 1) + AggregateEdge(r, t, aggregates[n - 1])
  }

  function EdgesFrom(r: Registry, aggregates: Aggregates, t: TypeId): seq<Edge>
    requires ValidRegistry(r) && ValidAggregates(r, aggregates) && t < |r.names|
  {
    AttributeEdges(r, t, |r.attributes[t]|) + ChildEdges(r, t, |r.names|)
    + AggregateEdges(r, aggregates, t, |aggregates|)
  }

  function TypeGraph(r: Registry, aggregates: Aggregates): Table
    requires ValidRegistry(r) && ValidAggregates(r, aggregates)
  {
    seq(|r.names|, t requires 0 <= t < |r.names| => EdgesFrom(r, aggregates, t))
  }

  // ----- What is recorded -----

  /** The path string: a slash before every item. */
  function JoinPath(path: seq<string>): string {
    if path == [] then "" else JoinPath(path[..|path| - 1]) + "/" + path[|path| - 1]
  }

  lemma JoinPathOfOne(item: string)
    ensures JoinPath([]) == "" && JoinPath([item]) == "/" + item
  {
  }

  lemma {:induction false} JoinPathAppends(a: seq<string>, b: seq<string>)
    ensures JoinPath(a + b) == JoinPath(a) + JoinPath(b)
  {
    if b == [] {
      assert a + b == a;
    } else {
      LastApart(a, b);
      JoinPathAppends(a, b[..|b| - 1]);
    }
  }

  type Record = (TypeId, string)

  ghost function RecordOf(g: Table, t: TypeId, path: seq<string>, w: seq<nat>): Record
    requires IsWalkFrom(g, t, w)
  {
    (End(g, t, w), JoinPath(path + Labels(g, t, w)))
  }

  ghost function RecordsOf(g: Table, t: TypeId, path: seq<string>, ws: seq<seq<nat>>): (rs: seq<Record>)
    requires AreWalksFrom(g, t, ws)
    ensures |rs| == |ws| && forall k :: 0 <= k < |ws| ==> rs[k] == RecordOf(g, t, path, ws[k])
  {
    seq(|ws|, k requires 0 <= k < |ws| => RecordOf(g, t, path, ws[k]))
  }

  /** The records made by the time the first `n` edges of `t` have been followed. */
  ghost function RecordsVia(g: Table, t: TypeId, path: seq<string>, avoid: set<nat>, n: nat): seq<Record>
    requires Closed(g) && t < |g| && n <= |g[t]|
  {
    RecordsOf(g, t, path, WalksVia(g, t, avoid, n))
  }

  /** A walk that starts with the `n`-th edge records what its remainder does under the longer path. */
  lemma RecordOfLonger(g: Table, t: TypeId, path: seq<string>, n: nat, w: seq<nat>)
    requires t < |g| && n < |g[t]| && IsWalkFrom(g, g[t][n].target, w)
    ensures IsWalkFrom(g, t, [n] + w)
    ensures RecordOf(g, t, path, [n] + w) == RecordOf(g, g[t][n].target, path + [g[t][n].step], w)
  {
    var e := g[t][n];
    assert ([n] + w)[1..] == w;
    assert path + Labels(g, t, [n] + w) == path + [e.step] + Labels(g, e.target, w);
  }

  /** Following one more edge adds what its target records under the longer path. */
  lemma RecordsViaNext(g: Table, t: TypeId, path: seq<string>, avoid: set<nat>, n: nat)
    requires Closed(g) && t < |g| && n < |g[t]|
    ensures var e := g[t][n];
      e.target < |g| &&
      RecordsVia(g, t, path, avoid, n + 1)
        == RecordsVia(g, t, path, avoid, n)
         + RecordsOf(g, e.target, path + [e.step], Walks(g, e.target, avoid))
  {
    var ws := Walks(g, g[t][n].target, avoid);
    forall k | 0 <= k < |ws| {
      RecordOfLonger(g, t, path, n, ws[k]);
    }
    hide RecordOf, IsWalkFrom, Walks;
  }

  lemma RecordsStart(g: Table, t: TypeId, path: seq<string>, avoid: set<nat>)
    requires Closed(g) && t < |g| && t !in avoid
    ensures RecordsOf(g, t, path, Walks(g, t, avoid))
      == [(t, JoinPath(path))] + RecordsVia(g, t, path, avoid + {t}, |g[t]|)
  {
    assert path + Labels(g, t, []) == path;
  }

  lemma NothingFollowed(g: Table, t: TypeId, path: seq<string>, avoid: set<nat>)
    requires Closed(g) && t < |g|
    ensures RecordsVia(g, t, path, avoid, 0) == []
  {
  }

  lemma NoWalks(g: Table, t: TypeId, path: seq<string>, avoid: set<nat>)
    requires Closed(g) && t < |g| && t in avoid
    ensures RecordsOf(g, t, path, Walks(g, t, avoid)) == []
  {
  }

  // ----- The three kinds of edges in the type graph -----

  lemma {:induction false} AttributeEdgesPrefix(r: Registry, t: TypeId, n: nat, m: nat)
    requires t < |r.attributes| && n <= m <= |r.attributes[t]|
    ensures AttributeEdges(r, t, n) <= AttributeEdges(r, t, m)
  {
    if n < m {
      AttributeEdgesPrefix(r, t, n, m - 1);
    }
  }

  lemma {:induction false} ChildEdgesPrefix(r: Registry, t: TypeId, n: nat, m: nat)
    requires n <= m <= |r.names|
    ensures ChildEdges(r, t, n) <= ChildEdges(r, t, m)
  {
    if n < m {
      ChildEdgesPrefix(r, t, n, m - 1);
    }
  }

  lemma {:induction false} AggregateEdgesPrefix(r: Registry, aggregates: Aggregates, t: TypeId, n: nat, m: nat)
    requires ValidAggregates(r, aggregates) && n <= m <= |aggregates|
    ensures AggregateEdges(r, aggregates, t, n) <= AggregateEdges(r, aggregates, t, m)
  {
    if n < m {
      AggregateEdgesPrefix(r, aggregates, t, n, m - 1);
    }
  }

  ghost predicate TargetsBelow(es: seq<Edge>, n: nat) {
    forall i :: 0 <= i < |es| ==> es[i].target < n
  }

  lemma {:induction false} AttributeTargets(r: Registry, t: TypeId, n: nat)
    requires ValidRegistry(r) && t < |r.names| && n <= |r.attributes[t]|
    ensures TargetsBelow(AttributeEdges(r, t, n), |r.names|)
  {
    if n > 0 {
      AttributeTargets(r, t, n - 1);
    }
  }

  lemma {:induction false} ChildTargets(r: Registry, t: TypeId, n: nat)
    requires n <= |r.names|
    ensures TargetsBelow(ChildEdges(r, t, n), |r.names|)
  {
    if n > 0 {
      ChildTargets(r, t, n - 1);
    }
  }

  lemma {:induction false} AggregateTargets(r: Registry, aggregates: Aggregates, t: TypeId, n: nat)
    requires ValidAggregates(r, aggregates) && n <= |aggregates|
    ensures TargetsBelow(AggregateEdges(r, aggregates, t, n), |r.names|)
  {
    if n > 0 {
      AggregateTargets(r, aggregates, t, n - 1);
    }
  }

  lemma TypeGraphClosed(r: Registry, aggregates: Aggregates)
    requires ValidRegistry(r) && ValidAggregates(r, aggregates)
    ensures Closed(TypeGraph(r, aggregates))
  {
    forall t | 0 <= t < |r.names| ensures TargetsBelow(EdgesFrom(r, aggregates, t), |r.names|) {
      AttributeTargets(r, t, |r.attributes[t]|);
      ChildTargets(r, t, |r.names|);
      AggregateTargets(r, aggregates, t, |aggregates|);
    }
  }

  /** The position of the first child edge among the edges of `t`. */
  ghost function FirstChild(r: Registry, aggregates: Aggregates, t: TypeId): (n: nat)
    requires ValidRegistry(r) && ValidAggregates(r, aggregates) && t < |r.names|
    ensures n <= |TypeGraph(r, aggregates)[t]|
  {
    |AttributeEdges(r, t, |r.attributes[t]|)|
  }

  ghost function FirstAggregate(r: Registry, aggregates: Aggregates, t: TypeId): (n: nat)
    requires ValidRegistry(r) && ValidAggregates(r, aggregates) && t < |r.names|
    ensures FirstChild(r, aggregates, t) <= n <= |TypeGraph(r, aggregates)[t]|
  {
    FirstChild(r, aggregates, t) + |ChildEdges(r, t, |r.names|)|
  }

  // Where the edges of one attribute, registered type or aggregate stand among those of `t`.

  lemma AttributeEdgeAt(r: Registry, aggregates: Aggregates, t: TypeId, i: nat)
    requires ValidRegistry(r) && ValidAggregates(r, aggregates) && t < |r.names| && i < |r.attributes[t]|
    ensures var n, es := |AttributeEdges(r, t, i)|, AttributeEdge(r, r.attributes[t][i]);
      && |AttributeEdges(r, t, i + 1)| == n + |es| <= FirstChild(r, aggregates, t)
      && (es != [] ==> TypeGraph(r, aggregates)[t][n] == es[0])
  {
    AttributeEdgesPrefix(r, t, i + 1, |r.attributes[t]|);
  }

  lemma ChildEdgeAt(r: Registry, aggregates: Aggregates, t: TypeId, j: nat)
    requires ValidRegistry(r) && ValidAggregates(r, aggregates) && t < |r.names| && j < |r.names|
    ensures var n, es := FirstChild(r, aggregates, t) + |ChildEdges(r, t, j)|, ChildEdge(r, t, j);
      && FirstChild(r, aggregates, t) + |ChildEdges(r, t, j + 1)| == n + |es| <= FirstAggregate(r, aggregates, t)
      && (es != [] ==> TypeGraph(r, aggregates)[t][n] == es[0])
  {
    assert TypeGraph(r, aggregates)[t] == EdgesFrom(r, aggregates, t);
    hide TypeGraph, ValidRegistry, ValidAggregates;
    ChildEdgesPrefix(r, t, j + 1, |r.names|);
  }

  lemma AggregateEdgeAt(r: Registry, aggregates: Aggregates, t: TypeId, k: nat)
    requires ValidRegistry(r) && ValidAggregates(r, aggregates) && t < |r.names| && k < |aggregates|
    ensures var first := FirstAggregate(r, aggregates, t);
      var n, es := first + |AggregateEdges(r, aggregates, t, k)|, AggregateEdge(r, t, aggregates[k]);
      && first + |AggregateEdges(r, aggregates, t, k + 1)| == n + |es| <= |TypeGraph(r, aggregates)[t]|
      && (es != [] ==> TypeGraph(r, aggregates)[t][n] == es[0])
  {
    AggregateEdgesPrefix(r, aggregates, t, k + 1, |aggregates|);
  }

  /** Where the three loops start and end. */
  lemma LoopBounds(r: Registry, aggregates: Aggregates, t: TypeId)
    requires ValidRegistry(r) && ValidAggregates(r, aggregates) && t < |r.names|
    ensures |AttributeEdges(r, t, 0)| == |ChildEdges(r, t, 0)| == |AggregateEdges(r, aggregates, t, 0)| == 0
    ensures |AttributeEdges(r, t, |r.attributes[t]|)| == FirstChild(r, aggregates, t)
    ensures FirstChild(r, aggregates, t) + |ChildEdges(r, t, |r.names|)| == FirstAggregate(r, aggregates, t)
    ensures FirstAggregate(r, aggregates, t) + |AggregateEdges(r, aggregates, t, |aggregates|)|
      == |TypeGraph(r, aggregates)[t]|
  {
  }

  // ----- The gatherer -----

  class StaticInformation {
    const registry: Registry
    var output: seq<Record>
    var currentPath: seq<string>
    var alreadyProcessed: seq<TypeId>
    var aggregates: Aggregates

    ghost predicate Valid()
      reads this
    {
      ValidRegistry(registry) && ValidAggregates(registry, aggregates)
    }

    ghost function Graph(): (g: Table)
      requires Valid()
      reads this
      ensures Closed(g) && |g| == |registry.names|
    {
      TypeGraphClosed(registry, aggregates);
      TypeGraph(registry, aggregates)
    }

    /** The aggregates are those recorded before anything is gathered. */
    constructor (registry: Registry, aggregates: Aggregates)
      requires ValidRegistry(registry) && ValidAggregates(registry, aggregates)
      ensures Valid() && this.registry == registry && this.aggregates == aggregates
      ensures output == [] && currentPath == [] && alreadyProcessed == []
    {
      this.registry, this.aggregates := registry, aggregates;
      output, currentPath, alreadyProcessed := [], [], [];
    }

    method GetCurrentPath() returns (path: string)
      ensures path == JoinPath(currentPath)
    {
      path := "";
      for i := 0 to |currentPath|
        invariant path == JoinPath(currentPath[..i])
      {
        path := path + "/" + currentPath[i];
        assert currentPath[..i + 1][..i] == currentPath[..i];
      }
      assert currentPath[..|currentPath|] == currentPath;
    }

    method RecordOutput(tid: TypeId)
      modifies this`output
      ensures output == old(output) + [(tid, JoinPath(currentPath))]
    {
      var path := GetCurrentPath();
      output := output + [(tid, path)];
    }

    method HasAlreadyBeenProcessed(tid: TypeId) returns (r: bool)
      ensures r <==> tid in alreadyProcessed
    {
      for i := 0 to |alreadyProcessed|
        invariant tid !in alreadyProcessed[..i]
      {
        if alreadyProcessed[i] == tid {
          return true;
        }
      }
      return false;
    }

    /** Since `start`, what the first `n` edges of `tid` lead to has been recorded. */
    ghost predicate Followed(tid: TypeId, start: seq<Record>, n: nat)
      requires Valid() && tid < |registry.names| && n <= |Graph()[tid]|
      reads this
    {
      output == start + RecordsVia(Graph(), tid, currentPath, Members(alreadyProcessed) + {tid}, n)
    }

    /** One entry is recorded for every walk from `tid` that meets distinct types outside the
        stack, and both stacks are restored. */
    method DoGather(tid: TypeId)
      requires Valid() && tid < |registry.names|
      modifies this`output, this`currentPath, this`alreadyProcessed
      ensures output == old(output)
        + RecordsOf(Graph(), tid, currentPath, Walks(Graph(), tid, Members(alreadyProcessed)))
      ensures currentPath == old(currentPath) && alreadyProcessed == old(alreadyProcessed)
      decreases Below(|registry.names|) - Members(alreadyProcessed), 2
    {
      hide RecordsOf, RecordsVia, Walks, WalksVia, AreWalksFrom, IsWalkFrom, Closed, TypeGraph, EdgesFrom, JoinPath;
      var processed := HasAlreadyBeenProcessed(tid);
      if processed {
        NoWalks(Graph(), tid, currentPath, Members(alreadyProcessed));
        return;
      }
      RecordOutput(tid);
      RecordsStart(Graph(), tid, currentPath, Members(alreadyProcessed));
      ghost var start := output;
      FollowAttributes(tid, start);
      FollowChildren(tid, start);
      FollowAggregates(tid, start);
    }

    method FollowAttributes(tid: TypeId, ghost start: seq<Record>)
      requires Valid() && tid < |registry.names| && tid !in alreadyProcessed && output == start
      modifies this`output, this`currentPath, this`alreadyProcessed
      ensures currentPath == old(currentPath) && alreadyProcessed == old(alreadyProcessed)
      ensures Followed(tid, start, FirstChild(registry, aggregates, tid))
      decreases Below(|registry.names|) - Members(alreadyProcessed), 1
    {
      hide RecordsOf, RecordsVia, Walks, WalksVia, AreWalksFrom, IsWalkFrom, Closed, TypeGraph, EdgesFrom, JoinPath;
      hide AttributeEdges, ChildEdges, AggregateEdges, FirstChild, FirstAggregate;
      LoopBounds(registry, aggregates, tid);
      NothingFollowed(Graph(), tid, currentPath, Members(alreadyProcessed) + {tid});
      var attributes := registry.attributes[tid];
      for i := 0 to |attributes|
        invariant currentPath == old(currentPath) && alreadyProcessed == old(alreadyProcessed)
        invariant |AttributeEdges(registry, tid, i)| <= FirstChild(registry, aggregates, tid)
        invariant Followed(tid, start, |AttributeEdges(registry, tid, i)|)
      {
        ghost var n := |AttributeEdges(registry, tid, i)|;
        AttributeEdgeAt(registry, aggregates, tid, i);
        match attributes[i].checker {
          case PointerChecker(pointee) =>
            if pointee != registry.plainObject {
              Follow(tid, attributes[i].name, pointee, start, n);
            }
          case ObjectPtrContainerChecker(item) =>
            Follow(tid, attributes[i].name + "/[i]", item, start, n);
          case OtherChecker =>
        }
      }
    }

    method FollowChildren(tid: TypeId, ghost start: seq<Record>)
      requires Valid() && tid < |registry.names| && tid !in alreadyProcessed
      requires Followed(tid, start, FirstChild(registry, aggregates, tid))
      modifies this`output, this`currentPath, this`alreadyProcessed
      ensures currentPath == old(currentPath) && alreadyProcessed == old(alreadyProcessed)
      ensures Followed(tid, start, FirstAggregate(registry, aggregates, tid))
      decreases Below(|registry.names|) - Members(alreadyProcessed), 1
    {
      hide RecordsOf, RecordsVia, Walks, WalksVia, AreWalksFrom, IsWalkFrom, Closed, TypeGraph, EdgesFrom, JoinPath;
      hide AttributeEdges, ChildEdges, AggregateEdges, FirstChild, FirstAggregate;
      LoopBounds(registry, aggregates, tid);
      for j := 0 to |registry.names|
        invariant currentPath == old(currentPath) && alreadyProcessed == old(alreadyProcessed)
        invariant FirstChild(registry, aggregates, tid) + |ChildEdges(registry, tid, j)|
               <= FirstAggregate(registry, aggregates, tid)
        invariant Followed(tid, start, FirstChild(registry, aggregates, tid) + |ChildEdges(registry, tid, j)|)
      {
        ChildEdgeAt(registry, aggregates, tid, j);
        if (j, tid) in registry.childOf {
          Follow(tid, "$" + registry.names[j], j, start,
            FirstChild(registry, aggregates, tid) + |ChildEdges(registry, tid, j)|);
        }
      }
    }

    method FollowAggregates(tid: TypeId, ghost start: seq<Record>)
      requires Valid() && tid < |registry.names| && tid !in alreadyProcessed
      requires Followed(tid, start, FirstAggregate(registry, aggregates, tid))
      modifies this`output, this`currentPath, this`alreadyProcessed
      ensures currentPath == old(currentPath) && alreadyProcessed == old(alreadyProcessed)
      ensures Followed(tid, start, |Graph()[tid]|)
      decreases Below(|registry.names|) - Members(alreadyProcessed), 1
    {
      hide RecordsOf, RecordsVia, Walks, WalksVia, AreWalksFrom, IsWalkFrom, Closed, TypeGraph, EdgesFrom, JoinPath;
      hide AttributeEdges, ChildEdges, AggregateEdges, FirstChild, FirstAggregate;
      LoopBounds(registry, aggregates, tid);
      ghost var first := FirstAggregate(registry, aggregates, tid);
      for k := 0 to |aggregates|
        invariant currentPath == old(currentPath) && alreadyProcessed == old(alreadyProcessed)
        invariant first + |AggregateEdges(registry, aggregates, tid, k)| <= |Graph()[tid]|
        invariant Followed(tid, start, first + |AggregateEdges(registry, aggregates, tid, k)|)
      {
        AggregateEdgeAt(registry, aggregates, tid, k);
        var (a, b) := aggregates[k];
        if a == tid || b == tid {
          var other := tid;
          if a == tid {
            other := b;
          }
          if b == tid {
            other := a;
          }
          Follow(tid, "$" + registry.names[other], other, start,
            first + |AggregateEdges(registry, aggregates, tid, k)|);
        }
      }
    }

    /** The stacks grow, the search continues at the end of the `n`-th edge, the stacks shrink. */
    method Follow(tid: TypeId, step: string, target: TypeId, ghost start: seq<Record>, ghost n: nat)
      requires Valid() && tid < |registry.names| && tid !in alreadyProcessed
      requires n < |Graph()[tid]| && Graph()[tid][n] == Edge(step, target)
      requires Followed(tid, start, n)
      modifies this`output, this`currentPath, this`alreadyProcessed
      ensures currentPath == old(currentPath) && alreadyProcessed == old(alreadyProcessed)
      ensures Followed(tid, start, n + 1)
      decreases Below(|registry.names|) - Members(alreadyProcessed), 0
    {
      hide RecordsOf, RecordsVia, Walks, WalksVia, AreWalksFrom, IsWalkFrom, Closed, TypeGraph, EdgesFrom, JoinPath;
      RecordsViaNext(Graph(), tid, currentPath, Members(alreadyProcessed) + {tid}, n);
      currentPath := currentPath + [step];
      alreadyProcessed := alreadyProcessed + [tid];
      assert Members(alreadyProcessed) == old(Members(alreadyProcessed)) + {tid};
      DoGather(target);
      alreadyProcessed := alreadyProcessed[..|alreadyProcessed| - 1];
      currentPath := currentPath[..|currentPath| - 1];
    }

    /** Started with empty stacks, the search records each walk from `tid` through distinct types
        exactly once and no other, in depth-first order. */
    method Gather(tid: TypeId) returns (ghost walks: seq<seq<nat>>)
      requires Valid() && tid < |registry.names| && currentPath == [] && alreadyProcessed == []
      modifies this`output, this`currentPath, this`alreadyProcessed
      ensures Distinct(walks) && InOrder(walks) && AreWalksFrom(Graph(), tid, walks)
      ensures forall w :: w in walks <==> IsWalkFrom(Graph(), tid, w) && Distinct(Met(Graph(), tid, w))
      ensures output == old(output) + RecordsOf(Graph(), tid, [], walks)
      ensures currentPath == [] && alreadyProcessed == []
    {
      walks := Walks(Graph(), tid, {});
      WalksNoRepeats(Graph(), tid, {});
      WalksInOrder(Graph(), tid, {});
      forall w ensures w in walks <==> IsWalkFrom(Graph(), tid, w) && Distinct(Met(Graph(), tid, w)) {
        WalksComplete(Graph(), tid, {}, w);
      }
      assert Members(alreadyProcessed) == {};
      DoGather(tid);
    }
  }
}
