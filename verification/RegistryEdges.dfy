/** The edges of the type graph in terms of the registry alone. */
module RegistryEdges {
  import opened ConfigPaths
  import opened LabelledWalks
  import opened Sequences

  // ----- Edges by attributes -----

  /** The attributes that lead on: containers, and pointers to other types than that of plain objects. */
  ghost function LeadingAttributes(r: Registry, t: TypeId, n: nat): set<nat>
    requires t < |r.attributes| && n <= |r.attributes[t]|
  {
    set i: nat | i < n &&
      match r.attributes[t][i].checker
      case PointerChecker(p) => p != r.plainObject
      case ObjectPtrContainerChecker(_) => true
      case OtherChecker => false
  }

  /** An attribute leads by a pointer or as a container, under its name. */
  predicate LeadsBy(a: Attribute, e: Edge) {
    || (a.checker == PointerChecker(e.target) && e.step == a.name)
    || (a.checker == ObjectPtrContainerChecker(e.target) && e.step == a.name + "/[i]")
  }

  /** Each of these attributes gives one edge, in attribute order. */
  ghost predicate ByAttributes(r: Registry, t: TypeId, n: nat, source: seq<nat>, es: seq<Edge>)
    requires t < |r.attributes| && n <= |r.attributes[t]|
  {
    && Enumerates(source, LeadingAttributes(r, t, n)) && |es| == |source|
    && forall k :: 0 <= k < |source| ==> LeadsBy(r.attributes[t][source[k]], es[k])
  }

  lemma {:induction false} AttributeEdgesAre(r: Registry, t: TypeId, n: nat) returns (source: seq<nat>)
    requires t < |r.attributes| && n <= |r.attributes[t]|
    ensures ByAttributes(r, t, n, source, AttributeEdges(r, t, n))
  {
    source := [];
    if n > 0 {
      source := AttributeEdgesAre(r, t, n - 1);
      var before := LeadingAttributes(r, t, n - 1);
      if AttributeEdge(r, r.attributes[t][n - 1]) != [] {
        EnumerateNext(source, before, n - 1);
        source := source + [n - 1];
        assert LeadingAttributes(r, t, n) == before + {n - 1};
      } else {
        assert LeadingAttributes(r, t, n) == before;
      }
    }
  }

  ghost predicate AttributeLeads(r: Registry, t: TypeId, step: string, u: TypeId)
    requires t < |r.attributes|
  {
    || (exists i :: 0 <= i < |r.attributes[t]| && r.attributes[t][i] == Attribute(step, PointerChecker(u))
                      && u != r.plainObject)
    || (exists i :: 0 <= i < |r.attributes[t]| && r.attributes[t][i].checker == ObjectPtrContainerChecker(u)
                      && step == r.attributes[t][i].name + "/[i]")
  }

  lemma {:induction false} AttributeEdgeIff(r: Registry, t: TypeId, e: Edge)
    requires t < |r.attributes|
    ensures e in AttributeEdges(r, t, |r.attributes[t]|) <==> AttributeLeads(r, t, e.step, e.target)
  {
    var es := AttributeEdges(r, t, |r.attributes[t]|);
    var source := AttributeEdgesAre(r, t, |r.attributes[t]|);
    if e in es {
      var k :| 0 <= k < |es| && es[k] == e;
      assert LeadsBy(r.attributes[t][source[k]], e);
    }
    if AttributeLeads(r, t, e.step, e.target) {
      var i :| 0 <= i < |r.attributes[t]| && AttributeEdge(r, r.attributes[t][i]) == [e];
      assert AttributeEdge(r, r.attributes[t][i])[0] == e;
      assert i in LeadingAttributes(r, t, |r.attributes[t]|);
      var k :| 0 <= k < |source| && source[k] == i;
      assert LeadsBy(r.attributes[t][i], es[k]);
    }
  }

  // ----- Edges to children -----

  ghost function Children(r: Registry, t: TypeId, n: nat): set<nat>
    requires n <= |r.names|
  {
    set u: nat | u < n && (u, t) in r.childOf
  }

  /** Each child of `t` among the registered types gives one edge, in the order of registration. */
  ghost predicate ToChildren(r: Registry, t: TypeId, n: nat, source: seq<nat>, es: seq<Edge>)
    requires n <= |r.names|
  {
    && Enumerates(source, Children(r, t, n)) && |es| == |source|
    && forall k :: 0 <= k < |source| ==> es[k] == Edge("$" + r.names[source[k]], source[k])
  }

  lemma {:induction false} ChildEdgesAre(r: Registry, t: TypeId, n: nat) returns (source: seq<nat>)
    requires n <= |r.names|
    ensures ToChildren(r, t, n, source, ChildEdges(r, t, n))
  {
    source := [];
    if n > 0 {
      source := ChildEdgesAre(r, t, n - 1);
      var before := Children(r, t, n - 1);
      if (n - 1, t) in r.childOf {
        EnumerateNext(source, before, n - 1);
        source := source + [n - 1];
        assert Children(r, t, n) == before + {n - 1};
      } else {
        assert Children(r, t, n) == before;
      }
    }
  }

  lemma {:induction false} ChildEdgeIff(r: Registry, t: TypeId, e: Edge)
    ensures e in ChildEdges(r, t, |r.names|) <==>
      e.target < |r.names| && (e.target, t) in r.childOf && e.step == "$" + r.names[e.target]
  {
    var es := ChildEdges(r, t, |r.names|);
    var source := ChildEdgesAre(r, t, |r.names|);
    if e in es {
      var k :| 0 <= k < |es| && es[k] == e;
      assert source[k] in Children(r, t, |r.names|);
    }
    if e.target in Children(r, t, |r.names|) {
      var k :| 0 <= k < |source| && source[k] == e.target;
      assert es[k].target == e.target;
    }
  }

  // ----- Edges by aggregation -----

  /** The first `n` aggregates that `t` is part of. */
  ghost function Partners(aggregates: Aggregates, t: TypeId, n: nat): set<nat>
    requires n <= |aggregates|
  {
    set i: nat | i < n && (aggregates[i].0 == t || aggregates[i].1 == t)
  }

  /** The edge leads to the other part. */
  predicate Pairs(r: Registry, t: TypeId, pair: (TypeId, TypeId), e: Edge) {
    (pair == (t, e.target) || pair == (e.target, t)) && e.target < |r.names| && e.step == "$" + r.names[e.target]
  }

  /** Each of these aggregates gives one edge, in the order in which they were recorded. */
  ghost predicate ByAggregates(r: Registry, aggregates: Aggregates, t: TypeId, n: nat, source: seq<nat>, es: seq<Edge>)
    requires n <= |aggregates|
  {
    && Enumerates(source, Partners(aggregates, t, n)) && |es| == |source|
    && forall k :: 0 <= k < |source| ==> Pairs(r, t, aggregates[source[k]], es[k])
  }

  lemma AggregateEdgeIs(r: Registry, t: TypeId, pair: (TypeId, TypeId))
    requires pair.0 < |r.names| && pair.1 < |r.names|
    ensures var es := AggregateEdge(r, t, pair);
      if pair.0 == t || pair.1 == t then |es| == 1 && Pairs(r, t, pair, es[0]) else es == []
  {
  }

  lemma {:induction false} AggregateEdgesAre(r: Registry, aggregates: Aggregates, t: TypeId, n: nat)
      returns (source: seq<nat>)
    requires ValidAggregates(r, aggregates) && n <= |aggregates|
    ensures ByAggregates(r, aggregates, t, n, source, AggregateEdges(r, aggregates, t, n))
  {
    source := [];
    if n > 0 {
      source := AggregateEdgesAre(r, aggregates, t, n - 1);
      AggregateEdgeIs(r, t, aggregates[n - 1]);
      hide AggregateEdge, Pairs;
      var before := Partners(aggregates, t, n - 1);
      if aggregates[n - 1].0 == t || aggregates[n - 1].1 == t {
        EnumerateNext(source, before, n - 1);
        source := source + [n - 1];
        assert Partners(aggregates, t, n) == before + {n - 1};
      } else {
        assert Partners(aggregates, t, n) == before;
      }
    }
  }

  lemma {:induction false} AggregateEdgeIff(r: Registry, aggregates: Aggregates, t: TypeId, e: Edge)
    requires ValidAggregates(r, aggregates)
    ensures e in AggregateEdges(r, aggregates, t, |aggregates|) <==>
      && ((t, e.target) in aggregates || (e.target, t) in aggregates)
      && e.target < |r.names| && e.step == "$" + r.names[e.target]
  {
    var es := AggregateEdges(r, aggregates, t, |aggregates|);
    var source := AggregateEdgesAre(r, aggregates, t, |aggregates|);
    if e in es {
      var k :| 0 <= k < |es| && es[k] == e;
      assert Pairs(r, t, aggregates[source[k]], e);
    }
    if i :| 0 <= i < |aggregates| && (aggregates[i] == (t, e.target) || aggregates[i] == (e.target, t)) {
      assert i in Partners(aggregates, t, |aggregates|);
      var k :| 0 <= k < |source| && source[k] == i;
      assert Pairs(r, t, aggregates[i], es[k]);
    }
  }

  // ----- All edges -----

  /** From `t` a step leads to `u` exactly when an attribute of `t` of that name points to `u`,
      which is not the type of plain objects, or contains objects of `u`; when `u` is a child of
      `t`; or when `t` and `u` are aggregated. */
  lemma TypeGraphIff(r: Registry, aggregates: Aggregates, t: TypeId, step: string, u: TypeId)
    requires ValidRegistry(r) && ValidAggregates(r, aggregates) && t < |r.names| && u < |r.names|
    ensures Edge(step, u) in TypeGraph(r, aggregates)[t] <==>
      || AttributeLeads(r, t, step, u)
      || ((u, t) in r.childOf && step == "$" + r.names[u])
      || (((t, u) in aggregates || (u, t) in aggregates) && step == "$" + r.names[u])
  {
    AttributeEdgeIff(r, t, Edge(step, u));
    ChildEdgeIff(r, t, Edge(step, u));
    AggregateEdgeIff(r, aggregates, t, Edge(step, u));
  }

  /** There is one edge for each reason, attributes first, then children, then aggregates. */
  lemma TypeGraphInOrder(r: Registry, aggregates: Aggregates, t: TypeId)
      returns (attributes: seq<nat>, children: seq<nat>, pairs: seq<nat>, a: seq<Edge>, c: seq<Edge>, g: seq<Edge>)
    requires ValidRegistry(r) && ValidAggregates(r, aggregates) && t < |r.names|
    ensures TypeGraph(r, aggregates)[t] == a + c + g
    ensures t < |r.attributes| && ByAttributes(r, t, |r.attributes[t]|, attributes, a)
    ensures ToChildren(r, t, |r.names|, children, c)
    ensures ByAggregates(r, aggregates, t, |aggregates|, pairs, g)
    ensures |TypeGraph(r, aggregates)[t]| == |LeadingAttributes(r, t, |r.attributes[t]|)|
      + |Children(r, t, |r.names|)| + |Partners(aggregates, t, |aggregates|)|
  {
    a, c := AttributeEdges(r, t, |r.attributes[t]|), ChildEdges(r, t, |r.names|);
    g := AggregateEdges(r, aggregates, t, |aggregates|);
    attributes := AttributeEdgesAre(r, t, |r.attributes[t]|);
    children := ChildEdgesAre(r, t, |r.names|);
    pairs := AggregateEdgesAre(r, aggregates, t, |aggregates|);
    EnumerationSize(attributes, LeadingAttributes(r, t, |r.attributes[t]|));
    EnumerationSize(children, Children(r, t, |r.names|));
    EnumerationSize(pairs, Partners(aggregates, t, |aggregates|));
  }
}
