/** Walks through a labelled multigraph that never meet a node twice, listed in the order of a
    depth-first search. */
module LabelledWalks {
  import opened Sequences

  datatype Edge = Edge(step: string, target: nat)

  /** The edges leaving each node. */
  type Table = seq<seq<Edge>>

  ghost predicate Closed(g: Table) {
    forall t, i :: 0 <= t < |g| && 0 <= i < |g[t]| ==> g[t][i].target < |g|
  }

  // ----- Walks, given by the positions of the edges taken -----

  ghost predicate IsWalkFrom(g: Table, t: nat, w: seq<nat>)
    decreases |w|
  {
    t < |g| && (w != [] ==> w[0] < |g[t]| && IsWalkFrom(g, g[t][w[0]].target, w[1..]))
  }

  /** The nodes met, the first included. */
  ghost function Met(g: Table, t: nat, w: seq<nat>): seq<nat>
    requires IsWalkFrom(g, t, w)
    decreases |w|
  {
    if w == [] then [t] else [t] + Met(g, g[t][w[0]].target, w[1..])
  }

  ghost function Labels(g: Table, t: nat, w: seq<nat>): seq<string>
    requires IsWalkFrom(g, t, w)
    decreases |w|
  {
    if w == [] then [] else [g[t][w[0]].step] + Labels(g, g[t][w[0]].target, w[1..])
  }

  ghost function End(g: Table, t: nat, w: seq<nat>): nat
    requires IsWalkFrom(g, t, w)
    decreases |w|
  {
    if w == [] then t else End(g, g[t][w[0]].target, w[1..])
  }

  /** The walk meets distinct nodes, none of them in `avoid`. */
  ghost predicate IsSimpleWalk(g: Table, t: nat, avoid: set<nat>, w: seq<nat>) {
    IsWalkFrom(g, t, w) && Distinct(Met(g, t, w)) && forall x :: x in Met(g, t, w) ==> x !in avoid
  }

  lemma {:induction false} SimpleWalkStep(g: Table, t: nat, avoid: set<nat>, w: seq<nat>)
    requires IsWalkFrom(g, t, w) && w != []
    ensures IsSimpleWalk(g, t, avoid, w) <==>
      t !in avoid && IsSimpleWalk(g, g[t][w[0]].target, avoid + {t}, w[1..])
  {
    var rest := Met(g, g[t][w[0]].target, w[1..]);
    var met := Met(g, t, w);
    assert met == [t] + rest;
    assert forall i :: 0 < i < |met| ==> met[i] == rest[i - 1];
    if t !in avoid && IsSimpleWalk(g, g[t][w[0]].target, avoid + {t}, w[1..]) {
      assert forall i :: 0 <= i < |rest| ==> rest[i] in rest;
    }
    if IsSimpleWalk(g, t, avoid, w) {
      assert met[0] == t && t in met;
      assert forall i :: 0 <= i < |rest| ==> rest[i] == met[i + 1];
      forall x | x in rest ensures x !in avoid + {t} {
        var i :| 0 <= i < |rest| && rest[i] == x;
        assert met[i + 1] == x;
      }
    }
  }

  // ----- The walks of the depth-first search -----

  function Prefixed(i: nat, ws: seq<seq<nat>>): (r: seq<seq<nat>>)
    ensures |r| == |ws| && forall k :: 0 <= k < |ws| ==> r[k] == [i] + ws[k]
  {
    seq(|ws|, k requires 0 <= k < |ws| => [i] + ws[k])
  }

  ghost function Below(n: nat): (s: set<nat>)
    ensures forall x :: x in s <==> 0 <= x < n
  {
    if n == 0 then {} else Below(n - 1) + {n - 1}
  }

  ghost function AllNodes(g: Table): set<nat> {
    Below(|g|)
  }

  ghost predicate AreWalksFrom(g: Table, t: nat, ws: seq<seq<nat>>) {
    forall k :: 0 <= k < |ws| ==> IsWalkFrom(g, t, ws[k])
  }

  /** All simple walks from `t` that keep out of `avoid`, shorter prefixes first. */
  ghost function Walks(g: Table, t: nat, avoid: set<nat>): (ws: seq<seq<nat>>)
    requires Closed(g) && t < |g|
    ensures AreWalksFrom(g, t, ws)
    decreases AllNodes(g) - avoid, 0
  {
    if t in avoid then []
    else
      assert t in AllNodes(g) - avoid && t !in AllNodes(g) - (avoid + {t});
      assert AllNodes(g) - (avoid + {t}) <= AllNodes(g) - avoid;
      [[]] + WalksVia(g, t, avoid + {t}, |g[t]|)
  }

  /** Those that start with one of the first `n` edges of `t`. */
  ghost function WalksVia(g: Table, t: nat, avoid: set<nat>, n: nat): (ws: seq<seq<nat>>)
    requires Closed(g) && t < |g| && n <= |g[t]|
    ensures AreWalksFrom(g, t, ws)
    decreases AllNodes(g) - avoid, n + 1
  {
    if n == 0 then []
    else WalksVia(g, t, avoid, n - 1) + Prefixed(n - 1, Walks(g, g[t][n - 1].target, avoid))
  }

  lemma {:induction false} WalksComplete(g: Table, t: nat, avoid: set<nat>, w: seq<nat>)
    requires Closed(g) && t < |g|
    ensures w in Walks(g, t, avoid) <==> IsSimpleWalk(g, t, avoid, w)
    decreases AllNodes(g) - avoid, 0
  {
    if t in avoid {
      if IsWalkFrom(g, t, w) {
        assert Met(g, t, w)[0] in Met(g, t, w);
      }
    } else if w == [] {
      assert Walks(g, t, avoid)[0] == w;
      assert Met(g, t, w) == [t];
    } else {
      assert t in AllNodes(g) - avoid && t !in AllNodes(g) - (avoid + {t});
      assert AllNodes(g) - (avoid + {t}) <= AllNodes(g) - avoid;
      ViaComplete(g, t, avoid + {t}, |g[t]|, w);
      if IsWalkFrom(g, t, w) {
        SimpleWalkStep(g, t, avoid, w);
      }
    }
  }

  lemma {:induction false} ViaComplete(g: Table, t: nat, avoid: set<nat>, n: nat, w: seq<nat>)
    requires Closed(g) && t < |g| && n <= |g[t]| && w != []
    ensures w in WalksVia(g, t, avoid, n) <==>
      w[0] < n && IsSimpleWalk(g, g[t][w[0]].target, avoid, w[1..])
    decreases AllNodes(g) - avoid, n + 1
  {
    if n > 0 {
      ViaComplete(g, t, avoid, n - 1, w);
      var ws := Walks(g, g[t][n - 1].target, avoid);
      WalksComplete(g, g[t][n - 1].target, avoid, w[1..]);
      var ps := Prefixed(n - 1, ws);
      if w in ps {
        var k :| 0 <= k < |ws| && ps[k] == w;
        assert w[1..] == ws[k] && w[0] == n - 1;
      }
      if w[0] == n - 1 && w[1..] in ws {
        var k :| 0 <= k < |ws| && ws[k] == w[1..];
        assert ps[k] == [w[0]] + w[1..] == w;
      }
    }
  }

  /** `a` comes before `b` in a depth-first search: it stops where `b` goes on, or takes an earlier
      edge where they part. */
  predicate Earlier(a: seq<nat>, b: seq<nat>) {
    b != [] && (a == [] || a[0] < b[0] || (a[0] == b[0] && Earlier(a[1..], b[1..])))
  }

  ghost predicate InOrder(ws: seq<seq<nat>>) {
    forall i, j :: 0 <= i < j < |ws| ==> Earlier(ws[i], ws[j])
  }

  /** The walks are listed in the order of a depth-first search that records a node when it comes
      to it. */
  lemma {:induction false} WalksInOrder(g: Table, t: nat, avoid: set<nat>)
    requires Closed(g) && t < |g|
    ensures InOrder(Walks(g, t, avoid))
    decreases AllNodes(g) - avoid, 0
  {
    if t !in avoid {
      assert t in AllNodes(g) - avoid && t !in AllNodes(g) - (avoid + {t});
      assert AllNodes(g) - (avoid + {t}) <= AllNodes(g) - avoid;
      ViaInOrder(g, t, avoid + {t}, |g[t]|);
    }
  }

  lemma {:induction false} ViaInOrder(g: Table, t: nat, avoid: set<nat>, n: nat)
    requires Closed(g) && t < |g| && n <= |g[t]|
    ensures InOrder(WalksVia(g, t, avoid, n))
    ensures forall k :: 0 <= k < |WalksVia(g, t, avoid, n)| ==>
      WalksVia(g, t, avoid, n)[k] != [] && WalksVia(g, t, avoid, n)[k][0] < n
    decreases AllNodes(g) - avoid, n + 1
  {
    if n > 0 {
      ViaInOrder(g, t, avoid, n - 1);
      var ws := Walks(g, g[t][n - 1].target, avoid);
      WalksInOrder(g, g[t][n - 1].target, avoid);
      var ps := Prefixed(n - 1, ws);
      forall i, j | 0 <= i < j < |ps| ensures Earlier(ps[i], ps[j]) {
        assert ps[i][1..] == ws[i] && ps[j][1..] == ws[j];
      }
    }
  }

  lemma {:induction false} EarlierIsOther(a: seq<nat>)
    ensures !Earlier(a, a)
  {
    if a != [] {
      EarlierIsOther(a[1..]);
    }
  }

  lemma WalksNoRepeats(g: Table, t: nat, avoid: set<nat>)
    requires Closed(g) && t < |g|
    ensures Distinct(Walks(g, t, avoid))
  {
    var ws := Walks(g, t, avoid);
    WalksInOrder(g, t, avoid);
    forall i, j | 0 <= i < j < |ws| ensures ws[i] != ws[j] {
      EarlierIsOther(ws[i]);
    }
  }
}
