/**
  Adjacency lists and the breadth-first walk over them (`buildIndex` and `reach`). The loop computes
  `Found`, one expansion at a time; what that sequence lists is proved by induction on the number of
  nodes expanded.
  */
module Walks {
  import opened Sequences
  import opened Digraph

  datatype Side = Parent | Child

  /** Adjacency lists, as the `Map<string, string[]>` built by `buildIndex`. */
  type Index = map<NodeId, seq<NodeId>>

  function Lookup(index: Index, n: NodeId): seq<NodeId> {
    if n in index then index[n] else []
  }

  function From(e: Edge, side: Side): NodeId {
    if side == Parent then e.parent else e.child
  }

  function To(e: Edge, side: Side): NodeId {
    if side == Parent then e.child else e.parent
  }

  /** The far ends of the edges whose `side` end is `n`, in edge order, parallel edges repeated. */
  function Neighbours(edges: seq<Edge>, side: Side, n: NodeId): seq<NodeId> {
    if edges == [] then []
    else
      var front, last := edges[..|edges|-1], edges[|edges|-1];
      Neighbours(front, side, n) + (if From(last, side) == n then [To(last, side)] else [])
  }

  lemma {:induction false} NeighboursAre(edges: seq<Edge>, side: Side, n: NodeId, m: NodeId)
    ensures m in Neighbours(edges, side, n) <==> (if side == Parent then Edge(n, m) else Edge(m, n)) in edges
  {
    if edges != [] {
      var front, last := edges[..|edges|-1], edges[|edges|-1];
      NeighboursAre(front, side, n, m);
      assert edges == front + [last];
    }
  }

  method BuildIndex(edges: seq<Edge>, side: Side) returns (index: Index)
    ensures forall n :: Lookup(index, n) == Neighbours(edges, side, n)
  {
    index := map[];
    for i := 0 to |edges|
      invariant forall n :: Lookup(index, n) == Neighbours(edges[..i], side, n)
    {
      var edge := edges[i];
      assert edges[..i+1][..i] == edges[..i];
      ghost var before := index;
      if From(edge, side) in index {
        index := index[From(edge, side) := index[From(edge, side)] + [To(edge, side)]];
      } else {
        index := index[From(edge, side) := [To(edge, side)]];
      }
      forall n ensures Lookup(index, n) == Neighbours(edges[..i+1], side, n) {
        assert Lookup(before, n) == Neighbours(edges[..i], side, n);
      }
    }
    assert edges[..|edges|] == edges;
  }

  /** `w` is a walk along the adjacency lists. */
  ghost predicate IsWalk(next: Index, w: seq<NodeId>) {
    && |w| > 0
    && forall i, j :: 0 <= i && j == i + 1 < |w| ==> w[j] in Lookup(next, w[i])
  }

  ghost predicate WalkFromTo(next: Index, w: seq<NodeId>, a: NodeId, b: NodeId) {
    IsWalk(next, w) && w[0] == a && w[|w|-1] == b
  }

  /** `b` can be reached from `a` in at most `d` steps. */
  ghost predicate Within(next: Index, a: NodeId, b: NodeId, d: nat) {
    exists w {:trigger WalkFromTo(next, w, a, b)} :: WalkFromTo(next, w, a, b) && |w| - 1 <= d
  }

  /** The members of `nodes` not seen yet, in order of first occurrence. */
  function Unseen(nodes: seq<NodeId>, seen: set<NodeId>): (r: seq<NodeId>)
    ensures forall v :: v in r <==> v in nodes && v !in seen
    ensures NoDuplicates(r)
  {
    if nodes == [] then []
    else
      var front, last := nodes[..|nodes|-1], nodes[|nodes|-1];
      assert nodes == front + [last];
      var r := Unseen(front, seen);
      if last in seen || last in front then r else r + [last]
  }

  /** The nodes found once the first `n` of them have been expanded, in the order they were found. */
  ghost function Found(next: Index, start: NodeId, n: nat): (r: seq<NodeId>)
    ensures |r| > 0 && r[0] == start
    decreases n, 0
  {
    if n == 0 then [start] else Found(next, start, n - 1) + Novel(next, start, n - 1)
  }

  /** What expanding node number `n` adds. */
  ghost function Novel(next: Index, start: NodeId, n: nat): seq<NodeId>
    decreases n, 1
  {
    var found := Found(next, start, n);
    if n < |found| then Unseen(Lookup(next, found[n]), Elements(found)) else []
  }

  /** The labels of the nodes in `Found`: one more than that of the node they were found from. */
  ghost function Depth(next: Index, start: NodeId, n: nat): (r: seq<nat>)
    ensures |r| == |Found(next, start, n)| && r[0] == 0
  {
    if n == 0 then [0]
    else
      var r := Depth(next, start, n - 1);
      r + seq(|Novel(next, start, n - 1)|, _ requires n - 1 < |r| => r[n-1] + 1)
  }

  lemma {:induction false} FoundDistinct(next: Index, start: NodeId, n: nat)
    ensures NoDuplicates(Found(next, start, n))
  {
    if n > 0 {
      FoundDistinct(next, start, n - 1);
      var f, novel := Found(next, start, n - 1), Novel(next, start, n - 1);
      forall i, j | 0 <= i < j < |f + novel| ensures (f + novel)[i] != (f + novel)[j] {
        assert j >= |f| ==> novel[j - |f|] in novel;
        assert i < |f| ==> f[i] in Elements(f);
      }
    }
  }

  /** Labels never decrease and run at most one ahead of the node to expand next. */
  ghost predicate Monotone(d: seq<nat>, n: nat) {
    && (forall i, j :: 0 <= i <= j < |d| ==> d[i] <= d[j])
    && (n < |d| ==> forall i :: 0 <= i < |d| ==> d[i] <= d[n] + 1)
  }

  lemma MonotoneNext(d: seq<nat>, d': seq<nat>, n: nat)
    requires n < |d| && Monotone(d, n) && d <= d'
    requires forall j :: |d| <= j < |d'| ==> d'[j] == d[n] + 1
    ensures Monotone(d', n + 1)
  {
    assert forall j :: 0 <= j < |d| ==> d'[j] == d[j];
  }

  lemma {:induction false} DepthMonotone(next: Index, start: NodeId, n: nat)
    requires n <= |Found(next, start, n)|
    ensures Monotone(Depth(next, start, n), n)
  {
    if n > 0 {
      assert n - 1 < |Found(next, start, n - 1)|;
      DepthMonotone(next, start, n - 1);
      MonotoneNext(Depth(next, start, n - 1), Depth(next, start, n), n - 1);
    }
  }

  /** Node number `k` was expanded: each neighbour is found, labelled at most one higher. */
  ghost predicate Expanded(next: Index, f: seq<NodeId>, d: seq<nat>, k: nat)
    requires k < |f| == |d|
  {
    forall i :: 0 <= i < |Lookup(next, f[k])| ==>
      exists j :: 0 <= j < |f| && f[j] == Lookup(next, f[k])[i] && d[j] <= d[k] + 1
  }

  lemma StaysExpanded(next: Index, f: seq<NodeId>, d: seq<nat>, f': seq<NodeId>, d': seq<nat>, k: nat)
    requires k < |f| == |d| && |f'| == |d'| && f <= f' && d <= d'
    requires Expanded(next, f, d, k)
    ensures Expanded(next, f', d', k)
  {
    forall i | 0 <= i < |Lookup(next, f'[k])|
      ensures exists j :: 0 <= j < |f'| && f'[j] == Lookup(next, f'[k])[i] && d'[j] <= d'[k] + 1
    {
      var j :| 0 <= j < |f| && f[j] == Lookup(next, f[k])[i] && d[j] <= d[k] + 1;
      assert f'[j] == f[j] && d'[j] == d[j];
    }
  }

  lemma BecomesExpanded(next: Index, f: seq<NodeId>, d: seq<nat>, novel: seq<NodeId>, d': seq<nat>, k: nat)
    requires k < |f| == |d| && |d'| == |f + novel| && d <= d'
    requires novel == Unseen(Lookup(next, f[k]), Elements(f))
    requires forall j :: |d| <= j < |d'| ==> d'[j] == d[k] + 1
    requires forall j :: 0 <= j < |d| ==> d[j] <= d[k] + 1
    ensures Expanded(next, f + novel, d', k)
  {
    var neighbours := Lookup(next, f[k]);
    forall i | 0 <= i < |neighbours|
      ensures exists j :: 0 <= j < |f + novel| && (f + novel)[j] == neighbours[i] && d'[j] <= d'[k] + 1
    {
      if neighbours[i] in f {
        var j :| 0 <= j < |f| && f[j] == neighbours[i];
        assert (f + novel)[j] == f[j] && d'[j] == d[j];
      } else {
        assert neighbours[i] in novel;
        var j :| 0 <= j < |novel| && novel[j] == neighbours[i];
        assert (f + novel)[|f| + j] == novel[j];
      }
    }
  }

  lemma {:induction false} AllExpanded(next: Index, start: NodeId, n: nat, k: nat)
    requires k < n <= |Found(next, start, n)|
    ensures Expanded(next, Found(next, start, n), Depth(next, start, n), k)
  {
    var f, d := Found(next, start, n - 1), Depth(next, start, n - 1);
    if k < n - 1 {
      AllExpanded(next, start, n - 1, k);
      StaysExpanded(next, f, d, Found(next, start, n), Depth(next, start, n), k);
    } else {
      DepthMonotone(next, start, n - 1);
      BecomesExpanded(next, f, d, Novel(next, start, k), Depth(next, start, n), k);
    }
  }

  lemma OneStepFurther(next: Index, a: NodeId, b: NodeId, d: nat, c: NodeId)
    requires Within(next, a, b, d) && c in Lookup(next, b)
    ensures Within(next, a, c, d + 1)
  {
    var w :| WalkFromTo(next, w, a, b) && |w| - 1 <= d;
    assert WalkFromTo(next, w + [c], a, c);
  }

  /** Labels are lengths of walks. */
  lemma {:induction false} FoundIsReached(next: Index, start: NodeId, n: nat, k: nat)
    requires n <= |Found(next, start, n)| && k < |Found(next, start, n)|
    ensures Within(next, start, Found(next, start, n)[k], Depth(next, start, n)[k])
  {
    if n == 0 {
      assert WalkFromTo(next, [start], start, start);
    } else {
      var f, d := Found(next, start, n - 1), Depth(next, start, n - 1);
      if k < |f| {
        FoundIsReached(next, start, n - 1, k);
      } else {
        FoundIsReached(next, start, n - 1, n - 1);
        NovelIsReached(next, start, n, k);
      }
    }
  }

  lemma NovelIsReached(next: Index, start: NodeId, n: nat, k: nat)
    requires 0 < n <= |Found(next, start, n - 1)| <= k < |Found(next, start, n)|
    requires Within(next, start, Found(next, start, n - 1)[n-1], Depth(next, start, n - 1)[n-1])
    ensures Within(next, start, Found(next, start, n)[k], Depth(next, start, n)[k])
  {
    var f, d := Found(next, start, n - 1), Depth(next, start, n - 1);
    var novel := Novel(next, start, n - 1);
    assert novel[k - |f|] in novel;
    OneStepFurther(next, start, f[n-1], d[n-1], novel[k - |f|]);
  }

  /** Once every node is expanded, labels bound walk lengths from below. */
  lemma {:induction false} WalkIsLong(next: Index, f: seq<NodeId>, d: seq<nat>, w: seq<NodeId>) returns (k: nat)
    requires |f| == |d| && |f| > 0 && d[0] == 0
    requires forall k :: 0 <= k < |f| ==> Expanded(next, f, d, k)
    requires IsWalk(next, w) && w[0] == f[0]
    ensures k < |f| && f[k] == w[|w|-1] && d[k] <= |w| - 1
  {
    if |w| == 1 {
      k := 0;
    } else {
      var k0 := WalkIsLong(next, f, d, w[..|w|-1]);
      assert Expanded(next, f, d, k0);
      assert w[|w|-1] in Lookup(next, w[|w|-2]);
      var i :| 0 <= i < |Lookup(next, f[k0])| && Lookup(next, f[k0])[i] == w[|w|-1];
      k :| 0 <= k < |f| && f[k] == w[|w|-1] && d[k] <= d[k0] + 1;
    }
  }

  ghost predicate IsSuffix(part: seq<NodeId>, all: seq<NodeId>, start: nat) {
    start + |part| == |all| && forall k :: 0 <= k < |part| ==> part[k] == all[start + k]
  }

  /** `f` lists nodes with their distances `d` from `start`, nearest first. */
  ghost predicate Distances(next: Index, start: NodeId, f: seq<NodeId>, d: seq<nat>) {
    && |f| == |d| && |f| > 0 && f[0] == start && NoDuplicates(f)
    && (forall i, j :: 0 <= i <= j < |d| ==> d[i] <= d[j])
    && (forall k :: 0 <= k < |f| ==> Within(next, start, f[k], d[k]))
    && forall v, m: nat :: Within(next, start, v, m) ==> exists k :: 0 <= k < |f| && f[k] == v && d[k] <= m
  }

  /** When nothing is left to expand, everything reachable is found, with its distance. */
  lemma FoundAreDistances(next: Index, start: NodeId, n: nat)
    requires n == |Found(next, start, n)|
    ensures Distances(next, start, Found(next, start, n), Depth(next, start, n))
  {
    var f, d := Found(next, start, n), Depth(next, start, n);
    FoundDistinct(next, start, n);
    DepthMonotone(next, start, n);
    forall k | 0 <= k < |f| ensures Expanded(next, f, d, k) && Within(next, start, f[k], d[k]) {
      AllExpanded(next, start, n, k);
      FoundIsReached(next, start, n, k);
    }
    forall v, m: nat | Within(next, start, v, m)
      ensures exists k :: 0 <= k < |f| && f[k] == v && d[k] <= m
    {
      var w :| WalkFromTo(next, w, start, v) && |w| - 1 <= m;
      var k := WalkIsLong(next, f, d, w);
    }
  }

  lemma OrderIsSound(next: Index, start: NodeId, f: seq<NodeId>, d: seq<nat>, order: seq<NodeId>, v: NodeId)
    requires Distances(next, start, f, d) && IsSuffix(order, f, 1) && v in order
    ensures v != start && exists d :: Within(next, start, v, d)
  {
    var k :| 0 <= k < |order| && order[k] == v;
    assert Within(next, start, f[k+1], d[k+1]);
  }

  lemma OrderIsComplete(next: Index, start: NodeId, f: seq<NodeId>, d: seq<nat>, order: seq<NodeId>, v: NodeId, m: nat)
    requires Distances(next, start, f, d) && IsSuffix(order, f, 1)
    requires v != start && Within(next, start, v, m)
    ensures v in order
  {
    var k :| 0 <= k < |f| && f[k] == v && d[k] <= m;
    assert order[k-1] == v;
  }

  lemma NearestFirst(next: Index, start: NodeId, f: seq<NodeId>, d: seq<nat>, order: seq<NodeId>, i: nat, j: nat,
                     m: nat)
    requires Distances(next, start, f, d) && IsSuffix(order, f, 1)
    requires i <= j < |order| && Within(next, start, order[j], m)
    ensures Within(next, start, order[i], m)
  {
    var k :| 0 <= k < |f| && f[k] == order[j] && d[k] <= m;
    assert k == j + 1 by { assert f[j+1] == f[k]; }
    assert Within(next, start, f[i+1], d[i+1]);
    var w :| WalkFromTo(next, w, start, f[i+1]) && |w| - 1 <= d[i+1];
    assert d[i+1] <= d[j+1];
  }

  lemma WalkEnds(next: Index, start: NodeId, f: seq<NodeId>, d: seq<nat>, order: seq<NodeId>)
    requires Distances(next, start, f, d) && IsSuffix(order, f, 1)
    ensures NoDuplicates(order)
    ensures forall v :: v in order <==> v != start && exists d :: Within(next, start, v, d)
    ensures forall i, j, d :: 0 <= i <= j < |order| && Within(next, start, order[j], d)
                              ==> Within(next, start, order[i], d)
  {
    forall v ensures v in order <==> v != start && exists d :: Within(next, start, v, d) {
      if v in order { OrderIsSound(next, start, f, d, order, v); }
      forall m: nat | v != start && Within(next, start, v, m) ensures v in order {
        OrderIsComplete(next, start, f, d, order, v, m);
      }
    }
    forall i, j, m | 0 <= i <= j < |order| && Within(next, start, order[j], m)
      ensures Within(next, start, order[i], m)
    {
      NearestFirst(next, start, f, d, order, i, j, m);
    }
    assert forall k :: 0 <= k < |order| ==> order[k] == f[k+1];
  }

  lemma Walked(next: Index, start: NodeId, n: nat, order: seq<NodeId>)
    requires n == |Found(next, start, n)| && IsSuffix(order, Found(next, start, n), 1)
    ensures NoDuplicates(order)
    ensures forall v :: v in order <==> v != start && exists d :: Within(next, start, v, d)
    ensures forall i, j, d :: 0 <= i <= j < |order| && Within(next, start, order[j], d)
                              ==> Within(next, start, order[i], d)
  {
    FoundAreDistances(next, start, n);
    WalkEnds(next, start, Found(next, start, n), Depth(next, start, n), order);
  }

  lemma Universe(start: NodeId, next: Index) returns (universe: set<NodeId>)
    ensures start in universe && forall n :: Elements(Lookup(next, n)) <= universe
  {
    universe := {start} + set n, k | n in next && 0 <= k < |next[n]| :: next[n][k];
    forall n, v | v in Lookup(next, n) ensures v in universe {
      var k :| 0 <= k < |next[n]| && next[n][k] == v;
    }
  }

  /** Expanding a node adds only nodes of the finite universe that were not visited before. */
  lemma NovelInUniverse(next: Index, node: NodeId, visited: set<NodeId>, universe: set<NodeId>)
    requires Elements(Lookup(next, node)) <= universe
    ensures var novel := Unseen(Lookup(next, node), visited);
            && Elements(novel) <= universe
            && universe - (visited + Elements(novel)) <= universe - visited
            && (novel != [] ==> universe - (visited + Elements(novel)) < universe - visited)
  {
    var novel := Unseen(Lookup(next, node), visited);
    assert novel != [] ==> novel[0] in universe - visited;
    assert forall v :: v in novel ==> v in Elements(Lookup(next, node));
    assert novel != [] ==> novel[0] in novel;
  }

  lemma SuffixGrows(part: seq<NodeId>, all: seq<NodeId>, start: nat, more: seq<NodeId>)
    requires IsSuffix(part, all, start)
    ensures IsSuffix(part + more, all + more, start)
    ensures part != [] ==> IsSuffix(part[1..] + more, all + more, start + 1)
  {
  }

  /** The inner loop of the walk: queue the neighbours of one node that were not visited yet. */
  method Visit(neighbours: seq<NodeId>, visited0: set<NodeId>, order0: seq<NodeId>, queue0: seq<NodeId>)
    returns (visited: set<NodeId>, order: seq<NodeId>, queue: seq<NodeId>)
    ensures visited == visited0 + Elements(Unseen(neighbours, visited0))
    ensures order == order0 + Unseen(neighbours, visited0)
    ensures queue == queue0 + Unseen(neighbours, visited0)
  {
    visited, order, queue := visited0, order0, queue0;
    for i := 0 to |neighbours|
      invariant visited == visited0 + Elements(Unseen(neighbours[..i], visited0))
      invariant order == order0 + Unseen(neighbours[..i], visited0)
      invariant queue == queue0 + Unseen(neighbours[..i], visited0)
    {
      var neighbour := neighbours[i];
      assert neighbours[..i+1][..i] == neighbours[..i];
      if neighbour in visited { continue; }
      visited := visited + {neighbour};
      order := order + [neighbour];
      queue := queue + [neighbour];
    }
    assert neighbours[..|neighbours|] == neighbours;
  }

  /**
    Breadth-first walk over arbitrary adjacency lists, cycles included: the result lists each node
    that can be reached from `start`, other than `start`, once, nearest first.
    */
  method Reach(start: NodeId, next: Index) returns (order: seq<NodeId>)
    ensures NoDuplicates(order)
    ensures forall v :: v in order <==> v != start && exists d :: Within(next, start, v, d)
    ensures forall i, j, d :: 0 <= i <= j < |order| && Within(next, start, order[j], d)
                              ==> Within(next, start, order[i], d)
  {
    ghost var universe := Universe(start, next);
    ghost var n := 0;
    var visited := {start};
    var queue := [start];
    order := [];
    while |queue| > 0
      invariant IsSuffix(queue, Found(next, start, n), n) && IsSuffix(order, Found(next, start, n), 1)
      invariant visited == Elements(Found(next, start, n)) && visited <= universe
      decreases universe - visited, |queue|
    {
      var node := queue[0];
      ghost var novel := Novel(next, start, n);
      NovelInUniverse(next, node, visited, universe);
      SuffixGrows(queue, Found(next, start, n), n, novel);
      SuffixGrows(order, Found(next, start, n), 1, novel);
      queue := queue[1..];
      visited, order, queue := Visit(Lookup(next, node), visited, order, queue);
      n := n + 1;
    }
    Walked(next, start, n, order);
  }
}
