/**
  Longest-path layering over an acyclic graph by Kahn's algorithm: the middle part of `layeredLayout`.
  `Lay` and `Pending` give the loop's two maps as functions of the nodes dequeued so far.
  */
module Layering {
  import opened Common
  import opened Sequences
  import opened Digraph
  import opened Walks

  /** The layer of `v` once the nodes of `done` have been dequeued, in that order. */
  ghost function Lay(dag: seq<Edge>, done: seq<NodeId>, v: NodeId): nat {
    if done == [] then 0
    else
      var before, u := done[..|done|-1], done[|done|-1];
      if Edge(u, v) in dag then Max(Lay(dag, before, v), Lay(dag, before, u) + 1) else Lay(dag, before, v)
  }

  /** The number of edges into `v` from nodes not dequeued yet, parallel edges counted. */
  ghost function Pending(dag: seq<Edge>, done: set<NodeId>, v: NodeId): nat {
    if dag == [] then 0
    else
      var e := dag[|dag|-1];
      Pending(dag[..|dag|-1], done, v) + if e.child == v && e.parent !in done then 1 else 0
  }

  lemma {:induction false} PendingAll(dag: seq<Edge>, v: NodeId)
    ensures |Neighbours(dag, Child, v)| == Pending(dag, {}, v)
  {
    if dag != [] { PendingAll(dag[..|dag|-1], v); }
  }

  /** Dequeuing `u` releases as many edges into `v` as `u` lists `v` among its children. */
  lemma {:induction false} PendingDrops(dag: seq<Edge>, done: set<NodeId>, u: NodeId, v: NodeId)
    requires u !in done
    ensures Pending(dag, done + {u}, v) + multiset(Neighbours(dag, Parent, u))[v] == Pending(dag, done, v)
  {
    if dag != [] {
      PendingDrops(dag[..|dag|-1], done, u, v);
      var front := Neighbours(dag[..|dag|-1], Parent, u);
      var e := dag[|dag|-1];
      if e.parent == u {
        assert multiset(front + [e.child]) == multiset(front) + multiset{e.child};
      } else {
        assert front + [] == front;
      }
    }
  }

  lemma {:induction false} PendingMeans(dag: seq<Edge>, done: set<NodeId>, v: NodeId)
    ensures Pending(dag, done, v) == 0 <==> forall e :: e in dag && e.child == v ==> e.parent in done
  {
    if dag != [] {
      var m := |dag| - 1;
      PendingMeans(dag[..m], done, v);
      assert forall e :: e in dag <==> e in dag[..m] || e == dag[m];
    }
  }

  // ---- Longest paths ---------------------------------------------------------------------------

  ghost predicate PathTo(dag: seq<Edge>, p: seq<NodeId>, v: NodeId) {
    IsPath(dag, p) && p[|p|-1] == v
  }

  /** The longest path ending at `v` has `k` edges. */
  ghost predicate IsLongest(dag: seq<Edge>, v: NodeId, k: int) {
    && (exists p :: PathTo(dag, p, v) && |p| - 1 == k)
    && (forall p :: PathTo(dag, p, v) ==> |p| - 1 <= k)
  }

  /** Every node comes after all its parents. */
  ghost predicate Topological(dag: seq<Edge>, done: seq<NodeId>) {
    forall i :: 0 <= i < |done| ==> ParentsIn(dag, done[..i], done[i])
  }

  ghost predicate ParentsIn(dag: seq<Edge>, done: seq<NodeId>, v: NodeId) {
    forall e :: e in dag && e.child == v ==> e.parent in done
  }

  lemma {:induction false} LayGrows(dag: seq<Edge>, done: seq<NodeId>, i: nat, v: NodeId)
    requires i <= |done|
    ensures Lay(dag, done[..i], v) <= Lay(dag, done, v)
    decreases |done|
  {
    if i < |done| {
      var before := done[..|done|-1];
      LayGrows(dag, before, i, v);
      assert before[..i] == done[..i];
    } else {
      assert done[..i] == done;
    }
  }

  /** Once the parents of `v` are dequeued, dequeuing others leaves its layer alone. */
  lemma {:induction false} LayIsStable(dag: seq<Edge>, done: seq<NodeId>, i: nat, v: NodeId)
    requires i <= |done| && NoDuplicates(done) && ParentsIn(dag, done[..i], v)
    ensures Lay(dag, done[..i], v) == Lay(dag, done, v)
    decreases |done|
  {
    if i < |done| {
      var m := |done| - 1;
      var before := done[..m];
      assert before[..i] == done[..i];
      LayIsStable(dag, before, i, v);
      assert done[m] !in done[..i];
      assert Edge(done[m], v) !in dag;
    } else {
      assert done[..i] == done;
    }
  }

  lemma LayFollowsEdge(dag: seq<Edge>, done: seq<NodeId>, i: nat, v: NodeId)
    requires i < |done| && NoDuplicates(done) && Topological(dag, done)
    requires Edge(done[i], v) in dag
    ensures Lay(dag, done, done[i]) + 1 <= Lay(dag, done, v)
  {
    assert ParentsIn(dag, done[..i], done[i]);
    LayIsStable(dag, done, i, done[i]);
    assert done[..i+1][..i] == done[..i];
    assert Lay(dag, done[..i], done[i]) + 1 <= Lay(dag, done[..i+1], v);
    LayGrows(dag, done, i + 1, v);
  }

  /** No path is longer than the layer of the node it ends at. */
  lemma {:induction false} LayBoundsPaths(dag: seq<Edge>, done: seq<NodeId>, p: seq<NodeId>, v: NodeId)
    requires NoDuplicates(done) && Topological(dag, done) && PathTo(dag, p, v) && ParentsIn(dag, done, v)
    ensures |p| - 1 <= Lay(dag, done, v)
    decreases |p|
  {
    if |p| > 1 {
      var q := p[..|p|-1];
      var u := q[|q|-1];
      assert Edge(p[|p|-2], p[|p|-1]) in dag;
      var i :| 0 <= i < |done| && done[i] == u;
      assert ParentsIn(dag, done[..i], u);
      assert ParentsIn(dag, done, u);
      LayBoundsPaths(dag, done, q, u);
      LayFollowsEdge(dag, done, i, v);
    }
  }

  /** Some path is as long as the layer says. */
  lemma {:induction false} LayIsReached(dag: seq<Edge>, done: seq<NodeId>, v: NodeId) returns (p: seq<NodeId>)
    ensures PathTo(dag, p, v) && |p| - 1 == Lay(dag, done, v)
    decreases |done|
  {
    if done == [] {
      p := [v];
    } else {
      var before, u := done[..|done|-1], done[|done|-1];
      if Edge(u, v) in dag && Lay(dag, before, v) < Lay(dag, before, u) + 1 {
        p := LayIsReached(dag, before, u);
        p := p + [v];
      } else {
        p := LayIsReached(dag, before, v);
      }
    }
  }

  lemma LayIsLongest(dag: seq<Edge>, done: seq<NodeId>, v: NodeId)
    requires NoDuplicates(done) && Topological(dag, done) && ParentsIn(dag, done, v)
    ensures IsLongest(dag, v, Lay(dag, done, v))
  {
    var p := LayIsReached(dag, done, v);
    forall q | PathTo(dag, q, v) ensures |q| - 1 <= Lay(dag, done, v) {
      LayBoundsPaths(dag, done, q, v);
    }
  }

  // ---- Nothing is left behind ------------------------------------------------------------------

  function Flip(edges: seq<Edge>): (r: seq<Edge>)
    ensures |r| == |edges| && forall i :: 0 <= i < |r| ==> r[i] == Edge(edges[i].child, edges[i].parent)
  {
    seq(|edges|, i requires 0 <= i < |edges| => Edge(edges[i].child, edges[i].parent))
  }

  lemma FlippedEdge(edges: seq<Edge>, a: NodeId, b: NodeId)
    ensures Edge(a, b) in Flip(edges) <==> Edge(b, a) in edges
  {
    if Edge(b, a) in edges {
      var i :| 0 <= i < |edges| && edges[i] == Edge(b, a);
      assert Flip(edges)[i] == Edge(a, b);
    }
  }

  lemma FlippedDependency(edges: seq<Edge>, a: NodeId, b: NodeId)
    requires DependsOn(Flip(edges), a, b)
    ensures DependsOn(edges, b, a)
  {
    var p :| PathFromTo(Flip(edges), p, a, b) && |p| >= 2;
    var r := Reversed(p);
    forall i, j | 0 <= i && j == i + 1 < |r| ensures Edge(r[i], r[j]) in edges {
      var k, l := |p| - 1 - j, |p| - 1 - i;
      assert l == k + 1 && Edge(p[k], p[l]) in Flip(edges);
      FlippedEdge(edges, p[k], p[l]);
    }
    assert PathFromTo(edges, r, b, a);
  }

  lemma FlipIsAcyclic(edges: seq<Edge>)
    requires Acyclic(edges)
    ensures Acyclic(Flip(edges))
  {
    forall n ensures !DependsOn(Flip(edges), n, n) {
      if DependsOn(Flip(edges), n, n) { FlippedDependency(edges, n, n); }
    }
  }

  /** In an acyclic graph some node of a non-empty set has no parent in the set. */
  lemma SourceExists(dag: seq<Edge>, nodes: set<NodeId>, n: NodeId) returns (source: NodeId)
    requires Acyclic(dag) && n in nodes
    ensures source in nodes && forall e :: e in dag && e.child == source ==> e.parent !in nodes
  {
    FlipIsAcyclic(dag);
    var p := WalkToSink(Flip(dag), nodes, n, {});
    source := p[|p|-1];
    forall e | e in dag && e.child == source ensures e.parent !in nodes {
      assert e == Edge(e.parent, e.child);
      FlippedEdge(dag, e.child, e.parent);
    }
  }

  // ---- The code --------------------------------------------------------------------------------

  /** What dequeuing `node` does to the two maps, and the nodes it was the last to hold back. */
  ghost predicate Released(node: NodeId, children: seq<NodeId>, layer: map<NodeId, int>, indegree: map<NodeId, int>,
                           layer': map<NodeId, int>, indegree': map<NodeId, int>, released: seq<NodeId>)
  {
    && node in layer && layer'.Keys == layer.Keys && indegree'.Keys == indegree.Keys
    && (forall v :: v in layer ==> layer'[v] == if v in children then Max(layer[v], layer[node] + 1) else layer[v])
    && (forall v :: v in indegree ==> indegree'[v] == indegree[v] - multiset(children)[v])
    && NoDuplicates(released)
    && (forall v :: v in released <==> v in children && v in indegree' && indegree'[v] == 0)
  }

  /** Nothing stops `node` from being dequeued. */
  ghost predicate Releasable(node: NodeId, children: seq<NodeId>, layer: map<NodeId, int>, indegree: map<NodeId, int>) {
    && node in layer && node !in children
    && forall v :: v in children ==> v in layer && v in indegree && multiset(children)[v] <= indegree[v]
  }

  /** The inner loop: raise the children of `node` and release those it was the last to hold back. */
  method Release(node: NodeId, children: seq<NodeId>, layer0: map<NodeId, int>, indegree0: map<NodeId, int>)
    returns (layer: map<NodeId, int>, indegree: map<NodeId, int>, released: seq<NodeId>)
    requires Releasable(node, children, layer0, indegree0)
    ensures Released(node, children, layer0, indegree0, layer, indegree, released)
  {
    layer, indegree, released := layer0, indegree0, [];
    for i := 0 to |children|
      invariant Released(node, children[..i], layer0, indegree0, layer, indegree, released)
    {
      var child := children[i];
      ReleasedMore(node, children, i, layer0, indegree0, layer, indegree, released);
      layer := layer[child := Max(layer[child], layer[node] + 1)];
      var left := indegree[child] - 1;
      indegree := indegree[child := left];
      if left == 0 { released := released + [child]; }
    }
    assert children[..|children|] == children;
  }

  lemma ReleasedMore(node: NodeId, children: seq<NodeId>, i: nat, layer0: map<NodeId, int>,
                     indegree0: map<NodeId, int>, layer: map<NodeId, int>, indegree: map<NodeId, int>,
                     released: seq<NodeId>)
    requires i < |children| && Releasable(node, children, layer0, indegree0)
    requires Released(node, children[..i], layer0, indegree0, layer, indegree, released)
    ensures var child := children[i];
            && node in layer && child in layer && child in indegree
            && Released(node, children[..i+1], layer0, indegree0, layer[child := Max(layer[child], layer[node] + 1)],
                        indegree[child := indegree[child] - 1],
                        if indegree[child] == 1 then released + [child] else released)
  {
    PrefixCounts(children, i);
    assert children[i] in children;
  }

  lemma PrefixCounts(s: seq<NodeId>, i: nat)
    requires i < |s|
    ensures s[..i+1] == s[..i] + [s[i]]
    ensures multiset(s[..i+1]) == multiset(s[..i]) + multiset{s[i]}
    ensures multiset(s[..i])[s[i]] < multiset(s)[s[i]]
  {
    assert s == s[..i] + [s[i]] + s[i+1..];
    assert s[..i+1] == s[..i] + [s[i]];
  }

  /** The two maps are functions of the nodes dequeued. */
  ghost predicate Tracks(ids: seq<NodeId>, dag: seq<Edge>, done: seq<NodeId>,
                         layer: map<NodeId, int>, indegree: map<NodeId, int>) {
    && layer.Keys == Elements(ids) && indegree.Keys == Elements(ids)
    && (forall v :: v in layer ==> layer[v] == Lay(dag, done, v))
    && (forall v :: v in indegree ==> indegree[v] == Pending(dag, Elements(done), v))
  }

  /** The nodes held back by nothing are those dequeued and those queued, once each. */
  ghost predicate Queued(ids: seq<NodeId>, dag: seq<Edge>, done: seq<NodeId>, queue: seq<NodeId>) {
    && NoDuplicates(done) && NoDuplicates(queue)
    && (forall v :: v in done ==> v in ids && Pending(dag, Elements(done), v) == 0)
    && (forall v :: v in queue <==> v in ids && v !in done && Pending(dag, Elements(done), v) == 0)
  }

  ghost predicate EndsIn(ids: seq<NodeId>, dag: seq<Edge>) {
    forall e :: e in dag ==> e.parent in ids && e.child in ids
  }

  lemma ChildrenAreHeldBack(ids: seq<NodeId>, dag: seq<Edge>, done: seq<NodeId>, node: NodeId,
                            layer: map<NodeId, int>, indegree: map<NodeId, int>, v: NodeId)
    requires EndsIn(ids, dag) && Acyclic(dag) && Tracks(ids, dag, done, layer, indegree)
    requires node !in done && v in Neighbours(dag, Parent, node)
    ensures v != node && v in layer && v in indegree && multiset(Neighbours(dag, Parent, node))[v] <= indegree[v]
  {
    NeighboursAre(dag, Parent, node, v);
    EdgeIsDependency(dag, node, v);
    PendingDrops(dag, Elements(done), node, v);
  }

  lemma LayMore(dag: seq<Edge>, done: seq<NodeId>, u: NodeId, v: NodeId)
    ensures Lay(dag, done + [u], v) ==
            if v in Neighbours(dag, Parent, u) then Max(Lay(dag, done, v), Lay(dag, done, u) + 1) else Lay(dag, done, v)
  {
    assert (done + [u])[..|done|] == done;
    NeighboursAre(dag, Parent, u, v);
  }

  lemma PendingMore(dag: seq<Edge>, done: seq<NodeId>, u: NodeId, v: NodeId)
    requires u !in done
    ensures Pending(dag, Elements(done + [u]), v)
         == Pending(dag, Elements(done), v) - multiset(Neighbours(dag, Parent, u))[v]
  {
    assert Elements(done + [u]) == Elements(done) + {u};
    PendingDrops(dag, Elements(done), u, v);
  }

  lemma LayersNext(dag: seq<Edge>, done: seq<NodeId>, node: NodeId, layer: map<NodeId, int>, layer': map<NodeId, int>)
    requires node in layer && layer'.Keys == layer.Keys
    requires forall v :: v in layer ==> layer[v] == Lay(dag, done, v)
    requires forall v :: v in layer ==>
               layer'[v] == if v in Neighbours(dag, Parent, node) then Max(layer[v], layer[node] + 1) else layer[v]
    ensures forall v :: v in layer' ==> layer'[v] == Lay(dag, done + [node], v)
  {
    var after := done + [node];
    forall v | v in layer' ensures layer'[v] == Lay(dag, after, v) { LayMore(dag, done, node, v); }
  }

  lemma IndegreesNext(dag: seq<Edge>, done: seq<NodeId>, node: NodeId, indegree: map<NodeId, int>,
                      indegree': map<NodeId, int>)
    requires node !in done && indegree'.Keys == indegree.Keys
    requires forall v :: v in indegree ==> indegree[v] == Pending(dag, Elements(done), v)
    requires forall v :: v in indegree ==> indegree'[v] == indegree[v] - multiset(Neighbours(dag, Parent, node))[v]
    ensures forall v :: v in indegree' ==> indegree'[v] == Pending(dag, Elements(done + [node]), v)
  {
    var after := done + [node];
    forall v | v in indegree' ensures indegree'[v] == Pending(dag, Elements(after), v) {
      PendingMore(dag, done, node, v);
    }
  }

  lemma TracksNext(ids: seq<NodeId>, dag: seq<Edge>, done: seq<NodeId>, node: NodeId,
                   layer: map<NodeId, int>, indegree: map<NodeId, int>,
                   layer': map<NodeId, int>, indegree': map<NodeId, int>)
    requires Tracks(ids, dag, done, layer, indegree) && node in layer && node !in done
    requires layer'.Keys == layer.Keys && indegree'.Keys == indegree.Keys
    requires var children := Neighbours(dag, Parent, node);
             && (forall v :: v in layer ==>
                   layer'[v] == if v in children then Max(layer[v], layer[node] + 1) else layer[v])
             && (forall v :: v in indegree ==> indegree'[v] == indegree[v] - multiset(children)[v])
    ensures Tracks(ids, dag, done + [node], layer', indegree')
  {
    LayersNext(dag, done, node, layer, layer');
    IndegreesNext(dag, done, node, indegree, indegree');
  }

  lemma HeadOnce(s: seq<NodeId>)
    requires s != [] && NoDuplicates(s)
    ensures NoDuplicates(s[1..]) && forall v :: v in s[1..] <==> v in s && v != s[0]
  {
    forall v | v in s && v != s[0] ensures v in s[1..] {
      var k :| 0 <= k < |s| && s[k] == v;
      assert s[1..][k-1] == v;
    }
  }

  lemma ConcatDistinct(a: seq<NodeId>, b: seq<NodeId>)
    requires NoDuplicates(a) && NoDuplicates(b) && forall v :: v in b ==> v !in a
    ensures NoDuplicates(a + b)
  {
    forall i, j | 0 <= i < j < |a + b| ensures (a + b)[i] != (a + b)[j] {
      if i < |a| <= j { assert (a + b)[j] in b; }
    }
  }

  /** Who is held back by nothing once `node` is dequeued too. */
  lemma ReleasedAre(dag: seq<Edge>, done: seq<NodeId>, node: NodeId, v: NodeId)
    requires node !in done
    ensures Pending(dag, Elements(done + [node]), v) == 0 <==>
              Pending(dag, Elements(done), v) == 0
              || (v in Neighbours(dag, Parent, node) && Pending(dag, Elements(done + [node]), v) == 0)
    ensures v in Neighbours(dag, Parent, node) ==> Pending(dag, Elements(done), v) > 0
  {
    assert Elements(done + [node]) == Elements(done) + {node};
    PendingDrops(dag, Elements(done), node, v);
    var children := Neighbours(dag, Parent, node);
    assert v in children <==> v in multiset(children);
  }

  lemma QueuedNext(ids: seq<NodeId>, dag: seq<Edge>, done: seq<NodeId>, queue: seq<NodeId>, released: seq<NodeId>)
    requires EndsIn(ids, dag) && Queued(ids, dag, done, queue) && queue != [] && NoDuplicates(released)
    requires forall v :: v in released <==>
               v in Neighbours(dag, Parent, queue[0]) && Pending(dag, Elements(done + [queue[0]]), v) == 0
    ensures Queued(ids, dag, done + [queue[0]], queue[1..] + released)
  {
    var node, rest := queue[0], queue[1..];
    assert node in queue;
    HeadOnce(queue);
    forall v | v in Neighbours(dag, Parent, node) ensures v in ids && v !in done && v !in queue {
      NeighboursAre(dag, Parent, node, v);
      ReleasedAre(dag, done, node, v);
    }
    ConcatDistinct(rest, released);
    ConcatDistinct(done, [node]);
    forall v ensures v in rest + released <==>
                       v in ids && v !in done + [node] && Pending(dag, Elements(done + [node]), v) == 0
             ensures v in done + [node] ==> v in ids && Pending(dag, Elements(done + [node]), v) == 0
    {
      ReleasedAre(dag, done, node, v);
    }
  }

  lemma TopologicalNext(ids: seq<NodeId>, dag: seq<Edge>, done: seq<NodeId>, node: NodeId, queue: seq<NodeId>)
    requires Queued(ids, dag, done, queue) && Topological(dag, done) && node in queue
    ensures Topological(dag, done + [node])
  {
    PendingMeans(dag, Elements(done), node);
    var next := done + [node];
    forall i | 0 <= i < |next| ensures ParentsIn(dag, next[..i], next[i]) {
      if i < |done| {
        assert ParentsIn(dag, done[..i], done[i]);
        assert next[..i] == done[..i];
      } else {
        assert next[..i] == done;
      }
    }
  }

  /** When the queue runs dry every node has been dequeued. */
  lemma AllDequeued(ids: seq<NodeId>, dag: seq<Edge>, done: seq<NodeId>, queue: seq<NodeId>)
    requires EndsIn(ids, dag) && Acyclic(dag) && Queued(ids, dag, done, queue) && |queue| == 0
    ensures forall v :: v in ids <==> v in done
  {
    var left := Elements(ids) - Elements(done);
    forall v | v in ids ensures v in done {
      if v in left {
        var source := SourceExists(dag, left, v);
        PendingMeans(dag, Elements(done), source);
        assert false;
      }
    }
  }

  lemma DequeuedFits(ids: seq<NodeId>, done: seq<NodeId>)
    requires NoDuplicates(done) && forall v :: v in done ==> v in ids
    ensures |done| <= |Elements(ids)|
  {
    NoDuplicatesSize(done);
    SubsetSize(Elements(done), Elements(ids));
  }

  lemma LayersAreLongest(ids: seq<NodeId>, dag: seq<Edge>, done: seq<NodeId>, layer: map<NodeId, int>,
                         indegree: map<NodeId, int>)
    requires EndsIn(ids, dag) && Tracks(ids, dag, done, layer, indegree)
    requires NoDuplicates(done) && Topological(dag, done)
    requires forall v :: v in ids <==> v in done
    ensures forall v :: v in ids ==> IsLongest(dag, v, layer[v])
  {
    forall v | v in ids ensures IsLongest(dag, v, layer[v]) {
      LayIsLongest(dag, done, v);
    }
  }

  /** What holds between two iterations. */
  ghost predicate Dequeuing(ids: seq<NodeId>, dag: seq<Edge>, done: seq<NodeId>, layer: map<NodeId, int>,
                            indegree: map<NodeId, int>, queue: seq<NodeId>) {
    Tracks(ids, dag, done, layer, indegree) && Queued(ids, dag, done, queue) && Topological(dag, done)
  }

  lemma HeadIsReleasable(ids: seq<NodeId>, dag: seq<Edge>, done: seq<NodeId>, layer: map<NodeId, int>,
                         indegree: map<NodeId, int>, queue: seq<NodeId>)
    requires EndsIn(ids, dag) && Acyclic(dag) && Dequeuing(ids, dag, done, layer, indegree, queue) && queue != []
    ensures Releasable(queue[0], Neighbours(dag, Parent, queue[0]), layer, indegree)
  {
    assert queue[0] in queue;
    forall v | v in Neighbours(dag, Parent, queue[0])
      ensures v != queue[0] && v in layer && v in indegree
              && multiset(Neighbours(dag, Parent, queue[0]))[v] <= indegree[v]
    {
      ChildrenAreHeldBack(ids, dag, done, queue[0], layer, indegree, v);
    }
  }

  lemma ReleasedAreFree(ids: seq<NodeId>, dag: seq<Edge>, done: seq<NodeId>, node: NodeId,
                        layer: map<NodeId, int>, indegree: map<NodeId, int>,
                        layer': map<NodeId, int>, indegree': map<NodeId, int>, released: seq<NodeId>)
    requires EndsIn(ids, dag) && Acyclic(dag) && Tracks(ids, dag, done, layer, indegree) && node !in done
    requires Released(node, Neighbours(dag, Parent, node), layer, indegree, layer', indegree', released)
    requires Tracks(ids, dag, done + [node], layer', indegree')
    ensures forall v :: v in released <==>
              v in Neighbours(dag, Parent, node) && Pending(dag, Elements(done + [node]), v) == 0
  {
    forall v | v in Neighbours(dag, Parent, node) ensures v in indegree {
      ChildrenAreHeldBack(ids, dag, done, node, layer, indegree, v);
    }
  }

  lemma DequeuingNext(ids: seq<NodeId>, dag: seq<Edge>, done: seq<NodeId>, layer: map<NodeId, int>,
                      indegree: map<NodeId, int>, queue: seq<NodeId>,
                      layer': map<NodeId, int>, indegree': map<NodeId, int>, released: seq<NodeId>)
    requires EndsIn(ids, dag) && Acyclic(dag) && Dequeuing(ids, dag, done, layer, indegree, queue)
    requires queue != []
    requires Released(queue[0], Neighbours(dag, Parent, queue[0]), layer, indegree, layer', indegree', released)
    ensures Dequeuing(ids, dag, done + [queue[0]], layer', indegree', queue[1..] + released)
    ensures |done + [queue[0]]| <= |Elements(ids)|
  {
    assert queue[0] in queue;
    TopologicalNext(ids, dag, done, queue[0], queue);
    TracksNext(ids, dag, done, queue[0], layer, indegree, layer', indegree');
    ReleasedAreFree(ids, dag, done, queue[0], layer, indegree, layer', indegree', released);
    QueuedNext(ids, dag, done, queue, released);
    DequeuedFits(ids, done + [queue[0]]);
  }

  /**
    Kahn's loop. `order` lists the nodes in the order they are dequeued: each of them exactly once,
    after all its parents. Each layer is the length of the longest path ending at the node.
    */
  method LongestPathLayers(ids: seq<NodeId>, dag: seq<Edge>) returns (layer: map<NodeId, int>, ghost order: seq<NodeId>)
    requires NoDuplicates(ids) && EndsIn(ids, dag) && Acyclic(dag)
    ensures layer.Keys == Elements(ids)
    ensures forall v :: v in ids ==> IsLongest(dag, v, layer[v])
    ensures NoDuplicates(order) && (forall v :: v in ids <==> v in order) && Topological(dag, order)
  {
    var parentsOf := BuildIndex(dag, Child);
    var childrenOf := BuildIndex(dag, Parent);
    var indegree := map id | id in ids :: |Lookup(parentsOf, id)|;
    layer := map id | id in ids :: 0;
    var queue := Sources(ids, indegree, |ids|);
    order := [];
    Starts(ids, dag, layer, indegree, queue);
    while |queue| > 0
      invariant Dequeuing(ids, dag, order, layer, indegree, queue)
      invariant |order| <= |Elements(ids)|
      decreases |Elements(ids)| - |order|
    {
      ghost var layer0, indegree0, queue0 := layer, indegree, queue;
      HeadIsReleasable(ids, dag, order, layer, indegree, queue);
      var node := queue[0];
      var released;
      layer, indegree, released := Release(node, Lookup(childrenOf, node), layer, indegree);
      queue := queue[1..] + released;
      DequeuingNext(ids, dag, order, layer0, indegree0, queue0, layer, indegree, released);
      order := order + [node];
    }
    AllDequeued(ids, dag, order, queue);
    LayersAreLongest(ids, dag, order, layer, indegree);
  }

  /** The nodes without incoming edges, in input order. */
  function Sources(ids: seq<NodeId>, indegree: map<NodeId, int>, n: nat): seq<NodeId>
    requires n <= |ids| && forall id :: id in ids ==> id in indegree
  {
    if n == 0 then [] else Sources(ids, indegree, n - 1) + if indegree[ids[n-1]] == 0 then [ids[n-1]] else []
  }

  lemma {:induction false} SourcesAre(ids: seq<NodeId>, indegree: map<NodeId, int>, n: nat)
    requires n <= |ids| && NoDuplicates(ids) && forall id :: id in ids ==> id in indegree
    ensures forall v :: v in Sources(ids, indegree, n) <==> v in ids[..n] && indegree[v] == 0
    ensures NoDuplicates(Sources(ids, indegree, n))
  {
    if n > 0 {
      SourcesAre(ids, indegree, n - 1);
      assert ids[..n] == ids[..n-1] + [ids[n-1]];
    }
  }

  lemma Starts(ids: seq<NodeId>, dag: seq<Edge>, layer: map<NodeId, int>, indegree: map<NodeId, int>,
               queue: seq<NodeId>)
    requires NoDuplicates(ids)
    requires layer == (map id | id in ids :: 0)
    requires indegree == (map id | id in ids :: |Neighbours(dag, Child, id)|)
    requires queue == Sources(ids, indegree, |ids|)
    ensures Dequeuing(ids, dag, [], layer, indegree, queue)
  {
    forall v ensures |Neighbours(dag, Child, v)| == Pending(dag, {}, v) { PendingAll(dag, v); }
    SourcesAre(ids, indegree, |ids|);
    assert ids[..|ids|] == ids;
    assert Elements<NodeId>([]) == {};
  }
}
