/**
  Directed graphs given as lists of edges, as the topology map stores them: an edge
  `parent -> child` reads "the parent depends on the child". Parallel edges are allowed.
  */
module Digraph {
  type NodeId(==, !new)

  datatype Edge = Edge(parent: NodeId, child: NodeId)

  /** `p` lists the nodes of a walk along edges, from parent to child. */
  ghost predicate IsPath(edges: seq<Edge>, p: seq<NodeId>) {
    && |p| > 0
    && forall i, j :: 0 <= i && j == i + 1 < |p| ==> Edge(p[i], p[j]) in edges
  }

  ghost predicate PathFromTo(edges: seq<Edge>, p: seq<NodeId>, a: NodeId, b: NodeId) {
    IsPath(edges, p) && p[0] == a && p[|p|-1] == b
  }

  /** `a` depends on `b`, directly or transitively (one edge at least). */
  ghost predicate DependsOn(edges: seq<Edge>, a: NodeId, b: NodeId) {
    exists p {:trigger PathFromTo(edges, p, a, b)} :: PathFromTo(edges, p, a, b) && |p| >= 2
  }

  /** Some path of at most `d` edges leads from `a` to `b`. */
  ghost predicate DependsWithin(edges: seq<Edge>, a: NodeId, b: NodeId, d: nat) {
    exists p {:trigger PathFromTo(edges, p, a, b)} :: PathFromTo(edges, p, a, b) && |p| - 1 <= d
  }

  /** As dependents of `n`, `a` is no farther than `b`. */
  ghost predicate NoFartherAbove(edges: seq<Edge>, n: NodeId, a: NodeId, b: NodeId) {
    forall d: nat :: DependsWithin(edges, b, n, d) ==> DependsWithin(edges, a, n, d)
  }

  /** As dependencies of `n`, `a` is no farther than `b`. */
  ghost predicate NoFartherBelow(edges: seq<Edge>, n: NodeId, a: NodeId, b: NodeId) {
    forall d: nat :: DependsWithin(edges, n, b, d) ==> DependsWithin(edges, n, a, d)
  }

  /** Dependents of `n`, nearest first. */
  ghost predicate NearestAbove(edges: seq<Edge>, n: NodeId, r: seq<NodeId>) {
    forall i, j :: 0 <= i <= j < |r| ==> NoFartherAbove(edges, n, r[i], r[j])
  }

  /** Dependencies of `n`, nearest first. */
  ghost predicate NearestBelow(edges: seq<Edge>, n: NodeId, r: seq<NodeId>) {
    forall i, j :: 0 <= i <= j < |r| ==> NoFartherBelow(edges, n, r[i], r[j])
  }

  ghost predicate Acyclic(edges: seq<Edge>) {
    forall n :: !DependsOn(edges, n, n)
  }

  /** Every node that depends on `n`, other than `n`. */
  ghost function Dependents(edges: seq<Edge>, n: NodeId): set<NodeId> {
    set e | e in edges && e.parent != n && DependsOn(edges, e.parent, n) :: e.parent
  }

  /** Everything `n` depends on, other than `n`. */
  ghost function Dependencies(edges: seq<Edge>, n: NodeId): set<NodeId> {
    set e | e in edges && e.child != n && DependsOn(edges, n, e.child) :: e.child
  }

  /** No direct dependency of `n` lies in `nodes`. */
  ghost predicate IsSink(edges: seq<Edge>, nodes: set<NodeId>, n: NodeId) {
    forall e :: e in edges && e.parent == n ==> e.child !in nodes
  }

  lemma EdgeIsDependency(edges: seq<Edge>, a: NodeId, b: NodeId)
    requires Edge(a, b) in edges
    ensures DependsOn(edges, a, b)
  {
    assert PathFromTo(edges, [a, b], a, b);
  }

  lemma JoinPaths(edges: seq<Edge>, p: seq<NodeId>, q: seq<NodeId>, a: NodeId, b: NodeId, c: NodeId)
    requires PathFromTo(edges, p, a, b) && PathFromTo(edges, q, b, c)
    ensures PathFromTo(edges, p + q[1..], a, c)
  {
    var r := p + q[1..];
    forall i, j | 0 <= i && j == i + 1 < |r| ensures Edge(r[i], r[j]) in edges {
      if j >= |p| {
        assert r[j] == q[j - |p| + 1] && r[i] == q[i - |p| + 1];
      }
    }
  }

  lemma DependsTransitive(edges: seq<Edge>, a: NodeId, b: NodeId, c: NodeId)
    requires DependsOn(edges, a, b) && DependsOn(edges, b, c)
    ensures DependsOn(edges, a, c)
  {
    var p :| PathFromTo(edges, p, a, b) && |p| >= 2;
    var q :| PathFromTo(edges, q, b, c) && |q| >= 2;
    JoinPaths(edges, p, q, a, b, c);
  }

  /** A dependency starts with one edge and ends with one edge. */
  lemma DependencyEnds(edges: seq<Edge>, a: NodeId, b: NodeId)
    requires DependsOn(edges, a, b)
    ensures exists e :: e in edges && e.parent == a
    ensures exists e :: e in edges && e.child == b
  {
    var p :| PathFromTo(edges, p, a, b) && |p| >= 2;
    assert Edge(p[0], p[1]) in edges && Edge(p[|p|-2], p[|p|-1]) in edges;
  }

  lemma DependentsAre(edges: seq<Edge>, n: NodeId)
    ensures forall v :: v in Dependents(edges, n) <==> v != n && DependsOn(edges, v, n)
    ensures forall v :: v in Dependencies(edges, n) <==> v != n && DependsOn(edges, n, v)
  {
    forall v | v != n && DependsOn(edges, v, n) ensures v in Dependents(edges, n) {
      DependencyEnds(edges, v, n);
      var e :| e in edges && e.parent == v;
    }
    forall v | v != n && DependsOn(edges, n, v) ensures v in Dependencies(edges, n) {
      DependencyEnds(edges, n, v);
      var e :| e in edges && e.child == v;
    }
  }

  /** `blastRadius` and `dependenciesOf` are converse relations. */
  lemma DependenciesAreConverse(edges: seq<Edge>, a: NodeId, b: NodeId)
    ensures b in Dependents(edges, a) <==> a in Dependencies(edges, b)
  {
    DependentsAre(edges, a);
    DependentsAre(edges, b);
  }

  /** Fewer edges, fewer dependencies. */
  lemma SubgraphDepends(small: seq<Edge>, large: seq<Edge>, a: NodeId, b: NodeId)
    requires forall e :: e in small ==> e in large
    requires DependsOn(small, a, b)
    ensures DependsOn(large, a, b)
  {
    var p :| PathFromTo(small, p, a, b) && |p| >= 2;
    assert PathFromTo(large, p, a, b);
  }

  /** A numbering that strictly decreases along every edge rules cycles out. */
  lemma RankedIsAcyclic(edges: seq<Edge>, rank: map<NodeId, int>)
    requires forall e :: e in edges ==> e.parent in rank && e.child in rank && rank[e.child] < rank[e.parent]
    ensures Acyclic(edges)
  {
    forall n ensures !DependsOn(edges, n, n) {
      if DependsOn(edges, n, n) {
        var p :| PathFromTo(edges, p, n, n) && |p| >= 2;
        RankDropsAlong(edges, rank, p);
        assert false;
      }
    }
  }

  lemma {:induction false} RankDropsAlong(edges: seq<Edge>, rank: map<NodeId, int>, p: seq<NodeId>)
    requires forall e :: e in edges ==> e.parent in rank && e.child in rank && rank[e.child] < rank[e.parent]
    requires IsPath(edges, p) && |p| >= 2
    ensures p[0] in rank && p[|p|-1] in rank && rank[p[|p|-1]] < rank[p[0]]
  {
    var q := p[..|p|-1];
    assert Edge(p[|p|-2], p[|p|-1]) in edges;
    if |q| >= 2 {
      assert IsPath(edges, q);
      RankDropsAlong(edges, rank, q);
    }
  }

  /** Neither `n` nor anything it depends on lies on a cycle. */
  ghost predicate NoCycleFrom(edges: seq<Edge>, n: NodeId) {
    forall v :: v == n || DependsOn(edges, n, v) ==> !DependsOn(edges, v, v)
  }

  lemma NoCycleFurther(edges: seq<Edge>, n: NodeId, m: NodeId)
    requires NoCycleFrom(edges, n) && DependsOn(edges, n, m)
    ensures NoCycleFrom(edges, m)
  {
    forall v | v == m || DependsOn(edges, m, v) ensures !DependsOn(edges, v, v) {
      if v != m { DependsTransitive(edges, n, m, v); }
    }
  }

  /**
    Where no cycle lies ahead every member of a finite set of nodes leads, without leaving the set, to a
    member none of whose dependencies is in the set.
    */
  lemma {:induction false} WalkToSink(edges: seq<Edge>, nodes: set<NodeId>, n: NodeId, visited: set<NodeId>)
    returns (p: seq<NodeId>)
    requires NoCycleFrom(edges, n) && n in nodes && n !in visited
    requires forall v :: v in visited ==> DependsOn(edges, v, n)
    ensures IsPath(edges, p) && p[0] == n
    ensures forall v :: v in p ==> v in nodes
    ensures IsSink(edges, nodes, p[|p|-1])
    decreases nodes - visited
  {
    if e :| e in edges && e.parent == n && e.child in nodes {
      EdgeIsDependency(edges, n, e.child);
      NoCycleFurther(edges, n, e.child);
      forall v | v in visited + {n} ensures DependsOn(edges, v, e.child) {
        if v != n { DependsTransitive(edges, v, n, e.child); }
      }
      assert e.child !in visited + {n};
      assert n in nodes - visited;
      var q := WalkToSink(edges, nodes, e.child, visited + {n});
      p := [n] + q;
      forall i, j | 0 <= i && j == i + 1 < |p| ensures Edge(p[i], p[j]) in edges {
        if i == 0 { assert e == Edge(p[0], p[1]); } else { assert p[i] == q[i-1] && p[j] == q[j-1]; }
      }
    } else {
      p := [n];
    }
  }
}
