/**
  Questions asked of the dependency map: blast radius, dependencies, root-cause candidates and the
  healthy nodes hurt by someone else's failure.
  */
module DependencyMap {
  import opened Sequences
  import opened Digraph
  import opened Walks

  ghost predicate Indexes(index: Index, edges: seq<Edge>, side: Side) {
    forall n :: Lookup(index, n) == Neighbours(edges, side, n)
  }

  lemma WalkIsPath(edges: seq<Edge>, index: Index, w: seq<NodeId>, a: NodeId, b: NodeId)
    requires Indexes(index, edges, Parent)
    ensures WalkFromTo(index, w, a, b) <==> PathFromTo(edges, w, a, b)
  {
    forall i, j | 0 <= i && j == i + 1 < |w|
      ensures w[j] in Lookup(index, w[i]) <==> Edge(w[i], w[j]) in edges
    {
      NeighboursAre(edges, Parent, w[i], w[j]);
    }
  }

  lemma WalkIsReversedPath(edges: seq<Edge>, index: Index, w: seq<NodeId>, a: NodeId, b: NodeId)
    requires Indexes(index, edges, Child)
    ensures WalkFromTo(index, w, a, b) <==> PathFromTo(edges, Reversed(w), b, a)
  {
    var r := Reversed(w);
    forall i, j | 0 <= i && j == i + 1 < |w|
      ensures w[j] in Lookup(index, w[i]) <==> Edge(w[j], w[i]) in edges
    {
      NeighboursAre(edges, Child, w[i], w[j]);
    }
    if WalkFromTo(index, w, a, b) {
      forall i, j | 0 <= i && j == i + 1 < |r| ensures Edge(r[i], r[j]) in edges {
        assert r[i] == w[|w| - 1 - i] && r[j] == w[|w| - 1 - j];
      }
    }
    if PathFromTo(edges, r, b, a) {
      forall i, j | 0 <= i && j == i + 1 < |w| ensures w[j] in Lookup(index, w[i]) {
        assert w[i] == r[|w| - 1 - i] && w[j] == r[|w| - 1 - j];
      }
    }
  }

  lemma ReachedAreDependencies(edges: seq<Edge>, index: Index, n: NodeId, v: NodeId)
    requires Indexes(index, edges, Parent) && v != n
    ensures (exists d :: Within(index, n, v, d)) <==> DependsOn(edges, n, v)
  {
    if d :| Within(index, n, v, d) {
      var w :| WalkFromTo(index, w, n, v) && |w| - 1 <= d;
      WalkIsPath(edges, index, w, n, v);
    }
    if DependsOn(edges, n, v) {
      var p :| PathFromTo(edges, p, n, v) && |p| >= 2;
      WalkIsPath(edges, index, p, n, v);
      assert Within(index, n, v, |p| - 1);
    }
  }

  lemma ReachedAreDependents(edges: seq<Edge>, index: Index, n: NodeId, v: NodeId)
    requires Indexes(index, edges, Child) && v != n
    ensures (exists d :: Within(index, n, v, d)) <==> DependsOn(edges, v, n)
  {
    if d :| Within(index, n, v, d) {
      WithinIsAbove(edges, index, n, v, d);
      var p :| PathFromTo(edges, p, v, n) && |p| - 1 <= d;
      assert |p| >= 2;
    }
    if DependsOn(edges, v, n) {
      var p :| PathFromTo(edges, p, v, n) && |p| >= 2;
      WithinIsAbove(edges, index, n, v, |p| - 1);
    }
  }

  lemma WithinIsBelow(edges: seq<Edge>, index: Index, n: NodeId, v: NodeId, d: nat)
    requires Indexes(index, edges, Parent)
    ensures Within(index, n, v, d) <==> DependsWithin(edges, n, v, d)
  {
    forall w ensures WalkFromTo(index, w, n, v) <==> PathFromTo(edges, w, n, v) {
      WalkIsPath(edges, index, w, n, v);
    }
  }

  lemma WithinIsAbove(edges: seq<Edge>, index: Index, n: NodeId, v: NodeId, d: nat)
    requires Indexes(index, edges, Child)
    ensures Within(index, n, v, d) <==> DependsWithin(edges, v, n, d)
  {
    if Within(index, n, v, d) {
      var w :| WalkFromTo(index, w, n, v) && |w| - 1 <= d;
      WalkIsReversedPath(edges, index, w, n, v);
    }
    if DependsWithin(edges, v, n, d) {
      var p :| PathFromTo(edges, p, v, n) && |p| - 1 <= d;
      assert Reversed(Reversed(p)) == p;
      WalkIsReversedPath(edges, index, Reversed(p), n, v);
    }
  }

  lemma ReachedAbove(edges: seq<Edge>, index: Index, n: NodeId, r: seq<NodeId>)
    requires Indexes(index, edges, Child)
    requires forall i, j, d :: 0 <= i <= j < |r| && Within(index, n, r[j], d) ==> Within(index, n, r[i], d)
    ensures NearestAbove(edges, n, r)
  {
    forall i, j, d: nat | 0 <= i <= j < |r| && DependsWithin(edges, r[j], n, d)
      ensures DependsWithin(edges, r[i], n, d)
    {
      WithinIsAbove(edges, index, n, r[j], d);
      WithinIsAbove(edges, index, n, r[i], d);
    }
  }

  lemma ReachedBelow(edges: seq<Edge>, index: Index, n: NodeId, r: seq<NodeId>)
    requires Indexes(index, edges, Parent)
    requires forall i, j, d :: 0 <= i <= j < |r| && Within(index, n, r[j], d) ==> Within(index, n, r[i], d)
    ensures NearestBelow(edges, n, r)
  {
    forall i, j, d: nat | 0 <= i <= j < |r| && DependsWithin(edges, n, r[j], d)
      ensures DependsWithin(edges, n, r[i], d)
    {
      WithinIsBelow(edges, index, n, r[j], d);
      WithinIsBelow(edges, index, n, r[i], d);
    }
  }

  /** Everything that depends on `failed`, directly or transitively, each node once, nearest first. */
  method BlastRadius(edges: seq<Edge>, failed: NodeId) returns (r: seq<NodeId>)
    ensures NoDuplicates(r) && NearestAbove(edges, failed, r)
    ensures forall v :: v in r <==> v != failed && DependsOn(edges, v, failed)
    ensures |r| == |Dependents(edges, failed)|
  {
    var index := BuildIndex(edges, Child);
    r := Reach(failed, index);
    ReachedAbove(edges, index, failed, r);
    forall v | v != failed
      ensures (exists d :: Within(index, failed, v, d)) <==> DependsOn(edges, v, failed)
    {
      ReachedAreDependents(edges, index, failed, v);
    }
    DependentsAre(edges, failed);
    assert Elements(r) == Dependents(edges, failed);
    NoDuplicatesSize(r);
  }

  /** Everything `n` depends on, directly or transitively, each node once, nearest first. */
  method DependenciesOf(edges: seq<Edge>, n: NodeId) returns (r: seq<NodeId>)
    ensures NoDuplicates(r) && NearestBelow(edges, n, r)
    ensures forall v :: v in r <==> v != n && DependsOn(edges, n, v)
    ensures |r| == |Dependencies(edges, n)|
  {
    var index := BuildIndex(edges, Parent);
    r := Reach(n, index);
    ReachedBelow(edges, index, n, r);
    forall v | v != n
      ensures (exists d :: Within(index, n, v, d)) <==> DependsOn(edges, n, v)
    {
      ReachedAreDependencies(edges, index, n, v);
    }
    DependentsAre(edges, n);
    assert Elements(r) == Dependencies(edges, n);
    NoDuplicatesSize(r);
  }

  /** Nodes hurt by someone else's failure: exactly the healthy ones with an unhealthy dependency. */
  method ImpactedNodes(edges: seq<Edge>, unhealthy: seq<NodeId>) returns (impacted: set<NodeId>)
    ensures forall v :: v in impacted <==> v !in unhealthy && exists u :: u in unhealthy && DependsOn(edges, v, u)
  {
    impacted := {};
    for i := 0 to |unhealthy|
      invariant forall v :: v in impacted <==>
                  v !in unhealthy && exists k :: 0 <= k < i && DependsOn(edges, v, unhealthy[k])
    {
      var radius := BlastRadius(edges, unhealthy[i]);
      ghost var impacted0 := impacted;
      for j := 0 to |radius|
        invariant forall v :: v in impacted <==> v in impacted0 || (v !in unhealthy && v in radius[..j])
      {
        if radius[j] !in unhealthy { impacted := impacted + {radius[j]}; }
        assert radius[..j+1] == radius[..j] + [radius[j]];
      }
      assert radius[..|radius|] == radius;
    }
    forall v, u | u in unhealthy && DependsOn(edges, v, u) && v !in unhealthy ensures v in impacted {
      var k :| 0 <= k < |unhealthy| && unhealthy[k] == u;
    }
  }

  datatype Candidate = Candidate(node: NodeId, radius: nat)

  /** A three-way comparison of names, as `localeCompare` is. */
  ghost predicate IsCollation<T(!new)>(collate: (T, T) -> int) {
    && (forall a, b :: collate(a, b) <= 0 || collate(b, a) <= 0)
    && (forall a, b, c :: collate(a, b) <= 0 && collate(b, c) <= 0 ==> collate(a, c) <= 0)
  }

  /** Largest blast radius first, names breaking ties. */
  function ByRadius(collate: (NodeId, NodeId) -> int): (Candidate, Candidate) -> bool {
    (a: Candidate, b: Candidate) => a.radius > b.radius || (a.radius == b.radius && collate(a.node, b.node) <= 0)
  }

  /** The failure of `a` breaks more than that of `b`, or as much and its name comes first. */
  ghost predicate MoreBreakage(edges: seq<Edge>, collate: (NodeId, NodeId) -> int, a: NodeId, b: NodeId) {
    ByRadius(collate)(Candidate(a, |Dependents(edges, a)|), Candidate(b, |Dependents(edges, b)|))
  }

  ghost predicate LargestFirst(edges: seq<Edge>, collate: (NodeId, NodeId) -> int, r: seq<NodeId>) {
    forall i, j :: 0 <= i < j < |r| ==> MoreBreakage(edges, collate, r[i], r[j])
  }

  /** The candidates among the first `n` unhealthy nodes, with the size of their blast radius. */
  ghost function Candidates(edges: seq<Edge>, unhealthy: seq<NodeId>, n: nat): seq<Candidate>
    requires n <= |unhealthy|
  {
    if n == 0 then []
    else
      var node := unhealthy[n-1];
      Candidates(edges, unhealthy, n - 1) +
      if IsSink(edges, Elements(unhealthy), node) then [Candidate(node, |Dependents(edges, node)|)] else []
  }

  lemma {:induction false} CandidatesAre(edges: seq<Edge>, unhealthy: seq<NodeId>, n: nat)
    requires n <= |unhealthy|
    ensures var s := Candidates(edges, unhealthy, n);
            forall c :: c in s <==> c.node in unhealthy[..n] && IsSink(edges, Elements(unhealthy), c.node)
                                    && c.radius == |Dependents(edges, c.node)|
    ensures NoDuplicates(unhealthy) ==> NoDuplicates(Candidates(edges, unhealthy, n))
  {
    if n > 0 {
      CandidatesAre(edges, unhealthy, n - 1);
      assert unhealthy[..n] == unhealthy[..n-1] + [unhealthy[n-1]];
    }
  }

  predicate SomeIn(nodes: seq<NodeId>, unhealthy: seq<NodeId>) {
    exists dep :: dep in nodes && dep in unhealthy
  }

  lemma DirectDependencies(edges: seq<Edge>, unhealthy: seq<NodeId>, node: NodeId)
    ensures SomeIn(Neighbours(edges, Parent, node), unhealthy) <==> !IsSink(edges, Elements(unhealthy), node)
  {
    forall dep ensures dep in Neighbours(edges, Parent, node) <==> Edge(node, dep) in edges {
      NeighboursAre(edges, Parent, node, dep);
    }
    if e :| e in edges && e.parent == node && e.child in Elements(unhealthy) {
      assert e == Edge(node, e.child);
    }
  }

  /** Among unhealthy nodes, those with no unhealthy dependency, largest blast radius first. */
  method RootCauseCandidates(edges: seq<Edge>, unhealthy: seq<NodeId>, collate: (NodeId, NodeId) -> int)
    returns (r: seq<NodeId>)
    requires IsCollation(collate)
    ensures forall v :: v in r <==> v in unhealthy && IsSink(edges, Elements(unhealthy), v)
    ensures NoDuplicates(unhealthy) ==> NoDuplicates(r)
    ensures LargestFirst(edges, collate, r)
  {
    var dependencies := BuildIndex(edges, Parent);
    var kept: seq<Candidate> := [];
    for i := 0 to |unhealthy|
      invariant kept == Candidates(edges, unhealthy, i)
    {
      var node := unhealthy[i];
      DirectDependencies(edges, unhealthy, node);
      if !SomeIn(Lookup(dependencies, node), unhealthy) {
        var radius := BlastRadius(edges, node);
        kept := kept + [Candidate(node, |radius|)];
      }
    }
    var sorted := Sort(kept, ByRadius(collate));
    r := seq(|sorted|, i requires 0 <= i < |sorted| => sorted[i].node);
    CandidatesSorted(edges, unhealthy, collate, sorted, r);
  }

  lemma CandidatesSorted(edges: seq<Edge>, unhealthy: seq<NodeId>, collate: (NodeId, NodeId) -> int,
                         sorted: seq<Candidate>, r: seq<NodeId>)
    requires IsCollation(collate)
    requires sorted == Sort(Candidates(edges, unhealthy, |unhealthy|), ByRadius(collate))
    requires |r| == |sorted| && forall i :: 0 <= i < |r| ==> r[i] == sorted[i].node
    ensures forall v :: v in r <==> v in unhealthy && IsSink(edges, Elements(unhealthy), v)
    ensures NoDuplicates(unhealthy) ==> NoDuplicates(r)
    ensures LargestFirst(edges, collate, r)
  {
    var kept := Candidates(edges, unhealthy, |unhealthy|);
    ByRadiusIsOrder(collate);
    SortSorts(kept, ByRadius(collate));
    forall i | 0 <= i < |r| ensures sorted[i] == Candidate(r[i], |Dependents(edges, r[i])|) {
      SortedHas(edges, unhealthy, collate, sorted[i]);
      assert sorted[i] in sorted;
    }
    SortedOnce(edges, unhealthy, collate);
    forall v ensures v in r <==> v in unhealthy && IsSink(edges, Elements(unhealthy), v) {
      SortedHas(edges, unhealthy, collate, Candidate(v, |Dependents(edges, v)|));
      NodesOf(sorted, r, Candidate(v, |Dependents(edges, v)|));
    }
  }

  lemma ByRadiusIsOrder(collate: (NodeId, NodeId) -> int)
    requires IsCollation(collate)
    ensures TotalPreorder(ByRadius(collate))
  {
    var le := ByRadius(collate);
    forall a, b ensures le(a, b) || le(b, a) {
      assert collate(a.node, b.node) <= 0 || collate(b.node, a.node) <= 0;
    }
    forall a, b, c | le(a, b) && le(b, c) ensures le(a, c) {
      if a.radius == b.radius == c.radius { assert collate(a.node, c.node) <= 0; }
    }
  }

  lemma NodesOf(sorted: seq<Candidate>, r: seq<NodeId>, c: Candidate)
    requires |r| == |sorted| && forall i :: 0 <= i < |r| ==> r[i] == sorted[i].node
    ensures c in sorted ==> c.node in r
  {
    if c in sorted {
      var k :| 0 <= k < |sorted| && sorted[k] == c;
      assert r[k] == c.node;
    }
  }

  lemma SortedHas(edges: seq<Edge>, unhealthy: seq<NodeId>, collate: (NodeId, NodeId) -> int, c: Candidate)
    ensures c in Sort(Candidates(edges, unhealthy, |unhealthy|), ByRadius(collate)) <==>
              c.node in unhealthy && IsSink(edges, Elements(unhealthy), c.node)
              && c.radius == |Dependents(edges, c.node)|
  {
    var kept := Candidates(edges, unhealthy, |unhealthy|);
    CandidatesAre(edges, unhealthy, |unhealthy|);
    assert unhealthy[..|unhealthy|] == unhealthy;
    Rearranged(kept, Sort(kept, ByRadius(collate)));
  }

  lemma SortedOnce(edges: seq<Edge>, unhealthy: seq<NodeId>, collate: (NodeId, NodeId) -> int)
    ensures NoDuplicates(unhealthy) ==> NoDuplicates(Sort(Candidates(edges, unhealthy, |unhealthy|), ByRadius(collate)))
  {
    var kept := Candidates(edges, unhealthy, |unhealthy|);
    CandidatesAre(edges, unhealthy, |unhealthy|);
    Rearranged(kept, Sort(kept, ByRadius(collate)));
  }

  /**
    Where no cycle lies ahead, an unhealthy node is a root-cause candidate or depends on one, through
    unhealthy nodes only. On an acyclic map that is every unhealthy node.
    */
  lemma EverySymptomHasARoot(edges: seq<Edge>, unhealthy: set<NodeId>, n: NodeId) returns (root: NodeId)
    requires NoCycleFrom(edges, n) && n in unhealthy
    ensures root in unhealthy && IsSink(edges, unhealthy, root)
    ensures exists p :: PathFromTo(edges, p, n, root) && forall v :: v in p ==> v in unhealthy
    ensures root == n || DependsOn(edges, n, root)
  {
    var p := WalkToSink(edges, unhealthy, n, {});
    root := p[|p|-1];
    assert PathFromTo(edges, p, n, root);
  }

  // ---- When the fallback list is needed --------------------------------------------------------

  /** A failing dependency of `self`. */
  ghost predicate FailingAbove(edges: seq<Edge>, self: NodeId, failing: set<NodeId>, n: NodeId) {
    n in failing && n != self && DependsOn(edges, self, n)
  }

  /** One that is a root-cause candidate while `self` fails too. */
  ghost predicate RootAbove(edges: seq<Edge>, self: NodeId, failing: set<NodeId>, n: NodeId) {
    FailingAbove(edges, self, failing, n) && IsSink(edges, failing + {self}, n)
  }

  /** Dependencies fail, but none of them is a candidate. */
  ghost predicate NeedsFallback(edges: seq<Edge>, self: NodeId, failing: set<NodeId>) {
    && (exists n :: FailingAbove(edges, self, failing, n))
    && (forall n :: !RootAbove(edges, self, failing, n))
  }

  /** Nothing that another node depends on lies on a cycle. */
  ghost predicate NoCycleBelow(edges: seq<Edge>) {
    forall a, b :: a != b && DependsOn(edges, a, b) ==> !DependsOn(edges, b, b)
  }

  lemma NoCycleBelowFrom(edges: seq<Edge>, self: NodeId, n: NodeId)
    requires NoCycleBelow(edges) && n != self && DependsOn(edges, self, n)
    ensures NoCycleFrom(edges, n) && !DependsOn(edges, n, self)
  {
    if DependsOn(edges, n, self) { DependsTransitive(edges, n, self, n); }
    forall v | v == n || DependsOn(edges, n, v) ensures !DependsOn(edges, v, v) { }
  }

  lemma RootIsAbove(edges: seq<Edge>, self: NodeId, failing: set<NodeId>, n: NodeId) returns (root: NodeId)
    requires NoCycleBelow(edges) && FailingAbove(edges, self, failing, n)
    ensures RootAbove(edges, self, failing, root) && (root == n || DependsOn(edges, n, root))
  {
    NoCycleBelowFrom(edges, self, n);
    root := EverySymptomHasARoot(edges, failing + {self}, n);
    if root != n { DependsTransitive(edges, self, n, root); }
  }

  /** The nodes on a cycle with `b`. */
  ghost function CycleOf(edges: seq<Edge>, b: NodeId): set<NodeId> {
    set e | e in edges && DependsOn(edges, b, e.parent) && DependsOn(edges, e.parent, b) :: e.parent
  }

  lemma CycleHas(edges: seq<Edge>, b: NodeId, v: NodeId)
    ensures v in CycleOf(edges, b) <==> DependsOn(edges, b, v) && DependsOn(edges, v, b)
  {
    if DependsOn(edges, b, v) && DependsOn(edges, v, b) {
      DependencyEnds(edges, v, b);
      var e :| e in edges && e.parent == v;
    }
  }

  /** A dependency starts with an edge, and what remains of it is a dependency or nothing. */
  lemma FirstStep(edges: seq<Edge>, v: NodeId, b: NodeId) returns (w: NodeId)
    requires DependsOn(edges, v, b)
    ensures Edge(v, w) in edges && (w == b || DependsOn(edges, w, b))
  {
    var p :| PathFromTo(edges, p, v, b) && |p| >= 2;
    w := p[1];
    if |p| > 2 { assert PathFromTo(edges, p[1..], w, b); }
  }

  /** On a cycle every node has a dependency on the cycle. */
  lemma CycleHasNoSink(edges: seq<Edge>, nodes: set<NodeId>, b: NodeId, v: NodeId)
    requires v in CycleOf(edges, b) && CycleOf(edges, b) <= nodes
    ensures !IsSink(edges, nodes, v)
  {
    CycleHas(edges, b, v);
    var w := FirstStep(edges, v, b);
    EdgeIsDependency(edges, v, w);
    DependsTransitive(edges, b, v, w);
    if w == b { DependsTransitive(edges, b, v, b); }
    CycleHas(edges, b, w);
    assert Edge(v, w).child in nodes;
  }

  /** When a node other than `b` depends on `b` and `b` lies on a cycle, the failure of that cycle has no root. */
  lemma CycleNeedsFallback(edges: seq<Edge>, a: NodeId, b: NodeId)
    requires a != b && DependsOn(edges, a, b) && DependsOn(edges, b, b)
    ensures NeedsFallback(edges, a, CycleOf(edges, b))
  {
    var failing := CycleOf(edges, b);
    CycleHas(edges, b, b);
    assert FailingAbove(edges, a, failing, b);
    forall n ensures !RootAbove(edges, a, failing, n) {
      if n in failing { CycleHasNoSink(edges, failing + {a}, b, n); }
    }
  }

  /** The fallback list is never needed, whatever fails, exactly when nothing depended upon lies on a cycle. */
  lemma FallbackExactly(edges: seq<Edge>)
    ensures (forall self, failing :: !NeedsFallback(edges, self, failing)) <==> NoCycleBelow(edges)
  {
    if NoCycleBelow(edges) {
      forall self, failing ensures !NeedsFallback(edges, self, failing) {
        if n :| FailingAbove(edges, self, failing, n) {
          var root := RootIsAbove(edges, self, failing, n);
        }
      }
    } else {
      var a, b :| a != b && DependsOn(edges, a, b) && DependsOn(edges, b, b);
      CycleNeedsFallback(edges, a, b);
    }
  }
}
