/**
  The edges that close a cycle (`backEdges`): what the depth-first walk sets aside, what it keeps, and
  the loops, which follow the walk step by step.
  */
module Cycles {
  import opened Sequences
  import opened Digraph
  import opened DepthFirst

  // ---- The edges kept --------------------------------------------------------------------------

  /** The edges not set aside, in input order. */
  function Keep(arcs: seq<Arc>, back: set<Arc>): seq<Edge> {
    if arcs == [] then []
    else Keep(arcs[..|arcs|-1], back) + if arcs[|arcs|-1] in back then [] else [arcs[|arcs|-1].edge]
  }

  lemma {:induction false} KeptAre(arcs: seq<Arc>, back: set<Arc>, e: Edge)
    ensures e in Keep(arcs, back) <==> exists a :: a in arcs && a !in back && a.edge == e
  {
    if arcs != [] {
      var m := |arcs| - 1;
      KeptAre(arcs[..m], back, e);
      assert forall a :: a in arcs <==> a in arcs[..m] || a == arcs[m];
    }
  }

  lemma ListsWell(children: Children, edges: seq<Edge>)
    requires Lists(children, edges)
    ensures WellListed(children) && ListedOnce(children)
    ensures forall a :: a in Arcs(edges) ==> a in ArcsFrom(children, a.edge.parent)
  {
    var arcs := Arcs(edges);
    forall n ensures NoDuplicates(ArcsFrom(children, n)) {
      OutDistinct(arcs, n);
    }
    forall n, k | 0 <= k < |ArcsFrom(children, n)| ensures ArcsFrom(children, n)[k].edge.parent == n {
      OutAre(arcs, n, ArcsFrom(children, n)[k]);
    }
    forall a | a in arcs ensures a in ArcsFrom(children, a.edge.parent) {
      OutAre(arcs, a.edge.parent, a);
    }
  }

  lemma KeptIsAcyclic(ids: seq<NodeId>, edges: seq<Edge>, children: Children, n: nat)
    requires Lists(children, edges) && Over(ids, Run(ids, children, n))
    requires forall e :: e in edges ==> e.parent in ids
    ensures Acyclic(Keep(Arcs(edges), Run(ids, children, n).back))
  {
    var s := Run(ids, children, n);
    var dag := Keep(Arcs(edges), s.back);
    ListsWell(children, edges);
    forall e | e in dag ensures e.parent in s.rank && e.child in s.rank && s.rank[e.child] < s.rank[e.parent] {
      KeptAre(Arcs(edges), s.back, e);
      var a :| a in Arcs(edges) && a !in s.back && a.edge == e;
      OverIsFinished(ids, children, n, e.parent);
      RunDescends(ids, children, n, a);
    }
    RankedIsAcyclic(dag, s.rank);
  }

  /** `e` would close a cycle with kept edges. */
  ghost predicate ClosesCycle(dag: seq<Edge>, e: Edge) {
    e.child == e.parent || DependsOn(dag, e.child, e.parent)
  }

  lemma {:induction false} RunRecordsInput(ids: seq<NodeId>, edges: seq<Edge>, children: Children, n: nat, a: Arc)
    requires Lists(children, edges) && Recorded(Run(ids, children, n), a)
    ensures a in Arcs(edges)
  {
    var s := Run(ids, children, n - 1);
    if Recorded(s, a) {
      RunRecordsInput(ids, edges, children, n - 1, a);
    } else {
      OutAre(Arcs(edges), Top(s).node, a);
    }
  }

  lemma TreePathIsKept(ids: seq<NodeId>, edges: seq<Edge>, children: Children, n: nat, u: NodeId, v: NodeId)
    requires Lists(children, edges)
    requires JoinedVia(Run(ids, children, n).tree, u, v)
    ensures Edge(u, v) in Keep(Arcs(edges), Run(ids, children, n).back)
  {
    var s := Run(ids, children, n);
    var a :| a in s.tree && a.edge == Edge(u, v);
    RunRecordsInput(ids, edges, children, n, a);
    ListsWell(children, edges);
    RunSeparates(ids, children, n);
    KeptAre(Arcs(edges), s.back, Edge(u, v));
  }

  lemma SetAsideCloses(ids: seq<NodeId>, edges: seq<Edge>, children: Children, n: nat, a: Arc)
    requires Lists(children, edges) && a in Run(ids, children, n).back
    ensures a in Arcs(edges) && ClosesCycle(Keep(Arcs(edges), Run(ids, children, n).back), a.edge)
  {
    var s := Run(ids, children, n);
    var dag := Keep(Arcs(edges), s.back);
    RunRecordsInput(ids, edges, children, n, a);
    ListsWell(children, edges);
    RunCloses(ids, children, n, a);
    var p :| PathVia(s.tree, p) && p[0] == a.edge.child && p[|p|-1] == a.edge.parent;
    forall i, j | 0 <= i && j == i + 1 < |p| ensures Edge(p[i], p[j]) in dag {
      TreePathIsKept(ids, edges, children, n, p[i], p[j]);
    }
    assert PathFromTo(dag, p, a.edge.child, a.edge.parent);
  }

  lemma ArcOnCycle(edges: seq<Edge>, back: set<Arc>, a: Arc)
    requires a in Arcs(edges) && ClosesCycle(Keep(Arcs(edges), back), a.edge)
    ensures DependsOn(edges, a.edge.parent, a.edge.parent)
  {
    var u, v, dag := a.edge.parent, a.edge.child, Keep(Arcs(edges), back);
    forall e | e in dag ensures e in edges { KeptAre(Arcs(edges), back, e); }
    assert a.edge == Edge(u, v) && a.edge in edges;
    EdgeIsDependency(edges, u, v);
    if v != u {
      SubgraphDepends(dag, edges, v, u);
      DependsTransitive(edges, u, v, u);
    }
  }

  /** An acyclic input loses nothing. */
  lemma NothingSetAside(edges: seq<Edge>, back: set<Arc>)
    requires Acyclic(edges)
    requires forall a :: a in back ==> a in Arcs(edges) && ClosesCycle(Keep(Arcs(edges), back), a.edge)
    ensures back == {}
  {
    if a :| a in back {
      ArcOnCycle(edges, back, a);
      assert false;
    }
  }

  // ---- The code --------------------------------------------------------------------------------

  ghost function Universe(ids: seq<NodeId>, edges: seq<Edge>): set<NodeId> {
    Elements(ids) + set e | e in edges :: e.child
  }

  lemma {:induction false} RunInUniverse(ids: seq<NodeId>, edges: seq<Edge>, children: Children, n: nat)
    requires Lists(children, edges)
    ensures Run(ids, children, n).marks.Keys <= Universe(ids, edges)
  {
    if n > 0 {
      RunInUniverse(ids, edges, children, n - 1);
      var s := Run(ids, children, n - 1);
      if s.stack != [] {
        RunTopIsUnranked(ids, children, n - 1);
        VisitMarks(ids, edges, children, s);
      } else {
        BeginMarks(ids, edges, s);
      }
    }
  }

  lemma BeginMarks(ids: seq<NodeId>, edges: seq<Edge>, s: Dfs)
    requires s.marks.Keys <= Universe(ids, edges)
    ensures Begin(ids, s).marks.Keys <= Universe(ids, edges)
  {
  }

  lemma VisitMarks(ids: seq<NodeId>, edges: seq<Edge>, children: Children, s: Dfs)
    requires Lists(children, edges) && s.marks.Keys <= Universe(ids, edges)
    requires s.stack != [] && Top(s).node in s.marks
    ensures Visit(children, s).marks.Keys <= Universe(ids, edges)
  {
    if !Exhausted(children, s) {
      var a := Next(children, s);
      OutAre(Arcs(edges), Top(s).node, a);
      ArcInUniverse(ids, edges, a);
    }
  }

  lemma ArcInUniverse(ids: seq<NodeId>, edges: seq<Edge>, a: Arc)
    requires a in Arcs(edges)
    ensures a.edge.child in Universe(ids, edges)
  {
    assert a.edge in edges;
  }

  /** After `n` steps the walk has started from `root` roots and has these variables. */
  ghost predicate Holds(ids: seq<NodeId>, children: Children, n: nat, root: nat,
                        marks: map<NodeId, Mark>, stack: seq<Frame>, back: set<Arc>) {
    var s := Run(ids, children, n);
    s.root == root && s.marks == marks && s.stack == stack && s.back == back
  }

  ghost function Minus(a: nat, b: nat): nat {
    if a < b then 0 else a - b
  }

  ghost function Unfinished(ids: seq<NodeId>, edges: seq<Edge>, children: Children, n: nat): nat {
    Minus(|Universe(ids, edges)|, |Run(ids, children, n).rank|)
  }

  ghost function Undiscovered(ids: seq<NodeId>, edges: seq<Edge>, children: Children, n: nat): nat {
    Minus(|Universe(ids, edges)|, |Run(ids, children, n).marks|)
  }

  ghost function Remaining(children: Children, stack: seq<Frame>): nat {
    if stack == [] then 0 else Minus(|ArcsFrom(children, stack[|stack|-1].node)|, stack[|stack|-1].next)
  }

  lemma RunSizes(ids: seq<NodeId>, edges: seq<Edge>, children: Children, n: nat)
    requires Lists(children, edges)
    ensures |Run(ids, children, n).rank| <= |Run(ids, children, n).marks| <= |Universe(ids, edges)|
  {
    var s := Run(ids, children, n);
    RunInUniverse(ids, edges, children, n);
    RunDoneIsRanked(ids, children, n);
    SubsetSize(s.rank.Keys, s.marks.Keys);
    SubsetSize(s.marks.Keys, Universe(ids, edges));
    assert |s.rank| == |s.rank.Keys| && |s.marks| == |s.marks.Keys|;
  }

  /** Something is finished, discovered or passed. */
  ghost predicate Moves(r: nat, m: nat, left: nat, r': nat, m': nat, left': nat) {
    r' == r + 1 || (r' == r && m' == m + 1) || (r' == r && m' == m && left' < left)
  }

  ghost predicate Shrinks(a: nat, b: nat, c: nat, a': nat, b': nat, c': nat) {
    a' < a || (a' == a && (b' < b || (b' == b && c' < c)))
  }

  lemma MovesShrink(size: nat, r: nat, m: nat, left: nat, r': nat, m': nat, left': nat)
    requires r' <= size && m' <= size && Moves(r, m, left, r', m', left')
    ensures Shrinks(Minus(size, r), Minus(size, m), left, Minus(size, r'), Minus(size, m'), left')
  {
  }

  lemma VisitProgresses(children: Children, s: Dfs)
    requires s.stack != [] && Top(s).node !in s.rank && Top(s).node in s.marks
    ensures var s' := Visit(children, s);
            Moves(|s.rank|, |s.marks|, Remaining(children, s.stack),
                  |s'.rank|, |s'.marks|, Remaining(children, s'.stack))
  {
  }

  /** Each iteration finishes a node, discovers one, or passes an arc. */
  lemma RunProgresses(ids: seq<NodeId>, edges: seq<Edge>, children: Children, n: nat)
    requires Lists(children, edges) && Run(ids, children, n).stack != []
    ensures Shrinks(Unfinished(ids, edges, children, n), Undiscovered(ids, edges, children, n),
                    Remaining(children, Run(ids, children, n).stack),
                    Unfinished(ids, edges, children, n + 1), Undiscovered(ids, edges, children, n + 1),
                    Remaining(children, Run(ids, children, n + 1).stack))
  {
    var s, s' := Run(ids, children, n), Run(ids, children, n + 1);
    RunTopIsUnranked(ids, children, n);
    VisitProgresses(children, s);
    RunSizes(ids, edges, children, n + 1);
    MovesShrink(|Universe(ids, edges)|, |s.rank|, |s.marks|, Remaining(children, s.stack),
                |s'.rank|, |s'.marks|, Remaining(children, s'.stack));
  }

  /** One iteration of the inner loop. */
  method VisitTop(ghost ids: seq<NodeId>, children: Children, ghost n: nat, ghost root: nat,
                  marks0: map<NodeId, Mark>, stack0: seq<Frame>, back0: set<Arc>)
    returns (marks: map<NodeId, Mark>, stack: seq<Frame>, back: set<Arc>)
    requires Holds(ids, children, n, root, marks0, stack0, back0) && stack0 != []
    ensures Holds(ids, children, n + 1, root, marks, stack, back)
  {
    marks, stack, back := marks0, stack0, back0;
    var frame := stack[|stack|-1];
    var out := ArcsFrom(children, frame.node);
    if frame.next >= |out| {
      marks := marks[frame.node := Done];
      stack := stack[..|stack|-1];
      return;
    }
    var arc := out[frame.next];
    stack := stack[|stack|-1 := Frame(frame.node, frame.next + 1)];
    var child := arc.edge.child;
    if child !in marks {
      marks := marks[child := Open];
      stack := stack + [Frame(child, 0)];
    } else if marks[child] == Open {
      back := back + {arc};
    }
  }

  /** The walk from one root: the inner loop, entered with the root alone on the stack. */
  method Explore(ghost ids: seq<NodeId>, ghost edges: seq<Edge>, children: Children, node: NodeId, ghost n0: nat,
                 ghost root: nat, marks0: map<NodeId, Mark>, back0: set<Arc>)
    returns (marks: map<NodeId, Mark>, back: set<Arc>, ghost n: nat)
    requires Lists(children, edges)
    requires Holds(ids, children, n0, root, marks0, [Frame(node, 0)], back0)
    ensures Holds(ids, children, n, root, marks, [], back)
  {
    n, marks, back := n0, marks0, back0;
    var stack := [Frame(node, 0)];
    while |stack| > 0
      invariant Holds(ids, children, n, root, marks, stack, back)
      decreases Unfinished(ids, edges, children, n), Undiscovered(ids, edges, children, n), Remaining(children, stack)
    {
      RunProgresses(ids, edges, children, n);
      marks, stack, back := VisitTop(ids, children, n, root, marks, stack, back);
      n := n + 1;
    }
  }

  lemma WhatIsKept(ids: seq<NodeId>, edges: seq<Edge>, children: Children, n: nat)
    requires Lists(children, edges) && Over(ids, Run(ids, children, n))
    ensures var back := Run(ids, children, n).back;
            && ((forall e :: e in edges ==> e.parent in ids) ==> Acyclic(Keep(Arcs(edges), back)))
            && (forall a :: a in back ==> a in Arcs(edges) && ClosesCycle(Keep(Arcs(edges), back), a.edge))
            && (Acyclic(edges) ==> back == {})
  {
    var back := Run(ids, children, n).back;
    if forall e :: e in edges ==> e.parent in ids { KeptIsAcyclic(ids, edges, children, n); }
    forall a | a in back ensures a in Arcs(edges) && ClosesCycle(Keep(Arcs(edges), back), a.edge) {
      SetAsideCloses(ids, edges, children, n, a);
    }
    if Acyclic(edges) { NothingSetAside(edges, back); }
  }

  /**
    The edges to set aside: what is kept has no cycle, each edge set aside would close one with kept
    edges, and so an acyclic input loses nothing.
    */
  method BackEdges(ids: seq<NodeId>, edges: seq<Edge>) returns (back: set<Arc>)
    ensures (forall e :: e in edges ==> e.parent in ids) ==> Acyclic(Keep(Arcs(edges), back))
    ensures forall a :: a in back ==> a in Arcs(edges) && ClosesCycle(Keep(Arcs(edges), back), a.edge)
    ensures Acyclic(edges) ==> back == {}
  {
    var children := BuildChildren(edges);
    var marks: map<NodeId, Mark> := map[];
    back := {};
    ghost var n := 0;
    for root := 0 to |ids|
      invariant Holds(ids, children, n, root, marks, [], back)
    {
      n := n + 1;
      if ids[root] in marks { continue; }
      marks, back, n := Explore(ids, edges, children, ids[root], n, root + 1, marks[ids[root] := Open], back);
    }
    WhatIsKept(ids, edges, children, n);
  }
}
