/**
  The iterative depth-first walk behind `backEdges`, as a machine.

  The code tells parallel edges apart by object identity: an `Arc` is an edge with its position in
  the input as identity. `Run` is the walk as a machine that makes one step per loop iteration; its
  properties are proved by induction on the number of steps.
  */
module DepthFirst {
  import opened Sequences
  import opened Digraph

  datatype Arc = Arc(id: nat, edge: Edge)
  datatype Mark = Open | Done
  datatype Frame = Frame(node: NodeId, next: nat)

  /** For each node, the arcs leaving it. */
  type Children = map<NodeId, seq<Arc>>

  function ArcsFrom(children: Children, n: NodeId): seq<Arc> {
    if n in children then children[n] else []
  }

  function Arcs(edges: seq<Edge>): seq<Arc> {
    seq(|edges|, i requires 0 <= i < |edges| => Arc(i, edges[i]))
  }

  /** The arcs leaving `n`, in input order. */
  function Out(arcs: seq<Arc>, n: NodeId): seq<Arc> {
    if arcs == [] then []
    else Out(arcs[..|arcs|-1], n) + if arcs[|arcs|-1].edge.parent == n then [arcs[|arcs|-1]] else []
  }

  ghost predicate Lists(children: Children, edges: seq<Edge>) {
    forall n :: ArcsFrom(children, n) == Out(Arcs(edges), n)
  }

  method BuildChildren(edges: seq<Edge>) returns (children: Children)
    ensures Lists(children, edges)
  {
    children := map[];
    var arcs := Arcs(edges);
    for i := 0 to |arcs|
      invariant forall n :: ArcsFrom(children, n) == Out(arcs[..i], n)
    {
      var parent := arcs[i].edge.parent;
      assert arcs[..i+1][..i] == arcs[..i];
      ghost var before := children;
      children := children[parent := ArcsFrom(children, parent) + [arcs[i]]];
      forall n ensures ArcsFrom(children, n) == Out(arcs[..i+1], n) {
        assert ArcsFrom(before, n) == Out(arcs[..i], n);
      }
    }
    assert arcs[..|arcs|] == arcs;
  }

  lemma {:induction false} OutAre(arcs: seq<Arc>, n: NodeId, a: Arc)
    ensures a in Out(arcs, n) <==> a in arcs && a.edge.parent == n
  {
    if arcs != [] {
      var m := |arcs| - 1;
      OutAre(arcs[..m], n, a);
      assert a in arcs <==> a in arcs[..m] || a == arcs[m];
    }
  }

  lemma {:induction false} OutDistinct(arcs: seq<Arc>, n: NodeId)
    requires NoDuplicates(arcs)
    ensures NoDuplicates(Out(arcs, n))
  {
    if arcs != [] {
      var m := |arcs| - 1;
      OutDistinct(arcs[..m], n);
      OutAre(arcs[..m], n, arcs[m]);
    }
  }

  // ---- The walk as a machine -------------------------------------------------------------------

  /**
    The walk's variables, and two histories: the order in which nodes were completed and the arcs that
    discovered a node.
    */
  datatype Dfs = Dfs(root: nat, marks: map<NodeId, Mark>, stack: seq<Frame>, back: set<Arc>,
                     rank: map<NodeId, int>, tree: set<Arc>)

  ghost function Top(s: Dfs): Frame
    requires s.stack != []
  {
    s.stack[|s.stack|-1]
  }

  ghost function Advanced(s: Dfs): seq<Frame>
    requires s.stack != []
  {
    s.stack[|s.stack|-1 := Frame(Top(s).node, Top(s).next + 1)]
  }

  ghost predicate Exhausted(children: Children, s: Dfs)
    requires s.stack != []
  {
    Top(s).next >= |ArcsFrom(children, Top(s).node)|
  }

  /** The arc the walk looks at next. */
  ghost function Next(children: Children, s: Dfs): Arc
    requires s.stack != [] && !Exhausted(children, s)
  {
    ArcsFrom(children, Top(s).node)[Top(s).next]
  }

  ghost function Begin(ids: seq<NodeId>, s: Dfs): Dfs {
    if s.root >= |ids| then s
    else if ids[s.root] in s.marks then s.(root := s.root + 1)
    else s.(root := s.root + 1, marks := s.marks[ids[s.root] := Open], stack := [Frame(ids[s.root], 0)])
  }

  ghost function Visit(children: Children, s: Dfs): Dfs
    requires s.stack != []
  {
    if Exhausted(children, s) then
      s.(marks := s.marks[Top(s).node := Done], stack := s.stack[..|s.stack|-1],
         rank := s.rank[Top(s).node := |s.rank|])
    else
      var arc := Next(children, s);
      var child := arc.edge.child;
      if child !in s.marks then
        s.(marks := s.marks[child := Open], stack := Advanced(s) + [Frame(child, 0)], tree := s.tree + {arc})
      else if s.marks[child] == Open then s.(stack := Advanced(s), back := s.back + {arc})
      else s.(stack := Advanced(s))
  }

  ghost function Run(ids: seq<NodeId>, children: Children, n: nat): Dfs {
    if n == 0 then Dfs(0, map[], [], {}, map[], {})
    else
      var s := Run(ids, children, n - 1);
      if s.stack == [] then Begin(ids, s) else Visit(children, s)
  }

  // ---- What every step keeps -------------------------------------------------------------------

  ghost predicate OnStack(s: Dfs, n: NodeId) {
    exists k :: 0 <= k < |s.stack| && s.stack[k].node == n
  }

  ghost predicate StackIsOpen(s: Dfs) {
    && (forall k :: 0 <= k < |s.stack| ==> s.stack[k].node in s.marks && s.marks[s.stack[k].node] == Open)
    && (forall i, j :: 0 <= i < j < |s.stack| ==> s.stack[i].node != s.stack[j].node)
  }

  lemma VisitStackIsOpen(children: Children, s: Dfs)
    requires s.stack != [] && StackIsOpen(s)
    ensures StackIsOpen(Visit(children, s))
  {
  }

  lemma {:induction false} RunStackIsOpen(ids: seq<NodeId>, children: Children, n: nat)
    ensures StackIsOpen(Run(ids, children, n))
  {
    if n > 0 {
      RunStackIsOpen(ids, children, n - 1);
      var s := Run(ids, children, n - 1);
      if s.stack != [] { VisitStackIsOpen(children, s); }
    }
  }

  ghost predicate OpenIsOnStack(s: Dfs) {
    forall n :: n in s.marks && s.marks[n] == Open ==> OnStack(s, n)
  }

  lemma VisitOpenIsOnStack(children: Children, s: Dfs, n: NodeId)
    requires s.stack != [] && OpenIsOnStack(s)
    requires n in Visit(children, s).marks && Visit(children, s).marks[n] == Open
    ensures OnStack(Visit(children, s), n)
  {
    var s' := Visit(children, s);
    if n in s.marks {
      var k :| 0 <= k < |s.stack| && s.stack[k].node == n;
      assert k < |s'.stack| ==> s'.stack[k].node == n;
    } else {
      assert s'.stack[|s.stack|].node == n;
    }
  }

  lemma {:induction false} RunOpenIsOnStack(ids: seq<NodeId>, children: Children, n: nat)
    ensures OpenIsOnStack(Run(ids, children, n))
  {
    if n > 0 {
      RunOpenIsOnStack(ids, children, n - 1);
      var s, s' := Run(ids, children, n - 1), Run(ids, children, n);
      forall v | v in s'.marks && s'.marks[v] == Open ensures OnStack(s', v) {
        if s.stack != [] {
          VisitOpenIsOnStack(children, s, v);
        } else {
          assert v in s.marks ==> !OnStack(s, v);
          assert s'.stack[0].node == v;
        }
      }
    }
  }

  /** The finished nodes are those ranked. */
  ghost predicate DoneIsRanked(s: Dfs) {
    forall n :: n in s.rank <==> n in s.marks && s.marks[n] == Done
  }

  /** Ranks count up. */
  ghost predicate RanksBelow(s: Dfs) {
    forall n :: n in s.rank ==> s.rank[n] < |s.rank|
  }

  lemma {:induction false} RunRanksBelow(ids: seq<NodeId>, children: Children, n: nat)
    ensures RanksBelow(Run(ids, children, n))
  {
    if n > 0 {
      RunRanksBelow(ids, children, n - 1);
      if Run(ids, children, n - 1).stack != [] { RunTopIsUnranked(ids, children, n - 1); }
    }
  }

  lemma RunTopIsUnranked(ids: seq<NodeId>, children: Children, n: nat)
    requires Run(ids, children, n).stack != []
    ensures var s := Run(ids, children, n);
            Top(s).node in s.marks && s.marks[Top(s).node] == Open && Top(s).node !in s.rank
  {
    RunStackIsOpen(ids, children, n);
    RunDoneIsRanked(ids, children, n);
    var s := Run(ids, children, n);
    assert s.stack[|s.stack|-1] == Top(s);
  }

  lemma {:induction false} RunDoneIsRanked(ids: seq<NodeId>, children: Children, n: nat)
    ensures DoneIsRanked(Run(ids, children, n))
  {
    if n > 0 {
      RunDoneIsRanked(ids, children, n - 1);
      var s := Run(ids, children, n - 1);
      if s.stack != [] {
        RunStackIsOpen(ids, children, n - 1);
        VisitDoneIsRanked(children, s);
      } else {
        BeginDoneIsRanked(ids, s);
      }
    }
  }

  lemma BeginDoneIsRanked(ids: seq<NodeId>, s: Dfs)
    requires DoneIsRanked(s)
    ensures DoneIsRanked(Begin(ids, s))
  {
  }

  lemma VisitDoneIsRanked(children: Children, s: Dfs)
    requires s.stack != [] && DoneIsRanked(s) && StackIsOpen(s)
    ensures DoneIsRanked(Visit(children, s))
  {
    assert s.stack[|s.stack|-1] == Top(s);
  }

  /** Frame `f` has just followed a tree arc to `child`. */
  ghost predicate Follows(children: Children, tree: set<Arc>, f: Frame, child: NodeId) {
    var out := ArcsFrom(children, f.node);
    0 < f.next <= |out| && out[f.next - 1] in tree && out[f.next - 1].edge.child == child
  }

  ghost predicate Linked(children: Children, s: Dfs) {
    forall i, j :: 0 <= i && j == i + 1 < |s.stack| ==> Follows(children, s.tree, s.stack[i], s.stack[j].node)
  }

  lemma {:induction false} RunLinked(ids: seq<NodeId>, children: Children, n: nat)
    ensures Linked(children, Run(ids, children, n))
  {
    if n > 0 {
      RunLinked(ids, children, n - 1);
      var s := Run(ids, children, n - 1);
      if s.stack != [] { VisitLinked(children, s); }
    }
  }

  lemma VisitLinked(children: Children, s: Dfs)
    requires s.stack != [] && Linked(children, s)
    ensures Linked(children, Visit(children, s))
  {
    var s' := Visit(children, s);
    forall i, j | 0 <= i && j == i + 1 < |s'.stack|
      ensures Follows(children, s'.tree, s'.stack[i], s'.stack[j].node)
    {
      if j < |s.stack| { assert Follows(children, s.tree, s.stack[i], s.stack[j].node); }
    }
  }

  /** An arc is settled when it is set aside or leads to a finished node. */
  ghost predicate Settled(s: Dfs, a: Arc) {
    a in s.back || a.edge.child in s.rank
  }

  /** How many arcs of frame `k` the walk is done with: not the one it is following. */
  ghost function Passed(s: Dfs, k: nat): int
    requires k < |s.stack|
  {
    if k == |s.stack| - 1 then s.stack[k].next else s.stack[k].next - 1
  }

  ghost predicate PassedIsSettled(children: Children, s: Dfs, k: nat)
    requires k < |s.stack|
  {
    forall m :: 0 <= m < |ArcsFrom(children, s.stack[k].node)| && m < Passed(s, k) ==>
      Settled(s, ArcsFrom(children, s.stack[k].node)[m])
  }

  lemma VisitPassedIsSettled(children: Children, s: Dfs, k: nat)
    requires s.stack != [] && k < |s.stack| && PassedIsSettled(children, s, k)
    requires k + 1 < |s.stack| ==> Follows(children, s.tree, s.stack[k], s.stack[k+1].node)
    requires forall n :: n in s.marks && s.marks[n] == Done ==> n in s.rank
    requires k < |Visit(children, s).stack|
    ensures PassedIsSettled(children, Visit(children, s), k)
  {
    var s' := Visit(children, s);
    var out := ArcsFrom(children, s.stack[k].node);
    assert s'.stack[k].node == s.stack[k].node;
    forall m | 0 <= m < |out| && m < Passed(s', k) ensures Settled(s', out[m]) {
      if m < Passed(s, k) { assert Settled(s, out[m]); }
    }
  }

  lemma RunSettles(ids: seq<NodeId>, children: Children, n: nat, k: nat)
    requires k < |Run(ids, children, n).stack|
    ensures var s := Run(ids, children, n);
            && (k + 1 < |s.stack| ==> Follows(children, s.tree, s.stack[k], s.stack[k+1].node))
            && (forall n :: n in s.marks && s.marks[n] == Done ==> n in s.rank)
  {
    RunLinked(ids, children, n);
    RunDoneIsRanked(ids, children, n);
  }

  lemma {:induction false} RunPassedIsSettled(ids: seq<NodeId>, children: Children, n: nat, k: nat)
    requires k < |Run(ids, children, n).stack|
    ensures PassedIsSettled(children, Run(ids, children, n), k)
  {
    var s := Run(ids, children, n - 1);
    if k < |s.stack| {
      RunPassedIsSettled(ids, children, n - 1, k);
      RunSettles(ids, children, n - 1, k);
      VisitPassedIsSettled(children, s, k);
    } else {
      NewFrameIsSettled(ids, children, n, k);
    }
  }

  lemma NewFrameIsSettled(ids: seq<NodeId>, children: Children, n: nat, k: nat)
    requires n > 0 && |Run(ids, children, n - 1).stack| <= k < |Run(ids, children, n).stack|
    ensures PassedIsSettled(children, Run(ids, children, n), k)
  {
  }

  /** A kept arc leads from a finished node to a node finished earlier. */
  ghost predicate Descends(s: Dfs, a: Arc) {
    a.edge.parent in s.rank && a !in s.back ==>
      a.edge.child in s.rank && s.rank[a.edge.child] < s.rank[a.edge.parent]
  }

  lemma VisitDescends(children: Children, s: Dfs, a: Arc)
    requires s.stack != [] && Descends(s, a) && a in ArcsFrom(children, a.edge.parent)
    requires Top(s).node !in s.rank && RanksBelow(s) && PassedIsSettled(children, s, |s.stack| - 1)
    ensures Descends(Visit(children, s), a)
  {
    assert s.stack[|s.stack|-1] == Top(s);
    if Exhausted(children, s) && a.edge.parent == Top(s).node {
      var out := ArcsFrom(children, Top(s).node);
      var m :| 0 <= m < |out| && out[m] == a;
      assert Settled(s, out[m]);
    }
  }

  lemma {:induction false} RunDescends(ids: seq<NodeId>, children: Children, n: nat, a: Arc)
    requires a in ArcsFrom(children, a.edge.parent)
    ensures Descends(Run(ids, children, n), a)
  {
    if n > 0 {
      RunDescends(ids, children, n - 1, a);
      var s := Run(ids, children, n - 1);
      if s.stack != [] {
        RunTopIsUnranked(ids, children, n - 1);
        RunRanksBelow(ids, children, n - 1);
        RunPassedIsSettled(ids, children, n - 1, |s.stack| - 1);
        VisitDescends(children, s, a);
      }
    }
  }

  /** The walk has already looked at arc `a`. */
  ghost predicate Scanned(children: Children, s: Dfs, a: Arc) {
    a.edge.parent in s.rank || exists k :: 0 <= k < |s.stack| && ScannedBy(children, s.stack[k], a)
  }

  ghost predicate ScannedBy(children: Children, f: Frame, a: Arc) {
    f.node == a.edge.parent &&
    exists m :: 0 <= m < f.next && m < |ArcsFrom(children, f.node)| && ArcsFrom(children, f.node)[m] == a
  }

  /** Arcs are listed under their parent. */
  ghost predicate WellListed(children: Children) {
    forall n, k :: 0 <= k < |ArcsFrom(children, n)| ==> ArcsFrom(children, n)[k].edge.parent == n
  }

  /** Arcs are listed once each. */
  ghost predicate ListedOnce(children: Children) {
    forall n :: NoDuplicates(ArcsFrom(children, n))
  }

  ghost predicate Recorded(s: Dfs, a: Arc) {
    a in s.tree || a in s.back
  }

  lemma StaysScanned(children: Children, s: Dfs, a: Arc)
    requires s.stack != [] && Scanned(children, s, a)
    ensures Scanned(children, Visit(children, s), a)
  {
    var s' := Visit(children, s);
    if a.edge.parent !in s.rank {
      var k :| 0 <= k < |s.stack| && ScannedBy(children, s.stack[k], a);
      if k < |s'.stack| {
        var m :| 0 <= m < s.stack[k].next && m < |ArcsFrom(children, a.edge.parent)|
                 && ArcsFrom(children, a.edge.parent)[m] == a;
        assert ScannedBy(children, s'.stack[k], a);
      }
    }
  }

  lemma BecomesScanned(children: Children, s: Dfs)
    requires s.stack != [] && !Exhausted(children, s) && Next(children, s).edge.parent == Top(s).node
    ensures Scanned(children, Visit(children, s), Next(children, s))
  {
    var s', l := Visit(children, s), |s.stack| - 1;
    assert s'.stack[l] == Frame(Top(s).node, Top(s).next + 1);
    assert ScannedBy(children, s'.stack[l], Next(children, s));
  }

  lemma {:induction false} RunScanned(ids: seq<NodeId>, children: Children, n: nat, a: Arc)
    requires WellListed(children)
    requires Recorded(Run(ids, children, n), a)
    ensures Scanned(children, Run(ids, children, n), a)
  {
    var s := Run(ids, children, n - 1);
    if Recorded(s, a) {
      RunScanned(ids, children, n - 1, a);
      if s.stack != [] { StaysScanned(children, s, a); }
    } else {
      BecomesScanned(children, s);
    }
  }

  /** The arc the walk looks at next is new to it. */
  lemma NextIsNew(children: Children, s: Dfs)
    requires s.stack != [] && !Exhausted(children, s) && Next(children, s).edge.parent == Top(s).node
    requires NoDuplicates(ArcsFrom(children, Top(s).node))
    requires StackIsOpen(s) && DoneIsRanked(s)
    ensures !Scanned(children, s, Next(children, s))
  {
    var out := ArcsFrom(children, Top(s).node);
    assert s.stack[|s.stack|-1] == Top(s);
    assert forall m :: 0 <= m < Top(s).next ==> out[m] != Next(children, s);
  }

  lemma RunNextIsNew(ids: seq<NodeId>, children: Children, n: nat)
    requires WellListed(children) && ListedOnce(children)
    requires Run(ids, children, n).stack != [] && !Exhausted(children, Run(ids, children, n))
    ensures !Recorded(Run(ids, children, n), Next(children, Run(ids, children, n)))
  {
    var s := Run(ids, children, n);
    RunStackIsOpen(ids, children, n);
    RunDoneIsRanked(ids, children, n);
    NextIsNew(children, s);
    if Recorded(s, Next(children, s)) { RunScanned(ids, children, n, Next(children, s)); }
  }

  lemma {:induction false} RunSeparates(ids: seq<NodeId>, children: Children, n: nat)
    requires WellListed(children) && ListedOnce(children)
    ensures Run(ids, children, n).tree !! Run(ids, children, n).back
  {
    if n > 0 {
      RunSeparates(ids, children, n - 1);
      var s := Run(ids, children, n - 1);
      if s.stack != [] {
        if !Exhausted(children, s) { RunNextIsNew(ids, children, n - 1); }
        VisitSeparates(children, s);
      } else {
        BeginSeparates(ids, s);
      }
    }
  }

  lemma BeginSeparates(ids: seq<NodeId>, s: Dfs)
    requires s.tree !! s.back
    ensures Begin(ids, s).tree !! Begin(ids, s).back
  {
  }

  lemma VisitSeparates(children: Children, s: Dfs)
    requires s.stack != [] && s.tree !! s.back
    requires !Exhausted(children, s) ==> !Recorded(s, Next(children, s))
    ensures Visit(children, s).tree !! Visit(children, s).back
  {
  }

  /** `p` follows arcs in `allowed`. */
  ghost predicate PathVia(allowed: set<Arc>, p: seq<NodeId>) {
    && |p| > 0
    && forall i, j :: 0 <= i && j == i + 1 < |p| ==> JoinedVia(allowed, p[i], p[j])
  }

  ghost predicate JoinedVia(allowed: set<Arc>, a: NodeId, b: NodeId) {
    exists arc :: arc in allowed && arc.edge == Edge(a, b)
  }

  /** Tree arcs lead from the child of arc `a` back to its parent. */
  ghost predicate Closes(tree: set<Arc>, a: Arc) {
    exists p {:trigger PathVia(tree, p)} :: PathVia(tree, p) && p[0] == a.edge.child && p[|p|-1] == a.edge.parent
  }

  lemma ClosesWithMore(tree: set<Arc>, tree': set<Arc>, a: Arc)
    requires tree <= tree' && Closes(tree, a)
    ensures Closes(tree', a)
  {
    var p :| PathVia(tree, p) && p[0] == a.edge.child && p[|p|-1] == a.edge.parent;
    forall i, j | 0 <= i && j == i + 1 < |p| ensures JoinedVia(tree', p[i], p[j]) {
      assert JoinedVia(tree, p[i], p[j]);
    }
    assert PathVia(tree', p);
  }

  /** Tree arcs join the nodes of consecutive frames. */
  lemma FrameJoins(children: Children, s: Dfs, i: nat)
    requires WellListed(children) && Linked(children, s) && i + 1 < |s.stack|
    ensures JoinedVia(s.tree, s.stack[i].node, s.stack[i+1].node)
  {
    var f, child := s.stack[i], s.stack[i+1].node;
    assert Follows(children, s.tree, f, child);
    var t := ArcsFrom(children, f.node)[f.next - 1];
    assert t in s.tree && t.edge == Edge(f.node, child);
  }

  ghost function NodesFrom(s: Dfs, k: nat): (p: seq<NodeId>)
    requires k < |s.stack|
    ensures |p| == |s.stack| - k && forall i :: 0 <= i < |p| ==> p[i] == s.stack[k + i].node
  {
    seq(|s.stack| - k, i requires 0 <= i < |s.stack| - k => s.stack[k + i].node)
  }

  /** The stack spells a path of tree arcs, so an arc to an open node closes a cycle. */
  lemma StackCloses(children: Children, s: Dfs, k: nat, a: Arc)
    requires WellListed(children) && k < |s.stack| && Linked(children, s)
    requires a.edge.parent == Top(s).node && a.edge.child == s.stack[k].node
    ensures Closes(s.tree, a)
  {
    var p := NodesFrom(s, k);
    forall i, j | 0 <= i && j == i + 1 < |p| ensures JoinedVia(s.tree, p[i], p[j]) {
      FrameJoins(children, s, k + i);
    }
    assert PathVia(s.tree, p);
    assert p[0] == a.edge.child && p[|p|-1] == a.edge.parent;
  }

  /** The arc leads from the top of the stack to entry `k` of it. */
  ghost predicate LeadsBack(s: Dfs, k: nat, a: Arc) {
    k < |s.stack| && s.stack[k].node == a.edge.child && a.edge.parent == Top(s).node
  }

  /** An arc set aside leaves the top of the stack for a node of the stack. */
  lemma SetAside(children: Children, s: Dfs, a: Arc) returns (k: nat)
    requires WellListed(children) && s.stack != [] && OpenIsOnStack(s)
    requires a !in s.back && a in Visit(children, s).back
    ensures LeadsBack(s, k, a)
  {
    assert OnStack(s, a.edge.child);
    k :| 0 <= k < |s.stack| && s.stack[k].node == a.edge.child;
  }

  lemma RunSetAside(ids: seq<NodeId>, children: Children, n: nat, a: Arc) returns (k: nat)
    requires WellListed(children)
    requires a in Run(ids, children, n + 1).back && a !in Run(ids, children, n).back
    ensures LeadsBack(Run(ids, children, n), k, a)
  {
    RunOpenIsOnStack(ids, children, n);
    k := SetAside(children, Run(ids, children, n), a);
  }

  lemma RunStackCloses(ids: seq<NodeId>, children: Children, n: nat, k: nat, a: Arc)
    requires WellListed(children) && LeadsBack(Run(ids, children, n), k, a)
    ensures Closes(Run(ids, children, n).tree, a)
  {
    RunLinked(ids, children, n);
    StackCloses(children, Run(ids, children, n), k, a);
  }

  lemma RunStillCloses(ids: seq<NodeId>, children: Children, n: nat, a: Arc)
    requires n > 0 && Closes(Run(ids, children, n - 1).tree, a)
    ensures Closes(Run(ids, children, n).tree, a)
  {
    assert Run(ids, children, n - 1).tree <= Run(ids, children, n).tree;
    ClosesWithMore(Run(ids, children, n - 1).tree, Run(ids, children, n).tree, a);
  }

  lemma {:induction false} RunCloses(ids: seq<NodeId>, children: Children, n: nat, a: Arc)
    requires WellListed(children)
    requires a in Run(ids, children, n).back
    ensures Closes(Run(ids, children, n).tree, a)
  {
    if n > 0 {
      if a in Run(ids, children, n - 1).back {
        RunCloses(ids, children, n - 1, a);
      } else {
        NewlyCloses(ids, children, n - 1, a);
      }
      RunStillCloses(ids, children, n, a);
    }
  }

  lemma NewlyCloses(ids: seq<NodeId>, children: Children, n: nat, a: Arc)
    requires WellListed(children)
    requires a in Run(ids, children, n + 1).back && a !in Run(ids, children, n).back
    ensures Closes(Run(ids, children, n).tree, a)
  {
    var k := RunSetAside(ids, children, n, a);
    RunStackCloses(ids, children, n, k, a);
  }

  lemma {:induction false} RunMarksRoots(ids: seq<NodeId>, children: Children, n: nat)
    ensures var s := Run(ids, children, n);
            s.root <= |ids| && forall k :: 0 <= k < s.root ==> ids[k] in s.marks
  {
    if n > 0 { RunMarksRoots(ids, children, n - 1); }
  }

  ghost predicate Over(ids: seq<NodeId>, s: Dfs) {
    s.stack == [] && s.root == |ids|
  }

  lemma OverIsFinished(ids: seq<NodeId>, children: Children, n: nat, v: NodeId)
    requires Over(ids, Run(ids, children, n)) && v in ids
    ensures v in Run(ids, children, n).rank
  {
    var s := Run(ids, children, n);
    RunMarksRoots(ids, children, n);
    RunOpenIsOnStack(ids, children, n);
    RunDoneIsRanked(ids, children, n);
    var k :| 0 <= k < |ids| && ids[k] == v;
    assert ids[k] in s.marks && !OnStack(s, v);
  }
}
