/**
  Small facts about sequences shared by the other modules, and a stable sort: the meaning of
  JavaScript's `Array.prototype.sort` and Go's `sort.Strings` on the comparators used here.
  */
module Sequences {

  ghost predicate NoDuplicates<T(!new)>(s: seq<T>) {
    forall i, j :: 0 <= i < j < |s| ==> s[i] != s[j]
  }

  /** `a` occurs somewhere to the left of `b`. */
  ghost predicate Before<T(!new)>(s: seq<T>, a: T, b: T) {
    exists i, j :: 0 <= i < j < |s| && s[i] == a && s[j] == b
  }

  /** What a comparator must satisfy for sorting by it to mean anything. */
  ghost predicate TotalPreorder<T(!new)>(le: (T, T) -> bool) {
    && (forall a, b :: le(a, b) || le(b, a))
    && (forall a, b, c :: le(a, b) && le(b, c) ==> le(a, c))
  }

  ghost predicate SortedBy<T(!new)>(s: seq<T>, le: (T, T) -> bool) {
    forall i, j :: 0 <= i < j < |s| ==> le(s[i], s[j])
  }

  function Elements<T>(s: seq<T>): set<T> {
    set x | x in s
  }

  function Insert<T>(x: T, s: seq<T>, le: (T, T) -> bool): (r: seq<T>)
    ensures multiset(r) == multiset{x} + multiset(s)
  {
    if s == [] || le(x, s[0]) then [x] + s
    else
      assert s == [s[0]] + s[1..];
      [s[0]] + Insert(x, s[1..], le)
  }

  function Sort<T>(s: seq<T>, le: (T, T) -> bool): (r: seq<T>)
    ensures multiset(r) == multiset(s)
  {
    if s == [] then [] else
    assert s == [s[0]] + s[1..];
    Insert(s[0], Sort(s[1..], le), le)
  }

  lemma InsertKeepsSorted<T(!new)>(x: T, s: seq<T>, le: (T, T) -> bool)
    requires TotalPreorder(le) && SortedBy(s, le)
    ensures SortedBy(Insert(x, s, le), le)
  {
    if s == [] || le(x, s[0]) {
    } else {
      var t := Insert(x, s[1..], le);
      InsertKeepsSorted(x, s[1..], le);
      forall j | 0 <= j < |t| ensures le(s[0], t[j]) {
        assert t[j] in multiset(t);
        assert t[j] == x || t[j] in multiset(s[1..]);
      }
    }
  }

  lemma SortSorts<T(!new)>(s: seq<T>, le: (T, T) -> bool)
    requires TotalPreorder(le)
    ensures SortedBy(Sort(s, le), le)
  {
    if s != [] {
      SortSorts(s[1..], le);
      InsertKeepsSorted(s[0], Sort(s[1..], le), le);
    }
  }

  /** Same elements with the same multiplicities: same membership, length and freedom from duplicates. */
  lemma Rearranged<T(!new)>(a: seq<T>, b: seq<T>)
    requires multiset(a) == multiset(b)
    ensures |a| == |b|
    ensures forall x :: x in a <==> x in b
    ensures NoDuplicates(a) ==> NoDuplicates(b)
  {
    assert |multiset(a)| == |a| && |multiset(b)| == |b|;
    forall x ensures x in a <==> x in b {
      assert x in a <==> x in multiset(a);
    }
    if NoDuplicates(a) && !NoDuplicates(b) {
      var i, j :| 0 <= i < j < |b| && b[i] == b[j];
      var x := b[i];
      assert b == b[..i] + [x] + b[i+1..j] + [x] + b[j+1..];
      assert multiset(b)[x] >= 2;
      SingleOccurrence(a, x);
      assert false;
    }
  }

  lemma {:induction false} SingleOccurrence<T(!new)>(a: seq<T>, x: T)
    requires NoDuplicates(a)
    ensures multiset(a)[x] <= 1
  {
    if a != [] {
      assert a == [a[0]] + a[1..];
      SingleOccurrence(a[1..], x);
      if x == a[0] {
        assert x !in a[1..];
      }
    }
  }

  lemma {:induction false} NoDuplicatesSize<T(!new)>(s: seq<T>)
    requires NoDuplicates(s)
    ensures |Elements(s)| == |s|
  {
    if s != [] {
      NoDuplicatesSize(s[1..]);
      assert Elements(s) == {s[0]} + Elements(s[1..]);
      assert s[0] !in s[1..];
    } else {
      assert Elements(s) == {};
    }
  }

  lemma {:induction false} SubsetSize<T(!new)>(a: set<T>, b: set<T>)
    requires a <= b
    ensures |a| <= |b|
  {
    if x :| x in a {
      SubsetSize(a - {x}, b - {x});
    }
  }

  lemma InsertKeepsOrder<T(!new)>(x: T, s: seq<T>, le: (T, T) -> bool, a: T, b: T)
    requires Before(s, a, b)
    ensures Before(Insert(x, s, le), a, b)
  {
    var i, j :| 0 <= i < j < |s| && s[i] == a && s[j] == b;
    if le(x, s[0]) {
      assert ([x] + s)[i+1] == a && ([x] + s)[j+1] == b;
    } else {
      var t := Insert(x, s[1..], le);
      var r := Insert(x, s, le);
      assert r == [s[0]] + t;
      if i == 0 {
        assert b in s[1..] by { assert s[1..][j-1] == b; }
        assert b in multiset(t);
        var k :| 0 <= k < |t| && t[k] == b;
        assert r[0] == a && r[k+1] == b;
      } else {
        assert s[1..][i-1] == a && s[1..][j-1] == b;
        InsertKeepsOrder(x, s[1..], le, a, b);
        var k, l :| 0 <= k < l < |t| && t[k] == a && t[l] == b;
        assert r[k+1] == a && r[l+1] == b;
      }
    }
  }

  lemma InsertedFirst<T(!new)>(x: T, s: seq<T>, le: (T, T) -> bool, b: T)
    requires TotalPreorder(le) && SortedBy(s, le)
    requires b in s && le(x, b)
    ensures Before(Insert(x, s, le), x, b)
  {
    if le(x, s[0]) {
      var j :| 0 <= j < |s| && s[j] == b;
      assert ([x] + s)[0] == x && ([x] + s)[j+1] == b;
    } else {
      var r := Insert(x, s, le);
      var t := Insert(x, s[1..], le);
      assert r == [s[0]] + t;
      assert b != s[0];
      InsertedFirst(x, s[1..], le, b);
      var k, l :| 0 <= k < l < |t| && t[k] == x && t[l] == b;
      assert r[k+1] == x && r[l+1] == b;
    }
  }

  /** Stability: whatever stood first and need not move stays first. */
  lemma {:induction false} SortIsStable<T(!new)>(s: seq<T>, le: (T, T) -> bool, a: T, b: T)
    requires TotalPreorder(le)
    requires Before(s, a, b) && le(a, b)
    ensures Before(Sort(s, le), a, b)
  {
    var i, j :| 0 <= i < j < |s| && s[i] == a && s[j] == b;
    var t := Sort(s[1..], le);
    SortSorts(s[1..], le);
    if i == 0 {
      assert s[1..][j-1] == b;
      assert b in multiset(s[1..]);
      assert b in multiset(t);
      InsertedFirst(a, t, le, b);
    } else {
      assert s[1..][i-1] == a && s[1..][j-1] == b;
      SortIsStable(s[1..], le, a, b);
      InsertKeepsOrder(s[0], t, le, a, b);
    }
  }

  /** Two sequences with the same elements still have the same elements once the first one is taken out of both. */
  lemma TakeOut<T(!new)>(a: seq<T>, b: seq<T>) returns (left: seq<T>, right: seq<T>)
    requires a != [] && multiset(a) == multiset(b)
    ensures b == left + [a[0]] + right && multiset(a[1..]) == multiset(left + right)
  {
    assert a[0] in multiset(a) && a[0] in multiset(b);
    var k :| 0 <= k < |b| && b[k] == a[0];
    left, right := b[..k], b[k+1..];
    MultisetOfTail(a);
    MultisetAround(left, a[0], right, b);
    assert multiset(a[1..]) == multiset(a) - multiset{a[0]};
    assert multiset(left + right) == multiset(b) - multiset{a[0]};
  }

  lemma MultisetAround<T(!new)>(left: seq<T>, x: T, right: seq<T>, all: seq<T>)
    requires all == left + [x] + right
    ensures multiset(all) == multiset(left + right) + multiset{x}
  {
  }

  lemma MultisetOfTail<T(!new)>(a: seq<T>)
    requires a != []
    ensures multiset(a) == multiset{a[0]} + multiset(a[1..])
  {
    assert a == [a[0]] + a[1..];
  }

  function Reversed<T>(s: seq<T>): (r: seq<T>)
    ensures |r| == |s| && forall i :: 0 <= i < |s| ==> r[i] == s[|s| - 1 - i]
  {
    seq(|s|, i requires 0 <= i < |s| => s[|s| - 1 - i])
  }

  lemma {:induction false} ReversedCounts<T(!new)>(s: seq<T>)
    ensures multiset(Reversed(s)) == multiset(s)
  {
    if s != [] {
      var m := |s| - 1;
      ReversedCounts(s[..m]);
      assert Reversed(s) == [s[m]] + Reversed(s[..m]);
      assert s == s[..m] + [s[m]];
    }
  }

  lemma SliceMore<T>(base: seq<T>, more: seq<T>, i: nat)
    requires i < |more|
    ensures base + more[..i+1] == base + more[..i] + [more[i]]
  {
  }
}
