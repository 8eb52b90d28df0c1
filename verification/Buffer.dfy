/**
  The agent's bounded queue of unsent payloads, kept as a directory of files named by the time they were
  written. The files are modelled in listing order, which is name order; a file written under an
  existing name replaces it.
  */
module Buffer {
  type Body(==, !new)

  /** A file: its name, which is the time it was written, and its content. */
  datatype Entry = Entry(name: int, body: Body)

  const MAX_ENTRIES := 500
  const MAX_AGE := 7 * 24 * 3600 * 1000_000_000

  /** Sorted by name, no name twice. */
  ghost predicate Listing(files: seq<Entry>) {
    forall i, j :: 0 <= i < j < |files| ==> files[i].name < files[j].name
  }

  function Bodies(files: seq<Entry>): multiset<Body> {
    if files == [] then multiset{} else Bodies(files[..|files|-1]) + multiset{files[|files|-1].body}
  }

  lemma {:induction false} BodiesAdd(a: seq<Entry>, b: seq<Entry>)
    ensures Bodies(a + b) == Bodies(a) + Bodies(b)
  {
    if b == [] {
      assert a + b == a;
    } else {
      var m := |b| - 1;
      assert (a + b)[..|a + b| - 1] == a + b[..m];
      BodiesAdd(a, b[..m]);
    }
  }

  lemma BodiesJoin(files: seq<Entry>, a: seq<Entry>, b: seq<Entry>)
    requires files == a + b
    ensures Bodies(files) == Bodies(a) + Bodies(b)
  {
    BodiesAdd(a, b);
  }

  lemma Split(files: seq<Entry>, k: nat)
    requires k <= |files|
    ensures files == files[..k] + files[k..]
  {
  }

  lemma BodiesSplit(files: seq<Entry>, k: nat)
    requires k <= |files|
    ensures Bodies(files) == Bodies(files[..k]) + Bodies(files[k..])
  {
    Split(files, k);
    BodiesJoin(files, files[..k], files[k..]);
  }

  lemma BodiesSnoc(files: seq<Entry>, f: Entry)
    ensures Bodies(files + [f]) == Bodies(files) + multiset{f.body}
  {
    assert (files + [f])[..|files|] == files;
  }

  /** The files with one written under `f.name`. */
  function Put(files: seq<Entry>, f: Entry): seq<Entry> {
    if files == [] then [f]
    else
      var last := files[|files|-1];
      if last.name < f.name then files + [f]
      else if last.name == f.name then files[..|files|-1] + [f]
      else Put(files[..|files|-1], f) + [last]
  }

  /** What writing under `name` replaces. */
  function Replaced(files: seq<Entry>, name: int): multiset<Body> {
    if files == [] then multiset{}
    else
      var last := files[|files|-1];
      if last.name < name then multiset{}
      else if last.name == name then multiset{last.body}
      else Replaced(files[..|files|-1], name)
  }

  lemma {:induction false} PutNames(files: seq<Entry>, f: Entry, bound: int)
    requires f.name < bound && forall k :: 0 <= k < |files| ==> files[k].name < bound
    ensures forall k :: 0 <= k < |Put(files, f)| ==> Put(files, f)[k].name < bound
  {
    if files != [] && files[|files|-1].name > f.name { PutNames(files[..|files|-1], f, bound); }
  }

  lemma {:induction false} PutIsListing(files: seq<Entry>, f: Entry)
    requires Listing(files)
    ensures Listing(Put(files, f)) && |files| <= |Put(files, f)| <= |files| + 1
  {
    if files != [] && files[|files|-1].name > f.name {
      PutIsListing(files[..|files|-1], f);
      PutNames(files[..|files|-1], f, files[|files|-1].name);
    }
  }

  lemma {:induction false} PutBodies(files: seq<Entry>, f: Entry)
    ensures Bodies(Put(files, f)) + Replaced(files, f.name) == Bodies(files) + multiset{f.body}
  {
    if files == [] {
      BodiesSnoc([], f);
      assert [] + [f] == [f];
    } else {
      var front, last := files[..|files|-1], files[|files|-1];
      if last.name < f.name {
        BodiesSnoc(files, f);
      } else if last.name == f.name {
        BodiesSnoc(front, f);
        AddBoth(Bodies(front), multiset{}, Bodies(front), multiset{f.body}, multiset{last.body});
      } else {
        PutBodies(front, f);
        BodiesSnoc(Put(front, f), last);
        AddBoth(Bodies(Put(front, f)), Replaced(front, f.name), Bodies(front), multiset{f.body}, multiset{last.body});
      }
    }
  }

  lemma AddBoth(put: multiset<Body>, replaced: multiset<Body>, before: multiset<Body>, one: multiset<Body>,
                more: multiset<Body>)
    ensures put + replaced == before + one ==> (put + more) + replaced == (before + more) + one
    ensures (before + one) + more == (before + more) + one
  {
    assert (put + more) + replaced == (put + replaced) + more;
    assert (before + one) + more == (before + more) + one;
  }

  /** The files without one of them. */
  function Without(files: seq<Entry>, name: int): seq<Entry> {
    if files == [] then []
    else
      var last := files[|files|-1];
      if last.name == name then files[..|files|-1] else Without(files[..|files|-1], name) + [last]
  }

  lemma {:induction false} WithoutFirst(files: seq<Entry>)
    requires files != [] && Listing(files)
    ensures Without(files, files[0].name) == files[1..]
  {
    if |files| > 1 {
      WithoutFirst(files[..|files|-1]);
      assert files[..|files|-1][1..] + [files[|files|-1]] == files[1..];
    }
  }

  /** How many of the first files are past `cutoff`. */
  function Expired(files: seq<Entry>, cutoff: int): (n: nat)
    ensures n <= |files|
    ensures forall k :: 0 <= k < n ==> files[k].name < cutoff
    ensures n < |files| ==> files[n].name >= cutoff
  {
    if files == [] || files[0].name >= cutoff then 0 else Expired(files[1..], cutoff) + 1
  }

  /** How many of the oldest make room for one more. */
  function Surplus(files: seq<Entry>): nat {
    if |files| < MAX_ENTRIES then 0 else |files| - MAX_ENTRIES + 1
  }

  /** What is left of `names` and what is listed, after the first `i`, when the first `expired` go. */
  ghost predicate Listed(names: seq<Entry>, expired: nat, i: nat, files: seq<Entry>, entries: seq<Entry>) {
    && i <= |names| && expired <= |names|
    && files == names[(if i <= expired then i else expired)..]
    && entries == if i <= expired then [] else names[expired..i]
  }

  lemma ListedFirst(names: seq<Entry>, expired: nat)
    requires expired <= |names|
    ensures Listed(names, expired, 0, names, [])
  {
    assert names[0..] == names;
  }

  lemma ListedLast(names: seq<Entry>, expired: nat, files: seq<Entry>, entries: seq<Entry>)
    requires Listed(names, expired, |names|, files, entries)
    ensures files == names[expired..] == entries
  {
  }

  lemma OldOneGoes(names: seq<Entry>, cutoff: int, i: nat, files: seq<Entry>, entries: seq<Entry>)
    requires Listing(names) && i < |names| && Listed(names, Expired(names, cutoff), i, files, entries)
    requires names[i].name < cutoff
    ensures i < Expired(names, cutoff) && files != [] && files[0] == names[i]
    ensures Listing(files) && Without(files, names[i].name) == files[1..]
    ensures Listed(names, Expired(names, cutoff), i + 1, files[1..], entries)
  {
    assert i < Expired(names, cutoff);
    WithoutFirst(names[i..]);
  }

  lemma YoungOneStays(names: seq<Entry>, cutoff: int, i: nat, files: seq<Entry>, entries: seq<Entry>)
    requires Listing(names) && i < |names| && Listed(names, Expired(names, cutoff), i, files, entries)
    requires names[i].name >= cutoff
    ensures Listed(names, Expired(names, cutoff), i + 1, files, entries + [names[i]])
  {
    var expired := Expired(names, cutoff);
    assert i >= expired;
    assert names[expired..i+1] == names[expired..i] + [names[i]];
    assert i == expired ==> names[expired..i] == [];
  }

  class Queue {
    var files: seq<Entry>

    ghost predicate Valid()
      reads this
    {
      Listing(files) && |files| <= MAX_ENTRIES
    }

    constructor ()
      ensures Valid() && files == []
    {
      files := [];
    }

    /** Drop the oldest entries once the queue is full. */
    method EvictIfFull()
      requires Valid()
      modifies this
      ensures Valid() && |files| < MAX_ENTRIES
      ensures files == old(files)[Surplus(old(files))..]
    {
      if |files| < MAX_ENTRIES { return; }
      var toDrop := |files| - MAX_ENTRIES + 1;
      var names := files;
      for i := 0 to toDrop
        invariant i < |names| && files == names[i..] && Valid()
      {
        WithoutFirst(files);
        files := Without(files, names[i].name);
      }
    }

    /** Save a payload under the current time. */
    method Push(body: Body, now: int)
      requires Valid()
      modifies this
      ensures Valid()
      ensures files == Put(old(files)[Surplus(old(files))..], Entry(now, body))
    {
      EvictIfFull();
      PutIsListing(files, Entry(now, body));
      files := Put(files, Entry(now, body));
    }

    /** The usable payloads, oldest first; what is too old is removed for good. */
    method Pending(now: int) returns (entries: seq<Entry>)
      requires Valid()
      modifies this
      ensures Valid() && entries == files
      ensures files == old(files)[Expired(old(files), now - MAX_AGE)..]
    {
      var cutoff := now - MAX_AGE;
      var names := files;
      entries := [];
      ghost var expired := Expired(names, cutoff);
      ListedFirst(names, expired);
      for i := 0 to |names|
        invariant Valid() && Listed(names, expired, i, files, entries)
      {
        entries := Consider(names, cutoff, i, entries);
      }
      ListedLast(names, expired, files, entries);
    }

    /** Remove one file that is too old, or list it. */
    method Consider(names: seq<Entry>, cutoff: int, i: nat, entries0: seq<Entry>) returns (entries: seq<Entry>)
      requires Valid() && Listing(names) && i < |names| <= MAX_ENTRIES
      requires Listed(names, Expired(names, cutoff), i, files, entries0)
      modifies this
      ensures Valid() && Listed(names, Expired(names, cutoff), i + 1, files, entries)
    {
      entries := entries0;
      if names[i].name < cutoff {
        OldOneGoes(names, cutoff, i, files, entries);
        files := Without(files, names[i].name);
      } else {
        YoungOneStays(names, cutoff, i, files, entries);
        entries := entries + [names[i]];
      }
    }

    method Remove(name: int)
      requires Valid() && files != [] && name == files[0].name
      modifies this
      ensures Valid() && files == old(files)[1..]
    {
      WithoutFirst(files);
      files := Without(files, name);
    }
  }
}
