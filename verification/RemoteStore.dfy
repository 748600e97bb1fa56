/** The remote side as far as the jobs see it: a map from path to object. Which version an object
    gets when it is written is the remote side's choice and comes in as an argument. */
module RemoteStore {
  import opened Wrappers
  import opened RemotePaths
  import opened Tables
  import opened SyncSteps

  datatype Object = Object(kind: Kind, version: Option<string>, bytes: Bytes)

  type Store = map<string, Object>

  function Entry(path: string, o: Object): RemoteEntry {
    RemoteEntry(path, NameOf(path), o.kind, |o.bytes|, o.version)
  }

  function Metadata(store: Store, path: string): Option<RemoteEntry> {
    if path in store then Some(Entry(path, store[path])) else None
  }

  function VersionAt(store: Store, path: string): Option<string> {
    if path in store then store[path].version else None
  }

  function Put(store: Store, path: string, bytes: Bytes, version: Option<string>): Store {
    store[path := Object(File, version, bytes)]
  }

  /** Creating a directory over an existing object is refused and changes nothing. */
  function MakeDirectory(store: Store, path: string, version: Option<string>): Store {
    if path in store then store else store[path := Object(Directory, version, [])]
  }

  /** Deletes an object with everything below it; a missing path changes nothing. */
  function DeleteTree(store: Store, path: string): Store {
    map q | q in store && !InSubtree(path, q) :: store[q]
  }

  function Below(store: Store, path: string): set<string> {
    set q | q in store && InSubtree(path, q)
  }

  function Landed(store: Store, from: string, to: string): set<string> {
    set q | q in Below(store, from) :: to + q[|from|..]
  }

  /** The path a landed object came from. */
  function Origin(from: string, to: string, path: string): string
    requires |to| <= |path|
  {
    from + path[|to|..]
  }

  /** Moves a subtree, replacing what was at the destination; a missing source changes nothing. The
      moved objects get the versions `stamp` gives their new paths. */
  function MoveTree(store: Store, from: string, to: string, stamp: map<string, string>): Store {
    if from !in store then store
    else
      map p | p in (store.Keys - Below(store, from) - Below(store, to)) + Landed(store, from, to) ::
        if to <= p && Origin(from, to, p) in Below(store, from) then
          store[Origin(from, to, p)].(version := if p in stamp then Some(stamp[p]) else None)
        else if p in store then store[p]
        else Object(File, None, [])
  }

  lemma DeleteTwice(store: Store, path: string)
    ensures DeleteTree(DeleteTree(store, path), path) == DeleteTree(store, path)
  {
  }

  lemma NothingBelow(store: Store, path: string)
    requires Below(store, path) == {}
    ensures DeleteTree(store, path) == store && path !in store
  {
    forall q | q in store ensures !InSubtree(path, q) {
      assert q !in Below(store, path);
    }
  }

  /** A landed path leads back to where it came from. */
  lemma LandedFrom(store: Store, from: string, to: string, q: string)
    requires q in Below(store, from)
    ensures to + q[|from|..] in Landed(store, from, to)
    ensures Origin(from, to, to + q[|from|..]) == q
  {
    assert from <= q;
    assert (to + q[|from|..])[|to|..] == q[|from|..];
  }

  lemma LandedInSubtree(from: string, to: string, q: string)
    requires InSubtree(from, q)
    ensures InSubtree(to, to + q[|from|..])
  {
    var s := q[|from|..];
    if s == "" {
      assert to + s == to;
    } else {
      assert s[0] == '/';
      assert to + "/" <= to + s;
    }
  }

  /** Two subtrees neither of which contains the other share no path. */
  lemma ApartSubtrees(a: string, b: string, p: string)
    requires !InSubtree(a, b) && !InSubtree(b, a) && InSubtree(b, p)
    ensures !InSubtree(a, p)
  {
    if InSubtree(a, p) {
      CommonPath(a, b, p);
    }
  }

  lemma CommonPath(a: string, b: string, p: string)
    requires InSubtree(a, p) && InSubtree(b, p)
    ensures InSubtree(a, b) || InSubtree(b, a)
  {
    assert a <= p && b <= p;
    if |a| < |b| {
      assert b[..|a|] == p[..|a|] == a;
      assert b[|a|] == p[|a|] == '/';
      assert a + "/" == b[..|a| + 1];
    } else if |b| < |a| {
      assert a[..|b|] == p[..|b|] == b;
      assert a[|b|] == p[|b|] == '/';
      assert b + "/" == a[..|b| + 1];
    } else {
      assert a == p[..|a|] == b;
    }
  }

  /** After a move between separate subtrees nothing is left at the old path, and every object is at
      its new one with its kind and bytes. */
  lemma MoveVacates(store: Store, from: string, to: string, stamp: map<string, string>)
    requires !InSubtree(from, to) && !InSubtree(to, from) && from in store
    ensures Below(MoveTree(store, from, to, stamp), from) == {}
    ensures to in MoveTree(store, from, to, stamp)
  {
    forall p | p in Landed(store, from, to)
      ensures !InSubtree(from, p)
    {
      var q :| q in Below(store, from) && p == to + q[|from|..];
      LandedInSubtree(from, to, q);
      ApartSubtrees(from, to, p);
    }
    assert from in Below(store, from);
    LandedFrom(store, from, to, from);
    assert to + from[|from|..] == to;
  }

  /** What a move between separate subtrees does to each object. */
  lemma MoveRelocates(store: Store, from: string, to: string, stamp: map<string, string>, q: string)
    requires !InSubtree(from, to) && !InSubtree(to, from) && from in store && q in store
    ensures var after := MoveTree(store, from, to, stamp);
            && (InSubtree(from, q) ==>
                  && q !in after && to + q[|from|..] in after
                  && after[to + q[|from|..]].kind == store[q].kind && after[to + q[|from|..]].bytes == store[q].bytes)
            && (!InSubtree(from, q) && !InSubtree(to, q) ==> q in after && after[q] == store[q])
  {
    var after := MoveTree(store, from, to, stamp);
    if InSubtree(from, q) {
      MoveVacates(store, from, to, stamp);
      LandedFrom(store, from, to, q);
      assert q !in Below(after, from);
    } else if !InSubtree(to, q) {
      NotLanded(store, from, to, q);
    }
  }

  lemma NotLanded(store: Store, from: string, to: string, q: string)
    requires !InSubtree(to, q)
    ensures q !in Landed(store, from, to)
    ensures !(to <= q && Origin(from, to, q) in Below(store, from))
  {
    forall p | p in Below(store, from) ensures to + p[|from|..] != q {
      LandedInSubtree(from, to, p);
    }
    if to <= q && Origin(from, to, q) in Below(store, from) {
      OriginInSubtree(from, to, q);
    }
  }

  lemma OriginInSubtree(from: string, to: string, q: string)
    requires to <= q && InSubtree(from, Origin(from, to, q))
    ensures InSubtree(to, q)
  {
    LandedInSubtree(from, to, Origin(from, to, q));
    assert Origin(from, to, q)[|from|..] == q[|to|..];
    assert to + q[|to|..] == q;
  }
}
