/** The recursions of `FsState` over listed directories: what removing piece by piece adds up to, and
    why a walk meets each cached inode once. */
module InodeWalk {
  import opened RemotePaths
  import opened Tables
  import opened InodeCache
  import opened InodeSafety
  import opened InodeRename
  import RemoteStore

  // ---- Removing piece by piece ----

  lemma RemovedTwice(c: Cache, a: set<Ino>, b: set<Ino>)
    ensures Removed(Removed(c, a), b) == Removed(c, a + b)
  {
  }

  /** A set of cached inodes with everything listed below them. */
  predicate ClosedBelow(c: Cache, gone: set<Ino>) {
    forall k, n :: k in gone && k in c.children && n in c.children[k] && c.children[k][n] in c.entries ==> c.children[k][n] in gone
  }

  lemma OneLink(c: Cache, i: Ino, n: string)
    requires ChildrenOk(c) && i in c.entries && i in c.children && n in c.children[i]
    ensures Reach(c, c.children[i][n]) <= Reach(c, i)
  {
    forall j | j in Reach(c, c.children[i][n]) ensures j in Reach(c, i) {
    }
  }

  /** What an inode reaches is itself and what its listed children reach. */
  lemma ReachUnfold(c: Cache, i: Ino, j: Ino)
    requires ChildrenOk(c) && i in c.entries
    ensures j in Reach(c, i) <==>
              j == i || (i in c.children && exists n :: n in c.children[i] && j in Reach(c, c.children[i][n]))
  {
  }

  /** Nothing is reached from a removed inode; from another, what is left. */
  lemma {:induction false} ReachAfterRemoval(c: Cache, gone: set<Ino>, i: Ino)
    requires ChildrenOk(c) && ChildrenOk(Removed(c, gone)) && ClosedBelow(c, gone)
    ensures Reach(Removed(c, gone), i) == Reach(c, i) - gone
    decreases Headroom(c, i)
  {
    hide ChildrenOk, ClosedBelow;
    var after := Removed(c, gone);
    if i in c.entries && i in gone {
      ReachInClosed(c, gone, i);
    } else if i in c.entries {
      if i in c.children {
        ChildrenHaveLessHeadroom(c, i);
        forall n | n in c.children[i]
          ensures Reach(after, c.children[i][n]) == Reach(c, c.children[i][n]) - gone
        {
          ReachAfterRemoval(c, gone, c.children[i][n]);
        }
      }
      hide Reach, Removed;
      assert i in after.entries && (i in after.children <==> i in c.children) && (i in c.children ==> after.children[i] == c.children[i]) by {
        RemovedKeepsRest(c, gone, i);
      }
      forall j ensures j in Reach(after, i) <==> j in Reach(c, i) - gone {
        ReachUnfold(c, i, j);
        ReachUnfold(after, i, j);
      }
    }
  }

  lemma RemovedKeepsRest(c: Cache, gone: set<Ino>, i: Ino)
    requires i in c.entries && i !in gone
    ensures var after := Removed(c, gone);
            i in after.entries && (i in after.children <==> i in c.children) && (i in c.children ==> after.children[i] == c.children[i])
  {
  }

  lemma {:induction false} ReachInClosed(c: Cache, gone: set<Ino>, i: Ino)
    requires ChildrenOk(c) && ClosedBelow(c, gone) && i in gone
    ensures Reach(c, i) <= gone
    decreases Headroom(c, i)
  {
    if i in c.entries && i in c.children {
      ChildrenHaveLessHeadroom(c, i);
      forall n | n in c.children[i]
        ensures Reach(c, c.children[i][n]) <= gone
      {
        if c.children[i][n] in c.entries { ReachInClosed(c, gone, c.children[i][n]); }
      }
    }
  }

  lemma ReachIsClosedBelow(c: Cache, i: Ino)
    requires ChildrenOk(c)
    ensures ClosedBelow(c, Reach(c, i))
  {
    forall k, n | k in Reach(c, i) && k in c.children && n in c.children[k] && c.children[k][n] in c.entries
      ensures c.children[k][n] in Reach(c, i)
    {
      ReachIsClosed(c, i, k, n);
    }
  }

  /** A reached inode other than the start has a longer path. */
  lemma {:induction false} ReachedIsLonger(c: Cache, i: Ino, j: Ino)
    requires ChildrenOk(c) && j in Reach(c, i) && j != i
    ensures |c.entries[j].path| > |c.entries[i].path|
    decreases Headroom(c, i)
  {
    ChildrenHaveLessHeadroom(c, i);
    var n :| n in c.children[i] && j in Reach(c, c.children[i][n]);
    if j != c.children[i][n] { ReachedIsLonger(c, c.children[i][n], j); }
  }

  /** Forgetting an inode's own listing does not change what its children reach. */
  lemma {:induction false} ReachWithoutListing(c: Cache, i: Ino, j: Ino)
    requires ChildrenOk(c) && ChildrenOk(Stale(c, i)) && i !in Reach(c, j)
    ensures Reach(Stale(c, i), j) == Reach(c, j)
    decreases Headroom(c, j)
  {
    if j in c.entries && j in c.children {
      ChildrenHaveLessHeadroom(c, j);
      forall n | n in c.children[j]
        ensures Reach(Stale(c, i), c.children[j][n]) == Reach(c, c.children[j][n])
      {
        OneLink(c, j, n);
        ReachWithoutListing(c, i, c.children[j][n]);
      }
    }
  }

  lemma ChildrenDoNotReachParent(c: Cache, i: Ino)
    requires ChildrenOk(c) && i in c.entries && i in c.children
    ensures forall n :: n in c.children[i] ==> i !in Reach(c, c.children[i][n])
  {
    ChildrenHaveLessHeadroom(c, i);
    forall n | n in c.children[i]
      ensures i !in Reach(c, c.children[i][n])
    {
      var j := c.children[i][n];
      if i in Reach(c, j) {
        if i != j { ReachedIsLonger(c, j, i); }
      }
    }
  }

  // ---- Walking ----

  lemma SiblingsApart(p: string, n: string, m: string)
    requires ChildName(n) && ChildName(m) && n != m
    ensures !InSubtree(Join(p, n), Join(p, m))
  {
    var stem := if p == ROOT then ROOT else p + "/";
    assert Join(p, n) == stem + n && Join(p, m) == stem + m;
    if InSubtree(Join(p, n), Join(p, m)) {
      WithoutStem(stem, n, m);
      NoNameBelowName(n, m);
    }
  }

  lemma WithoutStem(stem: string, n: string, m: string)
    requires InSubtree(stem + n, stem + m)
    ensures InSubtree(n, m)
  {
    assert n == (stem + n)[|stem|..] && m == (stem + m)[|stem|..];
    if stem + n != stem + m {
      assert (stem + m)[..|stem| + |n| + 1] == stem + n + "/";
      assert m[..|n| + 1] == (stem + n + "/")[|stem|..] == n + "/";
    }
  }

  lemma NoNameBelowName(n: string, m: string)
    requires SlashFree(m) && InSubtree(n, m)
    ensures n == m
  {
    if n + "/" <= m { SlashInside(n, m); }
  }

  lemma SlashInside(n: string, m: string)
    requires n + "/" <= m
    ensures '/' in m
  {
    assert m[|n|] == (n + "/")[|n|];
  }

  /** Two listed names lead to separate subtrees. */
  lemma SiblingsReachApart(c: Cache, i: Ino, n: string, m: string)
    requires CacheOk(c) && i in c.entries && i in c.children && n in c.children[i] && m in c.children[i] && n != m
    ensures Reach(c, c.children[i][n]) !! Reach(c, c.children[i][m])
  {
    var a, b := c.children[i][n], c.children[i][m];
    LinkParts(c, i, n);
    LinkParts(c, i, m);
    RootedEntry(c, i);
    forall j | j in Reach(c, a)
      ensures j !in Reach(c, b)
    {
      if j in Reach(c, b) {
        JoinExtends(c.entries[i].path, n);
        JoinExtends(c.entries[i].path, m);
        ReachIsBelow(c, a, j);
        ReachIsBelow(c, b, j);
        RemoteStore.CommonPath(c.entries[a].path, c.entries[b].path, c.entries[j].path);
        SiblingsApart(c.entries[i].path, n, m);
        SiblingsApart(c.entries[i].path, m, n);
      }
    }
  }

  // ---- Removing a listed directory, child by child ----

  /** The inodes reached through some of a directory's names. */
  ghost function ReachAny(c: Cache, i: Ino, names: seq<string>): set<Ino>
    requires ChildrenOk(c) && i in c.children && forall n :: n in names ==> n in c.children[i]
  {
    set n, j | n in names && j in Reach(c, c.children[i][n]) :: j
  }

  lemma ReachAnyGrows(c: Cache, i: Ino, names: seq<string>, n: string)
    requires ChildrenOk(c) && i in c.children && n in c.children[i] && forall m :: m in names ==> m in c.children[i]
    ensures ReachAny(c, i, names + [n]) == ReachAny(c, i, names) + Reach(c, c.children[i][n])
  {
    hide Reach, ChildrenOk;
    forall j
      ensures j in ReachAny(c, i, names + [n]) <==> j in ReachAny(c, i, names) || j in Reach(c, c.children[i][n])
    {
      assert forall m :: m in names + [n] <==> m in names || m == n;
    }
  }

  lemma ReachAnyIsAll(c: Cache, i: Ino, names: seq<string>)
    requires ChildrenOk(c) && i in c.entries && i in c.children && forall n :: n in names <==> n in c.children[i]
    ensures Reach(c, i) == {i} + ReachAny(c, i, names)
    ensures i !in ReachAny(c, i, names)
  {
    hide Reach, ChildrenOk;
    ChildrenDoNotReachParent(c, i);
    forall j
      ensures j in Reach(c, i) <==> j == i || j in ReachAny(c, i, names)
    {
      ReachUnfold(c, i, j);
    }
  }

  /** Removing one more child after some of its siblings. */
  lemma RemoveNextChild(c: Cache, i: Ino, n: string, gone: set<Ino>)
    requires CacheOk(c) && i in c.entries && i in c.children && n in c.children[i] && ClosedBelow(Stale(c, i), gone)
    ensures var c1, child := Stale(c, i), c.children[i][n];
            var mid := Removed(c1, gone);
            && CacheOk(mid) && Removed(mid, Reach(mid, child)) == Removed(c1, gone + Reach(c, child))
            && ClosedBelow(c1, gone + Reach(c, child))
  {
    var c1, child := Stale(c, i), c.children[i][n];
    StaleKeeps(c, i);
    RemoveKeeps(c1, gone);
    CacheParts(c);
    CacheParts(c1);
    hide CacheOk, ChildrenOk, Linked, Stale, Removed, Reach;
    ChildrenDoNotReachParent(c, i);
    ReachWithoutListing(c, i, child);
    CacheParts(Removed(c1, gone));
    ReachAfterRemoval(c1, gone, child);
    RemovedTwice(c1, gone, Reach(c, child) - gone);
    assert gone + (Reach(c, child) - gone) == gone + Reach(c, child);
    ReachIsClosedBelow(c1, child);
    UnionIsClosed(c1, gone, Reach(c, child));
  }

  lemma UnionIsClosed(c: Cache, a: set<Ino>, b: set<Ino>)
    requires ClosedBelow(c, a) && ClosedBelow(c, b)
    ensures ClosedBelow(c, a + b)
  {
  }

  /** Removing the inode itself last. */
  lemma RemoveLast(c: Cache, i: Ino, gone: set<Ino>)
    requires CacheOk(c) && i in c.entries && i !in gone
    ensures var r := Removed(Stale(c, i), gone);
            && i in r.entries && r.entries[i] == c.entries[i]
            && r.(paths := r.paths - {c.entries[i].path}, entries := r.entries - {i}) == Removed(c, {i} + gone)
  {
    hide ChildrenOk;
    var r := Removed(Stale(c, i), gone);
    assert forall p :: p in c.paths ==> (c.paths[p] == i <==> p == c.entries[i].path);
    assert r.paths - {c.entries[i].path} == Removed(c, {i} + gone).paths;
  }

  // ---- Collecting a subtree, child by child ----

  lemma AppendWalk(c: Cache, some: set<Ino>, nodes: seq<Ino>, more: set<Ino>, rest: seq<Ino>)
    requires Walks(c, some, nodes) && Walks(c, more, rest) && some !! more
    ensures Walks(c, some + more, nodes + rest)
  {
    var all := nodes + rest;
    forall a, b | 0 <= a < b < |all| && all[a] == all[b]
      ensures all[a] !in c.entries
    {
      if b < |nodes| {
        assert nodes[a] == nodes[b];
      } else if |nodes| <= a {
        assert rest[a - |nodes|] == rest[b - |nodes|];
      } else {
        assert all[a] in nodes && all[a] == rest[b - |nodes|];
      }
    }
  }

  lemma NextChildIsApart(c: Cache, i: Ino, names: seq<string>, k: nat)
    requires CacheOk(c) && i in c.entries && i in c.children && k < |names| && Distinct(names)
    requires forall n :: n in names ==> n in c.children[i]
    ensures {i} + ReachAny(c, i, names[..k]) !! Reach(c, c.children[i][names[k]])
  {
    hide CacheOk, Linked, Reach;
    CacheParts(c);
    hide ChildrenOk;
    ChildrenDoNotReachParent(c, i);
    forall j | j in ReachAny(c, i, names[..k])
      ensures j !in Reach(c, c.children[i][names[k]])
    {
      var n :| n in names[..k] && j in Reach(c, c.children[i][n]);
      SiblingsReachApart(c, i, n, names[k]);
    }
  }
}
