/** Renaming in the cache: listings and handles stay right, and each cached inode keeps naming the same
    file in the database, under exact conditions. */
module InodeRename {
  import opened Wrappers
  import opened RemotePaths
  import opened Tables
  import opened InodeCache
  import opened InodeSafety
  import SubtreeRename
  import RemoteStore

  // ---- Listings ----

  lemma OneParent(p: string, n: string, q: string, m: string)
    requires ROOT <= p && ROOT <= q && ChildName(n) && ChildName(m) && Join(p, n) == Join(q, m)
    ensures p == q && n == m
  {
    JoinThenSplit(p, n);
    JoinThenSplit(q, m);
  }

  /** A cached child has one directory. */
  lemma OneOwner(c: Cache, k: Ino, n: string, l: Ino, m: string)
    requires CacheOk(c) && k in c.entries && l in c.entries && ChildName(n) && ChildName(m)
    requires Join(c.entries[k].path, n) == Join(c.entries[l].path, m)
    ensures k == l
  {
    OneParent(c.entries[k].path, n, c.entries[l].path, m);
    assert c.paths[c.entries[k].path] == k && c.paths[c.entries[l].path] == l;
  }

  /** Only the renamed inode itself is linked from outside its subtree. */
  lemma LinksStayInside(c: Cache, i: Ino, parent: Ino, name: string, k: Ino, n: string)
    requires CacheOk(c) && i in c.entries && parent in c.entries && ChildName(name)
    requires c.entries[i].path == Join(c.entries[parent].path, name)
    requires k in c.children && n in c.children[k] && c.children[k][n] in c.entries && k != parent
    ensures k in Reach(c, i) <==> c.children[k][n] in Reach(c, i)
  {
    hide Join, ChildName, CacheOk, LinkOk;
    CacheParts(c);
    hide ChildrenOk;
    var j := c.children[k][n];
    LinkParts(c, k, n);
    if k in Reach(c, i) {
      ReachIsClosed(c, i, k, n);
    } else if j in Reach(c, i) {
      if j == i {
        OneOwner(c, k, n, parent, name);
      } else {
        var l, m := ReachedThrough(c, i, j);
        LinkParts(c, l, m);
        OneOwner(c, k, n, l, m);
      }
    }
  }

  lemma CacheParts(c: Cache)
    requires CacheOk(c)
    ensures Linked(c) && ChildrenOk(c)
  {
  }

  lemma LinkParts(c: Cache, k: Ino, n: string)
    requires CacheOk(c) && k in c.children && n in c.children[k]
    ensures k in c.entries && ROOT <= c.entries[k].path && ChildName(n) && c.children[k][n] < c.nextIno
    ensures c.children[k][n] in c.entries ==> c.entries[c.children[k][n]].path == Join(c.entries[k].path, n)
  {
    assert LinkOk(c, k, n, c.children[k][n]);
  }

  lemma TargetOfChild(from: string, to: string, p: string, n: string)
    requires ROOT <= from && from != ROOT && InSubtree(from, p) && ROOT <= to && to != ROOT
    ensures Substituted(from, to, Join(p, n)) == Join(Substituted(from, to, p), n)
    ensures ROOT <= Substituted(from, to, p) && Substituted(from, to, p) != ROOT
  {
    var s := p[|from|..];
    assert p == from + s;
    assert |p| > |ROOT|;
    assert Join(p, n) == from + (s + "/" + n);
    assert Join(p, n)[|from|..] == s + "/" + n;
    assert |to + s| > |ROOT|;
    assert to + (s + "/" + n) == (to + s) + "/" + n;
  }

  function PathAfter(c: Cache, nodes: seq<Ino>, from: string, to: string, j: Ino): string
    requires j in c.entries
  {
    if j in nodes then Substituted(from, to, c.entries[j].path) else c.entries[j].path
  }

  /** A move changes the paths of the walk, and nothing else about numbers and listings. */
  lemma MovedFacts(c: Cache, nodes: seq<Ino>, i: Ino, newParent: Ino, newName: string, to: string)
    requires CacheOk(c) && i in c.entries && IsWalk(c, i, nodes)
    requires c.entries[i].path != ROOT && Apart(c.entries[i].path, to)
    ensures var after, from := MovedSubtree(c, nodes, i, newParent, newName, to), c.entries[i].path;
            && after.entries.Keys == c.entries.Keys && after.nextIno == c.nextIno && after.children == c.children
            && after.handles.Keys == c.handles.Keys
            && (forall h :: h in c.handles ==> after.handles[h] == MovedHandle(c.handles[h], i, from, newParent, to))
            && (forall j :: j in c.entries ==> after.entries[j].path == PathAfter(c, nodes, from, to, j))
            && (forall j :: j in c.entries ==> (j in nodes <==> j in Reach(c, i)))
            && (forall j :: j in c.entries && j in nodes ==> InSubtree(from, c.entries[j].path))
  {
    hide Substituted, MoveAll, InSubtree, Reach, ChildrenOk, PathsMoved;
    WalkLiesBelow(c, i, nodes);
    MoveAllEffect(c, nodes, i, c.entries[i].path, newParent, newName, to);
  }

  /** Everything `rename_entry` does to the moved tree, short of the handles. */
  lemma MoveKeepsChildren(c: Cache, nodes: seq<Ino>, parent: Ino, name: string, i: Ino, newParent: Ino, newName: string, to: string)
    requires CacheOk(c) && i in c.entries && IsWalk(c, i, nodes) && parent in c.entries && ChildName(name)
    requires c.entries[i].path == Join(c.entries[parent].path, name) && c.entries[i].path != ROOT
    requires ROOT <= to && to != ROOT && Apart(c.entries[i].path, to)
    ensures ChildrenOk(Stale(MovedSubtree(c, nodes, i, newParent, newName, to), parent))
  {
    var from := c.entries[i].path;
    var after := Stale(MovedSubtree(c, nodes, i, newParent, newName, to), parent);
    hide Join, ChildName, Linked, MovedSubtree, AllMoved, Substituted, InSubtree, Apart, WalkBelow, IsWalk, LinkOk, Reach;
    CacheParts(c);
    MovedFacts(c, nodes, i, newParent, newName, to);
    RootedEntries(c);
    RootedEntry(c, i);
    hide ChildrenOk;
    forall j | j in after.entries
      ensures ROOT <= after.entries[j].path
    {
      if j in nodes { TargetOfChild(from, to, c.entries[j].path, ""); }
    }
    forall k, n | k in after.children && n in after.children[k]
      ensures k in after.entries && LinkOk(after, k, n, after.children[k][n])
    {
      LinkParts(c, k, n);
      var j := c.children[k][n];
      if j in c.entries {
        LinksStayInside(c, i, parent, name, k, n);
        if k in nodes { TargetOfChild(from, to, c.entries[k].path, n); }
      }
      LinkFromParts(after, k, n, j);
    }
    ListedAreCached(c);
    ChildrenFromParts(after);
  }

  lemma LinkFromParts(c: Cache, k: Ino, n: string, j: Ino)
    requires k in c.entries && ChildName(n) && j < c.nextIno
    requires j in c.entries ==> c.entries[j].path == Join(c.entries[k].path, n)
    ensures LinkOk(c, k, n, j)
  {
  }

  lemma ListedAreCached(c: Cache)
    requires ChildrenOk(c)
    ensures forall k :: k in c.children ==> k in c.entries
  {
  }

  lemma ChildrenFromParts(c: Cache)
    requires forall i :: i in c.entries ==> ROOT <= c.entries[i].path
    requires forall k :: k in c.children ==> k in c.entries
    requires forall k, n :: k in c.children && n in c.children[k] ==> LinkOk(c, k, n, c.children[k][n])
    ensures ChildrenOk(c)
  {
  }

  lemma RootedEntry(c: Cache, i: Ino)
    requires ChildrenOk(c) && i in c.entries
    ensures ROOT <= c.entries[i].path
  {
  }

  // ---- Handles ----

  /** Handles keep pointing at their inode's path exactly when no open file outside the moved subtree
      has a path that merely begins with the old one. */
  lemma HandlesFollowIff(c: Cache, nodes: seq<Ino>, i: Ino, newParent: Ino, newName: string, to: string)
    requires CacheOk(c) && HandlesOk(c) && i in c.entries && IsWalk(c, i, nodes)
    requires c.entries[i].path != ROOT && Apart(c.entries[i].path, to)
    ensures HandlesOk(MovedSubtree(c, nodes, i, newParent, newName, to))
            <==> forall h :: h in c.handles && c.handles[h].ino in c.entries && c.entries[i].path <= c.handles[h].path
                   ==> c.handles[h].ino in nodes
  {
    var from := c.entries[i].path;
    var after := MovedSubtree(c, nodes, i, newParent, newName, to);
    hide CacheOk, IsWalk, MovedSubtree, InSubtree, Reach, Substituted, MovedHandle, Apart, ChildrenOk;
    MovedFacts(c, nodes, i, newParent, newName, to);
    ApartDiffer(from, to);
    SubtreeIsPrefix(from);
    MovedHandleKeepsIno(i, from, newParent, to);
    forall h | h in c.handles && c.handles[h].ino in c.entries
      ensures after.handles[h].path == after.entries[after.handles[h].ino].path
              <==> (from <= c.handles[h].path ==> c.handles[h].ino in nodes)
    {
      HandleAgrees(c.handles[h], i, from, newParent, to, c.handles[h].ino in nodes);
    }
  }

  lemma MovedHandleKeepsIno(i: Ino, from: string, newParent: Ino, to: string)
    ensures forall handle: Handle :: MovedHandle(handle, i, from, newParent, to).ino == handle.ino
  {
  }

  lemma HandleAgrees(handle: Handle, i: Ino, from: string, newParent: Ino, to: string, moves: bool)
    requires to != from && (moves ==> from <= handle.path)
    ensures MovedHandle(handle, i, from, newParent, to).path
            == (if moves then Substituted(from, to, handle.path) else handle.path)
            <==> (from <= handle.path ==> moves)
  {
    if from <= handle.path { HandleFollows(from, to, handle.path); }
  }

  lemma SubtreeIsPrefix(from: string)
    ensures forall q :: InSubtree(from, q) ==> from <= q
  {
  }

  lemma ApartDiffer(from: string, to: string)
    requires Apart(from, to)
    ensures to != from
  {
  }

  lemma HandleFollows(from: string, to: string, path: string)
    requires from <= path
    ensures to + path[|from|..] == path ==> to == from
  {
    var p := to + path[|from|..];
    assert |p| == |path| ==> |to| == |from|;
    assert p[..|to|] == to;
  }

  // ---- The database ----

  /** A database rename to a path below which there was nothing. */
  ghost predicate RowsRenamed(files: Files, after: Files, from: string, to: string) {
    && SubtreeRename.ExactlySubstituted(files, after, from, to)
    && SubtreeRename.UniquePaths(files) && SubtreeRename.UniquePaths(after)
    && Apart(from, to) && forall f :: f in files ==> !InSubtree(to, files[f].path)
  }

  /** Where the path of a renamed row is. */
  lemma RowMoves(files: Files, after: Files, from: string, to: string, f: FileId)
    requires RowsRenamed(files, after, from, to) && f in files
    ensures after.Keys == files.Keys
    ensures InSubtree(from, files[f].path) ==>
              after[f].path == Substituted(from, to, files[f].path) && InSubtree(to, after[f].path) && !InSubtree(from, after[f].path)
              && from + after[f].path[|to|..] == files[f].path
    ensures !InSubtree(from, files[f].path) ==> after[f].path == files[f].path && !InSubtree(to, after[f].path)
  {
    var p := files[f].path;
    if InSubtree(from, p) {
      RemoteLanding(from, to, p);
    }
  }

  lemma RemoteLanding(from: string, to: string, p: string)
    requires Apart(from, to) && InSubtree(from, p)
    ensures InSubtree(to, to + p[|from|..]) && !InSubtree(from, to + p[|from|..])
    ensures from + (to + p[|from|..])[|to|..] == p
  {
    SubtreeRename.SuffixInSubtree(to, p[|from|..]);
    RemoteStore.ApartSubtrees(from, to, to + p[|from|..]);
    assert (to + p[|from|..])[|to|..] == p[|from|..];
  }

  /** Below the old path every name moves along, and the old names are gone. */
  lemma NamesMove(files: Files, after: Files, from: string, to: string, p: string)
    requires RowsRenamed(files, after, from, to) && InSubtree(from, p)
    ensures RowAt(after, Substituted(from, to, p)) == RowAt(files, p)
    ensures RowAt(after, p) == None
  {
    hide SubtreeRename.ExactlySubstituted, InSubtree, Apart, SubtreeRename.UniquePaths;
    SubtreeIsPrefixOf(from, p);
    forall f | f in files
      ensures f in after && after[f].path != p
      ensures after[f].path == Substituted(from, to, p) <==> files[f].path == p
    {
      RowMoves(files, after, from, to, f);
      LandsThere(from, to, p);
    }
    RowMovesKeys(files, after, from, to);
    match RowAt(files, p)
    case Some(f) => SubtreeRename.RowAtIsUnique(after, Substituted(from, to, p), f);
    case None =>
  }

  lemma RowMovesKeys(files: Files, after: Files, from: string, to: string)
    requires RowsRenamed(files, after, from, to)
    ensures after.Keys == files.Keys
  {
  }

  lemma SubtreeIsPrefixOf(from: string, p: string)
    requires InSubtree(from, p)
    ensures from <= p
  {
  }

  lemma LandsThere(from: string, to: string, p: string)
    requires InSubtree(from, p)
    ensures Substituted(from, to, p) == to + p[|from|..] && InSubtree(to, Substituted(from, to, p))
    ensures from + Substituted(from, to, p)[|to|..] == p
  {
    SubtreeRename.SuffixInSubtree(to, p[|from|..]);
    assert (to + p[|from|..])[|to|..] == p[|from|..];
  }

  /** Elsewhere nothing changes. */
  lemma NamesStay(files: Files, after: Files, from: string, to: string, p: string)
    requires RowsRenamed(files, after, from, to) && !InSubtree(from, p) && !InSubtree(to, p)
    ensures RowAt(after, p) == RowAt(files, p)
  {
    hide SubtreeRename.ExactlySubstituted, InSubtree, Apart, SubtreeRename.UniquePaths, Substituted;
    forall f | f in files
      ensures f in after && (after[f].path == p <==> files[f].path == p)
    {
      RowMoves(files, after, from, to, f);
    }
    RowMovesKeys(files, after, from, to);
    match RowAt(files, p)
    case Some(f) => SubtreeRename.RowAtIsUnique(after, p, f);
    case None =>
  }

  /** The cached inode names the same file before and after. */
  ghost predicate NamesSameFile(files: Files, after: Files, c: Cache, moved: Cache, j: Ino)
    requires j in c.entries && j in moved.entries
  {
    RowAt(after, moved.entries[j].path) == RowAt(files, c.entries[j].path)
  }

  /** A stale inode at or below the new path named nothing before; afterwards it names whatever has moved there. */
  lemma NamesArrive(files: Files, after: Files, from: string, to: string, p: string)
    requires RowsRenamed(files, after, from, to) && InSubtree(to, p)
    ensures to <= p && RowAt(files, p) == None && RowAt(after, p) == RowAt(files, from + p[|to|..])
  {
    hide SubtreeRename.ExactlySubstituted, SubtreeRename.UniquePaths, Substituted;
    SubtreeRename.SuffixInSubtree(from, p[|to|..]) by { SuffixStart(to, p); }
    var q := from + p[|to|..];
    NamesMove(files, after, from, to, q);
    SubtractedTarget(from, to, p);
  }

  lemma SuffixStart(to: string, p: string)
    requires InSubtree(to, p)
    ensures to <= p && (p[|to|..] == "" || p[|to|..][0] == '/')
  {
  }

  lemma SubtractedTarget(from: string, to: string, p: string)
    requires to <= p
    ensures Substituted(from, to, from + p[|to|..]) == p
  {
    assert (from + p[|to|..])[|from|..] == p[|to|..];
  }

  /** Below the old path the inode must have been reached if it named a row; at or below the new path no row
      may arrive that it would name. */
  ghost predicate NameMayFollow(files: Files, from: string, to: string, p: string, reached: bool) {
    && (InSubtree(from, p) && Occupied(files, p) ==> reached)
    && (InSubtree(to, p) ==> to <= p && !Occupied(files, from + p[|to|..]))
  }

  lemma NameFollowsIff(files: Files, after: Files, c: Cache, nodes: seq<Ino>, from: string, to: string, j: Ino)
    requires RowsRenamed(files, after, from, to) && j in c.entries
    requires j in nodes ==> InSubtree(from, c.entries[j].path)
    ensures RowAt(after, PathAfter(c, nodes, from, to, j)) == RowAt(files, c.entries[j].path)
            <==> NameMayFollow(files, from, to, c.entries[j].path, j in nodes)
  {
    var p := c.entries[j].path;
    RenamedIsApart(files, after, from, to);
    if InSubtree(from, p) && InSubtree(to, p) { RemoteStore.CommonPath(from, to, p); }
    hide RowsRenamed, Substituted, InSubtree, Occupied;
    if InSubtree(from, p) {
      NamesMove(files, after, from, to, p);
    } else if InSubtree(to, p) {
      NamesArrive(files, after, from, to, p);
    } else {
      NamesStay(files, after, from, to, p);
    }
  }

  /** The cache follows the database through a rename: every cached inode names the file it named before,
      exactly when each cached inode below the old path that named a row was reached through listed
      directories, and no row moves to the path of an inode left over below the new one. */
  lemma CacheFollowsDatabaseIff(files: Files, after: Files, c: Cache, nodes: seq<Ino>, i: Ino, newParent: Ino, newName: string, to: string)
    requires CacheOk(c) && i in c.entries && IsWalk(c, i, nodes) && c.entries[i].path != ROOT
    requires RowsRenamed(files, after, c.entries[i].path, to)
    ensures var moved := MovedSubtree(c, nodes, i, newParent, newName, to);
            && moved.entries.Keys == c.entries.Keys
            && ((forall j :: j in c.entries ==> NamesSameFile(files, after, c, moved, j))
                <==> (forall j :: j in c.entries ==> NameMayFollow(files, c.entries[i].path, to, c.entries[j].path, j in Reach(c, i))))
  {
    var from := c.entries[i].path;
    var moved := MovedSubtree(c, nodes, i, newParent, newName, to);
    RenamedIsApart(files, after, from, to);
    hide CacheOk, IsWalk, MovedSubtree, InSubtree, Reach, RowsRenamed, Apart, NameMayFollow, ChildrenOk;
    MovedFacts(c, nodes, i, newParent, newName, to);
    forall j | j in c.entries
      ensures NamesSameFile(files, after, c, moved, j) <==> NameMayFollow(files, from, to, c.entries[j].path, j in Reach(c, i))
    {
      NameFollowsIff(files, after, c, nodes, from, to, j);
    }
  }

  lemma RenamedIsApart(files: Files, after: Files, from: string, to: string)
    requires RowsRenamed(files, after, from, to)
    ensures Apart(from, to)
  {
  }
}
