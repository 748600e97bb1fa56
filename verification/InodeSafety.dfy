/** Over every sequential run of the cache's operations, `entries` and `paths` stay inverse to each
    other and no inode number is used twice; what a rename needs for that. */
module InodeSafety {
  import opened RemotePaths
  import opened Tables
  import opened InodeCache
  import RemoteStore

  // ---- Lookups and listings ----

  /** A row listed or created below a cached directory. */
  predicate RowBelow(c: Cache, parent: Ino, row: Row)
    requires parent in c.entries
  {
    ChildName(row.name) && row.path == Join(c.entries[parent].path, row.name)
  }

  /** A number that was handed out and is not in use never comes back. */
  predicate NoReuse(c: Cache, after: Cache) {
    c.nextIno <= after.nextIno && forall i :: i in after.entries && i < c.nextIno ==> i in c.entries
  }

  /** Every cached inode stays and keeps its path. */
  predicate PathsKept(c: Cache, after: Cache) {
    && NoReuse(c, after)
    && (forall i :: i in c.entries ==> i in after.entries && after.entries[i].path == c.entries[i].path)
  }

  lemma JoinExtends(parent: string, name: string)
    requires ROOT <= parent && ChildName(name)
    ensures ROOT <= Join(parent, name) && Join(parent, name) != ROOT && |parent| < |Join(parent, name)|
  {
  }

  /** Links stay good while inodes keep their paths and new ones get new numbers. */
  lemma ChildrenCarry(c: Cache, after: Cache)
    requires ChildrenOk(c) && PathsKept(c, after)
    requires after.children.Keys <= c.children.Keys && forall i :: i in after.children ==> after.children[i] == c.children[i]
    requires forall i :: i in after.entries ==> ROOT <= after.entries[i].path
    ensures ChildrenOk(after)
  {
    hide Join, ChildName;
    forall i, n | i in after.children && n in after.children[i]
      ensures LinkOk(after, i, n, after.children[i][n])
    {
      assert LinkOk(c, i, n, c.children[i][n]);
    }
  }

  lemma UpsertLinks(c: Cache, parent: Ino, row: Row)
    requires Linked(c)
    ensures var after, i := Upserted(c, parent, row), InoFor(c, row);
            && Linked(after) && PathsKept(c, after) && i in after.entries && after.entries[i] == FromStored(i, parent, row)
            && (forall k :: k in after.entries ==> k in c.entries || k == i)
  {
  }

  lemma UpsertKeeps(c: Cache, parent: Ino, row: Row)
    requires CacheOk(c) && parent in c.entries && RowBelow(c, parent, row)
    ensures var after, i := Upserted(c, parent, row), InoFor(c, row);
            && CacheOk(after) && PathsKept(c, after) && after.children == c.children && after.handles == c.handles
            && i in after.entries && after.entries[i] == FromStored(i, parent, row)
  {
    UpsertLinks(c, parent, row);
    RootedEntries(c);
    JoinExtends(c.entries[parent].path, row.name);
    hide Join, Linked, ChildrenOk, ChildName;
    ChildrenCarry(c, Upserted(c, parent, row));
  }

  lemma RootedEntries(c: Cache)
    requires ChildrenOk(c)
    ensures forall i :: i in c.entries ==> ROOT <= c.entries[i].path
  {
  }

  predicate ListingBelow(c: Cache, parent: Ino, rows: seq<Row>)
    requires parent in c.entries
  {
    forall k :: 0 <= k < |rows| ==> RowBelow(c, parent, rows[k])
  }

  lemma {:induction false} UpsertAllKeeps(c: Cache, parent: Ino, rows: seq<Row>)
    requires CacheOk(c) && parent in c.entries && ListingBelow(c, parent, rows)
    ensures var after, mapped := UpsertedAll(c, parent, rows), Mapped(c, parent, rows);
            && CacheOk(after) && PathsKept(c, after) && after.children == c.children && after.handles == c.handles
            && (forall n :: n in mapped ==> mapped[n] in after.entries && LinkOk(after, parent, n, mapped[n]))
  {
    if rows != [] {
      var init, last := rows[..|rows| - 1], rows[|rows| - 1];
      hide CacheOk, Join, Upserted, ChildName, PathsKept, LinkOk, UpsertedAll, Mapped;
      UpsertAllKeeps(c, parent, init);
      var before := UpsertedAll(c, parent, init);
      StillBelow(c, before, parent, last) by { assert RowBelow(c, parent, rows[|rows| - 1]); }
      UpsertKeeps(before, parent, last);
      PathsKeptTwice(c, before, Upserted(before, parent, last));
      ListingUnfold(c, parent, rows);
      MappingGrows(before, Upserted(before, parent, last), parent, Mapped(c, parent, init), last, InoFor(before, last));
    }
  }

  function Names(rows: seq<Row>): set<string> { set row | row in rows :: row.name }

  lemma {:induction false} MappedNames(c: Cache, parent: Ino, rows: seq<Row>)
    ensures Mapped(c, parent, rows).Keys == Names(rows)
  {
    if rows != [] {
      var init, last := rows[..|rows| - 1], rows[|rows| - 1];
      MappedNames(c, parent, init);
      assert rows == init + [last];
      assert Names(rows) == Names(init) + {last.name};
    }
  }

  lemma ListingUnfold(c: Cache, parent: Ino, rows: seq<Row>)
    requires rows != []
    ensures var init, last := rows[..|rows| - 1], rows[|rows| - 1];
            && UpsertedAll(c, parent, rows) == Upserted(UpsertedAll(c, parent, init), parent, last)
            && Mapped(c, parent, rows) == Mapped(c, parent, init)[last.name := InoFor(UpsertedAll(c, parent, init), last)]
  {
  }

  lemma StillBelow(c: Cache, after: Cache, parent: Ino, row: Row)
    requires parent in c.entries && RowBelow(c, parent, row) && PathsKept(c, after)
    ensures parent in after.entries && RowBelow(after, parent, row)
  {
  }

  lemma MappingGrows(before: Cache, after: Cache, parent: Ino, mapped: map<string, Ino>, row: Row, i: Ino)
    requires CacheOk(after) && PathsKept(before, after) && parent in before.entries && RowBelow(before, parent, row)
    requires forall n :: n in mapped ==> mapped[n] in before.entries && LinkOk(before, parent, n, mapped[n])
    requires i in after.entries && after.entries[i].path == row.path
    ensures var grown := mapped[row.name := i];
            forall n :: n in grown ==> grown[n] in after.entries && LinkOk(after, parent, n, grown[n])
  {
    hide Join, ChildName, CacheOk;
    NumberIsOut(after, i);
    forall n | n in mapped
      ensures LinkOk(after, parent, n, mapped[n])
    {
      assert LinkOk(before, parent, n, mapped[n]);
    }
  }

  lemma NumberIsOut(c: Cache, i: Ino)
    requires CacheOk(c) && i in c.entries
    ensures i < c.nextIno
  {
  }

  lemma PathsKeptTwice(a: Cache, b: Cache, c: Cache)
    requires PathsKept(a, b) && PathsKept(b, c)
    ensures PathsKept(a, c)
  {
  }

  /** A listing keeps every inode it knew, and names exactly the listed rows as children. */
  lemma LoadKeeps(c: Cache, parent: Ino, rows: seq<Row>)
    requires CacheOk(c) && parent in c.entries && ListingBelow(c, parent, rows)
    ensures var after := Loaded(c, parent, rows);
            && CacheOk(after) && PathsKept(c, after) && after.handles == c.handles
            && after.children[parent].Keys == Names(rows)
            && (forall n :: n in after.children[parent] ==>
                  && after.children[parent][n] in after.entries
                  && after.entries[after.children[parent][n]].path == Join(c.entries[parent].path, n))
  {
    hide Join, UpsertedAll, Mapped, ChildName, CacheOk, LinkOk;
    UpsertAllKeeps(c, parent, rows);
    MappedNames(c, parent, rows);
    ListingKeeps(UpsertedAll(c, parent, rows), parent, Mapped(c, parent, rows));
  }

  /** Recording a listing whose links are good. */
  lemma ListingKeeps(c: Cache, parent: Ino, mapped: map<string, Ino>)
    requires CacheOk(c) && parent in c.entries
    requires forall n :: n in mapped ==> mapped[n] in c.entries && LinkOk(c, parent, n, mapped[n])
    ensures CacheOk(c.(children := c.children[parent := mapped]))
    ensures forall n :: n in mapped ==> c.entries[mapped[n]].path == Join(c.entries[parent].path, n)
  {
    hide Join, ChildName;
    var after := c.(children := c.children[parent := mapped]);
    assert Linked(after);
    hide Linked;
    forall i, n | i in after.children && n in after.children[i]
      ensures LinkOk(after, i, n, after.children[i][n])
    {
      if i != parent { assert LinkOk(c, i, n, c.children[i][n]); }
    }
  }

  // ---- Refreshing ----

  /** Refreshing an inode from a row keeps the two maps inverse exactly when no other inode has the
      row's path. */
  lemma RefreshKeepsLinksIff(c: Cache, i: Ino, row: Row)
    requires Linked(c) && i in c.entries
    ensures Linked(Refreshed(c, i, row)) <==> (row.path in c.paths ==> c.paths[row.path] == i)
  {
    var after := Refreshed(c, i, row);
    if row.path in c.paths && c.paths[row.path] != i {
      var j := c.paths[row.path];
      assert after.entries[j].path == row.path && after.paths[row.path] == i;
    } else {
      assert forall p :: p in after.paths ==> p == row.path || (p in c.paths && after.paths[p] == c.paths[p] && p != c.entries[i].path);
    }
  }

  lemma RefreshSamePath(c: Cache, i: Ino, row: Row)
    requires CacheOk(c) && i in c.entries && row.path == c.entries[i].path
    ensures var after := Refreshed(c, i, row);
            CacheOk(after) && PathsKept(c, after) && after == c.(entries := c.entries[i := Updated(c.entries[i], row)])
  {
    OwnNumber(c, i);
    SamePathsKeep(c, Refreshed(c, i, row));
  }

  lemma OwnNumber(c: Cache, i: Ino)
    requires CacheOk(c) && i in c.entries
    ensures c.entries[i].ino == i
  {
  }

  predicate SamePath(a: Node, b: Node) { a.path == b.path && a.ino == b.ino }

  /** Changing anything but numbers and paths is harmless, and so is forgetting a listing. */
  lemma SamePathsKeep(c: Cache, after: Cache)
    requires CacheOk(c) && after.entries.Keys == c.entries.Keys && after.paths == c.paths && after.nextIno == c.nextIno
    requires after.children.Keys <= c.children.Keys && forall i :: i in after.children ==> after.children[i] == c.children[i]
    requires forall i :: i in c.entries ==> SamePath(c.entries[i], after.entries[i])
    ensures CacheOk(after) && PathsKept(c, after)
  {
    assert Linked(after);
    RootedEntries(c);
    hide Linked, ChildrenOk;
    ChildrenCarry(c, after);
  }

  lemma StaleKeeps(c: Cache, i: Ino)
    requires CacheOk(c)
    ensures CacheOk(Stale(c, i)) && PathsKept(c, Stale(c, i))
  {
    hide CacheOk;
    SamePathsKeep(c, Stale(c, i));
  }

  lemma CommitKeeps(c: Cache, h: Fh, row: Row)
    requires CacheOk(c) && HandlesOk(c) && h in c.handles && row.path == c.handles[h].path
    ensures var after := Committed(c, h, row);
            && CacheOk(after) && HandlesOk(after) && PathsKept(c, after)
            && (c.handles[h].ino in c.entries ==> !after.handles[h].dirty && after.entries[c.handles[h].ino].size == row.size)
  {
    hide CacheOk;
    var i := c.handles[h].ino;
    if i in c.entries {
      OwnNumber(c, i);
      assert row.path == c.entries[i].path;
      SamePathsKeep(c, Committed(c, h, row));
    }
  }

  // ---- Removing ----

  lemma RemoveKeeps(c: Cache, gone: set<Ino>)
    requires CacheOk(c)
    ensures CacheOk(Removed(c, gone)) && NoReuse(c, Removed(c, gone))
  {
    hide Join, ChildName;
    var after := Removed(c, gone);
    assert Linked(after);
    hide Linked;
    forall k, n | k in after.children && n in after.children[k]
      ensures LinkOk(after, k, n, after.children[k][n])
    {
      assert LinkOk(c, k, n, c.children[k][n]);
    }
  }

  lemma RemoveKeepsHandles(c: Cache, gone: set<Ino>)
    requires HandlesOk(c)
    ensures HandlesOk(Removed(c, gone))
  {
  }

  // ---- Renaming a subtree ----

  /** The path an inode of the subtree moves to. */
  function TargetOf(c: Cache, j: Ino, from: string, to: string): string
    requires j in c.entries
  {
    Substituted(from, to, c.entries[j].path)
  }

  /** Nodes of a walk that lie below `from`. */
  ghost predicate WalkBelow(c: Cache, nodes: seq<Ino>, from: string) {
    && (forall a, b :: 0 <= a < b < |nodes| && nodes[a] == nodes[b] ==> nodes[a] !in c.entries)
    && (forall j :: j in nodes && j in c.entries ==> InSubtree(from, c.entries[j].path))
  }

  predicate Apart(from: string, to: string) { !InSubtree(from, to) && !InSubtree(to, from) }

  lemma TargetFacts(from: string, to: string, p: string, q: string)
    requires Apart(from, to) && InSubtree(from, p) && InSubtree(from, q)
    ensures Substituted(from, to, p) != q
    ensures Substituted(from, to, p) == Substituted(from, to, q) ==> p == q
  {
    RemoteStore.LandedInSubtree(from, to, p);
    RemoteStore.ApartSubtrees(from, to, Substituted(from, to, p));
    assert p == from + p[|from|..] && q == from + q[|from|..];
    assert (to + p[|from|..])[|to|..] == p[|from|..];
    assert (to + q[|from|..])[|to|..] == q[|from|..];
  }

  ghost predicate EntriesMoved(c: Cache, after: Cache, moved: set<Ino>, i: Ino, from: string, newParent: Ino, newName: string, to: string) {
    && after == c.(entries := after.entries, paths := after.paths)
    && after.entries.Keys == c.entries.Keys
    && forall j :: j in c.entries ==>
         after.entries[j] == if j in moved then MovedNode(c.entries[j], i, from, newParent, newName, to) else c.entries[j]
  }

  ghost predicate MovedFound(c: Cache, paths: map<string, Ino>, moved: set<Ino>, from: string, to: string) {
    forall j :: j in c.entries && j in moved ==> TargetOf(c, j, from, to) in paths && paths[TargetOf(c, j, from, to)] == j
  }

  ghost predicate OnlyMovedNew(c: Cache, paths: map<string, Ino>, moved: set<Ino>, from: string, to: string) {
    forall p :: p in paths ==>
      || (paths[p] in c.entries && paths[p] in moved && p == TargetOf(c, paths[p], from, to))
      || (p in c.paths && c.paths[p] !in moved && paths[p] == c.paths[p])
  }

  predicate OthersFound(c: Cache, paths: map<string, Ino>, moved: set<Ino>) {
    forall p :: p in c.paths && c.paths[p] !in moved ==> p in paths
  }

  /** The moved inodes are found at their targets, and nothing else is new or lost. */
  ghost predicate PathsMoved(c: Cache, paths: map<string, Ino>, moved: set<Ino>, from: string, to: string) {
    MovedFound(c, paths, moved, from, to) && OnlyMovedNew(c, paths, moved, from, to) && OthersFound(c, paths, moved)
  }

  lemma TargetsDiffer(c: Cache, moved: set<Ino>, j: Ino, from: string, to: string)
    requires Linked(c) && Apart(from, to) && j in c.entries && j !in moved
    requires forall k :: k in c.entries && (k in moved || k == j) ==> InSubtree(from, c.entries[k].path)
    ensures forall k :: k in c.entries && k in moved ==>
              TargetOf(c, k, from, to) != c.entries[j].path && TargetOf(c, k, from, to) != TargetOf(c, j, from, to)
  {
    hide InSubtree, Apart;
    forall k | k in c.entries && k in moved
      ensures TargetOf(c, k, from, to) != c.entries[j].path && TargetOf(c, k, from, to) != TargetOf(c, j, from, to)
    {
      TargetFacts(from, to, c.entries[k].path, c.entries[j].path);
    }
  }

  lemma PathHolder(c: Cache, j: Ino)
    requires Linked(c) && j in c.entries
    ensures c.entries[j].path in c.paths && c.paths[c.entries[j].path] == j
    ensures forall p :: p in c.paths && c.paths[p] == j ==> p == c.entries[j].path
  {
  }

  lemma PathsMoveOne(c: Cache, paths: map<string, Ino>, moved: set<Ino>, j: Ino, from: string, to: string)
    requires Linked(c) && Apart(from, to) && j in c.entries && j !in moved
    requires forall k :: k in c.entries && (k in moved || k == j) ==> InSubtree(from, c.entries[k].path)
    requires PathsMoved(c, paths, moved, from, to)
    ensures PathsMoved(c, (paths - {c.entries[j].path})[TargetOf(c, j, from, to) := j], moved + {j}, from, to)
  {
    hide InSubtree, Substituted, TargetOf, Apart, Linked, MovedFound, OnlyMovedNew, OthersFound;
    var was, target := c.entries[j].path, TargetOf(c, j, from, to);
    TargetsDiffer(c, moved, j, from, to);
    PathHolder(c, j);
    FoundAfterOne(c, paths, moved, j, from, to, was, target);
    OnlyNewAfterOne(c, paths, moved, j, from, to, was, target);
    OthersAfterOne(c, paths, moved, j, was, target);
  }

  lemma FoundAfterOne(c: Cache, paths: map<string, Ino>, moved: set<Ino>, j: Ino, from: string, to: string, was: string, target: string)
    requires MovedFound(c, paths, moved, from, to) && j in c.entries && target == TargetOf(c, j, from, to)
    requires forall k :: k in c.entries && k in moved ==> TargetOf(c, k, from, to) != was && TargetOf(c, k, from, to) != target
    ensures MovedFound(c, (paths - {was})[target := j], moved + {j}, from, to)
  {
    hide TargetOf;
  }

  lemma OnlyNewAfterOne(c: Cache, paths: map<string, Ino>, moved: set<Ino>, j: Ino, from: string, to: string, was: string, target: string)
    requires OnlyMovedNew(c, paths, moved, from, to) && j in c.entries && target == TargetOf(c, j, from, to)
    requires forall p :: p in c.paths && c.paths[p] == j ==> p == was
    ensures OnlyMovedNew(c, (paths - {was})[target := j], moved + {j}, from, to)
  {
    hide TargetOf;
  }

  lemma OthersAfterOne(c: Cache, paths: map<string, Ino>, moved: set<Ino>, j: Ino, was: string, target: string)
    requires OthersFound(c, paths, moved) && was in c.paths && c.paths[was] == j
    ensures OthersFound(c, (paths - {was})[target := j], moved + {j})
  {
  }

  lemma MoveOneMore(c: Cache, mid: Cache, moved: set<Ino>, j: Ino, i: Ino, from: string, newParent: Ino, newName: string, to: string)
    requires Linked(c) && Apart(from, to) && (j in c.entries ==> j !in moved)
    requires forall k :: k in c.entries && (k in moved || k == j) ==> InSubtree(from, c.entries[k].path)
    requires EntriesMoved(c, mid, moved, i, from, newParent, newName, to) && PathsMoved(c, mid.paths, moved, from, to)
    ensures var after := MoveOne(mid, j, i, from, newParent, newName, to);
            EntriesMoved(c, after, moved + {j}, i, from, newParent, newName, to) && PathsMoved(c, after.paths, moved + {j}, from, to)
  {
    hide Linked, InSubtree, Apart, Substituted;
    if j in c.entries {
      assert mid.entries[j] == c.entries[j];
      PathsMoveOne(c, mid.paths, moved, j, from, to);
    } else {
      assert forall p :: p in c.paths ==> c.paths[p] != j by { PathsNameEntries(c); }
    }
  }

  lemma PathsNameEntries(c: Cache)
    requires Linked(c)
    ensures forall p :: p in c.paths ==> c.paths[p] in c.entries
  {
  }

  ghost predicate AllMoved(c: Cache, after: Cache, nodes: seq<Ino>, i: Ino, from: string, newParent: Ino, newName: string, to: string) {
    var moved := set j | j in nodes;
    EntriesMoved(c, after, moved, i, from, newParent, newName, to) && PathsMoved(c, after.paths, moved, from, to)
  }

  lemma WalkPrefix(c: Cache, nodes: seq<Ino>, from: string)
    requires nodes != [] && WalkBelow(c, nodes, from)
    ensures var init, j := nodes[..|nodes| - 1], nodes[|nodes| - 1];
            && WalkBelow(c, init, from) && (j in c.entries ==> j !in init)
            && (set k | k in nodes) == (set k | k in init) + {j}
            && forall k :: k in c.entries && (k in init || k == j) ==> InSubtree(from, c.entries[k].path)
  {
    var init, j := nodes[..|nodes| - 1], nodes[|nodes| - 1];
    assert nodes == init + [j];
    forall a, b | 0 <= a < b < |init| && init[a] == init[b]
      ensures init[a] !in c.entries
    {
      assert nodes[a] == nodes[b];
    }
    if j in init {
      var a :| 0 <= a < |init| && init[a] == j;
      assert nodes[a] == nodes[|init|];
    }
  }

  lemma {:induction false} MoveAllEffect(c: Cache, nodes: seq<Ino>, i: Ino, from: string, newParent: Ino, newName: string, to: string)
    requires Linked(c) && WalkBelow(c, nodes, from) && Apart(from, to)
    ensures AllMoved(c, MoveAll(c, nodes, i, from, newParent, newName, to), nodes, i, from, newParent, newName, to)
  {
    hide EntriesMoved, PathsMoved, MoveOne, WalkBelow, Linked, InSubtree, Apart;
    if nodes != [] {
      var init, j := nodes[..|nodes| - 1], nodes[|nodes| - 1];
      WalkPrefix(c, nodes, from);
      MoveAllEffect(c, init, i, from, newParent, newName, to);
      MoveOneMore(c, MoveAll(c, init, i, from, newParent, newName, to), (set k | k in init), j, i, from, newParent, newName, to);
      var moved := set k | k in nodes;
      assert moved == (set k | k in init) + {j};
      assert EntriesMoved(c, MoveAll(c, nodes, i, from, newParent, newName, to), moved, i, from, newParent, newName, to);
      assert PathsMoved(c, MoveAll(c, nodes, i, from, newParent, newName, to).paths, moved, from, to);
    } else {
      assert nodes == [];
      NothingMoved(c, i, from, newParent, newName, to);
    }
  }

  lemma NothingMoved(c: Cache, i: Ino, from: string, newParent: Ino, newName: string, to: string)
    ensures AllMoved(c, c, [], i, from, newParent, newName, to)
  {
  }

  lemma WalkLiesBelow(c: Cache, i: Ino, nodes: seq<Ino>)
    requires CacheOk(c) && i in c.entries && c.entries[i].path != ROOT && IsWalk(c, i, nodes)
    ensures WalkBelow(c, nodes, c.entries[i].path)
  {
    forall j | j in nodes && j in c.entries
      ensures InSubtree(c.entries[i].path, c.entries[j].path)
    {
      ReachIsBelow(c, i, j);
    }
  }

  /** No cached inode outside the walk already has a path that one inside moves to. */
  predicate TargetsUncached(c: Cache, nodes: seq<Ino>, from: string, to: string) {
    forall j, k :: j in c.entries && k in c.entries && j in nodes && k !in nodes ==> c.entries[k].path != TargetOf(c, j, from, to)
  }

  lemma MovedLinks(c: Cache, after: Cache, nodes: seq<Ino>, i: Ino, from: string, newParent: Ino, newName: string, to: string)
    requires Linked(c) && AllMoved(c, after, nodes, i, from, newParent, newName, to)
    ensures Linked(after) <==> TargetsUncached(c, nodes, from, to)
  {
    hide Substituted;
    if TargetsUncached(c, nodes, from, to) {
      MovedEntriesFound(c, after, nodes, i, from, newParent, newName, to);
      MovedPathsLead(c, after, nodes, i, from, newParent, newName, to);
      hide EntriesMoved, PathsMoved, TargetsUncached, TargetOf;
      assert after.entries.Keys == c.entries.Keys && after.nextIno == c.nextIno;
      assert Linked(after);
    } else {
      var j, k :| j in c.entries && k in c.entries && j in nodes && k !in nodes && c.entries[k].path == TargetOf(c, j, from, to);
      assert after.paths[after.entries[k].path] == j;
    }
  }

  lemma MovedEntriesFound(c: Cache, after: Cache, nodes: seq<Ino>, i: Ino, from: string, newParent: Ino, newName: string, to: string)
    requires Linked(c) && AllMoved(c, after, nodes, i, from, newParent, newName, to) && TargetsUncached(c, nodes, from, to)
    ensures after.entries.Keys == c.entries.Keys && after.nextIno == c.nextIno
    ensures forall j :: j in after.entries ==>
              after.entries[j].ino == j && after.entries[j].path in after.paths && after.paths[after.entries[j].path] == j
  {
    hide Substituted;
    forall j | j in after.entries
      ensures after.entries[j].ino == j && after.entries[j].path in after.paths && after.paths[after.entries[j].path] == j
    {
      var p := c.entries[j].path;
      if j in nodes {
        assert after.entries[j].path == TargetOf(c, j, from, to);
      } else {
        assert c.paths[p] == j && p in after.paths && after.entries[j] == c.entries[j];
      }
    }
  }

  lemma MovedPathsLead(c: Cache, after: Cache, nodes: seq<Ino>, i: Ino, from: string, newParent: Ino, newName: string, to: string)
    requires Linked(c) && AllMoved(c, after, nodes, i, from, newParent, newName, to)
    ensures forall p :: p in after.paths ==> after.paths[p] in after.entries && after.entries[after.paths[p]].path == p
  {
    hide Substituted;
    forall p | p in after.paths
      ensures after.paths[p] in after.entries && after.entries[after.paths[p]].path == p
    {
      var j := after.paths[p];
      if j in c.entries && j in nodes && p == TargetOf(c, j, from, to) {
        assert after.entries[j].path == p;
      } else {
        assert p in c.paths && c.paths[p] == j;
      }
    }
  }

  /** Moving a subtree keeps the two maps inverse exactly when nothing else cached has a target path. */
  lemma MoveKeepsLinksIff(c: Cache, nodes: seq<Ino>, i: Ino, newParent: Ino, newName: string, to: string)
    requires CacheOk(c) && i in c.entries && c.entries[i].path != ROOT && Apart(c.entries[i].path, to) && IsWalk(c, i, nodes)
    ensures Linked(MovedSubtree(c, nodes, i, newParent, newName, to)) <==> TargetsUncached(c, nodes, c.entries[i].path, to)
  {
    var from := c.entries[i].path;
    WalkLiesBelow(c, i, nodes);
    hide AllMoved, TargetsUncached, WalkBelow, Linked, ChildrenOk, Reach;
    var after := MoveAll(c, nodes, i, from, newParent, newName, to);
    MoveAllEffect(c, nodes, i, from, newParent, newName, to);
    MovedLinks(c, after, nodes, i, from, newParent, newName, to);
    HandlesDoNotMatter(after, MovedSubtree(c, nodes, i, newParent, newName, to));
  }

  lemma HandlesDoNotMatter(c: Cache, after: Cache)
    requires after == c.(handles := after.handles)
    ensures Linked(after) <==> Linked(c)
  {
  }
}
