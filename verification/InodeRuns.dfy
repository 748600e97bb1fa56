/** The inode cache over whole runs of filesystem operations, one after the other. The rows come from
    the sync service; what the service and the kernel refuse is not an event here. */
module InodeRuns {
  import opened RemotePaths
  import opened Tables
  import opened InodeCache
  import opened InodeSafety
  import opened InodeRename

  datatype Event =
    | List(parent: Ino, rows: seq<Row>)
    | Add(parent: Ino, row: Row)
    | Fresh(ino: Ino, row: Row)
    | Open(ino: Ino, isNew: bool, dirty: bool)
    | Write(fh: Fh, size: nat)
    | Commit(fh: Fh, row: Row)
    | Close(fh: Fh)
    | Unlink(parent: Ino, name: string)
    | Rename(parent: Ino, name: string, newParent: Ino, newName: string, nodes: seq<Ino>)

  /** No open file outside the renamed subtree has a path that merely begins with the old path. */
  ghost predicate NoBarePrefix(c: Cache, i: Ino)
    requires ChildrenOk(c) && i in c.entries
  {
    forall h :: h in c.handles && c.handles[h].ino in c.entries && c.entries[i].path <= c.handles[h].path
      ==> c.handles[h].ino in Reach(c, i)
  }

  /** What the kernel and the service grant before the cache is touched, and the two conditions the
      code itself does not check: nothing cached below the new path, no bare prefix among open files. */
  ghost predicate RenameReady(c: Cache, parent: Ino, name: string, newParent: Ino, newName: string, nodes: seq<Ino>)
    requires CacheOk(c)
  {
    && parent in c.children && name in c.children[parent] && c.children[parent][name] in c.entries
    && newParent in c.entries && ChildName(newName)
    && var i, to := c.children[parent][name], Join(c.entries[newParent].path, newName);
       && Apart(c.entries[i].path, to)
       && var cleared := Cleared(c, i, to);
          && CacheOk(cleared) && i in cleared.entries && IsWalk(cleared, i, nodes)
          && (forall k :: k in cleared.entries ==> !InSubtree(to, cleared.entries[k].path))
          && NoBarePrefix(cleared, i)
  }

  ghost predicate Inv(c: Cache) { CacheOk(c) && HandlesOk(c) }

  ghost predicate Enabled(c: Cache, e: Event)
    requires Inv(c)
  {
    match e
    case List(parent, rows) => parent in c.entries && ListingBelow(c, parent, rows)
    case Add(parent, row) => parent in c.entries && RowBelow(c, parent, row)
    case Fresh(i, row) => i in c.entries && row.path == c.entries[i].path
    case Open(i, _, _) => i in c.entries
    case Write(h, _) => h in c.handles
    case Commit(h, row) => h in c.handles && row.path == c.handles[h].path
    case Close(h) => h in c.handles
    case Unlink(parent, name) => parent in c.children && name in c.children[parent]
    case Rename(parent, name, newParent, newName, nodes) => RenameReady(c, parent, name, newParent, newName, nodes)
  }

  function Opened(c: Cache, i: Ino, isNew: bool, dirty: bool): Cache
    requires i in c.entries
  {
    c.(handles := c.handles[c.nextFh := Handle(i, c.entries[i].parent, c.entries[i].path, dirty, isNew)], nextFh := c.nextFh + 1)
  }

  function Written(c: Cache, h: Fh, size: nat): Cache
    requires h in c.handles
  {
    var i := c.handles[h].ino;
    c.(handles := c.handles[h := c.handles[h].(dirty := true)],
       entries := if i in c.entries then c.entries[i := c.entries[i].(size := size)] else c.entries)
  }

  ghost function Apply(c: Cache, e: Event): Cache
    requires Inv(c) && Enabled(c, e)
  {
    match e
    case List(parent, rows) => Loaded(c, parent, rows)
    case Add(parent, row) => Stale(Upserted(c, parent, row), parent)
    case Fresh(i, row) => Refreshed(c, i, row)
    case Open(i, isNew, dirty) => Opened(c, i, isNew, dirty)
    case Write(h, size) => Written(c, h, size)
    case Commit(h, row) => Committed(c, h, row)
    case Close(h) => c.(handles := c.handles - {h})
    case Unlink(parent, name) => UnlinkedEntry(c, parent, c.children[parent][name])
    case Rename(parent, name, newParent, newName, nodes) =>
      RenamedEntry(c, nodes, parent, c.children[parent][name], newParent, newName, Join(c.entries[newParent].path, newName))
  }

  // ---- Every operation ----

  lemma HandlesCarry(c: Cache, after: Cache)
    requires HandlesOk(c) && PathsKept(c, after)
    requires after.handles.Keys <= c.handles.Keys
    requires forall h :: h in after.handles ==> after.handles[h].ino == c.handles[h].ino && after.handles[h].path == c.handles[h].path
    ensures HandlesOk(after)
  {
  }

  /** Clearing the new path takes nothing that is outside it. */
  lemma ClearedFacts(c: Cache, i: Ino, to: string, k: Ino)
    requires CacheOk(c) && i in c.entries && k in c.entries && to != ROOT && !InSubtree(to, c.entries[k].path)
    ensures CacheOk(Cleared(c, i, to)) && NoReuse(c, Cleared(c, i, to))
    ensures k in Cleared(c, i, to).entries && Cleared(c, i, to).entries[k] == c.entries[k]
  {
    CacheParts(c);
    if to in c.paths && c.paths[to] != i {
      var gone := Reach(c, c.paths[to]);
      RemoveKeeps(c, gone);
      MappedEntry(c, to);
      if k in gone { ReachIsBelow(c, c.paths[to], k); }
    }
  }

  lemma MappedEntry(c: Cache, p: string)
    requires Linked(c) && p in c.paths
    ensures c.paths[p] in c.entries && c.entries[c.paths[p]].path == p
  {
  }

  lemma JoinStaysBelow(to: string, p: string, n: string)
    requires ROOT <= to && to != ROOT && InSubtree(to, p)
    ensures InSubtree(to, Join(p, n))
  {
    assert p != ROOT && |to| <= |p| && Join(p, n)[..|p|] == p;
    if to == p {
      assert to + "/" <= Join(p, n);
    } else {
      assert Join(p, n)[..|to| + 1] == p[..|to| + 1];
    }
  }

  /** Moving a cleared cache's subtree. */
  lemma MoveKeeps(c: Cache, nodes: seq<Ino>, parent: Ino, name: string, i: Ino, newParent: Ino, newName: string, to: string)
    requires CacheOk(c) && HandlesOk(c) && i in c.entries && IsWalk(c, i, nodes) && parent in c.entries && ChildName(name)
    requires c.entries[i].path == Join(c.entries[parent].path, name) && c.entries[i].path != ROOT
    requires ROOT <= to && to != ROOT && Apart(c.entries[i].path, to)
    requires forall k :: k in c.entries ==> !InSubtree(to, c.entries[k].path)
    requires NoBarePrefix(c, i)
    ensures var after := Stale(MovedSubtree(c, nodes, i, newParent, newName, to), parent);
            CacheOk(after) && HandlesOk(after) && NoReuse(c, after)
            && i in after.entries && after.entries[i].path == to && after.entries[i].ino == i
  {
    var from := c.entries[i].path;
    var moved := MovedSubtree(c, nodes, i, newParent, newName, to);
    CacheParts(c);
    hide InSubtree, Reach, Substituted, MovedSubtree, Apart, ChildrenOk, Linked, Join, MovedHandle;
    MovedFacts(c, nodes, i, newParent, newName, to);
    MoveKeepsChildren(c, nodes, parent, name, i, newParent, newName, to);
    TargetsAreFree(c, nodes, from, to);
    MoveKeepsLinksIff(c, nodes, i, newParent, newName, to);
    StaleKeepsLinks(moved, parent);
    HandlesFollowIff(c, nodes, i, newParent, newName, to);
    OwnTarget(from, to);
    assert i in nodes;
    LinkedNumber(moved, i);
  }

  lemma LinkedNumber(c: Cache, i: Ino)
    requires Linked(c) && i in c.entries
    ensures c.entries[i].ino == i
  {
  }

  lemma OwnTarget(from: string, to: string)
    ensures Substituted(from, to, from) == to
  {
    assert to + from[|from|..] == to;
  }

  lemma StaleKeepsLinks(c: Cache, i: Ino)
    ensures Linked(Stale(c, i)) <==> Linked(c)
    ensures HandlesOk(Stale(c, i)) <==> HandlesOk(c)
  {
  }

  lemma TargetsAreFree(c: Cache, nodes: seq<Ino>, from: string, to: string)
    requires forall k :: k in c.entries ==> !InSubtree(to, c.entries[k].path)
    requires forall j :: j in c.entries && j in nodes ==> InSubtree(from, c.entries[j].path)
    ensures TargetsUncached(c, nodes, from, to)
  {
    forall j | j in c.entries && j in nodes
      ensures InSubtree(to, TargetOf(c, j, from, to))
    {
      LandsThere(from, to, c.entries[j].path);
    }
  }

  lemma RenameEntryKeeps(c: Cache, parent: Ino, name: string, newParent: Ino, newName: string, nodes: seq<Ino>)
    requires Inv(c) && RenameReady(c, parent, name, newParent, newName, nodes)
    ensures var i, to := c.children[parent][name], Join(c.entries[newParent].path, newName);
            var after := RenamedEntry(c, nodes, parent, i, newParent, newName, to);
            Inv(after) && NoReuse(c, after) && i in after.entries && after.entries[i].path == to
  {
    var i, to := c.children[parent][name], Join(c.entries[newParent].path, newName);
    var from := c.entries[i].path;
    var cleared := Cleared(c, i, to);
    CacheParts(c);
    LinkParts(c, parent, name);
    RootedEntry(c, newParent);
    JoinExtends(c.entries[newParent].path, newName);
    JoinExtends(c.entries[parent].path, name);
    if InSubtree(to, c.entries[parent].path) { JoinStaysBelow(to, c.entries[parent].path, name); }
    hide Join, InSubtree, Reach, ChildrenOk, Linked, Removed, MovedSubtree, CacheOk;
    ClearedFacts(c, i, to, i);
    ClearedFacts(c, i, to, parent);
    ClearedHandles(c, i, to);
    MoveKeeps(cleared, nodes, parent, name, i, newParent, newName, to);
    var after := Stale(MovedSubtree(cleared, nodes, i, newParent, newName, to), parent);
    StaleKeeps(after, newParent);
    StaleKeepsLinks(after, newParent);
  }

  lemma ClearedHandles(c: Cache, i: Ino, to: string)
    requires CacheOk(c) && HandlesOk(c)
    ensures HandlesOk(Cleared(c, i, to))
  {
    if to in c.paths && c.paths[to] != i { RemoveKeepsHandles(c, Reach(c, c.paths[to])); }
  }

  lemma AddKeeps(c: Cache, parent: Ino, row: Row)
    requires Inv(c) && parent in c.entries && RowBelow(c, parent, row)
    ensures var after := Stale(Upserted(c, parent, row), parent); Inv(after) && NoReuse(c, after)
  {
    hide CacheOk, RowBelow, Upserted;
    UpsertKeeps(c, parent, row);
    StaleKeeps(Upserted(c, parent, row), parent);
    HandlesCarry(c, Upserted(c, parent, row));
    StaleKeepsLinks(Upserted(c, parent, row), parent);
  }

  lemma HandleStepsKeep(c: Cache, e: Event)
    requires Inv(c) && Enabled(c, e) && (e.Open? || e.Write? || e.Close?)
    ensures Inv(Apply(c, e)) && NoReuse(c, Apply(c, e))
  {
    hide CacheOk;
    var after := Apply(c, e);
    if e.Write? && c.handles[e.fh].ino in c.entries { OwnNumber(c, c.handles[e.fh].ino); }
    if e.Open? { NumberIsOut(c, e.ino); }
    assert forall i :: i in c.entries ==> c.entries[i].ino == i by { OwnNumbers(c); }
    SamePathsKeep(c, after);
  }

  lemma OwnNumbers(c: Cache)
    requires CacheOk(c)
    ensures forall i :: i in c.entries ==> c.entries[i].ino == i
  {
  }

  lemma StepKeeps(c: Cache, e: Event)
    requires Inv(c) && Enabled(c, e)
    ensures Inv(Apply(c, e)) && NoReuse(c, Apply(c, e))
  {
    hide CacheOk, Loaded, Upserted, Refreshed, Committed, UnlinkedEntry, RenamedEntry, RenameReady, RowBelow, ListingBelow, HandlesOk, Opened, Written;
    match e
    case List(parent, rows) =>
      LoadKeeps(c, parent, rows);
      HandlesCarry(c, Loaded(c, parent, rows));
    case Add(parent, row) => AddKeeps(c, parent, row);
    case Fresh(i, row) =>
      RefreshSamePath(c, i, row);
      HandlesCarry(c, Refreshed(c, i, row));
    case Commit(h, row) => CommitKeeps(c, h, row);
    case Unlink(parent, name) => UnlinkKeeps(c, parent, c.children[parent][name]);
    case Rename(parent, name, newParent, newName, nodes) => RenameEntryKeeps(c, parent, name, newParent, newName, nodes);
    case _ => HandleStepsKeep(c, e);
  }

  lemma UnlinkKeeps(c: Cache, parent: Ino, i: Ino)
    requires Inv(c)
    ensures Inv(UnlinkedEntry(c, parent, i)) && NoReuse(c, UnlinkedEntry(c, parent, i))
  {
    CacheParts(c);
    hide CacheOk, Removed, ChildrenOk, Linked;
    var gone := Reach(c, i);
    RemoveKeeps(c, gone);
    RemoveKeepsHandles(c, gone);
    StaleKeeps(Removed(c, gone), parent);
    StaleKeepsLinks(Removed(c, gone), parent);
  }

  // ---- Runs ----

  datatype Run = Start(root: Row) | Then(before: Run, event: Event, after: Cache)

  function Last(run: Run): Cache {
    match run case Start(root) => InodeCache.Initial(root) case Then(_, _, c) => c
  }

  ghost predicate IsRun(run: Run) {
    match run
    case Start(root) => root.path == ROOT
    case Then(before, e, c) => IsRun(before) && (Inv(Last(before)) ==> Enabled(Last(before), e) && c == Apply(Last(before), e))
  }

  /** Over every run, numbers and paths stay inverse to each other, listings name what is cached below
      them, and open files point at their inode's path. */
  lemma {:induction false} RunKeeps(run: Run)
    requires IsRun(run)
    ensures Inv(Last(run))
  {
    match run
    case Start(_) =>
    case Then(before, e, _) =>
      RunKeeps(before);
      StepKeeps(Last(before), e);
  }

  /** The run `earlier` is where `run` once was. */
  ghost predicate Extends(run: Run, earlier: Run)
    decreases run
  {
    run == earlier || (run.Then? && Extends(run.before, earlier))
  }

  /** An inode number that was handed out and given up is never used again. */
  lemma {:induction false} NumbersAreNeverReused(run: Run, earlier: Run, i: Ino)
    requires IsRun(run) && Extends(run, earlier)
    requires i < Last(earlier).nextIno && i !in Last(earlier).entries
    ensures i !in Last(run).entries && i < Last(run).nextIno
  {
    if run != earlier {
      NumbersAreNeverReused(run.before, earlier, i);
      RunKeeps(run.before);
      StepKeeps(Last(run.before), run.event);
    }
  }

  // ---- Where the conditions bite ----

  /** A directory `p`, a file beside it whose path begins with `p`, and that file open for writing. */
  function OpenBeside(p: string, q: string): Cache {
    Cache(
      map[1 := Node(1, 1, ROOT, ROOT, Directory, 0), 2 := Node(2, 1, p, NameOf(p), Directory, 0), 3 := Node(3, 1, q, NameOf(q), File, 0)],
      map[ROOT := 1, p := 2, q := 3],
      map[], map[1 := Handle(3, 1, q, false, false)], 4, 2)
  }

  lemma OpenBesideLinks(p: string, q: string)
    requires p != ROOT && q != ROOT && p != q
    ensures Linked(OpenBeside(p, q))
  {
    hide NameOf;
    var c := OpenBeside(p, q);
    assert c.entries.Keys == {1, 2, 3} && c.entries[1].path == ROOT && c.entries[2].path == p && c.entries[3].path == q;
    assert c.paths.Keys == {ROOT, p, q} && c.paths[ROOT] == 1 && c.paths[p] == 2 && c.paths[q] == 3;
  }

  lemma OpenBesideParts(p: string, q: string)
    requires ROOT <= p && ROOT <= q
    ensures ChildrenOk(OpenBeside(p, q)) && HandlesOk(OpenBeside(p, q))
    ensures var c := OpenBeside(p, q);
            2 in c.entries && 2 !in c.children && c.entries[2].path == p && 3 in c.entries && 1 in c.handles && c.handles[1] == Handle(3, 1, q, false, false)
  {
    hide NameOf;
  }

  lemma UnlistedWalk(c: Cache, i: Ino)
    requires ChildrenOk(c) && i in c.entries && i !in c.children
    ensures IsWalk(c, i, [i])
  {
    hide ChildrenOk;
    assert Reach(c, i) == {i};
  }

  /** Renaming the directory rewrites the handle, although its file has not moved. */
  lemma BarePrefixMovesHandle(p: string, q: string, newName: string, to: string)
    requires ROOT <= p && p != ROOT && p <= q && q != p && Apart(p, to)
    ensures Inv(OpenBeside(p, q)) && IsWalk(OpenBeside(p, q), 2, [2])
    ensures !HandlesOk(MovedSubtree(OpenBeside(p, q), [2], 2, 1, newName, to))
  {
    hide Apart, OpenBeside, MovedSubtree, Reach, Linked, ChildrenOk, HandlesOk, IsWalk;
    assert |q| > |p|;
    var c := OpenBeside(p, q);
    OpenBesideLinks(p, q);
    OpenBesideParts(p, q);
    UnlistedWalk(c, 2);
    HandlesFollowIff(c, [2], 2, 1, newName, to);
    assert c.entries[2].path <= c.handles[1].path && c.handles[1].ino !in [2];
  }

  /** Creating an entry forgets its directory's listing, and with it the way to every other inode
      cached below: a rename right after leaves those behind. */
  lemma CreatingDetachesSiblings(c: Cache, parent: Ino, row: Row)
    requires Inv(c) && parent in c.entries && RowBelow(c, parent, row)
    ensures var after := Apply(c, Add(parent, row));
            && CacheOk(after) && parent in after.entries && after.entries[parent].path == c.entries[parent].path
            && Reach(after, parent) == {parent}
  {
    hide CacheOk, RowBelow, Upserted;
    UpsertKeeps(c, parent, row);
    AddKeeps(c, parent, row);
  }
}
