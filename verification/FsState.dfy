/** The filesystem's cache as an object whose methods update the maps in place, each proved to do what
    the corresponding operation on the cache value says. */
module FsState {
  import opened Wrappers
  import opened RemotePaths
  import opened Tables
  import opened InodeCache
  import opened InodeSafety
  import opened InodeRename
  import opened InodeWalk
  import opened InodeRuns
  import opened TableInvariants
  import SyncService

  datatype FsError = NotFound | NotDir | IsDir | AlreadyExists | NotEmpty | BadHandle | Sync(error: SyncService.SyncError)

  class State {
    var entries: map<Ino, Node>
    var pathToIno: map<string, Ino>
    var dirChildren: map<Ino, map<string, Ino>>
    var writeHandles: map<Fh, Handle>
    var nextIno: Ino
    var nextFh: Fh

    ghost function View(): Cache
      reads this
    {
      Cache(entries, pathToIno, dirChildren, writeHandles, nextIno, nextFh)
    }

    constructor (root: Row)
      requires root.path == ROOT
      ensures View() == InodeCache.Initial(root) && InodeRuns.Inv(View())
    {
      entries := map[ROOT_INO := FromStored(ROOT_INO, ROOT_INO, root)];
      pathToIno := map[ROOT := ROOT_INO];
      dirChildren, writeHandles := map[], map[];
      nextIno, nextFh := 2, 1;
    }

    method AllocateIno() returns (ino: Ino)
      modifies this`nextIno
      ensures ino == old(nextIno) && nextIno == old(nextIno) + 1
    {
      ino := nextIno;
      nextIno := nextIno + 1;
    }

    method UpsertStoredEntry(parent: Ino, row: Row) returns (ino: Ino)
      modifies this`entries, this`pathToIno, this`nextIno
      ensures View() == Upserted(old(View()), parent, row) && ino == InoFor(old(View()), row)
    {
      if row.path in pathToIno {
        ino := pathToIno[row.path];
        if ino in entries {
          entries := entries[ino := Updated(entries[ino], row).(parent := parent)];
        }
        return;
      }
      ino := AllocateIno();
      pathToIno := pathToIno[row.path := ino];
      entries := entries[ino := FromStored(ino, parent, row)];
    }

    method ReplaceDirectoryChildren(parent: Ino, rows: seq<Row>)
      modifies this`entries, this`pathToIno, this`nextIno, this`dirChildren
      ensures View() == Loaded(old(View()), parent, rows)
    {
      var mapped: map<string, Ino> := map[];
      for k := 0 to |rows|
        invariant View() == UpsertedAll(old(View()), parent, rows[..k])
        invariant mapped == Mapped(old(View()), parent, rows[..k])
      {
        assert rows[..k + 1][..k] == rows[..k];
        var ino := UpsertStoredEntry(parent, rows[k]);
        mapped := mapped[rows[k].name := ino];
      }
      assert rows[..|rows|] == rows;
      dirChildren := dirChildren[parent := mapped];
    }

    method RefreshEntryFromStored(ino: Ino, row: Row) returns (r: Result<(), FsError>)
      modifies this`entries, this`pathToIno
      ensures View() == Refreshed(old(View()), ino, row)
      ensures r == if ino in old(entries) then Ok(()) else Err(NotFound)
    {
      if ino !in entries { return Err(NotFound); }
      var oldPath := entries[ino].path;
      entries := entries[ino := Updated(entries[ino], row)];
      if oldPath != row.path {
        pathToIno := (pathToIno - {oldPath})[row.path := ino];
      }
      return Ok(());
    }

    method MarkDirectoryStale(ino: Ino)
      modifies this`dirChildren
      ensures View() == Stale(old(View()), ino)
    {
      dirChildren := dirChildren - {ino};
    }

    /** `apply_committed_stored`: a handle whose inode is gone stays as it is. */
    method ApplyCommittedStored(fh: Fh, row: Row) returns (r: Result<(), FsError>)
      modifies this`entries, this`pathToIno, this`writeHandles, this`dirChildren
      ensures View() == Committed(old(View()), fh, row)
      ensures r == if fh !in old(writeHandles) then Err(BadHandle)
                   else if old(writeHandles)[fh].ino !in old(entries) then Err(NotFound)
                   else Ok(())
    {
      if fh !in writeHandles { return Err(BadHandle); }
      var handle := writeHandles[fh];
      if handle.ino !in entries { return Err(NotFound); }
      var oldPath := entries[handle.ino].path;
      entries := entries[handle.ino := Updated(entries[handle.ino].(parent := handle.parent), row)];
      if oldPath != row.path {
        pathToIno := (pathToIno - {oldPath})[row.path := handle.ino];
      }
      writeHandles := writeHandles[fh := handle.(path := row.path, dirty := false, isNew := false)];
      MarkDirectoryStale(handle.parent);
      return Ok(());
    }

    /** `update_entry_size`. */
    method UpdateEntrySize(ino: Ino, size: nat) returns (r: Result<(), FsError>)
      modifies this`entries
      ensures r == if ino in old(entries) then Ok(()) else Err(NotFound)
      ensures entries == if ino in old(entries) then old(entries)[ino := old(entries)[ino].(size := size)] else old(entries)
    {
      if ino !in entries { return Err(NotFound); }
      entries := entries[ino := entries[ino].(size := size)];
      return Ok(());
    }

    method AddHandle(handle: Handle) returns (fh: Fh)
      modifies this`writeHandles, this`nextFh
      ensures fh == old(nextFh) && nextFh == old(nextFh) + 1 && writeHandles == old(writeHandles)[fh := handle]
    {
      fh := nextFh;
      nextFh := nextFh + 1;
      writeHandles := writeHandles[fh := handle];
    }

    method MarkHandleDirty(fh: Fh)
      requires fh in writeHandles
      modifies this`writeHandles
      ensures writeHandles == old(writeHandles)[fh := old(writeHandles)[fh].(dirty := true)]
    {
      writeHandles := writeHandles[fh := writeHandles[fh].(dirty := true)];
    }

    method RemoveWriteHandle(fh: Fh) returns (r: Result<Handle, FsError>)
      modifies this`writeHandles
      ensures r == if fh in old(writeHandles) then Ok(old(writeHandles)[fh]) else Err(BadHandle)
      ensures writeHandles == old(writeHandles) - {fh}
    {
      if fh !in writeHandles { return Err(BadHandle); }
      r := Ok(writeHandles[fh]);
      writeHandles := writeHandles - {fh};
    }

    /** `remove_entry_recursive` takes exactly the inodes that listed directories lead to. */
    method RemoveEntryRecursive(ino: Ino)
      requires CacheOk(View())
      modifies this`entries, this`pathToIno, this`dirChildren
      ensures View() == Removed(old(View()), Reach(old(View()), ino)) && CacheOk(View())
      decreases |dirChildren.Keys|, 1
    {
      hide CacheOk, ChildrenOk, Linked, Removed, Reach, Stale;
      ghost var c := View();
      CacheParts(c);
      RemovalSummary(c, ino);
      if ino in dirChildren {
        var children := dirChildren[ino];
        MarkDirectoryStale(ino);
        RemoveChildren(ino, children, c);
      }
      assert View() == WithoutBelow(c, ino);
      if ino in entries {
        pathToIno := pathToIno - {entries[ino].path};
        entries := entries - {ino};
      }
    }

    /** Its loop over the children of a listing that has just been dropped; `c` is the cache before. */
    method RemoveChildren(ino: Ino, children: map<string, Ino>, ghost c: Cache)
      requires CacheOk(c) && ino in c.children && ino in c.entries && children == c.children[ino] && View() == Stale(c, ino)
      modifies this`entries, this`pathToIno, this`dirChildren
      ensures View() == Removed(Stale(c, ino), Reach(c, ino) - {ino})
      decreases |c.children.Keys|, 0
    {
      hide CacheOk, ChildrenOk, Linked, Removed, Reach, ClosedBelow, Stale;
      CacheParts(c);
      StaleKeeps(c, ino);
      var names := Listed(children.Keys);
      ghost var gone: set<Ino> := {};
      RemovedNothing(Stale(c, ino));
      for k := 0 to |names|
        invariant forall n :: n in names <==> n in c.children[ino]
        invariant View() == Removed(Stale(c, ino), gone) && CacheOk(View())
        invariant gone == ReachAny(c, ino, names[..k]) && ClosedBelow(Stale(c, ino), gone)
      {
        var child := children[names[k]];
        FewerListings(c, ino, gone);
        RemoveNextChild(c, ino, names[k], gone);
        RemoveEntryRecursive(child);
        assert names[..k + 1] == names[..k] + [names[k]];
        ReachAnyGrows(c, ino, names[..k], names[k]);
        gone := gone + Reach(c, child);
      }
      assert names[..|names|] == names;
      ReachAnyIsAll(c, ino, names);
    }

    /** `collect_subtree`: terminates because paths get longer on the way down. */
    method CollectSubtree(ino: Ino) returns (nodes: seq<Ino>)
      requires CacheOk(View())
      ensures IsWalk(View(), ino, nodes)
      decreases Headroom(View(), ino)
    {
      hide CacheOk, ChildrenOk, Linked, Reach, Headroom;
      CacheParts(View());
      nodes := [ino];
      StartWalk(View(), ino);
      if ino in dirChildren {
        ListedAreCached(View());
        ChildrenHaveLessHeadroom(View(), ino);
        var children := dirChildren[ino];
        var names := Listed(children.Keys);
        for k := 0 to |names|
          invariant forall n :: n in names <==> n in children
          invariant Walks(View(), {ino} + ReachAny(View(), ino, names[..k]), nodes)
        {
          var rest := CollectSubtree(children[names[k]]);
          NextChildIsApart(View(), ino, names, k);
          AppendWalk(View(), {ino} + ReachAny(View(), ino, names[..k]), nodes, Reach(View(), children[names[k]]), rest);
          assert names[..k + 1] == names[..k] + [names[k]];
          ReachAnyGrows(View(), ino, names[..k], names[k]);
          nodes := nodes + rest;
          assert {ino} + ReachAny(View(), ino, names[..k]) + Reach(View(), children[names[k]]) == {ino} + ReachAny(View(), ino, names[..k + 1]);
        }
        assert names[..|names|] == names;
        ReachAnyIsAll(View(), ino, names);
      } else {
        UnlistedRemoval(View(), ino);
      }
    }

    /** `rename_entry_subtree`; the ghost result is the walk that was taken. */
    method RenameEntrySubtree(ino: Ino, newParent: Ino, newName: string, newPath: string) returns (ghost nodes: seq<Ino>)
      requires CacheOk(View())
      modifies this`entries, this`pathToIno, this`writeHandles
      ensures IsWalk(old(View()), ino, nodes)
      ensures View() == MovedSubtree(old(View()), nodes, ino, newParent, newName, newPath)
    {
      hide CacheOk, ChildrenOk, Linked, Reach, Walks, MovedNode, MovedHandle;
      ghost var c := View();
      CacheParts(c);
      var walk := CollectSubtree(ino);
      nodes := walk;
      if ino !in entries { return; }
      var oldPath := entries[ino].path;
      for k := 0 to |walk|
        invariant View() == MoveAll(c, walk[..k], ino, oldPath, newParent, newName, newPath)
      {
        var j := walk[k];
        assert walk[..k + 1][..k] == walk[..k];
        if j in entries {
          var node := MovedNode(entries[j], ino, oldPath, newParent, newName, newPath);
          pathToIno := (pathToIno - {entries[j].path})[node.path := j];
          entries := entries[j := node];
        }
      }
      assert walk[..|walk|] == walk;
      RewriteHandles(ino, oldPath, newParent, newPath);
    }

    method RewriteHandles(ino: Ino, oldPath: string, newParent: Ino, newPath: string)
      modifies this`writeHandles
      ensures writeHandles == map h | h in old(writeHandles) :: MovedHandle(old(writeHandles)[h], ino, oldPath, newParent, newPath)
    {
      var fhs := Listed(writeHandles.Keys);
      for k := 0 to |fhs|
        invariant writeHandles.Keys == old(writeHandles.Keys)
        invariant forall h :: h in writeHandles ==>
                    writeHandles[h] == if h in fhs[..k] then MovedHandle(old(writeHandles)[h], ino, oldPath, newParent, newPath) else old(writeHandles)[h]
      {
        writeHandles := writeHandles[fhs[k] := MovedHandle(writeHandles[fhs[k]], ino, oldPath, newParent, newPath)];
      }
      assert fhs[..|fhs|] == fhs;
    }

    /** The cache's part of `rename_entry`. */
    method RenameEntry(parent: Ino, ino: Ino, newParent: Ino, newName: string, newPath: string) returns (ghost nodes: seq<Ino>)
      requires CacheOk(View()) && ino in entries
      modifies this`entries, this`pathToIno, this`dirChildren, this`writeHandles
      ensures CacheOk(Cleared(old(View()), ino, newPath))
      ensures IsWalk(Cleared(old(View()), ino, newPath), ino, nodes)
      ensures View() == RenamedEntry(old(View()), nodes, parent, ino, newParent, newName, newPath)
    {
      hide CacheOk, ChildrenOk, Linked, Reach, Removed, MovedSubtree;
      CacheParts(View());
      if newPath in pathToIno && pathToIno[newPath] != ino {
        RemoveEntryRecursive(pathToIno[newPath]);
      }
      CacheParts(View());
      nodes := RenameEntrySubtree(ino, newParent, newName, newPath);
      MarkDirectoryStale(parent);
      MarkDirectoryStale(newParent);
    }

    /** The cache's part of `unlink_entry`. */
    method UnlinkEntry(parent: Ino, ino: Ino)
      requires CacheOk(View())
      modifies this`entries, this`pathToIno, this`dirChildren
      ensures View() == UnlinkedEntry(old(View()), parent, ino)
    {
      CacheParts(View());
      RemoveEntryRecursive(ino);
      MarkDirectoryStale(parent);
    }
  }

  lemma StartWalk(c: Cache, i: Ino)
    requires ChildrenOk(c)
    ensures Walks(c, {i}, [i])
    ensures i !in c.entries ==> Walks(c, {}, [i]) && i !in c.children
  {
  }

  lemma FewerListings(c: Cache, i: Ino, gone: set<Ino>)
    requires i in c.children
    ensures |Removed(Stale(c, i), gone).children.Keys| < |c.children.Keys|
  {
    assert Removed(Stale(c, i), gone).children.Keys <= c.children.Keys - {i};
    SubsetCardinality(Removed(Stale(c, i), gone).children.Keys, c.children.Keys - {i});
  }

  lemma RemovedNothing(c: Cache)
    ensures Removed(c, {}) == c && ClosedBelow(c, {})
  {
  }

  /** The cache once everything below an inode is gone. */
  ghost function WithoutBelow(c: Cache, i: Ino): Cache
    requires ChildrenOk(c)
  {
    Removed(Stale(c, i), Reach(c, i) - {i})
  }

  lemma RemovalSummary(c: Cache, i: Ino)
    requires CacheOk(c)
    ensures CacheOk(Removed(c, Reach(c, i)))
    ensures i in c.children ==> i in c.entries
    ensures i !in c.children ==> WithoutBelow(c, i) == c
    ensures var r := WithoutBelow(c, i);
            if i in r.entries then
              r.(paths := r.paths - {r.entries[i].path}, entries := r.entries - {i}) == Removed(c, Reach(c, i))
            else r == Removed(c, Reach(c, i))
  {
    hide CacheOk, Linked, Reach;
    CacheParts(c);
    RemoveKeeps(c, Reach(c, i));
    ListedAreCached(c);
    hide ChildrenOk;
    if i !in c.children { UnlistedRemoval(c, i); }
    if i in c.entries {
      RemoveLast(c, i, Reach(c, i) - {i});
      assert {i} + (Reach(c, i) - {i}) == Reach(c, i);
    }
  }

  lemma UnlistedRemoval(c: Cache, i: Ino)
    requires CacheOk(c) && i !in c.children
    ensures Stale(c, i) == c && Removed(c, {}) == c
    ensures Reach(c, i) == if i in c.entries then {i} else {}
    ensures Reach(c, i) - {i} == {}
  {
  }
}
