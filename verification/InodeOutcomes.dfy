/** What the cache shows after a rename, an unlink or a commit: where the inode hangs, that no listing that is
    left leads to it under its old name, what its open handles carry, and that nothing else has changed. */
module InodeOutcomes {
  import opened RemotePaths
  import opened Tables
  import opened InodeCache
  import opened InodeSafety
  import opened InodeRename
  import opened InodeRuns

  /** The inode is a child of the directory by that name. */
  predicate HangsAt(c: Cache, i: Ino, parent: Ino, name: string) {
    && i in c.entries && parent in c.entries && c.entries[i].parent == parent && c.entries[i].name == name
    && c.entries[i].path == Join(c.entries[parent].path, name)
  }

  predicate ListedNowhere(c: Cache, i: Ino) {
    forall d, n :: d in c.children && n in c.children[d] ==> c.children[d][n] != i
  }

  /** A cached inode is listed in no directory but its own. */
  lemma OnlyOwnDirectory(c: Cache, parent: Ino, name: string, i: Ino)
    requires CacheOk(c) && i in c.entries && parent in c.entries && ChildName(name)
    requires c.entries[i].path == Join(c.entries[parent].path, name) && parent !in c.children
    ensures ListedNowhere(c, i)
  {
    CacheParts(c);
    RootedEntry(c, parent);
    hide ChildrenOk, Join, ChildName;
    forall d, n | d in c.children && n in c.children[d]
      ensures c.children[d][n] != i
    {
      LinkParts(c, d, n);
      if c.children[d][n] == i {
        OneParent(c.entries[d].path, n, c.entries[parent].path, name);
        assert false by { SamePath(c, d, parent); }
      }
    }
  }

  lemma SamePath(c: Cache, a: Ino, b: Ino)
    requires Linked(c) && a in c.entries && b in c.entries && c.entries[a].path == c.entries[b].path
    ensures a == b
  {
  }

  // ---- Unlinking ----

  /** The inode and all that was reached through it are gone, no listing leads to it, its directory will be listed
      afresh, and what is left is as it was. */
  lemma UnlinkOutcome(c: Cache, parent: Ino, name: string)
    requires CacheOk(c) && parent in c.children && name in c.children[parent] && c.children[parent][name] in c.entries
    ensures var i := c.children[parent][name]; var after := UnlinkedEntry(c, parent, i);
            && i !in after.entries && c.entries[i].path !in after.paths && parent in after.entries
            && parent !in after.children && ListedNowhere(after, i)
            && after.entries.Keys == c.entries.Keys - Reach(c, i) && after.handles == c.handles
            && (forall j :: j in after.entries ==> after.entries[j] == c.entries[j])
            && (forall d :: d in c.children && d != parent && d !in Reach(c, i) ==> d in after.children && after.children[d] == c.children[d])
  {
    var i := c.children[parent][name];
    CacheParts(c);
    LinkParts(c, parent, name);
    ParentOutside(c, parent, name);
    hide Reach, Join, ChildrenOk, ChildName;
    var after := UnlinkedEntry(c, parent, i);
    assert ListedNowhere(after, i) by {
      forall d, n | d in after.children && n in after.children[d]
        ensures after.children[d][n] != i
      {
        LinkParts(c, d, n);
        if c.children[d][n] == i {
          OneParent(c.entries[d].path, n, c.entries[parent].path, name);
          SamePath(c, d, parent);
        }
      }
    }
  }

  lemma ParentOutside(c: Cache, parent: Ino, name: string)
    requires CacheOk(c) && parent in c.children && name in c.children[parent] && c.children[parent][name] in c.entries
    ensures parent !in Reach(c, c.children[parent][name])
  {
    var i := c.children[parent][name];
    CacheParts(c);
    LinkParts(c, parent, name);
    JoinExtends(c.entries[parent].path, name);
    hide Join, ChildrenOk, ChildName;
    if parent in Reach(c, i) {
      ReachIsBelow(c, i, parent);
    }
  }

  // ---- Committing ----

  /** The file has the committed size, its directory will be listed afresh, the handle is clean and no longer new,
      and no other inode, handle or listing has changed. */
  lemma CommitOutcome(c: Cache, h: Fh, row: Row)
    requires CacheOk(c) && HandlesOk(c) && h in c.handles && row.path == c.handles[h].path && c.handles[h].ino in c.entries
    ensures var i, after := c.handles[h].ino, Committed(c, h, row);
            && h in after.handles && !after.handles[h].dirty && !after.handles[h].isNew && after.handles[h].path == c.handles[h].path
            && after.handles[h].ino == i && after.handles[h].parent == c.handles[h].parent
            && i in after.entries && after.entries[i].size == row.size && after.entries[i].parent == c.handles[h].parent
            && after.entries[i].path == c.entries[i].path && c.handles[h].parent !in after.children
            && after.paths == c.paths && after.entries.Keys == c.entries.Keys && after.handles.Keys == c.handles.Keys
            && (forall j :: j in c.entries && j != i ==> after.entries[j] == c.entries[j])
            && (forall g :: g in c.handles && g != h ==> after.handles[g] == c.handles[g])
            && (forall d :: d in c.children && d != c.handles[h].parent ==> d in after.children && after.children[d] == c.children[d])
  {
    CacheParts(c);
    hide ChildrenOk;
  }

  // ---- Renaming ----

  /** What was cached at the new path is gone with all that was reached through it, and nothing else is. */
  lemma ClearedOutcome(c: Cache, i: Ino, to: string)
    requires CacheOk(c)
    ensures var after := Cleared(c, i, to);
            && (to in after.paths ==> after.paths[to] == i)
            && (to in c.paths && c.paths[to] != i ==> after.entries.Keys == c.entries.Keys - Reach(c, c.paths[to]))
            && (to !in c.paths || c.paths[to] == i ==> after == c)
            && (forall j :: j in after.entries ==> j in c.entries && after.entries[j] == c.entries[j]) && after.handles == c.handles
  {
    CacheParts(c);
    hide ChildrenOk;
  }

  /** What a node below the renamed one becomes. */
  predicate CarriedAlong(before: Node, after: Node, from: string, to: string) {
    && from <= before.path && after.path == to + before.path[|from|..]
    && after.name == before.name && after.parent == before.parent && after.ino == before.ino
    && after.kind == before.kind && after.size == before.size
  }

  /** The handle still belongs to its inode with what it had; one on the renamed inode knows the new directory. */
  predicate HandleCarried(before: Handle, after: Handle, i: Ino, newParent: Ino) {
    && after.ino == before.ino && after.dirty == before.dirty && after.isNew == before.isNew
    && after.parent == (if before.ino == i then newParent else before.parent)
  }

  /** The move alone: the inode hangs at its new place with its kind and size, what is reached through it is
      carried along, and the rest stays. */
  lemma MovedOutcome(c: Cache, nodes: seq<Ino>, i: Ino, newParent: Ino, newName: string, to: string)
    requires CacheOk(c) && HandlesOk(c) && i in c.entries && IsWalk(c, i, nodes) && newParent in c.entries && ChildName(newName)
    requires c.entries[i].path != ROOT && to == Join(c.entries[newParent].path, newName) && Apart(c.entries[i].path, to)
    ensures var from, after := c.entries[i].path, MovedSubtree(c, nodes, i, newParent, newName, to);
            && HangsAt(after, i, newParent, newName) && after.entries[i].kind == c.entries[i].kind && after.entries[i].size == c.entries[i].size
            && (forall j :: j in c.entries && j != i && j in Reach(c, i) ==> j in after.entries && CarriedAlong(c.entries[j], after.entries[j], from, to))
            && (forall j :: j in c.entries && j !in Reach(c, i) ==> j in after.entries && after.entries[j] == c.entries[j])
            && after.handles.Keys == c.handles.Keys
            && (forall h :: h in c.handles ==> HandleCarried(c.handles[h], after.handles[h], i, newParent))
  {
    var from, after := c.entries[i].path, MovedSubtree(c, nodes, i, newParent, newName, to);
    CacheParts(c);
    NewParentOutside(c, i, newParent, newName);
    MovedNodes(c, nodes, i, newParent, newName, to);
    LinkedNumber(c, i);
    hide MovedSubtree, Reach, ChildrenOk, Linked, Apart, Join, IsWalk, HandleCarried, CarriedAlong, MovedHandle, InSubtree;
    OwnNode(c.entries[i], i, newParent, newName, to);
    forall j | j in c.entries && j != i && j in Reach(c, i)
      ensures j in after.entries && CarriedAlong(c.entries[j], after.entries[j], from, to)
    {
      LinkedNumber(c, j);
      OtherNode(c.entries[j], i, from, newParent, newName, to);
    }
    forall h | h in c.handles
      ensures HandleCarried(c.handles[h], after.handles[h], i, newParent)
    {
      if c.handles[h].ino == i { HandlePath(c, h); }
      HandleMoved(c.handles[h], i, from, newParent, to);
    }
  }

  lemma MovedNodes(c: Cache, nodes: seq<Ino>, i: Ino, newParent: Ino, newName: string, to: string)
    requires CacheOk(c) && i in c.entries && IsWalk(c, i, nodes) && c.entries[i].path != ROOT && Apart(c.entries[i].path, to)
    ensures var from, after := c.entries[i].path, MovedSubtree(c, nodes, i, newParent, newName, to);
            && after.entries.Keys == c.entries.Keys && after.handles.Keys == c.handles.Keys
            && (forall j :: j in c.entries && j in Reach(c, i) ==>
                  InSubtree(from, c.entries[j].path) && after.entries[j] == MovedNode(c.entries[j], i, from, newParent, newName, to))
            && (forall j :: j in c.entries && j !in Reach(c, i) ==> after.entries[j] == c.entries[j])
            && (forall h :: h in c.handles ==> after.handles[h] == MovedHandle(c.handles[h], i, from, newParent, to))
  {
    CacheParts(c);
    WalkLiesBelow(c, i, nodes);
    MoveAllEffect(c, nodes, i, c.entries[i].path, newParent, newName, to);
    hide MoveAll, Reach, ChildrenOk, Linked, PathsMoved, InSubtree, Apart, MovedNode, MovedHandle;
  }

  lemma OwnNode(node: Node, i: Ino, newParent: Ino, newName: string, to: string)
    requires node.ino == i
    ensures var after := MovedNode(node, i, node.path, newParent, newName, to);
            after.path == to && after.parent == newParent && after.name == newName && after.kind == node.kind && after.size == node.size
  {
    OwnTarget(node.path, to);
  }

  lemma OtherNode(node: Node, i: Ino, from: string, newParent: Ino, newName: string, to: string)
    requires node.ino != i && InSubtree(from, node.path)
    ensures CarriedAlong(node, MovedNode(node, i, from, newParent, newName, to), from, to)
  {
  }

  lemma HandlePath(c: Cache, h: Fh)
    requires HandlesOk(c) && h in c.handles && c.handles[h].ino in c.entries
    ensures c.handles[h].path == c.entries[c.handles[h].ino].path
  {
  }

  lemma HandleMoved(handle: Handle, i: Ino, from: string, newParent: Ino, to: string)
    requires handle.ino == i ==> handle.path == from
    ensures HandleCarried(handle, MovedHandle(handle, i, from, newParent, to), i, newParent)
  {
  }

  lemma NewParentOutside(c: Cache, i: Ino, newParent: Ino, newName: string)
    requires CacheOk(c) && i in c.entries && newParent in c.entries && ChildName(newName) && c.entries[i].path != ROOT
    requires Apart(c.entries[i].path, Join(c.entries[newParent].path, newName))
    ensures newParent !in Reach(c, i)
  {
    CacheParts(c);
    hide ChildrenOk;
    if newParent in Reach(c, i) {
      ReachIsBelow(c, i, newParent);
      JoinStaysBelow(c.entries[i].path, c.entries[newParent].path, newName);
    }
  }

  /** The cache after a rename: the inode hangs in its new directory under the new name and is listed nowhere until
      a directory is listed again; what lay below it is carried along; every other inode that was not at the new path
      is as it was; and handles stay with their inodes. */
  lemma RenameOutcome(c: Cache, parent: Ino, name: string, newParent: Ino, newName: string, nodes: seq<Ino>)
    requires Inv(c) && RenameReady(c, parent, name, newParent, newName, nodes)
    ensures var i, to := c.children[parent][name], Join(c.entries[newParent].path, newName);
            var from, cleared := c.entries[i].path, Cleared(c, i, to);
            var after := RenamedEntry(c, nodes, parent, i, newParent, newName, to);
            && HangsAt(after, i, newParent, newName) && after.entries[i].kind == c.entries[i].kind && after.entries[i].size == c.entries[i].size
            && parent !in after.children && newParent !in after.children && ListedNowhere(after, i)
            && (forall j :: j in cleared.entries && j != i && j in Reach(cleared, i) ==>
                  j in after.entries && CarriedAlong(c.entries[j], after.entries[j], from, to))
            && (forall j :: j in cleared.entries && j !in Reach(cleared, i) ==> j in after.entries && after.entries[j] == c.entries[j])
            && after.handles.Keys == c.handles.Keys
            && (forall h :: h in c.handles ==> HandleCarried(c.handles[h], after.handles[h], i, newParent))
  {
    var i, to := c.children[parent][name], Join(c.entries[newParent].path, newName);
    var cleared := Cleared(c, i, to);
    CacheParts(c);
    LinkParts(c, parent, name);
    RootedEntry(c, newParent);
    JoinExtends(c.entries[parent].path, name);
    JoinExtends(c.entries[newParent].path, newName);
    RenameEntryKeeps(c, parent, name, newParent, newName, nodes);
    ClearedOutcome(c, i, to);
    ClearedHandles(c, i, to);
    if InSubtree(to, c.entries[newParent].path) { LongerThanBelow(to, c.entries[newParent].path); }
    ClearedFacts(c, i, to, newParent);
    hide Cleared, Reach, MovedSubtree, ChildrenOk, CacheOk, Join, ListedNowhere, HandleCarried, CarriedAlong, HandlesOk, Apart;
    MovedOutcome(cleared, nodes, i, newParent, newName, to);
    OnlyOwnDirectory(RenamedEntry(c, nodes, parent, i, newParent, newName, to), newParent, newName, i);
  }

  lemma LongerThanBelow(to: string, p: string)
    requires InSubtree(to, p)
    ensures |to| <= |p|
  {
  }
}
