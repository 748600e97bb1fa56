/** The filesystem on top of the sync service and the cache: refreshing an inode, the life of a write
    handle, and renaming. One call at a time. */
module DiskFs {
  import opened Wrappers
  import opened RemotePaths
  import opened Tables
  import opened SyncSteps
  import opened TableInvariants
  import opened InodeCache
  import opened InodeSafety
  import opened InodeRename
  import opened FsState
  import opened WriteHandles
  import HelperSoundness
  import SubtreeRename
  import SyncService
  import InodeRuns

  function FromSync(e: SyncService.SyncError): FsError {
    match e
    case NotFound => FsError.NotFound
    case NotDir => FsError.NotDir
    case IsDir => FsError.IsDir
    case AlreadyExists => FsError.AlreadyExists
    case DirectoryNotEmpty => NotEmpty
    case _ => Sync(e)
  }

  /** The kernel's errors say exactly what the service's do, and all others are told apart. */
  lemma ErrorsKeepMeaning(e: SyncService.SyncError, other: SyncService.SyncError)
    ensures FromSync(e) == FsError.NotFound <==> e == SyncService.SyncError.NotFound
    ensures FromSync(e) == FsError.NotDir <==> e == SyncService.SyncError.NotDir
    ensures FromSync(e) == FsError.IsDir <==> e == SyncService.SyncError.IsDir
    ensures FromSync(e) == FsError.AlreadyExists <==> e == SyncService.SyncError.AlreadyExists
    ensures FromSync(e) == NotEmpty <==> e == SyncService.SyncError.DirectoryNotEmpty
    ensures FromSync(e) == FromSync(other) ==> e == other
  {
  }

  /** The service renamed the row at `from`. */
  ghost predicate RenameEntryOk(db: Db, after: Db, from: string, to: string, now: int) {
    match RowAt(db.files, from)
    case None => false
    case Some(f) => SyncSteps.RenameEntry(db, db.files[f], to, now) == Ok(after)
  }

  predicate HasActiveHandle(c: Cache, ino: Ino) {
    exists h :: h in c.handles && c.handles[h].ino == ino
  }

  class YandexDiskFs {
    const sync: SyncService.Service
    const state: State
    var staging: map<Fh, Bytes>

    ghost predicate Ready()
      reads this, sync, state
    {
      Valid(sync.State()) && CacheOk(state.View()) && staging.Keys == state.writeHandles.Keys
    }

    /** What the service, its cache files and a handle's staging file hold. */
    ghost function SessionOf(fh: Fh): Session
      requires fh in staging && fh in state.writeHandles
      reads this, sync, state
    {
      Session(sync.State(), sync.disk, staging[fh], state.writeHandles[fh].dirty)
    }

    /** `with_sync`, given the root's row. */
    constructor (service: SyncService.Service, root: Row)
      requires Valid(service.State()) && root.path == ROOT
      ensures sync == service && Ready() && HandlesOk(state.View()) && staging == map[]
    {
      sync := service;
      state := new State(root);
      staging := map[];
    }

    /** `ensure_entry_fresh`: an inode with an open handle keeps what the cache has, another takes over
        its row. */
    method EnsureEntryFresh(ino: Ino) returns (r: Result<Node, FsError>)
      requires Ready()
      modifies state`entries, state`pathToIno
      ensures Ready()
      ensures var c := old(state.View());
              if ino !in c.entries then r == Err(FsError.NotFound) && state.View() == c
              else if HasActiveHandle(c, ino) then r == Ok(c.entries[ino]) && state.View() == c
              else match RowAt(sync.files, c.entries[ino].path)
                   case None => r == Err(FsError.NotFound) && state.View() == c
                   case Some(f) => state.View() == Refreshed(c, ino, sync.files[f]) && r == Ok(Updated(c.entries[ino], sync.files[f]))
    {
      hide CacheOk, Valid;
      SyncService.ValidParts(sync.State());
      if ino !in state.entries { return Err(FsError.NotFound); }
      if exists h :: h in state.writeHandles && state.writeHandles[h].ino == ino { return Ok(state.entries[ino]); }
      var found := sync.QueryByPath(state.entries[ino].path);
      if found.None? { return Err(FsError.NotFound); }
      RefreshSamePath(state.View(), ino, sync.files[found.value]);
      var done := state.RefreshEntryFromStored(ino, sync.files[found.value]);
      return Ok(state.entries[ino]);
    }

    /** The bytes a new handle starts from. */
    method InitialBytes(entry: Node, answer: Result<Bytes, RemoteError>, stale: bool, now: int) returns (r: Result<Bytes, FsError>)
      requires Valid(sync.State())
      modifies sync`files, sync`disk, sync`ops, sync`nextOp
      ensures Valid(sync.State())
      ensures r.Ok? && entry.size == 0 ==> r.value == []
      ensures var f := RowAt(old(sync.files), entry.path);
              && (r.Ok? && entry.size != 0 ==>
                    f.Some? && f.value in sync.files && LocalBytes(sync.State(), sync.disk, f.value) == Some(r.value))
              && (r.Ok? && f.Some? && old(sync.files)[f.value].size == entry.size ==>
                    && f.value in sync.files
                    && if sync.files[f.value].size == 0 then r.value == [] else LocalBytes(sync.State(), sync.disk, f.value) == Some(r.value))
    {
      hide Valid, HelperSoundness.Sound, RowOk;
      if entry.size == 0 { return Ok([]); }
      ghost var db := sync.State();
      var hydrated := sync.EnsureHydrated(entry.path, answer, stale, now);
      HelperSoundness.SoundIsValid(db, sync.State());
      if hydrated.Err? { return Err(FromSync(hydrated.error)); }
      CanonicalCaches(db);
      RefreshKeepsFiles(db, now);
      return Ok(sync.disk[hydrated.value.cachePath.value]);
    }

    /** `open_file_handle`, once the entry is fresh; `answer` is what fetching missing bytes gives. */
    method OpenFresh(ino: Ino, entry: Node, truncate: bool, answer: Result<Bytes, RemoteError>, stale: bool, now: int) returns (r: Result<Fh, FsError>)
      requires Ready() && ino in state.entries && state.entries[ino] == entry && entry.kind.File?
      modifies this`staging, sync`files, sync`disk, sync`ops, sync`nextOp, state`entries, state`writeHandles, state`nextFh
      ensures r.Err? ==> state.View() == old(state.View()) && staging == old(staging)
      ensures r.Ok? ==>
                && r.value == old(state.nextFh)
                && r.value in staging && r.value in state.writeHandles
                && state.writeHandles == old(state.writeHandles)[r.value := Handle(ino, entry.parent, entry.path, truncate, false)]
                && state.entries == (if truncate then old(state.entries)[ino := entry.(size := 0)] else old(state.entries))
                && (truncate ==> staging[r.value] == [])
                && (!truncate && entry.size == 0 ==> staging[r.value] == [])
                && (!truncate && entry.size != 0 ==>
                      var f := RowAt(old(sync.files), entry.path);
                      f.Some? && f.value in sync.files && LocalBytes(sync.State(), sync.disk, f.value) == Some(staging[r.value]))
      ensures var f := RowAt(old(sync.files), entry.path);
              r.Ok? && f.Some? && old(sync.files)[f.value].size == entry.size ==>
                && f.value in sync.files
                && (Settled(SessionOf(r.value), f.value)
                    <==> truncate || (LocalBytes(sync.State(), sync.disk, f.value).Some?
                                      && sync.files[f.value].size == |LocalBytes(sync.State(), sync.disk, f.value).value|))
      ensures Ready()
    {
      hide CacheOk, Valid, LocalBytes, Settled;
      var initial := InitialBytes(entry, answer, stale, now);
      if initial.Err? { return Err(initial.error); }
      var fh := state.AddHandle(Handle(ino, entry.parent, entry.path, truncate, false));
      staging := staging[fh := if truncate then Resized(initial.value, 0) else initial.value];
      if truncate {
        var done := state.UpdateEntrySize(ino, 0);
      }
      SamePathsKeep(old(state.View()), state.View());
      ghost var f := RowAt(old(sync.files), entry.path);
      if f.Some? && old(sync.files)[f.value].size == entry.size {
        if truncate {
          DirtyIsSettled(SessionOf(fh), f.value);
        } else {
          FreshHandleSettledIff(SessionOf(fh), f.value);
        }
      }
      return Ok(fh);
    }

    /** `open_file_handle`: reading needs no handle and gets number 0, a directory is refused, and writing
        refreshes the inode first. */
    method OpenFileHandle(ino: Ino, writable: bool, truncate: bool, answer: Result<Bytes, RemoteError>, stale: bool, now: int)
      returns (r: Result<Fh, FsError>)
      requires Ready()
      modifies this`staging, sync`files, sync`disk, sync`ops, sync`nextOp, state`entries, state`pathToIno, state`writeHandles, state`nextFh
      ensures ino !in old(state.entries) ==> r == Err(FsError.NotFound)
      ensures r.Err? || !writable ==> state.writeHandles == old(state.writeHandles) && staging == old(staging)
      ensures r.Ok? ==> ino in old(state.entries) && ino in state.entries && state.entries[ino].kind.File?
                        && state.entries[ino].path == old(state.entries[ino].path)
      ensures r.Ok? && !writable ==> r.value == 0 && sync.State() == old(sync.State()) && sync.disk == old(sync.disk)
      ensures r.Ok? && writable ==>
                && r.value == old(state.nextFh) && r.value in staging && r.value in state.writeHandles
                && state.writeHandles == old(state.writeHandles)[r.value := Handle(ino, state.entries[ino].parent, state.entries[ino].path, truncate, false)]
                && (truncate ==> staging[r.value] == [] && state.entries[ino].size == 0)
      ensures Ready()
    {
      hide CacheOk, Valid, LocalBytes, Settled;
      var current := EnsureEntryFresh(ino);
      if current.Err? { return Err(current.error); }
      if current.value.kind.Directory? { return Err(IsDir); }
      if !writable { return Ok(0); }
      r := OpenFresh(ino, current.value, truncate, answer, stale, now);
    }

    /** `write_handle_data` and `truncate_handle`. */
    method ChangeHandle(fh: Fh, edit: Edit) returns (r: Result<(), FsError>)
      requires Ready()
      modifies this`staging, state`entries, state`writeHandles
      ensures fh !in old(state.writeHandles) ==> r == Err(BadHandle) && state.View() == old(state.View()) && staging == old(staging)
      ensures fh in old(state.writeHandles) ==>
                && fh in staging && fh in state.writeHandles
                && SessionOf(fh) == Stepped(old(SessionOf(fh)), old(state.writeHandles[fh].path), Change(edit))
                && (forall h :: h in old(staging) && h != fh ==> h in staging && staging[h] == old(staging[h]))
                && var ino := old(state.writeHandles[fh].ino);
                   if ino in old(state.entries) then
                     r == Ok(()) && state.entries == old(state.entries)[ino := old(state.entries)[ino].(size := |staging[fh]|)]
                   else r == Err(FsError.NotFound) && state.entries == old(state.entries)
      ensures Ready()
    {
      hide CacheOk, Valid;
      if fh !in state.writeHandles { return Err(BadHandle); }
      staging := staging[fh := Changed(staging[fh], edit)];
      state.MarkHandleDirty(fh);
      r := state.UpdateEntrySize(state.writeHandles[fh].ino, |staging[fh]|);
      SamePathsKeep(old(state.View()), state.View());
    }

    /** `commit_write_handle`. A clean handle commits nothing. */
    method CommitWriteHandle(fh: Fh, now: int) returns (r: Result<(), FsError>)
      requires Ready() && HandlesOk(state.View())
      modifies sync`files, sync`ops, sync`nextOp, sync`disk, state`entries, state`pathToIno, state`writeHandles, state`dirChildren
      ensures fh !in old(state.writeHandles) ==> r == Err(BadHandle) && state.View() == old(state.View()) && sync.State() == old(sync.State())
      ensures fh in old(state.writeHandles) && r.Ok? ==>
                fh in staging && fh in state.writeHandles
                && SessionOf(fh) == Flushed(old(SessionOf(fh)), old(state.writeHandles[fh].path), now)
      ensures fh in old(state.writeHandles) && !old(state.writeHandles[fh].dirty) ==>
                r == Ok(()) && state.View() == old(state.View()) && sync.State() == old(sync.State()) && sync.disk == old(sync.disk)
      ensures Ready() && HandlesOk(state.View())
    {
      hide CacheOk, Valid, HelperSoundness.Sound, CommitLocal, Committed, HandlesOk;
      if fh !in state.writeHandles { return Err(BadHandle); }
      if !state.writeHandles[fh].dirty { return Ok(()); }
      var path := state.writeHandles[fh].path;
      CanonicalCaches(sync.State());
      var done := sync.ApplyLocalFile(path, staging[fh], now);
      HelperSoundness.SoundIsValid(old(sync.State()), sync.State());
      if done.Err? { return Err(FromSync(done.error)); }
      CommitKeeps(state.View(), fh, done.value);
      CommittedHandles(state.View(), fh, done.value);
      r := state.ApplyCommittedStored(fh, done.value);
    }

    /** `finish_write_handle`. */
    method FinishWriteHandle(fh: Fh) returns (r: Result<(), FsError>)
      requires Ready()
      modifies this`staging, state`writeHandles
      ensures r == if fh in old(state.writeHandles) then Ok(()) else Err(BadHandle)
      ensures staging == old(staging) - {fh} && state.writeHandles == old(state.writeHandles) - {fh}
      ensures Ready()
    {
      hide CacheOk, Valid;
      var removed := state.RemoveWriteHandle(fh);
      staging := staging - {fh};
      SamePathsKeep(old(state.View()), state.View());
      if removed.Err? { return Err(removed.error); }
      return Ok(());
    }
    /** `rename_entry`, once both directories are listed: the service first, then the cache. `nodes` is the
        walk of the subtree. When the service refuses, the cache is left alone. */
    method RenameEntry(parent: Ino, name: string, newParent: Ino, newName: string, now: int)
      returns (r: Result<(), FsError>, ghost nodes: seq<Ino>)
      requires Ready() && newParent in state.entries && ChildName(newName)
      requires parent in state.dirChildren && name in state.dirChildren[parent] && state.dirChildren[parent][name] in state.entries
      modifies sync`files, sync`ops, sync`nextOp, state`entries, state`pathToIno, state`dirChildren, state`writeHandles
      ensures var c := old(state.View());
              var ino, to := c.children[parent][name], Join(c.entries[newParent].path, newName);
              && Valid(sync.State())
              && (r.Err? ==> state.View() == c)
              && (c.entries[newParent].kind.File? ==> r == Err(FsError.NotDir) && sync.State() == old(sync.State()))
              && (r.Ok? ==>
                    && RenameEntryOk(old(sync.State()), sync.State(), c.entries[ino].path, to, now)
                    && CacheOk(Cleared(c, ino, to)) && IsWalk(Cleared(c, ino, to), ino, nodes)
                    && state.View() == RenamedEntry(c, nodes, parent, ino, newParent, newName, to))
              && (r.Ok? && HandlesOk(c) && InodeRuns.RenameReady(c, parent, name, newParent, newName, nodes)
                  ==> InodeRuns.Inv(state.View()) && ino in state.entries && state.entries[ino].path == to)
    {
      hide CacheOk, Valid, HelperSoundness.Sound, SyncSteps.RenameEntry, RenamedEntry, Cleared, InodeRuns.RenameReady, Join, HandlesOk;
      nodes := [];
      ghost var c := state.View();
      CacheParts(c);
      RootedEntries(c);
      if state.entries[newParent].kind.File? { return Err(FsError.NotDir), nodes; }
      var ino := state.dirChildren[parent][name];
      var to := Join(state.entries[newParent].path, newName);
      JoinExtends(state.entries[newParent].path, newName);
      var from := state.entries[ino].path;
      ghost var db := sync.State();
      var done := sync.Rename(from, to, now);
      HelperSoundness.SoundIsValid(db, sync.State());
      if done.Err? { return Err(FromSync(done.error)), nodes; }
      nodes := state.RenameEntry(parent, ino, newParent, newName, to);
      if HandlesOk(c) && InodeRuns.RenameReady(c, parent, name, newParent, newName, nodes) {
        InodeRuns.RenameEntryKeeps(c, parent, name, newParent, newName, nodes);
      }
      return Ok(()), nodes;
    }
  }

  lemma CommittedHandles(c: Cache, fh: Fh, row: Row)
    requires fh in c.handles
    ensures var after := Committed(c, fh, row);
            after.handles.Keys == c.handles.Keys && (c.handles[fh].ino in c.entries ==> !after.handles[fh].dirty)
  {
  }

  lemma DirtyIsSettled(s: Session, f: FileId)
    requires f in s.db.files && s.dirty
    ensures Settled(s, f)
  {
  }

  lemma RefreshKeepsFiles(db: Db, now: int)
    ensures SyncService.WithRefresh(db, now).files == db.files
  {
  }

  lemma CanonicalCaches(db: Db)
    requires Valid(db)
    ensures forall f :: f in db.files ==> CacheOf(db.files[f]) == CachePathFor(f)
  {
    forall f | f in db.files ensures CacheOf(db.files[f]) == CachePathFor(f) {
      SyncService.RowParts(db, f);
    }
  }

  // ---- Renaming ----

  /** A rename the service accepts on a parent-closed tree, when the LIKE pattern is exact. */
  ghost predicate RenameAccepted(db: Db, from: string, to: string) {
    && Valid(db) && SubtreeRename.ParentClosed(db.files) && Occupied(db.files, from) && !Occupied(db.files, to)
    && ROOT <= from && from != ROOT && ROOT <= to && to != ROOT && !InSubtree(from, to)
    && SubtreeRename.LikeExact(db.files, from)
  }

  /** What the service's rename does to the rows is what the cache relies on. */
  lemma AcceptedRenameMovesRows(db: Db, from: string, to: string)
    requires RenameAccepted(db, from, to)
    ensures var renamed := RenameSubtree(db.files, from, DestinationAt(to));
            renamed.ok && RowsRenamed(db.files, renamed.files, from, to)
  {
    hide Valid, RowOk, RenameRows, SubtreeRename.LikeExact, InSubtree, SubtreeRename.ParentClosed, SubtreeRename.ExactlySubstituted,
         Occupied, SubtreeRename.UniquePaths, Ordered, DestinationAt, SubtreeRename.TargetsFree, IsSelectOrder;
    var order := Ordered(db.files, SelectedIds(db.files, from));
    HelperSoundness.DestinationIsCoherent(to);
    AtPath(to);
    SyncService.ValidParts(db);
    SubtreeRename.OrderedIsSelectOrder(db.files, from);
    SubtreeRename.AbsentTargetIsFree(db.files, from, to);
    SubtreeRename.RenameIsSubstitutionIff(db.files, order, from, DestinationAt(to));
    SubtreeRename.RenameRowsEffect(db.files, order, from, DestinationAt(to));
    NothingBelowAbsent(db.files, from, to);
  }

  lemma AtPath(to: string)
    ensures DestinationAt(to).path == to
  {
  }

  lemma NothingBelowAbsent(files: Files, from: string, to: string)
    requires SubtreeRename.ParentClosed(files) && ROOT <= to && to != ROOT && Occupied(files, from) && !Occupied(files, to)
    ensures !InSubtree(to, from) && forall g :: g in files ==> !InSubtree(to, files[g].path)
  {
    hide SubtreeRename.ParentClosed, InSubtree;
    forall g | g in files ensures !InSubtree(to, files[g].path) {
      if InSubtree(to, files[g].path) { SubtreeRename.AncestorIsPresent(files, to, g); }
    }
  }

  /** A rename of a cached inode, first in the service and then in the cache. Each cached inode still names
      the same file afterwards, so that inode numbers survive the move, exactly when every inode cached
      below the old path that names a row is reachable and no row moves to the path of an inode left
      over at or below the new one. */
  lemma InodesSurviveRenameIff(db: Db, c: Cache, nodes: seq<Ino>, i: Ino, newParent: Ino, newName: string, to: string)
    requires CacheOk(c) && i in c.entries && IsWalk(c, i, nodes) && RenameAccepted(db, c.entries[i].path, to)
    ensures var after := RenameSubtree(db.files, c.entries[i].path, DestinationAt(to)).files;
            var moved := MovedSubtree(c, nodes, i, newParent, newName, to);
            && moved.entries.Keys == c.entries.Keys
            && ((forall j :: j in c.entries ==> NamesSameFile(db.files, after, c, moved, j))
                <==> (forall j :: j in c.entries ==> NameMayFollow(db.files, c.entries[i].path, to, c.entries[j].path, j in Reach(c, i))))
  {
    hide CacheOk, RenameSubtree, MovedSubtree, Reach, IsWalk, InSubtree, RowsRenamed, NameMayFollow;
    AcceptedRenameMovesRows(db, c.entries[i].path, to);
    CacheFollowsDatabaseIff(db.files, RenameSubtree(db.files, c.entries[i].path, DestinationAt(to)).files, c, nodes, i, newParent, newName, to);
  }
}
