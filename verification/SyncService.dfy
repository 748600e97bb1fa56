/** The sync service as an object: its methods update the three tables, the cache directory and the
    remote side in place. Each is proved to do what the corresponding step or job function says, and
    to keep the tables valid. */
module SyncService {
  import opened Wrappers
  import opened RemotePaths
  import opened Tables
  import opened SyncSteps
  import opened TableInvariants
  import opened HelperSoundness
  import opened SyncMachine
  import opened RemoteStore
  import opened JobRuns
  import opened AtLeastOnce
  import opened JobInvariant
  import SubtreeRename
  import QueueBounds
  import ReconcileConflicts
  import LocalToRemote
  import FailedJobs

  datatype SyncError = NotFound | NotDir | IsDir | AlreadyExists | DirectoryNotEmpty | Database | Remote(error: RemoteError)

  // ---- Facts the queries rely on ----

  lemma LeastIsUnique(s: set<nat>, m: nat)
    requires IsLeast(s, m)
    ensures Least(s) == m
  {
  }

  lemma FirstIsUnique(files: Files, s: set<FileId>, m: FileId)
    requires s <= files.Keys && m in s && forall k :: k in s ==> Precedes(files, m, k)
    ensures First(files, s) == m
    ensures Ordered(files, s) == [m] + Ordered(files, s - {m})
  {
    assert Precedes(files, First(files, s), m);
  }

  lemma UnknownFileHasNoOps(db: Db, fid: FileId, replaceUploads: bool, replaceAll: bool)
    requires References(db)
    ensures fid !in db.files ==> WithoutSuperseded(db.ops, fid, replaceUploads, replaceAll) == db.ops
  {
  }

  lemma RunnableAreThere(ops: Ops, fid: FileId, opType: OpType)
    ensures RunnableIds(ops, fid, opType) <= ops.Keys
  {
  }

  lemma FirstExists(files: Files, s: set<FileId>)
    requires s != {} && s <= files.Keys
    ensures exists m :: m in s && forall k :: k in s ==> Precedes(files, m, k)
  {
    assert First(files, s) in s;
  }

  lemma SelectedAreKeys(files: Files, from: string)
    ensures SelectedIds(files, from) <= files.Keys
  {
  }

  lemma NothingLeft(original: Files, now: Files, from: string, to: Destination)
    ensures RenameRows(now, Ordered(original, {}), from, to) == Renamed(now, true)
  {
  }

  lemma ValidParts(db: Db)
    requires Valid(db)
    ensures SubtreeRename.UniquePaths(db.files) && References(db)
  {
  }

  lemma RowParts(db: Db, f: FileId)
    requires Valid(db) && f in db.files
    ensures db.files[f].fid == f && CacheOf(db.files[f]) == CachePathFor(f)
    ensures db.files[f].cachePath.Some? ==> db.files[f].cachePath.value == CachePathFor(f)
  {
    assert RowOk(db.files[f]);
  }

  lemma GoodRow(db: Db, f: FileId)
    requires Valid(db) && f in db.files
    ensures RowOk(db.files[f])
  {
  }

  /** One refresh of the whole tree queued, if the root is there. */
  ghost function WithRefresh(db: Db, now: int): Db {
    match RowAt(db.files, ROOT)
    case None => db
    case Some(root) => AfterCommit(db, Enqueue(db, root, RefreshTree, PathPayload(ROOT), now))
  }

  function WithRoot(db: Db): Db {
    db.(files := db.files[db.nextFile := RootRow().(fid := db.nextFile)], nextFile := db.nextFile + 1)
  }

  lemma RootedInv(db: Db)
    requires DbInv(db)
    ensures !Occupied(db.files, ROOT) ==> DbInv(WithRoot(db)) && Occupied(WithRoot(db).files, ROOT)
  {
    if !Occupied(db.files, ROOT) {
      var row := RootRow().(fid := db.nextFile);
      assert RowOk(row) by { assert LastSlash(ROOT) == 5; }
      hide RowOk;
      InsertRowValid(db, row);
      assert WithRoot(db).files[db.nextFile].path == ROOT;
    }
  }

  lemma UnlinkParts(db: Db, entry: Row, now: int)
    requires Valid(db) && entry.fid in db.files
    ensures References(SetState(db, entry.fid, QueuedDelete))
    ensures SyncSteps.Unlink(db, entry, now).Ok? && Sound(db, SyncSteps.Unlink(db, entry, now).value)
  {
    hide RowOk, Tables.UpsertOperation, Sound, QueueKept;
    UpsertSucceedsIff(SetState(db, entry.fid, QueuedDelete), entry.fid, Delete, PathPayload(entry.path), true, true, now);
    UnlinkSound(db, entry, now);
  }

  lemma EntryOk(db: Db, store: Store, entry: Row)
    requires DbInv(db) && RowOk(entry)
    ensures Valid(db) && (Metadata(store, entry.path).Some? ==> RemoteOk(Metadata(store, entry.path).value))
  {
  }

  lemma EnsuredIsValid(db: Db, remote: RemoteEntry, state: SyncState)
    requires Valid(db) && RemoteOk(remote)
    ensures var after := Tables.EnsureRemoteRow(db, remote, state); References(after) && SubtreeRename.UniquePaths(after.files)
  {
    hide RowOk, OpsOk, FilesOk, RemoteOk, ParentPathOf, NameOf, Occupied, RowAt;
    var found := RowAt(db.files, remote.path);
    var after := Tables.EnsureRemoteRow(db, remote, state).files;
    var f := if found.Some? then found.value else db.nextFile;
    assert after[f].path == remote.path;
    assert found.None? ==> forall g :: g in db.files ==> db.files[g].path != remote.path by { FreePath(db.files, remote.path); }
  }

  lemma FreePath(files: Files, path: string)
    ensures RowAt(files, path).None? ==> forall g :: g in files ==> files[g].path != path
  {
  }

  lemma SnapshotRowAt(snapshot: Files, f: FileId)
    requires SnapshotOk(snapshot) && f in snapshot
    ensures RowOk(snapshot[f])
  {
  }

  lemma SnapshotRowOk(snapshot: Files, path: string)
    requires SnapshotOk(snapshot)
    ensures LocalAt(snapshot, path).Some? ==> RowOk(LocalAt(snapshot, path).value)
  {
  }

  lemma RemotePassUnfold(db: Db, snapshot: Files, tree: RemoteTree, order: seq<string>, k: nat, now: int)
    requires k < |order| && forall p :: p in order ==> p in tree
    ensures SyncSteps.RemotePass(db, snapshot, tree, order[k..], now)
            == match SyncSteps.ReconcileRemote(db, LocalAt(snapshot, tree[order[k]].path), tree[order[k]], now)
               case Err(e) => Err(e)
               case Ok(db1) => SyncSteps.RemotePass(db1, snapshot, tree, order[k + 1..], now)
  {
    assert order[k..][1..] == order[k + 1..];
  }

  lemma LocalPassUnfold(db: Db, disk: Disk, snapshot: Files, tree: RemoteTree, order: seq<FileId>, k: nat, now: int)
    requires k < |order| && forall f :: f in order ==> f in snapshot
    ensures SyncSteps.LocalPass(db, disk, snapshot, order[k..], tree, now)
            == var o := SyncSteps.ReconcileLocal(db, disk, snapshot[order[k]], tree, now);
               match o.result
               case Err(_) => o
               case Ok(db1) => SyncSteps.LocalPass(db1, o.disk, snapshot, order[k + 1..], tree, now)
  {
    assert order[k..][1..] == order[k + 1..];
  }

  /** The first snapshot row with the path; there is at most one. */
  method FindRow(snapshot: Files, path: string) returns (found: Option<Row>)
    requires SubtreeRename.UniquePaths(snapshot)
    ensures found == LocalAt(snapshot, path)
  {
    if Occupied(snapshot, path) {
      var f :| f in snapshot && snapshot[f].path == path;
      SubtreeRename.RowAtIsUnique(snapshot, path, f);
      return Some(snapshot[f]);
    }
    return None;
  }

  lemma RootHasNoParent(to: string)
    ensures ParentPathOf(to).Some? ==> to != ROOT
  {
  }

  /** Taking the first selected row off the list is one round of the loop of updates. */
  lemma RenameRowsUnfold(original: Files, now: Files, s: set<FileId>, m: FileId, from: string, to: Destination)
    requires s <= original.Keys && original.Keys == now.Keys && m in s && forall k :: k in s ==> Precedes(original, m, k)
    ensures var row := Relocated(now[m], from, to);
            RenameRows(now, Ordered(original, s), from, to)
            == if PathTaken(now, m, row.path) then Renamed(now, false)
               else RenameRows(now[m := row], Ordered(original, s - {m}), from, to)
  {
    FirstIsUnique(original, s, m);
    var order := Ordered(original, s);
    assert order[0] == m && order[1..] == Ordered(original, s - {m});
  }

  class Service {
    var files: Files
    var ops: Ops
    var conflicts: set<ConflictRecord>
    var nextOp: nat
    var nextFile: FileId
    var disk: Disk
    var store: Store

    ghost function State(): Db
      reads this
    {
      Db(files, ops, conflicts, nextOp, nextFile)
    }

    /** A new state directory: the root row and one queued refresh. */
    constructor (remote: Store, now: int)
      ensures State() == Initial().db.(ops := map[1 := NewOp(1, 0, RefreshTree, PathPayload(ROOT), now)], nextOp := 2)
      ensures disk == map[] && store == remote && DbInv(State())
    {
      files, nextFile := map[0 := RootRow()], 1;
      ops, nextOp := map[1 := NewOp(1, 0, RefreshTree, PathPayload(ROOT), now)], 2;
      conflicts, disk, store := {}, map[], remote;
      new;
      InitialInv();
    }

    /** `open_at` on an existing state directory: a missing root row is put back, expired leases are
        recovered and a refresh is queued. */
    constructor Reopen(db: Db, cache: Disk, remote: Store, now: int)
      requires DbInv(db)
      ensures var rooted := if Occupied(db.files, ROOT) then db else WithRoot(db);
              State() == WithRefresh(RecoverLeases(rooted, now), now)
      ensures disk == cache && store == remote && DbInv(State())
    {
      files, ops, conflicts, nextOp, nextFile := db.files, db.ops, db.conflicts, db.nextOp, db.nextFile;
      disk, store := cache, remote;
      new;
      hide DbInv, Valid, RecoverLeases, WithRefresh, Sound, Tables.UpsertOperation, RowOk;
      RootedInv(db);
      if !Occupied(files, ROOT) {
        files, nextFile := files[nextFile := RootRow().(fid := nextFile)], nextFile + 1;
      }
      RecoverExpiredLeases(now);
      DbInvIsValid(State());
      ghost var before := State();
      var queued := RequestRefresh(now);
      SoundKeepsInv(before, State(), Idle);
    }

    // ---- Statements on the tables ----

    method QueryByPath(path: string) returns (found: Option<FileId>)
      requires SubtreeRename.UniquePaths(files)
      ensures found == RowAt(files, path)
    {
      if Occupied(files, path) {
        var f :| f in files && files[f].path == path;
        SubtreeRename.RowAtIsUnique(files, path, f);
        return Some(f);
      }
      return None;
    }

    method UpsertOperation(fid: FileId, opType: OpType, payload: Payload, replaceUploads: bool, replaceAll: bool, now: int)
      returns (ok: bool)
      requires References(State())
      modifies this`ops, this`nextOp
      ensures var r := Tables.UpsertOperation(old(State()), fid, opType, payload, replaceUploads, replaceAll, now);
              ok == r.Ok? && State() == AfterCommit(old(State()), r)
    {
      hide WithoutSuperseded, RunnableIds, References;
      QueueBounds.NothingSuperseded(ops, fid);
      UnknownFileHasNoOps(State(), fid, replaceUploads, replaceAll);
      RunnableAreThere(WithoutSuperseded(ops, fid, replaceUploads, replaceAll), fid, opType);
      if replaceAll || replaceUploads {
        ops := WithoutSuperseded(ops, fid, replaceUploads, replaceAll);
      }
      var ids := RunnableIds(ops, fid, opType);
      if ids != {} {
        LeastExists(ids);
        var id: nat :| id in ids && IsLeast(ids, id);
        LeastIsUnique(ids, id);
        ops := ops[id := Requeued(ops[id], payload, now)];
        return true;
      } else if fid in files {
        ops := ops[nextOp := NewOp(nextOp, fid, opType, payload, now)];
        nextOp := nextOp + 1;
        return true;
      }
      return false;
    }

    method EnsureRemoteRow(remote: RemoteEntry, state: SyncState)
      requires SubtreeRename.UniquePaths(files)
      modifies this`files, this`nextFile
      ensures State() == Tables.EnsureRemoteRow(old(State()), remote, state)
    {
      var found := QueryByPath(remote.path);
      match found
      case Some(f) =>
        files := files[f := RemoteUpdate(files[f], remote, state)];
      case None =>
        files := files[nextFile := RemoteInsert(nextFile, remote, state)];
        nextFile := nextFile + 1;
    }

    /** One UPDATE for each selected row, shorter paths first; the first violation of the unique path
        ends the loop. */
    method RenameSubtree(from: string, to: Destination) returns (ok: bool)
      modifies this`files
      ensures Renamed(files, ok) == Tables.RenameSubtree(old(files), from, to)
    {
      hide Relocated, Target, RenameRows, Ordered, SelectedIds;
      var selected := files;
      var rest := SelectedIds(files, from);
      SelectedAreKeys(files, from);
      while rest != {}
        invariant rest <= selected.Keys == files.Keys
        invariant Tables.RenameSubtree(selected, from, to) == RenameRows(files, Ordered(selected, rest), from, to)
      {
        FirstExists(selected, rest);
        var f :| f in rest && forall k :: k in rest ==> Precedes(selected, f, k);
        RenameRowsUnfold(selected, files, rest, f, from, to);
        var row := Relocated(files[f], from, to);
        if PathTaken(files, f, row.path) {
          return false;
        }
        files := files[f := row];
        rest := rest - {f};
      }
      NothingLeft(selected, files, from, to);
      return true;
    }

    // ---- Conflicts ----

    /** Runs inside a transaction: after a failure the caller rolls back. */
    method ApplyConflict(entry: Row, current: Option<string>, remote: Option<RemoteEntry>, now: int) returns (ok: bool)
      requires Valid(State()) && ROOT <= entry.path
      modifies this`files, this`ops, this`conflicts, this`nextOp, this`nextFile
      ensures var r := Tables.ApplyConflict(old(State()), entry, current, remote, now);
              ok == r.Ok? && (ok ==> State() == r.value)
    {
      hide RowOk, NextConflictPath, Tables.RenameSubtree, Tables.UpsertOperation, Tables.EnsureRemoteRow, DestinationAt;
      var next := NextConflictPath(files, entry.path);
      if next.None? { return false; }
      var copyPath := next.value;
      ConflictPathIsRooted(files, entry.path);
      RenameSound(State(), entry.path, copyPath);
      ok := RenameSubtree(entry.path, DestinationAt(copyPath));
      if !ok { return false; }
      if entry.fid in files {
        MarkedCopyValid(State(), entry.fid);
        files := files[entry.fid := MarkedAsCopy(files[entry.fid])];
      }
      ops := WithoutUnfinished(ops, entry.fid);
      UpsertSucceedsIff(State(), entry.fid, Upload, PathPayload(copyPath), false, false, now);
      ok := UpsertOperation(entry.fid, Upload, PathPayload(copyPath), false, false, now);
      if !ok { return false; }
      conflicts := conflicts + {ConflictRecord(entry.fid, entry.path, copyPath, entry.remoteVersion, current)};
      if remote.Some? {
        EnsureRemoteRow(remote.value, Synced);
      }
    }

    /** The transaction around it. */
    method HandleConflict(entry: Row, current: Option<string>, remote: Option<RemoteEntry>, now: int) returns (ok: bool)
      requires Valid(State()) && RowOk(entry) && (remote.Some? ==> RemoteOk(remote.value))
      modifies this`files, this`ops, this`conflicts, this`nextOp, this`nextFile
      ensures var r := Tables.ApplyConflict(old(State()), entry, current, remote, now);
              ok == r.Ok? && State() == AfterCommit(old(State()), r)
      ensures Sound(old(State()), State())
    {
      hide Valid, RowOk, RemoteOk, Tables.ApplyConflict, Sound;
      SoundReflexive(State());
      OkRowIsRooted(entry);
      ghost var r := Tables.ApplyConflict(State(), entry, current, remote, now);
      if r.Ok? { ApplyConflictSound(State(), entry, current, remote, now); }
      var files0, ops0, conflicts0, nextOp0, nextFile0 := files, ops, conflicts, nextOp, nextFile;
      ok := ApplyConflict(entry, current, remote, now);
      if !ok {
        files, ops, conflicts, nextOp, nextFile := files0, ops0, conflicts0, nextOp0, nextFile0;
      }
    }

    // ---- Local file operations ----

    /** `create_file` and `mkdir`: a new row with one pending operation, and for a file an empty cache
        file; or one of three errors and no change. */
    method CreateEntry(parentPath: string, name: string, kind: Kind, now: int) returns (r: Result<Row, SyncError>)
      requires Valid(State()) && ROOT <= parentPath && ChildName(name)
      modifies this`files, this`ops, this`nextOp, this`nextFile, this`disk
      ensures var parent := RowAt(old(files), parentPath);
              r == if parent.None? then Err(SyncError.NotFound)
                   else if old(files)[parent.value].kind.File? then Err(NotDir)
                   else if Occupied(old(files), Join(parentPath, name)) then Err(AlreadyExists)
                   else Ok(CreatedRow(old(nextFile), parentPath, name, kind))
      ensures r.Ok? ==> Create(old(State()), parentPath, name, kind, now) == Ok(State())
                        && disk == if kind.File? then old(disk)[CachePathFor(old(nextFile)) := []] else old(disk)
      ensures r.Err? ==> State() == old(State()) && disk == old(disk)
      ensures Sound(old(State()), State())
    {
      hide RowOk, Tables.UpsertOperation, Join, Sound;
      SoundReflexive(State());
      var parent := QueryByPath(parentPath);
      if parent.None? { return Err(SyncError.NotFound); }
      if files[parent.value].kind.File? { return Err(NotDir); }
      var row := CreatedRow(nextFile, parentPath, name, kind);
      var existing := QueryByPath(row.path);
      if existing.Some? { return Err(AlreadyExists); }
      if kind.File? { disk := disk[CachePathFor(row.fid) := []]; }
      files, nextFile := files[row.fid := row], nextFile + 1;
      UpsertSucceedsIff(State(), row.fid, if kind.File? then Upload else Mkdir, PathPayload(row.path), false, false, now);
      var ok := UpsertOperation(row.fid, if kind.File? then Upload else Mkdir, PathPayload(row.path), false, false, now);
      CreateSound(old(State()), parentPath, name, kind, now);
      return Ok(row);
    }

    /** `apply_local_file_from_staging`: the cache file becomes the staged bytes and the row waits for
        upload with the next local version. */
    method ApplyLocalFile(path: string, staged: Bytes, now: int) returns (r: Result<Row, SyncError>)
      requires Valid(State())
      modifies this`files, this`ops, this`nextOp, this`disk
      ensures var found := RowAt(old(files), path);
              if found.None? then r == Err(SyncError.NotFound) && State() == old(State()) && disk == old(disk)
              else if old(files)[found.value].kind.Directory? then r == Err(IsDir) && State() == old(State()) && disk == old(disk)
              else
                && CommitLocal(old(State()), old(files)[found.value], |staged|, now) == Ok(State())
                && found.value in files && r == Ok(files[found.value])
                && r.value == Edited(old(files)[found.value], CachePathFor(found.value), |staged|)
                && disk == old(disk)[CachePathFor(found.value) := staged]
      ensures r.Ok? ==> r.value.state == QueuedUpload && r.value.content == Hydrated && ReconcileConflicts.UploadUnfinished(State(), r.value.fid)
      ensures Sound(old(State()), State())
    {
      hide Tables.UpsertOperation, ParentPathOf, NameOf, Sound;
      SoundReflexive(State());
      var found := QueryByPath(path);
      if found.None? { return Err(SyncError.NotFound); }
      var entry := files[found.value];
      if entry.kind.Directory? { return Err(IsDir); }
      assert RowOk(entry) && entry.fid == found.value;
      disk := disk[CacheOf(entry) := staged];
      files := files[entry.fid := Edited(entry, CacheOf(entry), |staged|)];
      UpsertSucceedsIff(State(), entry.fid, Upload, PathPayload(entry.path), false, false, now);
      var ok := UpsertOperation(entry.fid, Upload, PathPayload(entry.path), false, false, now);
      LocalToRemote.EditWaitsForUpload(old(State()), found.value, |staged|, now);
      CommitLocalSound(old(State()), entry, |staged|, now);
      return Ok(files[entry.fid]);
    }

    /** `unlink`: a row the remote side does not know is dropped at once, another is hidden until its
        deletion is done; the local bytes go in either case. */
    method Unlink(path: string, expectDir: bool, now: int) returns (r: Result<(), SyncError>)
      requires Valid(State())
      modifies this`files, this`ops, this`conflicts, this`nextOp, this`disk
      ensures var found := RowAt(old(files), path);
              r == if found.None? then Err(SyncError.NotFound)
                   else if expectDir && old(files)[found.value].kind.File? then Err(NotDir)
                   else if !expectDir && old(files)[found.value].kind.Directory? then Err(IsDir)
                   else if expectDir && ListChildren(old(files), path) != {} then Err(DirectoryNotEmpty)
                   else Ok(())
      ensures r.Err? ==> State() == old(State()) && disk == old(disk)
      ensures r.Ok? ==>
                var found := RowAt(old(files), path);
                && SyncSteps.Unlink(old(State()), old(files)[found.value], now) == Ok(State())
                && disk == if old(files)[found.value].cachePath.Some? then old(disk) - {CachePathFor(found.value)} else old(disk)
      ensures Sound(old(State()), State())
    {
      hide Tables.UpsertOperation, Valid, FilesOk, OpsOk, References, SubtreeRename.UniquePaths, ListChildren, Sound;
      SoundReflexive(State());
      ValidParts(State());
      var found := QueryByPath(path);
      if found.None? { return Err(SyncError.NotFound); }
      var entry := files[found.value];
      if expectDir && entry.kind.File? { return Err(NotDir); }
      if !expectDir && entry.kind.Directory? { return Err(IsDir); }
      if entry.kind.Directory? && ListChildren(files, path) != {} { return Err(DirectoryNotEmpty); }
      RowParts(State(), found.value);
      UnlinkParts(State(), entry, now);
      if entry.remoteVersion.None? {
        files := files - {entry.fid};
        ops := map i | i in ops && ops[i].fid != entry.fid :: ops[i];
        conflicts := set c | c in conflicts && c.fid != entry.fid;
      } else {
        files := files[entry.fid := entry.(state := QueuedDelete)];
        var ok := UpsertOperation(entry.fid, Delete, PathPayload(path), true, true, now);
      }
      if entry.cachePath.Some? { disk := disk - {entry.cachePath.value}; }
      return Ok(());
    }

    /** `rename`: refuses a missing source, an existing target and a target whose parent is not a
        directory; a broken unique path ends it halfway with a database error. */
    method Rename(from: string, to: string, now: int) returns (r: Result<(), SyncError>)
      requires Valid(State()) && ROOT <= to
      modifies this`files, this`ops, this`nextOp
      ensures var source, parent := RowAt(old(files), from), ParentPathOf(to);
              if source.None? then r == Err(SyncError.NotFound) && State() == old(State())
              else if Occupied(old(files), to) then r == Err(AlreadyExists) && State() == old(State())
              else if parent.None? || !Occupied(old(files), parent.value) then r == Err(SyncError.NotFound) && State() == old(State())
              else if !SubtreeRename.DirectoryAt(old(files), parent.value) then r == Err(NotDir) && State() == old(State())
              else match RenameEntry(old(State()), old(files)[source.value], to, now)
                   case Ok(db) => r == Ok(()) && State() == db
                   case Err((db, _)) => r == Err(Database) && State() == db
      ensures var source := RowAt(old(files), from);
              r.Ok? && source.Some? && old(files)[source.value].remoteVersion.Some? && LocalToRemote.Apart(from, to) ==>
                exists i :: i in ops && ops[i].fid == source.value && ops[i].status == Pending
                            && forall t :: LocalToRemote.MovesObject(LeasedOp(ops[i], t), from, to)
      ensures Sound(old(State()), State())
    {
      hide RowOk, ParentPathOf, NameOf, Tables.RenameSubtree, Tables.UpsertOperation, Sound;
      SoundReflexive(State());
      var source := QueryByPath(from);
      if source.None? { return Err(SyncError.NotFound); }
      var entry := files[source.value];
      var existing := QueryByPath(to);
      if existing.Some? { return Err(AlreadyExists); }
      var newParent := ParentPathOf(to);
      if newParent.None? { return Err(SyncError.NotFound); }
      var parent := QueryByPath(newParent.value);
      if parent.None? { return Err(SyncError.NotFound); }
      RootHasNoParent(to);
      if files[parent.value].kind.File? { return Err(NotDir); }
      assert SubtreeRename.DirectoryAt(files, newParent.value);
      RenameEntrySound(State(), entry, to, now);
      RenameSound(State(), from, to);
      var ok := RenameSubtree(from, DestinationAt(to));
      if !ok { return Err(Database); }
      if entry.remoteVersion.Some? {
        ok := UpsertOperation(entry.fid, OpType.Rename, RenamePayload(from, to), false, false, now);
        if !ok { return Err(Database); }
      }
      if entry.remoteVersion.Some? && LocalToRemote.Apart(from, to) {
        RowParts(old(State()), source.value);
        ghost var i := LocalToRemote.RenameReachesRemote(old(State()), source.value, to, now);
      }
      return Ok(());
    }

    /** `ensure_hydrated`: bytes that are there are not fetched again, but if the row was last checked long
        ago (`stale`) and has nothing under way, a refresh is queued. `answer` is what the two remote calls
        give. */
    method EnsureHydrated(path: string, answer: Result<Bytes, RemoteError>, stale: bool, now: int) returns (r: Result<Row, SyncError>)
      requires Valid(State())
      modifies this`files, this`disk, this`ops, this`nextOp
      ensures var found := RowAt(old(files), path);
              if found.None? then r == Err(SyncError.NotFound) && State() == old(State()) && disk == old(disk)
              else
                var entry := old(files)[found.value];
                if entry.kind.Directory? then r == Err(IsDir) && State() == old(State()) && disk == old(disk)
                else if entry.cachePath.Some? && entry.cachePath.value in old(disk) then
                  && r == Ok(entry) && disk == old(disk)
                  && State() == (if stale && !Unsynced(entry.state) && !entry.state.Downloading? then WithRefresh(old(State()), now) else old(State()))
                else if answer.Err? then r == Err(Remote(answer.error)) && State() == old(State()) && disk == old(disk)
                else
                  && State() == Hydrate(old(State()), entry, |answer.value|)
                  && disk == old(disk)[CachePathFor(found.value) := answer.value]
                  && found.value in files && r == Ok(files[found.value])
      ensures Sound(old(State()), State())
      ensures r.Ok? ==> r.value.cachePath.Some? && r.value.cachePath.value in disk
    {
      hide ParentPathOf, NameOf, Sound, Tables.UpsertOperation, FilesOk, OpsOk, References, SubtreeRename.UniquePaths;
      SoundReflexive(State());
      ValidParts(State());
      var found := QueryByPath(path);
      if found.None? { return Err(SyncError.NotFound); }
      var entry := files[found.value];
      RowParts(State(), found.value);
      GoodRow(State(), found.value);
      if entry.kind.Directory? { return Err(IsDir); }
      if entry.cachePath.Some? && entry.cachePath.value in disk {
        if stale && !Unsynced(entry.state) && !entry.state.Downloading? {
          var ignored := RequestRefresh(now);
        }
        return Ok(entry);
      }
      if answer.Err? { return Err(Remote(answer.error)); }
      HydrateSound(State(), entry, |answer.value|);
      disk := disk[CacheOf(entry) := answer.value];
      files := files[entry.fid :=
        entry.(content := Hydrated, cachePath := Some(CacheOf(entry)), size := |answer.value|,
               state := if entry.state == SyncState.Placeholder then Synced else entry.state)];
      return Ok(files[entry.fid]);
    }

    /** `request_refresh`: whatever path is asked for, one refresh of the whole tree is queued. */
    method RequestRefresh(now: int) returns (r: Result<(), SyncError>)
      requires Valid(State())
      modifies this`ops, this`nextOp
      ensures var root := RowAt(files, ROOT);
              if root.None? then r == Err(SyncError.NotFound) && State() == old(State())
              else r == Ok(()) && Enqueue(old(State()), root.value, RefreshTree, PathPayload(ROOT), now) == Ok(State())
      ensures State() == WithRefresh(old(State()), now)
      ensures Sound(old(State()), State())
    {
      hide Tables.UpsertOperation, RowOk, FilesOk, Sound;
      SoundReflexive(State());
      var root := QueryByPath(ROOT);
      if root.None? { return Err(SyncError.NotFound); }
      UpsertSucceedsIff(State(), root.value, RefreshTree, PathPayload(ROOT), false, false, now);
      UpsertSound(State(), root.value, RefreshTree, PathPayload(ROOT), false, false, now);
      var ok := UpsertOperation(root.value, RefreshTree, PathPayload(ROOT), false, false, now);
      return Ok(());
    }

    // ---- The worker ----

    method RecoverExpiredLeases(now: int)
      requires DbInv(State())
      modifies this`ops
      ensures State() == RecoverLeases(old(State()), now) && DbInv(State())
      ensures forall i :: i in ops ==> !LeaseExpired(ops[i], now)
    {
      RecoverInv(State(), now);
      ops := map i | i in ops :: if LeaseExpired(ops[i], now) then Released(ops[i], now) else ops[i];
    }

    /** `lease_next_operation`: the eligible operation with the smallest id, if there is one. */
    method LeaseNextOperation(now: int) returns (job: Option<Op>)
      requires DbInv(State())
      modifies this`ops
      ensures var next := NextJob(old(ops), now);
              if next.None? then job == None && State() == old(State())
              else next.value in old(ops) && job == Some(LeasedOp(old(ops)[next.value], now)) && State() == Lease(old(State()), next.value, now)
      ensures DbInv(State()) && (job.Some? ==> HoldsJob(State(), job.value))
    {
      hide DbInv, HoldsJob;
      var ids := EligibleIds(ops, now);
      if ids == {} { return None; }
      LeastExists(ids);
      var id: nat :| id in ids && IsLeast(ids, id);
      LeastIsUnique(ids, id);
      TakeJobInv(State(), now);
      ops := ops[id := LeasedOp(ops[id], now)];
      return Some(ops[id]);
    }

    method SetFileState(fid: FileId, state: SyncState)
      modifies this`files
      ensures State() == SetState(old(State()), fid, state)
    {
      if fid in files { files := files[fid := files[fid].(state := state)]; }
    }

    method MarkJobDone(id: nat, now: int)
      modifies this`ops
      ensures State() == MarkJob(old(State()), id, Done, now)
    {
      if id in ops { ops := ops[id := ops[id].(status := Done, leaseExpiresAt := None, updatedAt := now)]; }
    }

    /** `finish_job` with a message: marks the job, then the file the job still names. */
    method FinishJob(id: nat, now: int)
      modifies this`ops, this`files
      ensures State() == FinishConflicted(old(State()), id, now)
    {
      if id in ops {
        ops := ops[id := ops[id].(status := OpStatus.Conflict, leaseExpiresAt := None, updatedAt := now)];
        SetFileState(ops[id].fid, SyncState.Conflict);
      }
    }

    method RetryOrFail(job: Op, e: RemoteError, now: int, later: int)
      modifies this`ops, this`files
      ensures State() == SyncSteps.RetryOrFail(old(State()), job, e, now, later)
      ensures FailedJobs.Failed(old(State()), State(), job, e)
    {
      FailedJobs.FailureOutcome(State(), job, e, now, later);
      if job.id in ops {
        ops := ops[job.id :=
          if Retryable(e) then RetryLater(ops[job.id], Backoff(job.retryCount), now, later)
          else ops[job.id].(status := PermanentError, leaseExpiresAt := None, updatedAt := later)];
      }
      SetFileState(job.fid, SyncState.Error);
    }

    ghost function World(): JobRuns.World
      reads this
    {
      JobRuns.World(State(), disk, store)
    }

    /** `process_upload`. The job is closed as conflicted only after the copy is made. */
    method ProcessUpload(job: Op, a: UploadAnswers, now: int) returns (ending: Ending)
      requires DbInv(State()) && HoldsJob(State(), job) && job.opType.Upload?
      modifies this
      ensures Ran(World(), ending) == JobRuns.ProcessUpload(old(World()), job, a, now)
      ensures DbInv(State())
    {
      hide DbInv, HoldsJob, RowOk, Tables.ApplyConflict, SyncSteps.RetryOrFail, FinishConflicted, SetState, UploadMarked, RemoteOk;
      UploadKeepsInv(World(), job, a, now);
      if job.fid !in files { return LeftLeased; }
      var entry := files[job.fid];
      if entry.state.Conflict? {
        FinishJob(job.id, now);
        return Closed;
      }
      if entry.cachePath.None? { return LeftLeased; }
      RowOfInv(State(), job.fid);
      BeginInv(State(), job, Uploading);
      SetFileState(job.fid, Uploading);
      ending := UploadMarkedRow(job, entry, a, now);
    }

    method UploadMarkedRow(job: Op, entry: Row, a: UploadAnswers, now: int) returns (ending: Ending)
      requires DbInv(State()) && RowOk(entry) && entry.cachePath.Some?
      modifies this
      ensures Ran(World(), ending) == UploadMarked(old(World()), job, entry, a, now)
    {
      hide DbInv, RowOk, Tables.ApplyConflict, SyncSteps.RetryOrFail, FinishConflicted, SetState, RemoteOk;
      if a.metadata.Some? && !a.metadata.value.NotFound? {
        RetryOrFail(job, a.metadata.value, now, now);
        return Closed;
      }
      var current := if a.metadata.Some? then None else Metadata(store, entry.path);
      var version := match current case Some(r) => r.version case None => None;
      if entry.remoteVersion != version {
        EntryOk(State(), store, entry);
        var ok := HandleConflict(entry, version, current, now);
        if !ok { return LeftLeased; }
        FinishJob(job.id, now);
        return Closed;
      }
      if a.link.Some? {
        RetryOrFail(job, a.link.value, now, now);
        return Closed;
      }
      if a.transfer.Some? {
        RetryOrFail(job, a.transfer.value, now, now);
        return Closed;
      }
      if entry.cachePath.value !in disk {
        RetryOrFail(job, Io, now, now);
        return Closed;
      }
      store := Put(store, entry.path, disk[entry.cachePath.value], a.version);
      if a.crash { return Crashed; }
      if a.recheck.Some? {
        RetryOrFail(job, a.recheck.value, now, now);
        return Closed;
      }
      var found := Entry(entry.path, store[entry.path]);
      if job.fid in files {
        files := files[job.fid := files[job.fid].(state := Synced, remoteVersion := found.version, size := found.size,
                                                  remoteDeleted := false)];
      }
      MarkJobDone(job.id, now);
      return Closed;
    }

    /** `process_delete`: an object that is already gone counts as deleted. */
    method ProcessDelete(job: Op, c: Call, now: int) returns (ending: Ending)
      requires DbInv(State()) && HoldsJob(State(), job)
      modifies this
      ensures Ran(World(), ending) == AtLeastOnce.ProcessDelete(old(World()), job, c, now)
      ensures DbInv(State())
    {
      hide DbInv, HoldsJob, SyncSteps.RetryOrFail, DeleteTree;
      DeleteKeepsInv(World(), job, c, now);
      if TookEffect(c) { store := DeleteTree(store, PathOf(job.payload)); }
      if !c.Answered? && !SaysMissing(c) {
        if c.Died? { return Crashed; }
        RetryOrFail(job, c.error, now, now);
        return Closed;
      }
      ops := ops - {job.id};
      files := files - {job.fid};
      ops := map i | i in ops && ops[i].fid != job.fid :: ops[i];
      conflicts := set r | r in conflicts && r.fid != job.fid;
      return Closed;
    }

    method WriteSeen(job: Op, found: Option<RemoteEntry>, now: int)
      modifies this`files, this`ops
      ensures State() == RemoteSeen(old(State()), job, found, now)
    {
      if found.Some? && job.fid in files {
        files := files[job.fid := files[job.fid].(state := Synced, remoteVersion := found.value.version)];
      }
      MarkJobDone(job.id, now);
    }

    /** `process_mkdir`: an existing object counts as made; a failed look at it afterwards leaves the
        job leased, to be recovered when the lease runs out. */
    method ProcessMkdir(job: Op, c: Call, version: Option<string>, recheck: Option<RemoteError>, now: int) returns (ending: Ending)
      requires DbInv(State()) && HoldsJob(State(), job)
      modifies this
      ensures Ran(World(), ending) == AtLeastOnce.ProcessMkdir(old(World()), job, c, version, recheck, now)
      ensures DbInv(State())
    {
      hide DbInv, HoldsJob, SyncSteps.RetryOrFail, MakeDirectory, RemoteSeen;
      MkdirKeepsInv(World(), job, c, version, recheck, now);
      if job.fid !in files { return LeftLeased; }
      var path := files[job.fid].path;
      if TookEffect(c) { store := MakeDirectory(store, path, version); }
      if !c.Answered? && !SaysExisting(c) {
        if c.Died? { return Crashed; }
        RetryOrFail(job, c.error, now, now);
        return Closed;
      }
      if recheck.Some? || path !in store { return LeftLeased; }
      WriteSeen(job, Some(Entry(path, store[path])), now);
      return Closed;
    }

    /** `process_rename`: moves the object, or only deletes the old path when the new one is there. */
    method ProcessRename(job: Op, probe: Option<RemoteError>, c: Call, stamp: map<string, string>, recheck: Option<RemoteError>, now: int)
      returns (ending: Ending)
      requires DbInv(State()) && HoldsJob(State(), job) && !Drives(job.opType)
      modifies this
      ensures Ran(World(), ending) == AtLeastOnce.ProcessRename(old(World()), job, probe, c, stamp, recheck, now)
      ensures DbInv(State())
    {
      hide DbInv, HoldsJob, SyncSteps.RetryOrFail, RemoteSeen, DeleteTree, MoveTree;
      RenameKeepsInv(World(), job, probe, c, stamp, recheck, now);
      if job.payload.PathPayload? { return LeftLeased; }
      var from, to := job.payload.oldPath, job.payload.newPath;
      if TookEffect(c) {
        if probe.None? && to in store {
          store := DeleteTree(store, from);
        } else {
          store := MoveTree(store, from, to, stamp);
        }
      }
      if !c.Answered? && !SaysMissing(c) {
        if c.Died? { return Crashed; }
        RetryOrFail(job, c.error, now, now);
        return Closed;
      }
      if recheck.Some? && !recheck.value.NotFound? { return LeftLeased; }
      WriteSeen(job, if recheck.Some? then None else Metadata(store, to), now);
      return Closed;
    }

    /** `process_download`: the remote bytes replace the cache file. */
    method ProcessDownload(job: Op, answer: Result<Bytes, RemoteError>, now: int) returns (ending: Ending)
      requires DbInv(State()) && HoldsJob(State(), job) && job.opType.Download?
      modifies this
      ensures Ran(World(), ending) == JobInvariant.ProcessDownload(old(World()), job, answer, now)
      ensures DbInv(State())
    {
      hide DbInv, HoldsJob, SyncSteps.RetryOrFail;
      DownloadKeepsInv(World(), job, answer, now);
      if job.fid !in files { return LeftLeased; }
      var entry := files[job.fid];
      SetFileState(job.fid, Downloading);
      if answer.Err? {
        RetryOrFail(job, answer.error, now, now);
        return Closed;
      }
      disk := disk[CacheOf(entry) := answer.value];
      files := files[job.fid := files[job.fid].(content := Hydrated, cachePath := Some(CacheOf(entry)), size := |answer.value|,
                                                state := Synced)];
      MarkJobDone(job.id, now);
      return Closed;
    }

    // ---- Reconciling with the remote tree ----

    /** The body of the first loop. */
    method ReconcileRemote(local: Option<Row>, remote: RemoteEntry, now: int) returns (ok: bool)
      requires Valid(State()) && RemoteOk(remote) && (local.Some? ==> RowOk(local.value))
      modifies this`files, this`ops, this`conflicts, this`nextOp, this`nextFile
      ensures var r := SyncSteps.ReconcileRemote(old(State()), local, remote, now);
              ok == r.Ok? && (ok ==> State() == r.value && Valid(State()))
    {
      hide RowOk, RemoteOk, Tables.ApplyConflict, Tables.EnsureRemoteRow, Tables.UpsertOperation, Sound;
      if SyncSteps.ReconcileRemote(State(), local, remote, now).Ok? {
        ReconcileRemoteSound(State(), local, remote, now);
        SoundIsValid(State(), SyncSteps.ReconcileRemote(State(), local, remote, now).value);
      }
      if remote.path != ROOT && local.Some? && local.value.remoteVersion != remote.version {
        if Unsynced(local.value.state) {
          OkRowIsRooted(local.value);
          ok := ApplyConflict(local.value, remote.version, Some(remote), now);
          return;
        }
        if local.value.cachePath.Some? && remote.kind.File? {
          EnsuredIsValid(State(), remote, Downloading);
          EnsureRemoteRow(remote, Downloading);
          var updated := QueryByPath(remote.path);
          if updated.Some? {
            ok := UpsertOperation(updated.value, Download, PathPayload(remote.path), false, false, now);
            return;
          }
          return true;
        }
      }
      EnsureRemoteRow(remote, Synced);
      return true;
    }

    method DropRow(fid: FileId)
      modifies this`files, this`ops, this`conflicts
      ensures State() == DeleteRow(old(State()), fid)
    {
      files := files - {fid};
      ops := map i | i in ops && ops[i].fid != fid :: ops[i];
      conflicts := set c | c in conflicts && c.fid != fid;
    }

    /** The body of the second loop. */
    method ReconcileLocal(row: Row, tree: RemoteTree, now: int) returns (ok: bool)
      requires Valid(State()) && RowOk(row)
      modifies this`files, this`ops, this`conflicts, this`nextOp, this`nextFile, this`disk
      ensures var o := SyncSteps.ReconcileLocal(old(State()), old(disk), row, tree, now);
              ok == o.result.Ok? && disk == o.disk && (ok ==> State() == o.result.value && Valid(State()))
    {
      hide RowOk, Valid, Tables.ApplyConflict, DeleteRow, IsConflictCopy, Sound;
      if SyncSteps.ReconcileLocal(State(), disk, row, tree, now).result.Ok? {
        ReconcileLocalSound(State(), disk, row, tree, now);
        SoundIsValid(State(), SyncSteps.ReconcileLocal(State(), disk, row, tree, now).result.value);
      }
      if row.path == ROOT || row.path in tree { return true; }
      if row.state.QueuedDelete? {
        DropRow(row.fid);
        return true;
      }
      if IsConflictCopy(Db(files, ops, conflicts, nextOp, nextFile), row.fid, row.path) { return true; }
      if Unsynced(row.state) {
        OkRowIsRooted(row);
        ok := ApplyConflict(row, None, None, now);
        return;
      }
      DropRow(row.fid);
      if row.cachePath.Some? { disk := disk - {row.cachePath.value}; }
      return true;
    }

    /** The first loop, in a given order of the remote objects. */
    method RemotePass(snapshot: Files, tree: RemoteTree, paths: seq<string>, now: int) returns (ok: bool)
      requires Valid(State()) && TreeOk(tree) && SnapshotOk(snapshot) && SubtreeRename.UniquePaths(snapshot)
      requires forall p :: p in paths ==> p in tree
      modifies this`files, this`ops, this`conflicts, this`nextOp, this`nextFile
      ensures var r := SyncSteps.RemotePass(old(State()), snapshot, tree, paths, now);
              ok == r.Ok? && (ok ==> State() == r.value && Valid(State()))
    {
      hide RowOk, Valid, RemoteOk, SyncSteps.ReconcileRemote, SubtreeRename.UniquePaths, SnapshotOk;
      ghost var start := State();
      assert paths[0..] == paths;
      for k := 0 to |paths|
        invariant Valid(State())
        invariant SyncSteps.RemotePass(start, snapshot, tree, paths, now) == SyncSteps.RemotePass(State(), snapshot, tree, paths[k..], now)
      {
        var remote := tree[paths[k]];
        RemotePassUnfold(State(), snapshot, tree, paths, k, now);
        var found := FindRow(snapshot, remote.path);
        SnapshotRowOk(snapshot, remote.path);
        ok := ReconcileRemote(found, remote, now);
        if !ok { return false; }
      }
      assert paths[|paths|..] == [];
      return true;
    }

    /** The second loop, in a given order of the rows of the snapshot. */
    method LocalPass(snapshot: Files, tree: RemoteTree, fids: seq<FileId>, now: int) returns (ok: bool)
      requires Valid(State()) && SnapshotOk(snapshot) && forall f :: f in fids ==> f in snapshot
      modifies this`files, this`ops, this`conflicts, this`nextOp, this`nextFile, this`disk
      ensures var o := SyncSteps.LocalPass(old(State()), old(disk), snapshot, fids, tree, now);
              ok == o.result.Ok? && disk == o.disk && (ok ==> State() == o.result.value)
    {
      hide RowOk, Valid, SyncSteps.ReconcileLocal, SnapshotOk;
      ghost var start := State();
      assert fids[0..] == fids;
      for k := 0 to |fids|
        invariant Valid(State())
        invariant SyncSteps.LocalPass(start, old(disk), snapshot, fids, tree, now) == SyncSteps.LocalPass(State(), disk, snapshot, fids[k..], tree, now)
      {
        LocalPassUnfold(State(), disk, snapshot, tree, fids, k, now);
        SnapshotRowAt(snapshot, fids[k]);
        ok := ReconcileLocal(snapshot[fids[k]], tree, now);
        if !ok { return false; }
      }
      assert fids[|fids|..] == [];
      return true;
    }

    /** `reconcile_remote_tree`, from its snapshot to its commit: one pass over the remote objects and
        one over the local rows, each in the order its collection happens to give. A failure rolls the
        tables back. The ghost results say which orders were taken. */
    method ReconcileRemoteTree(tree: RemoteTree, now: int) returns (ok: bool, ghost remoteOrder: seq<string>, ghost localOrder: seq<FileId>)
      requires Valid(State()) && TreeOk(tree)
      modifies this`files, this`ops, this`conflicts, this`nextOp, this`nextFile, this`disk
      ensures Enumerates(remoteOrder, tree.Keys) && Enumerates(localOrder, old(files).Keys)
      ensures var o := Reconcile(old(State()), old(disk), tree, remoteOrder, localOrder, now);
              ok == o.result.Ok? && disk == o.disk && State() == AfterCommit(old(State()), o.result)
    {
      hide Valid, TreeOk, SnapshotOk, SyncSteps.RemotePass, SyncSteps.LocalPass;
      var snapshot, ops0, conflicts0, nextOp0, nextFile0 := files, ops, conflicts, nextOp, nextFile;
      ValidSnapshot(State());
      ValidParts(State());
      var paths := Listed(tree.Keys);
      var fids := Listed(snapshot.Keys);
      remoteOrder, localOrder := paths, fids;
      ok := RemotePass(snapshot, tree, paths, now);
      if ok {
        ok := LocalPass(snapshot, tree, fids, now);
      }
      if !ok {
        files, ops, conflicts, nextOp, nextFile := snapshot, ops0, conflicts0, nextOp0, nextFile0;
      }
    }

    /** `process_refresh_tree` and `process_refresh_dir`; `collected` is what reading the tree gives. */
    method ProcessRefresh(job: Op, collected: Result<RemoteTree, RemoteError>, now: int)
      returns (ending: Ending, ghost remoteOrder: seq<string>, ghost localOrder: seq<FileId>)
      requires DbInv(State()) && HoldsJob(State(), job) && !Drives(job.opType) && (collected.Ok? ==> TreeOk(collected.value))
      modifies this`files, this`ops, this`conflicts, this`nextOp, this`nextFile, this`disk
      ensures collected.Err? ==> ending == LeftLeased && State() == old(State()) && disk == old(disk)
      ensures collected.Ok? ==>
                && Enumerates(remoteOrder, collected.value.Keys) && Enumerates(localOrder, old(files).Keys)
                && var o := Reconcile(old(State()), old(disk), collected.value, remoteOrder, localOrder, now);
                   && disk == o.disk && ending == (if o.result.Ok? then Closed else LeftLeased)
                   && State() == (if o.result.Ok? then MarkJob(o.result.value, job.id, Done, now) else old(State()))
      ensures DbInv(State())
    {
      hide DbInv, HoldsJob, Valid, TreeOk, Sound, Reconcile;
      if collected.Err? { return LeftLeased, [], []; }
      var tree := collected.value;
      DbInvIsValid(State());
      ghost var before, disk0 := State(), disk;
      var ok;
      ok, remoteOrder, localOrder := ReconcileRemoteTree(tree, now);
      if !ok { return LeftLeased, remoteOrder, localOrder; }
      ReconcileSound(before, disk0, tree, remoteOrder, localOrder, now);
      SoundKeepsInv(before, State(), Reconciled(job));
      EndRefreshInv(State(), job, now);
      MarkJobDone(job.id, now);
      return Closed, remoteOrder, localOrder;
    }
  }
}
