/** Each table helper, and each local step built from them, takes a valid database to a valid one
    without leaving a row stuck and without letting the queue grow. */
module HelperSoundness {
  import opened Wrappers
  import opened RemotePaths
  import opened Tables
  import opened SyncSteps
  import opened TableInvariants
  import SubtreeRename

  /** What every step outside the closing of a job keeps. */
  ghost predicate Sound(db: Db, after: Db) {
    && Valid(after)
    && QueueKept(db, after)
    && DriversKept(db, after)
    && ActiveCovered(db, after)
    && db.nextFile <= after.nextFile
    && (forall f :: f in after.files ==> f in db.files || db.nextFile <= f)
  }

  lemma SoundIsValid(db: Db, after: Db)
    requires Sound(db, after)
    ensures Valid(after)
  {
  }

  lemma SoundTransitive(a: Db, b: Db, c: Db)
    requires Valid(a) && Sound(a, b) && Sound(b, c)
    ensures Sound(a, c)
  {
    QueueKeptTransitive(a, b, c);
    forall f | f in c.files && HasDriver(a.ops, f)
      ensures HasDriver(c.ops, f)
    {
      var i :| i in a.ops && Driver(a.ops[i], f);
      assert f in a.files && f < a.nextFile;
    }
  }

  lemma SoundReflexive(db: Db)
    requires Valid(db)
    ensures Sound(db, db)
  {
    SameQueueKept(db, db);
  }

  /** A change to `files` alone. */
  lemma FilesChangeSound(db: Db, files: Files, nextFile: FileId)
    requires Valid(db) && FilesOk(files, nextFile) && SubtreeRename.UniquePaths(files)
    requires db.files.Keys <= files.Keys && db.nextFile <= nextFile
    requires forall f :: f in files ==> f in db.files || db.nextFile <= f
    requires forall f :: f in files && Active(files[f].state) ==>
               (f in db.files && Active(db.files[f].state)) || HasDriver(db.ops, f)
    ensures Sound(db, db.(files := files, nextFile := nextFile))
  {
    hide RowOk;
    SameQueueKept(db, db.(files := files, nextFile := nextFile));
  }

  lemma ReplaceRowFiles(files: Files, nextFile: FileId, f: FileId, row: Row)
    requires FilesOk(files, nextFile) && SubtreeRename.UniquePaths(files) && f in files
    requires row.fid == f && row.path == files[f].path && RowOk(row)
    ensures FilesOk(files[f := row], nextFile) && SubtreeRename.UniquePaths(files[f := row])
  {
    var after := files[f := row];
    assert forall g :: g in after ==> after[g].path == files[g].path;
  }

  /** Replacing one row by one with the same id and path, no more active than before. */
  lemma ReplaceRowSound(db: Db, f: FileId, row: Row)
    requires Valid(db) && f in db.files
    requires row.fid == f && row.path == db.files[f].path && RowOk(row)
    requires Active(row.state) ==> Active(db.files[f].state) || HasDriver(db.ops, f)
    ensures Sound(db, db.(files := db.files[f := row]))
  {
    hide RowOk;
    ReplaceRowFiles(db.files, db.nextFile, f, row);
    FilesChangeSound(db, db.files[f := row], db.nextFile);
  }

  lemma InsertRowFiles(files: Files, nextFile: FileId, row: Row)
    requires FilesOk(files, nextFile) && SubtreeRename.UniquePaths(files)
    requires row.fid == nextFile && RowOk(row) && !Occupied(files, row.path)
    ensures FilesOk(files[row.fid := row], nextFile + 1) && SubtreeRename.UniquePaths(files[row.fid := row])
    ensures files.Keys <= files[row.fid := row].Keys
  {
    var after := files[row.fid := row];
    forall g | g in after
      ensures g < nextFile + 1 && after[g].fid == g && RowOk(after[g])
    {
      assert g == row.fid || after[g] == files[g];
    }
    forall g, h | g in after && h in after && after[g].path == after[h].path
      ensures g == h
    {
      assert forall k :: k in files ==> files[k].path != row.path;
    }
  }

  lemma InsertRowValid(db: Db, row: Row)
    requires Valid(db) && row.fid == db.nextFile && RowOk(row) && !Occupied(db.files, row.path)
    ensures Valid(db.(files := db.files[row.fid := row], nextFile := db.nextFile + 1))
  {
    InsertRowFiles(db.files, db.nextFile, row);
  }

  lemma InsertRowSound(db: Db, row: Row)
    requires Valid(db) && row.fid == db.nextFile && RowOk(row) && !Occupied(db.files, row.path)
    requires !Active(row.state)
    ensures Sound(db, db.(files := db.files[row.fid := row], nextFile := db.nextFile + 1))
  {
    hide RowOk;
    InsertRowFiles(db.files, db.nextFile, row);
    FilesChangeSound(db, db.files[row.fid := row], db.nextFile + 1);
  }

  lemma UpsertSound(db: Db, fid: FileId, opType: OpType, payload: Payload, uploads: bool, all: bool, now: int)
    requires Valid(db) && ((uploads || all) ==> Drives(opType))
    requires UpsertOperation(db, fid, opType, payload, uploads, all, now).Ok?
    ensures Sound(db, UpsertOperation(db, fid, opType, payload, uploads, all, now).value)
  {
    UpsertKeepsQueue(db, fid, opType, payload, uploads, all, now);
    UpsertKeepsTables(db, fid, opType, payload, uploads, all, now);
    UpsertKeepsDrivers(db, fid, opType, payload, uploads, all, now);
  }

  lemma DeleteRowSound(db: Db, fid: FileId)
    requires Valid(db)
    ensures Sound(db, DeleteRow(db, fid))
  {
    hide RowOk;
    var after := DeleteRow(db, fid);
    FewerOps(db.ops, after.ops);
    forall f | f in after.files && HasDriver(db.ops, f)
      ensures HasDriver(after.ops, f)
    {
      var i :| i in db.ops && Driver(db.ops[i], f);
      assert i in after.ops && Driver(after.ops[i], f);
    }
    assert after.files.Keys <= db.files.Keys;
  }

  lemma RemoteRowIsOk(row: Row, fid: FileId, remote: RemoteEntry, state: SyncState)
    requires RemoteOk(remote) && !state.Conflict?
    ensures RowOk(RemoteInsert(fid, remote, state))
    ensures RowOk(row) && row.path == remote.path ==> RowOk(RemoteUpdate(row, remote, state))
  {
  }

  lemma EnsureRemoteRowSound(db: Db, remote: RemoteEntry, state: SyncState)
    requires Valid(db) && RemoteOk(remote) && state.Synced?
    ensures Sound(db, EnsureRemoteRow(db, remote, state))
  {
    hide RowOk;
    match RowAt(db.files, remote.path)
    case Some(f) =>
      RemoteRowIsOk(db.files[f], f, remote, state);
      ReplaceRowSound(db, f, RemoteUpdate(db.files[f], remote, state));
    case None =>
      var row := RemoteInsert(db.nextFile, remote, state);
      RemoteRowIsOk(row, db.nextFile, remote, state);
      InsertRowSound(db, row);
  }

  /** Refreshing a changed, cached file: the row may become active because its download is queued. */
  lemma RefreshCachedSound(db: Db, f: FileId, remote: RemoteEntry, payload: Payload, now: int)
    requires Valid(db) && RemoteOk(remote) && RowAt(db.files, remote.path) == Some(f)
    ensures var db1 := EnsureRemoteRow(db, remote, Downloading);
            && RowAt(db1.files, remote.path) == Some(f)
            && Enqueue(db1, f, Download, payload, now).Ok?
            && Sound(db, Enqueue(db1, f, Download, payload, now).value)
  {
    hide RowOk, QueueKept, UpsertOperation;
    var row := RemoteUpdate(db.files[f], remote, Downloading);
    RemoteRowIsOk(db.files[f], f, remote, Downloading);
    ReplaceRowFiles(db.files, db.nextFile, f, row);
    var db1 := EnsureRemoteRow(db, remote, Downloading);
    assert db1 == db.(files := db.files[f := row]);
    assert Valid(db1) && db1.files[f].path == remote.path;
    UpsertSucceedsIff(db1, f, Download, payload, false, false, now);
    UpsertSound(db1, f, Download, payload, false, false, now);
    UpsertKeepsDrivers(db1, f, Download, payload, false, false, now);
    UpsertKeepsTables(db1, f, Download, payload, false, false, now);
    SameQueueKept(db, db1);
    var after := Enqueue(db1, f, Download, payload, now).value;
    QueueKeptTransitive(db, db1, after);
  }

  // ---- Renaming and conflict copies ----

  lemma DestinationIsCoherent(path: string)
    requires ROOT <= path && path != ROOT
    ensures SubtreeRename.Coherent(DestinationAt(path))
  {
    ParentStaysRooted(path);
  }

  lemma RelocatedIsOk(row: Row, from: string, path: string)
    requires RowOk(row) && ROOT <= path && path != ROOT
    ensures RowOk(Relocated(row, from, DestinationAt(path)))
  {
    DestinationIsCoherent(path);
    assert path <= Target(from, path, row.path);
  }

  predicate OnlyMoved(row: Row, after: Row) {
    row == after.(path := row.path, parentPath := row.parentPath, name := row.name)
  }

  lemma RenamedRows(db: Db, from: string, path: string)
    requires Valid(db) && ROOT <= path && path != ROOT
    ensures var files := RenameSubtree(db.files, from, DestinationAt(path)).files;
            && files.Keys == db.files.Keys && SubtreeRename.UniquePaths(files)
            && forall f :: f in files ==> RowOk(files[f]) && OnlyMoved(db.files[f], files[f])
  {
    hide RowOk, OpsOk, References, DestinationAt;
    var order, to := Ordered(db.files, SelectedIds(db.files, from)), DestinationAt(path);
    SubtreeRename.RenameRowsEffect(db.files, order, from, to);
    var files := RenameSubtree(db.files, from, to).files;
    hide RenameRows, SubtreeRename.UniquePaths, Ordered, SelectedIds;
    forall f | f in files
      ensures RowOk(files[f]) && OnlyMoved(db.files[f], files[f])
    {
      RelocatedIsOk(db.files[f], from, path);
      RelocatedOnlyMoves(db.files[f], from, to);
    }
  }

  lemma RelocatedOnlyMoves(row: Row, from: string, to: Destination)
    ensures OnlyMoved(row, Relocated(row, from, to)) && OnlyMoved(row, row)
  {
  }

  lemma MovedFilesOk(files: Files, after: Files, nextFile: FileId)
    requires FilesOk(files, nextFile) && after.Keys == files.Keys
    requires forall f :: f in after ==> RowOk(after[f]) && OnlyMoved(files[f], after[f])
    ensures FilesOk(after, nextFile)
    ensures forall f :: f in after ==> after[f].state == files[f].state
  {
    hide RowOk;
  }

  /** A rename, finished or not, keeps the tables valid and changes path columns only. */
  lemma RenameSound(db: Db, from: string, path: string)
    requires Valid(db) && ROOT <= path && path != ROOT
    ensures var files := RenameSubtree(db.files, from, DestinationAt(path)).files;
            && files.Keys == db.files.Keys
            && (forall f :: f in files ==> OnlyMoved(db.files[f], files[f]))
            && Sound(db, db.(files := files))
  {
    hide RowOk, OnlyMoved, FilesOk, Sound, RenameSubtree, SubtreeRename.UniquePaths;
    var files := RenameSubtree(db.files, from, DestinationAt(path)).files;
    RenamedRows(db, from, path);
    MovedFilesOk(db.files, files, db.nextFile);
    FilesChangeSound(db, files, db.nextFile);
  }

  lemma ConflictPathIsRooted(files: Files, path: string)
    requires ROOT <= path && NextConflictPath(files, path).Some?
    ensures ROOT <= NextConflictPath(files, path).value && NextConflictPath(files, path).value != ROOT
  {
    if path != ROOT { ParentStaysRooted(path); }
  }

  lemma CancelSound(db: Db, fid: FileId)
    requires Valid(db)
    ensures var ops := WithoutUnfinished(db.ops, fid);
            && QueueKept(db, db.(ops := ops))
            && OpsOk(ops, db.nextOp)
            && forall f :: f != fid && HasDriver(db.ops, f) ==> HasDriver(ops, f)
  {
    var ops := WithoutUnfinished(db.ops, fid);
    FewerOps(db.ops, ops);
    forall f | f != fid && HasDriver(db.ops, f)
      ensures HasDriver(ops, f)
    {
      var i :| i in db.ops && Driver(db.ops[i], f);
      assert Driver(ops[i], f);
    }
  }

  /** The conflict copy before the remote row is put back: row moved and queued, old work dropped. */
  ghost function Copied(db: Db, entry: Row, copyPath: string, now: int): Result<Db, SqlError>
    requires entry.fid in db.files
  {
    var files := RenameSubtree(db.files, entry.path, DestinationAt(copyPath)).files;
    Enqueue(db.(files := files[entry.fid := MarkedAsCopy(files[entry.fid])], ops := WithoutUnfinished(db.ops, entry.fid)),
            entry.fid, Upload, PathPayload(copyPath), now)
  }

  function MarkedCopy(moved: Db, fid: FileId): Db
    requires fid in moved.files
  {
    moved.(files := moved.files[fid := MarkedAsCopy(moved.files[fid])], ops := WithoutUnfinished(moved.ops, fid))
  }

  lemma MarkedCopyValid(moved: Db, fid: FileId)
    requires Valid(moved) && fid in moved.files
    ensures Valid(MarkedCopy(moved, fid))
  {
    hide ParentPathOf, NameOf;
    var row := MarkedAsCopy(moved.files[fid]);
    assert RowOk(row);
    hide RowOk;
    ReplaceRowFiles(moved.files, moved.nextFile, fid, row);
  }

  lemma MarkedCopyQueued(moved: Db, fid: FileId, payload: Payload, now: int)
    requires Valid(moved) && fid in moved.files
    ensures var r := Enqueue(MarkedCopy(moved, fid), fid, Upload, payload, now);
            r.Ok? && Sound(moved, r.value) && r.value.files.Keys == moved.files.Keys
  {
    hide RowOk, QueueKept, UpsertOperation, WithoutUnfinished;
    var db1 := MarkedCopy(moved, fid);
    MarkedCopyValid(moved, fid);
    CancelSound(moved, fid);
    UpsertSucceedsIff(db1, fid, Upload, payload, false, false, now);
    UpsertSound(db1, fid, Upload, payload, false, false, now);
    UpsertKeepsDrivers(db1, fid, Upload, payload, false, false, now);
    UpsertKeepsTables(db1, fid, Upload, payload, false, false, now);
    QueueKeptTransitive(moved, db1, Enqueue(db1, fid, Upload, payload, now).value);
  }

  lemma CopiedSound(db: Db, entry: Row, copyPath: string, now: int)
    requires Valid(db) && ROOT <= copyPath && copyPath != ROOT && entry.fid in db.files
    ensures Copied(db, entry, copyPath, now).Ok? && Sound(db, Copied(db, entry, copyPath, now).value)
    ensures Copied(db, entry, copyPath, now).value.files.Keys == db.files.Keys
  {
    hide RowOk;
    var moved := db.(files := RenameSubtree(db.files, entry.path, DestinationAt(copyPath)).files);
    RenameSound(db, entry.path, copyPath);
    MarkedCopyQueued(moved, entry.fid, PathPayload(copyPath), now);
    assert Copied(db, entry, copyPath, now) == Enqueue(MarkedCopy(moved, entry.fid), entry.fid, Upload, PathPayload(copyPath), now);
    hide Sound, Enqueue, MarkedCopy;
    SoundTransitive(db, moved, Copied(db, entry, copyPath, now).value);
  }

  lemma ConflictRecordSound(db: Db, record: ConflictRecord)
    requires Valid(db) && record.fid in db.files
    ensures Sound(db, db.(conflicts := db.conflicts + {record}))
  {
    SameQueueKept(db, db.(conflicts := db.conflicts + {record}));
  }

  lemma ApplyConflictSound(db: Db, entry: Row, current: Option<string>, remote: Option<RemoteEntry>, now: int)
    requires Valid(db) && ROOT <= entry.path && (remote.Some? ==> RemoteOk(remote.value))
    requires ApplyConflict(db, entry, current, remote, now).Ok?
    ensures Sound(db, ApplyConflict(db, entry, current, remote, now).value)
    ensures entry.fid in db.files
  {
    var copyPath := NextConflictPath(db.files, entry.path).value;
    ConflictPathIsRooted(db.files, entry.path);
    CopiedSound(db, entry, copyPath, now);
    var db2 := Copied(db, entry, copyPath, now).value;
    var record := ConflictRecord(entry.fid, entry.path, copyPath, entry.remoteVersion, current);
    ConflictRecordSound(db2, record);
    var db3 := db2.(conflicts := db2.conflicts + {record});
    SoundTransitive(db, db2, db3);
    if remote.Some? {
      EnsureRemoteRowSound(db3, remote.value, Synced);
      SoundTransitive(db, db3, EnsureRemoteRow(db3, remote.value, Synced));
    }
  }

  // ---- Local steps ----

  lemma CreateSound(db: Db, parentPath: string, name: string, kind: Kind, now: int)
    requires Valid(db) && ROOT <= parentPath && ChildName(name)
    requires Create(db, parentPath, name, kind, now).Ok?
    ensures Sound(db, Create(db, parentPath, name, kind, now).value)
  {
    hide QueueKept, UpsertOperation, LastSlash;
    var row := CreatedRow(db.nextFile, parentPath, name, kind);
    JoinThenSplit(parentPath, name);
    var db1 := db.(files := db.files[row.fid := row], nextFile := db.nextFile + 1);
    InsertRowValid(db, row);
    SameQueueKept(db, db1);
    var opType := if kind.File? then Upload else Mkdir;
    UpsertSound(db1, row.fid, opType, PathPayload(row.path), false, false, now);
    UpsertKeepsDrivers(db1, row.fid, opType, PathPayload(row.path), false, false, now);
    UpsertKeepsTables(db1, row.fid, opType, PathPayload(row.path), false, false, now);
    QueueKeptTransitive(db, db1, Create(db, parentPath, name, kind, now).value);
  }

  lemma CommitLocalSound(db: Db, entry: Row, size: nat, now: int)
    requires Valid(db) && RowOk(entry)
    requires CommitLocal(db, entry, size, now).Ok?
    ensures Sound(db, CommitLocal(db, entry, size, now).value)
  {
    hide QueueKept, UpsertOperation, ParentPathOf, NameOf;
    var f := entry.fid;
    var row := Edited(db.files[f], CacheOf(entry), size);
    ReplaceRowFiles(db.files, db.nextFile, f, row);
    var db1 := db.(files := db.files[f := row]);
    assert Valid(db1);
    SameQueueKept(db, db1);
    UpsertSound(db1, f, Upload, PathPayload(entry.path), false, false, now);
    UpsertKeepsDrivers(db1, f, Upload, PathPayload(entry.path), false, false, now);
    UpsertKeepsTables(db1, f, Upload, PathPayload(entry.path), false, false, now);
    QueueKeptTransitive(db, db1, CommitLocal(db, entry, size, now).value);
  }

  lemma UnlinkSound(db: Db, entry: Row, now: int)
    requires Valid(db) && Unlink(db, entry, now).Ok?
    ensures Sound(db, Unlink(db, entry, now).value)
  {
    hide QueueKept, UpsertOperation, RowOk, SetState, DriversKept, ActiveCovered, HasDriver;
    var f := entry.fid;
    if entry.remoteVersion.None? {
      DeleteRowSound(db, f);
    } else {
      var db1 := SetState(db, f, QueuedDelete);
      MarkedForDeletion(db, f);
      SameQueueKept(db, db1);
      UpsertSound(db1, f, Delete, PathPayload(entry.path), true, true, now);
      UpsertKeepsDrivers(db1, f, Delete, PathPayload(entry.path), true, true, now);
      UpsertKeepsTables(db1, f, Delete, PathPayload(entry.path), true, true, now);
      DeletionIsCovered(db, Unlink(db, entry, now).value, f);
      QueueKeptTransitive(db, db1, Unlink(db, entry, now).value);
    }
  }

  lemma MarkedForDeletion(db: Db, f: FileId)
    requires Valid(db)
    ensures var db1 := SetState(db, f, QueuedDelete);
            Valid(db1) && db1.files.Keys == db.files.Keys && db1 == db.(files := db1.files)
  {
    hide ParentPathOf, NameOf;
    if f in db.files {
      var row := db.files[f].(state := QueuedDelete);
      assert RowOk(row);
      hide RowOk;
      ReplaceRowFiles(db.files, db.nextFile, f, row);
    }
  }

  lemma DeletionIsCovered(db: Db, after: Db, f: FileId)
    requires after.files == SetState(db, f, QueuedDelete).files
    requires f in db.files ==> HasDriver(after.ops, f)
    requires forall g :: HasDriver(db.ops, g) ==> HasDriver(after.ops, g)
    ensures DriversKept(db, after) && ActiveCovered(db, after)
  {
    hide HasDriver;
  }

  ghost function RenameEntryDb(db: Db, entry: Row, to: string, now: int): Db {
    match RenameEntry(db, entry, to, now) case Ok(d) => d case Err((d, _)) => d
  }

  lemma RenameEntrySound(db: Db, entry: Row, to: string, now: int)
    requires Valid(db) && ROOT <= to && to != ROOT
    ensures Sound(db, RenameEntryDb(db, entry, to, now))
  {
    RenameSound(db, entry.path, to);
    var renamed := RenameSubtree(db.files, entry.path, DestinationAt(to));
    var db1 := db.(files := renamed.files);
    if renamed.ok && entry.remoteVersion.Some? {
      var payload := RenamePayload(entry.path, to);
      if Enqueue(db1, entry.fid, Rename, payload, now).Ok? {
        UpsertSound(db1, entry.fid, Rename, payload, false, false, now);
        SoundTransitive(db, db1, RenameEntryDb(db, entry, to, now));
      }
    }
  }

  lemma HydrateSound(db: Db, entry: Row, size: nat)
    requires Valid(db) && RowOk(entry)
    ensures Sound(db, Hydrate(db, entry, size))
  {
    if entry.fid in db.files {
      ReplaceRowSound(db, entry.fid, Hydrate(db, entry, size).files[entry.fid]);
    } else {
      SoundReflexive(db);
    }
  }

  // ---- Reconciling ----

  lemma ReconcileRemoteSound(db: Db, local: Option<Row>, remote: RemoteEntry, now: int)
    requires Valid(db) && RemoteOk(remote) && (local.Some? ==> RowOk(local.value))
    requires ReconcileRemote(db, local, remote, now).Ok?
    ensures Sound(db, ReconcileRemote(db, local, remote, now).value)
  {
    if remote.path == ROOT || local.None? || local.value.remoteVersion == remote.version {
      EnsureRemoteRowSound(db, remote, Synced);
    } else if Unsynced(local.value.state) {
      ApplyConflictSound(db, local.value, remote.version, Some(remote), now);
    } else if local.value.cachePath.Some? && remote.kind.File? {
      match RowAt(db.files, remote.path)
      case Some(f) => RefreshCachedSound(db, f, remote, PathPayload(remote.path), now);
      case None => InsertedDownloadSound(db, remote, now);
    } else {
      EnsureRemoteRowSound(db, remote, Synced);
    }
  }

  /** The row a snapshot saw has moved away meanwhile: a new row is inserted and its download queued. */
  lemma InsertedDownloadSound(db: Db, remote: RemoteEntry, now: int)
    requires Valid(db) && RemoteOk(remote) && RowAt(db.files, remote.path).None?
    ensures var db1 := EnsureRemoteRow(db, remote, Downloading);
            var f := db.nextFile;
            && RowAt(db1.files, remote.path) == Some(f)
            && Enqueue(db1, f, Download, PathPayload(remote.path), now).Ok?
            && Sound(db, Enqueue(db1, f, Download, PathPayload(remote.path), now).value)
  {
    var f := db.nextFile;
    hide RowOk, QueueKept, UpsertOperation;
    var row := RemoteInsert(f, remote, Downloading);
    var db1 := EnsureRemoteRow(db, remote, Downloading);
    RemoteRowIsOk(row, f, remote, Downloading);
    InsertRowValid(db, row);
    assert f in db1.files && db1.files[f].path == remote.path;
    assert Occupied(db1.files, remote.path);
    var payload := PathPayload(remote.path);
    UpsertSucceedsIff(db1, f, Download, payload, false, false, now);
    UpsertSound(db1, f, Download, payload, false, false, now);
    UpsertKeepsDrivers(db1, f, Download, payload, false, false, now);
    UpsertKeepsTables(db1, f, Download, payload, false, false, now);
    SameQueueKept(db, db1);
    QueueKeptTransitive(db, db1, Enqueue(db1, f, Download, payload, now).value);
  }

  predicate TreeOk(remote: RemoteTree) {
    Keyed(remote) && forall p :: p in remote ==> RemoteOk(remote[p])
  }

  predicate SnapshotOk(snapshot: Files) { forall f :: f in snapshot ==> snapshot[f].fid == f && RowOk(snapshot[f]) }

  lemma ValidSnapshot(db: Db)
    requires Valid(db)
    ensures SnapshotOk(db.files)
  {
  }

  lemma {:induction false} RemotePassSound(db: Db, snapshot: Files, remote: RemoteTree, order: seq<string>, now: int)
    requires Valid(db) && TreeOk(remote) && SnapshotOk(snapshot) && forall p :: p in order ==> p in remote
    requires RemotePass(db, snapshot, remote, order, now).Ok?
    ensures Sound(db, RemotePass(db, snapshot, remote, order, now).value)
    decreases |order|
  {
    if order == [] {
      SoundReflexive(db);
    } else {
      var r := remote[order[0]];
      ReconcileRemoteSound(db, LocalAt(snapshot, r.path), r, now);
      var db1 := ReconcileRemote(db, LocalAt(snapshot, r.path), r, now).value;
      RemotePassSound(db1, snapshot, remote, order[1..], now);
      SoundTransitive(db, db1, RemotePass(db1, snapshot, remote, order[1..], now).value);
    }
  }

  lemma OkRowIsRooted(row: Row)
    requires RowOk(row)
    ensures ROOT <= row.path
  {
  }

  lemma ReconcileLocalSound(db: Db, disk: Disk, row: Row, remote: RemoteTree, now: int)
    requires Valid(db) && RowOk(row)
    requires ReconcileLocal(db, disk, row, remote, now).result.Ok?
    ensures Sound(db, ReconcileLocal(db, disk, row, remote, now).result.value)
  {
    hide RowOk, Sound, Valid, ApplyConflict, DeleteRow, IsConflictCopy;
    SoundReflexive(db);
    DeleteRowSound(db, row.fid);
    OkRowIsRooted(row);
    if Unsynced(row.state) && ApplyConflict(db, row, None, None, now).Ok? {
      ApplyConflictSound(db, row, None, None, now);
    }
  }

  lemma {:induction false} LocalPassSound(db: Db, disk: Disk, snapshot: Files, order: seq<FileId>, remote: RemoteTree, now: int)
    requires Valid(db) && SnapshotOk(snapshot) && forall f :: f in order ==> f in snapshot
    requires LocalPass(db, disk, snapshot, order, remote, now).result.Ok?
    ensures Sound(db, LocalPass(db, disk, snapshot, order, remote, now).result.value)
    decreases |order|
  {
    if order == [] {
      SoundReflexive(db);
    } else {
      var o := ReconcileLocal(db, disk, snapshot[order[0]], remote, now);
      ReconcileLocalSound(db, disk, snapshot[order[0]], remote, now);
      LocalPassSound(o.result.value, o.disk, snapshot, order[1..], remote, now);
      SoundTransitive(db, o.result.value, LocalPass(db, disk, snapshot, order, remote, now).result.value);
    }
  }

  lemma ReconcileSound(db: Db, disk: Disk, remote: RemoteTree, remoteOrder: seq<string>, localOrder: seq<FileId>, now: int)
    requires Valid(db) && TreeOk(remote)
    requires forall p :: p in remoteOrder ==> p in remote
    requires forall f :: f in localOrder ==> f in db.files
    ensures Sound(db, AfterCommit(db, Reconcile(db, disk, remote, remoteOrder, localOrder, now).result))
  {
    var pass := RemotePass(db, db.files, remote, remoteOrder, now);
    SoundReflexive(db);
    if pass.Ok? {
      RemotePassSound(db, db.files, remote, remoteOrder, now);
      var o := LocalPass(pass.value, disk, db.files, localOrder, remote, now);
      if o.result.Ok? {
        LocalPassSound(pass.value, disk, db.files, localOrder, remote, now);
        SoundTransitive(db, pass.value, o.result.value);
      }
    }
  }
}
