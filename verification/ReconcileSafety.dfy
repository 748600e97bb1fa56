/** Reconciling never destroys unsynced work, whatever the remote tree and the iteration order, and
    whether the transaction commits or rolls back. */
module ReconcileSafety {
  import opened Wrappers
  import opened RemotePaths
  import opened Tables
  import opened SyncSteps
  import opened TableInvariants
  import opened HelperSoundness
  import opened SyncMachine

  /** Same identity, same local content, and still waiting to be uploaded. */
  predicate SameWork(row: Row, after: Row) {
    && after.fid == row.fid && after.localVersion == row.localVersion && after.size == row.size
    && after.content == row.content && after.cachePath == row.cachePath && Unsynced(after.state)
  }

  predicate Holds(db: Db, f: FileId, row: Row) { f in db.files && SameWork(row, db.files[f]) }

  lemma EnsureHolds(db: Db, remote: RemoteEntry, state: SyncState, f: FileId, row: Row)
    requires Valid(db) && Holds(db, f, row)
    ensures Holds(EnsureRemoteRow(db, remote, state), f, row)
  {
    hide RowOk, OpsOk, References;
    assert f < db.nextFile;
  }

  lemma ApplyConflictHolds(db: Db, entry: Row, current: Option<string>, remote: Option<RemoteEntry>, now: int, f: FileId, row: Row)
    requires Valid(db) && Holds(db, f, row) && ROOT <= entry.path && (remote.Some? ==> RemoteOk(remote.value))
    requires ApplyConflict(db, entry, current, remote, now).Ok?
    ensures Holds(ApplyConflict(db, entry, current, remote, now).value, f, row)
  {
    hide RowOk, Sound, RemoteOk, NextConflictPath, RenameSubtree, QueueKept, EnsureRemoteRow, UpsertOperation, WithoutUnfinished;
    ApplyConflictSound(db, entry, current, remote, now);
    var copyPath := NextConflictPath(db.files, entry.path).value;
    ConflictPathIsRooted(db.files, entry.path);
    RenameSound(db, entry.path, copyPath);
    CopiedSound(db, entry, copyPath, now);
    var moved := db.(files := RenameSubtree(db.files, entry.path, DestinationAt(copyPath)).files);
    assert Holds(moved, f, row);
    var db1 := MarkedCopy(moved, entry.fid);
    assert Holds(db1, f, row);
    var db2 := Copied(db, entry, copyPath, now).value;
    assert db2.files == db1.files by { EnqueueKeepsFiles(db1, entry.fid, Upload, PathPayload(copyPath), now); }
    var db3 := db2.(conflicts := db2.conflicts + {ConflictRecord(entry.fid, entry.path, copyPath, entry.remoteVersion, current)});
    ConflictRecordSound(db2, ConflictRecord(entry.fid, entry.path, copyPath, entry.remoteVersion, current)) by { SoundIsValid(db, db2); }
    SoundIsValid(db2, db3);
    if remote.Some? { EnsureHolds(db3, remote.value, Synced, f, row); }
  }

  lemma EnqueueKeepsFiles(db: Db, fid: FileId, opType: OpType, payload: Payload, now: int)
    requires Enqueue(db, fid, opType, payload, now).Ok?
    ensures Enqueue(db, fid, opType, payload, now).value.files == db.files
  {
  }

  lemma ReconcileRemoteHolds(db: Db, local: Option<Row>, remote: RemoteEntry, now: int, f: FileId, row: Row)
    requires Valid(db) && RemoteOk(remote) && (local.Some? ==> RowOk(local.value)) && Holds(db, f, row)
    requires ReconcileRemote(db, local, remote, now).Ok?
    ensures Holds(ReconcileRemote(db, local, remote, now).value, f, row)
  {
    hide RowOk, Valid, RemoteOk, ApplyConflict, EnsureRemoteRow, UpsertOperation, Holds;
    EnsureHolds(db, remote, Synced, f, row);
    EnsureHolds(db, remote, Downloading, f, row);
    var db1 := EnsureRemoteRow(db, remote, Downloading);
    if local.Some? && Unsynced(local.value.state) && ApplyConflict(db, local.value, remote.version, Some(remote), now).Ok? {
      OkRowIsRooted(local.value);
      ApplyConflictHolds(db, local.value, remote.version, Some(remote), now, f, row);
    }
    match RowAt(db1.files, remote.path)
    case Some(g) =>
      if Enqueue(db1, g, Download, PathPayload(remote.path), now).Ok? {
        EnqueueKeepsFiles(db1, g, Download, PathPayload(remote.path), now);
        SameFilesHold(db1, Enqueue(db1, g, Download, PathPayload(remote.path), now).value, f, row);
      }
    case None =>
  }

  lemma SameFilesHold(db: Db, after: Db, f: FileId, row: Row)
    requires Holds(db, f, row) && after.files == db.files
    ensures Holds(after, f, row)
  {
  }

  lemma {:induction false} RemotePassHolds(db: Db, snapshot: Files, remote: RemoteTree, order: seq<string>, now: int, f: FileId, row: Row)
    requires Valid(db) && TreeOk(remote) && SnapshotOk(snapshot) && (forall p :: p in order ==> p in remote)
    requires Holds(db, f, row) && RemotePass(db, snapshot, remote, order, now).Ok?
    ensures Holds(RemotePass(db, snapshot, remote, order, now).value, f, row)
    decreases |order|
  {
    if order != [] {
      hide RowOk, Valid, RemoteOk, ReconcileRemote, Holds, Sound;
      var r := remote[order[0]];
      ReconcileRemoteSound(db, LocalAt(snapshot, r.path), r, now);
      ReconcileRemoteHolds(db, LocalAt(snapshot, r.path), r, now, f, row);
      var db1 := ReconcileRemote(db, LocalAt(snapshot, r.path), r, now).value;
      SoundIsValid(db, db1);
      RemotePassHolds(db1, snapshot, remote, order[1..], now, f, row);
    }
  }

  predicate SameBytes(disk: Disk, after: Disk, f: FileId) {
    var p := CachePathFor(f);
    (p in after <==> p in disk) && (p in disk ==> after[p] == disk[p])
  }

  lemma DeleteOtherHolds(db: Db, g: FileId, f: FileId, row: Row)
    requires Holds(db, f, row) && f != g
    ensures Holds(DeleteRow(db, g), f, row)
  {
  }

  lemma OkRowCache(row: Row)
    requires RowOk(row)
    ensures row.cachePath.Some? ==> row.cachePath.value == CachePathFor(row.fid)
  {
  }

  /** One local row: the tracked file's own row is never deleted because its snapshot is unsynced. */
  lemma ReconcileLocalHolds(db: Db, disk: Disk, local: Row, remote: RemoteTree, now: int, f: FileId, row: Row)
    requires Valid(db) && RowOk(local) && Holds(db, f, row) && (local.fid == f ==> Unsynced(local.state))
    ensures var o := ReconcileLocal(db, disk, local, remote, now);
            (o.result.Ok? ==> Holds(o.result.value, f, row)) && SameBytes(disk, o.disk, f)
  {
    hide RowOk, Valid, ApplyConflict, IsConflictCopy, Holds, DeleteRow;
    OkRowIsRooted(local);
    OkRowCache(local);
    if local.fid != f { DeleteOtherHolds(db, local.fid, f, row); }
    if Unsynced(local.state) && ApplyConflict(db, local, None, None, now).Ok? {
      ApplyConflictHolds(db, local, None, None, now, f, row);
    }
  }

  lemma {:induction false} LocalPassHolds(db: Db, disk: Disk, snapshot: Files, order: seq<FileId>, remote: RemoteTree, now: int,
                                          f: FileId, row: Row)
    requires Valid(db) && SnapshotOk(snapshot) && (forall g :: g in order ==> g in snapshot)
    requires Holds(db, f, row) && (f in snapshot ==> Unsynced(snapshot[f].state))
    ensures var o := LocalPass(db, disk, snapshot, order, remote, now);
            (o.result.Ok? ==> Holds(o.result.value, f, row)) && SameBytes(disk, o.disk, f)
    decreases |order|
  {
    if order != [] {
      hide RowOk, Valid, ReconcileLocal, Holds, Sound;
      var local := snapshot[order[0]];
      assert local.fid == order[0];
      ReconcileLocalHolds(db, disk, local, remote, now, f, row);
      var o := ReconcileLocal(db, disk, local, remote, now);
      if o.result.Ok? {
        ReconcileLocalSound(db, disk, local, remote, now);
        SoundIsValid(db, o.result.value);
        LocalPassHolds(o.result.value, o.disk, snapshot, order[1..], remote, now, f, row);
      }
    }
  }

  /** Every row that waits to be uploaded, is being uploaded or failed to upload comes out of a
      reconcile with the same file id, local version, size, content and cache path, still unsynced,
      and with the same bytes on disk. */
  lemma ReconcileKeepsWork(run: Run, tree: RemoteTree, remoteOrder: seq<string>, localOrder: seq<FileId>, now: int, f: FileId)
    requires IsRun(run) && Enabled(Last(run), ReconcileTree(tree, remoteOrder, localOrder, now))
    requires f in Last(run).db.files && Unsynced(Last(run).db.files[f].state)
    ensures var s, after := Last(run), Apply(Last(run), ReconcileTree(tree, remoteOrder, localOrder, now));
            && f in after.db.files && SameWork(s.db.files[f], after.db.files[f])
            && SameBytes(s.disk, after.disk, f)
  {
    hide DbInv, Reconcile, Valid, TreeOk;
    ReachableInv(run);
    DbInvIsValid(Last(run).db);
    ReconcileHolds(Last(run).db, Last(run).disk, tree, remoteOrder, localOrder, now, f);
  }

  /** Committed or rolled back. */
  lemma ReconcileHolds(db: Db, disk: Disk, tree: RemoteTree, remoteOrder: seq<string>, localOrder: seq<FileId>, now: int, f: FileId)
    requires Valid(db) && TreeOk(tree) && (forall p :: p in remoteOrder ==> p in tree) && (forall g :: g in localOrder ==> g in db.files)
    requires f in db.files && Unsynced(db.files[f].state)
    ensures var o := Reconcile(db, disk, tree, remoteOrder, localOrder, now);
            Holds(AfterCommit(db, o.result), f, db.files[f]) && SameBytes(disk, o.disk, f)
  {
    hide RowOk, Valid, TreeOk, RemotePass, LocalPass, Sound;
    ValidSnapshot(db);
    var pass := RemotePass(db, db.files, tree, remoteOrder, now);
    if pass.Ok? {
      RemotePassHolds(db, db.files, tree, remoteOrder, now, f, db.files[f]);
      RemotePassSound(db, db.files, tree, remoteOrder, now);
      SoundIsValid(db, pass.value);
      LocalPassHolds(pass.value, disk, db.files, localOrder, tree, now, f, db.files[f]);
    }
  }

  /** For every valid table, every tree and every order, committed or rolled back: a row that is queued for
      upload, being uploaded or in error keeps its identity and content, stays in one of these three
      states, and its cached bytes stay where they are. */
  lemma LocalWorkSurvives(db: Db, disk: Disk, tree: RemoteTree, remoteOrder: seq<string>, localOrder: seq<FileId>, now: int, f: FileId)
    requires Valid(db) && TreeOk(tree) && (forall p :: p in remoteOrder ==> p in tree) && (forall g :: g in localOrder ==> g in db.files)
    requires f in db.files && (db.files[f].state.QueuedUpload? || db.files[f].state.Uploading? || db.files[f].state.Error?)
    ensures var row, o := db.files[f], Reconcile(db, disk, tree, remoteOrder, localOrder, now);
            var files := AfterCommit(db, o.result).files;
            && f in files && (files[f].state.QueuedUpload? || files[f].state.Uploading? || files[f].state.Error?)
            && files[f].fid == row.fid && files[f].localVersion == row.localVersion && files[f].size == row.size
            && files[f].content == row.content && files[f].cachePath == row.cachePath
            && (row.cachePath.Some? && row.cachePath.value in disk ==>
                  row.cachePath.value in o.disk && o.disk[row.cachePath.value] == disk[row.cachePath.value])
  {
    hide Valid, TreeOk, Reconcile;
    CanonicalIn(db, f);
    ReconcileHolds(db, disk, tree, remoteOrder, localOrder, now, f);
  }

  lemma CanonicalIn(db: Db, f: FileId)
    requires Valid(db) && f in db.files
    ensures db.files[f].cachePath.Some? ==> db.files[f].cachePath.value == CachePathFor(f)
  {
    assert RowOk(db.files[f]);
  }

  /** The steps that may write or remove the bytes of a file: its own edits, reads, deletion and download. */
  predicate Touches(s: Sys, e: Event, f: FileId) {
    match e
    case CommitEdit(entry, _, _) => entry.fid == f
    case HydrateEntry(entry, _) => entry.fid == f
    case UnlinkEntry(entry, _) => entry.fid == f
    case EndDownload(entry, _, _) => entry.fid == f
    case _ => false
  }

  /** In every reachable state, the bytes of an unsynced file survive every step of every thread except
      that file's own edits, first read, deletion and download. */
  lemma OthersLeaveBytesAlone(run: Run, e: Event, f: FileId)
    requires IsRun(run) && Enabled(Last(run), e) && !Touches(Last(run), e, f)
    requires f in Last(run).db.files && Unsynced(Last(run).db.files[f].state)
    ensures SameBytes(Last(run).disk, Apply(Last(run), e).disk, f)
  {
    ReachableInv(run);
    if e.ReconcileTree? {
      ReconcileKeepsWork(run, e.tree, e.remoteOrder, e.localOrder, e.now, f);
    } else {
      PlainStepBytes(Last(run), e, f);
    }
  }

  lemma SeenCache(s: Sys, entry: Row)
    requires Inv(s) && entry in s.seen
    ensures CacheOf(entry) == CachePathFor(entry.fid)
    ensures entry.cachePath.Some? ==> entry.cachePath.value == CachePathFor(entry.fid)
  {
    assert RowOk(entry);
  }

  lemma KnownFile(s: Sys, f: FileId)
    requires Inv(s) && f in s.db.files
    ensures f < s.db.nextFile
  {
  }

  lemma DiskUntouched(s: Sys, e: Event)
    requires Enabled(s, e)
    requires !e.CreateEntry? && !e.CommitEdit? && !e.HydrateEntry? && !e.UnlinkEntry? && !e.EndDownload? && !e.ReconcileTree?
    ensures Apply(s, e).disk == s.disk
  {
    hide ApplyConflict, RenameEntryDb, UpsertOperation, RemoteOk, ChildName, NextJob, RetryOrFail, UploadDone, RemoteSeen,
         FinishConflicted, DeleteDone, MarkJob, SetState, RecoverLeases, Lease, Taking;
    assert e.TakeJob? ==> Taking(s, e.now).disk == s.disk by { TakingDisk(s, e); }
  }

  lemma TakingDisk(s: Sys, e: Event)
    requires Enabled(s, e)
    ensures e.TakeJob? ==> Taking(s, e.now).disk == s.disk
  {
  }

  lemma PlainStepBytes(s: Sys, e: Event, f: FileId)
    requires Inv(s) && Enabled(s, e) && !Touches(s, e, f) && !e.ReconcileTree? && f in s.db.files
    ensures SameBytes(s.disk, Apply(s, e).disk, f)
  {
    hide Inv, ApplyConflict, Create, CommitLocal, Unlink, RenameEntryDb, Hydrate, UpsertOperation, RemoteOk, CacheOf, ChildName,
         DownloadDone;
    if e.CreateEntry? { KnownFile(s, f); }
    else if e.CommitEdit? || e.HydrateEntry? || e.UnlinkEntry? || e.EndDownload? { SeenCache(s, e.entry); }
    else { DiskUntouched(s, e); }
  }

  // ---- Which cache files a reconcile removes ----

  /** The row gives up its cache file: there is no remote object at its path, and it waits neither for an upload nor for
      its deletion. */
  predicate GivesUp(row: Row, tree: RemoteTree, c: CachePath) {
    && row.cachePath == Some(c) && row.path != ROOT && row.path !in tree
    && (row.state == SyncState.Placeholder || row.state == Synced || row.state == Downloading || row.state == SyncState.Conflict)
  }

  lemma LocalStepDisk(db: Db, disk: Disk, row: Row, tree: RemoteTree, now: int)
    ensures var o := ReconcileLocal(db, disk, row, tree, now);
            && (forall c :: c in o.disk ==> c in disk && o.disk[c] == disk[c])
            && (forall c :: c in disk && c !in o.disk ==> GivesUp(row, tree, c) && o.result.Ok? && row.fid !in o.result.value.files)
  {
    hide ApplyConflict;
  }

  lemma SoundKeepsGone(db: Db, after: Db, f: FileId)
    requires Sound(db, after) && f !in db.files && f < db.nextFile
    ensures f !in after.files && f < after.nextFile
  {
  }

  lemma {:induction false} LocalPassDisk(db: Db, disk: Disk, snapshot: Files, order: seq<FileId>, tree: RemoteTree, now: int)
    requires Valid(db) && SnapshotOk(snapshot) && (forall g :: g in order ==> g in snapshot && snapshot[g].fid == g && g < db.nextFile)
    ensures var o := LocalPass(db, disk, snapshot, order, tree, now);
            && (forall c :: c in o.disk ==> c in disk && o.disk[c] == disk[c])
            && (forall c :: c in disk && c !in o.disk ==>
                  exists g :: g in order && GivesUp(snapshot[g], tree, c) && (o.result.Ok? ==> g !in o.result.value.files))
    decreases |order|
  {
    hide ReconcileLocal, Valid, RowOk, Sound, GivesUp;
    if order != [] {
      var g, rest := order[0], order[1..];
      var first := ReconcileLocal(db, disk, snapshot[g], tree, now);
      LocalStepDisk(db, disk, snapshot[g], tree, now);
      if first.result.Ok? {
        ReconcileLocalSound(db, disk, snapshot[g], tree, now);
        SoundIsValid(db, first.result.value);
        KnownStays(db, first.result.value);
        LocalPassDisk(first.result.value, first.disk, snapshot, rest, tree, now);
        var o := LocalPass(first.result.value, first.disk, snapshot, rest, tree, now);
        forall c | c in disk && c !in o.disk
          ensures exists h :: h in order && GivesUp(snapshot[h], tree, c) && (o.result.Ok? ==> h !in o.result.value.files)
        {
          if c in first.disk {
            var h :| h in rest && GivesUp(snapshot[h], tree, c) && (o.result.Ok? ==> h !in o.result.value.files);
            assert h in order;
          } else if o.result.Ok? {
            KnownStays(db, first.result.value);
            LocalPassSound(first.result.value, first.disk, snapshot, rest, tree, now);
            SoundKeepsGone(first.result.value, o.result.value, g);
          }
        }
      }
    }
  }

  lemma KnownStays(db: Db, after: Db)
    requires Sound(db, after)
    ensures db.nextFile <= after.nextFile
  {
  }

  /** For every table, tree and order: a reconcile writes no cache file, and every cache file it removes belonged to a
      row without a remote object that waited neither for an upload nor for its deletion; if the reconcile commits,
      that row is gone. If it rolls back, the row is there again, without its bytes. */
  lemma ReconcileRemovesOnlyDropped(db: Db, disk: Disk, tree: RemoteTree, remoteOrder: seq<string>, localOrder: seq<FileId>, now: int)
    requires Valid(db) && TreeOk(tree) && (forall p :: p in remoteOrder ==> p in tree) && (forall g :: g in localOrder ==> g in db.files)
    ensures var o := Reconcile(db, disk, tree, remoteOrder, localOrder, now);
            && (forall c :: c in o.disk ==> c in disk && o.disk[c] == disk[c])
            && (forall c :: c in disk && c !in o.disk ==>
                  exists g :: g in db.files && GivesUp(db.files[g], tree, c) && (g in AfterCommit(db, o.result).files <==> o.result.Err?))
  {
    hide RowOk, Valid, TreeOk, RemotePass, LocalPass, Sound, GivesUp;
    ValidSnapshot(db);
    var pass := RemotePass(db, db.files, tree, remoteOrder, now);
    if pass.Ok? {
      RemotePassSound(db, db.files, tree, remoteOrder, now);
      SoundIsValid(db, pass.value);
      KnownStays(db, pass.value);
      OwnIds(db);
      LocalPassDisk(pass.value, disk, db.files, localOrder, tree, now);
    }
  }

  lemma OwnIds(db: Db)
    requires Valid(db)
    ensures forall g :: g in db.files ==> db.files[g].fid == g && g < db.nextFile
  {
  }
}
