/** The steps of a reconcile for rows that do not conflict, told by their effect: one path is refreshed, or
    one vanished row is dropped. */
module QuietSteps {
  import opened Wrappers
  import opened RemotePaths
  import opened Tables
  import opened SyncSteps
  import opened TableInvariants
  import opened HelperSoundness
  import opened SyncMachine
  import SubtreeRename
  import QueueBounds

  /** A row refreshed from a remote object: same identity and content, and what it waits for stays. */
  predicate RowRefreshed(row: Row, after: Row, version: Option<string>) {
    && after.fid == row.fid && after.path == row.path && after.remoteVersion == version
    && after.localVersion == row.localVersion && after.cachePath == row.cachePath
    && (after.state.QueuedDelete? <==> row.state.QueuedDelete?)
    && (row.state.QueuedUpload? || row.state.Uploading? || row.state.Error? ==>
          after.state == row.state && after.content == row.content && after.size == row.size)
  }

  /** The file's operations are the same. */
  ghost predicate SameQueueOf(db: Db, after: Db, h: FileId) {
    forall j :: (j in db.ops && db.ops[j].fid == h) || (j in after.ops && after.ops[j].fid == h) ==>
      j in db.ops && j in after.ops && after.ops[j] == db.ops[j]
  }

  ghost predicate FilesRefreshed(files: Files, after: Files, q: string, version: Option<string>) {
    && (forall g :: g in files ==> g in after && RowRefreshed(files[g], after[g], if files[g].path == q then version else files[g].remoteVersion))
    && (forall g :: g in files && files[g].path != q ==> after[g] == files[g])
    && (forall g :: g in after && g !in files ==>
          after[g].path == q && after[g].remoteVersion == version && !after[g].state.QueuedDelete?)
    && Occupied(after, q)
  }

  /** Only the row at one path was refreshed, or a new one put there. */
  ghost predicate OnlyRefreshed(db: Db, after: Db, q: string, version: Option<string>) {
    && Valid(after) && after.conflicts == db.conflicts
    && FilesRefreshed(db.files, after.files, q, version)
    && (forall g :: g in after.files ==> g in db.files || db.nextFile <= g) && db.nextFile <= after.nextFile
    && (forall g :: g in db.files && db.files[g].path != q ==> SameQueueOf(db, after, g))
  }

  lemma EnsureRefreshes(db: Db, at: RemoteEntry, state: SyncState)
    requires Valid(db) && RemoteOk(at) && (state.Synced? || state.Downloading?)
    ensures var after := EnsureRemoteRow(db, at, state);
            after.conflicts == db.conflicts && after.ops == db.ops && FilesRefreshed(db.files, after.files, at.path, at.version)
  {
    hide Valid, ParentPathOf, NameOf;
    var after := EnsureRemoteRow(db, at, state);
    match RowAt(db.files, at.path)
    case Some(f) =>
      assert after.files[f].path == at.path;
      UniqueHere(db, f);
    case None =>
      NewIsUnused(db);
      assert after.files[db.nextFile].path == at.path;
  }

  lemma UniqueHere(db: Db, f: FileId)
    requires Valid(db) && f in db.files
    ensures forall g :: g in db.files && db.files[g].path == db.files[f].path ==> g == f
  {
  }

  lemma NewIsUnused(db: Db)
    requires Valid(db)
    ensures db.nextFile !in db.files
  {
  }

  lemma EnqueueTouchesOne(db: Db, fid: FileId, opType: OpType, payload: Payload, now: int)
    requires OpsOk(db.ops, db.nextOp) && Enqueue(db, fid, opType, payload, now).Ok?
    ensures var after := Enqueue(db, fid, opType, payload, now).value;
            && after.files == db.files && after.conflicts == db.conflicts
            && forall h :: h != fid ==> SameQueueOf(db, after, h)
  {
    QueueBounds.NothingSuperseded(db.ops, fid);
    var ids := RunnableIds(db.ops, fid, opType);
    if ids != {} { assert Least(ids) in ids; }
  }

  /** A remote object whose row, if it had one, does not conflict with it. */
  lemma QuietRemoteStep(db: Db, local: Option<Row>, at: RemoteEntry, now: int)
    requires Valid(db) && RemoteOk(at) && (local.Some? ==> RowOk(local.value))
    requires local.Some? && at.path != ROOT && Unsynced(local.value.state) ==> local.value.remoteVersion == at.version
    ensures var r := ReconcileRemote(db, local, at, now); r.Ok? && OnlyRefreshed(db, r.value, at.path, at.version)
  {
    hide RowOk, RemoteOk, ApplyConflict, EnsureRemoteRow, UpsertOperation, FilesRefreshed, SameQueueOf, Sound, Valid;
    EnsureRefreshes(db, at, Synced);
    EnsureRefreshes(db, at, Downloading);
    var r := ReconcileRemote(db, local, at, now);
    SameQueueHere(db, EnsureRemoteRow(db, at, Synced));
    if local.Some? && local.value.remoteVersion != at.version && at.path != ROOT && local.value.cachePath.Some? && at.kind.File? {
      QuietDownload(db, at, now);
    }
    ReconcileRemoteSound(db, local, at, now);
    SoundIsValid(db, r.value);
    SoundIsNew(db, r.value);
  }

  lemma SoundIsNew(db: Db, after: Db)
    requires Sound(db, after)
    ensures (forall g :: g in after.files ==> g in db.files || db.nextFile <= g) && db.nextFile <= after.nextFile
  {
  }

  /** A changed file with a cache: its row is refreshed and its download queued. */
  lemma QuietDownload(db: Db, at: RemoteEntry, now: int)
    requires Valid(db) && RemoteOk(at)
    ensures var db1 := EnsureRemoteRow(db, at, Downloading);
            var g := RowAt(db1.files, at.path);
            && g.Some? && var r := Enqueue(db1, g.value, Download, PathPayload(at.path), now);
               && r.Ok? && r.value.files == db1.files && r.value.conflicts == db1.conflicts
               && forall h :: h in db.files && db.files[h].path != at.path ==> SameQueueOf(db, r.value, h)
  {
    hide RowOk, RemoteOk, EnsureRemoteRow, UpsertOperation, RowRefreshed, SameQueueOf, OpsOk, References, FilesOk, SubtreeRename.UniquePaths;
    EnsureRefreshes(db, at, Downloading);
    EnsuredQueue(db, at);
    var db1 := EnsureRemoteRow(db, at, Downloading);
    var g := RowAt(db1.files, at.path).value;
    UpsertSucceedsIff(db1, g, Download, PathPayload(at.path), false, false, now);
    EnqueueTouchesOne(db1, g, Download, PathPayload(at.path), now);
    forall h | h in db.files && db.files[h].path != at.path
      ensures SameQueueOf(db, Enqueue(db1, g, Download, PathPayload(at.path), now).value, h)
    {
      assert h != g;
      SameQueueFrom(db, db1, Enqueue(db1, g, Download, PathPayload(at.path), now).value, h);
    }
  }

  lemma SameQueueFrom(db: Db, db1: Db, after: Db, h: FileId)
    requires db1.ops == db.ops && SameQueueOf(db1, after, h)
    ensures SameQueueOf(db, after, h)
  {
  }

  lemma SameQueueHere(db: Db, after: Db)
    requires after.ops == db.ops
    ensures forall h :: SameQueueOf(db, after, h)
  {
  }

  lemma EnsuredQueue(db: Db, at: RemoteEntry)
    requires Valid(db) && RemoteOk(at)
    ensures var after := EnsureRemoteRow(db, at, Downloading); OpsOk(after.ops, after.nextOp) && References(after)
  {
    hide RowOk, RemoteOk;
  }
}
