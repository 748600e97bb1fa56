/** What jobs that go through achieve: after an upload both sides agree, downloading what was uploaded
    gives the same bytes back, and after a conflict both versions end up on the remote side. */
module JobOutcomes {
  import opened Wrappers
  import opened RemotePaths
  import opened Tables
  import opened SyncSteps
  import opened TableInvariants
  import opened RemoteStore
  import opened SyncMachine
  import opened JobRuns
  import opened JobInvariant
  import opened ConflictCopies
  import opened UploadConflicts
  import SubtreeRename

  /** No call fails: a missing object is reported missing, and nothing else goes wrong. */
  predicate Smooth(w: World, path: string, a: UploadAnswers) {
    && (a.metadata.None? || (a.metadata == Some(NotFound) && path !in w.store))
    && a.link.None? && a.transfer.None? && a.recheck.None? && !a.crash
  }

  /** The row agrees with the remote object at its path, and its cache file holds the object's bytes. */
  predicate InSync(w: World, f: FileId) {
    && f in w.db.files
    && var row := w.db.files[f];
       && row.state.Synced? && !row.remoteDeleted && row.path in w.store
       && row.cachePath.Some? && row.cachePath.value in w.disk
       && w.store[row.path].bytes == w.disk[row.cachePath.value]
       && row.size == |w.disk[row.cachePath.value]| && row.remoteVersion == VersionAt(w.store, row.path)
  }

  /** Nothing but the file's own row and the job's entry changes in the tables. */
  predicate OnlyFileAndJob(db: Db, after: Db, f: FileId, job: nat) {
    && after.files.Keys == db.files.Keys && after.ops.Keys == db.ops.Keys && after.conflicts == db.conflicts
    && (forall g :: g in db.files && g != f ==> after.files[g] == db.files[g])
    && (forall i :: i in db.ops && i != job ==> after.ops[i] == db.ops[i])
  }

  predicate SamePlace(row: Row, after: Row) {
    after == row.(state := after.state, remoteVersion := after.remoteVersion, size := after.size, remoteDeleted := after.remoteDeleted)
  }

  /** The remote side is the same except at one path. */
  ghost predicate SameElsewhere(store: Store, after: Store, path: string) {
    forall p :: p != path ==> (p in after <==> p in store) && (p in store ==> after[p] == store[p])
  }

  lemma PutIsLocal(store: Store, path: string, bytes: Bytes, version: Option<string>)
    ensures SameElsewhere(store, Put(store, path, bytes, version), path)
    ensures path in Put(store, path, bytes, version) && Put(store, path, bytes, version)[path] == Object(File, version, bytes)
  {
  }

  /** The run of a smooth upload, call by call. */
  lemma SmoothRun(w: World, job: Op, a: UploadAnswers, now: int)
    requires job.fid in w.db.files
    requires var row := w.db.files[job.fid];
             && !row.state.Conflict? && row.cachePath.Some? && row.cachePath.value in w.disk
             && row.remoteVersion == VersionAt(w.store, row.path) && Smooth(w, row.path, a)
    ensures var row := w.db.files[job.fid];
            var store := Put(w.store, row.path, w.disk[row.cachePath.value], a.version);
            && row.path in store
            && ProcessUpload(w, job, a, now)
               == Ran(World(UploadDone(SetState(w.db, job.fid, Uploading), job, Entry(row.path, store[row.path]), now), w.disk, store), Closed)
  {
    hide ApplyConflict, RetryOrFail, FinishConflicted, SetState, UploadDone;
  }

  lemma WrittenBack(db: Db, job: Op, found: RemoteEntry, now: int)
    requires job.fid in db.files
    ensures var after := UploadDone(SetState(db, job.fid, Uploading), job, found, now);
            && OnlyFileAndJob(db, after, job.fid, job.id)
            && (job.id in db.ops ==> after.ops[job.id].status == Done)
            && job.fid in after.files
            && after.files[job.fid] == db.files[job.fid].(state := Synced, remoteVersion := found.version, size := found.size, remoteDeleted := false)
  {
  }

  /** An upload that finds the remembered version and meets no failure leaves the file in sync and its
      job done, and touches nothing else. */
  lemma UploadEndsInSync(w: World, job: Op, a: UploadAnswers, now: int)
    requires job.fid in w.db.files
    requires var row := w.db.files[job.fid];
             && !row.state.Conflict? && row.cachePath.Some? && row.cachePath.value in w.disk
             && row.remoteVersion == VersionAt(w.store, row.path) && Smooth(w, row.path, a)
    ensures var row, r := w.db.files[job.fid], ProcessUpload(w, job, a, now);
            && r.ending == Closed && InSync(r.world, job.fid) && r.world.disk == w.disk
            && OnlyFileAndJob(w.db, r.world.db, job.fid, job.id)
            && (job.id in w.db.ops ==> r.world.db.ops[job.id].status == Done)
            && SamePlace(row, r.world.db.files[job.fid]) && SameElsewhere(w.store, r.world.store, row.path)
  {
    hide ProcessUpload, UploadDone, SetState, Put, OnlyFileAndJob, SameElsewhere;
    var row := w.db.files[job.fid];
    SmoothRun(w, job, a, now);
    var store := Put(w.store, row.path, w.disk[row.cachePath.value], a.version);
    PutIsLocal(w.store, row.path, w.disk[row.cachePath.value], a.version);
    WrittenBack(w.db, job, Entry(row.path, store[row.path]), now);
    SameKeys(w.db, ProcessUpload(w, job, a, now).world.db, job.fid, job.id);
  }

  lemma SameKeys(db: Db, after: Db, f: FileId, job: nat)
    requires OnlyFileAndJob(db, after, f, job)
    ensures after.files.Keys == db.files.Keys && after.ops.Keys == db.ops.Keys
  {
  }

  lemma Installed(db: Db, job: Op, entry: Row, size: nat, now: int)
    requires job.fid in db.files
    ensures var after := DownloadDone(SetState(db, job.fid, Downloading), job, entry, size, now);
            && OnlyFileAndJob(db, after, job.fid, job.id)
            && (job.id in db.ops ==> after.ops[job.id].status == Done)
            && job.fid in after.files
            && after.files[job.fid] == db.files[job.fid].(state := Synced, content := Hydrated, cachePath := Some(CacheOf(entry)), size := size)
  {
  }

  lemma CanonicalRow(db: Db, f: FileId)
    requires Valid(db) && f in db.files
    ensures CacheOf(db.files[f]) == CachePathFor(f)
    ensures db.files[f].cachePath.Some? ==> db.files[f].cachePath.value == CachePathFor(f)
  {
    assert RowOk(db.files[f]);
  }

  /** A download that goes through leaves the remote bytes in the cache file, with the matching size. */
  lemma DownloadInstalls(w: World, job: Op, bytes: Bytes, now: int)
    requires Valid(w.db) && job.fid in w.db.files
    ensures var row, r := w.db.files[job.fid], ProcessDownload(w, job, Ok(bytes), now);
            && r.ending == Closed && r.world.store == w.store
            && r.world.disk == w.disk[CachePathFor(job.fid) := bytes]
            && OnlyFileAndJob(w.db, r.world.db, job.fid, job.id)
            && (job.id in w.db.ops ==> job.id in r.world.db.ops && r.world.db.ops[job.id].status == Done)
            && job.fid in r.world.db.files
            && r.world.db.files[job.fid] == row.(state := Synced, content := Hydrated, cachePath := Some(CachePathFor(job.fid)), size := |bytes|)
  {
    hide Valid, DownloadDone, SetState, OnlyFileAndJob, CacheOf, Failing;
    CanonicalRow(w.db, job.fid);
    Installed(w.db, job, w.db.files[job.fid], |bytes|, now);
    SameKeys(w.db, ProcessDownload(w, job, Ok(bytes), now).world.db, job.fid, job.id);
  }

  /** Downloading what an upload left remotely changes neither the cache file nor the row. */
  lemma DownloadAfterUpload(w: World, job: Op, now: int)
    requires Valid(w.db) && InSync(w, job.fid) && w.db.files[job.fid].content.Hydrated?
    ensures var bytes := w.store[w.db.files[job.fid].path].bytes;
            var r := ProcessDownload(w, job, Ok(bytes), now);
            r.world.disk == w.disk && r.world.db.files == w.db.files && InSync(r.world, job.fid)
  {
    hide Valid, ProcessDownload;
    var row := w.db.files[job.fid];
    var bytes := w.store[row.path].bytes;
    CanonicalRow(w.db, job.fid);
    DownloadInstalls(w, job, bytes, now);
    assert w.disk[CachePathFor(job.fid) := bytes] == w.disk;
    assert ProcessDownload(w, job, Ok(bytes), now).world.db.files == w.db.files;
  }

  /** A file in sync needs nothing from a reconcile with the same remote object: no conflict, no
      download, and the row keeps its content and version. */
  lemma InSyncNeedsNothing(w: World, f: FileId, now: int)
    requires Valid(w.db) && InSync(w, f) && w.db.files[f].kind.File? && w.store[w.db.files[f].path].kind.File?
    requires w.db.files[f].path != ROOT && w.db.files[f].content.Hydrated?
    ensures var row := w.db.files[f];
            ReconcileRemote(w.db, Some(row), Entry(row.path, w.store[row.path]), now) == Ok(w.db)
  {
    var row := w.db.files[f];
    assert RowOk(row);
    SubtreeRename.RowAtIsUnique(w.db.files, row.path, f);
    assert RemoteUpdate(row, Entry(row.path, w.store[row.path]), Synced) == row;
    assert w.db.files[f := row] == w.db.files;
  }

  /** From conflict to two remote versions: the upload that finds a conflict, and the later upload of the
      copy it queued, leave the foreign version at the original path and the local bytes at the copy's,
      with the copy in sync. Between the runs only queue entries may change. */
  lemma ConflictEndsWithBothRemotely(w: World, job: Op, a: UploadAnswers, again: World, job2: Op, b: UploadAnswers, now: int, later: int)
    requires Valid(w.db) && HoldsJob(w.db, job) && Conflicts(w, job.fid, a) && w.db.files[job.fid].cachePath.value in w.disk
    requires var r := ProcessUpload(w, job, a, now);
             && r.ending.Closed? && again.db.files == r.world.db.files && again.disk == r.world.disk && again.store == r.world.store
    requires job.fid in again.db.files && job2.fid == job.fid && Smooth(again, again.db.files[job.fid].path, b)
    requires again.db.files[job.fid].path !in again.store
    ensures var row, r := w.db.files[job.fid], ProcessUpload(again, job2, b, later);
            && r.ending == Closed && InSync(r.world, job.fid)
            && job.fid in r.world.db.files && r.world.db.files[job.fid].path == again.db.files[job.fid].path != row.path
            && r.world.store[r.world.db.files[job.fid].path].bytes == w.disk[row.cachePath.value]
            && (row.path in w.store ==> row.path in r.world.store && r.world.store[row.path] == w.store[row.path])
  {
    hide ProcessUpload, Valid, HoldsJob, NextConflictPath, InSync, Smooth, OnlyFileAndJob, SamePlace, SameElsewhere, SetState, ApplyConflict,
         KeptRow;
    ConflictRun(w, job, a, now);
    UploadCopyRow(w, job.fid, a, now);
    UploadEndsInSync(again, job2, b, later);
    var world := ProcessUpload(again, job2, b, later).world;
    SyncedBytes(world, job.fid);
    PlaceFacts(again.db.files[job.fid], world.db.files[job.fid]);
    ElsewhereFacts(again.store, world.store, again.db.files[job.fid].path, w.db.files[job.fid].path);
  }

  lemma PlaceFacts(row: Row, after: Row)
    requires SamePlace(row, after)
    ensures after.path == row.path && after.cachePath == row.cachePath && after.fid == row.fid
  {
  }

  lemma ElsewhereFacts(store: Store, after: Store, path: string, p: string)
    requires SameElsewhere(store, after, path) && p != path
    ensures p in store ==> p in after && after[p] == store[p]
  {
  }

  lemma SyncedBytes(w: World, f: FileId)
    requires InSync(w, f)
    ensures f in w.db.files && w.db.files[f].cachePath.Some? && w.db.files[f].cachePath.value in w.disk && w.db.files[f].path in w.store
    ensures w.store[w.db.files[f].path].bytes == w.disk[w.db.files[f].cachePath.value]
  {
  }
}
