/** Which answers of the remote side complete a job, and what a failing one leaves: the row in error, the
    operation to be retried or given up, and nothing lost. */
module FailedJobs {
  import opened Wrappers
  import opened RemotePaths
  import opened Tables
  import opened SyncSteps
  import opened TableInvariants
  import opened RemoteStore
  import opened SyncMachine
  import opened JobRuns
  import opened AtLeastOnce
  import opened JobInvariant
  import opened JobOutcomes
  import opened UploadConflicts
  import opened HelperSoundness
  import ReconcileSafety

  // ---- What a failure leaves ----

  /** The row is in error and otherwise unchanged, the operation waits for a retry after an authorization,
      transport or status error and is given up after any other, and nothing else has changed. */
  predicate Failed(db: Db, after: Db, job: Op, e: RemoteError) {
    && OnlyFileAndJob(db, after, job.fid, job.id)
    && (job.fid in db.files ==> after.files[job.fid] == db.files[job.fid].(state := SyncState.Error))
    && (job.id in db.ops ==>
          if e == Unauthorized || e == Forbidden || e == Http || e == RemoteError.Status then after.ops[job.id].status == RetryableError
          else after.ops[job.id].status == PermanentError)
  }

  lemma FailureOutcome(db: Db, job: Op, e: RemoteError, now: int, later: int)
    ensures Failed(db, RetryOrFail(db, job, e, now, later), job, e)
  {
  }

  /** The same from the row as it was before the job marked it. */
  lemma MarkedFailure(db: Db, job: Op, state: SyncState, e: RemoteError, now: int)
    ensures Failed(db, RetryOrFail(SetState(db, job.fid, state), job, e, now, now), job, e)
  {
    hide RetryOrFail;
    FailureOutcome(SetState(db, job.fid, state), job, e, now, now);
  }

  /** The call of an upload that fails, in the order of the calls. */
  predicate UploadFailsWith(w: World, row: Row, a: UploadAnswers, e: RemoteError)
    requires row.cachePath.Some?
  {
    || (a.metadata == Some(e) && e != NotFound)
    || ((a.metadata.None? || a.metadata == Some(NotFound))
        && row.remoteVersion == VersionAt(w.store, row.path)
        && (|| a.link == Some(e)
            || (a.link.None? && a.transfer == Some(e))
            || (a.link.None? && a.transfer.None? && row.cachePath.value !in w.disk && e == Io)
            || (a.link.None? && a.transfer.None? && row.cachePath.value in w.disk && !a.crash && a.recheck == Some(e))))
  }

  lemma UploadFailure(w: World, job: Op, a: UploadAnswers, e: RemoteError, now: int)
    requires job.fid in w.db.files && Honest(w, w.db.files[job.fid].path, a)
    requires var row := w.db.files[job.fid]; !row.state.Conflict? && row.cachePath.Some? && UploadFailsWith(w, row, a, e)
    ensures var r := ProcessUpload(w, job, a, now); r.ending == Closed && r.world.disk == w.disk && Failed(w.db, r.world.db, job, e)
  {
    hide ApplyConflict, RetryOrFail, UploadDone, FinishConflicted, SetState, Failed;
    MarkedFailure(w.db, job, Uploading, e, now);
  }

  /** What a failing upload has done to the remote side: nothing, unless only the last look failed or the daemon died
      after the write; then the object is there with the local bytes, and nothing else has changed. */
  lemma FailedUploadStore(w: World, job: Op, a: UploadAnswers, now: int)
    requires job.fid in w.db.files && w.db.files[job.fid].cachePath.Some? && !w.db.files[job.fid].state.Conflict?
    ensures var row, r := w.db.files[job.fid], ProcessUpload(w, job, a, now);
            && r.world.disk == w.disk
            && if && (a.metadata == None || a.metadata == Some(NotFound)) && a.link == None && a.transfer == None
                  && row.remoteVersion == (if a.metadata == None then VersionAt(w.store, row.path) else None)
                  && row.cachePath.value in w.disk
               then
                 && row.path in r.world.store && r.world.store[row.path].bytes == w.disk[row.cachePath.value]
                 && r.world.store[row.path].kind == File && r.world.store[row.path].version == a.version
                 && (forall q :: q != row.path ==> (q in r.world.store <==> q in w.store))
                 && (forall q :: q != row.path && q in w.store ==> r.world.store[q] == w.store[q])
               else r.world.store == w.store
  {
    hide ApplyConflict, RetryOrFail, UploadDone, FinishConflicted, SetState;
  }

  /** An upload whose call fails leaves the row in error and the operation to be retried for exactly four kinds
      of error, and the local bytes survive the next reconcile, whatever the tree and the order. */
  lemma FailedUploadSurvives(w: World, job: Op, a: UploadAnswers, e: RemoteError, now: int,
                             tree: RemoteTree, remoteOrder: seq<string>, localOrder: seq<FileId>, later: int)
    requires DbInv(w.db) && HoldsJob(w.db, job) && job.opType.Upload? && job.fid in w.db.files && Honest(w, w.db.files[job.fid].path, a)
    requires var row := w.db.files[job.fid]; row.cachePath.Some? && row.cachePath.value in w.disk && UploadFailsWith(w, row, a, e)
    requires TreeOk(tree) && Enumerates(remoteOrder, tree.Keys) && Enumerates(localOrder, w.db.files.Keys)
    ensures var row, r := w.db.files[job.fid], ProcessUpload(w, job, a, now);
            && Failed(w.db, r.world.db, job, e)
            && (forall g :: g in localOrder ==> g in r.world.db.files)
            && var o := Reconcile(r.world.db, r.world.disk, tree, remoteOrder, localOrder, later);
               var files := AfterCommit(r.world.db, o.result).files;
               && job.fid in files && files[job.fid].cachePath == row.cachePath && files[job.fid].localVersion == row.localVersion
               && (files[job.fid].state.QueuedUpload? || files[job.fid].state.Uploading? || files[job.fid].state.Error?)
               && row.cachePath.value in o.disk && o.disk[row.cachePath.value] == w.disk[row.cachePath.value]
  {
    hide DbInv, HoldsJob, ProcessUpload, Reconcile, UploadFailsWith, Failed, TreeOk;
    InvParts(w.db, job.fid);
    UploadFailure(w, job, a, e, now);
    UploadKeepsInv(w, job, a, now);
    var r := ProcessUpload(w, job, a, now);
    FailedRow(w.db, r.world.db, job, e);
    DbInvIsValid(r.world.db);
    ReconcileSafety.LocalWorkSurvives(r.world.db, r.world.disk, tree, remoteOrder, localOrder, later, job.fid);
  }

  lemma InvParts(db: Db, f: FileId)
    requires DbInv(db) && f in db.files
    ensures Valid(db) && !db.files[f].state.Conflict? && db.files[f].fid == f
  {
    assert RowOk(db.files[f]);
  }

  lemma FailedRow(db: Db, after: Db, job: Op, e: RemoteError)
    requires Failed(db, after, job, e) && job.fid in db.files
    ensures after.files.Keys == db.files.Keys && job.fid in after.files && after.files[job.fid] == db.files[job.fid].(state := SyncState.Error)
  {
  }

  /** The same for the other jobs: every error they do not take for success fails them. */
  lemma DeleteFailure(w: World, job: Op, c: Call, now: int)
    requires (c.Refused? || c.Lost?) && c.error != NotFound
    ensures var r := ProcessDelete(w, job, c, now);
            && r.ending == Closed && r.world.disk == w.disk && Failed(w.db, r.world.db, job, c.error)
            && if c.Refused? then r.world.store == w.store else Below(r.world.store, PathOf(job.payload)) == {}
  {
    hide RetryOrFail, DeleteTree, Failed, Below;
    DeletionEmpties(w.store, PathOf(job.payload));
    FailureOutcome(w.db, job, c.error, now, now);
  }

  lemma MkdirFailure(w: World, job: Op, c: Call, version: Option<string>, recheck: Option<RemoteError>, now: int)
    requires (c.Refused? || c.Lost?) && c.error != RemoteError.Conflict && job.fid in w.db.files
    ensures var r := ProcessMkdir(w, job, c, version, recheck, now);
            && r.ending == Closed && r.world.disk == w.disk && Failed(w.db, r.world.db, job, c.error)
            && if c.Refused? then r.world.store == w.store else w.db.files[job.fid].path in r.world.store
  {
    hide RetryOrFail, MakeDirectory, Failed;
    MadeOnce(w.store, w.db.files[job.fid].path, version);
    FailureOutcome(w.db, job, c.error, now, now);
  }

  lemma RenameFailure(w: World, job: Op, probe: Option<RemoteError>, c: Call, stamp: map<string, string>, recheck: Option<RemoteError>, now: int)
    requires (c.Refused? || c.Lost?) && c.error != NotFound && job.payload.RenamePayload?
    ensures var r := ProcessRename(w, job, probe, c, stamp, recheck, now);
            && r.ending == Closed && r.world.disk == w.disk && Failed(w.db, r.world.db, job, c.error)
            && r.world.store == if c.Refused? then w.store else Relocate(w.store, job.payload.oldPath, job.payload.newPath, probe, stamp)
  {
    hide RetryOrFail, Relocate, Failed;
    FailureOutcome(w.db, job, c.error, now, now);
  }

  lemma DownloadFailure(w: World, job: Op, e: RemoteError, now: int)
    requires job.fid in w.db.files
    ensures var r := ProcessDownload(w, job, Err(e), now); r.ending == Closed && r.world.disk == w.disk && r.world.store == w.store && Failed(w.db, r.world.db, job, e)
  {
    hide RetryOrFail, Failed, SetState;
    MarkedFailure(w.db, job, Downloading, e, now);
  }

  // ---- Which answers complete a job ----

  predicate Completed(db: Db, job: Op) { job.id in db.ops && db.ops[job.id].status == Done }

  predicate LeasedIn(db: Db, job: Op) { job.id in db.ops && db.ops[job.id].status == Leased && db.ops[job.id].fid == job.fid }

  /** No call failed, the version is the remembered one and the cached bytes are there. */
  predicate UploadGoesThrough(w: World, row: Row, a: UploadAnswers) {
    && Smooth(w, row.path, a) && row.remoteVersion == VersionAt(w.store, row.path)
    && row.cachePath.Some? && row.cachePath.value in w.disk
  }

  /** An upload completes its job, and leaves its row synced, exactly when no call fails, nothing crashes, the
      version is as remembered and the cache file is there; then row, cache file and remote object agree. */
  lemma UploadCompletesIff(w: World, job: Op, a: UploadAnswers, now: int)
    requires Valid(w.db) && HoldsJob(w.db, job) && LeasedIn(w.db, job) && job.fid in w.db.files && Honest(w, w.db.files[job.fid].path, a)
    requires w.db.files[job.fid].cachePath.Some? && w.db.files[job.fid].path != ROOT
    ensures var row, r := w.db.files[job.fid], ProcessUpload(w, job, a, now);
            && job.fid in r.world.db.files
            && (r.world.db.files[job.fid].state == Synced <==> UploadGoesThrough(w, row, a))
            && (Completed(r.world.db, job) <==> UploadGoesThrough(w, row, a))
            && (UploadGoesThrough(w, row, a) ==> InSync(r.world, job.fid))
  {
    hide Valid, HoldsJob, ProcessUpload, InSync, Failed, OnlyFileAndJob;
    var row := w.db.files[job.fid];
    UnparkedInValid(w.db, job.fid);
    if UploadGoesThrough(w, row, a) {
      UploadEndsInSync(w, job, a, now);
      SyncedRowOf(ProcessUpload(w, job, a, now).world, job.fid);
      SameKeys(w.db, ProcessUpload(w, job, a, now).world.db, job.fid, job.id);
    } else if a.metadata.Some? && a.metadata.value != NotFound {
      FailedUploadIsOpen(w, job, a, a.metadata.value, now);
    } else if row.remoteVersion != VersionAt(w.store, row.path) {
      ConflictIsOpen(w, job, a, now);
    } else if a.link.Some? {
      FailedUploadIsOpen(w, job, a, a.link.value, now);
    } else if a.transfer.Some? {
      FailedUploadIsOpen(w, job, a, a.transfer.value, now);
    } else if row.cachePath.value !in w.disk {
      FailedUploadIsOpen(w, job, a, Io, now);
    } else if a.crash {
      CrashIsOpen(w, job, a, now);
    } else {
      FailedUploadIsOpen(w, job, a, a.recheck.value, now);
    }
  }

  lemma SyncedRowOf(w: World, f: FileId)
    requires InSync(w, f)
    ensures f in w.db.files && w.db.files[f].state == Synced
  {
  }

  lemma FailedUploadIsOpen(w: World, job: Op, a: UploadAnswers, e: RemoteError, now: int)
    requires LeasedIn(w.db, job) && job.fid in w.db.files && Honest(w, w.db.files[job.fid].path, a)
    requires var row := w.db.files[job.fid]; !row.state.Conflict? && row.cachePath.Some? && UploadFailsWith(w, row, a, e)
    ensures var r := ProcessUpload(w, job, a, now);
            job.fid in r.world.db.files && r.world.db.files[job.fid].state != Synced && !Completed(r.world.db, job)
  {
    hide ProcessUpload, UploadFailsWith;
    UploadFailure(w, job, a, e, now);
  }

  lemma ConflictIsOpen(w: World, job: Op, a: UploadAnswers, now: int)
    requires Valid(w.db) && HoldsJob(w.db, job) && LeasedIn(w.db, job) && Conflicts(w, job.fid, a)
    ensures var r := ProcessUpload(w, job, a, now);
            job.fid in r.world.db.files && r.world.db.files[job.fid].state != Synced && !Completed(r.world.db, job)
  {
    hide Valid, HoldsJob, ProcessUpload, ApplyConflict, NextConflictPath;
    var f, row := job.fid, w.db.files[job.fid];
    var marked := SetState(w.db, f, Uploading);
    ConflictRun(w, job, a, now);
    UploadCopyRow(w, f, a, now);
    MarkingIsHarmless(w.db, f);
    ValidHasOkOps(marked);
    UnparkedInValid(w.db, f);
    JobIsKnown(w.db, job);
    if ApplyConflict(marked, row, VersionAt(w.store, row.path), Metadata(w.store, row.path), now).Ok? {
      ConflictDropsJob(marked, row, VersionAt(w.store, row.path), Metadata(w.store, row.path), now, job.id);
    }
  }

  lemma JobIsKnown(db: Db, job: Op)
    requires HoldsJob(db, job)
    ensures job.id < db.nextOp
  {
  }

  lemma CrashIsOpen(w: World, job: Op, a: UploadAnswers, now: int)
    requires LeasedIn(w.db, job) && job.fid in w.db.files && Honest(w, w.db.files[job.fid].path, a) && a.crash
    requires var row := w.db.files[job.fid];
             && !row.state.Conflict? && row.cachePath.Some? && row.cachePath.value in w.disk && row.remoteVersion == VersionAt(w.store, row.path)
             && (a.metadata.None? || a.metadata == Some(NotFound)) && a.link.None? && a.transfer.None?
    ensures var r := ProcessUpload(w, job, a, now);
            job.fid in r.world.db.files && r.world.db.files[job.fid].state != Synced && !Completed(r.world.db, job)
  {
    hide ApplyConflict, RetryOrFail, UploadDone, FinishConflicted;
  }

  /** A download completes its job, and leaves its row synced, exactly when the bytes arrive; then the cache file
      holds them and the size matches. */
  lemma DownloadCompletesIff(w: World, job: Op, answer: Result<Bytes, RemoteError>, now: int)
    requires Valid(w.db) && LeasedIn(w.db, job) && job.fid in w.db.files
    ensures var r := ProcessDownload(w, job, answer, now);
            && job.fid in r.world.db.files
            && (r.world.db.files[job.fid].state == Synced <==> answer.Ok?) && (Completed(r.world.db, job) <==> answer.Ok?)
            && (answer.Ok? ==>
                  && r.world.disk == w.disk[CachePathFor(job.fid) := answer.value]
                  && r.world.db.files[job.fid].cachePath == Some(CachePathFor(job.fid)) && r.world.db.files[job.fid].size == |answer.value|)
  {
    hide Valid, ProcessDownload;
    match answer
    case Ok(bytes) => DownloadInstalls(w, job, bytes, now);
    case Err(e) => DownloadFailure(w, job, e, now);
  }

  /** A deletion drops its row exactly when the object is deleted or reported missing; then, if the report is
      true, nothing is left at or below the path. */
  lemma DeleteCompletesIff(w: World, job: Op, c: Call, now: int)
    requires job.fid in w.db.files && (c.Refused? && c.error == NotFound ==> Below(w.store, PathOf(job.payload)) == {})
    ensures var r := ProcessDelete(w, job, c, now);
            var gone := c.Answered? || ((c.Refused? || c.Lost?) && c.error == NotFound);
            && (job.fid !in r.world.db.files <==> gone)
            && (gone ==> Below(r.world.store, PathOf(job.payload)) == {})
  {
    hide RetryOrFail, DeleteTree, Below;
    DeletionEmpties(w.store, PathOf(job.payload));
    if (c.Refused? || c.Lost?) && c.error != NotFound { DeleteFailure(w, job, c, now); }
  }

  /** A directory creation completes exactly when the directory is made or reported as existing and is found
      afterwards; then it is there, and the row is synced with its version. */
  lemma MkdirCompletesIff(w: World, job: Op, c: Call, version: Option<string>, recheck: Option<RemoteError>, now: int)
    requires LeasedIn(w.db, job) && job.fid in w.db.files
    requires c.Refused? && c.error == RemoteError.Conflict ==> w.db.files[job.fid].path in w.store
    ensures var path, r := w.db.files[job.fid].path, ProcessMkdir(w, job, c, version, recheck, now);
            var made := (c.Answered? || ((c.Refused? || c.Lost?) && c.error == RemoteError.Conflict)) && recheck.None?;
            && (Completed(r.world.db, job) <==> made)
            && job.fid in r.world.db.files
            && (w.db.files[job.fid].state != Synced ==> (r.world.db.files[job.fid].state == Synced <==> made))
            && (made ==>
                  && path in r.world.store && job.fid in r.world.db.files && r.world.db.files[job.fid].state == Synced
                  && r.world.db.files[job.fid].remoteVersion == VersionAt(r.world.store, path))
  {
    hide RetryOrFail, MakeDirectory;
    var path := w.db.files[job.fid].path;
    MadeOnce(w.store, path, version);
    if (c.Refused? || c.Lost?) && c.error != RemoteError.Conflict { MkdirFailure(w, job, c, version, recheck, now); }
  }

  /** A rename job completes exactly when the move or clean-up is done or finds nothing to do and the look at the new path
      is answered. */
  lemma RenameCompletesIff(w: World, job: Op, probe: Option<RemoteError>, c: Call, stamp: map<string, string>, recheck: Option<RemoteError>, now: int)
    requires LeasedIn(w.db, job) && job.payload.RenamePayload?
    ensures var r := ProcessRename(w, job, probe, c, stamp, recheck, now);
            Completed(r.world.db, job)
            <==> (c.Answered? || ((c.Refused? || c.Lost?) && c.error == NotFound)) && (recheck.None? || recheck.value == NotFound)
  {
    hide RetryOrFail, Relocate;
    if (c.Refused? || c.Lost?) && c.error != NotFound { RenameFailure(w, job, probe, c, stamp, recheck, now); }
  }
}
