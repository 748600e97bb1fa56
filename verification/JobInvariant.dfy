/** Whole jobs keep the invariant of the tables, however they end. */
module JobInvariant {
  import opened Wrappers
  import opened Tables
  import opened SyncSteps
  import opened TableInvariants
  import opened HelperSoundness
  import opened RemoteStore
  import opened SyncMachine
  import opened JobRuns
  import opened AtLeastOnce

  /** A download writes the remote bytes over the cache file, whatever it held. */
  function ProcessDownload(w: World, job: Op, answer: Result<Bytes, RemoteError>, now: int): Ran {
    if job.fid !in w.db.files then Ran(w, LeftLeased)
    else
      var entry := w.db.files[job.fid];
      var marked := w.(db := SetState(w.db, job.fid, Downloading));
      if answer.Err? then Failing(marked, job, answer.error, now)
      else
        Ran(marked.(db := DownloadDone(marked.db, job, entry, |answer.value|, now), disk := w.disk[CacheOf(entry) := answer.value]),
            Closed)
  }

  lemma MarkedUploadKeepsInv(w: World, job: Op, entry: Row, a: UploadAnswers, now: int)
    requires DbInv(w.db) && HoldsJob(w.db, job) && entry.cachePath.Some? && RowOk(entry) && entry.fid == job.fid
    ensures DbInv(UploadMarked(w, job, entry, a, now).world.db)
  {
    hide DbInv, RowOk, HoldsJob, ApplyConflict, RetryOrFail, UploadDone, FinishConflicted;
    OkRowIsRooted(entry);
    EntryIsOk(w.store, entry.path);
    var current := if a.metadata.Some? then None else Metadata(w.store, entry.path);
    MoveConflictInv(w.db, job, entry, current, now);
    if a.metadata.Some? { RetryOrFailInv(w.db, job, a.metadata.value, now, now); }
    if a.link.Some? { RetryOrFailInv(w.db, job, a.link.value, now, now); }
    if a.transfer.Some? { RetryOrFailInv(w.db, job, a.transfer.value, now, now); }
    if a.recheck.Some? { RetryOrFailInv(w.db, job, a.recheck.value, now, now); }
    RetryOrFailInv(w.db, job, Io, now, now);
    if entry.cachePath.value in w.disk {
      var put := Put(w.store, entry.path, w.disk[entry.cachePath.value], a.version);
      UploadDoneInv(w.db, job, Entry(entry.path, put[entry.path]), now);
    }
    var applied := ApplyConflict(w.db, entry, VersionOf(current), current, now);
    if applied.Ok? { FinishingOfMissingJob(applied.value, job.id, now); }
  }

  lemma UploadKeepsInv(w: World, job: Op, a: UploadAnswers, now: int)
    requires DbInv(w.db) && HoldsJob(w.db, job) && job.opType.Upload?
    ensures DbInv(ProcessUpload(w, job, a, now).world.db)
  {
    hide DbInv, RowOk, HoldsJob, UploadMarked, SetState;
    if job.fid in w.db.files {
      RowOfInv(w.db, job.fid);
      var entry := w.db.files[job.fid];
      UnparkedRow(entry);
      if entry.cachePath.Some? {
        BeginInv(w.db, job, Uploading);
        MarkedUploadKeepsInv(w.(db := SetState(w.db, job.fid, Uploading)), job, entry, a, now);
      }
    }
  }

  lemma UnparkedRow(row: Row)
    requires RowOk(row)
    ensures !row.state.Conflict?
  {
  }

  lemma FailedKeepsInv(w: World, job: Op, e: RemoteError, now: int)
    requires DbInv(w.db) && HoldsJob(w.db, job)
    ensures DbInv(Failing(w, job, e, now).world.db)
  {
    RetryOrFailInv(w.db, job, e, now, now);
  }

  lemma DeleteKeepsInv(w: World, job: Op, c: Call, now: int)
    requires DbInv(w.db) && HoldsJob(w.db, job)
    ensures DbInv(ProcessDelete(w, job, c, now).world.db)
  {
    hide DbInv, HoldsJob, DeleteDone, RetryOrFail;
    DeleteDoneInv(w.db, job);
    if c.Refused? || c.Lost? { FailedKeepsInv(w, job, c.error, now); }
  }

  lemma MkdirKeepsInv(w: World, job: Op, c: Call, version: Option<string>, recheck: Option<RemoteError>, now: int)
    requires DbInv(w.db) && HoldsJob(w.db, job)
    ensures DbInv(ProcessMkdir(w, job, c, version, recheck, now).world.db)
  {
    hide DbInv, HoldsJob, RemoteSeen, RetryOrFail, MakeDirectory;
    if c.Refused? || c.Lost? { FailedKeepsInv(w, job, c.error, now); }
    if job.fid in w.db.files {
      var path := w.db.files[job.fid].path;
      var store := if TookEffect(c) then MakeDirectory(w.store, path, version) else w.store;
      if path in store { RemoteSeenInv(w.db, job, Some(Entry(path, store[path])), now); }
    }
  }

  lemma RenameKeepsInv(w: World, job: Op, probe: Option<RemoteError>, c: Call, stamp: map<string, string>,
                       recheck: Option<RemoteError>, now: int)
    requires DbInv(w.db) && HoldsJob(w.db, job) && !Drives(job.opType)
    ensures DbInv(ProcessRename(w, job, probe, c, stamp, recheck, now).world.db)
  {
    hide DbInv, HoldsJob, RemoteSeen, RetryOrFail, Relocate;
    if c.Refused? || c.Lost? { FailedKeepsInv(w, job, c.error, now); }
    if job.payload.RenamePayload? {
      var store := if TookEffect(c) then Relocate(w.store, job.payload.oldPath, job.payload.newPath, probe, stamp) else w.store;
      RemoteSeenInv(w.db, job, None, now);
      RemoteSeenInv(w.db, job, Metadata(store, job.payload.newPath), now);
    }
  }

  lemma DownloadKeepsInv(w: World, job: Op, answer: Result<Bytes, RemoteError>, now: int)
    requires DbInv(w.db) && HoldsJob(w.db, job) && job.opType.Download?
    ensures DbInv(ProcessDownload(w, job, answer, now).world.db)
  {
    hide DbInv, RowOk, HoldsJob, DownloadDone, RetryOrFail, SetState;
    if job.fid in w.db.files {
      RowOfInv(w.db, job.fid);
      BeginInv(w.db, job, Downloading);
      var marked := w.(db := SetState(w.db, job.fid, Downloading));
      match answer
      case Err(e) => FailedKeepsInv(marked, job, e, now);
      case Ok(bytes) => DownloadDoneInv(marked.db, job, w.db.files[job.fid], |bytes|, now);
    }
  }
}
