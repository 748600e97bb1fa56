/** An upload from start to end, with the remote side's answers as arguments and no other thread in
    between, and what it may overwrite. */
module JobRuns {
  import opened Wrappers
  import opened Tables
  import opened SyncSteps
  import opened RemoteStore

  datatype World = World(db: Db, disk: Disk, store: Store)

  /** How a run ended: the job was closed, left leased with an error, or cut off by a crash. */
  datatype Ending = Closed | LeftLeased | Crashed

  datatype Ran = Ran(world: World, ending: Ending)

  // ---- Upload ----

  /** Answers of the remote side to the four calls of an upload, the version it gives the written
      object, and whether the daemon dies right after the write. */
  datatype UploadAnswers = UploadAnswers(
    metadata: Option<RemoteError>,
    link: Option<RemoteError>,
    transfer: Option<RemoteError>,
    recheck: Option<RemoteError>,
    version: Option<string>,
    crash: bool)

  function Failing(w: World, job: Op, e: RemoteError, now: int): Ran {
    Ran(w.(db := RetryOrFail(w.db, job, e, now, now)), Closed)
  }

  /** The run after the row is marked as uploading; `entry` is the row as it was before. */
  ghost function UploadMarked(w: World, job: Op, entry: Row, a: UploadAnswers, now: int): Ran
    requires entry.cachePath.Some?
  {
    if a.metadata.Some? && !a.metadata.value.NotFound? then Failing(w, job, a.metadata.value, now)
    else
      var current := if a.metadata.Some? then None else Metadata(w.store, entry.path);
      var version := match current case Some(r) => r.version case None => None;
      if entry.remoteVersion != version then
        match ApplyConflict(w.db, entry, version, current, now)
        case Err(_) => Ran(w, LeftLeased)
        case Ok(db) => Ran(w.(db := FinishConflicted(db, job.id, now)), Closed)
      else if a.link.Some? then Failing(w, job, a.link.value, now)
      else if a.transfer.Some? then Failing(w, job, a.transfer.value, now)
      else if entry.cachePath.value !in w.disk then Failing(w, job, Io, now)
      else
        var store := Put(w.store, entry.path, w.disk[entry.cachePath.value], a.version);
        if a.crash then Ran(w.(store := store), Crashed)
        else if a.recheck.Some? then Failing(w.(store := store), job, a.recheck.value, now)
        else Ran(w.(db := UploadDone(w.db, job, Entry(entry.path, store[entry.path]), now), store := store), Closed)
  }

  ghost function ProcessUpload(w: World, job: Op, a: UploadAnswers, now: int): Ran {
    if job.fid !in w.db.files then Ran(w, LeftLeased)
    else
      var entry := w.db.files[job.fid];
      if entry.state.Conflict? then Ran(w.(db := FinishConflicted(w.db, job.id, now)), Closed)
      else if entry.cachePath.None? then Ran(w, LeftLeased)
      else UploadMarked(w.(db := SetState(w.db, job.fid, Uploading)), job, entry, a, now)
  }

  /** Honest metadata: a missing object is reported missing and an existing one is not. */
  predicate Honest(w: World, path: string, a: UploadAnswers) {
    a.metadata == Some(NotFound) ==> path !in w.store
  }

  /** The remote object is written only if its version is the one the row remembers, only at the row's
      path, and then with the row's local bytes. */
  lemma CompareBeforeWrite(w: World, job: Op, a: UploadAnswers, now: int)
    requires job.fid in w.db.files && Honest(w, w.db.files[job.fid].path, a)
    ensures var entry, r := w.db.files[job.fid], ProcessUpload(w, job, a, now);
            && r.world.disk == w.disk
            && (r.world.store != w.store ==>
                  && entry.remoteVersion == VersionAt(w.store, entry.path)
                  && entry.cachePath.Some? && entry.cachePath.value in w.disk
                  && r.world.store == Put(w.store, entry.path, w.disk[entry.cachePath.value], a.version))
  {
    hide ApplyConflict, RetryOrFail, UploadDone, FinishConflicted, SetState;
  }
}
