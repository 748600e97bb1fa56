/** Renames that meet other queued work of the same file: when an earlier rename stays in the queue, and what
    becomes of an edit that is renamed before it is uploaded. */
module QueuedRenames {
  import opened Wrappers
  import opened RemotePaths
  import opened Tables
  import opened SyncSteps
  import opened TableInvariants
  import opened HelperSoundness
  import opened RemoteStore
  import opened SyncMachine
  import opened JobRuns
  import opened UploadConflicts
  import opened LocalToRemote
  import QueueBounds

  // ---- A rename after a rename ----

  /** The queued rename of a file is the one that a further rename takes over: it is pending or to be retried,
      and none of the file's renames with a smaller id is. */
  predicate TakenOver(ops: Ops, id: nat)
    requires id in ops
  {
    && (ops[id].status == Pending || ops[id].status == RetryableError)
    && forall j :: j in ops && j < id && ops[j].fid == ops[id].fid && ops[j].opType == OpType.Rename
                   ==> ops[j].status != Pending && ops[j].status != RetryableError
  }

  /** An earlier rename to the path where the row now is stays in the queue as it is if and only if a further rename does
      not take it over; one that has been leased does stay. */
  lemma EarlierRenameStaysIff(db: Db, f: FileId, id: nat, first: string, to: string, now: int)
    requires Valid(db) && f in db.files && db.files[f].remoteVersion.Some? && id in db.ops
    requires db.ops[id].fid == f && db.ops[id].opType == OpType.Rename
    requires db.ops[id].payload == RenamePayload(first, db.files[f].path) && first != db.files[f].path
    requires RenameEntry(db, db.files[f], to, now).Ok?
    ensures var ops := RenameEntry(db, db.files[f], to, now).value.ops;
            && id in ops
            && (ops[id] == db.ops[id] <==> !TakenOver(db.ops, id))
            && (TakenOver(db.ops, id) ==> ops[id].payload == RenamePayload(db.files[f].path, to))
  {
    hide Valid, OpsOk, RenameSubtree;
    PartsOf(db);
    RowFacts(db, f);
    var ids := RunnableIds(db.ops, f, OpType.Rename);
    QueueBounds.NothingSuperseded(db.ops, f);
    KnownId(db.ops, db.nextOp, id);
    if ids != {} {
      var m := Least(ids);
      assert m in ids && forall k :: k in ids ==> m <= k;
      assert id == m <==> TakenOver(db.ops, id) by {
        assert forall j :: j in db.ops ==> (j in ids <==> db.ops[j].fid == f && db.ops[j].opType == OpType.Rename && Runnable(db.ops[j].status));
      }
    } else {
      assert id !in ids;
    }
  }

  lemma KnownId(ops: Ops, next: nat, id: nat)
    requires OpsOk(ops, next) && id in ops
    ensures id < next
  {
  }

  // ---- A rename after an edit ----

  /** The file is at the new path, still with the version it remembers, and its pending upload is older than its
      pending rename. */
  predicate EditBeforeRename(db: Db, f: FileId, id: nat, to: string, version: Option<string>) {
    && f in db.files && db.files[f].path == to && db.files[f].remoteVersion == version && db.files[f].cachePath.Some?
    && id in db.ops && id + 1 in db.ops && db.ops[id].fid == f && db.ops[id + 1].fid == f
    && db.ops[id].opType == Upload && db.ops[id + 1].opType == OpType.Rename
    && db.ops[id].status == Pending && db.ops[id + 1].status == Pending
    && db.ops[id].nextRetryAt.None? && db.ops[id + 1].nextRetryAt.None?
  }

  lemma EditThenRenameQueue(db: Db, f: FileId, size: nat, to: string, now: int)
    requires Valid(db) && f in db.files && db.files[f].remoteVersion.Some?
    requires RunnableIds(db.ops, f, Upload) == {} && RunnableIds(db.ops, f, OpType.Rename) == {}
    ensures CommitLocal(db, db.files[f], size, now).Ok?
    ensures var edited := CommitLocal(db, db.files[f], size, now).value;
            && Valid(edited) && f in edited.files && edited.files[f].remoteVersion == db.files[f].remoteVersion
            && edited.files[f].path == db.files[f].path
            && (RenameEntry(edited, edited.files[f], to, now).Ok? ==>
                  EditBeforeRename(RenameEntry(edited, edited.files[f], to, now).value, f, db.nextOp, to, db.files[f].remoteVersion))
  {
    hide Valid, UpsertOperation, OpsOk, RenameRows, RunnableIds, QueueBounds.WithFresh;
    PartsOf(db);
    RowFacts(db, f);
    EditWaitsForUpload(db, f, size, now);
    var row := Edited(db.files[f], CacheOf(db.files[f]), size);
    var db1 := db.(files := db.files[f := row]);
    QueueBounds.FirstEnqueue(db1, f, Upload, PathPayload(row.path), now);
    var edited := CommitLocal(db, db.files[f], size, now).value;
    WithFreshParts(db1, f, Upload, PathPayload(row.path), now);
    RenamedRow(edited.files, f, to);
    if RenameEntry(edited, edited.files[f], to, now).Ok? {
      var db2 := edited.(files := RenameSubtree(edited.files, row.path, DestinationAt(to)).files);
      FreshUpload(db1, f, PathPayload(row.path), now);
      QueueBounds.FirstEnqueue(db2, f, OpType.Rename, RenamePayload(row.path, to), now);
      WithFreshParts(db2, f, OpType.Rename, RenamePayload(row.path, to), now);
      FreshKeeps(db2, f, OpType.Rename, RenamePayload(row.path, to), now, db.nextOp);
    }
  }

  lemma FreshUpload(db: Db, f: FileId, payload: Payload, now: int)
    requires RunnableIds(db.ops, f, OpType.Rename) == {}
    ensures var after := QueueBounds.WithFresh(db, f, Upload, payload, now);
            RunnableIds(after.ops, f, OpType.Rename) == {} && after.nextOp == db.nextOp + 1
  {
    var after := QueueBounds.WithFresh(db, f, Upload, payload, now);
    assert forall i :: i in after.ops && i != db.nextOp ==> i !in RunnableIds(db.ops, f, OpType.Rename);
  }

  lemma FreshKeeps(db: Db, f: FileId, t: OpType, payload: Payload, now: int, id: nat)
    requires id in db.ops && id != db.nextOp
    ensures var after := QueueBounds.WithFresh(db, f, t, payload, now);
            id in after.ops && after.ops[id] == db.ops[id]
  {
  }

  /** The edited file was renamed before its upload has run. Nobody else has changed anything, and yet the upload takes
      the absent object at the new path for a conflict: it writes nothing, and if the conflict commits, the
      file becomes a copy under a third name, and the rename is dropped from the queue. */
  lemma RenamedEditConflicts(w: World, job: Op, rename: nat, a: UploadAnswers, now: int)
    requires Valid(w.db) && HoldsJob(w.db, job) && job.opType.Upload? && job.fid in w.db.files && rename in w.db.ops
    requires w.db.ops[rename].fid == job.fid && w.db.ops[rename].opType == OpType.Rename
             && (w.db.ops[rename].status == Pending || w.db.ops[rename].status == RetryableError)
    requires var row := w.db.files[job.fid];
             row.remoteVersion.Some? && row.cachePath.Some? && row.path != ROOT && row.path !in w.store
    requires a.metadata == Some(NotFound)
    ensures var row, r := w.db.files[job.fid], ProcessUpload(w, job, a, now);
            && r.world.store == w.store && r.world.disk == w.disk
            && if r.ending == Closed then
                 && rename !in r.world.db.ops && job.fid in r.world.db.files
                 && var copy := r.world.db.files[job.fid];
                    copy.path != row.path && copy.state == QueuedUpload && copy.remoteVersion == None && copy.cachePath == row.cachePath
               else
                 && r.ending == LeftLeased && rename in r.world.db.ops && r.world.db.ops == w.db.ops
                 && r.world.db.files[job.fid] == row.(state := Uploading)
  {
    hide Valid, HoldsJob, ProcessUpload, ApplyConflict, NextConflictPath;
    var f, row := job.fid, w.db.files[job.fid];
    var marked := SetState(w.db, f, Uploading);
    ConflictRun(w, job, a, now);
    UploadCopyRow(w, f, a, now);
    MarkingIsHarmless(w.db, f);
    ValidHasOkOps(marked);
    RowFacts(w.db, f);
    KnownId(marked.ops, marked.nextOp, rename);
    if ApplyConflict(marked, row, VersionAt(w.store, row.path), Metadata(w.store, row.path), now).Ok? {
      ConflictDropsJob(marked, row, VersionAt(w.store, row.path), Metadata(w.store, row.path), now, rename);
    }
  }

  /** From the edit to the conflict: in this state no worker takes the rename before the upload, and when the
      upload is taken while the new path is still free remotely, this is what it does. */
  lemma EditThenRenameConflicts(db: Db, f: FileId, size: nat, to: string, now: int, taken: int, w: World, a: UploadAnswers, later: int)
    requires DbInv(db) && f in db.files && db.files[f].remoteVersion.Some? && ROOT <= to && to != ROOT
    requires RunnableIds(db.ops, f, Upload) == {} && RunnableIds(db.ops, f, OpType.Rename) == {}
    ensures CommitLocal(db, db.files[f], size, now).Ok?
    ensures var edited := CommitLocal(db, db.files[f], size, now).value;
            && f in edited.files
            && (RenameEntry(edited, edited.files[f], to, now).Ok? ==>
                  var renamed := RenameEntry(edited, edited.files[f], to, now).value;
                  && (forall t :: NextJob(renamed.ops, t) != Some(db.nextOp + 1))
                  && (NextJob(renamed.ops, taken) == Some(db.nextOp) && to !in w.store && a.metadata == Some(NotFound) ==>
                        && db.nextOp in renamed.ops
                        && var start := World(Lease(renamed, db.nextOp, taken), w.disk, w.store);
                           var r := ProcessUpload(start, LeasedOp(renamed.ops[db.nextOp], taken), a, later);
                           && r.world.store == w.store
                           && (r.ending == Closed ==>
                                 && db.nextOp + 1 !in r.world.db.ops && f in r.world.db.files
                                 && r.world.db.files[f].path != to && r.world.db.files[f].remoteVersion == None)))
  {
    hide DbInv, Valid, HoldsJob, CommitLocal, RenameEntry, ProcessUpload, NextJob, RunnableIds;
    DbInvIsValid(db);
    EditThenRenameQueue(db, f, size, to, now);
    var edited := CommitLocal(db, db.files[f], size, now).value;
    EditedKeepsInv(db, f, size, now);
    if RenameEntry(edited, edited.files[f], to, now).Ok? {
      var renamed := RenameEntry(edited, edited.files[f], to, now).value;
      RenamedKeepsInv(edited, f, to, now);
      forall t ensures NextJob(renamed.ops, t) != Some(db.nextOp + 1) {
        QueueBounds.TakenJobIsDue(renamed.ops, t);
      }
      if NextJob(renamed.ops, taken) == Some(db.nextOp) && to !in w.store && a.metadata == Some(NotFound) {
        TakeJobInv(renamed, taken);
        var leased := Lease(renamed, db.nextOp, taken);
        DbInvIsValid(leased);
        RenamedEditConflicts(World(leased, w.disk, w.store), LeasedOp(renamed.ops[db.nextOp], taken), db.nextOp + 1, a, later);
      }
    }
  }

  lemma EditedKeepsInv(db: Db, f: FileId, size: nat, now: int)
    requires DbInv(db) && f in db.files && CommitLocal(db, db.files[f], size, now).Ok?
    ensures DbInv(CommitLocal(db, db.files[f], size, now).value)
  {
    hide DbInv, Valid, CommitLocal, RowOk, Sound;
    DbInvIsValid(db);
    RowFacts(db, f);
    CommitLocalSound(db, db.files[f], size, now);
    SoundKeepsInv(db, CommitLocal(db, db.files[f], size, now).value, Idle);
  }

  lemma RenamedKeepsInv(db: Db, f: FileId, to: string, now: int)
    requires DbInv(db) && f in db.files && ROOT <= to && to != ROOT && RenameEntry(db, db.files[f], to, now).Ok?
    ensures DbInv(RenameEntry(db, db.files[f], to, now).value)
  {
    hide DbInv, Valid, RenameEntry, Sound;
    DbInvIsValid(db);
    RenameEntrySound(db, db.files[f], to, now);
    SoundKeepsInv(db, RenameEntry(db, db.files[f], to, now).value, Idle);
  }
}
