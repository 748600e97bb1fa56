/** The whole engine as a transition system. Any number of filesystem threads and one worker thread
    interleave at the holds of the database lock. A thread acts on rows it read earlier: `seen` is
    every row value some thread has read, so an entry may be arbitrarily stale. What the remote side
    answers is chosen by the environment. */
module SyncMachine {
  import opened Wrappers
  import opened RemotePaths
  import opened Tables
  import opened SyncSteps
  import opened TableInvariants
  import opened HelperSoundness
  import SubtreeRename

  /** `Closing`: the conflict copy is made and the closing `finish_job` is still to come.
      `Reconciled`: the tree is reconciled and the refresh job is still to be marked done. */
  datatype Worker = Idle | Busy(job: Op) | Closing(job: Op) | Reconciled(job: Op)

  datatype Sys = Sys(db: Db, disk: Disk, worker: Worker, seen: set<Row>)

  datatype Event =
    | Look(fid: FileId)
    | CreateEntry(parent: Row, name: string, kind: Kind, now: int)
    | CommitEdit(entry: Row, bytes: Bytes, now: int)
    | UnlinkEntry(entry: Row, now: int)
    | RenameTo(entry: Row, to: string, now: int)
    | HydrateEntry(entry: Row, bytes: Bytes)
    | RequestRefresh(entry: Row, now: int)
    | RecoverExpired(now: int)
    | TakeJob(now: int)
    | BeginUpload(entry: Row)
    | ParkUpload(entry: Row, now: int)
    | MoveConflict(entry: Row, remote: Option<RemoteEntry>, now: int)
    | CloseConflict(now: int)
    | EndUpload(uploaded: RemoteEntry, now: int)
    | BeginDownload
    | EndDownload(entry: Row, bytes: Bytes, now: int)
    | EndDelete
    | EndMkdir(made: RemoteEntry, now: int)
    | EndRename(seenThere: Option<RemoteEntry>, now: int)
    | ReconcileTree(tree: RemoteTree, remoteOrder: seq<string>, localOrder: seq<FileId>, now: int)
    | EndRefresh(now: int)
    | RemoteFailure(error: RemoteError, now: int, later: int)
    | GiveUp
    | Restart

  function VersionOf(remote: Option<RemoteEntry>): Option<string> {
    match remote case Some(r) => r.version case None => None
  }

  predicate Working(w: Worker, opType: OpType) { w.Busy? && w.job.opType == opType }

  predicate Refreshing(opType: OpType) { opType.RefreshTree? || opType.RefreshDir? }

  ghost predicate Enabled(s: Sys, e: Event) {
    match e
    case Look(f) => f in s.db.files
    case CreateEntry(parent, name, _, _) => parent in s.seen && parent.kind.Directory? && ChildName(name)
    case CommitEdit(entry, _, _) => entry in s.seen && entry.kind.File?
    case UnlinkEntry(entry, _) => entry in s.seen
    case RenameTo(entry, to, _) => entry in s.seen && ROOT <= to && to != ROOT
    case HydrateEntry(entry, _) => entry in s.seen && entry.kind.File?
    case RequestRefresh(entry, _) => entry in s.seen && entry.path == ROOT
    case RecoverExpired(_) => s.worker.Idle?
    case TakeJob(now) => s.worker.Idle? && NextJob(s.db.ops, now).Some?
    case BeginUpload(entry) =>
      Working(s.worker, Upload) && entry in s.seen && entry.fid == s.worker.job.fid && !entry.state.Conflict? && entry.cachePath.Some?
    case ParkUpload(entry, _) =>
      Working(s.worker, Upload) && entry in s.seen && entry.fid == s.worker.job.fid && entry.state.Conflict?
    case MoveConflict(entry, remote, _) =>
      && Working(s.worker, Upload) && entry in s.seen && entry.fid == s.worker.job.fid
      && entry.remoteVersion != VersionOf(remote)
      && (remote.Some? ==> RemoteOk(remote.value) && remote.value.path == entry.path)
    case CloseConflict(_) => s.worker.Closing?
    case EndUpload(_, _) => Working(s.worker, Upload)
    case BeginDownload => Working(s.worker, Download)
    case EndDownload(entry, _, _) => Working(s.worker, Download) && entry in s.seen && entry.fid == s.worker.job.fid
    case EndDelete => Working(s.worker, Delete) || Working(s.worker, ReconcileRemoteDelete)
    case EndMkdir(_, _) => Working(s.worker, Mkdir)
    case EndRename(_, _) => Working(s.worker, Rename) || Working(s.worker, Move)
    case ReconcileTree(remote, remoteOrder, localOrder, _) =>
      && (Working(s.worker, RefreshTree) || Working(s.worker, RefreshDir))
      && TreeOk(remote) && Enumerates(remoteOrder, remote.Keys) && Enumerates(localOrder, s.db.files.Keys)
    case EndRefresh(_) => s.worker.Reconciled?
    case RemoteFailure(_, now, later) => s.worker.Busy? && !Refreshing(s.worker.job.opType) && now <= later
    case GiveUp => !s.worker.Idle?
    case Restart => true
  }

  function Idled(s: Sys, db: Db): Sys { s.(db := db, worker := Idle) }

  ghost function Reconciling(s: Sys, tree: RemoteTree, remoteOrder: seq<string>, localOrder: seq<FileId>, now: int): Sys
    requires s.worker.Busy? && Enumerates(remoteOrder, tree.Keys) && Enumerates(localOrder, s.db.files.Keys)
  {
    var o := Reconcile(s.db, s.disk, tree, remoteOrder, localOrder, now);
    s.(db := AfterCommit(s.db, o.result), disk := o.disk, worker := if o.result.Ok? then Reconciled(s.worker.job) else Idle)
  }

  ghost function Taking(s: Sys, now: int): Sys
    requires NextJob(s.db.ops, now).Some?
  {
    var id := NextJob(s.db.ops, now).value;
    s.(db := Lease(s.db, id, now), worker := Busy(LeasedOp(s.db.ops[id], now)))
  }

  ghost function MovingConflict(s: Sys, entry: Row, remote: Option<RemoteEntry>, now: int): Sys
    requires s.worker.Busy?
  {
    match ApplyConflict(s.db, entry, VersionOf(remote), remote, now)
    case Ok(db) => s.(db := db, worker := Closing(s.worker.job))
    case Err(_) => Idled(s, s.db)
  }

  ghost function Apply(s: Sys, e: Event): Sys
    requires Enabled(s, e)
  {
    match e
    case Look(f) => s.(seen := s.seen + {s.db.files[f]})
    case CreateEntry(parent, name, kind, now) =>
      s.(db := AfterCommit(s.db, Create(s.db, parent.path, name, kind, now)),
         disk := if kind.File? then s.disk[CachePathFor(s.db.nextFile) := []] else s.disk)
    case CommitEdit(entry, bytes, now) =>
      s.(db := AfterCommit(s.db, CommitLocal(s.db, entry, |bytes|, now)), disk := s.disk[CacheOf(entry) := bytes])
    case UnlinkEntry(entry, now) =>
      var r := Unlink(s.db, entry, now);
      s.(db := AfterCommit(s.db, r), disk := if r.Ok? && entry.cachePath.Some? then s.disk - {entry.cachePath.value} else s.disk)
    case RenameTo(entry, to, now) => s.(db := RenameEntryDb(s.db, entry, to, now))
    case HydrateEntry(entry, bytes) => s.(db := Hydrate(s.db, entry, |bytes|), disk := s.disk[CacheOf(entry) := bytes])
    case RequestRefresh(entry, now) => s.(db := AfterCommit(s.db, Enqueue(s.db, entry.fid, RefreshTree, PathPayload(ROOT), now)))
    case RecoverExpired(now) => s.(db := RecoverLeases(s.db, now))
    case TakeJob(now) => Taking(s, now)
    case BeginUpload(entry) => s.(db := SetState(s.db, entry.fid, Uploading))
    case ParkUpload(_, now) => Idled(s, FinishConflicted(s.db, s.worker.job.id, now))
    case MoveConflict(entry, remote, now) => MovingConflict(s, entry, remote, now)
    case CloseConflict(now) => Idled(s, FinishConflicted(s.db, s.worker.job.id, now))
    case EndUpload(found, now) => Idled(s, UploadDone(s.db, s.worker.job, found, now))
    case BeginDownload => s.(db := SetState(s.db, s.worker.job.fid, Downloading))
    case EndDownload(entry, bytes, now) =>
      Idled(s, DownloadDone(s.db, s.worker.job, entry, |bytes|, now)).(disk := s.disk[CacheOf(entry) := bytes])
    case EndDelete => Idled(s, DeleteDone(s.db, s.worker.job))
    case EndMkdir(found, now) => Idled(s, RemoteSeen(s.db, s.worker.job, Some(found), now))
    case EndRename(seenThere, now) => Idled(s, RemoteSeen(s.db, s.worker.job, seenThere, now))
    case ReconcileTree(tree, remoteOrder, localOrder, now) => Reconciling(s, tree, remoteOrder, localOrder, now)
    case EndRefresh(now) => Idled(s, MarkJob(s.db, s.worker.job.id, Done, now))
    case RemoteFailure(error, now, later) => Idled(s, RetryOrFail(s.db, s.worker.job, error, now, later))
    case GiveUp => Idled(s, s.db)
    case Restart => s.(worker := Idle, seen := {})
  }

  function RootRow(): Row {
    Row(0, ROOT, None, ROOT, Directory, SyncState.Placeholder, ContentState.Placeholder, None, 0, 0, None, false)
  }

  /** A new state directory: only the root row. */
  function Initial(): Sys {
    Sys(Db(map[0 := RootRow()], map[], {}, 1, 1), map[], Idle, {})
  }

  // ---- The invariant ----

  /** The worker's copy of its job still describes the queue entry, if that entry still exists. */
  predicate HoldsJob(db: Db, job: Op) {
    && job.id < db.nextOp && job.fid < db.nextFile
    && (job.id in db.ops ==>
          && db.ops[job.id].fid == job.fid && db.ops[job.id].opType == job.opType && db.ops[job.id].status.Leased?)
    && (Drives(job.opType) && job.fid in db.files ==> HasDriver(db.ops, job.fid))
  }

  predicate WorkerOk(db: Db, w: Worker) {
    match w
    case Idle => true
    case Busy(job) => HoldsJob(db, job)
    case Closing(job) => job.id < db.nextOp && job.id !in db.ops
    case Reconciled(job) => HoldsJob(db, job) && !Drives(job.opType)
  }

  ghost predicate DbInv(db: Db) { Valid(db) && Driven(db) && AllTimely(db.ops) }

  lemma DbInvIsValid(db: Db)
    requires DbInv(db)
    ensures Valid(db)
  {
  }

  ghost predicate Inv(s: Sys) {
    && DbInv(s.db)
    && (forall r :: r in s.seen ==> RowOk(r))
    && WorkerOk(s.db, s.worker)
  }

  lemma InitialInv()
    ensures Inv(Initial())
  {
    assert LastSlash(ROOT) == 5;
  }

  lemma SoundKeepsInv(db: Db, after: Db, w: Worker)
    requires DbInv(db) && WorkerOk(db, w) && Sound(db, after)
    ensures DbInv(after) && WorkerOk(after, w)
  {
    hide FilesOk, OpsOk, References, SubtreeRename.UniquePaths, Coalesces;
    DrivenByCover(db, after);
  }

  // ---- Steps that close or touch the worker's job ----

  /** The job's own entry changes, and its file ends up not active, or the job drives nothing. */
  lemma CloseKeepsInv(db: Db, files: Files, id: nat, fid: FileId, op: Op)
    requires DbInv(db) && id in db.ops && op.id == id && op.fid == fid == db.ops[id].fid
    requires !op.status.Conflict? && Timely(op)
    requires FilesOk(files, db.nextFile) && SubtreeRename.UniquePaths(files) && files.Keys == db.files.Keys
    requires forall f :: f in files && f != fid ==> files[f] == db.files[f]
    requires fid in files ==> !Active(files[fid].state)
                              || (files[fid] == db.files[fid] && (!Drives(db.ops[id].opType) || Driver(op, fid)))
    ensures DbInv(db.(files := files, ops := db.ops[id := op]))
  {
    hide RowOk, SubtreeRename.UniquePaths;
    var ops := db.ops[id := op];
    forall f | f in files && Active(files[f].state)
      ensures HasDriver(ops, f)
    {
      var i :| i in db.ops && Driver(db.ops[i], f);
      if i == id {
        assert Driver(ops[id], f);
      } else {
        assert Driver(ops[i], f);
      }
    }
  }

  /** The job's entry is gone already; only its file's row changes, to a state that is not active. */
  lemma RowOnlyKeepsInv(db: Db, files: Files, fid: FileId)
    requires DbInv(db)
    requires FilesOk(files, db.nextFile) && SubtreeRename.UniquePaths(files) && files.Keys == db.files.Keys
    requires forall f :: f in files && f != fid ==> files[f] == db.files[f]
    requires fid in files ==> !Active(files[fid].state) || files[fid] == db.files[fid]
    ensures DbInv(db.(files := files))
  {
    hide RowOk, SubtreeRename.UniquePaths;
  }

  /** A row written at the end of a job: same identity, and no longer active unless unchanged. */
  predicate ClosingRow(row: Row, after: Row) {
    && after.fid == row.fid && after.path == row.path && RowOk(after)
    && (!Active(after.state) || after == row)
  }

  lemma FinishKeepsInv(db: Db, job: Op, row: Row, op: Op)
    requires DbInv(db) && HoldsJob(db, job)
    requires job.fid in db.files ==> ClosingRow(db.files[job.fid], row)
    requires job.fid in db.files && row == db.files[job.fid] && Active(row.state) ==> !Drives(job.opType)
    requires job.id in db.ops ==> op.id == job.id && op.fid == job.fid && !op.status.Conflict? && Timely(op)
    ensures DbInv(db.(files := if job.fid in db.files then db.files[job.fid := row] else db.files,
                      ops := if job.id in db.ops then db.ops[job.id := op] else db.ops))
  {
    hide RowOk, SubtreeRename.UniquePaths;
    var files := if job.fid in db.files then db.files[job.fid := row] else db.files;
    if job.fid in db.files { ReplaceRowFiles(db.files, db.nextFile, job.fid, row); }
    if job.id in db.ops {
      CloseKeepsInv(db, files, job.id, job.fid, op);
    } else {
      RowOnlyKeepsInv(db, files, job.fid);
    }
  }

  function Marked(op: Op, status: OpStatus, now: int): Op {
    op.(status := status, leaseExpiresAt := None, updatedAt := now)
  }

  lemma BackoffBound(retries: nat)
    ensures 1 <= Backoff(retries) <= 32
  {
    assert Pow2(5) == 32 && Pow2(4) == 16 && Pow2(3) == 8 && Pow2(2) == 4 && Pow2(1) == 2;
  }

  /** What a worker step needs to know about the row it writes. */
  lemma WrittenRowOk(row: Row, after: Row)
    requires RowOk(row) && after.fid == row.fid && after.path == row.path
    requires after.parentPath == row.parentPath && after.name == row.name && !after.state.Conflict?
    requires after.cachePath == row.cachePath || after.cachePath == Some(CachePathFor(row.fid))
    requires after.remoteDeleted ==> row.remoteDeleted
    ensures RowOk(after)
  {
  }

  lemma RowOfInv(db: Db, f: FileId)
    requires DbInv(db) && f in db.files
    ensures RowOk(db.files[f]) && db.files[f].fid == f
  {
  }

  lemma OpOfInv(db: Db, i: nat)
    requires DbInv(db) && i in db.ops
    ensures db.ops[i].id == i
  {
  }

  lemma DoneIsTimely(op: Op, now: int)
    ensures Timely(Marked(op, Done, now)) && Timely(Marked(op, PermanentError, now))
  {
  }

  lemma UploadDoneInv(db: Db, job: Op, found: RemoteEntry, now: int)
    requires DbInv(db) && HoldsJob(db, job)
    ensures DbInv(UploadDone(db, job, found, now))
  {
    hide DbInv, RowOk, HasDriver, Timely;
    var before := if job.fid in db.files then db.files[job.fid] else RootRow();
    var row := before.(state := Synced, remoteVersion := found.version, size := found.size, remoteDeleted := false);
    if job.fid in db.files {
      RowOfInv(db, job.fid);
      WrittenRowOk(before, row);
    }
    var op := if job.id in db.ops then Marked(db.ops[job.id], Done, now) else job;
    if job.id in db.ops {
      OpOfInv(db, job.id);
      DoneIsTimely(db.ops[job.id], now);
    }
    FinishKeepsInv(db, job, row, op);
  }

  lemma RemoteSeenInv(db: Db, job: Op, found: Option<RemoteEntry>, now: int)
    requires DbInv(db) && HoldsJob(db, job) && (found.None? ==> !Drives(job.opType))
    ensures DbInv(RemoteSeen(db, job, found, now))
  {
    hide DbInv, RowOk, HasDriver, Timely;
    var before := if job.fid in db.files then db.files[job.fid] else RootRow();
    var row := if found.Some? then before.(state := Synced, remoteVersion := found.value.version) else before;
    if job.fid in db.files {
      RowOfInv(db, job.fid);
      if found.Some? { WrittenRowOk(before, row); }
    }
    var op := if job.id in db.ops then Marked(db.ops[job.id], Done, now) else job;
    if job.id in db.ops {
      OpOfInv(db, job.id);
      DoneIsTimely(db.ops[job.id], now);
    }
    assert job.fid in db.files ==> db.files[job.fid := before] == db.files;
    FinishKeepsInv(db, job, row, op);
  }

  lemma DownloadDoneInv(db: Db, job: Op, entry: Row, size: nat, now: int)
    requires DbInv(db) && HoldsJob(db, job) && RowOk(entry) && entry.fid == job.fid
    ensures DbInv(DownloadDone(db, job, entry, size, now))
  {
    CanonicalCache(entry);
    hide DbInv, RowOk, HasDriver, Timely, CacheOf;
    var before := if job.fid in db.files then db.files[job.fid] else RootRow();
    var row := before.(content := Hydrated, cachePath := Some(CacheOf(entry)), size := size, state := Synced);
    if job.fid in db.files {
      RowOfInv(db, job.fid);
      WrittenRowOk(before, row);
    }
    var op := if job.id in db.ops then Marked(db.ops[job.id], Done, now) else job;
    if job.id in db.ops {
      OpOfInv(db, job.id);
      DoneIsTimely(db.ops[job.id], now);
    }
    FinishKeepsInv(db, job, row, op);
  }

  lemma CanonicalCache(entry: Row)
    requires RowOk(entry)
    ensures CacheOf(entry) == CachePathFor(entry.fid)
  {
  }

  lemma RetryOrFailInv(db: Db, job: Op, e: RemoteError, now: int, later: int)
    requires DbInv(db) && HoldsJob(db, job) && now <= later
    ensures DbInv(RetryOrFail(db, job, e, now, later))
  {
    hide DbInv, RowOk, HasDriver, Timely, Backoff;
    var before := if job.fid in db.files then db.files[job.fid] else RootRow();
    var row := before.(state := SyncState.Error);
    if job.fid in db.files {
      RowOfInv(db, job.fid);
      WrittenRowOk(before, row);
    }
    var op :=
      if job.id !in db.ops then job
      else if Retryable(e) then RetryLater(db.ops[job.id], Backoff(job.retryCount), now, later)
      else Marked(db.ops[job.id], PermanentError, later);
    if job.id in db.ops {
      OpOfInv(db, job.id);
      FailureIsTimely(db.ops[job.id], job.retryCount, now, later);
    }
    FinishKeepsInv(db, job, row, op);
  }

  lemma FailureIsTimely(op: Op, retries: nat, now: int, later: int)
    requires now <= later
    ensures Timely(RetryLater(op, Backoff(retries), now, later)) && Timely(Marked(op, PermanentError, later))
  {
    BackoffBound(retries);
  }

  lemma EndRefreshInv(db: Db, job: Op, now: int)
    requires DbInv(db) && HoldsJob(db, job) && !Drives(job.opType)
    ensures DbInv(MarkJob(db, job.id, Done, now))
  {
    hide RowOk, HasDriver, Timely;
    if job.id in db.ops {
      DoneIsTimely(db.ops[job.id], now);
      CloseKeepsInv(db, db.files, job.id, job.fid, Marked(db.ops[job.id], Done, now));
    }
  }

  lemma DeleteDoneInv(db: Db, job: Op)
    requires DbInv(db) && HoldsJob(db, job)
    ensures DbInv(DeleteDone(db, job))
  {
    hide RowOk, HasDriver, Timely, SubtreeRename.UniquePaths;
    DeleteRowSound(db, job.fid);
    assert DeleteDone(db, job) == DeleteRow(db, job.fid);
    SoundKeepsInv(db, DeleteRow(db, job.fid), Idle);
  }

  lemma {:induction false} RequeueKeepsInv(db: Db, ops: Ops)
    requires DbInv(db) && ops.Keys == db.ops.Keys && AllTimely(ops)
    requires forall i :: i in ops ==>
               && ops[i].id == db.ops[i].id && ops[i].fid == db.ops[i].fid && ops[i].opType == db.ops[i].opType
               && !ops[i].status.Conflict? && (NonTerminal(db.ops[i].status) ==> NonTerminal(ops[i].status))
    ensures DbInv(db.(ops := ops))
  {
    hide RowOk, FilesOk, Timely, SubtreeRename.UniquePaths;
    forall f | f in db.files && Active(db.files[f].state)
      ensures HasDriver(ops, f)
    {
      var i :| i in db.ops && Driver(db.ops[i], f);
      assert Driver(ops[i], f);
    }
  }

  lemma RecoverInv(db: Db, now: int)
    requires DbInv(db)
    ensures DbInv(RecoverLeases(db, now))
  {
    RequeueKeepsInv(db, RecoverLeases(db, now).ops);
  }

  lemma TakeJobInv(db: Db, now: int)
    requires DbInv(db) && NextJob(db.ops, now).Some?
    ensures var id := NextJob(db.ops, now).value;
            id in db.ops && DbInv(Lease(db, id, now)) && HoldsJob(Lease(db, id, now), LeasedOp(db.ops[id], now))
  {
    hide RowOk, SubtreeRename.UniquePaths;
    var id := NextJob(db.ops, now).value;
    assert id in EligibleIds(db.ops, now);
    var op := LeasedOp(db.ops[id], now);
    RequeueKeepsInv(db, db.ops[id := op]);
    if Drives(op.opType) {
      assert Driver(Lease(db, id, now).ops[id], op.fid);
    }
  }

  /** The state of the job's file becomes active while the job, or what replaced it, drives it. */
  lemma BeginInv(db: Db, job: Op, state: SyncState)
    requires DbInv(db) && HoldsJob(db, job) && Drives(job.opType) && !state.Conflict?
    ensures DbInv(SetState(db, job.fid, state)) && HoldsJob(SetState(db, job.fid, state), job)
  {
    if job.fid in db.files {
      var row := db.files[job.fid].(state := state);
      assert RowOk(row);
      hide RowOk, HasDriver, Timely;
      ReplaceRowSound(db, job.fid, row);
      SoundKeepsInv(db, SetState(db, job.fid, state), Busy(job));
    }
  }

  /** Making the conflict copy deletes the job that found the conflict, for good. */
  lemma ConflictDropsJob(db: Db, entry: Row, current: Option<string>, remote: Option<RemoteEntry>, now: int, id: nat)
    requires ApplyConflict(db, entry, current, remote, now).Ok? && OpsOk(db.ops, db.nextOp)
    requires id < db.nextOp && (id in db.ops ==> db.ops[id].fid == entry.fid && !db.ops[id].status.Done?)
    ensures id !in ApplyConflict(db, entry, current, remote, now).value.ops
  {
    hide RenameSubtree, NextConflictPath;
    assert id !in WithoutUnfinished(db.ops, entry.fid);
    assert db.nextOp !in WithoutUnfinished(db.ops, entry.fid);
  }

  lemma MoveConflictInv(db: Db, job: Op, entry: Row, remote: Option<RemoteEntry>, now: int)
    requires DbInv(db) && HoldsJob(db, job) && RowOk(entry) && entry.fid == job.fid
    requires remote.Some? ==> RemoteOk(remote.value)
    ensures var r := ApplyConflict(db, entry, VersionOf(remote), remote, now);
            r.Ok? ==> DbInv(r.value) && WorkerOk(r.value, Closing(job))
  {
    hide RowOk, HasDriver, ApplyConflict, Valid, Sound, RemoteOk;
    var r := ApplyConflict(db, entry, VersionOf(remote), remote, now);
    if r.Ok? {
      OkRowIsRooted(entry);
      ApplyConflictSound(db, entry, VersionOf(remote), remote, now);
      SoundKeepsInv(db, r.value, Busy(job));
      ValidHasOkOps(db);
      ConflictDropsJob(db, entry, VersionOf(remote), remote, now, job.id);
      SoundGrows(db, r.value);
    }
  }

  lemma ValidHasOkOps(db: Db)
    requires Valid(db)
    ensures OpsOk(db.ops, db.nextOp)
  {
  }

  lemma SoundGrows(db: Db, after: Db)
    requires Sound(db, after)
    ensures db.nextOp <= after.nextOp
  {
  }

  // ---- Every step ----

  predicate Local(e: Event) {
    e.Look? || e.CreateEntry? || e.CommitEdit? || e.UnlinkEntry? || e.RenameTo? || e.HydrateEntry? || e.RequestRefresh?
  }

  lemma AfterCommitSound(db: Db, r: Result<Db, SqlError>)
    requires Valid(db) && (r.Ok? ==> Sound(db, r.value))
    ensures Sound(db, AfterCommit(db, r))
  {
    hide Valid, Sound;
    SoundReflexive(db);
  }

  lemma LocalStepSound(s: Sys, e: Event)
    requires Valid(s.db) && (forall r :: r in s.seen ==> RowOk(r)) && Enabled(s, e) && Local(e)
    ensures Sound(s.db, Apply(s, e).db) && Apply(s, e).worker == s.worker
  {
    hide Valid, Sound, RowOk, Create, CommitLocal, Unlink, RenameEntryDb, Hydrate, UpsertOperation, ChildName;
    match e
    case Look(_) => SoundReflexive(s.db);
    case CreateEntry(parent, name, kind, now) =>
      OkRowIsRooted(parent);
      if Create(s.db, parent.path, name, kind, now).Ok? { CreateSound(s.db, parent.path, name, kind, now); }
      AfterCommitSound(s.db, Create(s.db, parent.path, name, kind, now));
    case CommitEdit(entry, bytes, now) =>
      if CommitLocal(s.db, entry, |bytes|, now).Ok? { CommitLocalSound(s.db, entry, |bytes|, now); }
      AfterCommitSound(s.db, CommitLocal(s.db, entry, |bytes|, now));
    case UnlinkEntry(entry, now) =>
      if Unlink(s.db, entry, now).Ok? { UnlinkSound(s.db, entry, now); }
      AfterCommitSound(s.db, Unlink(s.db, entry, now));
    case RenameTo(entry, to, now) => RenameEntrySound(s.db, entry, to, now);
    case HydrateEntry(entry, bytes) => HydrateSound(s.db, entry, |bytes|);
    case RequestRefresh(entry, now) =>
      if Enqueue(s.db, entry.fid, RefreshTree, PathPayload(ROOT), now).Ok? {
        UpsertSound(s.db, entry.fid, RefreshTree, PathPayload(ROOT), false, false, now);
      }
      AfterCommitSound(s.db, Enqueue(s.db, entry.fid, RefreshTree, PathPayload(ROOT), now));
  }

  lemma ReconcilingInv(s: Sys, tree: RemoteTree, remoteOrder: seq<string>, localOrder: seq<FileId>, now: int)
    requires Inv(s) && Enabled(s, ReconcileTree(tree, remoteOrder, localOrder, now))
    ensures Inv(Reconciling(s, tree, remoteOrder, localOrder, now))
  {
    hide Valid, Sound, RowOk, Reconcile, TreeOk, HoldsJob;
    ReconcileSound(s.db, s.disk, tree, remoteOrder, localOrder, now);
    SoundKeepsInv(s.db, Reconciling(s, tree, remoteOrder, localOrder, now).db, s.worker);
  }

  lemma FinishingOfMissingJob(db: Db, id: nat, now: int)
    requires id !in db.ops
    ensures FinishConflicted(db, id, now) == db
  {
  }

  lemma WorkerStepInv(s: Sys, e: Event)
    requires Inv(s) && Enabled(s, e) && !Local(e)
    ensures DbInv(Apply(s, e).db) && WorkerOk(Apply(s, e).db, Apply(s, e).worker)
  {
    hide DbInv, RowOk, HoldsJob, UploadDone, RemoteSeen, DownloadDone, RetryOrFail, DeleteDone, MarkJob, SetState, RecoverLeases,
         Lease, FinishConflicted, RemoteOk, Enumerates, TreeOk, ApplyConflict, NextJob;
    match e
    case RecoverExpired(now) => RecoverInv(s.db, now);
    case TakeJob(now) => TakeJobInv(s.db, now);
    case BeginUpload(entry) => BeginInv(s.db, s.worker.job, Uploading);
    case ParkUpload(entry, _) => assert false by { SeenIsNotConflicted(s, entry); }
    case MoveConflict(entry, remote, now) => MoveConflictInv(s.db, s.worker.job, entry, remote, now);
    case CloseConflict(now) => FinishingOfMissingJob(s.db, s.worker.job.id, now);
    case EndUpload(uploaded, now) => UploadDoneInv(s.db, s.worker.job, uploaded, now);
    case BeginDownload => BeginInv(s.db, s.worker.job, Downloading);
    case EndDownload(entry, bytes, now) => DownloadDoneInv(s.db, s.worker.job, entry, |bytes|, now);
    case EndDelete => DeleteDoneInv(s.db, s.worker.job);
    case EndMkdir(made, now) => RemoteSeenInv(s.db, s.worker.job, Some(made), now);
    case EndRename(seenThere, now) => RemoteSeenInv(s.db, s.worker.job, seenThere, now);
    case ReconcileTree(tree, remoteOrder, localOrder, now) => ReconcilingInv(s, tree, remoteOrder, localOrder, now);
    case EndRefresh(now) => EndRefreshInv(s.db, s.worker.job, now);
    case RemoteFailure(error, now, later) => RetryOrFailInv(s.db, s.worker.job, error, now, later);
    case GiveUp =>
    case Restart =>
  }

  lemma SeenIsNotConflicted(s: Sys, entry: Row)
    requires (forall r :: r in s.seen ==> RowOk(r)) && entry in s.seen
    ensures !entry.state.Conflict?
  {
  }

  lemma SeenStaysOk(s: Sys, e: Event)
    requires Inv(s) && Enabled(s, e)
    ensures forall r :: r in Apply(s, e).seen ==> RowOk(r)
  {
    hide RowOk, ApplyConflict, RenameEntryDb, Create, CommitLocal, Unlink, UpsertOperation, Reconcile, RetryOrFail;
    assert Apply(s, e).seen <= s.seen || (e.Look? && Apply(s, e).seen == s.seen + {s.db.files[e.fid]});
  }

  /** The invariant survives every step of every thread. */
  lemma StepKeepsInv(s: Sys, e: Event)
    requires Inv(s) && Enabled(s, e)
    ensures Inv(Apply(s, e))
  {
    SeenStaysOk(s, e);
    if Local(e) {
      LocalStepSound(s, e);
      hide RowOk, Enabled, Apply, Sound, Valid;
      SoundKeepsInv(s.db, Apply(s, e).db, s.worker);
    } else {
      WorkerStepInv(s, e);
    }
  }

  // ---- Runs ----

  /** A run so far: each step records its event and the state it leads to. */
  datatype Run = Start | Then(before: Run, event: Event, after: Sys)

  function Last(run: Run): Sys {
    match run case Start => Initial() case Then(_, _, s) => s
  }

  ghost predicate IsRun(run: Run) {
    match run
    case Start => true
    case Then(before, e, s) => IsRun(before) && Enabled(Last(before), e) && s == Apply(Last(before), e)
  }

  lemma {:induction false} ReachableInv(run: Run)
    requires IsRun(run)
    ensures Inv(Last(run))
  {
    match run
    case Start => InitialInv();
    case Then(before, e, _) =>
      ReachableInv(before);
      StepKeepsInv(Last(before), e);
  }

  /** No row is ever stuck: under every interleaving, a row that waits for an upload, an upload in
      progress, a download or a deletion has an upload, directory creation, download or deletion in the
      queue that is pending, to be retried or leased. */
  lemma NoRowIsStuck(run: Run, f: FileId)
    requires IsRun(run) && f in Last(run).db.files
    requires var state := Last(run).db.files[f].state; state.QueuedUpload? || state.Uploading? || state.Downloading? || state.QueuedDelete?
    ensures exists i :: i in Last(run).db.ops && Last(run).db.ops[i].fid == f
              && (Last(run).db.ops[i].status.Pending? || Last(run).db.ops[i].status.RetryableError? || Last(run).db.ops[i].status.Leased?)
              && (Last(run).db.ops[i].opType.Upload? || Last(run).db.ops[i].opType.Mkdir?
                  || Last(run).db.ops[i].opType.Download? || Last(run).db.ops[i].opType.Delete?)
  {
    ReachableInv(run);
    var i :| i in Last(run).db.ops && Driver(Last(run).db.ops[i], f);
  }

  /** No row and no operation is ever in the conflict state. */
  lemma NothingIsParked(run: Run)
    requires IsRun(run)
    ensures forall f :: f in Last(run).db.files ==> !Last(run).db.files[f].state.Conflict?
    ensures forall i :: i in Last(run).db.ops ==> !Last(run).db.ops[i].status.Conflict?
  {
    ReachableInv(run);
    hide ParentPathOf, NameOf, HasDriver, Timely;
  }

  /** The two places that could park a job as conflicted never do: the early one is never taken, and
      the closing one finds its queue entry already deleted and changes nothing. */
  lemma ConflictsAreNeverParked(run: Run, e: Event)
    requires IsRun(run) && Enabled(Last(run), e)
    ensures !e.ParkUpload?
    ensures e.CloseConflict? ==> Apply(Last(run), e).db == Last(run).db
  {
    ReachableInv(run);
    hide DbInv, HoldsJob;
    if e.ParkUpload? {
      SeenIsNotConflicted(Last(run), e.entry);
    } else if e.CloseConflict? {
      FinishingOfMissingJob(Last(run).db, Last(run).worker.job.id, e.now);
    }
  }

  predicate Agrees(row: Row, f: FileId) {
    && row.fid == f && row.parentPath == ParentPathOf(row.path)
    && (row.path != ROOT ==> row.name == NameOf(row.path))
    && (row.cachePath.Some? ==> row.cachePath.value == CachePathFor(f))
  }

  predicate ShareCache(a: Row, b: Row) { a.cachePath.Some? && a.cachePath == b.cachePath }

  /** Identity, path columns and cache paths agree in every reachable state; no two rows share a path
      or a cache file, and no operation outlives its row. */
  lemma ColumnsAgree(run: Run)
    requires IsRun(run)
    ensures SubtreeRename.UniquePaths(Last(run).db.files)
    ensures forall f :: f in Last(run).db.files ==> Agrees(Last(run).db.files[f], f)
    ensures forall f, g :: f in Last(run).db.files && g in Last(run).db.files && ShareCache(Last(run).db.files[f], Last(run).db.files[g]) ==> f == g
    ensures forall i :: i in Last(run).db.ops ==> Last(run).db.ops[i].fid in Last(run).db.files
  {
    ReachableInv(run);
    assert forall f :: f in Last(run).db.files ==> RowOk(Last(run).db.files[f]) && Last(run).db.files[f].fid == f;
    hide ParentPathOf, NameOf;
  }

  /** A path without an empty first name, such as `disk://x` would have. */
  predicate SplitsCleanly(p: string) { LastSlash(p) >= 0 && p != ROOT && p[..LastSlash(p)] != ROOT }

  /** A directory listing is exactly the visible rows whose path is the directory's joined with a name. */
  lemma ListingIsExact(run: Run, parent: string, f: FileId)
    requires IsRun(run) && f in Last(run).db.files && ROOT <= parent && SplitsCleanly(Last(run).db.files[f].path)
    ensures (f in ListChildren(Last(run).db.files, parent))
            <==> (Visible(Last(run).db.files[f]) && Last(run).db.files[f].path == Join(parent, Last(run).db.files[f].name))
  {
    ReachableInv(run);
    var p := Last(run).db.files[f].path;
    assert RowOk(Last(run).db.files[f]);
    ParentStaysRooted(p);
    SplitThenJoin(p);
    hide ParentPathOf, NameOf;
    if p == Join(parent, NameOf(p)) {
      JoinIsInjective(parent, ParentPathOf(p).value, NameOf(p));
    }
  }

  lemma JoinIsInjective(a: string, b: string, name: string)
    requires ROOT <= a && ROOT <= b && Join(a, name) == Join(b, name)
    ensures a == b
  {
    var cutA := if a == ROOT then 5 else |a|;
    var cutB := if b == ROOT then 5 else |b|;
    assert |Join(a, name)| == cutA + 1 + |name| && |Join(b, name)| == cutB + 1 + |name|;
    if a != ROOT && b != ROOT {
      assert a == Join(a, name)[..cutA] && b == Join(b, name)[..cutB];
    }
  }

  /** A worker step that ends its job without an error does not leave the job leased. */
  lemma EndedJobIsNotLeased(s: Sys, e: Event)
    requires Inv(s) && Enabled(s, e) && !s.worker.Idle? && !Local(e)
    requires Apply(s, e).worker.Idle? && !e.GiveUp? && !e.Restart? && !e.MoveConflict? && !e.ReconcileTree?
    ensures var id := s.worker.job.id; id in Apply(s, e).db.ops ==> !Apply(s, e).db.ops[id].status.Leased?
  {
    hide RowOk, HasDriver, Timely;
  }
}
