/** What each hold of the database lock does, as a function from one database value to the next.
    The rows called `entry` were read in an earlier hold and may be stale by now. */
module SyncSteps {
  import opened Wrappers
  import opened RemotePaths
  import opened Tables

  const LEASE_SECONDS := 30
  const BACKOFF_DOUBLINGS := 5

  newtype byte = x: int | 0 <= x < 256
  type Bytes = seq<byte>
  type Disk = map<CachePath, Bytes>

  datatype RemoteError =
    NotFound | Unauthorized | Forbidden | Conflict | Auth | Io | InvalidResponse | Http | Status

  predicate Retryable(e: RemoteError) { e.Unauthorized? || e.Forbidden? || e.Http? || e.Status? }

  /** A statement that fails leaves the database as it was. */
  function AfterCommit(db: Db, r: Result<Db, SqlError>): Db {
    match r case Ok(next) => next case Err(_) => db
  }

  // ---- Local file operations ----

  function CreatedRow(fid: FileId, parentPath: string, name: string, kind: Kind): Row {
    Row(fid, Join(parentPath, name), Some(parentPath), name, kind, QueuedUpload,
        if kind.File? then Hydrated else ContentState.Placeholder,
        None, 1, 0, if kind.File? then Some(CachePathFor(fid)) else None, false)
  }

  ghost function Create(db: Db, parentPath: string, name: string, kind: Kind, now: int): Result<Db, SqlError> {
    var row := CreatedRow(db.nextFile, parentPath, name, kind);
    if Occupied(db.files, row.path) then Err(UniqueViolation)
    else
      Enqueue(db.(files := db.files[row.fid := row], nextFile := db.nextFile + 1),
              row.fid, if kind.File? then Upload else Mkdir, PathPayload(row.path), now)
  }

  function CacheOf(entry: Row): CachePath {
    match entry.cachePath case Some(p) => p case None => CachePathFor(entry.fid)
  }

  function Edited(row: Row, cache: CachePath, size: nat): Row {
    row.(state := QueuedUpload, content := Hydrated, localVersion := row.localVersion + 1, size := size,
         cachePath := Some(cache), remoteDeleted := false)
  }

  ghost function CommitLocal(db: Db, entry: Row, size: nat, now: int): Result<Db, SqlError> {
    if entry.fid !in db.files then Err(ForeignKeyViolation)
    else
      Enqueue(db.(files := db.files[entry.fid := Edited(db.files[entry.fid], CacheOf(entry), size)]),
              entry.fid, Upload, PathPayload(entry.path), now)
  }

  ghost function Unlink(db: Db, entry: Row, now: int): Result<Db, SqlError> {
    if entry.remoteVersion.None? then Ok(DeleteRow(db, entry.fid))
    else UpsertOperation(SetState(db, entry.fid, QueuedDelete), entry.fid, Delete, PathPayload(entry.path), true, true, now)
  }

  /** The renaming updates commit one by one, so a failing one keeps those before it. */
  ghost function RenameEntry(db: Db, entry: Row, to: string, now: int): Result<Db, (Db, SqlError)> {
    var renamed := RenameSubtree(db.files, entry.path, DestinationAt(to));
    var db1 := db.(files := renamed.files);
    if !renamed.ok then Err((db1, UniqueViolation))
    else if entry.remoteVersion.None? then Ok(db1)
    else
      match Enqueue(db1, entry.fid, Rename, RenamePayload(entry.path, to), now)
      case Ok(db2) => Ok(db2)
      case Err(e) => Err((db1, e))
  }

  function Hydrate(db: Db, entry: Row, size: nat): Db {
    if entry.fid !in db.files then db
    else
      var row := db.files[entry.fid];
      db.(files := db.files[entry.fid :=
        row.(content := Hydrated, cachePath := Some(CacheOf(entry)), size := size,
             state := if row.state == SyncState.Placeholder then Synced else row.state)])
  }

  // ---- The queue ----

  function Released(op: Op, now: int): Op {
    op.(status := Pending, leaseExpiresAt := None, updatedAt := now)
  }

  predicate LeaseExpired(op: Op, now: int) {
    op.status.Leased? && (match op.leaseExpiresAt case Some(t) => t <= now case None => 0 <= now)
  }

  function RecoverLeases(db: Db, now: int): Db {
    db.(ops := map i | i in db.ops :: if LeaseExpired(db.ops[i], now) then Released(db.ops[i], now) else db.ops[i])
  }

  predicate Eligible(op: Op, now: int) {
    Runnable(op.status) && (op.nextRetryAt.Some? ==> op.nextRetryAt.value <= now)
  }

  function EligibleIds(ops: Ops, now: int): set<nat> {
    set i | i in ops && Eligible(ops[i], now)
  }

  ghost function NextJob(ops: Ops, now: int): Option<nat> {
    var ids := EligibleIds(ops, now);
    if ids == {} then None else Some(Least(ids))
  }

  function LeasedOp(op: Op, now: int): Op {
    op.(status := Leased, leaseExpiresAt := Some(now + LEASE_SECONDS), updatedAt := now)
  }

  function Lease(db: Db, id: nat, now: int): Db
    requires id in db.ops
  {
    db.(ops := db.ops[id := LeasedOp(db.ops[id], now)])
  }

  function MarkJob(db: Db, id: nat, status: OpStatus, now: int): Db {
    if id in db.ops then
      db.(ops := db.ops[id := db.ops[id].(status := status, leaseExpiresAt := None, updatedAt := now)])
    else db
  }

  /** Closes a job as conflicted and marks its file. */
  function FinishConflicted(db: Db, id: nat, now: int): Db {
    if id in db.ops then SetState(MarkJob(db, id, OpStatus.Conflict, now), db.ops[id].fid, SyncState.Conflict) else db
  }

  function Pow2(n: nat): nat { if n == 0 then 1 else 2 * Pow2(n - 1) }

  function Backoff(retries: nat): nat {
    Pow2(if retries < BACKOFF_DOUBLINGS then retries else BACKOFF_DOUBLINGS)
  }

  function RetryLater(op: Op, backoff: nat, now: int, later: int): Op {
    op.(status := RetryableError, retryCount := op.retryCount + 1, nextRetryAt := Some(now + backoff),
        leaseExpiresAt := None, updatedAt := later)
  }

  /** A remote call failed: try again later, or park the job. `now` and `later` are two clock reads. */
  function RetryOrFail(db: Db, job: Op, e: RemoteError, now: int, later: int): Db {
    var db1 :=
      if !Retryable(e) then MarkJob(db, job.id, PermanentError, later)
      else if job.id in db.ops then
        db.(ops := db.ops[job.id := RetryLater(db.ops[job.id], Backoff(job.retryCount), now, later)])
      else db;
    SetState(db1, job.fid, SyncState.Error)
  }

  // ---- What a finished job writes back ----

  function UploadDone(db: Db, job: Op, found: RemoteEntry, now: int): Db {
    var db1 :=
      if job.fid in db.files then
        db.(files := db.files[job.fid := db.files[job.fid].(state := Synced, remoteVersion := found.version,
                                                            size := found.size, remoteDeleted := false)])
      else db;
    MarkJob(db1, job.id, Done, now)
  }

  function DeleteDone(db: Db, job: Op): Db {
    DeleteRow(db.(ops := db.ops - {job.id}), job.fid)
  }

  /** A created or renamed object that was found on the remote side afterwards. */
  function RemoteSeen(db: Db, job: Op, found: Option<RemoteEntry>, now: int): Db {
    var db1 :=
      if found.Some? && job.fid in db.files then
        db.(files := db.files[job.fid := db.files[job.fid].(state := Synced, remoteVersion := found.value.version)])
      else db;
    MarkJob(db1, job.id, Done, now)
  }

  function DownloadDone(db: Db, job: Op, entry: Row, size: nat, now: int): Db {
    var db1 :=
      if job.fid in db.files then
        db.(files := db.files[job.fid := db.files[job.fid].(content := Hydrated, cachePath := Some(CacheOf(entry)),
                                                            size := size, state := Synced)])
      else db;
    MarkJob(db1, job.id, Done, now)
  }

  // ---- Reconciling with the remote tree ----

  type RemoteTree = map<string, RemoteEntry>

  predicate Keyed(remote: RemoteTree) {
    forall p :: p in remote ==> remote[p].path == p
  }

  ghost function ReconcileRemote(db: Db, local: Option<Row>, remote: RemoteEntry, now: int): Result<Db, SqlError> {
    if remote.path == ROOT || local.None? then Ok(EnsureRemoteRow(db, remote, Synced))
    else
      var row := local.value;
      if row.remoteVersion == remote.version then Ok(EnsureRemoteRow(db, remote, Synced))
      else if Unsynced(row.state) then ApplyConflict(db, row, remote.version, Some(remote), now)
      else if row.cachePath.Some? && remote.kind.File? then
        var db1 := EnsureRemoteRow(db, remote, Downloading);
        match RowAt(db1.files, remote.path)
        case Some(f) => Enqueue(db1, f, Download, PathPayload(remote.path), now)
        case None => Ok(db1)
      else Ok(EnsureRemoteRow(db, remote, Synced))
  }

  ghost function LocalAt(snapshot: Files, path: string): Option<Row> {
    match RowAt(snapshot, path) case Some(f) => Some(snapshot[f]) case None => None
  }

  ghost function RemotePass(db: Db, snapshot: Files, remote: RemoteTree, order: seq<string>, now: int): Result<Db, SqlError>
    requires forall p :: p in order ==> p in remote
    decreases |order|
  {
    if order == [] then Ok(db)
    else
      match ReconcileRemote(db, LocalAt(snapshot, remote[order[0]].path), remote[order[0]], now)
      case Err(e) => Err(e)
      case Ok(db1) => RemotePass(db1, snapshot, remote, order[1..], now)
  }

  /** A pass over local rows also removes cache files, at once and for good. */
  datatype LocalOutcome = LocalOutcome(result: Result<Db, SqlError>, disk: Disk)

  ghost function ReconcileLocal(db: Db, disk: Disk, row: Row, remote: RemoteTree, now: int): LocalOutcome {
    if row.path == ROOT || row.path in remote then LocalOutcome(Ok(db), disk)
    else if row.state.QueuedDelete? then LocalOutcome(Ok(DeleteRow(db, row.fid)), disk)
    else if IsConflictCopy(db, row.fid, row.path) then LocalOutcome(Ok(db), disk)
    else if Unsynced(row.state) then LocalOutcome(ApplyConflict(db, row, None, None, now), disk)
    else LocalOutcome(Ok(DeleteRow(db, row.fid)), if row.cachePath.Some? then disk - {row.cachePath.value} else disk)
  }

  ghost function LocalPass(db: Db, disk: Disk, snapshot: Files, order: seq<FileId>, remote: RemoteTree, now: int): LocalOutcome
    requires forall f :: f in order ==> f in snapshot
    decreases |order|
  {
    if order == [] then LocalOutcome(Ok(db), disk)
    else
      var o := ReconcileLocal(db, disk, snapshot[order[0]], remote, now);
      match o.result
      case Err(e) => o
      case Ok(db1) => LocalPass(db1, o.disk, snapshot, order[1..], remote, now)
  }

  /** The two passes in one transaction. An error rolls the tables back but not the disk. */
  ghost function Reconcile(db: Db, disk: Disk, remote: RemoteTree, remoteOrder: seq<string>, localOrder: seq<FileId>, now: int)
    : LocalOutcome
    requires forall p :: p in remoteOrder ==> p in remote
    requires forall f :: f in localOrder ==> f in db.files
  {
    match RemotePass(db, db.files, remote, remoteOrder, now)
    case Err(e) => LocalOutcome(Err(e), disk)
    case Ok(db1) => LocalPass(db1, disk, db.files, localOrder, remote, now)
  }
}
