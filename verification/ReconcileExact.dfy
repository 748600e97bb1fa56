/** Reconciling makes the table a mirror of the remote tree, whatever the iteration orders, on exactly the
    tables that have nothing to protect from it. */
module ReconcileExact {
  import opened Wrappers
  import opened RemotePaths
  import opened Tables
  import opened SyncSteps
  import opened TableInvariants
  import opened HelperSoundness
  import opened SyncMachine
  import SubtreeRename
  import ReconcileSafety

  predicate Settled(state: SyncState) { state.Synced? || state.Downloading? || state.Placeholder? }

  /** The snapshot row is gone from the remote side. */
  predicate Vanished(row: Row, remote: RemoteTree) { row.path != ROOT && row.path !in remote }

  /** Nothing about the row keeps it from following the remote side: where there is a remote object it waits
      neither for an upload nor for a deletion, and elsewhere it is not a recorded conflict copy either,
      unless it is about to be deleted anyway. */
  predicate Follows(db: Db, f: FileId, remote: RemoteTree)
    requires f in db.files
  {
    var row := db.files[f];
    if Vanished(row, remote) then row.state.QueuedDelete? || (Settled(row.state) && forall c :: c in db.conflicts && c.fid == f ==> c.conflictPath != row.path)
    else Settled(row.state)
  }

  predicate Mirrorable(db: Db, remote: RemoteTree) {
    forall f :: f in db.files ==> Follows(db, f, remote)
  }

  /** The row was cached and its remote file has a version the row does not know. */
  predicate NeedsDownload(row: Row, remote: RemoteEntry) {
    remote.path != ROOT && row.cachePath.Some? && remote.kind.File? && row.remoteVersion != remote.version
  }

  /** What a row looks like once it mirrors a remote object; `prior` is the row that had the path before. */
  predicate Mirrors(prior: Option<Row>, row: Row, remote: RemoteEntry) {
    && row.path == remote.path && row.kind == remote.kind && row.remoteVersion == remote.version
    && row.state == (if prior.Some? && NeedsDownload(prior.value, remote) then Downloading else Synced)
    && (prior.Some? ==> row.fid == prior.value.fid && row.cachePath == prior.value.cachePath && row.localVersion == prior.value.localVersion)
    && (prior.None? ==> row.cachePath.None?)
    && row.size == remote.size && row.content == (if row.cachePath.Some? then Hydrated else ContentState.Placeholder)
  }

  predicate HasDownload(db: Db, f: FileId) { RunnableIds(db.ops, f, Download) != {} }

  // ---- The remote pass ----

  /** After the remote paths `done`: rows at those paths mirror the remote, all others are untouched. */
  ghost predicate Progress(prior: Db, db: Db, remote: RemoteTree, done: set<string>) {
    && Valid(db) && db.conflicts == prior.conflicts
    && (forall p :: p in done ==> p in remote && Occupied(db.files, p))
    && (forall f :: f in prior.files ==> f in db.files && db.files[f].path == prior.files[f].path)
    && (forall f :: f in prior.files && prior.files[f].path !in done ==> db.files[f] == prior.files[f])
    && (forall f :: f in prior.files && prior.files[f].path in done ==>
          Mirrors(Some(prior.files[f]), db.files[f], remote[prior.files[f].path]))
    && (forall f :: f in db.files && f !in prior.files ==>
          && db.files[f].path in done && !Occupied(prior.files, db.files[f].path)
          && Mirrors(None, db.files[f], remote[db.files[f].path]))
    && (forall f :: f in db.files && db.files[f].path in done && db.files[f].state.Downloading? ==> HasDownload(db, f))
  }

  lemma AtPath(files: Files, f: FileId)
    requires SubtreeRename.UniquePaths(files) && f in files
    ensures RowAt(files, files[f].path) == Some(f)
  {
  }

  lemma EnqueueKeepsRunnable(db: Db, fid: FileId, t: OpType, payload: Payload, now: int)
    requires Enqueue(db, fid, t, payload, now).Ok? && OpsOk(db.ops, db.nextOp)
    ensures var after := Enqueue(db, fid, t, payload, now).value;
            && RunnableIds(after.ops, fid, t) != {}
            && after.files == db.files && after.conflicts == db.conflicts
            && forall g, u :: RunnableIds(db.ops, g, u) <= RunnableIds(after.ops, g, u)
  {
    var after := Enqueue(db, fid, t, payload, now).value;
    var ops := WithoutSuperseded(db.ops, fid, false, false);
    assert ops == db.ops;
    var ids := RunnableIds(ops, fid, t);
    var id := if ids != {} then Least(ids) else db.nextOp;
    var op := after.ops[id];
    assert after.ops == db.ops[id := op] && op.fid == fid && op.opType == t && Runnable(op.status);
    assert id in db.ops ==> db.ops[id].fid == fid && db.ops[id].opType == t;
    hide UpsertOperation, WithoutSuperseded;
    WritingRunnable(db.ops, id, op);
  }

  lemma WritingRunnable(ops: Ops, id: nat, op: Op)
    requires Runnable(op.status) && (id in ops ==> ops[id].fid == op.fid && ops[id].opType == op.opType)
    ensures id in RunnableIds(ops[id := op], op.fid, op.opType)
    ensures forall g, u :: RunnableIds(ops, g, u) <= RunnableIds(ops[id := op], g, u)
  {
    forall g, u
      ensures RunnableIds(ops, g, u) <= RunnableIds(ops[id := op], g, u)
    {
    }
  }

  /** The step for a path that has a row. */
  lemma ExistingRowStep(prior: Db, db: Db, remote: RemoteTree, done: set<string>, p: string, f: FileId, now: int)
    requires Valid(prior) && Mirrorable(prior, remote) && TreeOk(remote) && Progress(prior, db, remote, done)
    requires p in remote && p !in done && f in prior.files && prior.files[f].path == p
    ensures var r := ReconcileRemote(db, Some(prior.files[f]), remote[p], now);
            r.Ok? && RowWritten(db, r.value, f, RemoteUpdate(prior.files[f], remote[p], if NeedsDownload(prior.files[f], remote[p]) then Downloading else Synced))
            && (NeedsDownload(prior.files[f], remote[p]) ==> HasDownload(r.value, f))
  {
    hide RowOk, Progress, QueueKept, Mirrorable, RemoteOk, Valid, Sound, UpsertOperation, EnsureRemoteRow;
    var row := prior.files[f];
    UntouchedRow(prior, db, remote, done, f);
    ProgressValid(prior, db, remote, done);
    AtPath(db.files, f);
    RowWrittenByEnsure(db, remote[p], Synced, f);
    if NeedsDownload(row, remote[p]) {
      var db1 := EnsureRemoteRow(db, remote[p], Downloading);
      RowWrittenByEnsure(db, remote[p], Downloading, f);
      RefreshCachedSound(db, f, remote[p], PathPayload(p), now);
      EnqueueKeepsRunnable(db1, f, Download, PathPayload(p), now) by { EnsureKeepsQueue(db, remote[p], Downloading); }
    }
  }

  lemma UntouchedRow(prior: Db, db: Db, remote: RemoteTree, done: set<string>, f: FileId)
    requires Mirrorable(prior, remote) && Progress(prior, db, remote, done) && f in prior.files && prior.files[f].path !in done
    ensures f in db.files && db.files[f] == prior.files[f] && (prior.files[f].path in remote ==> Settled(prior.files[f].state))
  {
    assert Follows(prior, f, remote);
  }

  lemma EnsureKeepsQueue(db: Db, remote: RemoteEntry, state: SyncState)
    ensures EnsureRemoteRow(db, remote, state).ops == db.ops && EnsureRemoteRow(db, remote, state).nextOp == db.nextOp
    ensures EnsureRemoteRow(db, remote, state).conflicts == db.conflicts
  {
  }

  lemma RowWrittenByEnsure(db: Db, remote: RemoteEntry, state: SyncState, f: FileId)
    requires RowAt(db.files, remote.path) == Some(f)
    ensures RowWritten(db, EnsureRemoteRow(db, remote, state), f, RemoteUpdate(db.files[f], remote, state))
  {
  }

  lemma ProgressValid(prior: Db, db: Db, remote: RemoteTree, done: set<string>)
    requires Progress(prior, db, remote, done)
    ensures Valid(db) && SubtreeRename.UniquePaths(db.files) && OpsOk(db.ops, db.nextOp)
  {
  }

  /** One row replaced or inserted, conflicts untouched, no runnable operation lost. */
  ghost predicate RowWritten(db: Db, after: Db, f: FileId, row: Row) {
    && after.files == db.files[f := row] && after.conflicts == db.conflicts
    && forall g :: HasDownload(db, g) ==> HasDownload(after, g)
  }

  lemma MissingRowStep(prior: Db, db: Db, remote: RemoteTree, done: set<string>, p: string, now: int)
    requires TreeOk(remote) && Progress(prior, db, remote, done)
    requires p in remote && p !in done && !Occupied(prior.files, p)
    ensures var r := ReconcileRemote(db, None, remote[p], now);
            r.Ok? && RowWritten(db, r.value, db.nextFile, RemoteInsert(db.nextFile, remote[p], Synced))
  {
    assert !Occupied(db.files, p) by {
      forall f | f in db.files ensures db.files[f].path != p {
        if f in prior.files { assert prior.files[f].path != p; }
      }
    }
  }

  lemma WrittenProgress(prior: Db, db: Db, after: Db, remote: RemoteTree, done: set<string>, p: string, f: FileId, row: Row)
    requires Progress(prior, db, remote, done) && Valid(after) && p in remote && p !in done && remote[p].path == p
    requires RowWritten(db, after, f, row) && row.path == p
    requires f in db.files ==> f in prior.files && prior.files[f].path == p
    requires f !in db.files ==> !Occupied(prior.files, p)
    requires Mirrors(if f in db.files then Some(prior.files[f]) else None, row, remote[p])
    requires row.state.Downloading? ==> HasDownload(after, f)
    requires f !in db.files ==> f !in prior.files
    requires forall g :: g in prior.files && g != f ==> prior.files[g].path != p
    ensures Progress(prior, after, remote, done + {p})
  {
    hide RowOk, HasDownload, Valid, Mirrors, Occupied;
    forall q | q in done + {p}
      ensures q in remote && Occupied(after.files, q)
    {
      WrittenIsOccupied(db.files, f, row, q);
    }
  }

  /** A written row occupies its path, and gives up no other path than that one. */
  lemma WrittenIsOccupied(files: Files, f: FileId, row: Row, q: string)
    requires q == row.path || (Occupied(files, q) && (f in files ==> files[f].path == row.path))
    ensures Occupied(files[f := row], q)
  {
    if q == row.path {
      assert files[f := row][f].path == q;
    } else {
      var g :| g in files && files[g].path == q;
      assert files[f := row][g].path == q;
    }
  }

  lemma RemoteStepProgress(prior: Db, db: Db, remote: RemoteTree, done: set<string>, p: string, now: int)
    requires Valid(prior) && Mirrorable(prior, remote) && TreeOk(remote) && Progress(prior, db, remote, done) && p in remote && p !in done
    ensures var r := ReconcileRemote(db, LocalAt(prior.files, p), remote[p], now);
            r.Ok? && Progress(prior, r.value, remote, done + {p})
  {
    var r := ReconcileRemote(db, LocalAt(prior.files, p), remote[p], now);
    ProgressValid(prior, db, remote, done);
    if Occupied(prior.files, p) {
      var f := RowAt(prior.files, p).value;
      var row := RemoteUpdate(prior.files[f], remote[p], if NeedsDownload(prior.files[f], remote[p]) then Downloading else Synced);
      assert LocalAt(prior.files, p) == Some(prior.files[f]);
      ExistingRowStep(prior, db, remote, done, p, f, now);
      StepIsValid(prior, db, remote, p, now);
      UntouchedRow(prior, db, remote, done, f);
      UpdateMirrors(prior.files[f], remote[p]);
      OthersElsewhere(prior.files, f);
      assert f in db.files;
      WrittenProgress(prior, db, r.value, remote, done, p, f, row);
    } else {
      var row := RemoteInsert(db.nextFile, remote[p], Synced);
      MissingRowStep(prior, db, remote, done, p, now);
      StepIsValid(prior, db, remote, p, now);
      FreshIsNew(prior, db, remote, done);
      WrittenProgress(prior, db, r.value, remote, done, p, db.nextFile, row);
    }
  }

  lemma StepIsValid(prior: Db, db: Db, remote: RemoteTree, p: string, now: int)
    requires Valid(prior) && Valid(db) && TreeOk(remote) && p in remote
    requires ReconcileRemote(db, LocalAt(prior.files, p), remote[p], now).Ok?
    ensures Valid(ReconcileRemote(db, LocalAt(prior.files, p), remote[p], now).value)
  {
    hide RowOk, ReconcileRemote, RemoteOk;
    ReconcileRemoteSound(db, LocalAt(prior.files, p), remote[p], now);
  }

  lemma UpdateMirrors(row: Row, remote: RemoteEntry)
    requires Settled(row.state) && row.path == remote.path
    ensures var state := if NeedsDownload(row, remote) then Downloading else Synced;
            Mirrors(Some(row), RemoteUpdate(row, remote, state), remote)
  {
  }

  lemma OthersElsewhere(files: Files, f: FileId)
    requires SubtreeRename.UniquePaths(files) && f in files
    ensures forall g :: g in files && g != f ==> files[g].path != files[f].path
  {
  }

  lemma FreshIsNew(prior: Db, db: Db, remote: RemoteTree, done: set<string>)
    requires Progress(prior, db, remote, done)
    ensures db.nextFile !in db.files && db.nextFile !in prior.files
  {
    hide RowOk, Mirrors;
  }

  lemma {:induction false} RemotePassProgress(prior: Db, db: Db, remote: RemoteTree, done: set<string>, order: seq<string>,
                                              all: set<string>, now: int)
    requires Valid(prior) && Mirrorable(prior, remote) && TreeOk(remote) && Progress(prior, db, remote, done)
    requires Distinct(order) && (forall p :: p in order ==> p in remote && p !in done)
    requires forall p :: p in all <==> p in done || p in order
    ensures var r := RemotePass(db, prior.files, remote, order, now);
            r.Ok? && Progress(prior, r.value, remote, all)
    decreases |order|
  {
    hide Valid, Mirrorable, Progress, ReconcileRemote, LocalAt, RemoteOk;
    if order == [] {
      assert all == done;
    } else {
      var p, rest := order[0], order[1..];
      assert p in order && remote[p].path == p;
      RemoteStepProgress(prior, db, remote, done, p, now);
      var db1 := ReconcileRemote(db, LocalAt(prior.files, p), remote[p], now).value;
      assert forall i :: 0 <= i < |rest| ==> rest[i] == order[i + 1] && rest[i] != p;
      RemotePassProgress(prior, db1, remote, done + {p}, rest, all, now);
    }
  }

  // ---- The local pass ----

  /** Some vanished rows deleted, all other rows as after the remote pass. */
  ghost predicate Pruned(prior: Db, mid: Db, db: Db, remote: RemoteTree, seen: set<FileId>) {
    && db.conflicts <= prior.conflicts
    && db.files.Keys == mid.files.Keys - (set f | f in seen && f in prior.files && Vanished(prior.files[f], remote))
    && (forall f :: f in db.files ==> db.files[f] == mid.files[f])
    && (forall f :: f in db.files && HasDownload(mid, f) ==> HasDownload(db, f))
  }

  lemma LocalStepPrunes(prior: Db, mid: Db, db: Db, disk: Disk, remote: RemoteTree, seen: set<FileId>, f: FileId, now: int)
    requires Mirrorable(prior, remote) && Pruned(prior, mid, db, remote, seen) && f in prior.files && prior.files[f].fid == f
    ensures var o := ReconcileLocal(db, disk, prior.files[f], remote, now);
            o.result.Ok? && Pruned(prior, mid, o.result.value, remote, seen + {f})
  {
    hide HasDownload, Pruned, DeleteRow;
    var row := prior.files[f];
    assert Follows(prior, f, remote);
    if Vanished(row, remote) {
      NotACopyYet(prior, mid, db, remote, seen, f);
      DeletingPrunes(prior, mid, db, remote, seen, f);
    } else {
      SkippingPrunes(prior, mid, db, remote, seen, f);
    }
  }

  lemma NotACopyYet(prior: Db, mid: Db, db: Db, remote: RemoteTree, seen: set<FileId>, f: FileId)
    requires Pruned(prior, mid, db, remote, seen) && f in prior.files
    ensures !IsConflictCopy(prior, f, prior.files[f].path) ==> !IsConflictCopy(db, f, prior.files[f].path)
  {
    hide HasDownload;
  }

  lemma SkippingPrunes(prior: Db, mid: Db, db: Db, remote: RemoteTree, seen: set<FileId>, f: FileId)
    requires Pruned(prior, mid, db, remote, seen) && f in prior.files && !Vanished(prior.files[f], remote)
    ensures Pruned(prior, mid, db, remote, seen + {f})
  {
    hide HasDownload, Vanished;
  }

  lemma DeletingPrunes(prior: Db, mid: Db, db: Db, remote: RemoteTree, seen: set<FileId>, f: FileId)
    requires Pruned(prior, mid, db, remote, seen) && f in prior.files && Vanished(prior.files[f], remote)
    ensures Pruned(prior, mid, DeleteRow(db, f), remote, seen + {f})
  {
    hide HasDownload, Vanished;
    forall g | g in DeleteRow(db, f).files && HasDownload(mid, g)
      ensures HasDownload(DeleteRow(db, f), g)
    {
      DownloadSurvives(db, f, g);
    }
  }

  lemma DownloadSurvives(db: Db, f: FileId, g: FileId)
    requires g != f && HasDownload(db, g)
    ensures HasDownload(DeleteRow(db, f), g)
  {
    var i :| i in RunnableIds(db.ops, g, Download);
    assert i in RunnableIds(DeleteRow(db, f).ops, g, Download);
  }

  lemma {:induction false} LocalPassPrunes(prior: Db, mid: Db, db: Db, disk: Disk, remote: RemoteTree, seen: set<FileId>,
                                           order: seq<FileId>, all: set<FileId>, now: int)
    requires Mirrorable(prior, remote) && Pruned(prior, mid, db, remote, seen) && SnapshotOk(prior.files)
    requires forall f :: f in order ==> f in prior.files
    requires forall f :: f in all <==> f in seen || f in order
    ensures var o := LocalPass(db, disk, prior.files, order, remote, now);
            o.result.Ok? && Pruned(prior, mid, o.result.value, remote, all)
    decreases |order|
  {
    hide Mirrorable, Pruned, ReconcileLocal, RowOk;
    if order == [] {
      assert all == seen;
    } else {
      var f, rest := order[0], order[1..];
      assert f in order && prior.files[f].fid == f;
      LocalStepPrunes(prior, mid, db, disk, remote, seen, f, now);
      var o := ReconcileLocal(db, disk, prior.files[f], remote, now);
      LocalPassPrunes(prior, mid, o.result.value, o.disk, remote, seen + {f}, rest, all, now);
    }
  }

  // ---- The mirror ----

  /** The table after a reconcile mirrors the remote tree: exactly its paths, rows that stay keep path and
      file id, kinds and versions match, and a row is downloading exactly when it had a cache and its
      remote file changed, in which case a download job is runnable. */
  ghost predicate MirrorOf(prior: Db, after: Db, remote: RemoteTree) {
    && (forall p :: Occupied(after.files, p) <==> p in remote)
    && (forall f :: f in after.files && f in prior.files ==> after.files[f].path == prior.files[f].path)
    && (forall f :: f in prior.files && prior.files[f].path in remote ==>
          f in after.files && Mirrors(Some(prior.files[f]), after.files[f], remote[prior.files[f].path]))
    && (forall f :: f in after.files && f !in prior.files ==>
          && after.files[f].path in remote && !Occupied(prior.files, after.files[f].path)
          && Mirrors(None, after.files[f], remote[after.files[f].path]))
    && (forall f :: f in after.files && after.files[f].state.Downloading? ==> HasDownload(after, f))
  }

  lemma PrunedPaths(prior: Db, mid: Db, after: Db, remote: RemoteTree, p: string)
    requires ROOT in remote && Progress(prior, mid, remote, remote.Keys) && Pruned(prior, mid, after, remote, prior.files.Keys)
    ensures Occupied(after.files, p) <==> p in remote
  {
    hide Valid, HasDownload, Mirrors;
    if p in remote {
      var f :| f in mid.files && mid.files[f].path == p;
      assert f in prior.files ==> prior.files[f].path == p;
      assert f in after.files && after.files[f].path == p;
    }
    if Occupied(after.files, p) {
      var f :| f in after.files && after.files[f].path == p;
      assert mid.files[f].path == p;
    }
  }

  lemma PrunedIsMirror(prior: Db, mid: Db, after: Db, remote: RemoteTree)
    requires ROOT in remote && Progress(prior, mid, remote, remote.Keys) && Pruned(prior, mid, after, remote, prior.files.Keys)
    ensures MirrorOf(prior, after, remote)
  {
    hide Valid, HasDownload, Mirrors, Occupied;
    forall p
      ensures Occupied(after.files, p) <==> p in remote
    {
      PrunedPaths(prior, mid, after, remote, p);
    }
    PathInTree(after, remote);
  }

  lemma PathInTree(after: Db, remote: RemoteTree)
    requires forall p :: Occupied(after.files, p) <==> p in remote
    ensures forall f :: f in after.files ==> after.files[f].path in remote
  {
    forall f | f in after.files
      ensures after.files[f].path in remote
    {
      assert Occupied(after.files, after.files[f].path);
    }
  }

  lemma StartOfProgress(prior: Db, remote: RemoteTree)
    requires Valid(prior)
    ensures Progress(prior, prior, remote, {})
  {
  }

  lemma MirrorableIsMirrored(db: Db, disk: Disk, remote: RemoteTree, remoteOrder: seq<string>, localOrder: seq<FileId>, now: int)
    requires Valid(db) && Mirrorable(db, remote) && TreeOk(remote) && ROOT in remote
    requires Enumerates(remoteOrder, remote.Keys) && Enumerates(localOrder, db.files.Keys)
    ensures var o := Reconcile(db, disk, remote, remoteOrder, localOrder, now);
            o.result.Ok? && Valid(o.result.value) && MirrorOf(db, o.result.value, remote)
  {
    hide Valid, Mirrorable, Progress, Pruned, RemotePass, LocalPass, RemoteOk, MirrorOf, RowOk;
    StartOfProgress(db, remote);
    RemotePassProgress(db, db, remote, {}, remoteOrder, remote.Keys, now);
    var mid := RemotePass(db, db.files, remote, remoteOrder, now).value;
    NothingPrunedYet(db, mid, remote);
    ValidSnapshot(db);
    LocalPassPrunes(db, mid, mid, disk, remote, {}, localOrder, db.files.Keys, now);
    PrunedIsMirror(db, mid, LocalPass(mid, disk, db.files, localOrder, remote, now).result.value, remote);
    ReconcileStaysValid(db, disk, remote, remoteOrder, localOrder, now);
  }

  lemma ReconcileStaysValid(db: Db, disk: Disk, remote: RemoteTree, remoteOrder: seq<string>, localOrder: seq<FileId>, now: int)
    requires Valid(db) && TreeOk(remote)
    requires Enumerates(remoteOrder, remote.Keys) && Enumerates(localOrder, db.files.Keys)
    requires Reconcile(db, disk, remote, remoteOrder, localOrder, now).result.Ok?
    ensures Valid(Reconcile(db, disk, remote, remoteOrder, localOrder, now).result.value)
  {
    hide RowOk, RemoteOk, Reconcile;
    ReconcileSound(db, disk, remote, remoteOrder, localOrder, now);
  }

  lemma NothingPrunedYet(prior: Db, mid: Db, remote: RemoteTree)
    requires Progress(prior, mid, remote, remote.Keys)
    ensures Pruned(prior, mid, mid, remote, {})
  {
    hide Valid, Mirrors, HasDownload;
  }

  // ---- Rows that do not follow ----

  /** The row has stayed where it was, still waiting for its deletion and still a recorded copy if it was. */
  predicate Stays(prior: Db, db: Db, f: FileId)
    requires f in prior.files
  {
    var row := prior.files[f];
    && f < db.nextFile && f in db.files && db.files[f].path == row.path
    && (row.state.QueuedDelete? ==> db.files[f].state.QueuedDelete?)
    && (IsConflictCopy(prior, f, row.path) ==> IsConflictCopy(db, f, row.path))
  }

  lemma EnsureStays(prior: Db, db: Db, remote: RemoteEntry, state: SyncState, f: FileId)
    requires f in prior.files && Stays(prior, db, f)
    ensures Stays(prior, EnsureRemoteRow(db, remote, state), f)
  {
    hide ParentPathOf;
  }

  lemma EnqueueStays(prior: Db, db: Db, fid: FileId, payload: Payload, now: int, f: FileId)
    requires f in prior.files && Stays(prior, db, f) && Enqueue(db, fid, Download, payload, now).Ok?
    ensures Stays(prior, Enqueue(db, fid, Download, payload, now).value, f)
  {
  }

  lemma RemoteStepStays(prior: Db, db: Db, local: Option<Row>, remote: RemoteEntry, now: int, f: FileId)
    requires f in prior.files && Stays(prior, db, f) && (local.Some? ==> !Unsynced(local.value.state))
    requires ReconcileRemote(db, local, remote, now).Ok?
    ensures Stays(prior, ReconcileRemote(db, local, remote, now).value, f)
  {
    hide Stays, EnsureRemoteRow, UpsertOperation, ApplyConflict;
    EnsureStays(prior, db, remote, Synced, f);
    EnsureStays(prior, db, remote, Downloading, f);
    var db1 := EnsureRemoteRow(db, remote, Downloading);
    match RowAt(db1.files, remote.path)
    case Some(g) =>
      if Enqueue(db1, g, Download, PathPayload(remote.path), now).Ok? { EnqueueStays(prior, db1, g, PathPayload(remote.path), now, f); }
    case None =>
  }

  lemma {:induction false} RemotePassStays(prior: Db, db: Db, remote: RemoteTree, order: seq<string>, now: int, f: FileId)
    requires f in prior.files && Stays(prior, db, f) && (forall g :: g in prior.files ==> !Unsynced(prior.files[g].state))
    requires (forall p :: p in order ==> p in remote) && RemotePass(db, prior.files, remote, order, now).Ok?
    ensures Stays(prior, RemotePass(db, prior.files, remote, order, now).value, f)
    decreases |order|
  {
    hide Stays, ReconcileRemote;
    if order != [] {
      var r := remote[order[0]];
      RemoteStepStays(prior, db, LocalAt(prior.files, r.path), r, now, f);
      RemotePassStays(prior, ReconcileRemote(db, LocalAt(prior.files, r.path), r, now).value, remote, order[1..], now, f);
    }
  }

  lemma LocalStepStays(prior: Db, db: Db, disk: Disk, g: FileId, remote: RemoteTree, now: int, f: FileId)
    requires f in prior.files && Stays(prior, db, f) && g in prior.files && prior.files[g].fid == g && !Unsynced(prior.files[g].state)
    requires !Vanished(prior.files[f], remote) || (!prior.files[f].state.QueuedDelete? && IsConflictCopy(prior, f, prior.files[f].path))
    ensures var o := ReconcileLocal(db, disk, prior.files[g], remote, now);
            o.result.Ok? && Stays(prior, o.result.value, f)
  {
  }

  lemma {:induction false} LocalPassStays(prior: Db, db: Db, disk: Disk, order: seq<FileId>, remote: RemoteTree, now: int, f: FileId)
    requires f in prior.files && Stays(prior, db, f) && SnapshotOk(prior.files)
    requires forall g :: g in prior.files ==> !Unsynced(prior.files[g].state)
    requires !Vanished(prior.files[f], remote) || (!prior.files[f].state.QueuedDelete? && IsConflictCopy(prior, f, prior.files[f].path))
    requires forall g :: g in order ==> g in prior.files
    ensures var o := LocalPass(db, disk, prior.files, order, remote, now);
            o.result.Ok? && Stays(prior, o.result.value, f)
    decreases |order|
  {
    hide Stays, ReconcileLocal, RowOk, IsConflictCopy;
    if order != [] {
      assert prior.files[order[0]].fid == order[0];
      LocalStepStays(prior, db, disk, order[0], remote, now, f);
      var o := ReconcileLocal(db, disk, prior.files[order[0]], remote, now);
      LocalPassStays(prior, o.result.value, o.disk, order[1..], remote, now, f);
    }
  }

  /** A row that stays unsynced, waits for deletion at a remote path or is a copy elsewhere spoils the mirror. */
  lemma StayingSpoilsMirror(prior: Db, after: Db, remote: RemoteTree, f: FileId)
    requires f in prior.files && f in after.files && ROOT in remote
    requires Unsynced(after.files[f].state) || (Stays(prior, after, f) && (after.files[f].state.QueuedDelete? || Vanished(prior.files[f], remote)))
    ensures !MirrorOf(prior, after, remote)
  {
    hide HasDownload;
    assert Occupied(after.files, after.files[f].path);
  }

  lemma UnmirrorableIsNotMirrored(db: Db, disk: Disk, remote: RemoteTree, remoteOrder: seq<string>, localOrder: seq<FileId>, now: int, f: FileId)
    requires Valid(db) && f in db.files && !Follows(db, f, remote) && TreeOk(remote) && ROOT in remote
    requires Enumerates(remoteOrder, remote.Keys) && Enumerates(localOrder, db.files.Keys)
    requires Unsynced(db.files[f].state) || forall g :: g in db.files ==> !Unsynced(db.files[g].state)
    ensures var o := Reconcile(db, disk, remote, remoteOrder, localOrder, now);
            o.result.Ok? ==> !MirrorOf(db, o.result.value, remote)
  {
    NeverParked(db, f);
    hide Valid, MirrorOf, RemotePass, LocalPass, RemoteOk, IsConflictCopy, TreeOk;
    var o := Reconcile(db, disk, remote, remoteOrder, localOrder, now);
    if o.result.Ok? {
      if Unsynced(db.files[f].state) {
        ReconcileSafety.ReconcileHolds(db, disk, remote, remoteOrder, localOrder, now, f);
      } else {
        var mid := RemotePass(db, db.files, remote, remoteOrder, now).value;
        ValidSnapshot(db);
        RemotePassStays(db, db, remote, remoteOrder, now, f);
        LocalPassStays(db, mid, disk, localOrder, remote, now, f);
      }
      StayingSpoilsMirror(db, o.result.value, remote, f);
    }
  }

  lemma NeverParked(db: Db, f: FileId)
    requires Valid(db) && f in db.files
    ensures !db.files[f].state.Conflict? && f < db.nextFile
  {
    assert RowOk(db.files[f]);
  }

  /** Reconciling commits and yields the mirror, for every iteration order, if and only if every row follows:
      nothing is unsynced, nothing at a remote path waits for its deletion, and no conflict copy stands
      elsewhere. */
  lemma ReconcileMirrorsRemoteIff(db: Db, disk: Disk, remote: RemoteTree, remoteOrder: seq<string>, localOrder: seq<FileId>, now: int)
    requires Valid(db) && TreeOk(remote) && ROOT in remote
    requires Enumerates(remoteOrder, remote.Keys) && Enumerates(localOrder, db.files.Keys)
    ensures var o := Reconcile(db, disk, remote, remoteOrder, localOrder, now);
            (o.result.Ok? && MirrorOf(db, o.result.value, remote)) <==> Mirrorable(db, remote)
  {
    hide Valid, MirrorOf, Reconcile, TreeOk, Follows;
    if Mirrorable(db, remote) {
      MirrorableIsMirrored(db, disk, remote, remoteOrder, localOrder, now);
    } else if f :| f in db.files && Unsynced(db.files[f].state) {
      UnsyncedDoesNotFollow(db, f, remote);
      UnmirrorableIsNotMirrored(db, disk, remote, remoteOrder, localOrder, now, f);
    } else {
      var f :| f in db.files && !Follows(db, f, remote);
      UnmirrorableIsNotMirrored(db, disk, remote, remoteOrder, localOrder, now, f);
    }
  }

  lemma UnsyncedDoesNotFollow(db: Db, f: FileId, remote: RemoteTree)
    requires f in db.files && Unsynced(db.files[f].state)
    ensures !Follows(db, f, remote)
  {
  }
}
