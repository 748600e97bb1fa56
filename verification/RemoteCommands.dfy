/** Where the operations that delete or move remote objects come from: over every run, each one in the queue was asked
    for by a local deletion or rename of just that row and path. Reconciling, conflicts, failures, recovered leases
    and restarts never add one and never change its file or its paths. */
module RemoteCommands {
  import opened Wrappers
  import opened RemotePaths
  import opened Tables
  import opened SyncSteps
  import opened HelperSoundness
  import opened SyncMachine
  import ConflictCopies

  /** Types of operations that take objects away from where they are on the remote side. */
  predicate Commands(t: OpType) { t.Delete? || t.ReconcileRemoteDelete? || t.Rename? || t.Move? }

  predicate SameCommand(op: Op, after: Op) { op.fid == after.fid && op.opType == after.opType && op.payload == after.payload }

  predicate NoNewCommands(ops: Ops, after: Ops) {
    forall i :: i in after && Commands(after[i].opType) ==> i in ops && SameCommand(ops[i], after[i])
  }

  /** The event is the local deletion, or the rename, that the operation carries to the remote side. */
  predicate Asks(e: Event, op: Op) {
    || (e.UnlinkEntry? && op.opType == Delete && op.fid == e.entry.fid && op.payload == PathPayload(e.entry.path))
    || (e.RenameTo? && op.opType == OpType.Rename && op.fid == e.entry.fid && op.payload == RenamePayload(e.entry.path, e.to))
  }

  ghost predicate AskedFor(run: Run, op: Op) {
    match run
    case Start => false
    case Then(before, e, _) => AskedFor(before, op) || Asks(e, op)
  }

  // ---- Helpers ----

  lemma UpsertCommands(db: Db, fid: FileId, opType: OpType, payload: Payload, uploads: bool, all: bool, now: int)
    requires UpsertOperation(db, fid, opType, payload, uploads, all, now).Ok?
    ensures var after := UpsertOperation(db, fid, opType, payload, uploads, all, now).value;
            && (!Commands(opType) ==> NoNewCommands(db.ops, after.ops))
            && forall i :: i in after.ops && Commands(after.ops[i].opType) ==>
                 || (i in db.ops && SameCommand(db.ops[i], after.ops[i]))
                 || (after.ops[i].fid == fid && after.ops[i].opType == opType && after.ops[i].payload == payload)
  {
    var ids := RunnableIds(WithoutSuperseded(db.ops, fid, uploads, all), fid, opType);
    if ids != {} { assert Least(ids) in ids; }
  }

  lemma ConflictCommands(db: Db, entry: Row, current: Option<string>, remote: Option<RemoteEntry>, now: int)
    requires ApplyConflict(db, entry, current, remote, now).Ok?
    ensures NoNewCommands(db.ops, ApplyConflict(db, entry, current, remote, now).value.ops)
  {
    hide RenameSubtree, NextConflictPath, UpsertOperation, RemoteUpdate, RemoteInsert;
    var copyPath := NextConflictPath(db.files, entry.path).value;
    var renamed := RenameSubtree(db.files, entry.path, DestinationAt(copyPath));
    ConflictCopies.RenameKeepsKeys(db.files, entry.path, DestinationAt(copyPath));
    var db1 := db.(files := renamed.files[entry.fid := MarkedAsCopy(renamed.files[entry.fid])], ops := WithoutUnfinished(db.ops, entry.fid));
    UpsertCommands(db1, entry.fid, Upload, PathPayload(copyPath), false, false, now);
  }

  lemma RemoteStepCommands(db: Db, local: Option<Row>, remote: RemoteEntry, now: int)
    requires ReconcileRemote(db, local, remote, now).Ok?
    ensures NoNewCommands(db.ops, ReconcileRemote(db, local, remote, now).value.ops)
  {
    hide ApplyConflict, UpsertOperation, RemoteUpdate, RemoteInsert;
    if local.Some? && ApplyConflict(db, local.value, remote.version, Some(remote), now).Ok? {
      ConflictCommands(db, local.value, remote.version, Some(remote), now);
    }
    var db1 := EnsureRemoteRow(db, remote, Downloading);
    match RowAt(db1.files, remote.path)
    case Some(f) =>
      if Enqueue(db1, f, Download, PathPayload(remote.path), now).Ok? {
        UpsertCommands(db1, f, Download, PathPayload(remote.path), false, false, now);
      }
    case None =>
  }

  lemma {:induction false} RemotePassCommands(db: Db, snapshot: Files, remote: RemoteTree, order: seq<string>, now: int)
    requires (forall p :: p in order ==> p in remote) && RemotePass(db, snapshot, remote, order, now).Ok?
    ensures NoNewCommands(db.ops, RemotePass(db, snapshot, remote, order, now).value.ops)
    decreases |order|
  {
    hide ReconcileRemote, LocalAt;
    if order != [] {
      var local := LocalAt(snapshot, remote[order[0]].path);
      RemoteStepCommands(db, local, remote[order[0]], now);
      RemotePassCommands(ReconcileRemote(db, local, remote[order[0]], now).value, snapshot, remote, order[1..], now);
    }
  }

  lemma LocalStepCommands(db: Db, disk: Disk, row: Row, remote: RemoteTree, now: int)
    requires ReconcileLocal(db, disk, row, remote, now).result.Ok?
    ensures NoNewCommands(db.ops, ReconcileLocal(db, disk, row, remote, now).result.value.ops)
  {
    hide ApplyConflict;
    if ApplyConflict(db, row, None, None, now).Ok? { ConflictCommands(db, row, None, None, now); }
  }

  lemma {:induction false} LocalPassCommands(db: Db, disk: Disk, snapshot: Files, order: seq<FileId>, remote: RemoteTree, now: int)
    requires (forall f :: f in order ==> f in snapshot) && LocalPass(db, disk, snapshot, order, remote, now).result.Ok?
    ensures NoNewCommands(db.ops, LocalPass(db, disk, snapshot, order, remote, now).result.value.ops)
    decreases |order|
  {
    hide ReconcileLocal;
    if order != [] {
      LocalStepCommands(db, disk, snapshot[order[0]], remote, now);
      var o := ReconcileLocal(db, disk, snapshot[order[0]], remote, now);
      LocalPassCommands(o.result.value, o.disk, snapshot, order[1..], remote, now);
    }
  }

  lemma ReconcileCommands(s: Sys, tree: RemoteTree, remoteOrder: seq<string>, localOrder: seq<FileId>, now: int)
    requires s.worker.Busy? && Enumerates(remoteOrder, tree.Keys) && Enumerates(localOrder, s.db.files.Keys)
    ensures NoNewCommands(s.db.ops, Reconciling(s, tree, remoteOrder, localOrder, now).db.ops)
  {
    hide RemotePass, LocalPass;
    var o := Reconcile(s.db, s.disk, tree, remoteOrder, localOrder, now);
    if o.result.Ok? {
      RemotePassCommands(s.db, s.db.files, tree, remoteOrder, now);
      LocalPassCommands(RemotePass(s.db, s.db.files, tree, remoteOrder, now).value, s.disk, s.db.files, localOrder, tree, now);
    }
  }

  // ---- Steps ----

  lemma LocalCommands(s: Sys, e: Event)
    requires Enabled(s, e) && (e.CreateEntry? || e.CommitEdit? || e.HydrateEntry? || e.RequestRefresh? || e.Look?)
    ensures NoNewCommands(s.db.ops, Apply(s, e).db.ops)
  {
    hide UpsertOperation, Join, ListChildren, ParentPathOf;
    match e
    case CreateEntry(parent, name, kind, now) =>
      var row := CreatedRow(s.db.nextFile, parent.path, name, kind);
      var db1 := s.db.(files := s.db.files[row.fid := row], nextFile := s.db.nextFile + 1);
      var t := if kind.File? then Upload else Mkdir;
      if Enqueue(db1, row.fid, t, PathPayload(row.path), now).Ok? { UpsertCommands(db1, row.fid, t, PathPayload(row.path), false, false, now); }
    case CommitEdit(entry, bytes, now) =>
      if entry.fid in s.db.files {
        var db1 := s.db.(files := s.db.files[entry.fid := Edited(s.db.files[entry.fid], CacheOf(entry), |bytes|)]);
        if Enqueue(db1, entry.fid, Upload, PathPayload(entry.path), now).Ok? {
          UpsertCommands(db1, entry.fid, Upload, PathPayload(entry.path), false, false, now);
        }
      }
    case RequestRefresh(entry, now) =>
      if Enqueue(s.db, entry.fid, RefreshTree, PathPayload(ROOT), now).Ok? {
        UpsertCommands(s.db, entry.fid, RefreshTree, PathPayload(ROOT), false, false, now);
      }
    case HydrateEntry(_, _) =>
    case Look(_) =>
  }

  lemma UnlinkCommands(db: Db, entry: Row, now: int, i: nat)
    requires Unlink(db, entry, now).Ok?
    requires i in Unlink(db, entry, now).value.ops && Commands(Unlink(db, entry, now).value.ops[i].opType)
    ensures var op := Unlink(db, entry, now).value.ops[i];
            || (i in db.ops && SameCommand(db.ops[i], op))
            || (op.fid == entry.fid && op.opType == Delete && op.payload == PathPayload(entry.path))
  {
    hide UpsertOperation;
    if entry.remoteVersion.Some? {
      UpsertCommands(SetState(db, entry.fid, QueuedDelete), entry.fid, Delete, PathPayload(entry.path), true, true, now);
    }
  }

  lemma RenameCommands(db: Db, entry: Row, to: string, now: int, i: nat)
    requires i in RenameEntryDb(db, entry, to, now).ops && Commands(RenameEntryDb(db, entry, to, now).ops[i].opType)
    ensures var op := RenameEntryDb(db, entry, to, now).ops[i];
            || (i in db.ops && SameCommand(db.ops[i], op))
            || (op.fid == entry.fid && op.opType == OpType.Rename && op.payload == RenamePayload(entry.path, to))
  {
    hide UpsertOperation, RenameSubtree;
    var db1 := db.(files := RenameSubtree(db.files, entry.path, DestinationAt(to)).files);
    if Enqueue(db1, entry.fid, OpType.Rename, RenamePayload(entry.path, to), now).Ok? {
      UpsertCommands(db1, entry.fid, OpType.Rename, RenamePayload(entry.path, to), false, false, now);
    }
  }

  lemma AskingCommands(s: Sys, e: Event, i: nat)
    requires Enabled(s, e) && (e.UnlinkEntry? || e.RenameTo?)
    requires i in Apply(s, e).db.ops && Commands(Apply(s, e).db.ops[i].opType)
    ensures (i in s.db.ops && SameCommand(s.db.ops[i], Apply(s, e).db.ops[i])) || Asks(e, Apply(s, e).db.ops[i])
  {
    hide Unlink, RenameEntryDb, Enabled;
    match e
    case UnlinkEntry(entry, now) => if Unlink(s.db, entry, now).Ok? { UnlinkCommands(s.db, entry, now, i); }
    case RenameTo(entry, to, now) => RenameCommands(s.db, entry, to, now, i);
  }

  lemma LeaseCommands(db: Db, now: int)
    requires NextJob(db.ops, now).Some?
    ensures NextJob(db.ops, now).value in db.ops && NoNewCommands(db.ops, Lease(db, NextJob(db.ops, now).value, now).ops)
  {
    assert NextJob(db.ops, now).value in EligibleIds(db.ops, now);
  }

  /** A step that closes the worker's job or gives it up. */
  predicate Closes(e: Event) {
    e.EndUpload? || e.EndDownload? || e.EndDelete? || e.EndMkdir? || e.EndRename? || e.EndRefresh? || e.RemoteFailure? || e.ParkUpload?
  }

  lemma MarkCommands(db: Db, id: nat, status: OpStatus, now: int)
    ensures NoNewCommands(db.ops, MarkJob(db, id, status, now).ops) && NoNewCommands(db.ops, FinishConflicted(db, id, now).ops)
  {
  }

  lemma DoneCommands(db: Db, job: Op, found: Option<RemoteEntry>, entry: Row, size: nat, now: int)
    ensures NoNewCommands(db.ops, RemoteSeen(db, job, found, now).ops)
    ensures NoNewCommands(db.ops, DownloadDone(db, job, entry, size, now).ops)
    ensures NoNewCommands(db.ops, DeleteDone(db, job).ops)
    ensures found.Some? ==> NoNewCommands(db.ops, UploadDone(db, job, found.value, now).ops)
  {
  }

  lemma FailureCommands(db: Db, job: Op, e: RemoteError, now: int, later: int)
    ensures NoNewCommands(db.ops, RetryOrFail(db, job, e, now, later).ops)
  {
  }

  lemma ClosingCommands(s: Sys, e: Event)
    requires Enabled(s, e) && Closes(e)
    ensures NoNewCommands(s.db.ops, Apply(s, e).db.ops)
  {
    hide TreeOk, NextJob, MarkJob, FinishConflicted, RemoteSeen, DownloadDone, DeleteDone, UploadDone, RetryOrFail, NoNewCommands;
    match e
    case EndUpload(found, now) => DoneCommands(s.db, s.worker.job, Some(found), RootRow(), 0, now);
    case EndDownload(entry, bytes, now) => DoneCommands(s.db, s.worker.job, None, entry, |bytes|, now);
    case EndDelete => DoneCommands(s.db, s.worker.job, None, RootRow(), 0, 0);
    case EndMkdir(found, now) => DoneCommands(s.db, s.worker.job, Some(found), RootRow(), 0, now);
    case EndRename(seenThere, now) => DoneCommands(s.db, s.worker.job, seenThere, RootRow(), 0, now);
    case EndRefresh(now) => MarkCommands(s.db, s.worker.job.id, Done, now);
    case RemoteFailure(error, now, later) => FailureCommands(s.db, s.worker.job, error, now, later);
    case ParkUpload(_, now) => MarkCommands(s.db, s.worker.job.id, Done, now);
  }

  lemma WorkerCommands(s: Sys, e: Event)
    requires Enabled(s, e) && !Local(e)
    ensures NoNewCommands(s.db.ops, Apply(s, e).db.ops)
  {
    hide ApplyConflict, Reconcile, TreeOk, NextJob, RetryOrFail, UploadDone, DownloadDone, DeleteDone, RemoteSeen;
    if Closes(e) {
      ClosingCommands(s, e);
      return;
    }
    match e
    case TakeJob(now) => LeaseCommands(s.db, now);
    case ReconcileTree(tree, remoteOrder, localOrder, now) => ReconcileCommands(s, tree, remoteOrder, localOrder, now);
    case MoveConflict(entry, remote, now) =>
      if ApplyConflict(s.db, entry, VersionOf(remote), remote, now).Ok? { ConflictCommands(s.db, entry, VersionOf(remote), remote, now); }
    case _ =>
  }

  // ---- Runs ----

  lemma AskedStays(run: Run, op: Op, after: Op)
    requires AskedFor(run, op) && SameCommand(op, after)
    ensures AskedFor(run, after)
  {
  }

  /** In every reachable state, under every interleaving, an operation that deletes or moves remote objects was
      asked for by an earlier step of the run: the deletion of that row at that path, or its rename between
      those two paths. */
  lemma {:induction false} CommandsWereAskedFor(run: Run, i: nat)
    requires IsRun(run) && i in Last(run).db.ops && Commands(Last(run).db.ops[i].opType)
    ensures AskedFor(run, Last(run).db.ops[i])
  {
    hide Enabled, Apply;
    match run
    case Start =>
    case Then(before, e, s) =>
      var prior := Last(before);
      if e.UnlinkEntry? || e.RenameTo? {
        AskingCommands(prior, e, i);
      } else if Local(e) {
        LocalCommands(prior, e);
      } else {
        WorkerCommands(prior, e);
      }
      if i in prior.db.ops && SameCommand(prior.db.ops[i], s.db.ops[i]) {
        CommandsWereAskedFor(before, i);
        AskedStays(before, prior.db.ops[i], s.db.ops[i]);
      }
  }
}
