/** What a committed reconcile does for unsynced rows, on any table and in any order: where the remote side has
    changed or is gone it makes a recorded copy and queues its upload, and never lets the row adopt the
    foreign version of its own path. */
module ReconcileConflicts {
  import opened Wrappers
  import opened RemotePaths
  import opened Tables
  import opened SyncSteps
  import opened TableInvariants
  import opened HelperSoundness
  import opened SyncMachine
  import ReconcileSafety
  import ConflictCopies
  import ConflictNames
  import SubtreeRename
  import QueueBounds

  // ---- What is tracked ----

  /** The file has a conflict record of this kind. */
  predicate Recorded(db: Db, f: FileId, path: string, base: Option<string>, current: Option<string>) {
    exists c :: c in db.conflicts && c.fid == f && c.originalPath == path && c.baseVersion == base && c.currentVersion == current
                && c.conflictPath != path
  }

  /** The file has an upload that is pending, to be retried or leased. */
  predicate UploadUnfinished(db: Db, f: FileId) {
    exists i :: i in db.ops && db.ops[i].fid == f && db.ops[i].opType.Upload?
                && (db.ops[i].status.Pending? || db.ops[i].status.RetryableError? || db.ops[i].status.Leased?)
  }

  /** The row waits for its upload and knows no version, unless one of an object at some other path. */
  predicate NothingAdopted(remote: RemoteTree, row: Row, path: string) {
    row.state.QueuedUpload? && (row.remoteVersion.Some? ==> exists q :: q in remote && q != path && remote[q].version == row.remoteVersion)
  }

  predicate CopyMadeFor(db: Db, remote: RemoteTree, f: FileId, path: string, base: Option<string>, current: Option<string>) {
    && f < db.nextFile && f in db.files && NothingAdopted(remote, db.files[f], path)
    && UploadUnfinished(db, f) && Recorded(db, f, path, base, current)
  }

  // ---- Steps for other paths keep it ----

  lemma EnsureKeepsCopy(db: Db, remote: RemoteTree, q: string, state: SyncState, f: FileId, path: string, base: Option<string>, current: Option<string>)
    requires CopyMadeFor(db, remote, f, path, base, current) && q in remote && q != path && remote[q].path == q
    ensures CopyMadeFor(EnsureRemoteRow(db, remote[q], state), remote, f, path, base, current)
  {
    hide ParentPathOf, UploadUnfinished, Recorded;
    var after := EnsureRemoteRow(db, remote[q], state);
    SameTablesKeep(db, after, f, path, base, current);
    assert NothingAdopted(remote, after.files[f], path);
  }

  lemma SameTablesKeep(db: Db, after: Db, f: FileId, path: string, base: Option<string>, current: Option<string>)
    requires after.ops == db.ops && after.conflicts == db.conflicts
    ensures UploadUnfinished(after, f) <==> UploadUnfinished(db, f)
    ensures Recorded(after, f, path, base, current) <==> Recorded(db, f, path, base, current)
  {
  }

  lemma EnqueueKeepsCopy(db: Db, remote: RemoteTree, fid: FileId, opType: OpType, payload: Payload, now: int,
                         f: FileId, path: string, base: Option<string>, current: Option<string>)
    requires CopyMadeFor(db, remote, f, path, base, current) && OpsOk(db.ops, db.nextOp)
    requires Enqueue(db, fid, opType, payload, now).Ok?
    ensures CopyMadeFor(Enqueue(db, fid, opType, payload, now).value, remote, f, path, base, current)
  {
    hide NothingAdopted, Recorded;
    EnqueueKeepsUpload(db, fid, opType, payload, now, f);
    RecordsStay(db, Enqueue(db, fid, opType, payload, now).value, f, path, base, current);
  }

  lemma RecordsStay(db: Db, after: Db, f: FileId, path: string, base: Option<string>, current: Option<string>)
    requires Recorded(db, f, path, base, current) && forall c :: c in db.conflicts && c.fid == f ==> c in after.conflicts
    ensures Recorded(after, f, path, base, current)
  {
  }

  lemma EnqueueKeepsUpload(db: Db, fid: FileId, opType: OpType, payload: Payload, now: int, f: FileId)
    requires UploadUnfinished(db, f) && OpsOk(db.ops, db.nextOp) && Enqueue(db, fid, opType, payload, now).Ok?
    ensures UploadUnfinished(Enqueue(db, fid, opType, payload, now).value, f)
  {
    QueueBounds.NothingSuperseded(db.ops, fid);
    var after := Enqueue(db, fid, opType, payload, now).value;
    var i :| i in db.ops && db.ops[i].fid == f && db.ops[i].opType.Upload?
             && (db.ops[i].status.Pending? || db.ops[i].status.RetryableError? || db.ops[i].status.Leased?);
    assert i in after.ops && after.ops[i].fid == f && after.ops[i].opType.Upload?
           && (after.ops[i].status.Pending? || after.ops[i].status.RetryableError? || after.ops[i].status.Leased?);
  }

  /** The conflict of another row. */
  lemma OtherConflictKeepsCopy(db: Db, entry: Row, current2: Option<string>, at: Option<RemoteEntry>, now: int,
                               remote: RemoteTree, f: FileId, path: string, base: Option<string>, current: Option<string>)
    requires Valid(db) && ROOT <= entry.path && entry.fid != f && CopyMadeFor(db, remote, f, path, base, current)
    requires at.Some? ==> at.value.path in remote && at.value == remote[at.value.path] && at.value.path != path
    requires ApplyConflict(db, entry, current2, at, now).Ok?
    ensures CopyMadeFor(ApplyConflict(db, entry, current2, at, now).value, remote, f, path, base, current)
  {
    hide Valid, RenameSubtree, NextConflictPath, DestinationAt, UpsertOperation, EnsureRemoteRow, NothingAdopted, Recorded,
         UploadUnfinished, RowOk;
    var copyPath := NextConflictPath(db.files, entry.path).value;
    ConflictPathIsRooted(db.files, entry.path);
    RenameSound(db, entry.path, copyPath);
    var renamed := RenameSubtree(db.files, entry.path, DestinationAt(copyPath));
    var moved := db.(files := renamed.files);
    SoundIsValid(db, moved);
    var db1 := MarkedCopy(moved, entry.fid);
    MarkedCopyValid(moved, entry.fid);
    ValidHasOkOps(db1);
    MovedKeepsAdoption(db.files[f], moved.files[f], remote, path);
    CancelKeepsUpload(db, entry.fid, f);
    RecordsStay(db, db1, f, path, base, current);
    SameUploads(db.(ops := WithoutUnfinished(db.ops, entry.fid)), db1, f);
    assert CopyMadeFor(db1, remote, f, path, base, current);
    EnqueueKeepsCopy(db1, remote, entry.fid, Upload, PathPayload(copyPath), now, f, path, base, current);
    var db2 := Enqueue(db1, entry.fid, Upload, PathPayload(copyPath), now).value;
    var db3 := db2.(conflicts := db2.conflicts + {ConflictRecord(entry.fid, entry.path, copyPath, entry.remoteVersion, current2)});
    RecordsStay(db2, db3, f, path, base, current);
    SameUploads(db2, db3, f);
    if at.Some? { EnsureKeepsCopy(db3, remote, at.value.path, Synced, f, path, base, current); }
  }

  lemma SameUploads(db: Db, after: Db, f: FileId)
    requires after.ops == db.ops
    ensures UploadUnfinished(after, f) <==> UploadUnfinished(db, f)
  {
  }

  lemma CancelKeepsUpload(db: Db, fid: FileId, f: FileId)
    requires fid != f && UploadUnfinished(db, f)
    ensures UploadUnfinished(db.(ops := WithoutUnfinished(db.ops, fid)), f)
  {
    var i :| i in db.ops && db.ops[i].fid == f && db.ops[i].opType.Upload?
             && (db.ops[i].status.Pending? || db.ops[i].status.RetryableError? || db.ops[i].status.Leased?);
    assert i in WithoutUnfinished(db.ops, fid);
  }

  lemma MovedKeepsAdoption(row: Row, moved: Row, remote: RemoteTree, path: string)
    requires OnlyMoved(row, moved) && NothingAdopted(remote, row, path)
    ensures NothingAdopted(remote, moved, path)
  {
  }

  // ---- The conflict itself ----

  /** The chosen path is never a beginning of the old one, so nothing renamed lands on the old path. */
  lemma ChosenIsNoPrefix(files: Files, path: string)
    requires ROOT <= path && path != ROOT && NextConflictPath(files, path).Some?
    ensures !(NextConflictPath(files, path).value <= path)
  {
    hide ConflictNames.NextConflictName, UsedNames;
    ParentStaysRooted(path);
    var parent, n := ParentPathOf(path).value, NameOf(path);
    var next := ConflictNames.NextConflictName(n, UsedNames(files, parent)).value;
    ConflictCopies.NameHasNoSlash(path);
    ConflictNames.NextNameIsNoPrefix(n, UsedNames(files, parent));
    ConflictNames.NextNameHasNoSlash(n, UsedNames(files, parent));
    JoinIsNoPrefix(path, parent, n, next);
  }

  lemma JoinIsNoPrefix(path: string, parent: string, n: string, next: string)
    requires ROOT <= path && path != ROOT && ParentPathOf(path) == Some(parent) && n == NameOf(path)
    requires next != "" && SlashFree(next) && !(next <= n)
    ensures !(Join(parent, next) <= path)
  {
    var i := LastSlash(path);
    ParentStaysRooted(path);
    var stem := path[..i];
    SplitAtSlash(path, stem, n);
    var c := Join(parent, next);
    if stem == ROOT {
      assert path[6] == '/' && c[6] == next[0];
    } else {
      var lead := stem + "/";
      assert |c| == |lead| + |next| && c[..|lead|] == lead by {
        if stem == "disk:" { assert lead == ROOT; }
      }
      assert c[|lead|..] == next && path[|lead|..] == n;
      assert |c| <= |path| ==> path[..|c|][|lead|..] == n[..|next|];
    }
  }

  /** After the rename of a conflict the row is not at the original path, wherever it was before. */
  lemma OriginalIsLeft(files: Files, f: FileId, path: string, c: string)
    requires f in files && !(c <= path) && RenameSubtree(files, path, DestinationAt(c)).ok
    ensures f in RenameSubtree(files, path, DestinationAt(c)).files
    ensures RenameSubtree(files, path, DestinationAt(c)).files[f].path != path
  {
    hide ParentPathOf, NameOf, RenameRows;
    var order := Ordered(files, SelectedIds(files, path));
    SubtreeRename.RenameRowsEffect(files, order, path, DestinationAt(c));
    if f in order {
      assert c <= Target(path, c, files[f].path);
    } else {
      assert f !in SelectedIds(files, path);
    }
  }

  lemma OwnConflictMakesCopy(db: Db, entry: Row, current: Option<string>, at: Option<RemoteEntry>, now: int, remote: RemoteTree)
    requires Valid(db) && RowOk(entry) && entry.path != ROOT && entry.fid in db.files
    requires at.Some? ==> at.value.path == entry.path
    requires ApplyConflict(db, entry, current, at, now).Ok?
    ensures CopyMadeFor(ApplyConflict(db, entry, current, at, now).value, remote, entry.fid, entry.path, entry.remoteVersion, current)
  {
    hide Valid, RenameSubtree, NextConflictPath, DestinationAt, UpsertOperation, EnsureRemoteRow, NothingAdopted, Recorded,
         UploadUnfinished, RowOk, OpsOk;
    OkRowIsRooted(entry);
    var f := entry.fid;
    var copyPath := NextConflictPath(db.files, entry.path).value;
    ConflictPathIsRooted(db.files, entry.path);
    ChosenIsNoPrefix(db.files, entry.path);
    RenameSound(db, entry.path, copyPath);
    var renamed := RenameSubtree(db.files, entry.path, DestinationAt(copyPath));
    OriginalIsLeft(db.files, f, entry.path, copyPath);
    var db1 := MarkedCopy(db.(files := renamed.files), f);
    SoundIsValid(db, db.(files := renamed.files));
    MarkedCopyValid(db.(files := renamed.files), f);
    KnownFile(db, f);
    ValidHasOkOps(db);
    ConflictCopies.OnlyTheUpload(db, db1.files, f, copyPath, now);
    assert db1 == db.(files := db1.files, ops := WithoutUnfinished(db.ops, f));
    var db2 := Enqueue(db1, f, Upload, PathPayload(copyPath), now).value;
    assert db2.files == db1.files && db2.nextFile == db1.nextFile by { ReconcileSafety.EnqueueKeepsFiles(db1, f, Upload, PathPayload(copyPath), now); EnqueueKeepsCounter(db1, f, Upload, PathPayload(copyPath), now); }
    PendingIsUnfinished(db2, f, db.nextOp, copyPath);
    var record := ConflictRecord(f, entry.path, copyPath, entry.remoteVersion, current);
    var db3 := db2.(conflicts := db2.conflicts + {record});
    RecordIsThere(db3, record);
    SameUploads(db2, db3, f);
    MarkedAdoptsNothing(remote, renamed.files[f], entry.path);
    assert CopyMadeFor(db3, remote, f, entry.path, entry.remoteVersion, current);
    if at.Some? { EnsureElsewhereKeepsCopy(db3, at.value, remote, f, entry.path, entry.remoteVersion, current); }
  }

  lemma KnownFile(db: Db, f: FileId)
    requires Valid(db) && f in db.files
    ensures f < db.nextFile
  {
  }

  lemma EnqueueKeepsCounter(db: Db, fid: FileId, opType: OpType, payload: Payload, now: int)
    requires Enqueue(db, fid, opType, payload, now).Ok?
    ensures Enqueue(db, fid, opType, payload, now).value.nextFile == db.nextFile
  {
  }

  lemma PendingIsUnfinished(db: Db, f: FileId, i: nat, copyPath: string)
    requires ConflictCopies.OnlyUnfinished(db, f, i, copyPath)
    ensures UploadUnfinished(db, f)
  {
    assert i in db.ops;
  }

  lemma RecordIsThere(db: Db, record: ConflictRecord)
    requires record in db.conflicts && record.conflictPath != record.originalPath
    ensures Recorded(db, record.fid, record.originalPath, record.baseVersion, record.currentVersion)
  {
  }

  lemma MarkedAdoptsNothing(remote: RemoteTree, row: Row, path: string)
    ensures NothingAdopted(remote, MarkedAsCopy(row), path)
  {
  }

  lemma EnsureElsewhereKeepsCopy(db: Db, at: RemoteEntry, remote: RemoteTree, f: FileId, path: string, base: Option<string>, current: Option<string>)
    requires CopyMadeFor(db, remote, f, path, base, current) && db.files[f].path != at.path
    ensures CopyMadeFor(EnsureRemoteRow(db, at, Synced), remote, f, path, base, current)
  {
    hide ParentPathOf, UploadUnfinished, Recorded;
    SameTablesKeep(db, EnsureRemoteRow(db, at, Synced), f, path, base, current);
  }

  // ---- The two passes ----

  /** The row conflicts with the remote tree: it is unsynced, and its object has another version than the row
      remembers, or there is none and no record says that the row is a copy made to lie there. */
  predicate ConflictsAt(db: Db, row: Row, remote: RemoteTree) {
    && (row.state.QueuedUpload? || row.state.Uploading? || row.state.Error?) && row.path != ROOT
    && if row.path in remote then remote[row.path].version != row.remoteVersion
       else forall c :: c in db.conflicts && c.fid == row.fid ==> c.conflictPath != row.path
  }

  function ForeignVersion(row: Row, remote: RemoteTree): Option<string> {
    if row.path in remote then remote[row.path].version else None
  }

  lemma RemoteStepKeepsCopy(db: Db, snapshot: Files, remote: RemoteTree, q: string, now: int, f: FileId, path: string,
                            base: Option<string>, current: Option<string>)
    requires Valid(db) && TreeOk(remote) && SnapshotOk(snapshot) && SubtreeRename.UniquePaths(snapshot)
    requires q in remote && remote[q].path == q && q != path && f in snapshot && snapshot[f].path == path
    requires CopyMadeFor(db, remote, f, path, base, current)
    requires ReconcileRemote(db, LocalAt(snapshot, q), remote[q], now).Ok?
    ensures CopyMadeFor(ReconcileRemote(db, LocalAt(snapshot, q), remote[q], now).value, remote, f, path, base, current)
  {
    hide Valid, ApplyConflict, UpsertOperation, EnsureRemoteRow, CopyMadeFor, TreeOk, RemoteOk, RowOk;
    var local := LocalAt(snapshot, q);
    EnsureKeepsCopy(db, remote, q, Synced, f, path, base, current);
    EnsureKeepsCopy(db, remote, q, Downloading, f, path, base, current);
    if local.Some? {
      assert local.value.fid != f && RowOk(local.value);
      OkRowIsRooted(local.value);
      if Unsynced(local.value.state) && ApplyConflict(db, local.value, remote[q].version, Some(remote[q]), now).Ok? {
        OtherConflictKeepsCopy(db, local.value, remote[q].version, Some(remote[q]), now, remote, f, path, base, current);
      }
    }
    var db1 := EnsureRemoteRow(db, remote[q], Downloading);
    EnsuredIsOk(db, remote, q);
    match RowAt(db1.files, q)
    case Some(g) =>
      if Enqueue(db1, g, Download, PathPayload(q), now).Ok? {
        EnqueueKeepsCopy(db1, remote, g, Download, PathPayload(q), now, f, path, base, current);
      }
    case None =>
  }

  lemma EnsuredIsOk(db: Db, remote: RemoteTree, q: string)
    requires Valid(db) && TreeOk(remote) && q in remote
    ensures var after := EnsureRemoteRow(db, remote[q], Downloading); OpsOk(after.ops, after.nextOp)
  {
    hide RowOk, RemoteOk;
  }

  lemma {:induction false} RemotePassKeepsCopy(db: Db, snapshot: Files, remote: RemoteTree, order: seq<string>, now: int, f: FileId,
                                               path: string, base: Option<string>, current: Option<string>)
    requires Valid(db) && TreeOk(remote) && SnapshotOk(snapshot) && SubtreeRename.UniquePaths(snapshot)
    requires (forall q :: q in order ==> q in remote && q != path) && f in snapshot && snapshot[f].path == path
    requires CopyMadeFor(db, remote, f, path, base, current) && RemotePass(db, snapshot, remote, order, now).Ok?
    ensures CopyMadeFor(RemotePass(db, snapshot, remote, order, now).value, remote, f, path, base, current)
    decreases |order|
  {
    hide Valid, CopyMadeFor, ReconcileRemote, RowOk, RemoteOk, Sound, SubtreeRename.UniquePaths;
    if order != [] {
      var q := order[0];
      assert q in order && remote[q].path == q;
      RemoteStepKeepsCopy(db, snapshot, remote, q, now, f, path, base, current);
      LocalIsOk(snapshot, q);
      ReconcileRemoteSound(db, LocalAt(snapshot, q), remote[q], now);
      var db1 := ReconcileRemote(db, LocalAt(snapshot, q), remote[q], now).value;
      SoundIsValid(db, db1);
      RemotePassKeepsCopy(db1, snapshot, remote, order[1..], now, f, path, base, current);
    }
  }

  lemma LocalIsOk(snapshot: Files, q: string)
    requires SnapshotOk(snapshot)
    ensures LocalAt(snapshot, q).Some? ==> RowOk(LocalAt(snapshot, q).value)
  {
  }

  /** The step of the row's own path. */
  lemma OwnRemoteStep(db: Db, snapshot: Files, remote: RemoteTree, f: FileId, now: int)
    requires Valid(db) && TreeOk(remote) && SnapshotOk(snapshot) && SubtreeRename.UniquePaths(snapshot)
    requires f in snapshot && f in db.files
    requires var row := snapshot[f];
             && (row.state.QueuedUpload? || row.state.Uploading? || row.state.Error?) && row.path != ROOT
             && row.path in remote && remote[row.path].version != row.remoteVersion
    requires ReconcileRemote(db, LocalAt(snapshot, snapshot[f].path), remote[snapshot[f].path], now).Ok?
    ensures CopyMadeFor(ReconcileRemote(db, LocalAt(snapshot, snapshot[f].path), remote[snapshot[f].path], now).value,
                        remote, f, snapshot[f].path, snapshot[f].remoteVersion, remote[snapshot[f].path].version)
  {
    hide Valid, ApplyConflict, CopyMadeFor, RowOk, RemoteOk, UpsertOperation, EnsureRemoteRow;
    var row := snapshot[f];
    SubtreeRename.RowAtIsUnique(snapshot, row.path, f);
    OwnConflictMakesCopy(db, row, remote[row.path].version, Some(remote[row.path]), now, remote);
  }

  lemma {:induction false} RemotePassMakesCopy(db: Db, snapshot: Files, remote: RemoteTree, order: seq<string>, now: int, f: FileId, row: Row)
    requires Valid(db) && TreeOk(remote) && SnapshotOk(snapshot) && SubtreeRename.UniquePaths(snapshot) && Distinct(order)
    requires (forall q :: q in order ==> q in remote) && f in snapshot && row == snapshot[f] && row.path in order
    requires (row.state.QueuedUpload? || row.state.Uploading? || row.state.Error?) && row.path != ROOT
    requires row.path in remote && remote[row.path].version != row.remoteVersion
    requires ReconcileSafety.Holds(db, f, row) && RemotePass(db, snapshot, remote, order, now).Ok?
    ensures CopyMadeFor(RemotePass(db, snapshot, remote, order, now).value, remote, f, row.path, row.remoteVersion, remote[row.path].version)
    decreases |order|
  {
    hide Valid, CopyMadeFor, ReconcileRemote, RowOk, RemoteOk, Sound, SubtreeRename.UniquePaths;
    var q, rest := order[0], order[1..];
    assert q in order && remote[q].path == q;
    assert forall i :: 0 <= i < |rest| ==> rest[i] == order[i + 1] && rest[i] != q;
    LocalIsOk(snapshot, q);
    ReconcileRemoteSound(db, LocalAt(snapshot, q), remote[q], now);
    var db1 := ReconcileRemote(db, LocalAt(snapshot, q), remote[q], now).value;
    SoundIsValid(db, db1);
    if q == row.path {
      OwnRemoteStep(db, snapshot, remote, f, now);
      RemotePassKeepsCopy(db1, snapshot, remote, rest, now, f, row.path, row.remoteVersion, remote[row.path].version);
    } else {
      ReconcileSafety.ReconcileRemoteHolds(db, LocalAt(snapshot, q), remote[q], now, f, row);
      assert row.path in rest;
      RemotePassMakesCopy(db1, snapshot, remote, rest, now, f, row);
    }
  }

  // ---- The local pass ----

  /** No record was added for the file. */
  predicate NoNewRecord(prior: Db, db: Db, f: FileId) {
    forall c :: c in db.conflicts && c.fid == f ==> c in prior.conflicts
  }

  lemma OtherConflictAddsNone(prior: Db, db: Db, entry: Row, current: Option<string>, at: Option<RemoteEntry>, now: int, f: FileId)
    requires NoNewRecord(prior, db, f) && entry.fid != f && ApplyConflict(db, entry, current, at, now).Ok?
    ensures NoNewRecord(prior, ApplyConflict(db, entry, current, at, now).value, f)
  {
    hide RenameSubtree, NextConflictPath;
  }

  lemma RemoteStepAddsNone(prior: Db, db: Db, local: Option<Row>, at: RemoteEntry, now: int, f: FileId)
    requires NoNewRecord(prior, db, f) && (local.Some? ==> local.value.fid != f) && ReconcileRemote(db, local, at, now).Ok?
    ensures NoNewRecord(prior, ReconcileRemote(db, local, at, now).value, f)
  {
    hide ApplyConflict;
    if local.Some? && ApplyConflict(db, local.value, at.version, Some(at), now).Ok? {
      OtherConflictAddsNone(prior, db, local.value, at.version, Some(at), now, f);
    }
  }

  lemma {:induction false} RemotePassAddsNone(prior: Db, db: Db, snapshot: Files, remote: RemoteTree, order: seq<string>, now: int, f: FileId)
    requires NoNewRecord(prior, db, f) && SnapshotOk(snapshot) && (forall q :: q in order ==> q in remote && remote[q].path == q)
    requires f in snapshot && snapshot[f].path !in order && RemotePass(db, snapshot, remote, order, now).Ok?
    ensures NoNewRecord(prior, RemotePass(db, snapshot, remote, order, now).value, f)
    decreases |order|
  {
    hide ReconcileRemote, RowOk, NoNewRecord;
    if order != [] {
      var q := order[0];
      assert q in order;
      OtherRow(snapshot, q, f);
      RemoteStepAddsNone(prior, db, LocalAt(snapshot, q), remote[q], now, f);
      RemotePassAddsNone(prior, ReconcileRemote(db, LocalAt(snapshot, q), remote[q], now).value, snapshot, remote, order[1..], now, f);
    }
  }

  lemma OtherRow(snapshot: Files, q: string, f: FileId)
    requires SnapshotOk(snapshot) && f in snapshot && snapshot[f].path != q
    ensures LocalAt(snapshot, q).Some? ==> LocalAt(snapshot, q).value.fid != f
  {
    hide RowOk;
  }

  lemma DropKeepsCopy(db: Db, g: FileId, remote: RemoteTree, f: FileId, path: string, base: Option<string>, current: Option<string>)
    requires CopyMadeFor(db, remote, f, path, base, current) && g != f
    ensures CopyMadeFor(DeleteRow(db, g), remote, f, path, base, current)
  {
    var after := DeleteRow(db, g);
    RecordsStay(db, after, f, path, base, current);
    var i :| i in db.ops && db.ops[i].fid == f && db.ops[i].opType.Upload?
             && (db.ops[i].status.Pending? || db.ops[i].status.RetryableError? || db.ops[i].status.Leased?);
    assert i in after.ops && after.ops[i] == db.ops[i];
  }

  /** The step of another row, or of the row itself once its path is among the remote ones. */
  lemma LocalStepKeepsCopy(db: Db, disk: Disk, local: Row, remote: RemoteTree, now: int, f: FileId, path: string,
                           base: Option<string>, current: Option<string>)
    requires Valid(db) && RowOk(local) && CopyMadeFor(db, remote, f, path, base, current) && (local.fid == f ==> local.path in remote)
    ensures var o := ReconcileLocal(db, disk, local, remote, now);
            o.result.Ok? ==> CopyMadeFor(o.result.value, remote, f, path, base, current)
  {
    hide Valid, ApplyConflict, CopyMadeFor, RowOk, IsConflictCopy, DeleteRow;
    OkRowIsRooted(local);
    if local.fid != f {
      DropKeepsCopy(db, local.fid, remote, f, path, base, current);
      if ApplyConflict(db, local, None, None, now).Ok? {
        OtherConflictKeepsCopy(db, local, None, None, now, remote, f, path, base, current);
      }
    }
  }

  lemma {:induction false} LocalPassKeepsCopy(db: Db, disk: Disk, snapshot: Files, order: seq<FileId>, remote: RemoteTree, now: int, f: FileId,
                                              path: string, base: Option<string>, current: Option<string>)
    requires Valid(db) && SnapshotOk(snapshot) && (forall g :: g in order ==> g in snapshot)
    requires f in order ==> snapshot[f].path in remote
    requires CopyMadeFor(db, remote, f, path, base, current)
    ensures var o := LocalPass(db, disk, snapshot, order, remote, now);
            o.result.Ok? ==> CopyMadeFor(o.result.value, remote, f, path, base, current)
    decreases |order|
  {
    hide Valid, CopyMadeFor, ReconcileLocal, RowOk, Sound;
    if order != [] {
      var g, rest := order[0], order[1..];
      assert g in order && snapshot[g].fid == g;
      LocalStepKeepsCopy(db, disk, snapshot[g], remote, now, f, path, base, current);
      var o := ReconcileLocal(db, disk, snapshot[g], remote, now);
      if o.result.Ok? {
        ReconcileLocalSound(db, disk, snapshot[g], remote, now);
        SoundIsValid(db, o.result.value);
        LocalPassKeepsCopy(o.result.value, o.disk, snapshot, rest, remote, now, f, path, base, current);
      }
    }
  }

  lemma LocalStepAddsNone(prior: Db, db: Db, disk: Disk, local: Row, remote: RemoteTree, now: int, f: FileId)
    requires NoNewRecord(prior, db, f) && local.fid != f
    ensures var o := ReconcileLocal(db, disk, local, remote, now); o.result.Ok? ==> NoNewRecord(prior, o.result.value, f)
  {
    hide ApplyConflict, IsConflictCopy;
    if ApplyConflict(db, local, None, None, now).Ok? { OtherConflictAddsNone(prior, db, local, None, None, now, f); }
  }

  lemma OwnLocalStep(prior: Db, db: Db, disk: Disk, row: Row, remote: RemoteTree, now: int)
    requires Valid(db) && RowOk(row) && row.fid in db.files && NoNewRecord(prior, db, row.fid)
    requires (row.state.QueuedUpload? || row.state.Uploading? || row.state.Error?) && row.path != ROOT
    requires row.path !in remote && !IsConflictCopy(prior, row.fid, row.path)
    ensures var o := ReconcileLocal(db, disk, row, remote, now);
            o.result.Ok? ==> CopyMadeFor(o.result.value, remote, row.fid, row.path, row.remoteVersion, None)
  {
    assert !IsConflictCopy(db, row.fid, row.path);
    hide Valid, ApplyConflict, CopyMadeFor, RowOk, IsConflictCopy;
    if ApplyConflict(db, row, None, None, now).Ok? { OwnConflictMakesCopy(db, row, None, None, now, remote); }
  }

  lemma {:induction false} LocalPassMakesCopy(prior: Db, db: Db, disk: Disk, snapshot: Files, order: seq<FileId>, remote: RemoteTree, now: int,
                                              f: FileId, row: Row)
    requires Valid(db) && SnapshotOk(snapshot) && (forall g :: g in order ==> g in snapshot) && Distinct(order)
    requires f in order && row == snapshot[f] && NoNewRecord(prior, db, f) && ReconcileSafety.Holds(db, f, row)
    requires (row.state.QueuedUpload? || row.state.Uploading? || row.state.Error?) && row.path != ROOT
    requires row.path !in remote && !IsConflictCopy(prior, f, row.path)
    ensures var o := LocalPass(db, disk, snapshot, order, remote, now);
            o.result.Ok? ==> CopyMadeFor(o.result.value, remote, f, row.path, row.remoteVersion, None)
    decreases |order|
  {
    hide Valid, CopyMadeFor, ReconcileLocal, RowOk, Sound, IsConflictCopy, NoNewRecord;
    var g, rest := order[0], order[1..];
    assert g in order && snapshot[g].fid == g && RowOk(snapshot[g]);
    assert forall i :: 0 <= i < |rest| ==> rest[i] == order[i + 1] && rest[i] != g;
    var o := ReconcileLocal(db, disk, snapshot[g], remote, now);
    if o.result.Ok? {
      ReconcileLocalSound(db, disk, snapshot[g], remote, now);
      SoundIsValid(db, o.result.value);
      if g == f {
        OwnLocalStep(prior, db, disk, row, remote, now);
        LocalPassKeepsCopy(o.result.value, o.disk, snapshot, rest, remote, now, f, row.path, row.remoteVersion, None);
      } else {
        ReconcileSafety.ReconcileLocalHolds(db, disk, snapshot[g], remote, now, f, row);
        LocalStepAddsNone(prior, db, disk, snapshot[g], remote, now, f);
        assert f in rest;
        LocalPassMakesCopy(prior, o.result.value, o.disk, snapshot, rest, remote, now, f, row);
      }
    }
  }

  // ---- The whole reconcile ----

  /** For every table, every remote tree and every order: after a committed reconcile, an unsynced row whose
      remote object has changed or is gone waits for its upload and has one in the queue, a conflict record
      names its path with the version it remembered and the foreign one, and the row has not adopted the
      version of its own path: if it knows a version at all, it is that of an object elsewhere. */
  lemma ConflictingRowIsCopied(db: Db, disk: Disk, remote: RemoteTree, remoteOrder: seq<string>, localOrder: seq<FileId>, now: int, f: FileId)
    requires Valid(db) && TreeOk(remote) && f in db.files && ConflictsAt(db, db.files[f], remote)
    requires Enumerates(remoteOrder, remote.Keys) && Enumerates(localOrder, db.files.Keys)
    ensures var row, o := db.files[f], Reconcile(db, disk, remote, remoteOrder, localOrder, now);
            o.result.Ok? ==> CopyMadeFor(o.result.value, remote, f, row.path, row.remoteVersion, ForeignVersion(row, remote))
  {
    hide Valid, CopyMadeFor, RemotePass, LocalPass, RowOk, RemoteOk, IsConflictCopy, NoNewRecord, Sound;
    var row, o := db.files[f], Reconcile(db, disk, remote, remoteOrder, localOrder, now);
    ValidSnapshot(db);
    ConflictCopies.FreshIsUnused(db);
    if o.result.Ok? {
      assert row.fid == f;
      var mid := RemotePass(db, db.files, remote, remoteOrder, now).value;
      RemotePassSound(db, db.files, remote, remoteOrder, now);
      SoundIsValid(db, mid);
      if row.path in remote {
        RemotePassMakesCopy(db, db.files, remote, remoteOrder, now, f, row);
        LocalPassKeepsCopy(mid, disk, db.files, localOrder, remote, now, f, row.path, row.remoteVersion, remote[row.path].version);
      } else {
        NoneYet(db, f);
        NotACopy(db, f, row.path);
        RemotePassAddsNone(db, db, db.files, remote, remoteOrder, now, f);
        ReconcileSafety.RemotePassHolds(db, db.files, remote, remoteOrder, now, f, row);
        LocalPassMakesCopy(db, mid, disk, db.files, localOrder, remote, now, f, row);
      }
    }
  }

  lemma NotACopy(db: Db, f: FileId, path: string)
    requires forall c :: c in db.conflicts && c.fid == f ==> c.conflictPath != path
    ensures !IsConflictCopy(db, f, path)
  {
  }

  lemma NoneYet(db: Db, f: FileId)
    ensures NoNewRecord(db, db, f)
  {
  }
}
