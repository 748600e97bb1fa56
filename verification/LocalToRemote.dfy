/** From a local operation to the remote side: what it leaves in the tables, that its effect survives the next
    reconcile, and what running the operation it queued does. */
module LocalToRemote {
  import opened Wrappers
  import opened RemotePaths
  import opened Tables
  import opened SyncSteps
  import opened TableInvariants
  import opened HelperSoundness
  import opened RemoteStore
  import opened SyncMachine
  import opened JobRuns
  import opened AtLeastOnce
  import opened JobOutcomes
  import opened ReconcileConflicts
  import ReconcileSafety
  import ConflictCopies
  import LoneConflict
  import QueueBounds
  import SubtreeRename

  // ---- The queue entry of an upsert ----

  /** The operation that an upsert leaves for its file: pending, due at once, with the new payload. One that was already
      there keeps its count of failures, so its backoff goes on from where it was. */
  lemma QueuedOp(db: Db, fid: FileId, opType: OpType, payload: Payload, uploads: bool, all: bool, now: int) returns (i: nat)
    requires OpsOk(db.ops, db.nextOp) && UpsertOperation(db, fid, opType, payload, uploads, all, now).Ok?
    ensures var after := UpsertOperation(db, fid, opType, payload, uploads, all, now).value;
            && i in after.ops && after.ops[i].fid == fid && after.ops[i].opType == opType && after.ops[i].payload == payload
            && after.ops[i].status == Pending && after.ops[i].nextRetryAt == None && after.files == db.files
            && after.ops[i].retryCount == (if i in db.ops then db.ops[i].retryCount else 0)
  {
    var ids := RunnableIds(WithoutSuperseded(db.ops, fid, uploads, all), fid, opType);
    i := if ids != {} then Least(ids) else db.nextOp;
  }

  lemma PendingUpload(db: Db, f: FileId, i: nat)
    requires i in db.ops && db.ops[i].fid == f && db.ops[i].opType == Upload && db.ops[i].status == Pending
    ensures UploadUnfinished(db, f)
  {
  }

  // ---- Editing ----

  /** After an accepted edit the row waits for its upload, holds the new bytes' size and its own cache path, and
      an upload is pending. */
  lemma EditWaitsForUpload(db: Db, f: FileId, size: nat, now: int)
    requires Valid(db) && f in db.files
    ensures CommitLocal(db, db.files[f], size, now).Ok?
    ensures var row, after := db.files[f], CommitLocal(db, db.files[f], size, now).value;
            && Valid(after) && f in after.files && UploadUnfinished(after, f)
            && after.files[f].state == QueuedUpload && after.files[f].content == Hydrated && after.files[f].size == size
            && after.files[f].cachePath == Some(CachePathFor(f)) && after.files[f].localVersion == row.localVersion + 1
            && after.files[f].remoteVersion == row.remoteVersion && after.files[f].path == row.path && after.files[f].fid == f
            && (forall g :: g in db.files && g != f ==> g in after.files && after.files[g] == db.files[g])
            && after.files.Keys == db.files.Keys
  {
    hide Valid, UpsertOperation, Sound, RowOk, OpsOk;
    RowFacts(db, f);
    var db1 := db.(files := db.files[f := Edited(db.files[f], CacheOf(db.files[f]), size)]);
    PartsOf(db);
    UpsertSucceedsIff(db1, f, Upload, PathPayload(db.files[f].path), false, false, now);
    CommitLocalSound(db, db.files[f], size, now);
    SoundIsValid(db, CommitLocal(db, db.files[f], size, now).value);
    var i := QueuedOp(db1, f, Upload, PathPayload(db.files[f].path), false, false, now);
    PendingUpload(CommitLocal(db, db.files[f], size, now).value, f, i);
  }

  lemma RowFacts(db: Db, f: FileId)
    requires Valid(db) && f in db.files
    ensures RowOk(db.files[f]) && db.files[f].fid == f && CacheOf(db.files[f]) == CachePathFor(f) && !db.files[f].state.Conflict?
    ensures ROOT <= db.files[f].path
  {
    assert RowOk(db.files[f]);
  }

  lemma PartsOf(db: Db)
    requires Valid(db)
    ensures References(db) && OpsOk(db.ops, db.nextOp) && SubtreeRename.UniquePaths(db.files) && db.nextFile !in db.files
  {
    hide RowOk;
  }

  /** The bytes of a committed edit survive the next reconcile, for every tree and every order, committed or
      rolled back, and the row still waits to be uploaded. */
  lemma EditSurvivesReconcile(db: Db, disk: Disk, f: FileId, bytes: Bytes, now: int,
                              tree: RemoteTree, remoteOrder: seq<string>, localOrder: seq<FileId>, later: int)
    requires Valid(db) && f in db.files && TreeOk(tree) && Enumerates(remoteOrder, tree.Keys) && Enumerates(localOrder, db.files.Keys)
    ensures var edited := CommitLocal(db, db.files[f], |bytes|, now);
            && edited.Ok? && (forall g :: g in localOrder ==> g in edited.value.files)
            && var o := Reconcile(edited.value, disk[CachePathFor(f) := bytes], tree, remoteOrder, localOrder, later);
               var files := AfterCommit(edited.value, o.result).files;
               && f in files && (files[f].state == QueuedUpload || files[f].state == Uploading || files[f].state == SyncState.Error)
               && files[f].localVersion == db.files[f].localVersion + 1 && files[f].content == Hydrated
               && files[f].cachePath == Some(CachePathFor(f)) && files[f].size == |bytes|
               && CachePathFor(f) in o.disk && o.disk[CachePathFor(f)] == bytes
  {
    hide Valid, CommitLocal, Reconcile, TreeOk, UploadUnfinished;
    EditWaitsForUpload(db, f, |bytes|, now);
    var edited := CommitLocal(db, db.files[f], |bytes|, now).value;
    ReconcileSafety.LocalWorkSurvives(edited, disk[CachePathFor(f) := bytes], tree, remoteOrder, localOrder, later, f);
  }

  /** And if the remote side still has the version the row remembers, a smooth upload puts exactly these bytes
      there and leaves the file in sync. */
  lemma EditReachesRemote(w: World, f: FileId, bytes: Bytes, now: int, job: Op, a: UploadAnswers, later: int)
    requires Valid(w.db) && f in w.db.files && job.fid == f
    requires w.db.files[f].remoteVersion == VersionAt(w.store, w.db.files[f].path) && Smooth(w, w.db.files[f].path, a)
    ensures var edited := CommitLocal(w.db, w.db.files[f], |bytes|, now);
            && edited.Ok?
            && var r := ProcessUpload(World(edited.value, w.disk[CachePathFor(f) := bytes], w.store), job, a, later);
               && r.ending == Closed && InSync(r.world, f)
               && w.db.files[f].path in r.world.store && r.world.store[w.db.files[f].path].bytes == bytes
  {
    hide Valid, CommitLocal, ProcessUpload, InSync, OnlyFileAndJob, SameElsewhere, UploadUnfinished;
    EditWaitsForUpload(w.db, f, |bytes|, now);
    var edited := CommitLocal(w.db, w.db.files[f], |bytes|, now).value;
    var start := World(edited, w.disk[CachePathFor(f) := bytes], w.store);
    UploadEndsInSync(start, job, a, later);
    var r := ProcessUpload(start, job, a, later);
    SyncedBytes(r.world, f);
    PlaceFacts(edited.files[f], r.world.db.files[f]);
  }

  // ---- Creating ----

  /** After a creation the new row is listed in its directory, waits for its upload with nothing known of the remote
      side, and its upload or directory creation is pending. */
  lemma CreationWaits(db: Db, parent: string, name: string, kind: Kind, now: int) returns (i: nat)
    requires Valid(db) && ROOT <= parent && ChildName(name) && !Occupied(db.files, Join(parent, name))
    ensures Create(db, parent, name, kind, now).Ok?
    ensures var f, after := db.nextFile, Create(db, parent, name, kind, now).value;
            && Valid(after) && f !in db.files && f in after.files && f in ListChildren(after.files, parent)
            && after.files[f].path == Join(parent, name) && after.files[f].name == name && after.files[f].kind == kind
            && after.files[f].state == QueuedUpload && after.files[f].remoteVersion == None && after.files[f].size == 0
            && after.files[f].localVersion == 1
            && (kind.File? ==> after.files[f].cachePath == Some(CachePathFor(f)) && after.files[f].content == Hydrated)
            && (kind.Directory? ==> after.files[f].cachePath == None && after.files[f].content == ContentState.Placeholder)
            && (forall g :: g in db.files ==> g in after.files && after.files[g] == db.files[g])
            && i in after.ops && after.ops[i].fid == f && after.ops[i].status == Pending && after.ops[i].nextRetryAt == None
            && after.ops[i].opType == (if kind.File? then Upload else Mkdir)
  {
    hide Valid, UpsertOperation, Sound, OpsOk, LastSlash, Join;
    PartsOf(db);
    var row := CreatedRow(db.nextFile, parent, name, kind);
    var db1 := db.(files := db.files[row.fid := row], nextFile := db.nextFile + 1);
    var opType := if kind.File? then Upload else Mkdir;
    UpsertSucceedsIff(db1, row.fid, opType, PathPayload(row.path), false, false, now);
    CreateSound(db, parent, name, kind, now);
    SoundIsValid(db, Create(db, parent, name, kind, now).value);
    i := QueuedOp(db1, row.fid, opType, PathPayload(row.path), false, false, now);
  }

  /** A new file reaches the remote side as an empty object, a new directory as a directory. */
  lemma CreationReachesRemote(w: World, parent: string, name: string, kind: Kind, now: int, job: Op, a: UploadAnswers, later: int)
    requires Valid(w.db) && ROOT <= parent && ChildName(name) && !Occupied(w.db.files, Join(parent, name))
    requires Join(parent, name) !in w.store && job.fid == w.db.nextFile && Smooth(w, Join(parent, name), a)
    ensures var f, path, created := w.db.nextFile, Join(parent, name), Create(w.db, parent, name, kind, now);
            && created.Ok?
            && (kind.File? ==>
                  var r := ProcessUpload(World(created.value, w.disk[CachePathFor(f) := []], w.store), job, a, later);
                  r.ending == Closed && InSync(r.world, f) && path in r.world.store && r.world.store[path].bytes == [])
            && (kind.Directory? ==>
                  var r := ProcessMkdir(World(created.value, w.disk, w.store), job, Answered, a.version, None, later);
                  && r.ending == Closed && path in r.world.store && r.world.store[path].kind == Directory
                  && f in r.world.db.files && r.world.db.files[f].state == Synced
                  && r.world.db.files[f].remoteVersion == r.world.store[path].version)
  {
    hide Valid, Create, ProcessUpload, InSync, OnlyFileAndJob, SameElsewhere, Join;
    var i := CreationWaits(w.db, parent, name, kind, now);
    var f, created := w.db.nextFile, Create(w.db, parent, name, kind, now).value;
    if kind.File? {
      var start := World(created, w.disk[CachePathFor(f) := []], w.store);
      UploadEndsInSync(start, job, a, later);
      var r := ProcessUpload(start, job, a, later);
      SyncedBytes(r.world, f);
      PlaceFacts(created.files[f], r.world.db.files[f]);
    }
  }

  // ---- Deleting ----

  /** Deleting a row the remote side knows hides it from its directory at once, and running the one operation
      that is left for it removes the object with everything below it, and the row. */
  lemma DeletionReachesRemote(w: World, entry: Row, now: int, later: int)
    requires Valid(w.db) && entry.fid in w.db.files && entry.remoteVersion.Some? && entry.path == w.db.files[entry.fid].path
    ensures var r := Unlink(w.db, entry, now);
            && r.Ok? && (forall d :: entry.fid !in ListChildren(r.value.files, d))
            && w.db.nextOp in r.value.ops && r.value.ops[w.db.nextOp].fid == entry.fid && r.value.ops[w.db.nextOp].opType == Delete
            && var run := ProcessDelete(World(r.value, w.disk, w.store), r.value.ops[w.db.nextOp], Answered, later);
               && run.ending == Closed && entry.fid !in run.world.db.files
               && Below(run.world.store, entry.path) == {}
               && forall p :: p in w.store && !InSubtree(entry.path, p) ==> p in run.world.store && run.world.store[p] == w.store[p]
  {
    hide Valid, Unlink, Below;
    QueueBounds.UnlinkLeavesOnlyTheDelete(w.db, entry, now);
    DeletionEmpties(w.store, entry.path);
  }

  // ---- Renaming ----

  predicate Apart(from: string, to: string) { !InSubtree(from, to) && !InSubtree(to, from) }

  /** The run moved the object: it and all below it are at the new path with their kinds and bytes, nothing is left
      at the old one, the rest is untouched, and the file's row knows the version it got. */
  ghost predicate MovedRemotely(w: World, r: Ran, f: FileId, from: string, to: string) {
    && r.ending == Closed && r.world.disk == w.disk
    && to in r.world.store && Below(r.world.store, from) == {}
    && (forall q :: q in w.store && InSubtree(from, q) ==> LandedAt(w.store, r.world.store, q, from, to))
    && (forall q :: q in w.store && !InSubtree(from, q) ==> q in r.world.store && r.world.store[q] == w.store[q])
    && (f in w.db.files ==>
          f in r.world.db.files && r.world.db.files[f].state == Synced && r.world.db.files[f].remoteVersion == r.world.store[to].version)
  }

  predicate LandedAt(store: Store, after: Store, q: string, from: string, to: string)
    requires q in store && InSubtree(from, q)
  {
    var p := to + q[|from|..];
    p in after && after[p].kind == store[q].kind && after[p].bytes == store[q].bytes
  }

  /** Running the operation, whenever it is leased, on any store with an object at the old path and nothing at or
      below the new one, moves that object. */
  ghost predicate MovesObject(job: Op, from: string, to: string) {
    forall w: World, probe: Option<RemoteError>, stamp: map<string, string>, now: int ::
      from in w.store && Below(w.store, to) == {}
      ==> MovedRemotely(w, ProcessRename(w, job, probe, Answered, stamp, None, now), job.fid, from, to)
  }

  lemma MoveRunsThrough(w: World, job: Op, from: string, to: string, probe: Option<RemoteError>, stamp: map<string, string>, now: int)
    requires job.payload == RenamePayload(from, to) && Apart(from, to) && from in w.store && Below(w.store, to) == {}
    ensures MovedRemotely(w, ProcessRename(w, job, probe, Answered, stamp, None, now), job.fid, from, to)
  {
    hide MoveTree, DeleteTree, InSubtree, LandedAt;
    NothingBelow(w.store, to);
    ConflictCopies.SubtreeHasPrefix(from);
    MoveVacates(w.store, from, to, stamp);
    forall q | q in w.store && InSubtree(from, q)
      ensures LandedAt(w.store, MoveTree(w.store, from, to, stamp), q, from, to)
    {
      MoveRelocates(w.store, from, to, stamp, q);
      Landing(w.store, MoveTree(w.store, from, to, stamp), q, from, to);
    }
    forall q | q in w.store && !InSubtree(from, q)
      ensures q in MoveTree(w.store, from, to, stamp) && MoveTree(w.store, from, to, stamp)[q] == w.store[q]
    {
      NotBelowEmpty(w.store, to, q);
      MoveRelocates(w.store, from, to, stamp, q);
    }
  }

  lemma Landing(store: Store, after: Store, q: string, from: string, to: string)
    requires q in store && InSubtree(from, q) && from <= q
    requires to + q[|from|..] in after && after[to + q[|from|..]].kind == store[q].kind && after[to + q[|from|..]].bytes == store[q].bytes
    ensures LandedAt(store, after, q, from, to)
  {
  }

  lemma NotBelowEmpty(store: Store, to: string, q: string)
    requires Below(store, to) == {} && q in store
    ensures !InSubtree(to, q)
  {
    assert q !in Below(store, to);
  }

  /** After an accepted rename of a remotely known row, the row is at the new path, and an operation is pending
      that moves its object there, whatever else happens on the remote side before it runs. */
  lemma RenameReachesRemote(db: Db, f: FileId, to: string, now: int) returns (i: nat)
    requires Valid(db) && f in db.files && db.files[f].remoteVersion.Some? && Apart(db.files[f].path, to)
    requires RenameEntry(db, db.files[f], to, now).Ok?
    ensures var after := RenameEntry(db, db.files[f], to, now).value;
            && f in after.files && after.files[f].path == to
            && i in after.ops && after.ops[i].fid == f && after.ops[i].status == Pending && after.ops[i].nextRetryAt == None
            && (after.ops[i].opType == OpType.Rename || after.ops[i].opType == Move)
            && forall t :: MovesObject(LeasedOp(after.ops[i], t), db.files[f].path, to)
  {
    hide Valid, UpsertOperation, OpsOk, RenameRows, MovesObject, InSubtree;
    var from := db.files[f].path;
    PartsOf(db);
    RowFacts(db, f);
    var renamed := RenameSubtree(db.files, from, DestinationAt(to));
    SubtreeRename.RenameRowsEffect(db.files, Ordered(db.files, SelectedIds(db.files, from)), from, DestinationAt(to));
    ConflictCopies.RelocatedToDestination(db.files[f], DestinationAt(to));
    assert f in Ordered(db.files, SelectedIds(db.files, from));
    i := QueuedOp(db.(files := renamed.files), f, OpType.Rename, RenamePayload(from, to), false, false, now);
    var op := RenameEntry(db, db.files[f], to, now).value.ops[i];
    forall t
      ensures MovesObject(LeasedOp(op, t), from, to)
    {
      EveryRunMoves(LeasedOp(op, t), from, to);
    }
  }

  lemma EveryRunMoves(job: Op, from: string, to: string)
    requires job.payload == RenamePayload(from, to) && Apart(from, to)
    ensures MovesObject(job, from, to)
  {
    hide MovedRemotely, ProcessRename, Apart;
    forall w: World, probe: Option<RemoteError>, stamp: map<string, string>, now: int | from in w.store && Below(w.store, to) == {}
      ensures MovedRemotely(w, ProcessRename(w, job, probe, Answered, stamp, None, now), job.fid, from, to)
    {
      MoveRunsThrough(w, job, from, to, probe, stamp, now);
    }
  }

  /** Two renames in a row before the first has run: the queue keeps one operation, with the second's paths only.
      While the object is still at its first path, that operation finds nothing to move, completes, and leaves
      the remote side as it is: the rename is lost there. */
  lemma SecondRenameReplacesFirst(db: Db, f: FileId, second: string, third: string, now: int, later: int) returns (i: nat)
    requires Valid(db) && f in db.files && db.files[f].remoteVersion.Some? && RunnableIds(db.ops, f, OpType.Rename) == {}
    requires RenameEntry(db, db.files[f], second, now).Ok?
    ensures var db1 := RenameEntry(db, db.files[f], second, now).value;
            && f in db1.files && db1.files[f].path == second && db1.files[f].remoteVersion.Some?
            && (RenameEntry(db1, db1.files[f], third, later).Ok? ==>
                  var db2 := RenameEntry(db1, db1.files[f], third, later).value;
                  && RunnableIds(db2.ops, f, OpType.Rename) == {i}
                  && i in db2.ops && MovesNothingFrom(db2.ops[i], db.files[f].path, second, third))
  {
    hide Valid, UpsertOperation, OpsOk, RenameRows, InSubtree, MovesNothingFrom, RunnableIds, QueueBounds.WithFresh;
    var from := db.files[f].path;
    PartsOf(db);
    RowFacts(db, f);
    RenamedRow(db.files, f, second);
    var files1 := RenameSubtree(db.files, from, DestinationAt(second)).files;
    var start := db.(files := files1);
    QueueBounds.FirstEnqueue(start, f, OpType.Rename, RenamePayload(from, second), now);
    QueueBounds.FreshIsOnlyRunnable(start, f, OpType.Rename, RenamePayload(from, second), now);
    var db1 := RenameEntry(db, db.files[f], second, now).value;
    WithFreshParts(start, f, OpType.Rename, RenamePayload(from, second), now);
    i := db.nextOp;
    if RenameEntry(db1, db1.files[f], third, later).Ok? {
      var files2 := RenameSubtree(db1.files, second, DestinationAt(third)).files;
      ConflictCopies.RenameKeepsKeys(db1.files, second, DestinationAt(third));
      var start2 := db.(files := files2);
      WithFreshParts(start2, f, OpType.Rename, RenamePayload(from, second), now);
      assert db1.(files := files2) == QueueBounds.WithFresh(start2, f, OpType.Rename, RenamePayload(from, second), now) by {
        FreshOfOtherFiles(start, files2, f, OpType.Rename, RenamePayload(from, second), now);
      }
      QueueBounds.LaterEnqueue(start2, f, OpType.Rename, RenamePayload(from, second), RenamePayload(second, third), now, later);
      QueueBounds.FreshIsOnlyRunnable(start2, f, OpType.Rename, RenamePayload(second, third), later);
      WithFreshParts(start2, f, OpType.Rename, RenamePayload(second, third), later);
      NothingIsMoved(NewOp(i, f, OpType.Rename, RenamePayload(second, third), later), from, second, third);
    }
  }

  lemma RenamedRow(files: Files, f: FileId, to: string)
    requires f in files
    ensures var r := RenameSubtree(files, files[f].path, DestinationAt(to));
            && f in r.files
            && (r.ok ==>
                  && r.files[f].path == to && r.files[f].remoteVersion == files[f].remoteVersion && r.files[f].fid == files[f].fid
                  && r.files[f].cachePath == files[f].cachePath)
  {
    hide RenameRows;
    var from := files[f].path;
    SubtreeRename.RenameRowsEffect(files, Ordered(files, SelectedIds(files, from)), from, DestinationAt(to));
    ConflictCopies.RelocatedToDestination(files[f], DestinationAt(to));
    assert f in Ordered(files, SelectedIds(files, from));
  }

  lemma WithFreshParts(db: Db, f: FileId, t: OpType, payload: Payload, now: int)
    ensures var after := QueueBounds.WithFresh(db, f, t, payload, now);
            after.files == db.files && db.nextOp in after.ops && after.ops[db.nextOp] == NewOp(db.nextOp, f, t, payload, now)
  {
  }

  lemma FreshOfOtherFiles(db: Db, files: Files, f: FileId, t: OpType, payload: Payload, now: int)
    ensures QueueBounds.WithFresh(db, f, t, payload, now).(files := files) == QueueBounds.WithFresh(db.(files := files), f, t, payload, now)
  {
  }

  /** The job completes without touching a store that still has the object at its first path and nothing at the
      other two. */
  ghost predicate MovesNothingFrom(job: Op, first: string, second: string, third: string) {
    forall w: World, stamp: map<string, string>, now: int ::
      first in w.store && second !in w.store && third !in w.store
      ==> MovedNothing(w, ProcessRename(w, job, None, Answered, stamp, None, now), job)
  }

  predicate MovedNothing(w: World, r: Ran, job: Op) {
    r.ending == Closed && r.world.store == w.store && r.world.db.files == w.db.files
    && (job.id in w.db.ops ==> job.id in r.world.db.ops && r.world.db.ops[job.id].status == Done)
  }

  lemma NothingIsMoved(job: Op, first: string, second: string, third: string)
    requires job.payload == RenamePayload(second, third)
    ensures MovesNothingFrom(job, first, second, third)
  {
  }

  // ---- Reading ----

  /** Fetched bytes become the row's cached bytes with the matching size, and nothing that waits for an upload
      stops waiting. */
  lemma FetchedBytesAreCached(db: Db, f: FileId, size: nat)
    requires Valid(db) && f in db.files
    ensures var row, after := db.files[f], Hydrate(db, db.files[f], size).files;
            && f in after && after[f].cachePath == Some(CachePathFor(f)) && after[f].size == size && after[f].content == Hydrated
            && after[f].remoteVersion == row.remoteVersion && after[f].localVersion == row.localVersion && after[f].path == row.path
            && after[f].state == (if row.state == SyncState.Placeholder then Synced else row.state)
            && (forall g :: g in db.files && g != f ==> g in after && after[g] == db.files[g])
  {
    RowFacts(db, f);
  }

  // ---- A copy at a foreign path ----

  /** A conflict copy that has adopted a foreign version, as a reconcile can leave it, replaces the foreign object when
      it is uploaded: the upload finds the version it expects. */
  lemma AdoptedCopyReplacesForeign(db: Db, disk: Disk, remote: RemoteTree, f: FileId, c: string, localOrder: seq<FileId>, now: int,
                                   w: World, job: Op, a: UploadAnswers, later: int)
    requires Valid(db) && TreeOk(remote) && f in db.files && LoneConflict.Lone(db, remote, f) && db.files[f].path in remote
    requires NextConflictPath(db.files, db.files[f].path) == Some(c) && !Occupied(db.files, c) && c in remote
    requires forall g :: g in db.files && g != f ==> !Selected(db.files[f].path, db.files[g].path)
    requires Enumerates(localOrder, db.files.Keys)
    requires var o := Reconcile(db, disk, remote, LoneConflict.FirstOf(db.files[f].path, remote.Keys), localOrder, now);
             o.result.Ok? && f in w.db.files && f in o.result.value.files && w.db.files[f] == o.result.value.files[f]
    requires job.fid == f && c in w.store && w.store[c].version == remote[c].version && Smooth(w, c, a)
    requires w.db.files[f].cachePath.Some? && w.db.files[f].cachePath.value in w.disk
    ensures var r := ProcessUpload(w, job, a, later);
            r.ending == Closed && c in r.world.store && r.world.store[c].bytes == w.disk[w.db.files[f].cachePath.value]
  {
    hide Valid, TreeOk, LoneConflict.Lone, NextConflictPath, Occupied, Selected, Reconcile, ProcessUpload, InSync, OnlyFileAndJob, SameElsewhere;
    LoneConflict.CopyAdoptsForeignVersion(db, disk, remote, f, c, localOrder, now);
    UploadEndsInSync(w, job, a, later);
    var r := ProcessUpload(w, job, a, later);
    SyncedBytes(r.world, f);
    PlaceFacts(w.db.files[f], r.world.db.files[f]);
  }
}
