/** Jobs taken again in a world that has moved on: an upload repeats itself or turns into a conflict, and a
    rename can take away a file that was created at the old path in the meantime. */
module Redelivery {
  import opened Wrappers
  import opened RemotePaths
  import opened Tables
  import opened SyncSteps
  import opened TableInvariants
  import opened RemoteStore
  import opened SyncMachine
  import opened JobRuns
  import opened ConflictCopies
  import opened UploadConflicts
  import opened AtLeastOnce
  import opened JobOutcomes
  import SubtreeRename

  /** The file's row and bytes are as they were, except for the row's state. */
  predicate SameFile(w: World, again: World, f: FileId) {
    && f in w.db.files && f in again.db.files
    && again.db.files[f] == w.db.files[f].(state := again.db.files[f].state)
    && var cache := w.db.files[f].cachePath;
       cache.Some? && cache.value in w.disk ==> cache.value in again.disk && again.disk[cache.value] == w.disk[cache.value]
  }

  /** An upload taken again after one that reached the remote side unrecorded, whatever the remote side is
      by then. The first run left the local bytes there. The second keeps the local bytes and the row's
      hold on them in any case, writes nothing but those bytes, and writes them only over the remembered
      version. Without failures it repeats itself if the remembered version is the one it finds, and
      otherwise is a conflict that leaves the remote side alone and keeps both versions under the exact
      condition of any conflict. */
  lemma UploadAgain(w: World, job: Op, a: UploadAnswers, again: World, job2: Op, b: UploadAnswers, now: int, later: int)
    requires job.fid in w.db.files && Honest(w, w.db.files[job.fid].path, a)
    requires ProcessUpload(w, job, a, now).world.store != w.store
    requires SameFile(w, again, job.fid) && Valid(again.db) && job2.fid == job.fid && HoldsJob(again.db, job2)
    requires w.db.files[job.fid].path != ROOT && Honest(again, w.db.files[job.fid].path, b)
    ensures var f, row, first, second := job.fid, w.db.files[job.fid], ProcessUpload(w, job, a, now), ProcessUpload(again, job2, b, later);
            && row.cachePath.Some? && row.cachePath.value in w.disk
            && var bytes := w.disk[row.cachePath.value];
            && first.world.store == Put(w.store, row.path, bytes, a.version)
            && second.world.disk == again.disk
            && f in second.world.db.files && SameContent(row, second.world.db.files[f])
            && (second.world.store == again.store
                || (VersionAt(again.store, row.path) == row.remoteVersion && second.world.store == Put(again.store, row.path, bytes, b.version)))
            && (Smooth(again, row.path, b) && VersionAt(again.store, row.path) == row.remoteVersion ==> InSync(second.world, f))
            && (b.metadata.None? && VersionAt(again.store, row.path) != row.remoteVersion ==>
                  && second.world.store == again.store
                  && var c := ChosenName(again.db, f);
                     (second.ending.Closed? && c.Some? && BothVersionsKept(again.db, second.world.db, f, c.value, Metadata(again.store, row.path)))
                     <==> (c.Some? && !Occupied(again.db.files, c.value)
                           && SubtreeRename.LikeExact(again.db.files, row.path) && SubtreeRename.TargetsFree(again.db.files, row.path, c.value)))
  {
    hide ProcessUpload, Valid, HoldsJob, Put, BothVersionsKept, SubtreeRename.LikeExact, SubtreeRename.TargetsFree, Occupied, ChosenName,
         InSync, Smooth, SameContent, Metadata, VersionAt;
    var f, row := job.fid, w.db.files[job.fid];
    CompareBeforeWrite(w, job, a, now);
    CompareBeforeWrite(again, job2, b, later);
    UploadKeepsRow(again, job2, b, later);
    SameContentOfState(row, again.db.files[f], ProcessUpload(again, job2, b, later).world.db.files[f]);
    UnparkedInValid(again.db, f);
    if Smooth(again, row.path, b) && VersionAt(again.store, row.path) == row.remoteVersion {
      UploadEndsInSync(again, job2, b, later);
    }
    if b.metadata.None? && VersionAt(again.store, row.path) != row.remoteVersion {
      UploadConflictKeepsBothIff(again, job2, b, later);
    }
  }

  lemma SameContentOfState(row: Row, marked: Row, after: Row)
    requires marked == row.(state := marked.state) && SameContent(marked, after)
    ensures SameContent(row, after)
  {
  }

  /** The failing run. A rename reaches the remote side, but its answer is lost. A new file is created at
      the old path and uploaded there. When the rename is taken again it finds the new path taken and
      deletes the old one, and the next reconcile, which misses the new file, drops its row and its bytes:
      the file is gone on both sides. */
  lemma LateRenameLosesNewFile(w: World, job: Op, probe: Option<RemoteError>, c: Call, stamp: map<string, string>, now: int,
                               busy: World, upload: Op, a: UploadAnswers, later: int,
                               again: World, job2: Op, tree: RemoteTree, last: int)
    requires job.payload.RenamePayload? && job2.payload == job.payload && job2.fid == job.fid && Unrecorded(c)
    requires var from, to := job.payload.oldPath, job.payload.newPath;
             && !InSubtree(from, to) && !InSubtree(to, from) && NoOrphans(w.store, from) && from in w.store && from != ROOT
    requires busy.store == ProcessRename(w, job, probe, c, stamp, None, now).world.store
    requires upload.fid in busy.db.files && upload.fid != job.fid
    requires var row := busy.db.files[upload.fid];
             && row.path == job.payload.oldPath && row.fid == upload.fid && row.remoteVersion.None? && !row.state.Conflict?
             && row.cachePath.Some? && row.cachePath.value in busy.disk && Smooth(busy, row.path, a)
    requires var r := ProcessUpload(busy, upload, a, later).world;
             again.store == r.store && again.disk == r.disk && again.db.files == r.db.files
    requires upload.fid in again.db.files && !IsConflictCopy(again.db, upload.fid, job.payload.oldPath)
    requires job.payload.oldPath !in tree
    ensures var from, uploaded := job.payload.oldPath, ProcessUpload(busy, upload, a, later).world;
            var renamed := ProcessRename(again, job2, None, Answered, map[], None, last).world;
            && from !in busy.store
            && InSync(uploaded, upload.fid) && from in uploaded.store
            && from !in renamed.store && job.payload.newPath in renamed.store
            && upload.fid in renamed.db.files
            && var o := ReconcileLocal(renamed.db, renamed.disk, renamed.db.files[upload.fid], tree, last);
               o.result.Ok? && upload.fid !in o.result.value.files && busy.db.files[upload.fid].cachePath.value !in o.disk
  {
    hide ProcessUpload, Relocate, MoveTree, DeleteTree, InSubtree, Below, Smooth, InSync, OnlyFileAndJob, SameElsewhere, ApplyConflict, RetryOrFail,
         IsConflictCopy, NoOrphans, SamePlace, RemoteSeen, ReconcileLocal;
    var from, to := job.payload.oldPath, job.payload.newPath;
    RelocateUnchangedIff(w.store, from, to, probe, stamp);
    TargetIsThere(w.store, from, to, probe, stamp);
    EmptyIsAbsent(busy.store, from);
    UploadEndsInSync(busy, upload, a, later);
    var uploaded := ProcessUpload(busy, upload, a, later).world;
    SyncedRow(uploaded, upload.fid);
    ElsewhereFacts(busy.store, uploaded.store, from, to) by { ApartDiffers(from, to); }
    DeletedPath(again.store, from, to);
    RelocateFinding(again.store, from, to, map[]);
    PlaceFacts(busy.db.files[upload.fid], uploaded.db.files[upload.fid]);
    SeenKeepsOthers(again.db, job2, Metadata(DeleteTree(again.store, from), to), upload.fid, last);
    var renamed := ProcessRename(again, job2, None, Answered, map[], None, last).world;
    assert renamed.db == RemoteSeen(again.db, job2, Metadata(DeleteTree(again.store, from), to), last) && renamed.disk == again.disk;
    SyncedMissIsDropped(renamed.db, renamed.disk, renamed.db.files[upload.fid], tree, last);
  }

  lemma SeenKeepsOthers(db: Db, job: Op, found: Option<RemoteEntry>, f: FileId, now: int)
    requires f in db.files && f != job.fid
    ensures var after := RemoteSeen(db, job, found, now);
            && f in after.files && after.files[f] == db.files[f]
            && forall p :: IsConflictCopy(after, f, p) <==> IsConflictCopy(db, f, p)
  {
  }

  lemma SyncedMissIsDropped(db: Db, disk: Disk, row: Row, tree: RemoteTree, now: int)
    requires row.state.Synced? && row.path != ROOT && row.path !in tree && row.cachePath.Some? && !IsConflictCopy(db, row.fid, row.path)
    ensures var o := ReconcileLocal(db, disk, row, tree, now);
            o.result.Ok? && row.fid !in o.result.value.files && row.cachePath.value !in o.disk
  {
  }

  /** Either way the object is at the new path afterwards. */
  lemma TargetIsThere(store: Store, from: string, to: string, probe: Option<RemoteError>, stamp: map<string, string>)
    requires !InSubtree(from, to) && !InSubtree(to, from) && from in store
    ensures to in Relocate(store, from, to, probe, stamp)
  {
    hide MoveTree, DeleteTree;
    MoveVacates(store, from, to, stamp);
    DeletedPath(store, from, to);
  }

  lemma RelocateFinding(store: Store, from: string, to: string, stamp: map<string, string>)
    requires to in store
    ensures Relocate(store, from, to, None, stamp) == DeleteTree(store, from)
  {
  }

  lemma EmptyIsAbsent(store: Store, path: string)
    requires Below(store, path) == {}
    ensures path !in store && VersionAt(store, path).None?
  {
    if path in store { ThereIsBelow(store, path); }
  }

  lemma ApartDiffers(a: string, b: string)
    requires !InSubtree(a, b)
    ensures a != b
  {
  }

  lemma SyncedRow(w: World, f: FileId)
    requires InSync(w, f)
    ensures f in w.db.files && w.db.files[f].state.Synced? && w.db.files[f].path in w.store && w.db.files[f].cachePath.Some?
  {
  }

  lemma DeletedPath(store: Store, from: string, to: string)
    requires !InSubtree(from, to)
    ensures from !in DeleteTree(store, from) && (to in store ==> to in DeleteTree(store, from))
  {
  }
}
