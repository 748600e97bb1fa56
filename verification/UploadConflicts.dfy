/** Uploads that meet a conflict: when they keep both versions, what they leave when they do not, and why a
    directory that got into a conflict never reaches the remote side. */
module UploadConflicts {
  import opened Wrappers
  import opened RemotePaths
  import opened Tables
  import opened SyncSteps
  import opened TableInvariants
  import opened RemoteStore
  import opened SyncMachine
  import opened JobRuns
  import opened ConflictCopies
  import HelperSoundness
  import SubtreeRename
  import SqlLike

  /** Marking a row as uploading changes no path. */
  lemma MarkingIsHarmless(db: Db, f: FileId)
    requires Valid(db) && f in db.files
    ensures var marked := SetState(db, f, Uploading);
            && Valid(marked) && marked.files == db.files[f := db.files[f].(state := Uploading)]
            && marked == db.(files := marked.files)
            && forall p :: Occupied(marked.files, p) <==> Occupied(db.files, p)
  {
    hide ParentPathOf, NameOf;
    var marked := SetState(db, f, Uploading);
    assert RowOk(marked.files[f]);
    hide RowOk;
    HelperSoundness.ReplaceRowFiles(db.files, db.nextFile, f, marked.files[f]);
    forall p
      ensures Occupied(marked.files, p) <==> Occupied(db.files, p)
    {
      assert forall g :: g in db.files ==> marked.files[g].path == db.files[g].path;
    }
  }

  /** Nor does it change the conditions on the subtree, or what a conflict may leave. */
  lemma MarkedConditions(db: Db, f: FileId, path: string, copyPath: string)
    requires f in db.files
    ensures var files := SetState(db, f, Uploading).files;
            && (SubtreeRename.LikeExact(files, path) <==> SubtreeRename.LikeExact(db.files, path))
            && (SubtreeRename.TargetsFree(files, path, copyPath) <==> SubtreeRename.TargetsFree(db.files, path, copyPath))
  {
    hide SqlLike.LikeBelow, InSubtree;
    var files := SetState(db, f, Uploading).files;
    assert files.Keys == db.files.Keys && forall g :: g in files ==> files[g].path == db.files[g].path;
  }

  lemma MarkedKeeps(db: Db, f: FileId, after: Db, copyPath: string, remote: Option<RemoteEntry>)
    requires f in db.files && forall p :: Occupied(SetState(db, f, Uploading).files, p) <==> Occupied(db.files, p)
    ensures BothVersionsKept(SetState(db, f, Uploading), after, f, copyPath, remote) <==> BothVersionsKept(db, after, f, copyPath, remote)
  {
    hide Occupied, OnlyUnfinished, IsConflictCopy, RemoteInsert, KeptRow;
    var marked := SetState(db, f, Uploading);
    MarkedRowIsSame(db.files[f], db.files[f].path, copyPath);
    assert marked.files.Keys == db.files.Keys && marked.nextFile == db.nextFile && marked.files[f].path == db.files[f].path;
    forall g | g in db.files
      ensures KeptRow(marked.files[g], g == f, db.files[f].path, copyPath) == KeptRow(db.files[g], g == f, db.files[f].path, copyPath)
    {
      if g != f { assert marked.files[g] == db.files[g]; }
    }
    hide SetState;
  }

  lemma MarkedRowIsSame(row: Row, path: string, copyPath: string)
    ensures KeptRow(row.(state := Uploading), true, path, copyPath) == KeptRow(row, true, path, copyPath)
  {
    hide ParentPathOf, NameOf;
  }

  /** The row is one whose upload finds another version than the remembered one. */
  predicate Conflicts(w: World, f: FileId, a: UploadAnswers) {
    && f in w.db.files
    && var row := w.db.files[f];
       && row.cachePath.Some? && row.path != ROOT && (a.metadata.None? || (a.metadata == Some(NotFound) && row.path !in w.store))
       && row.remoteVersion != VersionAt(w.store, row.path)
  }

  /** The name the conflict chooses, once the row is marked as uploading. */
  function ChosenName(db: Db, f: FileId): Option<string>
    requires f in db.files
  {
    NextConflictPath(SetState(db, f, Uploading).files, db.files[f].path)
  }

  /** The run of such an upload: one conflict on the marked row. */
  lemma ConflictRun(w: World, job: Op, a: UploadAnswers, now: int)
    requires Valid(w.db) && HoldsJob(w.db, job) && Conflicts(w, job.fid, a)
    ensures var row, marked := w.db.files[job.fid], SetState(w.db, job.fid, Uploading);
            var applied := ApplyConflict(marked, row, VersionAt(w.store, row.path), Metadata(w.store, row.path), now);
            ProcessUpload(w, job, a, now)
            == if applied.Ok? then Ran(w.(db := applied.value), Closed) else Ran(w.(db := marked), LeftLeased)
  {
    hide Valid, RowOk, ApplyConflict, HasDriver, FinishConflicted;
    var f, row := job.fid, w.db.files[job.fid];
    var marked := SetState(w.db, f, Uploading);
    var current := Metadata(w.store, row.path);
    UnparkedInValid(w.db, f);
    MarkingIsHarmless(w.db, f);
    var applied := ApplyConflict(marked, row, VersionAt(w.store, row.path), current, now);
    if applied.Ok? {
      ValidHasOkOps(marked);
      ConflictDropsJob(marked, row, VersionAt(w.store, row.path), current, now, job.id);
      FinishingOfMissingJob(applied.value, job.id, now);
    }
  }

  lemma UnparkedInValid(db: Db, f: FileId)
    requires Valid(db) && f in db.files
    ensures !db.files[f].state.Conflict? && db.files[f].fid == f
  {
    assert RowOk(db.files[f]);
  }

  /** A detected conflict leaves the remote side and the disk as they are. It ends with both versions kept
      exactly when the chosen name is free of hidden rows too, the query for the row's subtree selects
      nothing else, and no path below the new name is taken. A conflict that does not commit rolls the
      tables back and leaves the job leased, to be tried again. */
  lemma UploadConflictKeepsBothIff(w: World, job: Op, a: UploadAnswers, now: int)
    requires Valid(w.db) && HoldsJob(w.db, job) && Conflicts(w, job.fid, a)
    ensures var f, row, r := job.fid, w.db.files[job.fid], ProcessUpload(w, job, a, now);
            var c := ChosenName(w.db, f);
            && r.world.store == w.store && r.world.disk == w.disk
            && (!r.ending.Closed? ==> r == Ran(w.(db := SetState(w.db, f, Uploading)), LeftLeased))
            && ((r.ending.Closed? && c.Some? && BothVersionsKept(w.db, r.world.db, f, c.value, Metadata(w.store, row.path)))
                <==> (c.Some? && !Occupied(w.db.files, c.value)
                      && SubtreeRename.LikeExact(w.db.files, row.path) && SubtreeRename.TargetsFree(w.db.files, row.path, c.value)))
  {
    hide Valid, ApplyConflict, NextConflictPath, BothVersionsKept, ProcessUpload, HoldsJob, Occupied, SetState,
         SubtreeRename.LikeExact, SubtreeRename.TargetsFree;
    var f, row := job.fid, w.db.files[job.fid];
    var marked := SetState(w.db, f, Uploading);
    ConflictRun(w, job, a, now);
    MarkingIsHarmless(w.db, f);
    UnparkedInValid(w.db, f);
    ConflictKeepsBothIff(marked, f, row, VersionAt(w.store, row.path), Metadata(w.store, row.path), now);
    var c := ChosenName(w.db, f);
    if c.Some? {
      MarkedConditions(w.db, f, row.path, c.value);
      var applied := ApplyConflict(marked, row, VersionAt(w.store, row.path), Metadata(w.store, row.path), now);
      if applied.Ok? { MarkedKeeps(w.db, f, applied.value, c.value, Metadata(w.store, row.path)); }
    }
  }

  /** The row of a committed conflict, as the next upload finds it. */
  lemma UploadCopyRow(w: World, f: FileId, a: UploadAnswers, now: int)
    requires Valid(w.db) && Conflicts(w, f, a)
    ensures var row, marked := w.db.files[f], SetState(w.db, f, Uploading);
            var applied := ApplyConflict(marked, row, VersionAt(w.store, row.path), Metadata(w.store, row.path), now);
            applied.Ok? ==>
              && f in applied.value.files
              && var copy := applied.value.files[f];
                 copy.path != row.path && copy.cachePath == row.cachePath && copy.remoteVersion.None? && copy.state.QueuedUpload?
  {
    hide Valid, ApplyConflict, NextConflictPath, KeptRow, OnlyUnfinished, IsConflictCopy;
    var row, marked := w.db.files[f], SetState(w.db, f, Uploading);
    MarkingIsHarmless(w.db, f);
    UnparkedInValid(w.db, f);
    var current := Metadata(w.store, row.path);
    if ApplyConflict(marked, row, VersionAt(w.store, row.path), current, now).Ok? {
      CopyRow(marked, f, row, VersionAt(w.store, row.path), current, now);
      KeptRowParts(marked.files[f], row.path, NextConflictPath(marked.files, row.path).value);
    }
  }

  lemma KeptRowParts(row: Row, path: string, copyPath: string)
    requires row.path == path
    ensures var copy := KeptRow(row, true, path, copyPath);
            && copy.path == copyPath && copy.cachePath == row.cachePath && copy.fid == row.fid && copy.localVersion == row.localVersion
            && copy.remoteVersion.None? && copy.state.QueuedUpload?
  {
    hide ParentPathOf, NameOf;
    assert InSubtree(path, row.path);
    assert copyPath + path[|path|..] == copyPath;
  }

  /** The same for a row with nothing below it, such as a file of a parent-closed table: the name must be free
      and the query must select the row alone. */
  lemma FileConflictKeepsBothIff(w: World, job: Op, a: UploadAnswers, now: int)
    requires Valid(w.db) && HoldsJob(w.db, job) && Conflicts(w, job.fid, a) && Childless(w.db.files, job.fid)
    ensures var f, row, r := job.fid, w.db.files[job.fid], ProcessUpload(w, job, a, now);
            var c := ChosenName(w.db, f);
            (r.ending.Closed? && c.Some? && BothVersionsKept(w.db, r.world.db, f, c.value, Metadata(w.store, row.path)))
            <==> (c.Some? && !Occupied(w.db.files, c.value) && Leaf(w.db.files, f))
  {
    hide Valid, BothVersionsKept, ProcessUpload, HoldsJob, Occupied, ChosenName, SubtreeRename.LikeExact, SubtreeRename.TargetsFree, Leaf, Childless;
    UploadConflictKeepsBothIff(w, job, a, now);
    var c := ChosenName(w.db, job.fid);
    if c.Some? { ChildlessConditions(w.db.files, job.fid, c.value); }
  }

  // ---- A directory in conflict ----

  /** One round of the worker on a file's uploads: expired leases are recovered, and if the next job is an
      upload of the file it is leased and run, with whatever answers the remote side gives. */
  datatype Round = Round(now: int, answers: UploadAnswers)

  lemma NextJobIsThere(ops: Ops, now: int)
    ensures NextJob(ops, now).Some? ==> NextJob(ops, now).value in ops && Runnable(ops[NextJob(ops, now).value].status)
  {
    if NextJob(ops, now).Some? { assert NextJob(ops, now).value in EligibleIds(ops, now); }
  }

  ghost function UploadRound(w: World, f: FileId, r: Round): World {
    var db := RecoverLeases(w.db, r.now);
    var next := NextJob(db.ops, r.now);
    NextJobIsThere(db.ops, r.now);
    if next.Some? && db.ops[next.value].fid == f && db.ops[next.value].opType.Upload? then
      ProcessUpload(w.(db := Lease(db, next.value, r.now)), LeasedOp(db.ops[next.value], r.now), r.answers, r.now).world
    else w.(db := db)
  }

  ghost function UploadRounds(w: World, f: FileId, rounds: seq<Round>): World {
    if rounds == [] then w else UploadRound(UploadRounds(w, f, rounds[..|rounds| - 1]), f, rounds[|rounds| - 1])
  }

  /** The same operations, as unfinished as before. */
  predicate NoneFinished(ops: Ops, after: Ops) {
    after.Keys == ops.Keys
    && forall i :: i in ops ==>
         after[i].fid == ops[i].fid && after[i].opType == ops[i].opType && after[i].retryCount == ops[i].retryCount
         && (NonTerminal(ops[i].status) ==> NonTerminal(after[i].status))
  }

  lemma RecoveryFinishesNone(db: Db, now: int)
    ensures NoneFinished(db.ops, RecoverLeases(db, now).ops)
  {
  }

  lemma LeaseFinishesNone(db: Db, id: nat, now: int)
    requires id in db.ops
    ensures NoneFinished(db.ops, Lease(db, id, now).ops)
  {
  }

  lemma NoneFinishedTwice(a: Ops, b: Ops, c: Ops)
    requires NoneFinished(a, b) && NoneFinished(b, c)
    ensures NoneFinished(a, c)
  {
  }

  /** A row without a cache file is never uploaded: over any number of rounds, whatever the remote side
      answers, no row, no cache file and no remote object changes, and its upload neither finishes nor
      counts a failure. */
  lemma {:induction false} UncachedRowNeverUploads(w: World, f: FileId, rounds: seq<Round>)
    requires f in w.db.files && w.db.files[f].cachePath.None? && !w.db.files[f].state.Conflict?
    ensures var after := UploadRounds(w, f, rounds);
            && after == w.(db := w.db.(ops := after.db.ops)) && NoneFinished(w.db.ops, after.db.ops)
  {
    hide RecoverLeases, Lease, NoneFinished, NextJob, UploadMarked, RetryOrFail;
    if rounds == [] {
      NothingFinished(w.db.ops);
    } else {
      var init, r := rounds[..|rounds| - 1], rounds[|rounds| - 1];
      UncachedRowNeverUploads(w, f, init);
      UncachedRound(UploadRounds(w, f, init), f, r);
      NoneFinishedTwice(w.db.ops, UploadRounds(w, f, init).db.ops, UploadRounds(w, f, rounds).db.ops);
    }
  }

  lemma NothingFinished(ops: Ops)
    ensures NoneFinished(ops, ops)
  {
  }

  lemma UncachedRound(w: World, f: FileId, r: Round)
    requires f in w.db.files && w.db.files[f].cachePath.None? && !w.db.files[f].state.Conflict?
    ensures var after := UploadRound(w, f, r);
            after == w.(db := w.db.(ops := after.db.ops)) && NoneFinished(w.db.ops, after.db.ops)
  {
    hide NoneFinished, NextJob, UploadMarked, RetryOrFail, FinishConflicted;
    var db := RecoverLeases(w.db, r.now);
    RecoveryFinishesNone(w.db, r.now);
    NextJobIsThere(db.ops, r.now);
    var next := NextJob(db.ops, r.now);
    if next.Some? {
      LeaseFinishesNone(db, next.value, r.now);
      NoneFinishedTwice(w.db.ops, db.ops, Lease(db, next.value, r.now).ops);
    }
  }

  /** A directory whose version the remote side has changed becomes a copy that never gets there: after a
      committed conflict its only unfinished operation is an upload, and no number of rounds changes its
      row, finishes that upload or touches the remote side. */
  lemma ConflictedDirectoryNeverUploads(w: World, f: FileId, remote: Option<RemoteEntry>, copied: Db, now: int, rounds: seq<Round>)
    requires Valid(w.db) && f in w.db.files && w.db.files[f].cachePath.None? && w.db.files[f].path != ROOT
    requires remote.Some? ==> remote.value.path == w.db.files[f].path
    requires ApplyConflict(w.db, w.db.files[f], VersionOf(remote), remote, now) == Ok(copied)
    ensures var after := UploadRounds(w.(db := copied), f, rounds);
            && after.store == w.store && after.disk == w.disk && after.db.files == copied.files
            && f in after.db.files && after.db.files[f].path != w.db.files[f].path
            && after.db.files[f].state.QueuedUpload? && after.db.files[f].remoteVersion.None?
            && exists i :: i in after.db.ops && UnfinishedUpload(after.db.ops[i], f)
  {
    hide Valid, ApplyConflict, NextConflictPath, KeptRow, UploadRounds, IsConflictCopy;
    var row := w.db.files[f];
    UnparkedInValid(w.db, f);
    CopyRow(w.db, f, row, VersionOf(remote), remote, now);
    KeptRowParts(row, row.path, NextConflictPath(w.db.files, row.path).value);
    UncachedRowNeverUploads(w.(db := copied), f, rounds);
    var i :| OnlyUnfinished(copied, f, i, NextConflictPath(w.db.files, row.path).value);
    assert i in UploadRounds(w.(db := copied), f, rounds).db.ops;
  }

  predicate UnfinishedUpload(op: Op, f: FileId) { op.fid == f && op.opType.Upload? && NonTerminal(op.status) }
}
