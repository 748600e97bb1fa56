/** Jobs are delivered at least once: a job whose remote call went through but whose tables were not
    updated is taken again, after the worker has run other jobs and other clients have changed the remote
    side. What the second run does to the remote side as it finds it. */
module AtLeastOnce {
  import opened Wrappers
  import opened RemotePaths
  import opened Tables
  import opened SyncSteps
  import opened TableInvariants
  import opened RemoteStore
  import opened SyncMachine
  import opened JobRuns
  import ReconcileSafety
  import UploadConflicts
  import ConflictCopies

  /** How one changing remote call goes: it is answered, it fails without effect, its effect happens but
      the answer is lost, or its effect happens and the daemon dies. */
  datatype Call = Answered | Refused(error: RemoteError) | Lost(error: RemoteError) | Died

  predicate TookEffect(c: Call) { !c.Refused? }

  /** A change was made on the remote side that the tables do not show. */
  predicate Unrecorded(c: Call) { c.Lost? || c.Died? }

  function AfterCall(w: World, job: Op, c: Call, now: int): Ran
    requires !c.Answered?
  {
    match c
    case Refused(e) => Failing(w, job, e, now)
    case Lost(e) => Failing(w, job, e, now)
    case Died => Ran(w, Crashed)
  }

  // ---- Delete ----

  function PathOf(payload: Payload): string {
    match payload case PathPayload(p) => p case RenamePayload(_, _) => ROOT
  }

  predicate SaysMissing(c: Call) { (c.Refused? || c.Lost?) && c.error.NotFound? }

  function ProcessDelete(w: World, job: Op, c: Call, now: int): Ran {
    var store := if TookEffect(c) then DeleteTree(w.store, PathOf(job.payload)) else w.store;
    if c.Answered? || SaysMissing(c) then Ran(w.(db := DeleteDone(w.db, job), store := store), Closed)
    else AfterCall(w.(store := store), job, c, now)
  }

  // ---- Mkdir ----

  predicate SaysExisting(c: Call) { (c.Refused? || c.Lost?) && c.error.Conflict? }

  function ProcessMkdir(w: World, job: Op, c: Call, version: Option<string>, recheck: Option<RemoteError>, now: int): Ran {
    if job.fid !in w.db.files then Ran(w, LeftLeased)
    else
      var path := w.db.files[job.fid].path;
      var store := if TookEffect(c) then MakeDirectory(w.store, path, version) else w.store;
      if !c.Answered? && !SaysExisting(c) then AfterCall(w.(store := store), job, c, now)
      else if recheck.Some? || path !in store then Ran(w.(store := store), LeftLeased)
      else Ran(w.(db := RemoteSeen(w.db, job, Some(Entry(path, store[path])), now), store := store), Closed)
  }

  // ---- Rename ----

  /** `probe` is the failure of the first look at the new path, which the engine takes for absence. */
  function Relocate(store: Store, from: string, to: string, probe: Option<RemoteError>, stamp: map<string, string>): Store {
    if probe.None? && to in store then DeleteTree(store, from) else MoveTree(store, from, to, stamp)
  }

  function ProcessRename(w: World, job: Op, probe: Option<RemoteError>, c: Call, stamp: map<string, string>,
                         recheck: Option<RemoteError>, now: int): Ran
  {
    if job.payload.PathPayload? then Ran(w, LeftLeased)
    else
      var from, to := job.payload.oldPath, job.payload.newPath;
      var store := if TookEffect(c) then Relocate(w.store, from, to, probe, stamp) else w.store;
      if !c.Answered? && !SaysMissing(c) then AfterCall(w.(store := store), job, c, now)
      else if recheck.Some? && !recheck.value.NotFound? then Ran(w.(store := store), LeftLeased)
      else
        var found := if recheck.Some? then None else Metadata(store, to);
        Ran(w.(db := RemoteSeen(w.db, job, found, now), store := store), Closed)
  }

  // ---- Running again ----

  /** Nothing has happened in between: the remote side is as the first run left it, and the file's row is
      unchanged except for its state. */
  predicate Undisturbed(w: World, first: Ran, again: World, f: FileId) {
    && again.store == first.world.store
    && f in w.db.files && f in again.db.files
    && again.db.files[f] == w.db.files[f].(state := again.db.files[f].state)
  }

  lemma DeletionEmpties(store: Store, path: string)
    ensures Below(DeleteTree(store, path), path) == {}
    ensures DeleteTree(store, path) == store <==> Below(store, path) == {}
  {
    if Below(store, path) == {} { NothingBelow(store, path); }
    assert DeleteTree(store, path) == store ==> Below(store, path) == Below(DeleteTree(store, path), path);
  }

  /** A deletion taken again, whatever the remote side is by then: it ends with the row and its operations
      gone, and changes the remote side exactly when something has come back below the path. */
  lemma DeleteAgain(w: World, job: Op, c: Call, again: World, job2: Op, now: int, later: int)
    requires Unrecorded(c) && job2.fid == job.fid && job2.payload == job.payload
    ensures var path, first, second := PathOf(job.payload), ProcessDelete(w, job, c, now), ProcessDelete(again, job2, Answered, later);
            && Below(first.world.store, path) == {} && second.ending == Closed
            && (second.world.store == again.store <==> Below(again.store, path) == {})
            && (again.store == first.world.store ==> second.world.store == ProcessDelete(w, job, Answered, later).world.store)
            && job.fid !in second.world.db.files && forall i :: i in second.world.db.ops ==> second.world.db.ops[i].fid != job.fid
  {
    hide DeleteTree, RetryOrFail, Below;
    var path := PathOf(job.payload);
    DeletionEmpties(w.store, path);
    DeletionEmpties(again.store, path);
    DeleteTwice(w.store, path);
    assert ProcessDelete(w, job, c, now).world.store == DeleteTree(w.store, path);
    assert ProcessDelete(again, job2, Answered, later).world.store == DeleteTree(again.store, path);
  }

  /** Nothing that is there is lost or changed. */
  ghost predicate Extends(store: Store, after: Store) {
    forall p :: p in store ==> p in after && after[p] == store[p]
  }

  lemma MadeOnce(store: Store, path: string, version: Option<string>)
    ensures var made := MakeDirectory(store, path, version);
            path in made && Extends(store, made) && (made == store <==> path in store)
  {
  }

  /** A directory creation taken again, whatever the remote side is by then: it makes the directory if it
      is gone, touches nothing else, and records the version it finds. */
  lemma MkdirAgain(w: World, job: Op, c: Call, version: Option<string>, version2: Option<string>, again: World, job2: Op,
                   now: int, later: int)
    requires Unrecorded(c) && job2.fid == job.fid && job.fid in w.db.files
    requires job.fid in again.db.files && again.db.files[job.fid].path == w.db.files[job.fid].path
    ensures var path, first, second := w.db.files[job.fid].path, ProcessMkdir(w, job, c, version, None, now),
                                       ProcessMkdir(again, job2, Answered, version2, None, later);
            && path in first.world.store && Extends(w.store, first.world.store)
            && second.ending == Closed && path in second.world.store && Extends(again.store, second.world.store)
            && (second.world.store == again.store <==> path in again.store)
            && job.fid in second.world.db.files && second.world.db.files[job.fid].state.Synced?
            && second.world.db.files[job.fid].remoteVersion == VersionAt(second.world.store, path)
            && (Undisturbed(w, first, again, job.fid) ==>
                  var once := ProcessMkdir(w, job, Answered, version, None, later);
                  second.world.store == once.world.store && job.fid in once.world.db.files
                  && second.world.db.files[job.fid] == once.world.db.files[job.fid])
  {
    hide RetryOrFail, MakeDirectory;
    var path := w.db.files[job.fid].path;
    MadeOnce(w.store, path, version);
    MadeOnce(again.store, path, version2);
    assert ProcessMkdir(w, job, c, version, None, now).world.store == MakeDirectory(w.store, path, version);
  }

  /** As in any tree, nothing lies below a path that is not there. */
  predicate NoOrphans(store: Store, path: string) { path !in store ==> Below(store, path) == {} }

  /** Moving, or deleting what is left behind, empties the old path. It changes nothing exactly when there is
      nothing at the old path to begin with. */
  lemma RelocateUnchangedIff(store: Store, from: string, to: string, probe: Option<RemoteError>, stamp: map<string, string>)
    requires !InSubtree(from, to) && !InSubtree(to, from) && NoOrphans(store, from)
    ensures Below(Relocate(store, from, to, probe, stamp), from) == {}
    ensures Relocate(store, from, to, probe, stamp) == store <==> Below(store, from) == {}
  {
    hide MoveTree, DeleteTree, InSubtree;
    if probe.None? && to in store {
      DeletionEmpties(store, from);
    } else if from in store {
      MoveVacates(store, from, to, stamp);
      ThereIsBelow(store, from);
    } else {
      MovingNothing(store, from, to, stamp);
    }
  }

  lemma ThereIsBelow(store: Store, path: string)
    requires path in store
    ensures Below(store, path) != {}
  {
    assert path in Below(store, path);
  }

  lemma MovingNothing(store: Store, from: string, to: string, stamp: map<string, string>)
    requires from !in store
    ensures MoveTree(store, from, to, stamp) == store
  {
  }

  /** A rename taken again, whatever the remote side is by then: the first run has emptied the old path, and
      the second changes the remote side exactly when something has come to lie there since. The row
      records the version that is then at the new path. Undisturbed, it ends as one run does. */
  lemma RenameAgain(w: World, job: Op, probe: Option<RemoteError>, c: Call, stamp: map<string, string>, again: World, job2: Op,
                    probe2: Option<RemoteError>, stamp2: map<string, string>, now: int, later: int)
    requires job.payload.RenamePayload? && job2.fid == job.fid && job2.payload == job.payload
    requires !InSubtree(job.payload.oldPath, job.payload.newPath) && !InSubtree(job.payload.newPath, job.payload.oldPath)
    requires NoOrphans(w.store, job.payload.oldPath) && NoOrphans(again.store, job.payload.oldPath) && Unrecorded(c)
    ensures var from := job.payload.oldPath;
            var once, first, second := ProcessRename(w, job, probe, Answered, stamp, None, later),
                                       ProcessRename(w, job, probe, c, stamp, None, now),
                                       ProcessRename(again, job2, probe2, Answered, stamp2, None, later);
            && Below(first.world.store, from) == {} && Below(second.world.store, from) == {} && second.ending == Closed
            && (second.world.store == again.store <==> Below(again.store, from) == {})
            && (job.payload.newPath in second.world.store && job.fid in again.db.files ==>
                  job.fid in second.world.db.files && second.world.db.files[job.fid].state.Synced?
                  && second.world.db.files[job.fid].remoteVersion == VersionAt(second.world.store, job.payload.newPath))
            && (job.payload.newPath !in second.world.store ==> second.world.db.files == again.db.files)
            && (Undisturbed(w, first, again, job.fid) ==>
                  && second.world.store == once.world.store
                  && (job.payload.newPath in once.world.store && job.fid in once.world.db.files && job.fid in second.world.db.files ==>
                        second.world.db.files[job.fid] == once.world.db.files[job.fid]))
  {
    hide RetryOrFail, Relocate, InSubtree, Below, NoOrphans;
    var from, to := job.payload.oldPath, job.payload.newPath;
    RelocateUnchangedIff(w.store, from, to, probe, stamp);
    RelocateUnchangedIff(again.store, from, to, probe2, stamp2);
    assert ProcessRename(w, job, probe, c, stamp, None, now).world.store == Relocate(w.store, from, to, probe, stamp);
    assert ProcessRename(again, job2, probe2, Answered, stamp2, None, later).world.store == Relocate(again.store, from, to, probe2, stamp2);
  }

  // ---- The row of an upload ----

  predicate SameContent(row: Row, after: Row) {
    after.fid == row.fid && after.localVersion == row.localVersion && after.cachePath == row.cachePath
  }

  /** However an upload ends, its row stays, with the same cache file and local version. */
  lemma UploadKeepsRow(w: World, job: Op, a: UploadAnswers, now: int)
    requires Valid(w.db) && job.fid in w.db.files && HoldsJob(w.db, job)
    ensures var r := ProcessUpload(w, job, a, now);
            job.fid in r.world.db.files && SameContent(w.db.files[job.fid], r.world.db.files[job.fid])
  {
    var row := w.db.files[job.fid];
    ClosingKeepsRow(w.db, job, now);
    if row.cachePath.Some? && !row.state.Conflict? {
      var marked := SetState(w.db, job.fid, Uploading);
      UploadConflicts.MarkingIsHarmless(w.db, job.fid);
      ConflictCopies.RowInValid(w.db, job.fid);
      hide Valid, ApplyConflict, RetryOrFail, UploadDone, FinishConflicted, SetState, ProcessUpload;
      MarkedUploadKeepsRow(w.(db := marked), job, row, a, now);
      UploadIsMarked(w, job, a, now);
    }
  }

  lemma UploadIsMarked(w: World, job: Op, a: UploadAnswers, now: int)
    requires job.fid in w.db.files
    ensures var entry := w.db.files[job.fid];
            !entry.state.Conflict? && entry.cachePath.Some? ==>
              ProcessUpload(w, job, a, now) == UploadMarked(w.(db := SetState(w.db, job.fid, Uploading)), job, entry, a, now)
  {
  }

  lemma ClosingKeepsRow(db: Db, job: Op, now: int)
    requires job.fid in db.files
    ensures forall id: nat :: job.fid in FinishConflicted(db, id, now).files
              && SameContent(db.files[job.fid], FinishConflicted(db, id, now).files[job.fid])
    ensures forall e: RemoteError :: job.fid in RetryOrFail(db, job, e, now, now).files
              && SameContent(db.files[job.fid], RetryOrFail(db, job, e, now, now).files[job.fid])
    ensures forall r: RemoteEntry :: job.fid in UploadDone(db, job, r, now).files
              && SameContent(db.files[job.fid], UploadDone(db, job, r, now).files[job.fid])
  {
  }

  lemma EntryIsOk(store: Store, path: string)
    requires ROOT <= path
    ensures Metadata(store, path).Some? ==> RemoteOk(Metadata(store, path).value)
  {
  }

  lemma MarkedUploadKeepsRow(w: World, job: Op, entry: Row, a: UploadAnswers, now: int)
    requires Valid(w.db) && job.fid in w.db.files && entry.cachePath.Some? && ROOT <= entry.path
    requires w.db.files[job.fid].state.Uploading?
    ensures var r := UploadMarked(w, job, entry, a, now);
            job.fid in r.world.db.files && SameContent(w.db.files[job.fid], r.world.db.files[job.fid])
  {
    hide Valid, ApplyConflict, RetryOrFail, UploadDone, FinishConflicted;
    ClosingKeepsRow(w.db, job, now);
    var current := if a.metadata.Some? then None else Metadata(w.store, entry.path);
    var version := match current case Some(r) => r.version case None => None;
    var applied := ApplyConflict(w.db, entry, version, current, now);
    if applied.Ok? {
      EntryIsOk(w.store, entry.path);
      ReconcileSafety.ApplyConflictHolds(w.db, entry, version, current, now, job.fid, w.db.files[job.fid]);
      ClosingKeepsRow(applied.value, job, now);
    }
  }
}
