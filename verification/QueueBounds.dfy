/** Bounds on the operation queue over whole runs: how many runnable operations a file can have, and
    when an unfinished operation can run again. */
module QueueBounds {
  import opened Wrappers
  import opened Tables
  import opened SyncSteps
  import opened TableInvariants
  import opened HelperSoundness
  import opened SyncMachine

  // ---- Coalescing ----

  /** Leases handed back in one step: by lease expiry or by a retryable failure. */
  function ReturnedIds(ops: Ops, after: Ops, f: FileId, t: OpType): set<nat> {
    set i | i in after && i in ops && after[i].fid == f && after[i].opType == t
            && ops[i].status.Leased? && Runnable(after[i].status)
  }

  function Returns(run: Run, f: FileId, t: OpType): nat {
    match run
    case Start => 0
    case Then(before, _, s) => Returns(before, f, t) + |ReturnedIds(Last(before).db.ops, s.db.ops, f, t)|
  }

  /** Operations keep their file and type, and only leased ones become runnable. */
  predicate OnlyReturns(ops: Ops, after: Ops) {
    && after.Keys <= ops.Keys
    && forall i :: i in after ==>
         && after[i].fid == ops[i].fid && after[i].opType == ops[i].opType
         && (Runnable(after[i].status) ==> Runnable(ops[i].status) || ops[i].status.Leased?)
  }

  lemma ClosingOnlyReturns(db: Db, job: Op, now: int)
    ensures OnlyReturns(db.ops, MarkJob(db, job.id, Done, now).ops)
    ensures OnlyReturns(db.ops, FinishConflicted(db, job.id, now).ops)
    ensures OnlyReturns(db.ops, DeleteDone(db, job).ops)
    ensures forall f, s :: SetState(db, f, s).ops == db.ops
  {
  }

  lemma FailingOnlyReturns(db: Db, job: Op, e: RemoteError, now: int, later: int)
    requires HoldsJob(db, job)
    ensures OnlyReturns(db.ops, RetryOrFail(db, job, e, now, later).ops)
  {
    hide HasDriver, Backoff;
  }

  lemma RecoveringOnlyReturns(db: Db, now: int)
    ensures OnlyReturns(db.ops, RecoverLeases(db, now).ops)
  {
  }

  lemma TakingOnlyReturns(db: Db, now: int)
    requires NextJob(db.ops, now).Some?
    ensures NextJob(db.ops, now).value in db.ops
    ensures OnlyReturns(db.ops, Lease(db, NextJob(db.ops, now).value, now).ops)
  {
    assert NextJob(db.ops, now).value in EligibleIds(db.ops, now);
  }

  lemma WorkerOnlyReturns(s: Sys, e: Event)
    requires Inv(s) && Enabled(s, e) && !Local(e) && !e.MoveConflict? && !e.ReconcileTree?
    ensures OnlyReturns(s.db.ops, Apply(s, e).db.ops)
  {
    hide OnlyReturns, DbInv, HoldsJob, RowOk, MarkJob, SetState, RecoverLeases, Lease, FinishConflicted, DeleteDone, RetryOrFail,
         NextJob, RemoteOk;
    UnchangedOnlyReturns(s.db.ops);
    match e
    case RecoverExpired(now) => RecoveringOnlyReturns(s.db, now);
    case TakeJob(now) => TakingOnlyReturns(s.db, now);
    case BeginUpload(entry) => ClosingOnlyReturns(s.db, s.worker.job, 0);
    case BeginDownload => ClosingOnlyReturns(s.db, s.worker.job, 0);
    case ParkUpload(_, now) => ClosingOnlyReturns(s.db, s.worker.job, now);
    case CloseConflict(now) => ClosingOnlyReturns(s.db, s.worker.job, now);
    case EndUpload(uploaded, now) => WritingBackOnlyReturns(s.db, s.worker.job, RootRow(), uploaded, None, 0, now);
    case EndDownload(entry, bytes, now) => WritingBackOnlyReturns(s.db, s.worker.job, entry, AnyEntry(), None, |bytes|, now);
    case EndMkdir(made, now) => WritingBackOnlyReturns(s.db, s.worker.job, RootRow(), made, Some(made), 0, now);
    case EndRename(seenThere, now) => WritingBackOnlyReturns(s.db, s.worker.job, RootRow(), AnyEntry(), seenThere, 0, now);
    case EndDelete => ClosingOnlyReturns(s.db, s.worker.job, 0);
    case EndRefresh(now) => ClosingOnlyReturns(s.db, s.worker.job, now);
    case RemoteFailure(error, now, later) => FailingOnlyReturns(s.db, s.worker.job, error, now, later);
    case GiveUp =>
    case Restart =>
  }

  function AnyEntry(): RemoteEntry { RemoteEntry("", "", File, 0, None) }

  lemma UnchangedOnlyReturns(ops: Ops)
    ensures OnlyReturns(ops, ops)
  {
  }

  lemma WritingBackOnlyReturns(db: Db, job: Op, entry: Row, found: RemoteEntry, seenThere: Option<RemoteEntry>, size: nat, now: int)
    ensures OnlyReturns(db.ops, UploadDone(db, job, found, now).ops)
    ensures OnlyReturns(db.ops, RemoteSeen(db, job, seenThere, now).ops)
    ensures OnlyReturns(db.ops, DownloadDone(db, job, entry, size, now).ops)
  {
  }

  lemma OtherStepsCoalesce(s: Sys, e: Event)
    requires Inv(s) && Enabled(s, e) && (Local(e) || e.MoveConflict? || e.ReconcileTree?)
    ensures Coalesces(s.db.ops, Apply(s, e).db.ops)
  {
    hide RowOk, Valid, ApplyConflict, Reconcile, RemoteOk, TreeOk, FilesOk, HoldsJob, Driven, ActiveCovered, DriversKept,
         RenameEntryDb, Create, CommitLocal, Unlink, Hydrate, UpsertOperation;
    SoundReflexive(s.db);
    match e
    case MoveConflict(entry, remote, now) =>
      OkRowIsRooted(entry);
      if ApplyConflict(s.db, entry, VersionOf(remote), remote, now).Ok? {
        ApplyConflictSound(s.db, entry, VersionOf(remote), remote, now);
      }
    case ReconcileTree(tree, remoteOrder, localOrder, now) =>
      ReconcileSound(s.db, s.disk, tree, remoteOrder, localOrder, now);
    case _ => LocalStepSound(s, e);
  }

  lemma RunnableStep(s: Sys, e: Event, f: FileId, t: OpType)
    requires Inv(s) && Enabled(s, e)
    ensures var now, before, back := RunnableIds(Apply(s, e).db.ops, f, t), RunnableIds(s.db.ops, f, t),
                                     ReturnedIds(s.db.ops, Apply(s, e).db.ops, f, t);
            now <= before + back || |now| <= 1
  {
    hide Inv, Enabled, Apply;
    if Local(e) || e.MoveConflict? || e.ReconcileTree? {
      OtherStepsCoalesce(s, e);
    } else {
      WorkerOnlyReturns(s, e);
    }
  }

  /** Over every run, a file has at most one runnable operation of a type, plus one for each lease of
      that type that expired or was retried. */
  lemma {:induction false} RunnableBound(run: Run, f: FileId, t: OpType)
    requires IsRun(run)
    ensures |RunnableIds(Last(run).db.ops, f, t)| <= 1 + Returns(run, f, t)
  {
    match run
    case Start =>
      assert RunnableIds(Initial().db.ops, f, t) == {};
    case Then(before, e, s) =>
      RunnableBound(before, f, t);
      ReachableInv(before);
      RunnableStep(Last(before), e, f, t);
      var now, was := RunnableIds(s.db.ops, f, t), RunnableIds(Last(before).db.ops, f, t);
      var back := ReturnedIds(Last(before).db.ops, s.db.ops, f, t);
      if now <= was + back {
        SubsetCardinality(now, was + back);
        assert |was + back| <= |was| + |back| by { assert |was + back| == |was| + |back| - |was * back|; }
      }
  }

  ghost function EnqueueAll(db: Db, f: FileId, t: OpType, payloads: seq<Payload>, now: int): Result<Db, SqlError> {
    if payloads == [] then Ok(db)
    else
      match EnqueueAll(db, f, t, payloads[..|payloads| - 1], now)
      case Err(e) => Err(e)
      case Ok(db1) => Enqueue(db1, f, t, payloads[|payloads| - 1], now)
  }

  lemma NothingSuperseded(ops: Ops, f: FileId)
    ensures WithoutSuperseded(ops, f, false, false) == ops
  {
  }

  /** The database with one fresh operation. */
  function WithFresh(db: Db, f: FileId, t: OpType, payload: Payload, now: int): Db {
    db.(ops := db.ops[db.nextOp := NewOp(db.nextOp, f, t, payload, now)], nextOp := db.nextOp + 1)
  }

  lemma FreshIsOnlyRunnable(db: Db, f: FileId, t: OpType, payload: Payload, now: int)
    requires OpsOk(db.ops, db.nextOp) && RunnableIds(db.ops, f, t) == {}
    ensures RunnableIds(WithFresh(db, f, t, payload, now).ops, f, t) == {db.nextOp}
  {
    var after := WithFresh(db, f, t, payload, now).ops;
    assert forall i :: i in after && i != db.nextOp ==> i !in RunnableIds(db.ops, f, t);
  }

  lemma FirstEnqueue(db: Db, f: FileId, t: OpType, payload: Payload, now: int)
    requires f in db.files && RunnableIds(db.ops, f, t) == {}
    ensures Enqueue(db, f, t, payload, now) == Ok(WithFresh(db, f, t, payload, now))
  {
    NothingSuperseded(db.ops, f);
  }

  lemma LaterEnqueue(db: Db, f: FileId, t: OpType, first: Payload, payload: Payload, earlier: int, now: int)
    requires OpsOk(db.ops, db.nextOp) && RunnableIds(db.ops, f, t) == {}
    ensures Enqueue(WithFresh(db, f, t, first, earlier), f, t, payload, now) == Ok(WithFresh(db, f, t, payload, now))
  {
    var db1 := WithFresh(db, f, t, first, earlier);
    FreshIsOnlyRunnable(db, f, t, first, earlier);
    NothingSuperseded(db1.ops, f);
    assert Least({db.nextOp}) == db.nextOp;
    assert Requeued(db1.ops[db.nextOp], payload, now) == NewOp(db.nextOp, f, t, payload, now);
    assert db1.ops[db.nextOp := NewOp(db.nextOp, f, t, payload, now)] == WithFresh(db, f, t, payload, now).ops;
  }

  /** Enqueueing any number of times with no lease in between leaves one runnable operation, with the
      first one's id and the last one's payload. */
  lemma {:induction false} EnqueuesCoalesce(db: Db, f: FileId, t: OpType, payloads: seq<Payload>, now: int)
    requires OpsOk(db.ops, db.nextOp) && f in db.files && RunnableIds(db.ops, f, t) == {} && payloads != []
    ensures EnqueueAll(db, f, t, payloads, now) == Ok(WithFresh(db, f, t, payloads[|payloads| - 1], now))
    ensures RunnableIds(WithFresh(db, f, t, payloads[|payloads| - 1], now).ops, f, t) == {db.nextOp}
  {
    hide OpsOk, Enqueue, WithFresh, RunnableIds;
    var init, last := payloads[..|payloads| - 1], payloads[|payloads| - 1];
    FreshIsOnlyRunnable(db, f, t, last, now);
    if init == [] {
      assert EnqueueAll(db, f, t, init, now) == Ok(db);
      FirstEnqueue(db, f, t, last, now);
    } else {
      EnqueuesCoalesce(db, f, t, init, now);
      LaterEnqueue(db, f, t, init[|init| - 1], last, now, now);
    }
  }

  /** Deleting a file the remote side knows leaves exactly one unfinished operation for it: a pending
      deletion of its path. */
  lemma UnlinkLeavesOnlyTheDelete(db: Db, entry: Row, now: int)
    requires Valid(db) && entry.fid in db.files && entry.remoteVersion.Some?
    ensures var r := Unlink(db, entry, now);
            && r.Ok? && r.value.files == db.files[entry.fid := db.files[entry.fid].(state := QueuedDelete)]
            && (forall i :: i in r.value.ops && r.value.ops[i].fid == entry.fid && NonTerminal(r.value.ops[i].status)
                  <==> i == db.nextOp)
            && r.value.ops[db.nextOp] == NewOp(db.nextOp, entry.fid, Delete, PathPayload(entry.path), now)
  {
    hide RowOk;
    var db1 := SetState(db, entry.fid, QueuedDelete);
    var ops := WithoutSuperseded(db1.ops, entry.fid, true, true);
    assert forall i :: i in ops && ops[i].fid == entry.fid ==> !NonTerminal(ops[i].status);
    assert RunnableIds(ops, entry.fid, Delete) == {};
  }

  // ---- When an operation can run again ----

  /** A lease that expires is immediately eligible. */
  lemma RecoveredIsEligible(run: Run, i: nat, now: int)
    requires IsRun(run) && i in Last(run).db.ops && LeaseExpired(Last(run).db.ops[i], now)
    ensures Eligible(RecoverLeases(Last(run).db, now).ops[i], now)
  {
    ReachableInv(run);
    assert Timely(Last(run).db.ops[i]);
  }

  lemma TimelyIsEligible(db: Db, i: nat, now: int)
    requires i in db.ops && Timely(db.ops[i]) && NonTerminal(db.ops[i].status) && db.ops[i].updatedAt + 32 <= now
    ensures Eligible(RecoverLeases(db, now).ops[i], now)
  {
  }

  lemma EligibleIsTaken(ops: Ops, i: nat, now: int)
    requires i in ops && Eligible(ops[i], now)
    ensures NextJob(ops, now).Some? && NextJob(ops, now).value <= i
  {
    assert i in EligibleIds(ops, now);
  }

  /** In every reachable state, every unfinished operation can be taken, or recovered and then taken,
      no later than 32 seconds after it was last touched: only operations with smaller ids go first. */
  lemma ReEligibleWithinBound(run: Run, i: nat, now: int)
    requires IsRun(run) && i in Last(run).db.ops && NonTerminal(Last(run).db.ops[i].status)
    requires Last(run).db.ops[i].updatedAt + 32 <= now
    ensures Eligible(RecoverLeases(Last(run).db, now).ops[i], now)
    ensures NextJob(RecoverLeases(Last(run).db, now).ops, now).Some?
            && NextJob(RecoverLeases(Last(run).db, now).ops, now).value <= i
  {
    ReachableInv(run);
    hide Valid, Driven, WorkerOk, Eligible, Timely, NextJob;
    TimelyIsEligible(Last(run).db, i, now);
    EligibleIsTaken(RecoverLeases(Last(run).db, now).ops, i, now);
  }

  function TotalBackoff(failures: nat): nat {
    if failures == 0 then 0 else TotalBackoff(failures - 1) + Backoff(failures - 1)
  }

  /** Doubling up to the sixth failure, 32 seconds for each one after it. */
  lemma {:induction false} TotalBackoffIs(failures: nat)
    ensures TotalBackoff(failures) == if failures <= 6 then Pow2(failures) - 1 else 63 + 32 * (failures - 6)
  {
    assert Pow2(6) == 64 && Pow2(5) == 32;
    if failures > 0 {
      TotalBackoffIs(failures - 1);
    }
  }

  /** The table after an operation was leased as soon as it could be and failed at once, `failures`
      times in a row from `start` on. */
  function Retried(db: Db, id: nat, e: RemoteError, start: int, failures: nat): (after: Db)
    requires id in db.ops && db.ops[id].id == id && Retryable(e)
    ensures id in after.ops && after.ops[id].id == id
  {
    if failures == 0 then db
    else
      var before, t := Retried(db, id, e, start, failures - 1), start + TotalBackoff(failures - 1);
      RetryOrFail(Lease(before, id, t), LeasedOp(before.ops[id], t), e, t, t)
  }

  /** An operation that keeps failing waits exactly the total backoff: it can be taken from
      `start + TotalBackoff(failures)` on and not before. */
  lemma {:induction false} FailuresAddUp(db: Db, id: nat, e: RemoteError, start: int, failures: nat, now: int)
    requires id in db.ops && db.ops[id].id == id && Retryable(e) && db.ops[id].retryCount == 0 && failures > 0
    ensures Retried(db, id, e, start, failures).ops[id].retryCount == failures
    ensures Eligible(Retried(db, id, e, start, failures).ops[id], now) <==> start + TotalBackoff(failures) <= now
  {
    hide Backoff, SetState;
    if failures > 1 {
      FailuresAddUp(db, id, e, start, failures - 1, now);
    }
    var before, t := Retried(db, id, e, start, failures - 1), start + TotalBackoff(failures - 1);
    var leased := Lease(before, id, t);
    StateOnly(leased.(ops := leased.ops[id := RetryLater(leased.ops[id], Backoff(failures - 1), t, t)]), LeasedOp(before.ops[id], t).fid);
  }

  lemma StateOnly(db: Db, fid: FileId)
    ensures SetState(db, fid, SyncState.Error).ops == db.ops
  {
  }

  // ---- What is taken, and for how long ----

  /** The operation that is taken is pending or to be retried, its waiting time is over, and no operation with a
      smaller id is in that position. */
  lemma TakenJobIsDue(ops: Ops, now: int)
    ensures var next := NextJob(ops, now);
            && (next.Some? ==>
                  && next.value in ops && IsDue(ops[next.value], now)
                  && forall i :: i in ops && i < next.value ==> !IsDue(ops[i], now))
            && (next.None? ==> forall i :: i in ops ==> !IsDue(ops[i], now))
  {
    var ids := EligibleIds(ops, now);
    assert forall i :: i in ops ==> (i in ids <==> IsDue(ops[i], now));
  }

  predicate IsDue(op: Op, now: int) {
    (op.status.Pending? || op.status.RetryableError?) && (op.nextRetryAt.None? || op.nextRetryAt.value <= now)
  }

  /** For thirty seconds a lease keeps the operation from being recovered and from being taken again. */
  lemma LeaseIsExclusive(db: Db, id: nat, now: int, later: int)
    requires id in db.ops && later < now + 30
    ensures var leased := RecoverLeases(Lease(db, id, now), later);
            id in leased.ops && leased.ops[id].status == Leased && NextJob(leased.ops, later) != Some(id)
  {
    var leased := RecoverLeases(Lease(db, id, now), later);
    TakenJobIsDue(leased.ops, later);
  }
}
