/** What every table helper keeps: the schema's constraints, the agreement of derived columns with
    paths, canonical cache paths, no row or operation ever parked as conflicted, and the facts about
    the queue from which retry bounds and coalescing follow. */
module TableInvariants {
  import opened Wrappers
  import opened RemotePaths
  import opened Tables
  import opened SyncSteps
  import SubtreeRename

  // ---- The invariant ----

  /** Nothing ever marks a row as deleted remotely. */
  predicate RowOk(row: Row) {
    && ROOT <= row.path
    && row.parentPath == ParentPathOf(row.path)
    && (row.path != ROOT ==> row.name == NameOf(row.path))
    && (row.cachePath.Some? ==> row.cachePath.value == CachePathFor(row.fid))
    && !row.state.Conflict? && !row.remoteDeleted
  }

  predicate RemoteOk(remote: RemoteEntry) {
    ROOT <= remote.path && (remote.path != ROOT ==> remote.name == NameOf(remote.path))
  }

  predicate FilesOk(files: Files, nextFile: FileId) {
    forall f :: f in files ==> f < nextFile && files[f].fid == f && RowOk(files[f])
  }

  predicate OpsOk(ops: Ops, nextOp: nat) {
    forall i :: i in ops ==> i < nextOp && ops[i].id == i && !ops[i].status.Conflict?
  }

  predicate References(db: Db) {
    && (forall i :: i in db.ops ==> db.ops[i].fid in db.files)
    && (forall c :: c in db.conflicts ==> c.fid in db.files)
  }

  ghost predicate Valid(db: Db) {
    && FilesOk(db.files, db.nextFile)
    && OpsOk(db.ops, db.nextOp)
    && References(db)
    && SubtreeRename.UniquePaths(db.files)
  }

  /** A state that promises background work. */
  predicate Active(state: SyncState) {
    state.QueuedUpload? || state.Uploading? || state.Downloading? || state.QueuedDelete?
  }

  /** An operation whose completion moves its file out of the active states. */
  predicate Driver(op: Op, fid: FileId) {
    op.fid == fid && NonTerminal(op.status)
    && (op.opType.Upload? || op.opType.Mkdir? || op.opType.Delete? || op.opType.Download?)
  }

  predicate HasDriver(ops: Ops, fid: FileId) {
    exists i :: i in ops && Driver(ops[i], fid)
  }

  /** No row is stuck. */
  predicate Driven(db: Db) {
    forall f :: f in db.files && Active(db.files[f].state) ==> HasDriver(db.ops, f)
  }

  /** Files that survive keep having a driver. */
  predicate DriversKept(db: Db, after: Db) {
    forall f :: f in after.files && HasDriver(db.ops, f) ==> HasDriver(after.ops, f)
  }

  /** Each row that is active afterwards was active before or has a driver now. */
  predicate ActiveCovered(db: Db, after: Db) {
    forall f :: f in after.files && Active(after.files[f].state) ==>
      (f in db.files && Active(db.files[f].state)) || HasDriver(after.ops, f)
  }

  lemma DrivenByCover(db: Db, after: Db)
    requires Driven(db) && DriversKept(db, after) && ActiveCovered(db, after)
    ensures Driven(after)
  {
  }

  // ---- Queue timing and coalescing ----

  /** How the clock columns of one operation relate. */
  predicate Timely(op: Op) {
    && (op.status.Pending? ==> op.nextRetryAt.Some? ==> op.nextRetryAt.value <= op.updatedAt)
    && (op.status.RetryableError? ==> op.nextRetryAt.Some? && op.nextRetryAt.value <= op.updatedAt + 32)
    && (op.status.Leased? ==> op.leaseExpiresAt == Some(op.updatedAt + LEASE_SECONDS)
                              && (op.nextRetryAt.Some? ==> op.nextRetryAt.value <= op.updatedAt))
  }

  predicate AllTimely(ops: Ops) { forall i :: i in ops ==> Timely(ops[i]) }

  /** The queue does not grow beyond one runnable operation per file and type. */
  ghost predicate Coalesces(ops: Ops, after: Ops) {
    forall f: FileId, t: OpType ::
      RunnableIds(after, f, t) <= RunnableIds(ops, f, t) || |RunnableIds(after, f, t)| <= 1
  }

  lemma CoalescesTransitive(a: Ops, b: Ops, c: Ops)
    requires Coalesces(a, b) && Coalesces(b, c)
    ensures Coalesces(a, c)
  {
    forall f: FileId, t: OpType
      ensures RunnableIds(c, f, t) <= RunnableIds(a, f, t) || |RunnableIds(c, f, t)| <= 1
    {
      if RunnableIds(c, f, t) <= RunnableIds(b, f, t) {
        SubsetCardinality(RunnableIds(c, f, t), RunnableIds(b, f, t));
      }
    }
  }

  lemma {:induction false} SubsetCardinality(a: set<nat>, b: set<nat>)
    requires a <= b
    ensures |a| <= |b|
  {
    if a != {} {
      var x :| x in a;
      SubsetCardinality(a - {x}, b - {x});
    }
  }

  /** What a step that only adds or reuses queue entries keeps. */
  ghost predicate QueueKept(db: Db, after: Db) {
    && Coalesces(db.ops, after.ops)
    && (AllTimely(db.ops) ==> AllTimely(after.ops))
    && db.nextOp <= after.nextOp
    && (forall i :: i in after.ops ==> i in db.ops || db.nextOp <= i)
    && (forall i :: i in after.ops && i in db.ops && db.ops[i].status.Leased? ==> after.ops[i] == db.ops[i])
  }

  lemma QueueKeptTransitive(a: Db, b: Db, c: Db)
    requires QueueKept(a, b) && QueueKept(b, c) && OpsOk(a.ops, a.nextOp)
    ensures QueueKept(a, c)
  {
    CoalescesTransitive(a.ops, b.ops, c.ops);
  }

  lemma SameQueueKept(db: Db, after: Db)
    requires after.ops == db.ops && after.nextOp == db.nextOp
    ensures QueueKept(db, after)
  {
  }

  // ---- Enqueueing ----

  lemma FewerOps(ops: Ops, fewer: Ops)
    requires fewer.Keys <= ops.Keys && forall i :: i in fewer ==> fewer[i] == ops[i]
    ensures Coalesces(ops, fewer)
  {
    forall f: FileId, t: OpType
      ensures RunnableIds(fewer, f, t) <= RunnableIds(ops, f, t)
    {
    }
  }

  lemma InsertCoalesces(ops: Ops, id: nat, op: Op)
    requires id !in ops && RunnableIds(ops, op.fid, op.opType) == {}
    ensures Coalesces(ops, ops[id := op])
  {
    var after := ops[id := op];
    forall f: FileId, t: OpType
      ensures RunnableIds(after, f, t) <= RunnableIds(ops, f, t) || |RunnableIds(after, f, t)| <= 1
    {
      if f == op.fid && t == op.opType {
        assert RunnableIds(after, f, t) <= {id};
        SubsetCardinality(RunnableIds(after, f, t), {id});
      } else {
        assert RunnableIds(after, f, t) <= RunnableIds(ops, f, t);
      }
    }
  }

  lemma ReplaceCoalesces(ops: Ops, id: nat, op: Op)
    requires id in ops && op.fid == ops[id].fid && op.opType == ops[id].opType
    requires Runnable(op.status) ==> Runnable(ops[id].status)
    ensures Coalesces(ops, ops[id := op])
  {
    var after := ops[id := op];
    forall f: FileId, t: OpType
      ensures RunnableIds(after, f, t) <= RunnableIds(ops, f, t)
    {
    }
  }

  lemma UpsertKeepsQueue(db: Db, fid: FileId, opType: OpType, payload: Payload, uploads: bool, all: bool, now: int)
    requires OpsOk(db.ops, db.nextOp)
    requires UpsertOperation(db, fid, opType, payload, uploads, all, now).Ok?
    ensures QueueKept(db, UpsertOperation(db, fid, opType, payload, uploads, all, now).value)
  {
    hide Coalesces, Timely;
    var ops := WithoutSuperseded(db.ops, fid, uploads, all);
    FewerOps(db.ops, ops);
    var ids := RunnableIds(ops, fid, opType);
    if ids != {} {
      ReplaceCoalesces(ops, Least(ids), Requeued(ops[Least(ids)], payload, now));
      RequeuedIsTimely(ops[Least(ids)], payload, now);
    } else {
      InsertCoalesces(ops, db.nextOp, NewOp(db.nextOp, fid, opType, payload, now));
      RequeuedIsTimely(NewOp(db.nextOp, fid, opType, payload, now), payload, now);
    }
    CoalescesTransitive(db.ops, ops, UpsertOperation(db, fid, opType, payload, uploads, all, now).value.ops);
  }

  lemma RequeuedIsTimely(op: Op, payload: Payload, now: int)
    ensures Timely(Requeued(op, payload, now))
    ensures forall fid, opType :: Timely(NewOp(op.id, fid, opType, payload, now))
  {
  }

  predicate Drives(opType: OpType) { opType.Upload? || opType.Mkdir? || opType.Delete? || opType.Download? }

  lemma UpsertKeepsTables(db: Db, fid: FileId, opType: OpType, payload: Payload, uploads: bool, all: bool, now: int)
    requires OpsOk(db.ops, db.nextOp) && References(db)
    requires UpsertOperation(db, fid, opType, payload, uploads, all, now).Ok?
    ensures var after := UpsertOperation(db, fid, opType, payload, uploads, all, now).value;
            && after.files == db.files && after.nextFile == db.nextFile && after.conflicts == db.conflicts
            && OpsOk(after.ops, after.nextOp) && References(after)
  {
    var after := UpsertOperation(db, fid, opType, payload, uploads, all, now).value;
    var ops := WithoutSuperseded(db.ops, fid, uploads, all);
    assert OpsOk(ops, db.nextOp) && forall i :: i in ops ==> ops[i].fid in db.files;
    var ids := RunnableIds(ops, fid, opType);
    if ids != {} {
      var id := Least(ids);
      assert id in ops;
      forall i | i in after.ops
        ensures i < after.nextOp && after.ops[i].id == i && !after.ops[i].status.Conflict? && after.ops[i].fid in db.files
      {
        assert i == id || after.ops[i] == ops[i];
      }
    } else {
      assert after.ops == ops[db.nextOp := NewOp(db.nextOp, fid, opType, payload, now)];
    }
  }

  lemma UpsertKeepsDrivers(db: Db, fid: FileId, opType: OpType, payload: Payload, uploads: bool, all: bool, now: int)
    requires OpsOk(db.ops, db.nextOp)
    requires (uploads || all) ==> Drives(opType)
    requires UpsertOperation(db, fid, opType, payload, uploads, all, now).Ok?
    ensures var after := UpsertOperation(db, fid, opType, payload, uploads, all, now).value;
            && (Drives(opType) ==> HasDriver(after.ops, fid))
            && forall f :: HasDriver(db.ops, f) ==> HasDriver(after.ops, f)
  {
    var after := UpsertOperation(db, fid, opType, payload, uploads, all, now).value;
    var ops := WithoutSuperseded(db.ops, fid, uploads, all);
    var ids := RunnableIds(ops, fid, opType);
    var id := if ids != {} then Least(ids) else db.nextOp;
    assert Drives(opType) ==> Driver(after.ops[id], fid);
    forall f | HasDriver(db.ops, f)
      ensures HasDriver(after.ops, f)
    {
      var i :| i in db.ops && Driver(db.ops[i], f);
      if f != fid || !(uploads || all) {
        assert i in ops;
        assert Driver(after.ops[i], f);
      }
    }
  }

  /** An upsert into valid tables fails only for a file that is gone. */
  lemma UpsertSucceedsIff(db: Db, fid: FileId, opType: OpType, payload: Payload, uploads: bool, all: bool, now: int)
    requires References(db)
    ensures UpsertOperation(db, fid, opType, payload, uploads, all, now).Ok? <==> fid in db.files
  {
    var ids := RunnableIds(WithoutSuperseded(db.ops, fid, uploads, all), fid, opType);
    if ids != {} {
      assert Least(ids) in db.ops;
    }
  }
}
