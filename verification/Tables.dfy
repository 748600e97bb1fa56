/** The three tables of the metadata database as values: `files`, `operations_queue` and
    `conflicts`, with the constraints the schema declares (primary keys, UNIQUE(path),
    AUTOINCREMENT, ON DELETE CASCADE), and the table helpers of `src/sync.rs` as functions from
    one database value to the next. */
module Tables {
  import opened Wrappers
  import opened RemotePaths
  import ConflictNames
  import SqlLike

  type FileId = nat

  datatype Kind = File | Directory

  datatype SyncState =
    Synced | QueuedUpload | Uploading | Downloading | Conflict | QueuedDelete | Error | Placeholder

  datatype ContentState = Placeholder | Hydrated

  datatype OpType =
    Upload | Delete | Mkdir | Move | Rename | RefreshTree | RefreshDir | Download | ReconcileRemoteDelete

  datatype OpStatus = Pending | Leased | Done | RetryableError | PermanentError | Conflict

  /** The file that holds a row's local bytes: one per file id. */
  datatype CachePath = CacheFile(owner: FileId)

  datatype Row = Row(
    fid: FileId,
    path: string,
    parentPath: Option<string>,
    name: string,
    kind: Kind,
    state: SyncState,
    content: ContentState,
    remoteVersion: Option<string>,
    localVersion: nat,
    size: nat,
    cachePath: Option<CachePath>,
    remoteDeleted: bool)

  datatype Payload = PathPayload(path: string) | RenamePayload(oldPath: string, newPath: string)

  datatype Op = Op(
    id: nat,
    fid: FileId,
    opType: OpType,
    status: OpStatus,
    payload: Payload,
    retryCount: nat,
    nextRetryAt: Option<int>,
    leaseExpiresAt: Option<int>,
    updatedAt: int)

  datatype ConflictRecord = ConflictRecord(
    fid: FileId,
    originalPath: string,
    conflictPath: string,
    baseVersion: Option<string>,
    currentVersion: Option<string>)

  type Files = map<FileId, Row>
  type Ops = map<nat, Op>

  /** `nextOp` and `nextFile` are the next queue id and the next value of `new_id`. */
  datatype Db = Db(files: Files, ops: Ops, conflicts: set<ConflictRecord>, nextOp: nat, nextFile: FileId)

  datatype RemoteEntry = RemoteEntry(path: string, name: string, kind: Kind, size: nat, version: Option<string>)

  datatype SqlError = UniqueViolation | ForeignKeyViolation | NameOverflow

  function CachePathFor(fid: FileId): CachePath { CacheFile(fid) }

  // ---- Row queries ----

  predicate Unsynced(state: SyncState) { state.QueuedUpload? || state.Uploading? || state.Error? }

  /** The states whose columns a remote refresh leaves alone. */
  predicate Protected(state: SyncState) { Unsynced(state) || state.QueuedDelete? || state.Conflict? }

  predicate Visible(row: Row) { !row.state.QueuedDelete? && !row.remoteDeleted }

  predicate Occupied(files: Files, path: string) {
    exists f :: f in files && files[f].path == path
  }

  ghost function RowAt(files: Files, path: string): (f: Option<FileId>)
    ensures f.Some? <==> Occupied(files, path)
    ensures f.Some? ==> f.value in files && files[f.value].path == path
  {
    if Occupied(files, path) then
      var f :| f in files && files[f].path == path;
      Some(f)
    else None
  }

  function ListChildren(files: Files, parent: string): set<FileId> {
    set f | f in files && files[f].parentPath == Some(parent) && Visible(files[f])
  }

  // ---- Queue helpers ----

  predicate Runnable(status: OpStatus) { status.Pending? || status.RetryableError? }

  predicate NonTerminal(status: OpStatus) { Runnable(status) || status.Leased? }

  function RunnableIds(ops: Ops, fid: FileId, opType: OpType): set<nat> {
    set i | i in ops && ops[i].fid == fid && ops[i].opType == opType && Runnable(ops[i].status)
  }

  predicate IsLeast(s: set<nat>, m: nat) { m in s && forall k :: k in s ==> m <= k }

  lemma {:induction false} LeastExists(s: set<nat>)
    requires s != {}
    ensures exists m :: IsLeast(s, m)
  {
    var x :| x in s;
    if s != {x} {
      var rest := s - {x};
      LeastExists(rest);
      var m :| IsLeast(rest, m);
      var least := if x <= m then x else m;
      forall k | k in s ensures least <= k {
        if k != x { assert k in rest; }
      }
      assert IsLeast(s, least);
    } else {
      assert IsLeast(s, x);
    }
  }

  ghost function Least(s: set<nat>): (m: nat)
    requires s != {}
    ensures m in s && forall k :: k in s ==> m <= k
  {
    LeastExists(s);
    var m :| IsLeast(s, m);
    m
  }

  function NewOp(id: nat, fid: FileId, opType: OpType, payload: Payload, now: int): Op {
    Op(id, fid, opType, Pending, payload, 0, None, None, now)
  }

  function Requeued(op: Op, payload: Payload, now: int): Op {
    op.(payload := payload, status := Pending, nextRetryAt := None, updatedAt := now)
  }

  /** The operations an upsert with the given flags removes first. */
  predicate Superseded(op: Op, fid: FileId, replaceUploads: bool, replaceAll: bool) {
    op.fid == fid && NonTerminal(op.status) && (replaceAll || (replaceUploads && op.opType.Upload?))
  }

  function WithoutSuperseded(ops: Ops, fid: FileId, replaceUploads: bool, replaceAll: bool): Ops {
    map i | i in ops && !Superseded(ops[i], fid, replaceUploads, replaceAll) :: ops[i]
  }

  /** Reuses the oldest runnable operation of that file and type, or inserts a new one. The insert
      fails when the file row is gone; such a file has no operations left to supersede. */
  ghost function UpsertOperation(db: Db, fid: FileId, opType: OpType, payload: Payload,
                                 replaceUploads: bool, replaceAll: bool, now: int): Result<Db, SqlError>
  {
    var ops := WithoutSuperseded(db.ops, fid, replaceUploads, replaceAll);
    var ids := RunnableIds(ops, fid, opType);
    if ids != {} then
      Ok(db.(ops := ops[Least(ids) := Requeued(ops[Least(ids)], payload, now)]))
    else if fid in db.files then
      Ok(db.(ops := ops[db.nextOp := NewOp(db.nextOp, fid, opType, payload, now)], nextOp := db.nextOp + 1))
    else
      Err(ForeignKeyViolation)
  }

  ghost function Enqueue(db: Db, fid: FileId, opType: OpType, payload: Payload, now: int): Result<Db, SqlError> {
    UpsertOperation(db, fid, opType, payload, false, false, now)
  }

  function WithoutUnfinished(ops: Ops, fid: FileId): Ops {
    map i | i in ops && (ops[i].fid != fid || ops[i].status.Done?) :: ops[i]
  }

  // ---- Row changes ----

  /** Deletes a row; its operations and conflict records go with it. */
  function DeleteRow(db: Db, fid: FileId): Db {
    db.(files := db.files - {fid},
        ops := map i | i in db.ops && db.ops[i].fid != fid :: db.ops[i],
        conflicts := set c | c in db.conflicts && c.fid != fid)
  }

  /** `UPDATE files SET sync_state = ... WHERE file_id = ...`: no effect when the row is gone. */
  function SetState(db: Db, fid: FileId, state: SyncState): Db {
    if fid in db.files then db.(files := db.files[fid := db.files[fid].(state := state)]) else db
  }

  function RemoteInsert(fid: FileId, remote: RemoteEntry, state: SyncState): Row {
    Row(fid, remote.path, ParentPathOf(remote.path), remote.name, remote.kind, state, ContentState.Placeholder,
        remote.version, 0, remote.size, None, false)
  }

  function RemoteUpdate(row: Row, remote: RemoteEntry, state: SyncState): Row {
    var renewed := row.(parentPath := ParentPathOf(remote.path), name := remote.name, kind := remote.kind,
                        remoteVersion := remote.version, remoteDeleted := false);
    if Protected(row.state) then renewed
    else
      renewed.(state := state,
               content := if row.cachePath.Some? then Hydrated else ContentState.Placeholder,
               size := remote.size)
  }

  /** Inserts a row for a remote object, or refreshes the row that already has its path. */
  ghost function EnsureRemoteRow(db: Db, remote: RemoteEntry, state: SyncState): Db {
    match RowAt(db.files, remote.path)
    case Some(f) => db.(files := db.files[f := RemoteUpdate(db.files[f], remote, state)])
    case None =>
      db.(files := db.files[db.nextFile := RemoteInsert(db.nextFile, remote, state)], nextFile := db.nextFile + 1)
  }

  // ---- Renaming a subtree ----

  predicate Selected(from: string, path: string) { path == from || SqlLike.LikeBelow(from, path) }

  /** `strip_prefix(from).unwrap_or("")` pasted behind `to`. */
  function Target(from: string, to: string, path: string): string {
    if from <= path then to + path[|from|..] else to
  }

  /** Where the renamed row itself goes: path, parent and name. */
  datatype Destination = Destination(path: string, parent: string, name: string)

  function Relocated(row: Row, from: string, to: Destination): Row {
    var path := Target(from, to.path, row.path);
    if path == to.path then row.(path := path, parentPath := Some(to.parent), name := to.name)
    else row.(path := path, parentPath := ParentPathOf(path), name := NameOf(path))
  }

  function SelectedIds(files: Files, from: string): set<FileId> {
    set f | f in files && Selected(from, files[f].path)
  }

  predicate Distinct<T(==)>(s: seq<T>) {
    forall i, j :: 0 <= i < j < |s| ==> s[i] != s[j]
  }

  ghost predicate Enumerates<T(!new)>(order: seq<T>, s: set<T>) {
    Distinct(order) && forall x :: x in order <==> x in s
  }

  /** The order in which a hash map or an unordered query yields its elements. */
  method Listed<T(==, !new)>(s: set<T>) returns (order: seq<T>)
    ensures Enumerates(order, s)
  {
    order := [];
    var rest := s;
    while rest != {}
      invariant rest <= s && Distinct(order)
      invariant forall x :: x in order <==> x in s && x !in rest
    {
      var x :| x in rest;
      order, rest := order + [x], rest - {x};
    }
  }

  /** A row order the query may return: the selected rows once each, shorter paths first. */
  ghost predicate IsSelectOrder(files: Files, from: string, order: seq<FileId>) {
    && Distinct(order)
    && (forall i :: 0 <= i < |order| ==> order[i] in SelectedIds(files, from))
    && (forall f :: f in SelectedIds(files, from) ==> f in order)
    && (forall i, j :: 0 <= i < j < |order| ==> |files[order[i]].path| <= |files[order[j]].path|)
  }

  datatype Renamed = Renamed(files: Files, ok: bool)

  predicate PathTaken(files: Files, fid: FileId, path: string) {
    exists g :: g in files && g != fid && files[g].path == path
  }

  /** One UPDATE a row; the first one that would break UNIQUE(path) fails and ends the loop,
      leaving the rows before it renamed. */
  function RenameRows(files: Files, order: seq<FileId>, from: string, to: Destination): (r: Renamed)
    requires forall f :: f in order ==> f in files
    ensures r.files.Keys == files.Keys
  {
    if order == [] then Renamed(files, true)
    else
      var row := Relocated(files[order[0]], from, to);
      if PathTaken(files, order[0], row.path) then Renamed(files, false)
      else RenameRows(files[order[0] := row], order[1..], from, to)
  }

  predicate Precedes(files: Files, f: FileId, g: FileId)
    requires f in files && g in files
  {
    |files[f].path| < |files[g].path| || (|files[f].path| == |files[g].path| && f <= g)
  }

  ghost function First(files: Files, s: set<FileId>): (m: FileId)
    requires s != {} && s <= files.Keys
    ensures m in s && forall k :: k in s ==> Precedes(files, m, k)
  {
    var lengths: set<nat> := set f | f in s :: |files[f].path|;
    assert forall f :: f in s ==> |files[f].path| in lengths;
    var x :| x in s;
    assert lengths != {};
    var n := Least(lengths);
    var shortest: set<nat> := set f | f in s && |files[f].path| == n;
    var y :| y in s && |files[y].path| == n;
    assert y in shortest;
    var m := Least(shortest);
    assert forall k :: k in s ==> n <= |files[k].path| && (|files[k].path| == n ==> k in shortest);
    m
  }

  /** Ties between equal path lengths go to the older row. */
  ghost function Ordered(files: Files, s: set<FileId>): (order: seq<FileId>)
    requires s <= files.Keys
    ensures forall f :: f in order <==> f in s
    ensures Distinct(order)
    ensures forall i, j :: 0 <= i < j < |order| ==> Precedes(files, order[i], order[j])
  {
    if s == {} then []
    else
      var m := First(files, s);
      [m] + Ordered(files, s - {m})
  }

  ghost function RenameSubtree(files: Files, from: string, to: Destination): Renamed {
    RenameRows(files, Ordered(files, SelectedIds(files, from)), from, to)
  }

  function DestinationAt(path: string): Destination {
    Destination(path, match ParentPathOf(path) case Some(p) => p case None => ROOT, NameOf(path))
  }

  // ---- Conflict copies ----

  function UsedNames(files: Files, parent: string): set<string> {
    set f | f in ListChildren(files, parent) :: files[f].name
  }

  /** A free name beside the original, as far as visible siblings show. */
  function NextConflictPath(files: Files, path: string): Option<string> {
    var parent := match ParentPathOf(path) case Some(p) => p case None => ROOT;
    match ConflictNames.NextConflictName(NameOf(path), UsedNames(files, parent))
    case Some(name) => Some(Join(parent, name))
    case None => None
  }

  function MarkedAsCopy(row: Row): Row {
    row.(state := QueuedUpload, remoteVersion := None, remoteDeleted := false)
  }

  /** Moves the local version to a conflict name, queues its upload, drops its other unfinished
      work, records the conflict and gives the original path to the remote object if there is one. */
  ghost function ApplyConflict(db: Db, entry: Row, current: Option<string>, remote: Option<RemoteEntry>, now: int)
    : Result<Db, SqlError>
  {
    match NextConflictPath(db.files, entry.path)
    case None => Err(NameOverflow)
    case Some(copyPath) =>
      var renamed := RenameSubtree(db.files, entry.path, DestinationAt(copyPath));
      if !renamed.ok then Err(UniqueViolation)
      else if entry.fid !in db.files then Err(ForeignKeyViolation)
      else
        var db1 := db.(files := renamed.files[entry.fid := MarkedAsCopy(renamed.files[entry.fid])],
                       ops := WithoutUnfinished(db.ops, entry.fid));
        var record := ConflictRecord(entry.fid, entry.path, copyPath, entry.remoteVersion, current);
        match Enqueue(db1, entry.fid, Upload, PathPayload(copyPath), now)
        case Err(e) => Err(e)
        case Ok(db2) =>
          var db3 := db2.(conflicts := db2.conflicts + {record});
          match remote
          case Some(r) => Ok(EnsureRemoteRow(db3, r, Synced))
          case None => Ok(db3)
  }

  /** Whether the row is a recorded conflict copy that still has its conflict path. */
  predicate IsConflictCopy(db: Db, fid: FileId, path: string) {
    exists c :: c in db.conflicts && c.fid == fid && c.conflictPath == path
  }
}
