/** What a conflict does to the tables: the local version becomes a copy beside the original. It keeps both
    versions under an exact condition, and there are tables on which it fails. */
module ConflictCopies {
  import opened Wrappers
  import opened RemotePaths
  import opened Tables
  import opened TableInvariants
  import opened SyncMachine
  import HelperSoundness
  import QueueBounds
  import ConflictNames
  import SubtreeRename
  import SqlLike

  // ---- What a conflict leaves behind ----

  /** A row after a conflict: its path substituted if it lies in the subtree, and waiting for upload as a
      new object if it is the conflicting row itself. */
  function KeptRow(row: Row, isCopy: bool, path: string, copyPath: string): Row {
    var moved := if InSubtree(path, row.path) then SubtreeRename.Rerooted(row, path, copyPath) else row;
    if isCopy then MarkedAsCopy(moved) else moved
  }

  predicate OnlyUnfinished(db: Db, f: FileId, i: nat, copyPath: string) {
    && i in db.ops && db.ops[i].fid == f && db.ops[i].status.Pending? && db.ops[i].opType.Upload?
    && db.ops[i].payload == PathPayload(copyPath)
    && forall j :: j in db.ops && db.ops[j].fid == f && !db.ops[j].status.Done? ==> j == i
  }

  /** What a good conflict leaves: the local version beside the original, with everything below it
      carried along and every other row as it was; the original path with a new row for the remote
      object or with none; and for the copy one unfinished operation, a pending upload. */
  ghost predicate BothVersionsKept(db: Db, after: Db, f: FileId, copyPath: string, remote: Option<RemoteEntry>)
    requires f in db.files
  {
    var path := db.files[f].path;
    && copyPath != path && !Occupied(db.files, copyPath)
    && (forall g :: g in db.files ==> g in after.files && after.files[g] == KeptRow(db.files[g], g == f, path, copyPath))
    && (remote.None? ==> after.files.Keys == db.files.Keys && !Occupied(after.files, path))
    && (remote.Some? ==>
          && after.files.Keys == db.files.Keys + {db.nextFile}
          && after.files[db.nextFile] == RemoteInsert(db.nextFile, remote.value, Synced))
    && (exists i :: OnlyUnfinished(after, f, i, copyPath))
    && IsConflictCopy(after, f, copyPath)
  }

  function ConflictName(files: Files, path: string): string
    requires NextConflictPath(files, path).Some?
  {
    var parent := match ParentPathOf(path) case Some(p) => p case None => ROOT;
    ConflictNames.NextConflictName(NameOf(path), UsedNames(files, parent)).value
  }

  /** The conflict path lies in the same directory, under a name no visible sibling has. */
  lemma CopyIsBeside(files: Files, path: string, parent: string)
    requires ROOT <= path && path != ROOT && ParentPathOf(path) == Some(parent) && NextConflictPath(files, path).Some?
    ensures var copyPath := NextConflictPath(files, path).value;
            && copyPath != path && ParentPathOf(copyPath) == Some(parent)
            && forall g :: g in ListChildren(files, parent) ==> files[g].name != NameOf(copyPath)
  {
    hide ConflictNames.NextConflictName, ConflictNames.SplitConflictName, ConflictNames.Candidate, ConflictNames.FirstIndex,
         ListChildren, UsedNames, LastSlash, ParentPathOf, NameOf, Join;
    ParentStaysRooted(path);
    var used, name := UsedNames(files, parent), ConflictName(files, path);
    NameHasNoSlash(path);
    ConflictNames.NextNameHasNoSlash(NameOf(path), used);
    NextNameIsNew(NameOf(path), used);
    JoinThenSplit(parent, name);
    assert |parent| >= |ROOT|;
    assert NextConflictPath(files, path).value == Join(parent, name);
    ListedNamesAreUsed(files, parent);
  }

  lemma NameHasNoSlash(path: string)
    requires path != ROOT
    ensures SlashFree(NameOf(path))
  {
  }

  lemma ListedNamesAreUsed(files: Files, parent: string)
    ensures forall g :: g in ListChildren(files, parent) ==> files[g].name in UsedNames(files, parent)
  {
  }

  lemma NextNameIsNew(name: string, used: set<string>)
    requires ConflictNames.NextConflictName(name, used).Some?
    ensures var r := ConflictNames.NextConflictName(name, used).value; r !in used && r != name
  {
    hide ConflictNames.NextConflictName, ConflictNames.SplitConflictName, ConflictNames.Candidate, ConflictNames.FirstIndex;
    ConflictNames.NextNameIsLeastFree(name, used);
  }

  // ---- Committing a conflict ----

  lemma SiblingsAreApart(path: string, copyPath: string, parent: string)
    requires ROOT <= path && path != ROOT && ROOT <= copyPath && copyPath != ROOT && copyPath != path
    requires ParentPathOf(path) == Some(parent) && ParentPathOf(copyPath) == Some(parent)
    ensures !InSubtree(path, copyPath) && !InSubtree(copyPath, path)
  {
    hide ParentPathOf;
    ParentStaysRooted(path);
    ParentStaysRooted(copyPath);
    if path + "/" <= copyPath { ParentInSubtree(path, copyPath); }
    if copyPath + "/" <= path { ParentInSubtree(copyPath, path); }
  }

  /** The facts about a chosen name that the rest needs. */
  lemma ChosenPath(files: Files, path: string)
    requires ROOT <= path && path != ROOT && NextConflictPath(files, path).Some?
    ensures var c := NextConflictPath(files, path).value;
            && c != path && SubtreeRename.Coherent(DestinationAt(c)) && DestinationAt(c).path == c
            && !InSubtree(path, c) && !InSubtree(c, path)
  {
    hide NextConflictPath, ListChildren, ParentPathOf, NameOf, LastSlash, InSubtree;
    ParentStaysRooted(path);
    var parent := ParentPathOf(path).value;
    CopyIsBeside(files, path, parent);
    var c := NextConflictPath(files, path).value;
    HelperSoundness.ConflictPathIsRooted(files, path);
    HelperSoundness.DestinationIsCoherent(c);
    SiblingsAreApart(path, c, parent);
  }

  lemma NoRunnableAfterCancel(ops: Ops, f: FileId)
    ensures RunnableIds(WithoutUnfinished(ops, f), f, Upload) == {}
  {
  }

  /** The queue part: the copy's upload is the file's only unfinished operation. */
  lemma OnlyTheUpload(db: Db, files: Files, f: FileId, copyPath: string, now: int)
    requires f in files && OpsOk(db.ops, db.nextOp)
    ensures var db1 := db.(files := files, ops := WithoutUnfinished(db.ops, f));
            var r := Enqueue(db1, f, Upload, PathPayload(copyPath), now);
            && r == Ok(QueueBounds.WithFresh(db1, f, Upload, PathPayload(copyPath), now))
            && OnlyUnfinished(r.value, f, db.nextOp, copyPath)
  {
    var db1 := db.(files := files, ops := WithoutUnfinished(db.ops, f));
    NoRunnableAfterCancel(db.ops, f);
    QueueBounds.FirstEnqueue(db1, f, Upload, PathPayload(copyPath), now);
  }

  /** The tables before the remote object gets the original path. */
  ghost function CopyMade(db: Db, files: Files, f: FileId, copyPath: string, record: ConflictRecord, now: int): Db
    requires f in files
  {
    var db1 := db.(files := files[f := MarkedAsCopy(files[f])], ops := WithoutUnfinished(db.ops, f));
    QueueBounds.WithFresh(db1, f, Upload, PathPayload(copyPath), now).(conflicts := db.conflicts + {record})
  }

  /** A conflict commits exactly when its rename does, and what it then leaves, statement by statement. */
  lemma ConflictSteps(db: Db, f: FileId, entry: Row, current: Option<string>, remote: Option<RemoteEntry>, now: int)
    requires Valid(db) && f in db.files && entry.fid == f && NextConflictPath(db.files, entry.path).Some?
    ensures var copyPath := NextConflictPath(db.files, entry.path).value;
            var renamed := RenameSubtree(db.files, entry.path, DestinationAt(copyPath));
            var record := ConflictRecord(f, entry.path, copyPath, entry.remoteVersion, current);
            var r := ApplyConflict(db, entry, current, remote, now);
            && (r.Ok? <==> renamed.ok)
            && f in renamed.files && db.nextFile !in db.files && renamed.files.Keys == db.files.Keys
            && (r.Ok? ==>
                  var made := CopyMade(db, renamed.files, f, copyPath, record, now);
                  && OnlyUnfinished(made, f, db.nextOp, copyPath)
                  && r.value == if remote.Some? then EnsureRemoteRow(made, remote.value, Synced) else made)
  {
    hide Valid, NextConflictPath, RenameSubtree, UpsertOperation, WithoutUnfinished, QueueBounds.WithFresh, OpsOk, DestinationAt,
         EnsureRemoteRow;
    ValidHasOkOps(db);
    FreshIsUnused(db);
    var copyPath := NextConflictPath(db.files, entry.path).value;
    var renamed := RenameSubtree(db.files, entry.path, DestinationAt(copyPath));
    RenameKeepsKeys(db.files, entry.path, DestinationAt(copyPath));
    OnlyTheUpload(db, renamed.files[f := MarkedAsCopy(renamed.files[f])], f, copyPath, now);
    WithFreshTables(db.(files := renamed.files[f := MarkedAsCopy(renamed.files[f])], ops := WithoutUnfinished(db.ops, f)), f,
                    PathPayload(copyPath), now);
  }

  lemma RenameKeepsKeys(files: Files, from: string, to: Destination)
    ensures RenameSubtree(files, from, to).files.Keys == files.Keys
  {
  }

  lemma WithFreshTables(db: Db, f: FileId, payload: Payload, now: int)
    ensures var after := QueueBounds.WithFresh(db, f, Upload, payload, now);
            after.files == db.files && after.conflicts == db.conflicts && after.nextFile == db.nextFile
  {
  }

  lemma RowInValid(db: Db, f: FileId)
    requires Valid(db) && f in db.files
    ensures ROOT <= db.files[f].path && db.files[f].fid == f
  {
    assert RowOk(db.files[f]);
  }

  lemma FreshIsUnused(db: Db)
    requires Valid(db)
    ensures db.nextFile !in db.files && SubtreeRename.UniquePaths(db.files)
  {
    hide RowOk;
  }

  /** A renamed table in which the subtree was substituted no longer holds the original path. */
  lemma OriginalIsVacated(files: Files, after: Files, f: FileId, path: string, copyPath: string)
    requires SubtreeRename.UniquePaths(files) && f in files && files[f].path == path
    requires SubtreeRename.ExactlySubstituted(files, after, path, copyPath) && !InSubtree(copyPath, path)
    ensures !Occupied(after, path)
  {
    hide ParentPathOf, NameOf, InSubtree;
    InSubtreeItself(path);
    forall g | g in after
      ensures after[g].path != path
    {
      if InSubtree(path, files[g].path) { SuffixLandsBelow(path, copyPath, files[g].path); }
    }
  }

  lemma InSubtreeItself(path: string)
    ensures InSubtree(path, path)
  {
  }

  lemma SubtreeHasPrefix(path: string)
    ensures forall q :: InSubtree(path, q) ==> path <= q
  {
  }

  lemma SuffixLandsBelow(from: string, to: string, p: string)
    requires InSubtree(from, p)
    ensures from <= p && InSubtree(to, to + p[|from|..])
  {
    SubtreeRename.SuffixInSubtree(to, p[|from|..]);
  }

  /** When the subtree was substituted exactly, both versions are kept. */
  lemma SubstitutedIsKept(db: Db, renamed: Files, f: FileId, copyPath: string, record: ConflictRecord, remote: Option<RemoteEntry>, now: int)
    requires f in db.files && db.nextFile !in db.files && SubtreeRename.UniquePaths(db.files) && f in renamed
    requires record.fid == f && record.conflictPath == copyPath
    requires var path := db.files[f].path;
             && SubtreeRename.ExactlySubstituted(db.files, renamed, path, copyPath)
             && copyPath != path && !Occupied(db.files, copyPath) && !InSubtree(copyPath, path)
             && (remote.Some? ==> remote.value.path == path)
    requires OnlyUnfinished(CopyMade(db, renamed, f, copyPath, record, now), f, db.nextOp, copyPath)
    ensures var made := CopyMade(db, renamed, f, copyPath, record, now);
            BothVersionsKept(db, if remote.Some? then EnsureRemoteRow(made, remote.value, Synced) else made, f, copyPath, remote)
  {
    hide OnlyUnfinished, WithoutUnfinished, Occupied, KeptRow, SubtreeRename.ExactlySubstituted, RemoteInsert, RemoteUpdate, InSubtree,
         SubtreeRename.UniquePaths, MarkedAsCopy;
    var path := db.files[f].path;
    var made := CopyMade(db, renamed, f, copyPath, record, now);
    OriginalIsVacated(db.files, renamed, f, path, copyPath);
    MarkingVacates(renamed, f, path);
    SubstitutedRows(db.files, renamed, f, path, copyPath);
    assert made.files == renamed[f := MarkedAsCopy(renamed[f])] && made.nextFile == db.nextFile;
    assert record in made.conflicts;
    var after := if remote.Some? then EnsureRemoteRow(made, remote.value, Synced) else made;
    SameQueueOnly(made, after, f, db.nextOp, copyPath);
  }

  lemma SubstitutedRows(files: Files, renamed: Files, f: FileId, path: string, copyPath: string)
    requires f in files && SubtreeRename.ExactlySubstituted(files, renamed, path, copyPath)
    ensures f in renamed && renamed.Keys == files.Keys
    ensures var marked := renamed[f := MarkedAsCopy(renamed[f])];
            forall g :: g in files ==> g in marked && marked[g] == KeptRow(files[g], g == f, path, copyPath)
  {
    hide InSubtree, MarkedAsCopy, ParentPathOf, NameOf;
    SubtreeHasPrefix(path);
  }

  lemma MarkingVacates(files: Files, f: FileId, path: string)
    requires f in files && !Occupied(files, path)
    ensures !Occupied(files[f := MarkedAsCopy(files[f])], path)
  {
    assert forall g :: g in files ==> files[g].path != path;
  }

  lemma SameQueueOnly(db: Db, after: Db, f: FileId, i: nat, copyPath: string)
    requires OnlyUnfinished(db, f, i, copyPath) && after.ops == db.ops
    ensures OnlyUnfinished(after, f, i, copyPath)
  {
  }

  /** When both versions are kept, the rename substituted the subtree exactly. */
  lemma KeptIsSubstituted(db: Db, renamed: Files, f: FileId, copyPath: string, record: ConflictRecord, remote: Option<RemoteEntry>, now: int)
    requires f in db.files && db.nextFile !in db.files && f in renamed && renamed.Keys == db.files.Keys
    requires var path := db.files[f].path;
             && SubtreeRename.Coherent(DestinationAt(copyPath)) && DestinationAt(copyPath).path == copyPath
             && renamed[f] == Relocated(db.files[f], path, DestinationAt(copyPath))
    requires var made := CopyMade(db, renamed, f, copyPath, record, now);
             BothVersionsKept(db, if remote.Some? then EnsureRemoteRow(made, remote.value, Synced) else made, f, copyPath, remote)
    ensures SubtreeRename.ExactlySubstituted(db.files, renamed, db.files[f].path, copyPath)
  {
    hide ParentPathOf, NameOf, InSubtree, OnlyUnfinished, WithoutUnfinished, Occupied, IsConflictCopy, RemoteUpdate;
    var path := db.files[f].path;
    var made := CopyMade(db, renamed, f, copyPath, record, now);
    var after := if remote.Some? then EnsureRemoteRow(made, remote.value, Synced) else made;
    InSubtreeItself(path);
    SubtreeHasPrefix(path);
    RelocatedSelf(db.files[f], path, DestinationAt(copyPath));
    forall g | g in db.files
      ensures renamed[g] == if InSubtree(path, db.files[g].path) then SubtreeRename.Rerooted(db.files[g], path, copyPath) else db.files[g]
    {
      if g != f {
        assert made.files[g] == renamed[g];
        assert after.files[g] == made.files[g];
      }
    }
  }

  lemma RelocatedSelf(row: Row, from: string, to: Destination)
    requires row.path == from && SubtreeRename.Coherent(to)
    ensures Relocated(row, from, to) == SubtreeRename.Rerooted(row, from, to.path)
  {
    assert to.path + from[|from|..] == to.path;
  }

  /** A conflict keeps both versions exactly when the name it chooses is free of hidden rows too, the
      query for its subtree selects nothing else, and no path below the new name is taken. */
  lemma ConflictKeepsBothIff(db: Db, f: FileId, entry: Row, current: Option<string>, remote: Option<RemoteEntry>, now: int)
    requires Valid(db) && f in db.files && entry.fid == f && entry.path == db.files[f].path && entry.path != ROOT
    requires remote.Some? ==> remote.value.path == entry.path
    ensures var c, r := NextConflictPath(db.files, entry.path), ApplyConflict(db, entry, current, remote, now);
            (r.Ok? && c.Some? && BothVersionsKept(db, r.value, f, c.value, remote))
            <==> (c.Some? && !Occupied(db.files, c.value)
                  && SubtreeRename.LikeExact(db.files, entry.path) && SubtreeRename.TargetsFree(db.files, entry.path, c.value))
  {
    hide Valid, ApplyConflict, NextConflictPath, BothVersionsKept, RenameSubtree, DestinationAt, CopyMade, SubtreeRename.LikeExact,
         SubtreeRename.TargetsFree, SubtreeRename.ExactlySubstituted, EnsureRemoteRow, Occupied, InSubtree, OnlyUnfinished,
         SubtreeRename.UniquePaths, Relocated, SubtreeRename.Coherent;
    var c := NextConflictPath(db.files, entry.path);
    if c.Some? {
      RowInValid(db, f);
      ChosenPath(db.files, entry.path);
      ConflictSteps(db, f, entry, current, remote, now);
      FreshIsUnused(db);
      SubstitutionIff(db.files, f, c.value);
      var renamed := RenameSubtree(db.files, entry.path, DestinationAt(c.value));
      var record := ConflictRecord(f, entry.path, c.value, entry.remoteVersion, current);
      if renamed.ok && !Occupied(db.files, c.value) && SubtreeRename.ExactlySubstituted(db.files, renamed.files, entry.path, c.value) {
        SubstitutedIsKept(db, renamed.files, f, c.value, record, remote, now);
      }
      var r := ApplyConflict(db, entry, current, remote, now);
      if r.Ok? && BothVersionsKept(db, r.value, f, c.value, remote) {
        KeptIsFree(db, r.value, f, c.value, remote);
        KeptIsSubstituted(db, renamed.files, f, c.value, record, remote, now);
      }
    }
  }

  lemma KeptIsFree(db: Db, after: Db, f: FileId, copyPath: string, remote: Option<RemoteEntry>)
    requires f in db.files && BothVersionsKept(db, after, f, copyPath, remote)
    ensures !Occupied(db.files, copyPath)
  {
  }

  lemma SubstitutionIff(files: Files, f: FileId, copyPath: string)
    requires SubtreeRename.UniquePaths(files) && f in files && copyPath != files[f].path
    requires SubtreeRename.Coherent(DestinationAt(copyPath)) && DestinationAt(copyPath).path == copyPath && !InSubtree(files[f].path, copyPath)
    ensures var path := files[f].path;
            var renamed := RenameSubtree(files, path, DestinationAt(copyPath));
            && renamed.files.Keys == files.Keys
            && (renamed.ok ==> renamed.files[f] == Relocated(files[f], path, DestinationAt(copyPath)))
            && (!Occupied(files, copyPath) ==>
                  (renamed.ok && SubtreeRename.ExactlySubstituted(files, renamed.files, path, copyPath)
                   <==> SubtreeRename.LikeExact(files, path) && SubtreeRename.TargetsFree(files, path, copyPath)))
  {
    hide SubtreeRename.LikeExact, SubtreeRename.TargetsFree, SubtreeRename.ExactlySubstituted, Occupied, InSubtree, RenameRows,
         SubtreeRename.UniquePaths, DestinationAt, SubtreeRename.Coherent, IsSelectOrder, Relocated;
    var path := files[f].path;
    var order := Ordered(files, SelectedIds(files, path));
    SubtreeRename.OrderedIsSelectOrder(files, path);
    SubtreeRename.RenameRowsEffect(files, order, path, DestinationAt(copyPath));
    assert f in order;
    if !Occupied(files, copyPath) { SubtreeRename.RenameIsSubstitutionIff(files, order, path, DestinationAt(copyPath)); }
  }

  // ---- A row with nothing below it ----

  /** Nothing but the row itself is selected by a rename of its path. */
  ghost predicate Leaf(files: Files, f: FileId)
    requires f in files
  {
    SelectedIds(files, files[f].path) == {f}
  }

  /** No other row lies below the row's path, as for every file of a parent-closed table. */
  ghost predicate Childless(files: Files, f: FileId)
    requires f in files
  {
    forall g :: g in files && InSubtree(files[f].path, files[g].path) ==> g == f
  }

  /** For such a row the two conditions on the subtree come down to the selection being the row alone. */
  lemma ChildlessConditions(files: Files, f: FileId, copyPath: string)
    requires f in files && Childless(files, f)
    ensures SubtreeRename.LikeExact(files, files[f].path) <==> Leaf(files, f)
    ensures !Occupied(files, copyPath) ==> SubtreeRename.TargetsFree(files, files[f].path, copyPath)
  {
    var path := files[f].path;
    hide SqlLike.LikeBelow;
    forall g | g in files
      ensures g in SelectedIds(files, path) <==> g == f || SqlLike.LikeBelow(path, files[g].path)
    {
      if files[g].path == path { InSubtreeItself(path); }
    }
    if SubtreeRename.LikeExact(files, path) {
      assert SelectedIds(files, path) == {f};
    }
    if Leaf(files, f) {
      forall g | g in files && SqlLike.LikeBelow(path, files[g].path)
        ensures InSubtree(path, files[g].path)
      {
        assert g in SelectedIds(files, path);
        InSubtreeItself(path);
      }
    }
    assert copyPath + path[|path|..] == copyPath;
  }

  lemma FilesAreChildless(files: Files, f: FileId)
    requires SubtreeRename.ParentClosed(files) && SubtreeRename.UniquePaths(files) && f in files && files[f].kind.File?
    requires ROOT <= files[f].path && files[f].path != ROOT
    ensures Childless(files, f)
  {
    hide SubtreeRename.ParentClosed;
    forall g | g in files && InSubtree(files[f].path, files[g].path)
      ensures g == f
    {
      if files[g].path != files[f].path { SubtreeRename.HoldsRowsBelow(files, files[f].path, g); }
    }
  }

  // ---- The conflicting row itself ----

  /** However the rest of its subtree fares, a committed conflict makes the row a copy under the chosen
      name whose only unfinished operation is a pending upload. */
  lemma CopyRow(db: Db, f: FileId, entry: Row, current: Option<string>, remote: Option<RemoteEntry>, now: int)
    requires Valid(db) && f in db.files && entry.fid == f && entry.path == db.files[f].path && entry.path != ROOT
    requires remote.Some? ==> remote.value.path == entry.path
    requires ApplyConflict(db, entry, current, remote, now).Ok?
    ensures var c, after := NextConflictPath(db.files, entry.path), ApplyConflict(db, entry, current, remote, now).value;
            && c.Some? && c.value != entry.path
            && f in after.files && after.files[f] == KeptRow(db.files[f], true, entry.path, c.value)
            && (exists i :: OnlyUnfinished(after, f, i, c.value))
            && IsConflictCopy(after, f, c.value)
  {
    hide Valid, ApplyConflict, NextConflictPath, RenameSubtree, DestinationAt, SubtreeRename.UniquePaths, Relocated,
         SubtreeRename.Coherent, SubtreeRename.LikeExact, SubtreeRename.TargetsFree, SubtreeRename.ExactlySubstituted,
         InSubtree, Occupied, CopyMade, EnsureRemoteRow, OnlyUnfinished;
    var c := NextConflictPath(db.files, entry.path);
    if c.None? {
      OverflowIsAnError(db, entry, current, remote, now);
    } else {
      RowInValid(db, f);
      ChosenPath(db.files, entry.path);
      ConflictSteps(db, f, entry, current, remote, now);
      FreshIsUnused(db);
      SubstitutionIff(db.files, f, c.value);
      RelocatedSelf(db.files[f], entry.path, DestinationAt(c.value));
      var renamed := RenameSubtree(db.files, entry.path, DestinationAt(c.value));
      var record := ConflictRecord(f, entry.path, c.value, entry.remoteVersion, current);
      CopyMadeRow(db, renamed.files, f, c.value, record, remote, now);
      InSubtreeItself(entry.path);
    }
  }

  lemma CopyMadeRow(db: Db, renamed: Files, f: FileId, copyPath: string, record: ConflictRecord, remote: Option<RemoteEntry>, now: int)
    requires f in renamed && renamed[f].path == copyPath && f != db.nextFile && record.fid == f && record.conflictPath == copyPath
    requires remote.Some? ==> remote.value.path != copyPath
    requires OnlyUnfinished(CopyMade(db, renamed, f, copyPath, record, now), f, db.nextOp, copyPath)
    ensures var made := CopyMade(db, renamed, f, copyPath, record, now);
            var after := if remote.Some? then EnsureRemoteRow(made, remote.value, Synced) else made;
            && f in after.files && after.files[f] == MarkedAsCopy(renamed[f])
            && OnlyUnfinished(after, f, db.nextOp, copyPath) && IsConflictCopy(after, f, copyPath)
  {
    hide OnlyUnfinished, WithoutUnfinished, RemoteUpdate, RemoteInsert;
    var made := CopyMade(db, renamed, f, copyPath, record, now);
    assert record in made.conflicts;
    var after := if remote.Some? then EnsureRemoteRow(made, remote.value, Synced) else made;
    SameQueueOnly(made, after, f, db.nextOp, copyPath);
  }

  lemma OverflowIsAnError(db: Db, entry: Row, current: Option<string>, remote: Option<RemoteEntry>, now: int)
    requires NextConflictPath(db.files, entry.path).None?
    ensures ApplyConflict(db, entry, current, remote, now).Err?
  {
  }

  // ---- How the conditions fail ----

  /** A row that holds the chosen name and is not itself selected makes the conflict fail. */
  lemma TakenNameFails(db: Db, f: FileId, g: FileId, current: Option<string>, remote: Option<RemoteEntry>, now: int)
    requires Valid(db) && f in db.files && g in db.files && db.files[f].path != ROOT
    requires NextConflictPath(db.files, db.files[f].path) == Some(db.files[g].path) && !Selected(db.files[f].path, db.files[g].path)
    ensures ApplyConflict(db, db.files[f], current, remote, now).Err?
  {
    hide Valid, ApplyConflict, NextConflictPath, DestinationAt, SubtreeRename.Coherent, InSubtree, CopyMade, EnsureRemoteRow, OnlyUnfinished,
         RenameRows, Relocated, OpsOk, RowOk;
    var path, c := db.files[f].path, db.files[g].path;
    RowInValid(db, f);
    ChosenPath(db.files, path);
    FreshIsUnused(db);
    ConflictSteps(db, f, db.files[f], current, remote, now);
    var order := Ordered(db.files, SelectedIds(db.files, path));
    SubtreeRename.RenameRowsEffect(db.files, order, path, DestinationAt(c));
    RelocatedToDestination(db.files[f], DestinationAt(c));
    assert f in order && g !in order;
  }

  lemma RelocatedToDestination(row: Row, to: Destination)
    ensures Relocated(row, row.path, to).path == to.path
  {
    assert to.path + row.path[|row.path|..] == to.path;
  }

  /** A row that the pattern catches outside the subtree makes the conflict fail, whatever name it chooses. */
  lemma StrayRowFails(db: Db, f: FileId, stray: FileId, current: Option<string>, remote: Option<RemoteEntry>, now: int)
    requires Valid(db) && f in db.files && stray in db.files && db.files[f].path != ROOT
    requires SqlLike.LikeBelow(db.files[f].path, db.files[stray].path) && !(db.files[f].path <= db.files[stray].path)
    ensures ApplyConflict(db, db.files[f], current, remote, now).Err?
  {
    hide Valid, ApplyConflict, NextConflictPath, DestinationAt, CopyMade, EnsureRemoteRow, OnlyUnfinished, RenameRows, SqlLike.LikeBelow;
    var path := db.files[f].path;
    if NextConflictPath(db.files, path).None? {
      OverflowIsAnError(db, db.files[f], current, remote, now);
    } else {
      RowInValid(db, f);
      FreshIsUnused(db);
      var c := NextConflictPath(db.files, path).value;
      ConflictSteps(db, f, db.files[f], current, remote, now);
      SubtreeRename.OrderedIsSelectOrder(db.files, path);
      SubtreeRename.StrayRowBreaksRename(db.files, Ordered(db.files, SelectedIds(db.files, path)), path, DestinationAt(c), stray);
    }
  }

  /** Without hidden rows the chosen name is always free. */
  lemma VisibleTableHasFreeName(db: Db, f: FileId)
    requires Valid(db) && f in db.files && db.files[f].path != ROOT && forall g :: g in db.files ==> Visible(db.files[g])
    ensures var c := NextConflictPath(db.files, db.files[f].path); c.Some? ==> !Occupied(db.files, c.value)
  {
    hide NextConflictPath, NameOf, ParentPathOf, Visible;
    var path := db.files[f].path;
    if NextConflictPath(db.files, path).Some? {
      RowInValid(db, f);
      ParentStaysRooted(path);
      var parent := ParentPathOf(path).value;
      CopyIsBeside(db.files, path, parent);
      var c := NextConflictPath(db.files, path).value;
      HelperSoundness.ConflictPathIsRooted(db.files, path);
      forall g | g in db.files
        ensures db.files[g].path != c
      {
        if db.files[g].path == c { VisibleIsListed(db, g, parent); }
      }
    }
  }

  lemma VisibleIsListed(db: Db, g: FileId, parent: string)
    requires Valid(db) && g in db.files && Visible(db.files[g]) && db.files[g].path != ROOT
    requires ParentPathOf(db.files[g].path) == Some(parent)
    ensures g in ListChildren(db.files, parent) && db.files[g].name == NameOf(db.files[g].path)
  {
    assert RowOk(db.files[g]);
  }
}
