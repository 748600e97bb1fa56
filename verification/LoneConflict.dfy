/** A reconcile in which one row conflicts with the remote tree: for which tables and trees it ends, whatever
    the order, with the local version as a copy beside the original and the foreign version in its place. */
module LoneConflict {
  import opened Wrappers
  import opened RemotePaths
  import opened Tables
  import opened SyncSteps
  import opened TableInvariants
  import opened HelperSoundness
  import opened SyncMachine
  import opened ConflictCopies
  import opened ReconcileConflicts
  import opened QuietSteps
  import ConflictNames
  import SubtreeRename
  import SqlLike

  // ---- The tables and trees ----

  /** No path has an empty first name. */
  predicate Tidy(files: Files, remote: RemoteTree) {
    && (forall g :: g in files && files[g].path != ROOT ==> SplitsCleanly(files[g].path))
    && (forall q :: q in remote && q != ROOT ==> SplitsCleanly(q))
  }

  /** One row conflicts, and no other. */
  predicate Lone(db: Db, remote: RemoteTree, f: FileId) {
    && f in db.files && ConflictsAt(db, db.files[f], remote)
    && forall g :: g in db.files && g != f ==> !ConflictsAt(db, db.files[g], remote)
  }

  /** Nothing lies below the path, and no longer path that begins with it is caught by its pattern. */
  predicate NothingPrefixed(files: Files, remote: RemoteTree, p: string) {
    && (forall g :: g in files && files[g].path != p && Selected(p, files[g].path) ==> !(p <= files[g].path))
    && (forall q :: q in remote && q != p && Selected(p, q) ==> !(p <= q))
  }

  /** The query for the path selects no other row, neither of the table nor of the remote tree. */
  predicate SelectsAlone(files: Files, remote: RemoteTree, p: string) {
    && (forall g :: g in files && files[g].path != p ==> !Selected(p, files[g].path))
    && (forall q :: q in remote && q != p ==> !Selected(p, q))
  }

  // ---- The outcome ----

  predicate IsCopy(row: Row, copy: Row, c: string) {
    && copy.path == c && copy.state.QueuedUpload? && copy.remoteVersion.None?
    && copy.fid == row.fid && copy.localVersion == row.localVersion && copy.size == row.size
    && copy.content == row.content && copy.cachePath == row.cachePath
  }

  function ForeignAt(remote: RemoteTree, p: string): Option<RemoteEntry> {
    if p in remote then Some(remote[p]) else None
  }

  /** The row is a recorded copy at `c` with one unfinished operation, a pending upload; its old path has a new
      row with the foreign version, or none; no other row that is left has moved. */
  ghost predicate CopiedTo(db: Db, after: Db, f: FileId, c: string, at: Option<RemoteEntry>)
    requires f in db.files
  {
    var row := db.files[f];
    && Valid(after) && db.nextFile <= after.nextFile && f in after.files && IsCopy(row, after.files[f], c)
    && (exists i :: OnlyUnfinished(after, f, i, c))
    && ConflictRecord(f, row.path, c, row.remoteVersion, VersionOf(at)) in after.conflicts
    && (at.Some? ==> exists g :: g in after.files && g !in db.files && after.files[g].path == row.path
                                 && after.files[g].remoteVersion == at.value.version)
    && (at.None? ==> !Occupied(after.files, row.path))
    && (forall g :: g in db.files && g != f && g in after.files ==> after.files[g].path == db.files[g].path)
  }

  ghost predicate CopiedBeside(db: Db, after: Db, remote: RemoteTree, f: FileId)
    requires f in db.files
  {
    var p := db.files[f].path;
    exists c :: c != p && ParentPathOf(c) == ParentPathOf(p) && c !in remote && CopiedTo(db, after, f, c, ForeignAt(remote, p))
  }

  // ---- Before the conflict ----

  ghost predicate Before(db: Db, mid: Db, done: set<string>, f: FileId) {
    && Valid(mid) && db.nextFile <= mid.nextFile && mid.conflicts == db.conflicts && f in db.files
    && (forall g :: g in db.files ==>
          g in mid.files && mid.files[g].path == db.files[g].path && (mid.files[g].state.QueuedDelete? <==> db.files[g].state.QueuedDelete?))
    && mid.files[f] == db.files[f]
    && (forall g :: g in mid.files && g !in db.files ==>
          mid.files[g].path in done && !Occupied(db.files, mid.files[g].path) && !mid.files[g].state.QueuedDelete?)
    && (forall q :: q in done ==> Occupied(mid.files, q))
  }

  lemma StartsBefore(db: Db, f: FileId)
    requires Valid(db) && f in db.files
    ensures Before(db, db, {}, f)
  {
  }

  lemma BeforeStep(db: Db, mid: Db, done: set<string>, f: FileId, after: Db, q: string, version: Option<string>)
    requires Before(db, mid, done, f) && OnlyRefreshed(mid, after, q, version) && q !in done && q != db.files[f].path
    ensures Before(db, after, done + {q}, f)
  {
    hide Valid, SameQueueOf, Occupied;
    forall g | g in after.files && g !in db.files
      ensures after.files[g].path in done + {q} && !Occupied(db.files, after.files[g].path) && !after.files[g].state.QueuedDelete?
    {
      if g !in mid.files {
        UniqueIn(after);
        NewPathIsFree(db.files, mid.files, after.files, g, q, version);
      }
    }
    forall r | r in done + {q}
      ensures Occupied(after.files, r)
    {
      if r != q { StillOccupied(mid.files, after.files, q, version, r); }
    }
  }

  lemma UniqueIn(db: Db)
    requires Valid(db)
    ensures SubtreeRename.UniquePaths(db.files)
  {
  }

  lemma NewPathIsFree(files: Files, mid: Files, after: Files, g: FileId, q: string, version: Option<string>)
    requires FilesRefreshed(mid, after, q, version) && SubtreeRename.UniquePaths(after) && g in after && g !in mid
    requires forall h :: h in files ==> h in mid && mid[h].path == files[h].path
    ensures after[g].path == q && !Occupied(files, q)
  {
    forall h | h in files ensures files[h].path != q {
      assert after[h].path == files[h].path;
    }
  }

  lemma StillOccupied(mid: Files, after: Files, q: string, version: Option<string>, r: string)
    requires FilesRefreshed(mid, after, q, version) && Occupied(mid, r)
    ensures Occupied(after, r)
  {
    var g :| g in mid && mid[g].path == r;
    assert after[g].path == r;
  }

  /** The snapshot row at a path does not conflict. */
  lemma QuietLocal(db: Db, remote: RemoteTree, q: string, f: FileId)
    requires Valid(db) && Lone(db, remote, f) && q in remote && q != db.files[f].path
    ensures var local := LocalAt(db.files, q);
            && (local.Some? ==> RowOk(local.value))
            && (local.Some? && q != ROOT && Unsynced(local.value.state) ==> local.value.remoteVersion == remote[q].version)
  {
    hide RowOk, IsConflictCopy;
  }

  lemma QuietStep(db: Db, mid: Db, remote: RemoteTree, q: string, f: FileId, now: int)
    requires Valid(db) && Valid(mid) && TreeOk(remote) && Lone(db, remote, f) && q in remote && q != db.files[f].path
    ensures remote[q].path == q
    ensures var r := ReconcileRemote(mid, LocalAt(db.files, q), remote[q], now);
            r.Ok? && OnlyRefreshed(mid, r.value, q, remote[q].version) && Valid(r.value)
  {
    hide RowOk, Valid, Lone, ReconcileRemote;
    assert remote[q].path == q && RemoteOk(remote[q]);
    QuietLocal(db, remote, q, f);
    QuietRemoteStep(mid, LocalAt(db.files, q), remote[q], now);
  }

  lemma {:induction false} RemotePassBefore(db: Db, mid: Db, remote: RemoteTree, done: set<string>, order: seq<string>, all: set<string>, f: FileId, now: int)
    requires Valid(db) && TreeOk(remote) && Lone(db, remote, f) && Before(db, mid, done, f)
    requires Distinct(order) && (forall q :: q in order ==> q in remote && q !in done && q != db.files[f].path)
    requires forall q :: q in all <==> q in done || q in order
    ensures var r := RemotePass(mid, db.files, remote, order, now); r.Ok? && Before(db, r.value, all, f)
    decreases |order|
  {
    hide Valid, Lone, ReconcileRemote, OnlyRefreshed, RemoteOk;
    if order == [] {
      assert all == done;
    } else {
      var q, rest := order[0], order[1..];
      assert q in order;
      BeforeIsValid(db, mid, done, f);
      hide Before;
      assert forall i :: 0 <= i < |rest| ==> rest[i] == order[i + 1] && rest[i] != q;
      QuietStep(db, mid, remote, q, f, now);
      var mid1 := ReconcileRemote(mid, LocalAt(db.files, q), remote[q], now).value;
      BeforeStep(db, mid, done, f, mid1, q, remote[q].version);
      RemotePassBefore(db, mid1, remote, done + {q}, rest, all, f, now);
    }
  }

  lemma BeforeIsValid(db: Db, mid: Db, done: set<string>, f: FileId)
    requires Before(db, mid, done, f)
    ensures Valid(mid) && f in mid.files && mid.files[f] == db.files[f] && mid.conflicts == db.conflicts
  {
  }

  // ---- After the conflict ----

  lemma CopiedStep(db: Db, mid: Db, after: Db, f: FileId, c: string, at: Option<RemoteEntry>, q: string, version: Option<string>)
    requires Valid(db) && f in db.files && CopiedTo(db, mid, f, c, at) && OnlyRefreshed(mid, after, q, version)
    requires at.Some? && q != db.files[f].path && q != c
    ensures CopiedTo(db, after, f, c, at)
  {
    hide Valid, OnlyUnfinished, SameQueueOf;
    assert mid.files[f].path == c && after.files[f] == mid.files[f];
    var i :| OnlyUnfinished(mid, f, i, c);
    assert SameQueueOf(mid, after, f);
    OnlyUnfinishedStays(mid, after, f, i, c);
    var g :| g in mid.files && g !in db.files && mid.files[g].path == db.files[f].path && mid.files[g].remoteVersion == at.value.version;
    assert after.files[g] == mid.files[g];
    OldRowsStay(db, mid, after, q, version);
  }

  /** A refreshed table has new rows with new ids only. */
  lemma OldRowsStay(db: Db, mid: Db, after: Db, q: string, version: Option<string>)
    requires Valid(db) && db.nextFile <= mid.nextFile && OnlyRefreshed(mid, after, q, version)
    ensures forall h :: h in db.files && h in after.files ==> h in mid.files
  {
  }

  lemma OnlyUnfinishedStays(mid: Db, after: Db, f: FileId, i: nat, c: string)
    requires OnlyUnfinished(mid, f, i, c) && SameQueueOf(mid, after, f)
    ensures OnlyUnfinished(after, f, i, c)
  {
  }

  lemma {:induction false} RemotePassAfter(db: Db, mid: Db, remote: RemoteTree, order: seq<string>, f: FileId, c: string, now: int)
    requires Valid(db) && TreeOk(remote) && f in db.files && Lone(db, remote, f) && CopiedTo(db, mid, f, c, ForeignAt(remote, db.files[f].path))
    requires db.files[f].path in remote && c !in remote && forall q :: q in order ==> q in remote && q != db.files[f].path
    ensures var r := RemotePass(mid, db.files, remote, order, now);
            r.Ok? && CopiedTo(db, r.value, f, c, ForeignAt(remote, db.files[f].path))
    decreases |order|
  {
    hide Valid, Lone, ReconcileRemote, OnlyRefreshed, RemoteOk;
    if order != [] {
      var q := order[0];
      assert q in order && Valid(mid);
      hide CopiedTo;
      QuietStep(db, mid, remote, q, f, now);
      var mid1 := ReconcileRemote(mid, LocalAt(db.files, q), remote[q], now).value;
      CopiedStep(db, mid, mid1, f, c, ForeignAt(remote, db.files[f].path), q, remote[q].version);
      RemotePassAfter(db, mid1, remote, order[1..], f, c, now);
    }
  }

  // ---- The conflict ----

  /** A conflict on a row that its query selects alone, with a free name. */
  lemma GoodConflict(db: Db, mid: Db, f: FileId, c: string, at: Option<RemoteEntry>, now: int)
    requires f in db.files && Valid(mid) && f in mid.files && mid.files[f] == db.files[f] && db.files[f].path != ROOT && db.files[f].fid == f
    requires at.Some? ==> at.value.path == db.files[f].path && RemoteOk(at.value)
    requires NextConflictPath(mid.files, db.files[f].path) == Some(c) && !Occupied(mid.files, c)
    requires forall g :: g in mid.files && g != f ==> !Selected(db.files[f].path, mid.files[g].path)
    requires forall g :: g in db.files && g in mid.files ==> mid.files[g].path == db.files[g].path
    requires Valid(db) && db.nextFile <= mid.nextFile
    ensures var r := ApplyConflict(mid, db.files[f], VersionOf(at), at, now); r.Ok? && CopiedTo(db, r.value, f, c, at)
  {
    hide Valid, ApplyConflict, NextConflictPath, Occupied, BothVersionsKept, SubtreeRename.LikeExact, SubtreeRename.TargetsFree, Selected,
         OnlyUnfinished, KeptRow, RowOk;
    var p := db.files[f].path;
    AloneConditions(mid.files, f, c);
    ConflictKeepsBothIff(mid, f, db.files[f], VersionOf(at), at, now);
    var after := ApplyConflict(mid, db.files[f], VersionOf(at), at, now).value;
    RowInValid(mid, f);
    ApplyConflictSound(mid, db.files[f], VersionOf(at), at, now);
    SoundIsValid(mid, after);
    ConflictIsRecorded(mid, f, VersionOf(at), at, now);
    FreshIsUnused(mid);
    SoundIsNew(mid, after);
    KeptIsCopied(db, mid, after, f, c, at);
  }

  lemma AloneConditions(files: Files, f: FileId, c: string)
    requires f in files && !Occupied(files, c) && forall g :: g in files && g != f ==> !Selected(files[f].path, files[g].path)
    ensures SubtreeRename.LikeExact(files, files[f].path) && SubtreeRename.TargetsFree(files, files[f].path, c)
  {
    hide Selected;
    forall g | g in files && InSubtree(files[f].path, files[g].path)
      ensures g == f
    {
      SubtreeRename.DescendantIsSelected(files, files[f].path, g);
    }
    assert Leaf(files, f) by { SelfSelected(files[f].path); }
    ChildlessConditions(files, f, c);
  }

  lemma SelfSelected(p: string)
    ensures Selected(p, p)
  {
  }

  lemma ConflictIsRecorded(mid: Db, f: FileId, current: Option<string>, at: Option<RemoteEntry>, now: int)
    requires Valid(mid) && f in mid.files && mid.files[f].fid == f && ApplyConflict(mid, mid.files[f], current, at, now).Ok?
    requires NextConflictPath(mid.files, mid.files[f].path).Some?
    ensures ConflictRecord(f, mid.files[f].path, NextConflictPath(mid.files, mid.files[f].path).value, mid.files[f].remoteVersion, current)
            in ApplyConflict(mid, mid.files[f], current, at, now).value.conflicts
  {
    hide Valid, ApplyConflict, NextConflictPath, RenameSubtree, OnlyUnfinished;
    ConflictSteps(mid, f, mid.files[f], current, at, now);
  }

  lemma KeptIsCopied(db: Db, mid: Db, after: Db, f: FileId, c: string, at: Option<RemoteEntry>)
    requires f in db.files && Valid(mid) && Valid(after) && f in mid.files && mid.files[f] == db.files[f]
    requires BothVersionsKept(mid, after, f, c, at) && (at.Some? ==> at.value.path == db.files[f].path)
    requires ConflictRecord(f, db.files[f].path, c, db.files[f].remoteVersion, VersionOf(at)) in after.conflicts
    requires forall g :: g in mid.files && g != f ==> !Selected(db.files[f].path, mid.files[g].path)
    requires forall g :: g in db.files && g in mid.files ==> mid.files[g].path == db.files[g].path
    requires Valid(db) && db.nextFile <= mid.nextFile && mid.nextFile <= after.nextFile && mid.nextFile !in mid.files
    requires forall g :: g in after.files ==> g in mid.files || mid.nextFile <= g
    ensures CopiedTo(db, after, f, c, at)
  {
    hide Valid, OnlyUnfinished, IsConflictCopy, Selected, ParentPathOf, NameOf;
    var p := db.files[f].path;
    KeptCopy(db.files[f], c);
    KnownIds(db);
    forall g | g in mid.files && g != f
      ensures after.files[g].path == mid.files[g].path
    {
      NotBelow(mid.files, f, g);
    }
  }

  lemma KnownIds(db: Db)
    requires Valid(db)
    ensures forall g :: g in db.files ==> g < db.nextFile
  {
  }

  lemma NotBelow(files: Files, f: FileId, g: FileId)
    requires f in files && g in files && !Selected(files[f].path, files[g].path)
    ensures !InSubtree(files[f].path, files[g].path)
  {
    hide Selected;
    SubtreeRename.DescendantIsSelected(files, files[f].path, g);
  }

  lemma KeptCopy(row: Row, c: string)
    ensures IsCopy(row, KeptRow(row, true, row.path, c), c)
  {
    hide ParentPathOf, NameOf;
    assert InSubtree(row.path, row.path);
    assert c + row.path[|row.path|..] == c;
  }

  // ---- The chosen name ----

  /** Names of remote objects of a directory that the table has no row for. */
  ghost function NewNames(db: Db, done: set<string>, parent: string): set<string> {
    set q | q in done && q != ROOT && !Occupied(db.files, q) && ParentPathOf(q) == Some(parent) :: NameOf(q)
  }

  lemma NamesBefore(db: Db, mid: Db, done: set<string>, f: FileId, parent: string)
    requires Valid(db) && Before(db, mid, done, f)
    ensures UsedNames(mid.files, parent) == UsedNames(db.files, parent) + NewNames(db, done, parent)
  {
    hide ParentPathOf, NameOf;
    forall n | n in UsedNames(mid.files, parent)
      ensures n in UsedNames(db.files, parent) + NewNames(db, done, parent)
    {
      var g :| g in ListChildren(mid.files, parent) && mid.files[g].name == n;
      ListedRow(mid, g, parent);
      if g in db.files {
        RowInListing(db, g, parent);
      } else {
        assert mid.files[g].path in done;
      }
    }
    forall n | n in UsedNames(db.files, parent)
      ensures n in UsedNames(mid.files, parent)
    {
      var g :| g in ListChildren(db.files, parent) && db.files[g].name == n;
      ListedRow(db, g, parent);
      RowInListing(mid, g, parent);
    }
    forall n | n in NewNames(db, done, parent)
      ensures n in UsedNames(mid.files, parent)
    {
      var q :| q in done && q != ROOT && !Occupied(db.files, q) && ParentPathOf(q) == Some(parent) && NameOf(q) == n;
      var g :| g in mid.files && mid.files[g].path == q;
      assert g !in db.files;
      RowInListing(mid, g, parent);
    }
  }

  lemma ListedRow(db: Db, g: FileId, parent: string)
    requires Valid(db) && g in ListChildren(db.files, parent)
    ensures g in db.files && !db.files[g].state.QueuedDelete? && db.files[g].path != ROOT
    ensures ParentPathOf(db.files[g].path) == Some(parent) && db.files[g].name == NameOf(db.files[g].path)
  {
    assert RowOk(db.files[g]);
  }

  lemma RowInListing(db: Db, g: FileId, parent: string)
    requires Valid(db) && g in db.files && !db.files[g].state.QueuedDelete? && db.files[g].path != ROOT
    requires ParentPathOf(db.files[g].path) == Some(parent)
    ensures g in ListChildren(db.files, parent) && db.files[g].name == NameOf(db.files[g].path) && db.files[g].name in UsedNames(db.files, parent)
  {
    assert RowOk(db.files[g]);
  }

  /** The name the conflict will choose: beside the original, past the visible siblings and, if the original is
      gone remotely, past the remote objects that the first pass adds. */
  ghost function ChosenCopyPath(db: Db, remote: RemoteTree, f: FileId): Option<string>
    requires f in db.files
  {
    var p := db.files[f].path;
    var parent := match ParentPathOf(p) case Some(d) => d case None => ROOT;
    var used := UsedNames(db.files, parent) + if p in remote then {} else NewNames(db, remote.Keys, parent);
    match ConflictNames.NextConflictName(NameOf(p), used)
    case Some(n) => Some(Join(parent, n))
    case None => None
  }

  /** The name is free of hidden rows and of remote objects, and the query for the row selects it alone. */
  ghost predicate NameIsGood(db: Db, remote: RemoteTree, f: FileId)
    requires f in db.files
  {
    var c := ChosenCopyPath(db, remote, f);
    c.Some? && !Occupied(db.files, c.value) && c.value !in remote && SelectsAlone(db.files, remote, db.files[f].path)
  }

  /** Parent and name decide a tidy path. */
  lemma SamePlace(p: string, q: string)
    requires ROOT <= p && ROOT <= q && SplitsCleanly(p) && SplitsCleanly(q)
    requires ParentPathOf(p) == ParentPathOf(q) && NameOf(p) == NameOf(q)
    ensures p == q
  {
    ParentStaysRooted(p);
    ParentStaysRooted(q);
    SplitThenJoin(p);
    SplitThenJoin(q);
  }

  /** Adding the rows of the first pass does not change a choice that is free of remote objects. */
  lemma ChosenBefore(db: Db, mid: Db, remote: RemoteTree, done: set<string>, f: FileId)
    requires Valid(db) && f in db.files && Before(db, mid, done, f) && Tidy(db.files, remote) && TreeOk(remote) && done <= remote.Keys
    requires db.files[f].path != ROOT && ROOT <= db.files[f].path
    requires ChosenCopyPath(db, remote, f).Some? && ChosenCopyPath(db, remote, f).value !in remote
    requires db.files[f].path in remote || done == remote.Keys
    ensures NextConflictPath(mid.files, db.files[f].path) == ChosenCopyPath(db, remote, f)
  {
    hide ConflictNames.NextConflictName, UsedNames, NewNames, LastSlash, ParentPathOf, NameOf, Join, Tidy, TreeOk, Valid, Before;
    var p := db.files[f].path;
    ParentStaysRooted(p);
    var parent := ParentPathOf(p).value;
    NamesBefore(db, mid, done, f, parent);
    if p in remote {
      var used := UsedNames(db.files, parent);
      assert used + {} == used;
      var n := ConflictNames.NextConflictName(NameOf(p), used).value;
      NameHasNoSlash(p);
      ConflictNames.NextNameHasNoSlash(NameOf(p), used);
      NextNameIsNew(NameOf(p), used);
      NotAmongNew(db, remote, done, parent, n);
      ConflictNames.ChoiceIsStable(NameOf(p), used, used + NewNames(db, done, parent));
    }
  }

  lemma NotAmongNew(db: Db, remote: RemoteTree, done: set<string>, parent: string, n: string)
    requires Tidy(db.files, remote) && TreeOk(remote) && done <= remote.Keys && ROOT <= parent && ChildName(n)
    requires Join(parent, n) !in remote
    ensures n !in NewNames(db, done, parent)
  {
    JoinThenSplit(parent, n);
    hide ParentPathOf, NameOf, LastSlash, Join, SplitsCleanly;
    forall q | q in done && q != ROOT && ParentPathOf(q) == Some(parent)
      ensures NameOf(q) != n
    {
      assert q in remote && RemoteOk(remote[q]) && remote[q].path == q;
      RejoinedPath(q);
    }
  }

  lemma RejoinedPath(q: string)
    requires ROOT <= q && SplitsCleanly(q)
    ensures ParentPathOf(q).Some? && Join(ParentPathOf(q).value, NameOf(q)) == q
  {
    ParentStaysRooted(q);
    SplitThenJoin(q);
  }

  // ---- The remote pass ----

  /** No row of the table before the conflict is selected besides the row itself. */
  lemma AloneBefore(db: Db, mid: Db, remote: RemoteTree, done: set<string>, f: FileId)
    requires Before(db, mid, done, f) && done <= remote.Keys && SelectsAlone(db.files, remote, db.files[f].path) && Valid(db)
    ensures forall g :: g in mid.files && g != f ==> !Selected(db.files[f].path, mid.files[g].path)
  {
    hide Selected, RowOk, OpsOk, References;
    forall g | g in mid.files && g != f
      ensures !Selected(db.files[f].path, mid.files[g].path)
    {
      if g in db.files {
        assert db.files[g].path != db.files[f].path;
      } else {
        assert mid.files[g].path in remote && !Occupied(db.files, mid.files[g].path);
        assert mid.files[g].path != db.files[f].path;
      }
    }
  }

  lemma FreeBefore(db: Db, mid: Db, remote: RemoteTree, done: set<string>, f: FileId, c: string)
    requires Before(db, mid, done, f) && done <= remote.Keys && !Occupied(db.files, c) && c !in remote
    ensures !Occupied(mid.files, c)
  {
    hide Valid;
    forall g | g in mid.files
      ensures mid.files[g].path != c
    {
      if g in db.files { assert mid.files[g].path == db.files[g].path; }
    }
  }

  lemma LoneRow(db: Db, remote: RemoteTree, f: FileId)
    requires Valid(db) && TreeOk(remote) && Lone(db, remote, f)
    ensures var row := db.files[f];
            && row.fid == f && row.path != ROOT && ROOT <= row.path && Unsynced(row.state)
            && (row.path in remote ==> remote[row.path].version != row.remoteVersion && remote[row.path].path == row.path && RemoteOk(remote[row.path]))
            && (row.path !in remote ==> !IsConflictCopy(db, f, row.path))
            && LocalAt(db.files, row.path) == Some(row)
  {
    assert RowOk(db.files[f]);
    hide RowOk;
    SubtreeRename.RowAtIsUnique(db.files, db.files[f].path, f);
  }

  lemma OwnStep(db: Db, mid: Db, remote: RemoteTree, done: set<string>, f: FileId, now: int)
    requires Valid(db) && TreeOk(remote) && Tidy(db.files, remote) && f in db.files && Lone(db, remote, f) && Before(db, mid, done, f)
    requires done <= remote.Keys && db.files[f].path in remote && NameIsGood(db, remote, f)
    ensures var p := db.files[f].path;
            var r := ReconcileRemote(mid, LocalAt(db.files, p), remote[p], now);
            r.Ok? && CopiedTo(db, r.value, f, ChosenCopyPath(db, remote, f).value, ForeignAt(remote, p))
  {
    hide Valid, Before, ChosenCopyPath, NextConflictPath, ApplyConflict, Lone, Selected, Occupied, CopiedTo, TreeOk, Tidy, RemoteOk,
         SelectsAlone, IsConflictCopy;
    LoneRow(db, remote, f);
    BeforeIsValid(db, mid, done, f);
    var p, c := db.files[f].path, ChosenCopyPath(db, remote, f).value;
    ChosenBefore(db, mid, remote, done, f);
    FreeBefore(db, mid, remote, done, f, c);
    AloneBefore(db, mid, remote, done, f);
    PathsBefore(db, mid, done, f);
    GoodConflict(db, mid, f, c, Some(remote[p]), now);
  }

  lemma PathsBefore(db: Db, mid: Db, done: set<string>, f: FileId)
    requires Before(db, mid, done, f)
    ensures db.nextFile <= mid.nextFile && forall g :: g in db.files && g in mid.files ==> mid.files[g].path == db.files[g].path
  {
  }

  lemma {:induction false} RemotePassCopies(db: Db, mid: Db, remote: RemoteTree, done: set<string>, order: seq<string>, f: FileId, now: int)
    requires Valid(db) && TreeOk(remote) && Tidy(db.files, remote) && f in db.files && Lone(db, remote, f) && Before(db, mid, done, f)
    requires Distinct(order) && (forall q :: q in order ==> q in remote && q !in done) && done <= remote.Keys
    requires db.files[f].path in order && db.files[f].path in remote && NameIsGood(db, remote, f)
    ensures var r := RemotePass(mid, db.files, remote, order, now);
            r.Ok? && CopiedTo(db, r.value, f, ChosenCopyPath(db, remote, f).value, ForeignAt(remote, db.files[f].path))
    decreases |order|
  {
    hide Valid, Lone, ReconcileRemote, OnlyRefreshed, RemoteOk, Before, CopiedTo, Tidy, ChosenCopyPath, SelectsAlone, Occupied;
    var q, rest := order[0], order[1..];
    assert q in order;
    assert forall i :: 0 <= i < |rest| ==> rest[i] == order[i + 1] && rest[i] != q;
    BeforeIsValid(db, mid, done, f);
    if q == db.files[f].path {
      OwnStep(db, mid, remote, done, f, now);
      var mid1 := ReconcileRemote(mid, LocalAt(db.files, q), remote[q], now).value;
      assert remote[q].path == q;
      RemotePassAfter(db, mid1, remote, rest, f, ChosenCopyPath(db, remote, f).value, now);
    } else {
      QuietStep(db, mid, remote, q, f, now);
      var mid1 := ReconcileRemote(mid, LocalAt(db.files, q), remote[q], now).value;
      BeforeStep(db, mid, done, f, mid1, q, remote[q].version);
      RemotePassCopies(db, mid1, remote, done + {q}, rest, f, now);
    }
  }

  // ---- The local pass ----

  /** Unsynced rows and the records of the rows that are left are still there. */
  predicate StillKnown(db: Db, mid: Db, f: FileId) {
    && (forall g :: g in db.files && g != f && Unsynced(db.files[g].state) ==> g in mid.files)
    && (forall c :: c in db.conflicts && c.fid != f && c.fid in mid.files ==> c in mid.conflicts)
  }

  /** A row that does not conflict is left alone or, if it has vanished and nothing is unsynced, dropped. */
  lemma QuietLocalStep(db: Db, mid: Db, disk: Disk, remote: RemoteTree, g: FileId, f: FileId, now: int)
    requires Valid(db) && f in db.files && Lone(db, remote, f) && g in db.files && StillKnown(db, mid, f) && (g == f ==> db.files[f].path in remote)
    ensures var o := ReconcileLocal(mid, disk, db.files[g], remote, now);
            && o.result.Ok?
            && (o.result.value == mid
                || (o.result.value == DeleteRow(mid, g) && g != f && !Unsynced(db.files[g].state) && db.files[g].path !in remote))
  {
    hide RowOk, ApplyConflict, DeleteRow;
    RowInValid(db, g);
    if g != f && Unsynced(db.files[g].state) && db.files[g].path != ROOT && db.files[g].path !in remote {
      assert IsConflictCopy(db, g, db.files[g].path);
      assert IsConflictCopy(mid, g, db.files[g].path);
    }
  }

  lemma StillKnownAfterDrop(db: Db, mid: Db, g: FileId, f: FileId)
    requires StillKnown(db, mid, f) && g in db.files && !Unsynced(db.files[g].state)
    ensures StillKnown(db, DeleteRow(mid, g), f)
  {
  }

  lemma CopiedAfterDrop(db: Db, mid: Db, g: FileId, f: FileId, c: string, at: Option<RemoteEntry>)
    requires f in db.files && g in db.files && g != f && CopiedTo(db, mid, f, c, at)
    ensures CopiedTo(db, DeleteRow(mid, g), f, c, at)
  {
    hide RowOk;
    var after := DeleteRow(mid, g);
    DropIsValid(mid, g);
    hide Valid;
    var i :| OnlyUnfinished(mid, f, i, c);
    OnlyUnfinishedAfterDrop(mid, g, f, i, c);
    if at.Some? {
      var h :| h in mid.files && h !in db.files && mid.files[h].path == db.files[f].path && mid.files[h].remoteVersion == at.value.version;
      assert h in after.files;
    }
  }

  lemma DropIsValid(db: Db, g: FileId)
    requires Valid(db)
    ensures Valid(DeleteRow(db, g))
  {
    hide RowOk, Sound;
    DeleteRowSound(db, g);
    SoundIsValid(db, DeleteRow(db, g));
  }

  lemma OnlyUnfinishedAfterDrop(mid: Db, g: FileId, f: FileId, i: nat, c: string)
    requires OnlyUnfinished(mid, f, i, c) && g != f
    ensures OnlyUnfinished(DeleteRow(mid, g), f, i, c)
  {
  }

  lemma {:induction false} LocalPassAfter(db: Db, mid: Db, disk: Disk, remote: RemoteTree, order: seq<FileId>, f: FileId, c: string, now: int)
    requires Valid(db) && f in db.files && Lone(db, remote, f) && StillKnown(db, mid, f)
    requires CopiedTo(db, mid, f, c, ForeignAt(remote, db.files[f].path))
    requires (forall g :: g in order ==> g in db.files) && (f in order ==> db.files[f].path in remote)
    ensures var o := LocalPass(mid, disk, db.files, order, remote, now);
            o.result.Ok? && CopiedTo(db, o.result.value, f, c, ForeignAt(remote, db.files[f].path))
    decreases |order|
  {
    hide Valid, Lone, ReconcileLocal, CopiedTo, StillKnown, DeleteRow;
    if order != [] {
      var g, rest := order[0], order[1..];
      assert g in order;
      QuietLocalStep(db, mid, disk, remote, g, f, now);
      var o := ReconcileLocal(mid, disk, db.files[g], remote, now);
      if o.result.value != mid {
        StillKnownAfterDrop(db, mid, g, f);
        CopiedAfterDrop(db, mid, g, f, c, ForeignAt(remote, db.files[f].path));
      }
      LocalPassAfter(db, o.result.value, o.disk, remote, rest, f, c, now);
    }
  }

  /** The table during the local pass, before the turn of a row that is gone remotely. */
  ghost predicate BeforeLocal(db: Db, mid: Db, remote: RemoteTree, f: FileId) {
    && Valid(mid) && db.nextFile <= mid.nextFile && f in db.files && f in mid.files && mid.files[f] == db.files[f]
    && (forall g :: g in db.files && g in mid.files ==>
          mid.files[g].path == db.files[g].path && (mid.files[g].state.QueuedDelete? <==> db.files[g].state.QueuedDelete?))
    && (forall g :: g in db.files && g !in mid.files ==> db.files[g].path !in remote)
    && (forall g :: g in mid.files && g !in db.files ==>
          mid.files[g].path in remote && !Occupied(db.files, mid.files[g].path) && !mid.files[g].state.QueuedDelete?)
    && (forall q :: q in remote ==> Occupied(mid.files, q))
    && NoNewRecord(db, mid, f) && StillKnown(db, mid, f)
  }

  lemma BeforeLocalStarts(db: Db, mid: Db, remote: RemoteTree, f: FileId)
    requires Before(db, mid, remote.Keys, f)
    ensures BeforeLocal(db, mid, remote, f)
  {
    hide Valid;
  }

  lemma BeforeLocalDrop(db: Db, mid: Db, remote: RemoteTree, g: FileId, f: FileId)
    requires Valid(db) && BeforeLocal(db, mid, remote, f) && g in db.files && g != f && !Unsynced(db.files[g].state) && db.files[g].path !in remote
    ensures BeforeLocal(db, DeleteRow(mid, g), remote, f)
  {
    hide Valid, StillKnown, NoNewRecord, Occupied;
    DropIsValid(mid, g);
    StillKnownAfterDrop(db, mid, g, f);
    FewerRecords(db, mid, g, f);
    forall q | q in remote
      ensures Occupied(DeleteRow(mid, g).files, q)
    {
      OccupiedAfterDrop(mid, g, q);
    }
  }

  lemma FewerRecords(db: Db, mid: Db, g: FileId, f: FileId)
    requires NoNewRecord(db, mid, f)
    ensures NoNewRecord(db, DeleteRow(mid, g), f)
  {
  }

  lemma OccupiedAfterDrop(mid: Db, g: FileId, q: string)
    requires Occupied(mid.files, q) && (g in mid.files ==> mid.files[g].path != q)
    ensures Occupied(DeleteRow(mid, g).files, q)
  {
    var h :| h in mid.files && mid.files[h].path == q;
    assert h in DeleteRow(mid, g).files;
  }

  lemma NamesBeforeLocal(db: Db, mid: Db, remote: RemoteTree, f: FileId, parent: string)
    requires Valid(db) && BeforeLocal(db, mid, remote, f)
    ensures UsedNames(mid.files, parent) <= UsedNames(db.files, parent) + NewNames(db, remote.Keys, parent)
  {
    hide ParentPathOf, NameOf;
    forall n | n in UsedNames(mid.files, parent)
      ensures n in UsedNames(db.files, parent) + NewNames(db, remote.Keys, parent)
    {
      var g :| g in ListChildren(mid.files, parent) && mid.files[g].name == n;
      ListedRow(mid, g, parent);
      if g in db.files {
        RowInListing(db, g, parent);
      } else {
        assert mid.files[g].path in remote.Keys;
      }
    }
  }

  /** A hidden row's name is not among the names in use. */
  lemma HiddenNameIsFree(db: Db, remote: RemoteTree, h: FileId, parent: string)
    requires Valid(db) && Tidy(db.files, remote) && TreeOk(remote) && h in db.files && db.files[h].state.QueuedDelete?
    requires db.files[h].path != ROOT && ParentPathOf(db.files[h].path) == Some(parent)
    ensures NameOf(db.files[h].path) !in UsedNames(db.files, parent) + NewNames(db, remote.Keys, parent)
  {
    hide ParentPathOf, NameOf, SplitsCleanly;
    RowInValid(db, h);
    UniqueHere(db, h);
    forall g | g in ListChildren(db.files, parent)
      ensures db.files[g].name != NameOf(db.files[h].path)
    {
      ListedRow(db, g, parent);
      RowInValid(db, g);
      if NameOf(db.files[g].path) == NameOf(db.files[h].path) { SamePlace(db.files[g].path, db.files[h].path); }
    }
    forall q | q in remote && q != ROOT && !Occupied(db.files, q) && ParentPathOf(q) == Some(parent)
      ensures NameOf(q) != NameOf(db.files[h].path)
    {
      assert RemoteOk(remote[q]) && remote[q].path == q;
      if NameOf(q) == NameOf(db.files[h].path) { SamePlace(q, db.files[h].path); }
    }
  }

  /** Whatever has been dropped by then, the chosen path is free. */
  lemma ChosenLocally(db: Db, mid: Db, remote: RemoteTree, f: FileId)
    requires Valid(db) && f in db.files && BeforeLocal(db, mid, remote, f) && Tidy(db.files, remote) && TreeOk(remote)
    requires db.files[f].path != ROOT && ROOT <= db.files[f].path && db.files[f].path !in remote && NameIsGood(db, remote, f)
    ensures var c := NextConflictPath(mid.files, db.files[f].path); c.Some? && !Occupied(mid.files, c.value) && c.value !in remote
  {
    hide ConflictNames.NextConflictName, UsedNames, NewNames, LastSlash, ParentPathOf, NameOf, Tidy, TreeOk, SelectsAlone, Valid;
    var p := db.files[f].path;
    ParentStaysRooted(p);
    var parent := ParentPathOf(p).value;
    var used, fewer := UsedNames(db.files, parent) + NewNames(db, remote.Keys, parent), UsedNames(mid.files, parent);
    NamesBeforeLocal(db, mid, remote, f, parent);
    ConflictNames.FewerNamesStillChoose(NameOf(p), used, fewer);
    var n := ConflictNames.NextConflictName(NameOf(p), fewer).value;
    var c := NextConflictPath(mid.files, p).value;
    assert c == Join(parent, n);
    NameHasNoSlash(p);
    ConflictNames.NextNameHasNoSlash(NameOf(p), fewer);
    NextNameIsNew(NameOf(p), fewer);
    JoinedParts(parent, n);
    forall h | h in mid.files
      ensures mid.files[h].path != c
    {
      if mid.files[h].path == c { HolderIsHidden(db, mid, remote, f, h, parent, n); }
    }
  }

  lemma JoinedParts(parent: string, n: string)
    requires ROOT <= parent && ChildName(n)
    ensures ParentPathOf(Join(parent, n)) == Some(parent) && NameOf(Join(parent, n)) == n && Join(parent, n) != ROOT
  {
    JoinThenSplit(parent, n);
  }

  /** A row at a path whose name is not in use is a hidden one of the table, whose name was not in use before either. */
  lemma HolderIsHidden(db: Db, mid: Db, remote: RemoteTree, f: FileId, h: FileId, parent: string, n: string)
    requires Valid(db) && BeforeLocal(db, mid, remote, f) && Tidy(db.files, remote) && TreeOk(remote) && h in mid.files
    requires mid.files[h].path == Join(parent, n) && ROOT <= parent && ChildName(n) && n !in UsedNames(mid.files, parent)
    ensures h in db.files && db.files[h].path == Join(parent, n)
    ensures n !in UsedNames(db.files, parent) + NewNames(db, remote.Keys, parent)
  {
    hide ParentPathOf, NameOf, Join, UsedNames, NewNames, Tidy, TreeOk, ChildName;
    JoinedParts(parent, n);
    if !mid.files[h].state.QueuedDelete? { RowInListing(mid, h, parent); }
    HiddenNameIsFree(db, remote, h, parent);
  }

  lemma StraysBeforeLocal(db: Db, mid: Db, remote: RemoteTree, f: FileId)
    requires Valid(db) && BeforeLocal(db, mid, remote, f) && SelectsAlone(db.files, remote, db.files[f].path)
    ensures forall g :: g in mid.files && g != f ==> !Selected(db.files[f].path, mid.files[g].path)
  {
    hide Selected, RowOk, OpsOk, References;
    forall g | g in mid.files && g != f
      ensures !Selected(db.files[f].path, mid.files[g].path)
    {
      if g in db.files {
        assert db.files[g].path != db.files[f].path;
      } else {
        assert mid.files[g].path in remote && !Occupied(db.files, mid.files[g].path);
        assert mid.files[g].path != db.files[f].path;
      }
    }
  }

  lemma OwnLocal(db: Db, mid: Db, disk: Disk, remote: RemoteTree, f: FileId, now: int) returns (c: string)
    requires Valid(db) && TreeOk(remote) && Tidy(db.files, remote) && f in db.files && Lone(db, remote, f) && BeforeLocal(db, mid, remote, f)
    requires db.files[f].path !in remote && NameIsGood(db, remote, f)
    ensures var p := db.files[f].path;
            var o := ReconcileLocal(mid, disk, db.files[f], remote, now);
            && o.result.Ok? && CopiedTo(db, o.result.value, f, c, None) && StillKnown(db, o.result.value, f)
            && c != p && ParentPathOf(c) == ParentPathOf(p) && c !in remote
  {
    hide Valid, ChosenCopyPath, NextConflictPath, ApplyConflict, Lone, Selected, Occupied, CopiedTo, TreeOk, Tidy, RemoteOk,
         SelectsAlone, IsConflictCopy, BeforeLocal, ParentPathOf, StillKnown;
    LoneRow(db, remote, f);
    BeforeLocalParts(db, mid, remote, f);
    ChosenLocally(db, mid, remote, f);
    StraysBeforeLocal(db, mid, remote, f);
    var p := db.files[f].path;
    c := NextConflictPath(mid.files, p).value;
    ParentStaysRooted(p);
    CopyIsBeside(mid.files, p, ParentPathOf(p).value);
    NotRecordedYet(db, mid, f);
    GoodConflict(db, mid, f, c, None, now);
    KnownAfterConflict(db, mid, f, now);
  }

  lemma BeforeLocalParts(db: Db, mid: Db, remote: RemoteTree, f: FileId)
    requires BeforeLocal(db, mid, remote, f)
    ensures Valid(mid) && f in mid.files && mid.files[f] == db.files[f] && db.nextFile <= mid.nextFile && NoNewRecord(db, mid, f) && StillKnown(db, mid, f)
    ensures forall g :: g in db.files && g in mid.files ==> mid.files[g].path == db.files[g].path
  {
  }

  lemma NotRecordedYet(db: Db, mid: Db, f: FileId)
    requires f in db.files && NoNewRecord(db, mid, f) && !IsConflictCopy(db, f, db.files[f].path)
    ensures !IsConflictCopy(mid, f, db.files[f].path)
  {
  }

  lemma KnownAfterConflict(db: Db, mid: Db, f: FileId, now: int)
    requires f in db.files && StillKnown(db, mid, f) && f in mid.files && mid.files[f] == db.files[f] && Valid(mid)
    requires ApplyConflict(mid, db.files[f], None, None, now).Ok? && NextConflictPath(mid.files, db.files[f].path).Some? && db.files[f].fid == f
    ensures StillKnown(db, ApplyConflict(mid, db.files[f], None, None, now).value, f)
  {
    hide Valid, ApplyConflict, NextConflictPath, RenameSubtree, OnlyUnfinished;
    ConflictSteps(mid, f, db.files[f], None, None, now);
  }

  lemma {:induction false} LocalPassCopies(db: Db, mid: Db, disk: Disk, remote: RemoteTree, order: seq<FileId>, f: FileId, now: int)
    requires Valid(db) && TreeOk(remote) && Tidy(db.files, remote) && f in db.files && Lone(db, remote, f) && BeforeLocal(db, mid, remote, f)
    requires Distinct(order) && (forall g :: g in order ==> g in db.files) && f in order
    requires db.files[f].path !in remote && NameIsGood(db, remote, f)
    ensures var o := LocalPass(mid, disk, db.files, order, remote, now); o.result.Ok? && CopiedBeside(db, o.result.value, remote, f)
    decreases |order|
  {
    hide Valid, Lone, ReconcileLocal, CopiedTo, StillKnown, DeleteRow, BeforeLocal, Tidy, NameIsGood, TreeOk, ParentPathOf;
    var g, rest := order[0], order[1..];
    assert g in order;
    assert forall i :: 0 <= i < |rest| ==> rest[i] == order[i + 1] && rest[i] != g;
    var o := ReconcileLocal(mid, disk, db.files[g], remote, now);
    if g == f {
      var c := OwnLocal(db, mid, disk, remote, f, now);
      LocalPassAfter(db, o.result.value, o.disk, remote, rest, f, c, now);
    } else {
      BeforeLocalParts(db, mid, remote, f);
      QuietLocalStep(db, mid, disk, remote, g, f, now);
      if o.result.value != mid { BeforeLocalDrop(db, mid, remote, g, f); }
      assert f in rest;
      LocalPassCopies(db, o.result.value, o.disk, remote, rest, f, now);
    }
  }

  // ---- The good orders ----

  /** The first pass drops neither rows nor records. */
  lemma {:induction false} RemotePassGrows(mid: Db, snapshot: Files, remote: RemoteTree, order: seq<string>, now: int)
    requires (forall q :: q in order ==> q in remote) && RemotePass(mid, snapshot, remote, order, now).Ok?
    ensures var after := RemotePass(mid, snapshot, remote, order, now).value; mid.files.Keys <= after.files.Keys && mid.conflicts <= after.conflicts
    decreases |order|
  {
    hide ReconcileRemote;
    if order != [] {
      var q := order[0];
      RemoteStepGrows(mid, LocalAt(snapshot, remote[q].path), remote[q], now);
      RemotePassGrows(ReconcileRemote(mid, LocalAt(snapshot, remote[q].path), remote[q], now).value, snapshot, remote, order[1..], now);
    }
  }

  lemma ConflictGrows(mid: Db, entry: Row, current: Option<string>, at: Option<RemoteEntry>, now: int)
    requires ApplyConflict(mid, entry, current, at, now).Ok?
    ensures var after := ApplyConflict(mid, entry, current, at, now).value; mid.files.Keys <= after.files.Keys && mid.conflicts <= after.conflicts
  {
    hide NextConflictPath, RenameSubtree, RemoteUpdate, RemoteInsert;
    RenameKeepsKeys(mid.files, entry.path, DestinationAt(NextConflictPath(mid.files, entry.path).value));
  }

  lemma RemoteStepGrows(mid: Db, local: Option<Row>, at: RemoteEntry, now: int)
    requires ReconcileRemote(mid, local, at, now).Ok?
    ensures var after := ReconcileRemote(mid, local, at, now).value; mid.files.Keys <= after.files.Keys && mid.conflicts <= after.conflicts
  {
    hide ApplyConflict, RemoteUpdate, RemoteInsert;
    if local.Some? && ApplyConflict(mid, local.value, at.version, Some(at), now).Ok? {
      ConflictGrows(mid, local.value, at.version, Some(at), now);
    }
  }

  lemma GrownIsKnown(db: Db, mid: Db, f: FileId)
    requires db.files.Keys <= mid.files.Keys && db.conflicts <= mid.conflicts
    ensures StillKnown(db, mid, f)
  {
  }

  lemma ChosenIsBeside(db: Db, remote: RemoteTree, f: FileId)
    requires Valid(db) && f in db.files && db.files[f].path != ROOT && ROOT <= db.files[f].path && ChosenCopyPath(db, remote, f).Some?
    requires db.files[f].path in remote
    ensures var c := ChosenCopyPath(db, remote, f).value; c != db.files[f].path && ParentPathOf(c) == ParentPathOf(db.files[f].path)
  {
    hide ConflictNames.NextConflictName, ParentPathOf, NameOf;
    ParentStaysRooted(db.files[f].path);
    var parent := ParentPathOf(db.files[f].path).value;
    assert UsedNames(db.files, parent) + {} == UsedNames(db.files, parent);
    CopyIsBeside(db.files, db.files[f].path, parent);
  }

  /** With a good name every order ends well. */
  lemma GoodNameEndsWell(db: Db, disk: Disk, remote: RemoteTree, f: FileId, remoteOrder: seq<string>, localOrder: seq<FileId>, now: int)
    requires Valid(db) && TreeOk(remote) && Tidy(db.files, remote) && f in db.files && Lone(db, remote, f) && NameIsGood(db, remote, f)
    requires Enumerates(remoteOrder, remote.Keys) && Enumerates(localOrder, db.files.Keys)
    ensures var o := Reconcile(db, disk, remote, remoteOrder, localOrder, now); o.result.Ok? && CopiedBeside(db, o.result.value, remote, f)
  {
    hide Valid, Lone, RemotePass, LocalPass, CopiedTo, StillKnown, BeforeLocal, Tidy, TreeOk, Before, ParentPathOf, IsConflictCopy,
         ReconcileRemote, ChosenCopyPath, SelectsAlone, Occupied;
    var p := db.files[f].path;
    LoneRow(db, remote, f);
    StartsBefore(db, f);
    if p in remote {
      RemotePassCopies(db, db, remote, {}, remoteOrder, f, now);
      var mid := RemotePass(db, db.files, remote, remoteOrder, now).value;
      var c := ChosenCopyPath(db, remote, f).value;
      ChosenIsBeside(db, remote, f);
      RemotePassGrows(db, db.files, remote, remoteOrder, now);
      GrownIsKnown(db, mid, f);
      LocalPassAfter(db, mid, disk, remote, localOrder, f, c, now);
    } else {
      RemotePassBefore(db, db, remote, {}, remoteOrder, remote.Keys, f, now);
      var mid := RemotePass(db, db.files, remote, remoteOrder, now).value;
      BeforeLocalStarts(db, mid, remote, f);
      LocalPassCopies(db, mid, disk, remote, localOrder, f, now);
    }
  }

  // ---- The bad orders ----

  ghost function Enumeration<T(!new)>(s: set<T>): (order: seq<T>)
    ensures Enumerates(order, s)
  {
    if s == {} then []
    else
      var x :| x in s;
      [x] + Enumeration(s - {x})
  }

  /** One element first. */
  ghost function FirstOf<T(!new)>(x: T, s: set<T>): (order: seq<T>)
    requires x in s
    ensures Enumerates(order, s) && order != [] && order[0] == x && order[1..] == Enumeration(s - {x})
  {
    [x] + Enumeration(s - {x})
  }

  /** One element last. */
  ghost function LastOf<T(!new)>(x: T, s: set<T>): (order: seq<T>)
    requires x in s
    ensures Enumerates(order, s) && order == Enumeration(s - {x}) + [x]
  {
    Enumeration(s - {x}) + [x]
  }

  lemma {:induction false} RemotePassSplit(db: Db, snapshot: Files, remote: RemoteTree, a: seq<string>, b: seq<string>, now: int)
    requires forall q :: q in a + b ==> q in remote
    ensures forall q :: (q in a ==> q in remote) && (q in b ==> q in remote)
    ensures RemotePass(db, snapshot, remote, a + b, now)
            == match RemotePass(db, snapshot, remote, a, now) case Err(e) => Err(e) case Ok(mid) => RemotePass(mid, snapshot, remote, b, now)
    decreases |a|
  {
    hide ReconcileRemote;
    assert forall q :: q in a || q in b ==> q in a + b;
    if a == [] {
      assert a + b == b;
    } else {
      assert (a + b)[0] == a[0] && (a + b)[1..] == a[1..] + b;
      var r := ReconcileRemote(db, LocalAt(snapshot, remote[a[0]].path), remote[a[0]], now);
      if r.Ok? { RemotePassSplit(r.value, snapshot, remote, a[1..], b, now); }
    }
  }

  /** A row of the table that is selected, or one that holds the chosen path, makes the conflict fail. */
  lemma BadConflict(db: Db, mid: Db, remote: RemoteTree, f: FileId, g: FileId, at: Option<RemoteEntry>, now: int)
    requires f in db.files && Valid(mid) && f in mid.files && mid.files[f] == db.files[f] && db.files[f].path != ROOT
    requires g in mid.files && mid.files[g].path != db.files[f].path
    requires Selected(db.files[f].path, mid.files[g].path) ==> !(db.files[f].path <= mid.files[g].path)
    requires Selected(db.files[f].path, mid.files[g].path) || NextConflictPath(mid.files, db.files[f].path) == Some(mid.files[g].path)
    ensures ApplyConflict(mid, db.files[f], VersionOf(at), at, now).Err?
  {
    hide Valid, ApplyConflict, NextConflictPath;
    if Selected(db.files[f].path, mid.files[g].path) {
      hide SqlLike.LikeBelow;
      StrayRowFails(mid, f, g, VersionOf(at), at, now);
    } else {
      TakenNameFails(mid, f, g, VersionOf(at), at, now);
    }
  }

  /** What makes a row a stray for the conflict of `f` in a table. */
  predicate Stray(mid: Db, p: string, g: FileId) { g in mid.files && mid.files[g].path != p && Selected(p, mid.files[g].path) }

  /** With the conflict's turn first, the first pass fails for an unusable name or a stray row of the table. */
  lemma FirstTurnFails(db: Db, remote: RemoteTree, f: FileId, now: int)
    requires Valid(db) && TreeOk(remote) && f in db.files && Lone(db, remote, f) && NothingPrefixed(db.files, remote, db.files[f].path)
    requires db.files[f].path in remote
    requires var c := NextConflictPath(db.files, db.files[f].path);
             c.None? || Occupied(db.files, c.value) || exists g :: Stray(db, db.files[f].path, g)
    ensures RemotePass(db, db.files, remote, FirstOf(db.files[f].path, remote.Keys), now).Err?
  {
    hide Valid, ApplyConflict, NextConflictPath, Selected, TreeOk, Lone, IsConflictCopy;
    LoneRow(db, remote, f);
    var p := db.files[f].path;
    var c := NextConflictPath(db.files, p);
    if c.None? {
      OverflowIsAnError(db, db.files[f], remote[p].version, Some(remote[p]), now);
    } else if g :| Stray(db, p, g) {
      BadConflict(db, db, remote, f, g, Some(remote[p]), now);
    } else {
      var g :| g in db.files && db.files[g].path == c.value;
      ChosenPath(db.files, p);
      BadConflict(db, db, remote, f, g, Some(remote[p]), now);
    }
  }

  /** With the conflict's turn last, it also fails for a stray remote object. */
  lemma LastTurnFails(db: Db, remote: RemoteTree, f: FileId, q: string, now: int)
    requires Valid(db) && TreeOk(remote) && f in db.files && Lone(db, remote, f) && NothingPrefixed(db.files, remote, db.files[f].path)
    requires db.files[f].path in remote && q in remote && q != db.files[f].path && Selected(db.files[f].path, q)
    ensures RemotePass(db, db.files, remote, LastOf(db.files[f].path, remote.Keys), now).Err?
  {
    hide Valid, ApplyConflict, NextConflictPath, Selected, TreeOk, Lone, IsConflictCopy, Before, RemotePass;
    LoneRow(db, remote, f);
    var p := db.files[f].path;
    var others := Enumeration(remote.Keys - {p});
    StartsBefore(db, f);
    RemotePassBefore(db, db, remote, {}, others, remote.Keys - {p}, f, now);
    RemotePassSplit(db, db.files, remote, others, [p], now);
    var mid := RemotePass(db, db.files, remote, others, now).value;
    BeforeIsValid(db, mid, remote.Keys - {p}, f);
    var g := HolderBefore(db, mid, remote.Keys - {p}, f, q);
    BadConflict(db, mid, remote, f, g, Some(remote[p]), now);
    OneStepPass(mid, db.files, remote, p, now);
  }

  lemma HolderBefore(db: Db, mid: Db, done: set<string>, f: FileId, q: string) returns (g: FileId)
    requires Before(db, mid, done, f) && q in done
    ensures g in mid.files && mid.files[g].path == q
  {
    hide Valid;
    assert Occupied(mid.files, q);
    g :| g in mid.files && mid.files[g].path == q;
  }

  lemma OneStepPass(mid: Db, snapshot: Files, remote: RemoteTree, p: string, now: int)
    requires p in remote
    ensures RemotePass(mid, snapshot, remote, [p], now).Err? <==> ReconcileRemote(mid, LocalAt(snapshot, remote[p].path), remote[p], now).Err?
  {
    hide ReconcileRemote;
    assert [p][1..] == [];
  }

  // ---- A name that is taken remotely ----

  /** The copy stands at a path where there is a remote object, and once that object's turn has come it knows
      its version. */
  predicate AtForeignPath(db: Db, f: FileId, c: string, version: Option<string>, met: bool) {
    f in db.files && db.files[f].path == c && db.files[f].state.QueuedUpload? && (met ==> db.files[f].remoteVersion == version)
  }

  lemma AdoptingStep(mid: Db, after: Db, f: FileId, c: string, version: Option<string>, met: bool, q: string, version2: Option<string>)
    requires AtForeignPath(mid, f, c, version, met) && OnlyRefreshed(mid, after, q, version2) && (q == c ==> version2 == version)
    ensures AtForeignPath(after, f, c, version, met || q == c)
  {
    hide Valid, SameQueueOf;
  }

  lemma {:induction false} AdoptingPass(db: Db, mid: Db, remote: RemoteTree, order: seq<string>, f: FileId, c: string, met: bool, now: int)
    requires Valid(db) && Valid(mid) && TreeOk(remote) && f in db.files && Lone(db, remote, f) && c in remote
    requires AtForeignPath(mid, f, c, remote[c].version, met) && forall q :: q in order ==> q in remote && q != db.files[f].path
    ensures var r := RemotePass(mid, db.files, remote, order, now);
            r.Ok? && AtForeignPath(r.value, f, c, remote[c].version, met || c in order)
    decreases |order|
  {
    hide Valid, Lone, ReconcileRemote, OnlyRefreshed, RemoteOk, AtForeignPath;
    if order != [] {
      var q := order[0];
      assert q in order;
      QuietStep(db, mid, remote, q, f, now);
      var mid1 := ReconcileRemote(mid, LocalAt(db.files, q), remote[q], now).value;
      AdoptingStep(mid, mid1, f, c, remote[c].version, met, q, remote[q].version);
      AdoptingPass(db, mid1, remote, order[1..], f, c, met || q == c, now);
    }
  }

  lemma {:induction false} AdoptedLocally(db: Db, mid: Db, disk: Disk, remote: RemoteTree, order: seq<FileId>, f: FileId, c: string, now: int)
    requires Valid(db) && f in db.files && Lone(db, remote, f) && StillKnown(db, mid, f) && c in remote
    requires AtForeignPath(mid, f, c, remote[c].version, true)
    requires (forall g :: g in order ==> g in db.files) && db.files[f].path in remote
    ensures var o := LocalPass(mid, disk, db.files, order, remote, now);
            o.result.Ok? && AtForeignPath(o.result.value, f, c, remote[c].version, true)
    decreases |order|
  {
    hide Valid, Lone, ReconcileLocal, StillKnown;
    if order != [] {
      var g := order[0];
      assert g in order;
      QuietLocalStep(db, mid, disk, remote, g, f, now);
      var o := ReconcileLocal(mid, disk, db.files[g], remote, now);
      if o.result.value != mid { StillKnownAfterDrop(db, mid, g, f); }
      AdoptedLocally(db, o.result.value, o.disk, remote, order[1..], f, c, now);
    }
  }

  /** The search for a free name looks at the table only. If the name it finds is that of a remote object the
      table has no row for yet, and the conflict's turn comes first, the copy ends at that object's path and
      adopts its version, still waiting for upload: the next upload will find nothing wrong and replace
      the foreign object. */
  lemma CopyAdoptsForeignVersion(db: Db, disk: Disk, remote: RemoteTree, f: FileId, c: string, localOrder: seq<FileId>, now: int)
    requires Valid(db) && TreeOk(remote) && f in db.files && Lone(db, remote, f) && db.files[f].path in remote
    requires NextConflictPath(db.files, db.files[f].path) == Some(c) && !Occupied(db.files, c) && c in remote
    requires forall g :: g in db.files && g != f ==> !Selected(db.files[f].path, db.files[g].path)
    requires Enumerates(localOrder, db.files.Keys)
    ensures var o := Reconcile(db, disk, remote, FirstOf(db.files[f].path, remote.Keys), localOrder, now);
            && o.result.Ok? && f in o.result.value.files
            && var copy := o.result.value.files[f];
               copy.path == c && copy.state.QueuedUpload? && copy.remoteVersion == remote[c].version
  {
    hide Valid, Lone, LocalPass, CopiedTo, StillKnown, TreeOk, IsConflictCopy, ApplyConflict, NextConflictPath, Selected, Occupied;
    var p := db.files[f].path;
    LoneRow(db, remote, f);
    ChosenPath(db.files, p);
    GoodConflict(db, db, f, c, Some(remote[p]), now);
    var mid1 := ApplyConflict(db, db.files[f], remote[p].version, Some(remote[p]), now).value;
    var rest := Enumeration(remote.Keys - {p});
    CopiedIsAt(db, mid1, f, c, remote);
    AdoptingPass(db, mid1, remote, rest, f, c, false, now);
    var order := FirstOf(p, remote.Keys);
    assert RemotePass(db, db.files, remote, order, now) == RemotePass(mid1, db.files, remote, rest, now);
    RemotePassGrows(db, db.files, remote, order, now);
    var mid := RemotePass(mid1, db.files, remote, rest, now).value;
    GrownIsKnown(db, mid, f);
    AdoptedLocally(db, mid, disk, remote, localOrder, f, c, now);
  }

  lemma CopiedIsAt(db: Db, mid: Db, f: FileId, c: string, remote: RemoteTree)
    requires f in db.files && c in remote && db.files[f].path in remote && CopiedTo(db, mid, f, c, ForeignAt(remote, db.files[f].path))
    ensures Valid(mid) && AtForeignPath(mid, f, c, remote[c].version, false)
  {
    hide Valid;
  }

  // ---- Gone remotely ----

  lemma FirstLocalTurnFails(db: Db, disk: Disk, remote: RemoteTree, f: FileId, mid: Db, now: int)
    requires Valid(db) && TreeOk(remote) && f in db.files && Lone(db, remote, f) && NothingPrefixed(db.files, remote, db.files[f].path)
    requires db.files[f].path !in remote && Before(db, mid, remote.Keys, f) && !NameIsGood(db, remote, f)
    ensures LocalPass(mid, disk, db.files, FirstOf(f, db.files.Keys), remote, now).result.Err?
  {
    hide Valid, ApplyConflict, Selected, TreeOk, Lone, IsConflictCopy, Before, ConflictNames.NextConflictName, UsedNames, NewNames,
         ParentPathOf, NameOf, LastSlash, Join;
    LoneRow(db, remote, f);
    BeforeIsValid(db, mid, remote.Keys, f);
    var p := db.files[f].path;
    ParentStaysRooted(p);
    NamesBefore(db, mid, remote.Keys, f, ParentPathOf(p).value);
    var c := NextConflictPath(mid.files, p);
    assert c == ChosenCopyPath(db, remote, f);
    NoRecordBefore(db, mid, remote.Keys, f);
    if c.None? {
      OverflowIsAnError(mid, db.files[f], None, None, now);
    } else {
      ChosenPath(mid.files, p);
      var g := Culprit(db, mid, remote, f, c.value);
      BadConflict(db, mid, remote, f, g, None, now);
    }
  }

  lemma NoRecordBefore(db: Db, mid: Db, done: set<string>, f: FileId)
    requires f in db.files && Before(db, mid, done, f)
    ensures IsConflictCopy(mid, f, db.files[f].path) <==> IsConflictCopy(db, f, db.files[f].path)
  {
  }

  /** The row that spoils the conflict: a stray, or the holder of the chosen path. */
  lemma Culprit(db: Db, mid: Db, remote: RemoteTree, f: FileId, c: string) returns (g: FileId)
    requires Valid(db) && f in db.files && Before(db, mid, remote.Keys, f) && NothingPrefixed(db.files, remote, db.files[f].path)
    requires Occupied(db.files, c) || c in remote || !SelectsAlone(db.files, remote, db.files[f].path)
    requires c != db.files[f].path
    ensures g in mid.files && mid.files[g].path != db.files[f].path
    ensures Selected(db.files[f].path, mid.files[g].path) ==> !(db.files[f].path <= mid.files[g].path)
    ensures Selected(db.files[f].path, mid.files[g].path) || mid.files[g].path == c
  {
    hide Selected, Valid;
    var p := db.files[f].path;
    if Occupied(db.files, c) {
      g :| g in db.files && db.files[g].path == c;
    } else if c in remote {
      g := HolderBefore(db, mid, remote.Keys, f, c);
    } else if h :| h in db.files && db.files[h].path != p && Selected(p, db.files[h].path) {
      g := h;
    } else {
      var q :| q in remote && q != p && Selected(p, q);
      g := HolderBefore(db, mid, remote.Keys, f, q);
    }
    assert g in db.files ==> mid.files[g].path == db.files[g].path;
    assert g !in db.files ==> mid.files[g].path in remote;
  }

  // ---- The exact condition ----

  ghost predicate EndsWell(db: Db, disk: Disk, remote: RemoteTree, f: FileId, remoteOrder: seq<string>, localOrder: seq<FileId>, now: int)
    requires f in db.files && Enumerates(remoteOrder, remote.Keys) && Enumerates(localOrder, db.files.Keys)
  {
    var o := Reconcile(db, disk, remote, remoteOrder, localOrder, now);
    o.result.Ok? && CopiedBeside(db, o.result.value, remote, f)
  }

  /** A bad name or a stray spoils the reconcile in some order. */
  lemma BadNameEndsBadly(db: Db, disk: Disk, remote: RemoteTree, f: FileId, now: int) returns (remoteOrder: seq<string>, localOrder: seq<FileId>)
    requires Valid(db) && TreeOk(remote) && f in db.files && Lone(db, remote, f) && NothingPrefixed(db.files, remote, db.files[f].path)
    requires !NameIsGood(db, remote, f)
    ensures Enumerates(remoteOrder, remote.Keys) && Enumerates(localOrder, db.files.Keys)
    ensures !EndsWell(db, disk, remote, f, remoteOrder, localOrder, now)
  {
    hide Valid, TreeOk, Lone, Before, Selected, LocalPass, RemotePass, CopiedTo, ParentPathOf, IsConflictCopy, ConflictNames.NextConflictName,
         UsedNames, NewNames, NameOf;
    var p := db.files[f].path;
    LoneRow(db, remote, f);
    localOrder := FirstOf(f, db.files.Keys);
    if p !in remote {
      remoteOrder := Enumeration(remote.Keys);
      StartsBefore(db, f);
      RemotePassBefore(db, db, remote, {}, remoteOrder, remote.Keys, f, now);
      FirstLocalTurnFails(db, disk, remote, f, RemotePass(db, db.files, remote, remoteOrder, now).value, now);
    } else {
      var c := NextConflictPath(db.files, p);
      ChosenHere(db, remote, f);
      remoteOrder := FirstOf(p, remote.Keys);
      if c.None? || Occupied(db.files, c.value) || exists g :: Stray(db, p, g) {
        FirstTurnFails(db, remote, f, now);
      } else if c.value in remote {
        NoStrays(db, f);
        CopyAdoptsForeignVersion(db, disk, remote, f, c.value, localOrder, now);
        ForeignPathIsNotBeside(db, Reconcile(db, disk, remote, remoteOrder, localOrder, now).result.value, remote, f);
      } else {
        var q := StrayObject(db, remote, f);
        remoteOrder := LastOf(p, remote.Keys);
        LastTurnFails(db, remote, f, q, now);
      }
    }
  }

  lemma ChosenHere(db: Db, remote: RemoteTree, f: FileId)
    requires f in db.files && db.files[f].path in remote
    ensures ChosenCopyPath(db, remote, f) == NextConflictPath(db.files, db.files[f].path)
  {
    hide ConflictNames.NextConflictName, ParentPathOf, NameOf, UsedNames;
    var parent := match ParentPathOf(db.files[f].path) case Some(d) => d case None => ROOT;
    assert UsedNames(db.files, parent) + {} == UsedNames(db.files, parent);
  }

  lemma NoStrays(db: Db, f: FileId)
    requires Valid(db) && f in db.files && !exists g :: Stray(db, db.files[f].path, g)
    ensures forall g :: g in db.files && g != f ==> !Selected(db.files[f].path, db.files[g].path)
  {
    hide Selected, RowOk, OpsOk;
    forall g | g in db.files && g != f
      ensures !Selected(db.files[f].path, db.files[g].path)
    {
      assert !Stray(db, db.files[f].path, g);
      UniqueHere(db, f);
    }
  }

  lemma StrayObject(db: Db, remote: RemoteTree, f: FileId) returns (q: string)
    requires f in db.files && !SelectsAlone(db.files, remote, db.files[f].path) && !exists g :: Stray(db, db.files[f].path, g)
    ensures q in remote && q != db.files[f].path && Selected(db.files[f].path, q)
  {
    hide Selected;
    assert forall g :: g in db.files && db.files[g].path != db.files[f].path && Selected(db.files[f].path, db.files[g].path)
             ==> Stray(db, db.files[f].path, g);
    q :| q in remote && q != db.files[f].path && Selected(db.files[f].path, q);
  }

  lemma ForeignPathIsNotBeside(db: Db, after: Db, remote: RemoteTree, f: FileId)
    requires f in db.files && f in after.files && after.files[f].path in remote
    ensures !CopiedBeside(db, after, remote, f)
  {
    hide Valid;
  }

  /** One conflicting row with nothing below it: whatever the order, the reconcile commits with the local version
      as a recorded copy beside the original and the foreign version, under a new id, in its place (or
      nothing there if the object is gone), if and only if the name it chooses is free of hidden rows and
      of remote objects and the query for the row selects it alone. */
  lemma CopiedInEveryOrderIff(db: Db, disk: Disk, remote: RemoteTree, f: FileId, now: int)
    requires Valid(db) && TreeOk(remote) && Tidy(db.files, remote) && f in db.files && Lone(db, remote, f)
    requires NothingPrefixed(db.files, remote, db.files[f].path)
    ensures (forall remoteOrder, localOrder :: Enumerates(remoteOrder, remote.Keys) && Enumerates(localOrder, db.files.Keys)
               ==> EndsWell(db, disk, remote, f, remoteOrder, localOrder, now))
            <==> NameIsGood(db, remote, f)
  {
    hide Valid, TreeOk, Tidy, Lone, Reconcile, CopiedBeside, NameIsGood;
    if NameIsGood(db, remote, f) {
      forall remoteOrder, localOrder | Enumerates(remoteOrder, remote.Keys) && Enumerates(localOrder, db.files.Keys)
        ensures EndsWell(db, disk, remote, f, remoteOrder, localOrder, now)
      {
        GoodNameEndsWell(db, disk, remote, f, remoteOrder, localOrder, now);
      }
    } else {
      var remoteOrder, localOrder := BadNameEndsBadly(db, disk, remote, f, now);
    }
  }
}
