/** Writing through a handle: the staging file as bytes, and what commits make of it. */
module WriteHandles {
  import opened Wrappers
  import opened RemotePaths
  import opened Tables
  import opened SyncSteps
  import opened TableInvariants
  import opened HelperSoundness

  datatype Edit = WriteAt(offset: nat, data: Bytes) | SetLength(size: nat)

  function Zeros(n: nat): (z: Bytes)
    ensures |z| == n && forall i :: 0 <= i < n ==> z[i] == 0
  {
    if n == 0 then [] else Zeros(n - 1) + [0]
  }

  function Resized(b: Bytes, n: nat): Bytes {
    if n <= |b| then b[..n] else b + Zeros(n - |b|)
  }

  /** `write_local_range` and `set_len`. Seeking past the end without writing leaves the file alone. */
  function Changed(b: Bytes, e: Edit): Bytes {
    match e
    case SetLength(n) => Resized(b, n)
    case WriteAt(offset, data) =>
      if data == [] then b
      else
        var end := offset + |data|;
        var base := if |b| < end then Resized(b, end) else b;
        base[..offset] + data + base[end..]
  }

  function Folded(b: Bytes, edits: seq<Edit>): Bytes {
    if edits == [] then b else Changed(Folded(b, edits[..|edits| - 1]), edits[|edits| - 1])
  }

  // ---- The plain byte array ----

  function LengthAfter(n: nat, edits: seq<Edit>): nat {
    if edits == [] then n
    else
      var before := LengthAfter(n, edits[..|edits| - 1]);
      match edits[|edits| - 1]
      case SetLength(size) => size
      case WriteAt(offset, data) => if data == [] || offset + |data| <= before then before else offset + |data|
  }

  /** The last edit that reaches position `i` decides: the byte written there, or zero if the file was
      cut short of it; positions nobody reached keep the first content, zero past its end. */
  function ByteAfter(b: Bytes, edits: seq<Edit>, i: nat): byte {
    if edits == [] then if i < |b| then b[i] else 0
    else
      match edits[|edits| - 1]
      case SetLength(size) => if size <= i then 0 else ByteAfter(b, edits[..|edits| - 1], i)
      case WriteAt(offset, data) =>
        if offset <= i < offset + |data| then data[i - offset] else ByteAfter(b, edits[..|edits| - 1], i)
  }

  lemma {:induction false} PastTheEndIsZero(b: Bytes, edits: seq<Edit>, i: nat)
    requires LengthAfter(|b|, edits) <= i
    ensures ByteAfter(b, edits, i) == 0
  {
    if edits != [] && (edits[|edits| - 1].WriteAt? || i < edits[|edits| - 1].size) {
      PastTheEndIsZero(b, edits[..|edits| - 1], i);
    }
  }

  /** One edit: the new length, the bytes it writes, the bytes it leaves, and zeros in between. */
  lemma ChangedAt(b: Bytes, e: Edit, i: nat)
    ensures |Changed(b, e)| == (match e
                                case SetLength(n) => n
                                case WriteAt(offset, data) => if data == [] || offset + |data| <= |b| then |b| else offset + |data|)
    ensures i < |Changed(b, e)| ==>
              Changed(b, e)[i] == if e.WriteAt? && e.offset <= i < e.offset + |e.data| then e.data[i - e.offset]
                                  else if i < |b| then b[i] else 0
  {
  }

  /** Any sequence of writes and truncations gives exactly the plain byte array. */
  lemma {:induction false} FoldedIsByteArray(b: Bytes, edits: seq<Edit>)
    ensures |Folded(b, edits)| == LengthAfter(|b|, edits)
    ensures forall i: nat :: i < |Folded(b, edits)| ==> Folded(b, edits)[i] == ByteAfter(b, edits, i)
  {
    hide Changed;
    if edits != [] {
      var init, last := edits[..|edits| - 1], edits[|edits| - 1];
      var before := Folded(b, init);
      FoldedIsByteArray(b, init);
      ChangedAt(before, last, 0);
      forall i: nat | i < |Changed(before, last)|
        ensures Changed(before, last)[i] == ByteAfter(b, edits, i)
      {
        ChangedAt(before, last, i);
        if |before| <= i { PastTheEndIsZero(b, init, i); }
      }
    }
  }

  // ---- A handle from open to close ----

  /** One open handle on the file at a path, with nobody else writing to that file. */
  datatype Session = Session(db: Db, disk: Disk, staging: Bytes, dirty: bool)

  datatype Event = Change(edit: Edit) | Flush(now: int)

  /** `commit_write_handle`, which flush, fsync and release all call. */
  ghost function Flushed(s: Session, path: string, now: int): Session {
    if !s.dirty then s
    else
      match RowAt(s.db.files, path)
      case None => s
      case Some(f) =>
        if s.db.files[f].kind.Directory? then s
        else
          match CommitLocal(s.db, s.db.files[f], |s.staging|, now)
          case Err(_) => s
          case Ok(db) => Session(db, s.disk[CacheOf(s.db.files[f]) := s.staging], s.staging, false)
  }

  ghost function Stepped(s: Session, path: string, e: Event): Session {
    match e
    case Change(edit) => s.(staging := Changed(s.staging, edit), dirty := true)
    case Flush(now) => Flushed(s, path, now)
  }

  ghost function After(s: Session, path: string, events: seq<Event>): Session {
    if events == [] then s else Stepped(After(s, path, events[..|events| - 1]), path, events[|events| - 1])
  }

  function Edits(events: seq<Event>): seq<Edit> {
    if events == [] then []
    else
      var before := Edits(events[..|events| - 1]);
      match events[|events| - 1] case Change(edit) => before + [edit] case Flush(_) => before
  }

  function DirtyAfter(dirty: bool, events: seq<Event>): bool {
    if events == [] then dirty else events[|events| - 1].Change?
  }

  /** Flushes that found something to commit. */
  function Commits(dirty: bool, events: seq<Event>): nat {
    if events == [] then 0
    else
      var init := events[..|events| - 1];
      Commits(dirty, init) + if events[|events| - 1].Flush? && DirtyAfter(dirty, init) then 1 else 0
  }

  /** The file stays at its path. */
  ghost predicate Holds(s: Session, path: string, f: FileId) {
    Valid(s.db) && f in s.db.files && s.db.files[f].path == path && s.db.files[f].kind.File?
  }

  /** What `load_local_bytes` finds without fetching. */
  function LocalBytes(db: Db, disk: Disk, f: FileId): Option<Bytes>
    requires f in db.files
  {
    var row := db.files[f];
    if row.cachePath.Some? && row.cachePath.value in disk then Some(disk[row.cachePath.value]) else None
  }

  /** A clean handle's staging file is what the service has, with the matching size. */
  predicate Settled(s: Session, f: FileId)
    requires f in s.db.files
  {
    !s.dirty ==> LocalBytes(s.db, s.disk, f) == Some(s.staging) && s.db.files[f].size == |s.staging|
  }

  lemma CommitOutcome(db: Db, f: FileId, size: nat, now: int)
    requires Valid(db) && f in db.files
    ensures var entry := db.files[f]; var r := CommitLocal(db, entry, size, now);
            && entry.fid == f && r.Ok? && Valid(r.value) && f in r.value.files
            && r.value.files == db.files[f := Edited(entry, CacheOf(entry), size)]
  {
    hide ParentPathOf, NameOf, UpsertOperation, QueueKept;
    var entry := db.files[f];
    assert RowOk(entry) && entry.fid == f;
    var db1 := db.(files := db.files[f := Edited(entry, CacheOf(entry), size)]);
    UpsertSucceedsIff(db1, f, Upload, PathPayload(entry.path), false, false, now);
    CommitLocalSound(db, entry, size, now);
    UpsertKeepsTables(db1, f, Upload, PathPayload(entry.path), false, false, now);
  }

  lemma HeldRow(s: Session, path: string, f: FileId)
    requires Holds(s, path, f)
    ensures RowAt(s.db.files, path) == Some(f)
  {
    hide RowOk, OpsOk, References;
  }

  /** Only the row and its own cache file differ. */
  ghost predicate OthersKept(s: Session, t: Session, f: FileId) {
    && (forall g :: g in s.db.files && g != f ==> g in t.db.files && t.db.files[g] == s.db.files[g])
    && t.db.files.Keys == s.db.files.Keys
    && forall c :: c != CachePathFor(f) ==> (c in t.disk <==> c in s.disk) && (c in s.disk ==> t.disk[c] == s.disk[c])
  }

  lemma KeptTransitive(s: Session, t: Session, u: Session, f: FileId)
    requires OthersKept(s, t, f) && OthersKept(t, u, f)
    ensures OthersKept(s, u, f)
  {
  }

  lemma NothingElse(s: Session, f: FileId)
    ensures OthersKept(s, s, f)
  {
  }

  lemma OwnCache(db: Db, f: FileId)
    requires Valid(db) && f in db.files
    ensures CacheOf(db.files[f]) == CachePathFor(f)
  {
    assert RowOk(db.files[f]);
  }

  lemma StepHolds(s: Session, path: string, f: FileId, e: Event)
    requires Holds(s, path, f)
    ensures var t := Stepped(s, path, e);
            && Holds(t, path, f)
            && t.dirty == (if e.Change? then true else false)
            && t.staging == (if e.Change? then Changed(s.staging, e.edit) else s.staging)
            && t.db.files[f].localVersion == s.db.files[f].localVersion + (if e.Flush? && s.dirty then 1 else 0)
            && (Settled(t, f) <==> Settled(s, f) || e.Change? || (e.Flush? && s.dirty))
            && OthersKept(s, t, f)
  {
    hide Valid, CommitLocal, Changed;
    OwnCache(s.db, f);
    if e.Flush? && s.dirty {
      HeldRow(s, path, f);
      CommitOutcome(s.db, f, |s.staging|, e.now);
    }
  }

  /** Any sequence of writes, truncations and flushes on one handle: the staging file is the fold of the
      edits, and the local version grows by one for each flush that had something to commit. The handle is
      settled afterwards exactly when it was at the start, is dirty now, or has committed in between. No other
      row and no other cache file changes. */
  lemma {:induction false} HandleRefinesBytes(s: Session, path: string, f: FileId, events: seq<Event>)
    requires Holds(s, path, f)
    ensures var t := After(s, path, events);
            && Holds(t, path, f)
            && t.staging == Folded(s.staging, Edits(events))
            && t.dirty == DirtyAfter(s.dirty, events)
            && t.db.files[f].localVersion == s.db.files[f].localVersion + Commits(s.dirty, events)
            && (Settled(t, f) <==> Settled(s, f) || t.dirty || Commits(s.dirty, events) > 0)
            && OthersKept(s, t, f)
  {
    hide Holds, Stepped, Changed, LocalBytes, OthersKept;
    NothingElse(s, f);
    if events != [] {
      var init, last := events[..|events| - 1], events[|events| - 1];
      HandleRefinesBytes(s, path, f, init);
      StepHolds(After(s, path, init), path, f, last);
      KeptTransitive(s, After(s, path, init), After(s, path, events), f);
      assert Edits(events) == if last.Change? then Edits(init) + [last.edit] else Edits(init);
      if last.Change? {
        assert (Edits(init) + [last.edit])[..|Edits(init)|] == Edits(init);
      }
    }
  }

  /** Without a file at the path, because it is gone or is a directory, no edit and no flush reaches the service. */
  lemma {:induction false} NothingToWriteTo(s: Session, path: string, events: seq<Event>)
    requires match RowAt(s.db.files, path) case Some(f) => s.db.files[f].kind.Directory? case None => true
    ensures After(s, path, events).db == s.db && After(s, path, events).disk == s.disk
  {
    if events != [] {
      NothingToWriteTo(s, path, events[..|events| - 1]);
    }
  }

  /** A clean handle stays clean as long as nothing is edited, and any edit before the last flush is
      committed by it or by an earlier one. */
  lemma {:induction false} EditsAreCommitted(events: seq<Event>)
    requires events != [] && events[|events| - 1].Flush?
    ensures Commits(false, events) > 0 <==> Edits(events) != []
    ensures Commits(true, events) > 0
  {
    var init := events[..|events| - 1];
    if init != [] {
      if init[|init| - 1].Flush? {
        EditsAreCommitted(init);
      } else {
        assert Edits(init) != [];
      }
    }
  }

  /** After a final flush the service holds exactly the byte array the edits describe, with the matching
      size, if and only if the handle was settled at the start or something was edited. */
  lemma FlushedFileIsByteArrayIff(s: Session, path: string, f: FileId, events: seq<Event>)
    requires Holds(s, path, f) && events != [] && events[|events| - 1].Flush?
    ensures var t := After(s, path, events);
            && f in t.db.files
            && ((LocalBytes(t.db, t.disk, f).Some? && IsByteArray(LocalBytes(t.db, t.disk, f).value, s.staging, Edits(events))
                 && t.db.files[f].size == LengthAfter(|s.staging|, Edits(events)))
                <==> Settled(s, f) || Edits(events) != [])
  {
    hide Valid;
    HandleRefinesBytes(s, path, f, events);
    EditsAreCommitted(events);
    FoldedIsByteArray(s.staging, Edits(events));
    var t := After(s, path, events);
    if LocalBytes(t.db, t.disk, f).Some? && IsByteArray(LocalBytes(t.db, t.disk, f).value, s.staging, Edits(events)) {
      OneByteArray(LocalBytes(t.db, t.disk, f).value, s.staging, Edits(events));
    }
  }

  /** The bytes that the edits describe, position by position. */
  predicate IsByteArray(bytes: Bytes, start: Bytes, edits: seq<Edit>) {
    |bytes| == LengthAfter(|start|, edits) && forall i :: 0 <= i < |bytes| ==> bytes[i] == ByteAfter(start, edits, i)
  }

  lemma OneByteArray(bytes: Bytes, start: Bytes, edits: seq<Edit>)
    requires IsByteArray(bytes, start, edits)
    ensures bytes == Folded(start, edits)
  {
    FoldedIsByteArray(start, edits);
  }

  /** A fresh clean handle, started from nothing for a row of size zero and from the local bytes for any
      other, is settled exactly when the row's size is the length of the cached bytes. */
  lemma FreshHandleSettledIff(s: Session, f: FileId)
    requires f in s.db.files && !s.dirty
    requires if s.db.files[f].size == 0 then s.staging == [] else LocalBytes(s.db, s.disk, f) == Some(s.staging)
    ensures Settled(s, f) <==> LocalBytes(s.db, s.disk, f).Some? && s.db.files[f].size == |LocalBytes(s.db, s.disk, f).value|
  {
  }
}
