/** Valid tables on which a detected conflict cannot be resolved, or a rename cannot be done, one for each
    way the conditions fail. */
module FailingTables {
  import opened Wrappers
  import opened RemotePaths
  import opened Tables
  import opened TableInvariants
  import opened SyncMachine
  import opened ConflictCopies
  import ConflictNames
  import SubtreeRename
  import SqlLike

  function ChildRow(fid: FileId, parent: string, name: string, kind: Kind, state: SyncState): Row {
    Row(fid, Join(parent, name), Some(parent), name, kind, state, Hydrated, Some("1"), 1, 0,
        if kind.File? then Some(CachePathFor(fid)) else None, false)
  }

  lemma ChildRowOk(fid: FileId, parent: string, name: string, kind: Kind, state: SyncState)
    requires ROOT <= parent && ChildName(name) && !state.Conflict?
    ensures RowOk(ChildRow(fid, parent, name, kind, state)) && Join(parent, name) != ROOT && ROOT <= Join(parent, name)
    ensures ParentPathOf(Join(parent, name)) == Some(parent) && NameOf(Join(parent, name)) == name
  {
    JoinThenSplit(parent, name);
  }

  /** A table with the root and some good rows at different paths is valid. */
  lemma TableIsValid(files: Files, nextFile: FileId)
    requires forall f :: f in files ==> f < nextFile && files[f].fid == f && RowOk(files[f])
    requires SubtreeRename.UniquePaths(files)
    ensures Valid(Db(files, map[], {}, 1, nextFile))
  {
  }

  lemma DistinctPaths(files: Files, paths: seq<string>)
    requires forall f :: f in files ==> f < |paths| && files[f].path == paths[f]
    requires forall i, j :: 0 <= i < j < |paths| ==> paths[i] != paths[j]
    ensures SubtreeRename.UniquePaths(files)
  {
  }

  // ---- A hidden row holds the name ----

  /** The file `a` is being uploaded, and `a (2)` waits for its deletion. */
  function HiddenTable(): Db {
    Db(map[0 := RootRow(), 1 := ChildRow(1, ROOT, "a", File, Uploading), 2 := ChildRow(2, ROOT, "a (2)", File, QueuedDelete)],
       map[], {}, 1, 3)
  }

  lemma RootRowOk()
    ensures RowOk(RootRow())
  {
    assert LastSlash(ROOT) == 5;
  }

  lemma HiddenTableIsValid()
    ensures Valid(HiddenTable())
  {
    hide RowOk, SubtreeRename.UniquePaths;
    RootRowOk();
    ChildRowOk(1, ROOT, "a", File, Uploading);
    ChildRowOk(2, ROOT, "a (2)", File, QueuedDelete);
    var p, q := Join(ROOT, "a"), Join(ROOT, "a (2)");
    assert |p| == 7 && |q| == 11;
    DistinctPaths(HiddenTable().files, [ROOT, p, q]);
    TableIsValid(HiddenTable().files, 3);
  }

  lemma HiddenTableName()
    ensures NextConflictPath(HiddenTable().files, Join(ROOT, "a")) == Some(Join(ROOT, "a (2)"))
  {
    hide LastSlash, ConflictNames.NextConflictName;
    ChildRowOk(1, ROOT, "a", File, Uploading);
    var files := HiddenTable().files;
    assert UsedNames(files, ROOT) == {"a"} by { assert ListChildren(files, ROOT) == {1}; }
    assert "a" + " (2)" == "a (2)";
    ConflictNames.LetterGetsTwo('a', {"a"});
  }

  /** The visible siblings show `a (2)` as free, so the conflict chooses it and fails. */
  lemma HiddenRowBlocksConflict(current: Option<string>, remote: Option<RemoteEntry>, now: int)
    ensures Valid(HiddenTable()) && 1 in HiddenTable().files
    ensures var c := NextConflictPath(HiddenTable().files, HiddenTable().files[1].path);
            c.Some? && c.value == HiddenTable().files[2].path && !Visible(HiddenTable().files[2])
    ensures ApplyConflict(HiddenTable(), HiddenTable().files[1], current, remote, now).Err?
  {
    hide Valid, NextConflictPath, ApplyConflict, LastSlash, ParentPathOf, NameOf, Selected;
    HiddenTableIsValid();
    HiddenTableName();
    ChildRowOk(1, ROOT, "a", File, Uploading);
    NameIsNotSelected();
    TakenNameFails(HiddenTable(), 1, 2, current, remote, now);
  }

  lemma NameIsNotSelected()
    ensures !Selected(Join(ROOT, "a"), Join(ROOT, "a (2)"))
  {
    var p, q := Join(ROOT, "a"), Join(ROOT, "a (2)");
    assert p == "disk:/a" && q == "disk:/a (2)";
    hide SqlLike.LikeBelow, Join;
    assert (p + "/")[7] == '/' && q[..8][7] == ' ';
    SqlLike.SelectionWithoutWildcards(p, q);
  }

  // ---- The pattern selects a stray row ----

  /** The file `_` is being uploaded beside a directory `a` that holds `x`. */
  function StrayTable(): Db {
    Db(map[0 := RootRow(), 1 := ChildRow(1, ROOT, "a", Directory, Synced), 2 := ChildRow(2, Join(ROOT, "a"), "x", File, Synced),
           3 := ChildRow(3, ROOT, "_", File, Uploading)],
       map[], {}, 1, 4)
  }

  lemma StrayTableIsValid()
    ensures Valid(StrayTable())
  {
    hide RowOk, SubtreeRename.UniquePaths;
    RootRowOk();
    ChildRowOk(1, ROOT, "a", Directory, Synced);
    ChildRowOk(2, Join(ROOT, "a"), "x", File, Synced);
    ChildRowOk(3, ROOT, "_", File, Uploading);
    var p, q, r := Join(ROOT, "a"), Join(Join(ROOT, "a"), "x"), Join(ROOT, "_");
    assert |p| == 7 && |q| == 9 && |r| == 7 && p[6] != r[6];
    DistinctPaths(StrayTable().files, [ROOT, p, q, r]);
    TableIsValid(StrayTable().files, 4);
  }

  lemma UnderscoreMatchesLetter()
    ensures SqlLike.LikeBelow("disk:/_", "disk:/a/x") && !("disk:/_" <= "disk:/a/x")
  {
    var pattern := "_/%";
    var s := "a/x";
    SqlLike.PercentMatchesAll("x");
    assert pattern[1..] == "/%" && s[1..] == "/x" && "/%"[1..] == "%" && "/x"[1..] == "x";
    assert SqlLike.Like("/%", "/x");
    assert SqlLike.Like(pattern, s);
    SqlLike.LiteralMatchesItself("disk:/", pattern, s);
    assert "disk:/" + pattern == "disk:/_" + "/%" && "disk:/" + s == "disk:/a/x";
    assert "disk:/_"[6] != "disk:/a/x"[6];
  }

  /** Every row is visible and the chosen name is free, but the unescaped pattern `disk:/_/%` selects
      `disk:/a/x`, which would land on the copy's path: the conflict fails. */
  lemma StrayRowBlocksConflict(current: Option<string>, remote: Option<RemoteEntry>, now: int)
    ensures Valid(StrayTable()) && 3 in StrayTable().files
    ensures var c := NextConflictPath(StrayTable().files, StrayTable().files[3].path);
            c.Some? && !Occupied(StrayTable().files, c.value)
    ensures ApplyConflict(StrayTable(), StrayTable().files[3], current, remote, now).Err?
  {
    StrayTableIsValid();
    StrayTableName();
    UnderscoreMatchesLetter();
    hide Valid, NextConflictPath, ApplyConflict, LastSlash, ParentPathOf, NameOf, SqlLike.LikeBelow, Occupied;
    assert Join(ROOT, "a") == "disk:/a" && Join(ROOT, "_") == "disk:/_" && Join("disk:/a", "x") == "disk:/a/x";
    VisibleTableHasFreeName(StrayTable(), 3);
    StrayRowFails(StrayTable(), 3, 2, current, remote, now);
  }

  lemma StrayTableName()
    ensures NextConflictPath(StrayTable().files, Join(ROOT, "_")).Some? && Join(ROOT, "_") != ROOT
  {
    hide LastSlash, ConflictNames.NextConflictName;
    ChildRowOk(3, ROOT, "_", File, Uploading);
    var files := StrayTable().files;
    assert Join(ROOT, "a") != ROOT by { assert |Join(ROOT, "a")| == 7; }
    assert UsedNames(files, ROOT) == {"a", "_"} by { assert ListChildren(files, ROOT) == {1, 3}; }
    assert |"_" + " (2)"| == 5;
    ConflictNames.LetterGetsTwo('_', {"a", "_"});
  }

  // ---- Letter case alone ----

  /** Two directories whose names differ in letter case only, and a file `x` in the second. */
  function LetterCaseTable(): Db {
    Db(map[0 := RootRow(), 1 := ChildRow(1, ROOT, "A", Directory, Synced), 2 := ChildRow(2, ROOT, "a", Directory, Synced),
           3 := ChildRow(3, Join(ROOT, "a"), "x", File, Synced)],
       map[], {}, 1, 4)
  }

  lemma LetterCaseTableIsValid()
    ensures Valid(LetterCaseTable())
  {
    hide RowOk, SubtreeRename.UniquePaths;
    RootRowOk();
    ChildRowOk(1, ROOT, "A", Directory, Synced);
    ChildRowOk(2, ROOT, "a", Directory, Synced);
    ChildRowOk(3, Join(ROOT, "a"), "x", File, Synced);
    var p, q, r := Join(ROOT, "A"), Join(ROOT, "a"), Join(Join(ROOT, "a"), "x");
    assert |p| == 7 && |q| == 7 && |r| == 9 && p[6] != q[6];
    DistinctPaths(LetterCaseTable().files, [ROOT, p, q, r]);
    TableIsValid(LetterCaseTable().files, 4);
  }

  /** The first directory cannot be renamed, to whatever path: the second one's contents are caught by its
      pattern. */
  lemma LetterCaseBlocksRename(to: Destination)
    ensures Valid(LetterCaseTable()) && 1 in LetterCaseTable().files
    ensures !RenameSubtree(LetterCaseTable().files, LetterCaseTable().files[1].path, to).ok
  {
    LetterCaseTableIsValid();
    assert Join(ROOT, "A") == "disk:/A" && Join(ROOT, "a") == "disk:/a" && Join("disk:/a", "x") == "disk:/a/x";
    var files := LetterCaseTable().files;
    LetterCaseMatches();
    assert Occupied(files, "disk:/A") by { assert files[1].path == "disk:/A"; }
    hide RenameRows, SqlLike.LikeBelow, Ordered;
    FreshIsUnused(LetterCaseTable());
    SubtreeRename.OrderedIsSelectOrder(files, "disk:/A");
    SubtreeRename.StrayRowBreaksRename(files, Ordered(files, SelectedIds(files, "disk:/A")), "disk:/A", to, 3);
  }

  lemma LetterCaseMatches()
    ensures SqlLike.LikeBelow("disk:/A", "disk:/a/x") && !("disk:/A" <= "disk:/a/x")
  {
    var path := "disk:/a/x";
    assert path[..8] == "disk:/a/";
    assert "disk:/A" + "/" == "disk:/A/";
    SqlLike.SelectionWithoutWildcards("disk:/A", path);
    assert "disk:/A"[6] != path[6];
  }
}
