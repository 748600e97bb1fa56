/** Renaming a subtree: when the loop of single-row updates amounts to replacing the prefix `from`
    by `to`, and what goes wrong otherwise. */
module SubtreeRename {
  import opened Wrappers
  import opened RemotePaths
  import opened SqlLike
  import opened Tables

  ghost predicate UniquePaths(files: Files) {
    forall f, g :: f in files && g in files && files[f].path == files[g].path ==> f == g
  }

  lemma RowAtIsUnique(files: Files, path: string, f: FileId)
    requires UniquePaths(files) && f in files && files[f].path == path
    ensures RowAt(files, path) == Some(f)
  {
  }

  /** The LIKE pattern selects no row outside the subtree. */
  predicate LikeExact(files: Files, from: string) {
    forall f :: f in files && LikeBelow(from, files[f].path) ==> InSubtree(from, files[f].path)
  }

  /** No row outside the subtree holds a path that a row of the subtree moves to. */
  ghost predicate TargetsFree(files: Files, from: string, to: string) {
    forall f, g :: f in files && g in files && InSubtree(from, files[f].path) && !InSubtree(from, files[g].path)
      ==> files[g].path != to + files[f].path[|from|..]
  }

  function Rerooted(row: Row, from: string, to: string): Row
    requires from <= row.path
  {
    var path := to + row.path[|from|..];
    row.(path := path, parentPath := ParentPathOf(path), name := NameOf(path))
  }

  /** Prefix substitution, said without reference to any loop. */
  ghost predicate ExactlySubstituted(files: Files, after: Files, from: string, to: string) {
    && after.Keys == files.Keys
    && forall f :: f in files ==>
         if InSubtree(from, files[f].path) then after[f] == Rerooted(files[f], from, to) else after[f] == files[f]
  }

  /** A destination the callers pass: its parent and name are those of its path. */
  predicate Coherent(to: Destination) {
    ParentPathOf(to.path) == Some(to.parent) && NameOf(to.path) == to.name
  }

  // ---- What the loop does ----

  lemma {:induction false} RenameRowsEffect(files: Files, order: seq<FileId>, from: string, to: Destination)
    requires Distinct(order) && forall f :: f in order ==> f in files
    ensures var r := RenameRows(files, order, from, to);
            && (forall f :: f in files && f !in order ==> r.files[f] == files[f])
            && (forall f :: f in order ==> r.files[f] == files[f] || r.files[f] == Relocated(files[f], from, to))
            && (r.ok ==> forall f :: f in order ==> r.files[f] == Relocated(files[f], from, to))
            && (UniquePaths(files) ==> UniquePaths(r.files))
  {
    if order != [] {
      var row := Relocated(files[order[0]], from, to);
      if !PathTaken(files, order[0], row.path) {
        var next, rest := files[order[0] := row], order[1..];
        assert forall i :: 0 <= i < |rest| ==> rest[i] == order[i + 1] && rest[i] != order[0];
        assert forall f :: f in order ==> f == order[0] || f in rest;
        RenameRowsEffect(next, rest, from, to);
      }
    }
  }

  /** The table when the rows `moved` have been renamed and the others not yet. */
  ghost predicate PartlyMoved(files: Files, now: Files, moved: seq<FileId>, from: string, to: Destination) {
    && now.Keys == files.Keys
    && forall f :: f in files ==> now[f] == if f in moved then Relocated(files[f], from, to) else files[f]
  }

  lemma SuffixInSubtree(base: string, s: string)
    requires s == "" || s[0] == '/'
    ensures InSubtree(base, base + s)
  {
    if s == "" {
      assert base + s == base;
    } else {
      assert base + "/" <= base + s;
    }
  }

  /** A row at least as long as `p` can only hold the target of `p` if `to` lies below `from`. */
  lemma OnlyLongerRowsClash(from: string, to: string, p: string, q: string)
    requires InSubtree(from, p) && InSubtree(from, q) && |p| <= |q|
    requires q == to + p[|from|..]
    ensures InSubtree(from, to)
  {
    assert |from| <= |to| && from <= q && to <= q;
    assert to[..|from|] == q[..|from|] == from;
    if |from| < |to| {
      assert to[|from|] == q[|from|] == '/';
      assert to[..|from| + 1] == from + "/";
    } else {
      assert to == from;
    }
  }

  lemma DescendantIsSelected(files: Files, from: string, g: FileId)
    requires g in files
    ensures InSubtree(from, files[g].path) ==> g in SelectedIds(files, from)
  {
    if from + "/" <= files[g].path {
      DescendantsAreSelected(from, files[g].path);
    }
  }

  /** Shorter paths move first, and that is why a row never lands on one still waiting to move. */
  lemma NoCollision(files: Files, now: Files, order: seq<FileId>, k: nat, from: string, to: Destination, g: FileId)
    requires UniquePaths(files) && IsSelectOrder(files, from, order) && k < |order|
    requires LikeExact(files, from) && TargetsFree(files, from, to.path) && !InSubtree(from, to.path)
    requires PartlyMoved(files, now, order[..k], from, to)
    requires g in files && g != order[k]
    ensures InSubtree(from, files[order[k]].path)
    ensures now[g].path != to.path + files[order[k]].path[|from|..]
  {
    var f := order[k];
    assert f in SelectedIds(files, from);
    var p, q := files[f].path, files[g].path;
    DescendantIsSelected(files, from, g);
    if g in order[..k] {
      assert g in SelectedIds(files, from);
      SameSuffixSamePath(from, to.path, p, q);
    } else if g in order {
      var j :| 0 <= j < |order| && order[j] == g;
      assert j > k;
      assert g in SelectedIds(files, from);
      if q == to.path + p[|from|..] {
        OnlyLongerRowsClash(from, to.path, p, q);
      }
    }
  }

  lemma SameSuffixSamePath(from: string, to: string, p: string, q: string)
    requires from <= p && from <= q
    ensures to + p[|from|..] == to + q[|from|..] ==> p == q
  {
    var a, b := p[|from|..], q[|from|..];
    assert p == from + a && q == from + b;
    assert a == (to + a)[|to|..] && b == (to + b)[|to|..];
  }

  lemma RowMovesFreely(files: Files, now: Files, order: seq<FileId>, k: nat, from: string, to: Destination)
    requires UniquePaths(files) && IsSelectOrder(files, from, order) && k < |order|
    requires LikeExact(files, from) && TargetsFree(files, from, to.path) && !InSubtree(from, to.path)
    requires PartlyMoved(files, now, order[..k], from, to)
    ensures order[k] in now && !PathTaken(now, order[k], Relocated(now[order[k]], from, to).path)
  {
    var f := order[k];
    assert f in SelectedIds(files, from) && f !in order[..k];
    hide ParentPathOf, NameOf, LikeBelow;
    forall g | g in now && g != f
      ensures InSubtree(from, files[f].path) && now[g].path != to.path + files[f].path[|from|..]
    {
      NoCollision(files, now, order, k, from, to, g);
    }
    assert InSubtree(from, files[f].path);
  }

  lemma {:induction false} RenameRowsSucceeds(files: Files, now: Files, order: seq<FileId>, k: nat, from: string, to: Destination)
    requires UniquePaths(files) && IsSelectOrder(files, from, order) && k <= |order|
    requires LikeExact(files, from) && TargetsFree(files, from, to.path) && !InSubtree(from, to.path)
    requires PartlyMoved(files, now, order[..k], from, to)
    ensures RenameRows(now, order[k..], from, to).ok
    decreases |order| - k
  {
    hide ParentPathOf, NameOf, LikeBelow, LikeExact, TargetsFree, UniquePaths, Relocated;
    if k < |order| {
      var f := order[k];
      assert f !in order[..k];
      RowMovesFreely(files, now, order, k, from, to);
      var next := now[f := Relocated(now[f], from, to)];
      assert order[..k + 1] == order[..k] + [f];
      RenameRowsSucceeds(files, next, order, k + 1, from, to);
      assert order[k..][1..] == order[k + 1..];
    }
  }

  // ---- The exact condition ----

  /** Whatever order the query returns, the loop succeeds and substitutes the prefix exactly when the
      LIKE pattern stays inside the subtree and no outside row holds a target path. */
  lemma RenameIsSubstitutionIff(files: Files, order: seq<FileId>, from: string, to: Destination)
    requires UniquePaths(files) && IsSelectOrder(files, from, order) && Coherent(to)
    requires !Occupied(files, to.path) && !InSubtree(from, to.path)
    ensures var r := RenameRows(files, order, from, to);
            (r.ok && ExactlySubstituted(files, r.files, from, to.path))
            <==> (LikeExact(files, from) && TargetsFree(files, from, to.path))
  {
    hide RenameRows, LikeExact, TargetsFree, ExactlySubstituted, InSubtree, UniquePaths, IsSelectOrder;
    if LikeExact(files, from) && TargetsFree(files, from, to.path) { RenameSubstitutes(files, order, from, to); }
    OrderHasRows(files, from, order);
    var r := RenameRows(files, order, from, to);
    if r.ok && ExactlySubstituted(files, r.files, from, to.path) {
      RenameRowsEffect(files, order, from, to);
      InItsOwnSubtree(from);
      SubstitutionNeedsExactLike(files, r.files, order, from, to);
      SubstitutionNeedsFreeTargets(files, r.files, from, to.path);
    }
  }

  lemma InItsOwnSubtree(from: string)
    ensures InSubtree(from, from)
  {
  }

  lemma OrderHasRows(files: Files, from: string, order: seq<FileId>)
    requires IsSelectOrder(files, from, order)
    ensures Distinct(order) && forall f :: f in order ==> f in files
  {
  }

  lemma RenameSubstitutes(files: Files, order: seq<FileId>, from: string, to: Destination)
    requires UniquePaths(files) && IsSelectOrder(files, from, order) && Coherent(to) && !InSubtree(from, to.path)
    requires LikeExact(files, from) && TargetsFree(files, from, to.path)
    ensures var r := RenameRows(files, order, from, to); r.ok && ExactlySubstituted(files, r.files, from, to.path)
  {
    hide ParentPathOf, NameOf, LikeBelow, RenameRows, TargetsFree, UniquePaths;
    RenameRowsEffect(files, order, from, to);
    var r := RenameRows(files, order, from, to);
    assert order[..0] == [] && order[0..] == order;
    RenameRowsSucceeds(files, files, order, 0, from, to);
    forall f | f in files
      ensures if InSubtree(from, files[f].path) then r.files[f] == Rerooted(files[f], from, to.path) else r.files[f] == files[f]
    {
      DescendantIsSelected(files, from, f);
    }
  }

  /** Rows keep their unique paths, so a substituted path was free or inside. */
  lemma SubstitutionNeedsFreeTargets(files: Files, after: Files, from: string, to: string)
    requires ExactlySubstituted(files, after, from, to) && (UniquePaths(files) ==> UniquePaths(after)) && UniquePaths(files)
    ensures TargetsFree(files, from, to)
  {
    hide ParentPathOf, NameOf;
    forall f, g | f in files && g in files && InSubtree(from, files[f].path) && !InSubtree(from, files[g].path)
      ensures files[g].path != to + files[f].path[|from|..]
    {
      assert after[g] == files[g] && after[f] == Rerooted(files[f], from, to);
    }
  }

  lemma SubstitutionNeedsExactLike(files: Files, after: Files, order: seq<FileId>, from: string, to: Destination)
    requires IsSelectOrder(files, from, order) && !Occupied(files, to.path) && from != to.path
    requires ExactlySubstituted(files, after, from, to.path)
    requires forall f :: f in order ==> after[f] == Relocated(files[f], from, to)
    ensures LikeExact(files, from)
  {
    forall g | g in files && LikeBelow(from, files[g].path)
      ensures InSubtree(from, files[g].path)
    {
      assert g in SelectedIds(files, from);
      FixedTarget(from, to.path, files[g].path);
    }
  }

  lemma FixedTarget(from: string, to: string, path: string)
    ensures Target(from, to, path) == path ==> to == from || to == path
  {
    if from <= path && Target(from, to, path) == path {
      assert |to| == |from|;
      assert to == path[..|from|];
    }
  }

  /** A row the pattern catches although it does not even start with `from` makes the rename fail,
      after some rows may already have moved. */
  lemma StrayRowBreaksRename(files: Files, order: seq<FileId>, from: string, to: Destination, stray: FileId)
    requires UniquePaths(files) && IsSelectOrder(files, from, order) && Occupied(files, from)
    requires stray in files && LikeBelow(from, files[stray].path) && !(from <= files[stray].path)
    ensures !RenameRows(files, order, from, to).ok
  {
    var f :| f in files && files[f].path == from;
    assert f in SelectedIds(files, from) && stray in SelectedIds(files, from);
    var r := RenameRows(files, order, from, to);
    RenameRowsEffect(files, order, from, to);
    assert Relocated(files[f], from, to).path == to.path;
    assert Relocated(files[stray], from, to).path == to.path;
  }

  // ---- On a tree where every path's parent is present ----

  predicate DirectoryAt(files: Files, path: string) {
    exists f :: f in files && files[f].path == path && files[f].kind.Directory?
  }

  predicate ParentClosed(files: Files) {
    forall f :: f in files && files[f].path != ROOT ==>
      ParentPathOf(files[f].path).Some? && DirectoryAt(files, ParentPathOf(files[f].path).value)
  }

  lemma {:induction false} AncestorIsPresent(files: Files, ancestor: string, f: FileId)
    requires ParentClosed(files) && f in files
    requires ROOT <= ancestor && ancestor != ROOT && InSubtree(ancestor, files[f].path)
    ensures Occupied(files, ancestor)
    decreases |files[f].path|
  {
    var q := files[f].path;
    if q != ancestor {
      ParentInSubtree(ancestor, q);
      ParentStaysRooted(q);
      var g :| g in files && files[g].path == ParentPathOf(q).value;
      AncestorIsPresent(files, ancestor, g);
    }
  }

  /** On such a tree whatever has a row strictly below it is a directory. */
  lemma {:induction false} HoldsRowsBelow(files: Files, path: string, g: FileId)
    requires ParentClosed(files) && g in files && ROOT <= path && path != ROOT && path + "/" <= files[g].path
    ensures DirectoryAt(files, path)
    decreases |files[g].path|
  {
    hide ParentPathOf, DirectoryAt;
    ParentInSubtree(path, files[g].path);
    var parent := ParentPathOf(files[g].path).value;
    if parent != path {
      ParentStaysRooted(files[g].path);
      RowOfDirectory(files, parent);
      var h :| h in files && files[h].path == parent;
      HoldsRowsBelow(files, path, h);
    }
  }

  lemma RowOfDirectory(files: Files, path: string)
    requires DirectoryAt(files, path)
    ensures exists h :: h in files && files[h].path == path
  {
  }

  lemma AbsentTargetIsFree(files: Files, from: string, to: string)
    requires ParentClosed(files) && ROOT <= to && to != ROOT && !Occupied(files, to)
    ensures TargetsFree(files, from, to)
  {
    forall f, g | f in files && g in files && InSubtree(from, files[f].path) && !InSubtree(from, files[g].path)
      ensures files[g].path != to + files[f].path[|from|..]
    {
      var s := files[f].path[|from|..];
      SuffixInSubtree(to, s);
      if files[g].path == to + s {
        AncestorIsPresent(files, to, g);
      }
    }
  }

  lemma SlashOfExtension(base: string, s: string)
    requires "/" <= s
    ensures LastSlash(s) >= 0 && LastSlash(base + s) == |base| + LastSlash(s)
  {
    var q, i := base + s, LastSlash(s);
    assert s[0] == '/';
    assert q[|base| + i] == '/';
    assert forall k :: |base| + i < k < |q| ==> q[k] == s[k - |base|];
  }

  lemma ParentOfExtension(base: string, s: string)
    requires ROOT <= base && base != ROOT && "/" <= s
    ensures LastSlash(s) >= 0 && ParentPathOf(base + s) == Some(base + s[..LastSlash(s)])
  {
    SlashOfExtension(base, s);
    var q, i := base + s, LastSlash(s);
    var stem := base + s[..i];
    assert q[..|base| + i] == stem;
    assert |q| > |ROOT| && |stem| >= |ROOT|;
  }

  /** Below the moved directory the parent relation moves along. */
  lemma InnerDirectoryMoves(files: Files, after: Files, from: string, to: string, f: FileId)
    requires ParentClosed(files) && ExactlySubstituted(files, after, from, to)
    requires ROOT <= from && from != ROOT && ROOT <= to && to != ROOT
    requires f in files && from + "/" <= files[f].path
    ensures ParentPathOf(after[f].path).Some? && DirectoryAt(after, ParentPathOf(after[f].path).value)
  {
    var p := files[f].path;
    var s := p[|from|..];
    assert p == from + s && "/" <= s;
    ParentOfExtension(from, s);
    ParentOfExtension(to, s);
    var t := s[..LastSlash(s)];
    assert |p| > |ROOT|;
    var g :| g in files && files[g].path == from + t && files[g].kind.Directory?;
    SuffixInSubtree(from, t);
    assert (from + t)[|from|..] == t;
    assert after[g].path == to + t && after[g].kind.Directory?;
  }

  lemma ChildInSubtree(from: string, dir: string, child: string)
    requires ROOT <= child && child != ROOT && ParentPathOf(child) == Some(dir)
    requires ROOT <= from && from != ROOT && InSubtree(from, dir)
    ensures InSubtree(from, child)
  {
    assert |dir| > |ROOT|;
    var i := LastSlash(child);
    assert dir == child[..i] && child[i] == '/';
    if dir == from {
      assert from + "/" == child[..i + 1];
    } else {
      assert from + "/" == dir[..|from| + 1] == child[..|from| + 1];
    }
  }

  lemma OutsideDirectoryStays(files: Files, after: Files, from: string, to: string, dir: string)
    requires ExactlySubstituted(files, after, from, to) && DirectoryAt(files, dir) && !InSubtree(from, dir)
    ensures DirectoryAt(after, dir)
  {
    var g :| g in files && files[g].path == dir && files[g].kind.Directory?;
    assert after[g] == files[g];
  }

  /** On a parent-closed tree, moving a subtree to an absent path below an existing directory keeps
      the tree parent-closed. */
  lemma RenameKeepsParents(files: Files, after: Files, from: string, to: string)
    requires ParentClosed(files) && ExactlySubstituted(files, after, from, to)
    requires ROOT <= from && from != ROOT && ROOT <= to && to != ROOT
    requires forall f :: f in files ==> ROOT <= files[f].path
    requires !InSubtree(from, to)
    requires ParentPathOf(to).Some? && DirectoryAt(files, ParentPathOf(to).value)
    ensures ParentClosed(after)
  {
    forall f | f in after && after[f].path != ROOT
      ensures ParentPathOf(after[f].path).Some? && DirectoryAt(after, ParentPathOf(after[f].path).value)
    {
      var p := files[f].path;
      if from + "/" <= p {
        InnerDirectoryMoves(files, after, from, to, f);
      } else {
        var child := if p == from then to else p;
        assert to + p[|p|..] == to;
        assert after[f].path == child;
        ParentStaysRooted(child);
        var dir := ParentPathOf(child).value;
        if InSubtree(from, dir) { ChildInSubtree(from, dir, child); }
        OutsideDirectoryStays(files, after, from, to, dir);
      }
    }
  }

  ghost predicate DerivedColumns(files: Files) {
    forall f :: f in files ==>
      files[f].parentPath == ParentPathOf(files[f].path) && files[f].name == NameOf(files[f].path)
  }

  /** Substituting back restores every row. */
  lemma SubstituteBack(files: Files, there: Files, back: Files, from: string, to: string)
    requires ExactlySubstituted(files, there, from, to) && ExactlySubstituted(there, back, to, from)
    requires forall f :: f in files ==> !InSubtree(to, files[f].path)
    requires forall f :: f in files && InSubtree(from, files[f].path) ==>
               files[f].parentPath == ParentPathOf(files[f].path) && files[f].name == NameOf(files[f].path)
    ensures back == files
  {
    hide ParentPathOf, NameOf;
    forall f | f in files
      ensures back[f] == files[f]
    {
      var p := files[f].path;
      if InSubtree(from, p) {
        var s := p[|from|..];
        assert there[f].path == to + s;
        SuffixInSubtree(to, s);
        assert (to + s)[|to|..] == s;
        assert from + s == p;
      }
    }
  }

  lemma OrderedIsSelectOrder(files: Files, from: string)
    ensures IsSelectOrder(files, from, Ordered(files, SelectedIds(files, from)))
  {
  }

  /** A rename on a parent-closed tree, and the rename back, both succeed and end where they began. */
  lemma RenameThenBack(files: Files, from: string, to: string)
    requires UniquePaths(files) && ParentClosed(files) && DerivedColumns(files)
    requires forall f :: f in files ==> ROOT <= files[f].path
    requires ROOT <= from && from != ROOT && ROOT <= to && to != ROOT && Occupied(files, from)
    requires !Occupied(files, to) && !InSubtree(from, to)
    requires ParentPathOf(to).Some? && DirectoryAt(files, ParentPathOf(to).value)
    requires LikeExact(files, from) && LikeExact(RenameSubtree(files, from, DestinationAt(to)).files, to)
    ensures var there := RenameSubtree(files, from, DestinationAt(to));
            && there.ok && ExactlySubstituted(files, there.files, from, to) && ParentClosed(there.files)
            && RenameSubtree(there.files, to, DestinationAt(from)) == Renamed(files, true)
  {
    var there := RenameSubtree(files, from, DestinationAt(to));
    ParentStaysRooted(to);
    ParentStaysRooted(from);
    OrderedIsSelectOrder(files, from);
    AbsentTargetIsFree(files, from, to);
    RenameIsSubstitutionIff(files, Ordered(files, SelectedIds(files, from)), from, DestinationAt(to));
    RenameRowsEffect(files, Ordered(files, SelectedIds(files, from)), from, DestinationAt(to));
    RenameKeepsParents(files, there.files, from, to);
    forall f | f in files ensures !InSubtree(to, files[f].path) {
      if InSubtree(to, files[f].path) { AncestorIsPresent(files, to, f); }
    }
    SourceIsVacated(files, there.files, from, to);
    OrderedIsSelectOrder(there.files, to);
    AbsentTargetIsFree(there.files, to, from);
    RenameIsSubstitutionIff(there.files, Ordered(there.files, SelectedIds(there.files, to)), to, DestinationAt(from));
    SubstituteBack(files, there.files, RenameSubtree(there.files, to, DestinationAt(from)).files, from, to);
  }

  lemma SourceIsVacated(files: Files, after: Files, from: string, to: string)
    requires ExactlySubstituted(files, after, from, to) && Occupied(files, from)
    requires !InSubtree(from, to)
    requires forall f :: f in files ==> !InSubtree(to, files[f].path)
    ensures !Occupied(after, from) && !InSubtree(to, from)
  {
    var g :| g in files && files[g].path == from;
    forall f | f in after
      ensures after[f].path != from
    {
      if InSubtree(from, files[f].path) {
        var s := files[f].path[|from|..];
        SuffixInSubtree(to, s);
      }
    }
  }
}
