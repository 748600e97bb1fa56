/** The recursive walk of the remote tree that feeds reconciling, page by page: it terminates, meets no
    resource twice and each after its directory, and meets all of them exactly when every listing is complete. */
module RemoteWalk {
  import opened Wrappers
  import opened RemotePaths
  import opened Tables
  import opened SyncSteps
  import opened RemoteListing

  /** The remote side: its resources by path, and how it serves each directory's children. */
  datatype Remote = Remote(tree: RemoteTree, served: map<string, Served>)

  predicate IsChild(r: Remote, p: string, q: string) {
    q in r.tree && q != ROOT && ParentPathOf(q) == Some(p)
  }

  predicate InDirectory(r: Remote, q: string) {
    ParentPathOf(q).Some? && ParentPathOf(q).value in r.tree && r.tree[ParentPathOf(q).value].kind.Directory?
  }

  predicate IsDirectory(r: Remote, p: string) { p in r.tree && r.tree[p].kind.Directory? }

  predicate ItemOk(r: Remote, p: string, item: Item) {
    Supported(item) ==> IsChild(r, p, item.path) && Ok(r.tree[item.path]) == TryIntoResource(item)
  }

  /** A directory serves its children, each once. */
  ghost predicate ServesChildren(r: Remote, p: string, d: Served) {
    && (forall k :: 0 <= k < |d.items| ==> ItemOk(r, p, d.items[k]))
    && (forall i, j :: 0 <= i < j < |d.items| ==> d.items[i].path != d.items[j].path)
    && (forall q :: IsChild(r, p, q) ==> exists k :: 0 <= k < |d.items| && d.items[k].path == q)
  }

  /** Every resource but the root lies in a directory, and every directory serves its children. */
  ghost predicate WellFormed(r: Remote) {
    && Keyed(r.tree) && ROOT in r.tree
    && (forall q :: q in r.tree ==> ROOT <= q)
    && (forall q {:trigger InDirectory(r, q)} :: q in r.tree && q != ROOT ==> InDirectory(r, q))
    && (forall p :: IsDirectory(r, p) ==> p in r.served && ServesChildren(r, p, r.served[p]))
  }

  /** What a listing of the directory returns, or nothing if it fails. */
  function Listing(r: Remote, p: string): seq<RemoteEntry> {
    if p !in r.served then []
    else
      match Converted(r.served[p].items[..Fetched(r.served[p], 0)])
      case Ok(entries) => entries
      case Err(_) => []
  }

  function ListedPaths(r: Remote, p: string): seq<string> {
    var entries := Listing(r, p);
    seq(|entries|, k requires 0 <= k < |entries| => entries[k].path)
  }

  predicate IsListed(r: Remote, p: string, q: string) { IsDirectory(r, p) && q in ListedPaths(r, p) }

  /** A listed entry is the item at its place, and that is a child. */
  lemma ListedEntry(r: Remote, p: string, k: nat)
    requires WellFormed(r) && IsDirectory(r, p) && k < |Listing(r, p)|
    ensures p in r.served && k < |r.served[p].items| && Listing(r, p)[k].path == r.served[p].items[k].path
    ensures IsChild(r, p, Listing(r, p)[k].path) && Listing(r, p)[k] == r.tree[Listing(r, p)[k].path]
  {
    hide ParentPathOf, Fetched, TryIntoResource, Converted;
    var d := r.served[p];
    var items := d.items[..Fetched(d, 0)];
    ConvertedIff(items);
    assert items[k] == d.items[k] && ItemOk(r, p, d.items[k]);
    ResourcePath(d.items[k]);
  }

  lemma ResourcePath(item: Item)
    ensures Supported(item) ==> TryIntoResource(item).value.path == item.path
  {
  }

  lemma ListedFacts(r: Remote, p: string, k: nat)
    requires WellFormed(r) && IsDirectory(r, p) && k < |ListedPaths(r, p)|
    ensures IsListed(r, p, ListedPaths(r, p)[k]) && IsChild(r, p, ListedPaths(r, p)[k])
    ensures Headroom(r, ListedPaths(r, p)[k]) < Headroom(r, p) && |p| < |ListedPaths(r, p)[k]|
    ensures Distinct(ListedPaths(r, p))
    ensures Listing(r, p)[k] == r.tree[ListedPaths(r, p)[k]]
  {
    hide ParentPathOf, Listing;
    ListedEntry(r, p, k);
    LongerChild(r, p, ListedPaths(r, p)[k]);
    forall i, j | 0 <= i < j < |ListedPaths(r, p)|
      ensures ListedPaths(r, p)[i] != ListedPaths(r, p)[j]
    {
      ListedEntry(r, p, i);
      ListedEntry(r, p, j);
    }
  }

  lemma LongerChild(r: Remote, p: string, q: string)
    requires WellFormed(r) && IsChild(r, p, q)
    ensures IsDirectory(r, p) && |p| < |q| && Headroom(r, q) < Headroom(r, p)
  {
    hide ParentPathOf;
    assert InDirectory(r, q);
    ParentStaysRooted(q);
  }

  lemma ChildFacts(r: Remote, p: string, q: string)
    requires WellFormed(r) && IsListed(r, p, q)
    ensures IsChild(r, p, q) && q in r.tree && q != ROOT && ROOT <= q && ParentPathOf(q) == Some(p)
    ensures |p| < |q| && Headroom(r, q) < Headroom(r, p)
  {
    hide ListedPaths, ParentPathOf;
    var k :| 0 <= k < |ListedPaths(r, p)| && ListedPaths(r, p)[k] == q;
    ListedFacts(r, p, k);
  }

  ghost function Longest(tree: RemoteTree): (n: nat)
    ensures forall p :: p in tree ==> |p| <= n
  {
    if tree == map[] then 0
    else
      var p :| p in tree;
      var rest := Longest(tree - {p});
      assert forall q :: q in tree && q != p ==> q in tree - {p};
      if |p| <= rest then rest else |p|
  }

  ghost function Headroom(r: Remote, p: string): nat { if p in r.tree then Longest(r.tree) - |p| else 0 }

  // ---- The walk ----

  /** The paths met from a resource on: itself, then for a directory its children's in listed order. */
  ghost function Walk(r: Remote, p: string): seq<string>
    requires WellFormed(r) && p in r.tree
    decreases Headroom(r, p), 1, 0
  {
    if r.tree[p].kind.File? then [p] else [p] + WalkChildren(r, p, |ListedPaths(r, p)|)
  }

  ghost function WalkChildren(r: Remote, p: string, k: nat): seq<string>
    requires WellFormed(r) && IsDirectory(r, p) && k <= |ListedPaths(r, p)|
    decreases Headroom(r, p), 0, k
  {
    if k == 0 then []
    else
      ListedFacts(r, p, k - 1);
      WalkChildren(r, p, k - 1) + Walk(r, ListedPaths(r, p)[k - 1])
  }

  /** Listing the directory fails: a request does, or a child is of an unknown type. */
  predicate ListingFails(r: Remote, p: string)
    requires p in r.served
  {
    FirstFault(r.served[p], 0).Some? || Converted(r.served[p].items[..Fetched(r.served[p], 0)]).Err?
  }

  ghost predicate SomeListingFails(r: Remote) {
    exists p :: IsDirectory(r, p) && p in r.served && ListingFails(r, p)
  }

  lemma ServedHere(r: Remote, p: string)
    requires WellFormed(r) && IsDirectory(r, p)
    ensures p in r.served
  {
  }

  /** `collect_remote_children`: appends the resources below a directory. */
  method CollectRemoteChildren(r: Remote, path: string, all: seq<RemoteEntry>, ghost paths: seq<string>)
    returns (after: Result<seq<RemoteEntry>, RemoteError>)
    requires WellFormed(r) && IsDirectory(r, path) && Carries(r, all, paths)
    ensures after.Ok? ==> Carries(r, after.value, paths + WalkChildren(r, path, |ListedPaths(r, path)|))
    ensures after.Err? ==> SomeListingFails(r)
    decreases Headroom(r, path)
  {
    hide WellFormed, Walk, WalkChildren, IsChild, Carries, Distinct, IsListed, Fetched, FirstFault, Converted, IsDirectory;
    ServedHere(r, path);
    var listed := ListDirectory(r.served[path]);
    if listed.Err? {
      assert ListingFails(r, path);
      return Err(listed.error);
    }
    var children := listed.value;
    assert children == Listing(r, path);
    var collected := all;
    WalkStart(r, path, paths);
    for k := 0 to |children|
      invariant Carries(r, collected, paths + WalkChildren(r, path, k))
    {
      var child := children[k];
      ListedFacts(r, path, k);
      assert ListedPaths(r, path)[k] == child.path;
      ChildIsThere(r, path, child.path);
      WalkStep(r, path, k, paths);
      ghost var met := paths + WalkChildren(r, path, k);
      CarriesOne(r, collected, met, child.path);
      collected := collected + [child];
      if child.kind.Directory? {
        DirectoryThere(r, child.path);
        var below := CollectRemoteChildren(r, child.path, collected, met + [child.path]);
        if below.Err? { return below; }
        collected := below.value;
      }
    }
    return Ok(collected);
  }

  lemma DirectoryThere(r: Remote, p: string)
    requires p in r.tree && r.tree[p].kind.Directory?
    ensures IsDirectory(r, p)
  {
  }

  predicate Carries(r: Remote, all: seq<RemoteEntry>, paths: seq<string>) {
    |all| == |paths| && forall k :: 0 <= k < |all| ==> paths[k] in r.tree && all[k] == r.tree[paths[k]]
  }

  lemma ChildIsThere(r: Remote, p: string, q: string)
    requires IsChild(r, p, q)
    ensures q in r.tree
  {
  }

  lemma CarriesOne(r: Remote, all: seq<RemoteEntry>, paths: seq<string>, p: string)
    requires Carries(r, all, paths) && p in r.tree
    ensures Carries(r, all + [r.tree[p]], paths + [p])
  {
  }

  lemma WalkStart(r: Remote, p: string, paths: seq<string>)
    requires WellFormed(r) && IsDirectory(r, p)
    ensures paths + WalkChildren(r, p, 0) == paths
  {
  }

  /** One more child: itself, and for a directory what lies below it. */
  lemma WalkStep(r: Remote, p: string, k: nat, paths: seq<string>)
    requires WellFormed(r) && IsDirectory(r, p) && k < |ListedPaths(r, p)| && ListedPaths(r, p)[k] in r.tree
    ensures var c, met := ListedPaths(r, p)[k], paths + WalkChildren(r, p, k);
            && (r.tree[c].kind.File? ==> paths + WalkChildren(r, p, k + 1) == met + [c])
            && (r.tree[c].kind.Directory? ==>
                  met + [c] + WalkChildren(r, c, |ListedPaths(r, c)|) == paths + WalkChildren(r, p, k + 1))
  {
    hide WellFormed, ListedPaths;
  }

  /** `collect_remote_tree`: the resources in the order of the walk from the root, or the error of a request
      or of a listing. `root` is what looking at the root itself gives. */
  method CollectRemoteTree(r: Remote, root: Option<RemoteError>) returns (collected: Result<seq<RemoteEntry>, RemoteError>)
    requires WellFormed(r)
    ensures ROOT in r.tree
    ensures collected.Ok? ==> root.None? && Carries(r, collected.value, Walk(r, ROOT))
    ensures collected.Err? ==> root.Some? || SomeListingFails(r)
  {
    RootIsThere(r);
    hide WellFormed, WalkChildren, Carries, ListedPaths;
    if root.Some? { return Err(root.value); }
    var all := [r.tree[ROOT]];
    JustRoot(r);
    if r.tree[ROOT].kind.Directory? {
      collected := CollectRemoteChildren(r, ROOT, all, [ROOT]);
    } else {
      collected := Ok(all);
    }
  }

  lemma RootIsThere(r: Remote)
    requires WellFormed(r)
    ensures ROOT in r.tree
  {
  }

  lemma JustRoot(r: Remote)
    requires ROOT in r.tree
    ensures Carries(r, [r.tree[ROOT]], [ROOT])
  {
  }

  // ---- Every resource once ----

  /** `q` is `p` or lies below it, listing by listing. */
  predicate Below(r: Remote, p: string, q: string)
    decreases |q|
  {
    q == p || (q in r.tree && ROOT <= q && q != ROOT
               && (ParentStaysRooted(q); IsListed(r, ParentPathOf(q).value, q) && Below(r, p, ParentPathOf(q).value)))
  }

  lemma {:induction false} BelowIsLonger(r: Remote, p: string, q: string)
    requires Below(r, p, q)
    ensures |p| <= |q|
    decreases |q|
  {
    hide ParentPathOf;
    if q != p {
      ParentStaysRooted(q);
      BelowIsLonger(r, p, ParentPathOf(q).value);
    }
  }

  lemma {:induction false} BelowChild(r: Remote, p: string, c: string, q: string)
    requires WellFormed(r) && IsListed(r, p, c) && Below(r, c, q)
    ensures Below(r, p, q) && q != p
    decreases |q|
  {
    ChildFacts(r, p, c);
    BelowIsLonger(r, c, q);
    hide ParentPathOf;
    if q == c {
      assert Below(r, p, p);
    } else {
      ParentStaysRooted(q);
      BelowChild(r, p, c, ParentPathOf(q).value);
    }
  }

  lemma BelowInTree(r: Remote, p: string, q: string)
    requires Below(r, p, q) && p in r.tree
    ensures q in r.tree
  {
  }

  /** Below a directory means below one of its children. */
  lemma {:induction false} BelowSplits(r: Remote, p: string, q: string) returns (c: string)
    requires WellFormed(r) && q in r.tree && Below(r, p, q) && q != p
    ensures IsListed(r, p, c) && Below(r, c, q)
    decreases |q|
  {
    hide ParentPathOf, ListedPaths;
    ParentStaysRooted(q);
    var parent := ParentPathOf(q).value;
    if parent == p {
      c := q;
    } else {
      c := BelowSplits(r, p, parent);
    }
  }

  lemma {:induction false} ChildrenApart(r: Remote, p: string, c: string, d: string, q: string)
    requires WellFormed(r) && IsListed(r, p, c) && IsListed(r, p, d) && Below(r, c, q) && Below(r, d, q)
    ensures c == d
    decreases |q|
  {
    ChildFacts(r, p, c);
    ChildFacts(r, p, d);
    hide ParentPathOf, WellFormed;
    if q == c {
      if q != d { ParentStaysRooted(q); BelowIsLonger(r, d, p); }
    } else if q == d {
      ParentStaysRooted(q);
      BelowIsLonger(r, c, p);
    } else {
      ParentStaysRooted(q);
      ChildrenApart(r, p, c, d, ParentPathOf(q).value);
    }
  }

  /** What a walk promises: the resources below `p`, once each, and each after its parent. */
  ghost predicate Exact(r: Remote, p: string, paths: seq<string>) {
    && Distinct(paths)
    && (forall q :: q in paths <==> q in r.tree && Below(r, p, q))
    && paths != [] && paths[0] == p
    && forall k :: 0 < k < |paths| ==> Preceded(paths, k)
  }

  predicate Preceded(paths: seq<string>, k: nat)
    requires k < |paths|
  {
    ParentPathOf(paths[k]).Some? && ParentPathOf(paths[k]).value in paths[..k]
  }

  /** The same for the first `k` children, with the directory itself in front. */
  ghost predicate ExactUpTo(r: Remote, p: string, k: nat, paths: seq<string>)
    requires k <= |ListedPaths(r, p)|
  {
    && Distinct(paths)
    && (forall q :: q in paths <==> q == p || (q in r.tree && exists j :: 0 <= j < k && Below(r, ListedPaths(r, p)[j], q)))
    && paths != [] && paths[0] == p
    && forall j :: 0 < j < |paths| ==> Preceded(paths, j)
  }

  lemma JoinWalks(first: seq<string>, rest: seq<string>)
    requires Distinct(first) && Distinct(rest) && first != [] && rest != []
    requires forall q :: q in first ==> q !in rest
    requires forall k :: 0 < k < |first| ==> Preceded(first, k)
    requires forall k :: 0 < k < |rest| ==> Preceded(rest, k)
    requires ParentPathOf(rest[0]).Some? && ParentPathOf(rest[0]).value in first
    ensures Distinct(first + rest) && forall k :: 0 < k < |first + rest| ==> Preceded(first + rest, k)
  {
    hide ParentPathOf;
    var all := first + rest;
    forall i, j | 0 <= i < j < |all|
      ensures all[i] != all[j]
    {
      if i < |first| <= j { assert all[i] in first && all[j] in rest; }
    }
    forall k | 0 < k < |all|
      ensures Preceded(all, k)
    {
      if k < |first| {
        assert Preceded(first, k) && all[..k] == first[..k];
      } else if k == |first| {
        assert all[..k] == first;
      } else {
        assert Preceded(rest, k - |first|);
        assert all[..k] == first + rest[..k - |first|];
      }
    }
  }

  lemma {:induction false} WalkIsExact(r: Remote, p: string)
    requires WellFormed(r) && p in r.tree
    ensures Exact(r, p, Walk(r, p))
    decreases Headroom(r, p), 1, 0
  {
    hide WellFormed, ParentPathOf, Preceded;
    if r.tree[p].kind.File? {
      FileIsAlone(r, p);
    } else {
      WalkChildrenIsExact(r, p, |ListedPaths(r, p)|);
      AllChildrenCover(r, p, Walk(r, p));
    }
  }

  lemma FileIsAlone(r: Remote, p: string)
    requires WellFormed(r) && p in r.tree && r.tree[p].kind.File?
    ensures forall q :: q in r.tree && Below(r, p, q) ==> q == p
  {
    forall q | q in r.tree && Below(r, p, q)
      ensures q == p
    {
      if q != p {
        var c := BelowSplits(r, p, q);
        ChildFacts(r, p, c);
      }
    }
  }

  lemma AllChildrenCover(r: Remote, p: string, paths: seq<string>)
    requires WellFormed(r) && IsDirectory(r, p) && ExactUpTo(r, p, |ListedPaths(r, p)|, paths)
    ensures Exact(r, p, paths)
  {
    hide WellFormed, Preceded, ParentPathOf, ListedPaths;
    forall q
      ensures q in paths <==> q in r.tree && Below(r, p, q)
    {
      if q in r.tree && Below(r, p, q) && q != p {
        var c := BelowSplits(r, p, q);
        assert c in ListedPaths(r, p);
      }
      if q in paths && q != p {
        var j :| 0 <= j < |ListedPaths(r, p)| && Below(r, ListedPaths(r, p)[j], q);
        ListedFacts(r, p, j);
        BelowInTree(r, ListedPaths(r, p)[j], q);
        BelowChild(r, p, ListedPaths(r, p)[j], q);
      }
    }
  }

  lemma {:induction false} WalkChildrenIsExact(r: Remote, p: string, k: nat)
    requires WellFormed(r) && IsDirectory(r, p) && k <= |ListedPaths(r, p)|
    ensures ExactUpTo(r, p, k, [p] + WalkChildren(r, p, k))
    decreases Headroom(r, p), 0, k
  {
    hide WellFormed, ExactUpTo, Exact, Walk, Distinct, ListedPaths, IsListed, IsChild;
    if k > 0 {
      ListedFacts(r, p, k - 1);
      ChildFacts(r, p, ListedPaths(r, p)[k - 1]);
      WalkChildrenIsExact(r, p, k - 1);
      WalkIsExact(r, ListedPaths(r, p)[k - 1]);
      NextChild(r, p, k, [p] + WalkChildren(r, p, k - 1), Walk(r, ListedPaths(r, p)[k - 1]));
      assert [p] + WalkChildren(r, p, k) == [p] + WalkChildren(r, p, k - 1) + Walk(r, ListedPaths(r, p)[k - 1]);
    } else {
      AloneIsExact(r, p);
    }
  }

  lemma AloneIsExact(r: Remote, p: string)
    ensures ExactUpTo(r, p, 0, [p] + [])
  {
    assert [p] + [] == [p];
  }

  lemma NextChild(r: Remote, p: string, k: nat, first: seq<string>, rest: seq<string>)
    requires WellFormed(r) && IsDirectory(r, p) && 0 < k <= |ListedPaths(r, p)|
    requires ExactUpTo(r, p, k - 1, first) && Exact(r, ListedPaths(r, p)[k - 1], rest)
    ensures ExactUpTo(r, p, k, first + rest)
  {
    hide WellFormed, Preceded, Below, ListedPaths, Distinct, IsListed;
    var c := ListedPaths(r, p)[k - 1];
    ListedFacts(r, p, k - 1);
    ChildFacts(r, p, c);
    forall q | q in first
      ensures q !in rest
    {
      if q in rest {
        BelowChild(r, p, c, q);
        var j :| 0 <= j < k - 1 && Below(r, ListedPaths(r, p)[j], q);
        ListedFacts(r, p, j);
        ChildrenApart(r, p, ListedPaths(r, p)[j], c, q);
        DifferentChildren(r, p, j, k - 1);
      }
    }
    JoinWalks(first, rest);
    forall q
      ensures q in first + rest <==> q == p || (q in r.tree && exists j :: 0 <= j < k && Below(r, ListedPaths(r, p)[j], q))
    {
      if q in rest { assert Below(r, ListedPaths(r, p)[k - 1], q); }
    }
  }

  lemma DifferentChildren(r: Remote, p: string, j: nat, k: nat)
    requires WellFormed(r) && IsDirectory(r, p) && j < k < |ListedPaths(r, p)|
    ensures ListedPaths(r, p)[j] != ListedPaths(r, p)[k]
  {
    ListedFacts(r, p, j);
  }

  /** Every child of every directory is listed. */
  ghost predicate Complete(r: Remote) {
    forall p, q :: IsChild(r, p, q) ==> IsListed(r, p, q)
  }

  lemma {:induction false} AllBelowRoot(r: Remote, q: string)
    requires WellFormed(r) && Complete(r) && q in r.tree
    ensures Below(r, ROOT, q)
    decreases |q|
  {
    hide ParentPathOf, ListedPaths;
    if q != ROOT {
      assert InDirectory(r, q);
      ParentStaysRooted(q);
      assert IsChild(r, ParentPathOf(q).value, q);
      AllBelowRoot(r, ParentPathOf(q).value);
    }
  }

  /** The walk from the root meets no resource twice, the root first and every other after the directory that
      holds it. It meets all of them exactly when every listing is complete. */
  lemma WalkEnumeratesTreeIff(r: Remote)
    requires WellFormed(r)
    ensures ROOT in r.tree && Distinct(Walk(r, ROOT)) && forall q :: q in Walk(r, ROOT) ==> q in r.tree
    ensures Walk(r, ROOT) != [] && Walk(r, ROOT)[0] == ROOT
    ensures forall k :: 0 < k < |Walk(r, ROOT)| ==> Preceded(Walk(r, ROOT), k)
    ensures Enumerates(Walk(r, ROOT), r.tree.Keys) <==> Complete(r)
  {
    hide Walk, ParentPathOf, ListedPaths, WellFormed, Preceded;
    RootIsThere(r);
    WalkIsExact(r, ROOT);
    if Complete(r) {
      forall q | q in r.tree ensures Below(r, ROOT, q) { AllBelowRoot(r, q); }
    }
    if Enumerates(Walk(r, ROOT), r.tree.Keys) {
      forall p, q | IsChild(r, p, q)
        ensures IsListed(r, p, q)
      {
        assert q in Walk(r, ROOT);
      }
    }
  }

  /** Directories hold files and directories only, and no page is empty while children are left. */
  ghost predicate PagesProgress(r: Remote) {
    forall p :: IsDirectory(r, p) && p in r.served ==>
      Progresses(r.served[p]) && forall k :: 0 <= k < |r.served[p].items| ==> Supported(r.served[p].items[k])
  }

  lemma ListedPathsAre(r: Remote, p: string)
    requires p in r.served && forall k :: 0 <= k < |r.served[p].items| ==> Supported(r.served[p].items[k])
    ensures |ListedPaths(r, p)| == Fetched(r.served[p], 0)
    ensures forall k :: 0 <= k < |ListedPaths(r, p)| ==> ListedPaths(r, p)[k] == r.served[p].items[k].path
  {
    hide Fetched, TryIntoResource, Converted;
    var d := r.served[p];
    var items := d.items[..Fetched(d, 0)];
    assert forall k :: 0 <= k < |items| ==> items[k] == d.items[k];
    ConvertedIff(items);
    forall k | 0 <= k < |items|
      ensures Listing(r, p)[k].path == d.items[k].path
    {
      ResourcePath(d.items[k]);
    }
  }

  /** One directory: every child is listed exactly when all of its items are fetched. */
  lemma DirectoryComplete(r: Remote, p: string)
    requires WellFormed(r) && IsDirectory(r, p) && p in r.served && ServesChildren(r, p, r.served[p])
    requires forall k :: 0 <= k < |r.served[p].items| ==> Supported(r.served[p].items[k])
    ensures (forall q :: IsChild(r, p, q) ==> IsListed(r, p, q)) <==> Fetched(r.served[p], 0) == |r.served[p].items|
  {
    var d := r.served[p];
    ListedPathsAre(r, p);
    hide WellFormed, ListedPaths, Fetched, IsChild, TryIntoResource;
    var n := Fetched(d, 0);
    if n == |d.items| {
      forall q | IsChild(r, p, q)
        ensures IsListed(r, p, q)
      {
        var k :| 0 <= k < |d.items| && d.items[k].path == q;
        assert ListedPaths(r, p)[k] == q;
      }
    } else {
      assert ItemOk(r, p, d.items[n]);
      assert IsChild(r, p, d.items[n].path);
      assert forall k :: 0 <= k < n ==> d.items[k].path != d.items[n].path;
    }
  }

  /** From pages to the tree: the walk enumerates the remote tree exactly when, in every directory, each page
      before the last reports a total beyond its own end. */
  lemma PagesDecideTree(r: Remote)
    requires WellFormed(r) && PagesProgress(r)
    ensures ROOT in r.tree
    ensures Enumerates(Walk(r, ROOT), r.tree.Keys)
            <==> forall p :: IsDirectory(r, p) && p in r.served ==> TotalsReachOn(r.served[p])
  {
    hide Walk, Fetched, TotalsReachOn, ListedPaths, IsChild, Supported, Progresses, Enumerates;
    WalkEnumeratesTreeIff(r);
    forall p | IsDirectory(r, p) && p in r.served
      ensures (forall q :: IsChild(r, p, q) ==> IsListed(r, p, q)) <==> TotalsReachOn(r.served[p])
    {
      DirectoryComplete(r, p);
      ListingIsCompleteIff(r.served[p]);
    }
    ChildrenHaveDirectories(r);
  }

  lemma ChildrenHaveDirectories(r: Remote)
    requires WellFormed(r)
    ensures forall p, q :: IsChild(r, p, q) ==> IsDirectory(r, p) && p in r.served
  {
    hide ParentPathOf;
    forall p, q | IsChild(r, p, q)
      ensures IsDirectory(r, p) && p in r.served
    {
      LongerChild(r, p, q);
    }
  }
}
