/** Enumerating the remote tree: the paging loop of a directory listing, the choice of a version, and
    the recursive walk that feeds reconciling. */
module RemoteListing {
  import opened Wrappers
  import opened Tables
  import opened SyncSteps
  import ConflictNames

  const PAGE_LIMIT := 1000

  datatype Item = Item(
    path: string,
    name: string,
    kind: string,
    size: Option<nat>,
    revision: Option<nat>,
    sha256: Option<string>,
    md5: Option<string>,
    modified: Option<string>,
    resourceId: Option<string>)

  // ---- One resource ----

  function OrElse(a: Option<string>, b: Option<string>): Option<string> { if a.Some? then a else b }

  function Version(item: Item): Option<string> {
    var revision := match item.revision case Some(r) => Some(ConflictNames.Digits(r)) case None => None;
    OrElse(OrElse(OrElse(OrElse(revision, item.sha256), item.md5), item.modified), item.resourceId)
  }

  function TryIntoResource(item: Item): Result<RemoteEntry, RemoteError> {
    if item.kind != "dir" && item.kind != "file" then Err(InvalidResponse)
    else
      Ok(RemoteEntry(item.path, item.name, if item.kind == "dir" then Directory else File,
                     match item.size case Some(n) => n case None => 0, Version(item)))
  }

  /** A resource has a version unless all five fields are missing, and while the remote side reports
      revisions two resources have the same version only if they have the same revision. */
  lemma VersionTellsRevisions(a: Item, b: Item)
    ensures Version(a).None? <==> a.revision.None? && a.sha256.None? && a.md5.None? && a.modified.None? && a.resourceId.None?
    ensures a.revision.Some? && b.revision.Some? ==> (Version(a) == Version(b) <==> a.revision == b.revision)
  {
    if a.revision.Some? && b.revision.Some? {
      ConflictNames.DigitsRoundTrip(a.revision.value);
      ConflictNames.DigitsRoundTrip(b.revision.value);
    }
  }

  /** The version is the first of the five fields that is there, in the documented order. */
  lemma VersionIsFirstPresent(a: Item)
    ensures a.revision.Some? ==> Version(a) == Some(ConflictNames.Digits(a.revision.value))
    ensures a.revision.None? && a.sha256.Some? ==> Version(a) == a.sha256
    ensures a.revision.None? && a.sha256.None? && a.md5.Some? ==> Version(a) == a.md5
    ensures a.revision.None? && a.sha256.None? && a.md5.None? && a.modified.Some? ==> Version(a) == a.modified
    ensures a.revision.None? && a.sha256.None? && a.md5.None? && a.modified.None? ==> Version(a) == a.resourceId
  {
  }

  /** What a resource is taken for: exactly the two known types are accepted, and a missing size counts as empty. */
  lemma ResourceIsRead(a: Item)
    ensures TryIntoResource(a).Ok? <==> a.kind == "dir" || a.kind == "file"
    ensures TryIntoResource(a).Ok? ==>
              var r := TryIntoResource(a).value;
              && r.path == a.path && r.name == a.name && r.version == Version(a)
              && (r.kind == Directory <==> a.kind == "dir") && (a.size.Some? ==> r.size == a.size.value) && (a.size.None? ==> r.size == 0)
  {
  }

  // ---- One directory ----

  /** A directory as the remote side serves it: its children in order, how many of them it sends from an
      offset, the total it reports there, and whether the request at an offset fails or comes back without
      any children listed. */
  datatype Served = Served(items: seq<Item>, batch: nat -> nat, total: nat -> Option<nat>, fault: nat -> Option<RemoteError>)

  function BatchSize(d: Served, offset: nat): (n: nat)
    ensures n <= PAGE_LIMIT && (offset <= |d.items| ==> offset + n <= |d.items|)
  {
    var left := if offset <= |d.items| then |d.items| - offset else 0;
    var n := d.batch(offset);
    if n <= left && n <= PAGE_LIMIT then n else if left <= PAGE_LIMIT then left else PAGE_LIMIT
  }

  function TotalAt(d: Served, offset: nat): nat {
    match d.total(offset) case Some(t) => t case None => BatchSize(d, offset)
  }

  /** No page is empty while children are left. */
  ghost predicate Progresses(d: Served) {
    forall offset: nat :: offset < |d.items| ==> BatchSize(d, offset) > 0
  }

  /** Where the loop that has fetched `offset` children stops. */
  function Fetched(d: Served, offset: nat): (n: nat)
    requires offset <= |d.items|
    ensures offset <= n <= |d.items|
    decreases |d.items| - offset
  {
    var size := BatchSize(d, offset);
    if Stops(d, offset) then offset + size else Fetched(d, offset + size)
  }

  predicate Stops(d: Served, offset: nat) {
    BatchSize(d, offset) == 0 || offset + BatchSize(d, offset) >= TotalAt(d, offset)
  }

  /** The first request that fails, in the loop that has fetched `offset` children. */
  function FirstFault(d: Served, offset: nat): Option<RemoteError>
    requires offset <= |d.items|
    decreases |d.items| - offset
  {
    if d.fault(offset).Some? then d.fault(offset)
    else if Stops(d, offset) then None
    else FirstFault(d, offset + BatchSize(d, offset))
  }

  function Converted(items: seq<Item>): Result<seq<RemoteEntry>, RemoteError> {
    if items == [] then Ok([])
    else
      match Converted(items[..|items| - 1])
      case Err(e) => Err(e)
      case Ok(before) =>
        match TryIntoResource(items[|items| - 1])
        case Err(e) => Err(e)
        case Ok(r) => Ok(before + [r])
  }

  predicate Supported(item: Item) { TryIntoResource(item).Ok? }

  /** A list converts exactly when every item is a file or a directory, and then item by item. */
  lemma {:induction false} ConvertedIff(items: seq<Item>)
    ensures Converted(items).Ok? <==> forall k :: 0 <= k < |items| ==> Supported(items[k])
    ensures Converted(items).Ok? ==>
              && |Converted(items).value| == |items|
              && forall k :: 0 <= k < |items| ==> Ok(Converted(items).value[k]) == TryIntoResource(items[k])
  {
    if items != [] {
      ConvertedIff(items[..|items| - 1]);
      assert forall k :: 0 <= k < |items| - 1 ==> items[..|items| - 1][k] == items[k];
    }
  }

  lemma {:induction false} ErrorStays(items: seq<Item>, n: nat, m: nat)
    requires n <= m <= |items| && Converted(items[..n]).Err?
    ensures Converted(items[..m]).Err?
  {
    if n < m {
      ErrorStays(items, n, m - 1);
      assert items[..m][..m - 1] == items[..m - 1];
    }
  }

  /** One more child. */
  lemma ConvertedNext(items: seq<Item>, k: nat, before: seq<RemoteEntry>)
    requires k < |items| && Converted(items[..k]) == Ok(before)
    ensures Converted(items[..k + 1]) == match TryIntoResource(items[k]) case Err(e) => Err(e) case Ok(r) => Ok(before + [r])
    ensures TryIntoResource(items[k]).Err? ==> TryIntoResource(items[k]).error == InvalidResponse
  {
    assert items[..k + 1][..k] == items[..k];
  }

  /** One more page. */
  lemma PageStep(d: Served, offset: nat)
    requires offset <= |d.items|
    ensures offset + BatchSize(d, offset) <= |d.items|
    ensures d.fault(offset).Some? ==> FirstFault(d, offset) == d.fault(offset)
    ensures d.fault(offset).None? && Stops(d, offset) ==>
              FirstFault(d, offset) == None && Fetched(d, offset) == offset + BatchSize(d, offset)
    ensures d.fault(offset).None? && !Stops(d, offset) ==>
              && BatchSize(d, offset) > 0
              && FirstFault(d, offset) == FirstFault(d, offset + BatchSize(d, offset))
              && Fetched(d, offset) == Fetched(d, offset + BatchSize(d, offset))
  {
  }

  /** `list_directory`: it succeeds exactly when no request fails and every fetched child is a file or a
      directory, and then returns the children up to where paging stops. */
  method ListDirectory(d: Served) returns (r: Result<seq<RemoteEntry>, RemoteError>)
    ensures r.Ok? <==> FirstFault(d, 0).None? && Converted(d.items[..Fetched(d, 0)]).Ok?
    ensures r.Ok? ==> r == Converted(d.items[..Fetched(d, 0)])
    ensures r.Err? ==> FirstFault(d, 0) == Some(r.error) || r.error == InvalidResponse
  {
    hide FirstFault, Fetched, Converted, TryIntoResource, Stops, BatchSize;
    var offset := 0;
    var items: seq<RemoteEntry> := [];
    NoneConverted(d.items);
    while true
      invariant offset <= |d.items|
      invariant Fetched(d, offset) == Fetched(d, 0) && FirstFault(d, offset) == FirstFault(d, 0)
      invariant Converted(d.items[..offset]) == Ok(items)
      decreases |d.items| - offset
    {
      PageStep(d, offset);
      if d.fault(offset).Some? { return Err(d.fault(offset).value); }
      var size := BatchSize(d, offset);
      for k := offset to offset + size
        invariant Converted(d.items[..k]) == Ok(items)
      {
        ConvertedNext(d.items, k, items);
        var converted := TryIntoResource(d.items[k]);
        if converted.Err? {
          ErrorStays(d.items, k + 1, Fetched(d, 0));
          return Err(converted.error);
        }
        items := items + [converted.value];
      }
      if Stops(d, offset) {
        return Ok(items);
      }
      offset := offset + size;
    }
  }

  lemma NoneConverted(items: seq<Item>)
    ensures Converted(items[..0]) == Ok([])
  {
  }

  /** The children fetched after `k` pages. */
  function Boundary(d: Served, k: nat): (n: nat)
    ensures n <= |d.items|
  {
    if k == 0 then 0 else var before := Boundary(d, k - 1); before + BatchSize(d, before)
  }

  /** Every page before the last reports a total beyond its own end. */
  ghost predicate TotalsReachOn(d: Served) {
    forall k: nat :: Boundary(d, k + 1) < |d.items| ==> Boundary(d, k + 1) < TotalAt(d, Boundary(d, k))
  }

  /** One page that does not end the listing. */
  lemma NextPage(d: Served, k: nat)
    requires Progresses(d) && Boundary(d, k) < |d.items| && Boundary(d, k + 1) < TotalAt(d, Boundary(d, k))
    ensures Fetched(d, Boundary(d, k)) == Fetched(d, Boundary(d, k + 1))
  {
    hide TotalAt;
    assert BatchSize(d, Boundary(d, k)) > 0;
  }

  lemma {:induction false} StopsAt(d: Served, k: nat)
    requires Progresses(d)
    requires forall j: nat :: j < k ==> Boundary(d, j + 1) < TotalAt(d, Boundary(d, j)) && Boundary(d, j) < |d.items|
    ensures Fetched(d, 0) == Fetched(d, Boundary(d, k))
  {
    hide Boundary, Fetched, TotalAt, Progresses;
    if k > 0 {
      StopsAt(d, k - 1);
      NextPage(d, k - 1);
    } else {
      NoPages(d);
    }
  }

  lemma NoPages(d: Served)
    ensures Boundary(d, 0) == 0
  {
  }

  /** A full listing, page by page. */
  lemma {:induction false} ReachesEnd(d: Served, k: nat)
    requires Progresses(d) && TotalsReachOn(d)
    ensures Fetched(d, Boundary(d, k)) == |d.items|
    decreases |d.items| - Boundary(d, k)
  {
    var b := Boundary(d, k);
    assert Boundary(d, k + 1) == b + BatchSize(d, b);
    if b < |d.items| && Boundary(d, k + 1) < |d.items| {
      ReachesEnd(d, k + 1);
    } else if b == |d.items| {
      assert BatchSize(d, b) == 0;
    }
  }

  lemma {:induction false} PagesGrow(d: Served, j: nat, k: nat)
    requires j <= k
    ensures Boundary(d, j) <= Boundary(d, k)
  {
    if j < k { PagesGrow(d, j, k - 1); }
  }

  lemma LastPage(d: Served, k: nat)
    requires TotalAt(d, Boundary(d, k)) <= Boundary(d, k + 1)
    ensures Fetched(d, Boundary(d, k)) == Boundary(d, k + 1)
  {
    hide TotalAt;
  }

  /** The least page that ends early ends the listing there. */
  lemma {:induction false} StopsEarly(d: Served, k: nat)
    requires Progresses(d) && Boundary(d, k + 1) < |d.items| && TotalAt(d, Boundary(d, k)) <= Boundary(d, k + 1)
    ensures Fetched(d, 0) < |d.items|
  {
    hide Boundary, TotalAt, Progresses;
    if j: nat :| j < k && TotalAt(d, Boundary(d, j)) <= Boundary(d, j + 1) {
      PagesGrow(d, j + 1, k + 1);
      StopsEarly(d, j);
    } else {
      forall j: nat | j < k
        ensures Boundary(d, j + 1) < TotalAt(d, Boundary(d, j)) && Boundary(d, j) < |d.items|
      {
        PagesGrow(d, j, k + 1);
      }
      StopsAt(d, k);
      PagesGrow(d, k, k + 1);
      LastPage(d, k);
    }
  }

  /** The listing is complete exactly when every page before the last reports a total beyond its end. */
  lemma ListingIsCompleteIff(d: Served)
    requires Progresses(d)
    ensures Fetched(d, 0) == |d.items| <==> TotalsReachOn(d)
  {
    if TotalsReachOn(d) {
      ReachesEnd(d, 0);
    } else {
      var k: nat :| Boundary(d, k + 1) < |d.items| && TotalAt(d, Boundary(d, k)) <= Boundary(d, k + 1);
      StopsEarly(d, k);
    }
  }

  /** The page is asked for: no page before it ended the listing. */
  ghost predicate Requested(d: Served, k: nat) {
    forall j: nat :: j < k ==> !Stops(d, Boundary(d, j))
  }

  lemma {:induction false} FaultsFrom(d: Served, k: nat)
    requires Requested(d, k)
    ensures FirstFault(d, Boundary(d, k)).None? <==> forall j: nat :: k <= j && Requested(d, j) ==> d.fault(Boundary(d, j)).None?
    decreases |d.items| - Boundary(d, k)
  {
    var b := Boundary(d, k);
    if d.fault(b).Some? || Stops(d, b) {
      forall j: nat | k <= j && Requested(d, j) ensures j == k || d.fault(b).Some? {}
    } else {
      assert Boundary(d, k + 1) == b + BatchSize(d, b);
      FaultsFrom(d, k + 1);
    }
  }

  /** A listing meets a failure exactly when one of the pages it asks for fails. */
  lemma FirstFaultIff(d: Served)
    ensures FirstFault(d, 0).None? <==> forall k: nat :: Requested(d, k) ==> d.fault(Boundary(d, k)).None?
  {
    FaultsFrom(d, 0);
  }

  /** A correct total gives the whole directory; without a total only the first page is ever read. */
  lemma TotalDecides(d: Served)
    requires Progresses(d)
    ensures (forall offset: nat :: d.total(offset) == Some(|d.items|)) ==> Fetched(d, 0) == |d.items|
    ensures d.total(0) == None ==> Fetched(d, 0) == BatchSize(d, 0)
  {
    ListingIsCompleteIff(d);
  }
}
