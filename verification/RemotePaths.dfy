/** Remote paths are strings such as `disk:/docs/a.txt`. The root is `disk:/`; below it a path is
    its parent, a slash and a name. The functions mirror the path helpers of `src/sync.rs`. */
module RemotePaths {
  import opened Wrappers

  const ROOT := "disk:/"

  predicate SlashFree(s: string) { '/' !in s }

  /** A name the kernel or the remote side may give to a child. */
  predicate ChildName(s: string) { s != "" && SlashFree(s) }

  function LastSlash(p: string): (i: int)
    ensures -1 <= i < |p|
    ensures i >= 0 ==> p[i] == '/'
    ensures forall k :: i < k < |p| ==> p[k] != '/'
  {
    if p == "" then -1
    else if p[|p| - 1] == '/' then |p| - 1
    else LastSlash(p[..|p| - 1])
  }

  function ParentPathOf(p: string): Option<string> {
    if p == ROOT || LastSlash(p) < 0 then None
    else
      var parent := p[..LastSlash(p)];
      if parent == "" || parent == "disk:" then Some(ROOT) else Some(parent)
  }

  function NameOf(p: string): string {
    if p == ROOT then ROOT else p[LastSlash(p) + 1..]
  }

  function Join(parent: string, name: string): string {
    if parent == ROOT then ROOT + name else parent + "/" + name
  }

  /** `q` is `p` itself or lies below it, slash boundary included. */
  predicate InSubtree(p: string, q: string) { q == p || p + "/" <= q }

  /** Joining a name to a parent and splitting the result again gives both back, for exactly the
      parents that are neither empty nor the bare scheme. */
  lemma JoinThenSplit(parent: string, name: string)
    requires ChildName(name)
    ensures NameOf(Join(parent, name)) == name
    ensures ParentPathOf(Join(parent, name)) == Some(parent) <==> parent != "" && parent != "disk:"
  {
    var p := Join(parent, name);
    var cut := if parent == ROOT then 5 else |parent|;
    assert p[cut] == '/' && p[cut + 1..] == name;
    assert forall k :: cut < k < |p| ==> p[k] == name[k - cut - 1];
    assert LastSlash(p) == cut;
    assert p[..cut] == if parent == ROOT then "disk:" else parent;
    assert LastSlash(ROOT) == 5;
  }

  lemma SplitAtSlash(p: string, stem: string, name: string)
    requires p != ROOT && LastSlash(p) >= 0
    requires stem == p[..LastSlash(p)] && name == p[LastSlash(p) + 1..]
    ensures p == stem + "/" + name
  {
  }

  /** Splitting a path and joining the halves restores it, for exactly the paths whose part before
      the last slash is neither empty nor the root. */
  lemma SplitThenJoin(p: string)
    requires p != ROOT && LastSlash(p) >= 0
    ensures Join(ParentPathOf(p).value, NameOf(p)) == p <==> p[..LastSlash(p)] != "" && p[..LastSlash(p)] != ROOT
  {
    var stem, name := p[..LastSlash(p)], p[LastSlash(p) + 1..];
    SplitAtSlash(p, stem, name);
    if stem == "disk:" {
      assert "disk:" + "/" == ROOT;
    } else if stem == "" || stem == ROOT {
      assert |Join(ROOT, name)| == 6 + |name|;
      assert |p| == |stem| + 1 + |name|;
    }
  }

  /** A path that starts with the root prefix has a parent that does too. */
  lemma ParentStaysRooted(p: string)
    requires ROOT <= p && p != ROOT
    ensures ParentPathOf(p).Some? && ROOT <= ParentPathOf(p).value
    ensures p[..LastSlash(p)] == "disk:" || ROOT <= p[..LastSlash(p)]
    ensures |ParentPathOf(p).value| < |p|
  {
    assert p[5] == ROOT[5] == '/';
    var i := LastSlash(p);
    assert i >= 5;
    if i == 5 {
      assert p[..5] == ROOT[..5];
    } else {
      assert p[..i][..6] == ROOT;
    }
  }

  /** Between a path and one of its descendants lies the descendant's parent. */
  lemma ParentInSubtree(p: string, q: string)
    requires ROOT <= p && p != ROOT && p + "/" <= q
    ensures ROOT <= q && q != ROOT
    ensures ParentPathOf(q).Some? && InSubtree(p, ParentPathOf(q).value)
  {
    assert q[..|p|] == p;
    ParentStaysRooted(q);
    var i := LastSlash(q);
    assert q[|p|] == (p + "/")[|p|] == '/';
    assert i >= |p|;
    if i == |p| {
      assert q[..i] == p;
    } else {
      assert q[..i][..|p| + 1] == q[..|p| + 1] == p + "/";
    }
    assert q[..i][..|p|] == p;
  }
}
