/** The kernel's view of the tree: inode numbers, the paths they stand for, the children of listed
    directories and the open write handles. The operations of `FsState` as functions on a value, in
    closed form where the program walks a subtree. */
module InodeCache {
  import opened RemotePaths
  import opened Tables

  type Ino = nat
  type Fh = nat

  const ROOT_INO: Ino := 1

  datatype Node = Node(ino: Ino, parent: Ino, path: string, name: string, kind: Kind, size: nat)

  datatype Handle = Handle(ino: Ino, parent: Ino, path: string, dirty: bool, isNew: bool)

  datatype Cache = Cache(
    entries: map<Ino, Node>,
    paths: map<string, Ino>,
    children: map<Ino, map<string, Ino>>,
    handles: map<Fh, Handle>,
    nextIno: Ino,
    nextFh: Fh)

  function FromStored(ino: Ino, parent: Ino, row: Row): Node {
    Node(ino, parent, row.path, row.name, row.kind, row.size)
  }

  function Initial(root: Row): Cache {
    Cache(map[ROOT_INO := FromStored(ROOT_INO, ROOT_INO, root)], map[ROOT := ROOT_INO], map[], map[], 2, 1)
  }

  // ---- Invariants ----

  /** `entries` and `paths` are inverse to each other, and every number in use has been handed out. */
  predicate Linked(c: Cache) {
    && (forall i :: i in c.entries ==>
          i < c.nextIno && c.entries[i].ino == i && c.entries[i].path in c.paths && c.paths[c.entries[i].path] == i)
    && (forall p :: p in c.paths ==> c.paths[p] in c.entries && c.entries[c.paths[p]].path == p)
  }

  predicate LinkOk(c: Cache, i: Ino, name: string, j: Ino)
    requires i in c.entries
  {
    ChildName(name) && j < c.nextIno && (j in c.entries ==> c.entries[j].path == Join(c.entries[i].path, name))
  }

  /** A listed directory's children are named by its path; a child that is gone may linger. */
  predicate ChildrenOk(c: Cache) {
    && (forall i :: i in c.entries ==> ROOT <= c.entries[i].path)
    && (forall i :: i in c.children ==> i in c.entries)
    && (forall i, n :: i in c.children && n in c.children[i] ==> LinkOk(c, i, n, c.children[i][n]))
  }

  predicate CacheOk(c: Cache) { Linked(c) && ChildrenOk(c) }

  /** An open handle writes to the path its inode stands for. */
  predicate HandlesOk(c: Cache) {
    && (forall h :: h in c.handles ==> c.handles[h].ino < c.nextIno)
    && (forall h :: h in c.handles && c.handles[h].ino in c.entries ==> c.handles[h].path == c.entries[c.handles[h].ino].path)
  }

  // ---- Walking a subtree ----

  ghost function Longest(entries: map<Ino, Node>): (n: nat)
    ensures forall i :: i in entries ==> |entries[i].path| <= n
  {
    if entries == map[] then 0
    else
      var i :| i in entries;
      var rest := Longest(entries - {i});
      assert forall j :: j in entries && j != i ==> j in entries - {i};
      if |entries[i].path| <= rest then rest else |entries[i].path|
  }

  /** How much longer a path can still get: it shrinks at every step downwards. */
  ghost function Headroom(c: Cache, i: Ino): nat {
    if i in c.entries then Longest(c.entries) - |c.entries[i].path| + 1 else 0
  }

  lemma ChildrenHaveLessHeadroom(c: Cache, i: Ino)
    requires ChildrenOk(c) && i in c.children
    ensures forall n :: n in c.children[i] ==> Headroom(c, c.children[i][n]) < Headroom(c, i)
  {
    forall n | n in c.children[i]
      ensures Headroom(c, c.children[i][n]) < Headroom(c, i)
    {
      assert LinkOk(c, i, n, c.children[i][n]);
    }
  }

  /** The cached inodes at or below an inode, as far as listed directories lead. */
  ghost function Reach(c: Cache, i: Ino): (r: set<Ino>)
    requires ChildrenOk(c)
    ensures r <= c.entries.Keys
    ensures i in c.entries ==> i in r
    decreases Headroom(c, i)
  {
    if i !in c.entries then {}
    else if i !in c.children then {i}
    else
      ChildrenHaveLessHeadroom(c, i);
      {i} + set n, j | n in c.children[i] && j in Reach(c, c.children[i][n]) :: j
  }

  lemma {:induction false} ReachIsClosed(c: Cache, i: Ino, k: Ino, n: string)
    requires ChildrenOk(c) && k in Reach(c, i) && k in c.children && n in c.children[k] && c.children[k][n] in c.entries
    ensures c.children[k][n] in Reach(c, i)
    decreases Headroom(c, i)
  {
    if k != i {
      var m, j :| m in c.children[i] && j == k && k in Reach(c, c.children[i][m]);
      ChildrenHaveLessHeadroom(c, i);
      ReachIsClosed(c, c.children[i][m], k, n);
      assert c.children[k][n] in Reach(c, c.children[i][m]);
    } else {
      ChildrenHaveLessHeadroom(c, i);
      assert c.children[k][n] in Reach(c, c.children[i][n]);
    }
  }

  lemma {:induction false} ReachedThrough(c: Cache, i: Ino, j: Ino) returns (k: Ino, n: string)
    requires ChildrenOk(c) && j in Reach(c, i) && j != i
    ensures k in Reach(c, i) && k in c.children && n in c.children[k] && c.children[k][n] == j
    decreases Headroom(c, i)
  {
    var m :| m in c.children[i] && j in Reach(c, c.children[i][m]);
    ChildrenHaveLessHeadroom(c, i);
    if j == c.children[i][m] {
      k, n := i, m;
    } else {
      k, n := ReachedThrough(c, c.children[i][m], j);
    }
  }

  lemma BelowJoin(p: string, n: string, q: string)
    requires ROOT <= p && p != ROOT && InSubtree(Join(p, n), q)
    ensures InSubtree(p, q)
  {
    assert p + "/" <= Join(p, n);
  }

  /** What is reached lies in the subtree by its path too. */
  lemma {:induction false} ReachIsBelow(c: Cache, i: Ino, j: Ino)
    requires ChildrenOk(c) && j in Reach(c, i) && c.entries[i].path != ROOT
    ensures InSubtree(c.entries[i].path, c.entries[j].path)
    decreases Headroom(c, i)
  {
    if j != i {
      var m :| m in c.children[i] && j in Reach(c, c.children[i][m]);
      ChildrenHaveLessHeadroom(c, i);
      assert LinkOk(c, i, m, c.children[i][m]);
      ReachIsBelow(c, c.children[i][m], j);
      BelowJoin(c.entries[i].path, m, c.entries[j].path);
    }
  }

  // ---- The operations ----

  function Updated(node: Node, row: Row): Node {
    node.(path := row.path, name := row.name, kind := row.kind, size := row.size)
  }

  function InoFor(c: Cache, row: Row): Ino {
    if row.path in c.paths then c.paths[row.path] else c.nextIno
  }

  function Upserted(c: Cache, parent: Ino, row: Row): Cache {
    var i := InoFor(c, row);
    if row.path !in c.paths then
      c.(entries := c.entries[i := FromStored(i, parent, row)], paths := c.paths[row.path := i], nextIno := i + 1)
    else if i in c.entries then
      c.(entries := c.entries[i := Updated(c.entries[i], row).(parent := parent)])
    else c
  }

  /** A directory listing: its rows are upserted in order and become the children. */
  function UpsertedAll(c: Cache, parent: Ino, rows: seq<Row>): Cache {
    if rows == [] then c
    else Upserted(UpsertedAll(c, parent, rows[..|rows| - 1]), parent, rows[|rows| - 1])
  }

  function Mapped(c: Cache, parent: Ino, rows: seq<Row>): map<string, Ino> {
    if rows == [] then map[]
    else
      var init, last := rows[..|rows| - 1], rows[|rows| - 1];
      Mapped(c, parent, init)[last.name := InoFor(UpsertedAll(c, parent, init), last)]
  }

  function Loaded(c: Cache, parent: Ino, rows: seq<Row>): Cache {
    var after := UpsertedAll(c, parent, rows);
    after.(children := after.children[parent := Mapped(c, parent, rows)])
  }

  function Repathed(paths: map<string, Ino>, from: string, to: string, i: Ino): map<string, Ino> {
    if from == to then paths else (paths - {from})[to := i]
  }

  function Refreshed(c: Cache, i: Ino, row: Row): Cache {
    if i !in c.entries then c
    else
      c.(entries := c.entries[i := Updated(c.entries[i], row)], paths := Repathed(c.paths, c.entries[i].path, row.path, i))
  }

  function Stale(c: Cache, i: Ino): Cache { c.(children := c.children - {i}) }

  /** A handle's bytes have been committed to `row`. */
  function Committed(c: Cache, h: Fh, row: Row): Cache {
    if h !in c.handles || c.handles[h].ino !in c.entries then c
    else
      var handle := c.handles[h];
      var i := handle.ino;
      var c1 := Refreshed(c, i, row);
      Stale(c1.(entries := c1.entries[i := c1.entries[i].(parent := handle.parent)],
                handles := c1.handles[h := handle.(path := row.path, dirty := false, isNew := false)]),
            handle.parent)
  }

  function Removed(c: Cache, gone: set<Ino>): Cache {
    c.(entries := c.entries - gone,
       paths := map p | p in c.paths && c.paths[p] !in gone :: c.paths[p],
       children := c.children - gone)
  }

  /** `strip_prefix(from).unwrap_or("")` pasted behind `to`. */
  function Substituted(from: string, to: string, path: string): string {
    if from <= path then to + path[|from|..] else to
  }

  function MovedNode(node: Node, i: Ino, from: string, newParent: Ino, newName: string, to: string): Node {
    var moved := node.(path := Substituted(from, to, node.path));
    if node.ino == i then moved.(parent := newParent, name := newName) else moved
  }

  /** Handles are rewritten on a bare string prefix, without a slash boundary. */
  function MovedHandle(handle: Handle, i: Ino, from: string, newParent: Ino, to: string): Handle {
    if from <= handle.path then
      var moved := handle.(path := to + handle.path[|from|..]);
      if handle.ino == i then moved.(parent := newParent) else moved
    else handle
  }

  /** One inode of the subtree changes its path. */
  function MoveOne(c: Cache, j: Ino, i: Ino, from: string, newParent: Ino, newName: string, to: string): Cache {
    if j !in c.entries then c
    else
      var node := MovedNode(c.entries[j], i, from, newParent, newName, to);
      c.(entries := c.entries[j := node], paths := (c.paths - {c.entries[j].path})[node.path := j])
  }

  function MoveAll(c: Cache, nodes: seq<Ino>, i: Ino, from: string, newParent: Ino, newName: string, to: string): Cache {
    if nodes == [] then c
    else MoveOne(MoveAll(c, nodes[..|nodes| - 1], i, from, newParent, newName, to), nodes[|nodes| - 1], i, from, newParent, newName, to)
  }

  /** The list holds the cached inodes of a set once each, among others that are gone. */
  predicate Walks(c: Cache, reached: set<Ino>, nodes: seq<Ino>) {
    && (forall j :: j in c.entries ==> (j in nodes <==> j in reached))
    && (forall a, b :: 0 <= a < b < |nodes| && nodes[a] == nodes[b] ==> nodes[a] !in c.entries)
  }

  /** A walk of the subtree. */
  ghost predicate IsWalk(c: Cache, i: Ino, nodes: seq<Ino>)
    requires ChildrenOk(c)
  {
    Walks(c, Reach(c, i), nodes)
  }

  /** `rename_entry_subtree` along a walk. */
  function MovedSubtree(c: Cache, nodes: seq<Ino>, i: Ino, newParent: Ino, newName: string, to: string): Cache {
    if i !in c.entries then c
    else
      var from := c.entries[i].path;
      var c1 := MoveAll(c, nodes, i, from, newParent, newName, to);
      c1.(handles := map h | h in c1.handles :: MovedHandle(c1.handles[h], i, from, newParent, to))
  }

  /** What `rename_entry` drops first: whatever the cache still holds at the new path. */
  ghost function Cleared(c: Cache, i: Ino, to: string): Cache
    requires ChildrenOk(c)
  {
    if to in c.paths && c.paths[to] != i then Removed(c, Reach(c, c.paths[to])) else c
  }

  /** The cache's part of `rename_entry`; `nodes` is the walk of the cleared cache. */
  ghost function RenamedEntry(c: Cache, nodes: seq<Ino>, parent: Ino, i: Ino, newParent: Ino, newName: string, to: string): Cache
    requires ChildrenOk(c)
  {
    Stale(Stale(MovedSubtree(Cleared(c, i, to), nodes, i, newParent, newName, to), parent), newParent)
  }

  /** The cache's part of `unlink_entry`. */
  ghost function UnlinkedEntry(c: Cache, parent: Ino, i: Ino): Cache
    requires ChildrenOk(c)
  {
    Stale(Removed(c, Reach(c, i)), parent)
  }
}
