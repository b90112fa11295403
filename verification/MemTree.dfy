/** The in-memory tree of `memdb.c`.

    A tree is an inode index plus, for every directory, a table from names to inodes. Names are
    byte strings; a path is the list of its components. */
module MemTree {
  import opened Bytes

  type u32 = n: nat | n < 0x1_0000_0000
  type Name = seq<byte>
  type Path = seq<Name>

  datatype Option<+T> = None | Some(value: T)

  const MAX_FILE_SIZE: nat := 1024 * 1024

  datatype Kind = Reg | Dir

  /** `data` is what the data pointer refers to, empty for the null pointer; `size` is kept
      separately, as in the source. */
  datatype Entry = Entry(inode: nat, parent: nat, version: nat, writer: u32, mtime: u32,
                         kind: Kind, size: nat, name: Name, data: seq<byte>)

  datatype Tree = Tree(index: map<nat, Entry>, dirs: map<nat, map<Name, nat>>)

  // ---------------------------------------------------------------------------------------
  // Path lookup
  // ---------------------------------------------------------------------------------------

  /** The inode after the last component, looked up from directory to directory. */
  function Lookup(t: Tree, p: Path): Option<nat> {
    if p == [] then Some(0) else
      var n := |p| - 1;
      match Lookup(t, p[..n])
      case None => None
      case Some(d) => if d in t.dirs && p[n] in t.dirs[d] then Some(t.dirs[d][p[n]]) else None
  }

  // ---------------------------------------------------------------------------------------
  // The tree invariant
  // ---------------------------------------------------------------------------------------

  function Version(t: Tree): nat
    requires 0 in t.index
  {
    t.index[0].version
  }

  ghost predicate EntryOk(t: Tree, i: nat)
    requires 0 in t.index && i in t.index
  {
    var e := t.index[i];
    && e.inode == i && i <= Version(t) && e.version <= Version(t)
    && (i in t.dirs <==> e.kind.Dir?)
    && (i != 0 ==> e.parent in t.dirs && e.name in t.dirs[e.parent] && t.dirs[e.parent][e.name] == i)
  }

  ghost predicate ChildOk(t: Tree, d: nat, n: Name)
    requires d in t.dirs && n in t.dirs[d]
  {
    var c := t.dirs[d][n];
    c != 0 && c in t.index && t.index[c].parent == d && t.index[c].name == n
  }

  ghost predicate Reachable(t: Tree, i: nat) {
    exists p :: Lookup(t, p) == Some(i)
  }

  /** Index and directory tables describe one rooted tree, and no inode or entry version exceeds
      the version of the root. */
  ghost predicate TreeInv(t: Tree) {
    && 0 in t.index && t.index[0].kind.Dir? && t.index[0].parent == 0 && t.index[0].name == []
    && Version(t) > 0
    && (forall i :: i in t.index ==> EntryOk(t, i))
    && t.dirs.Keys <= t.index.Keys
    && (forall d, n :: d in t.dirs && n in t.dirs[d] ==> ChildOk(t, d, n))
    && (forall i :: i in t.index ==> Reachable(t, i))
  }

  lemma {:induction false} LookupInIndex(t: Tree, p: Path, i: nat)
    requires TreeInv(t) && Lookup(t, p) == Some(i)
    ensures i in t.index && EntryOk(t, i)
    ensures p == [] <==> i == 0
    ensures p != [] ==> Lookup(t, p[..|p| - 1]) == Some(t.index[i].parent) && p[|p| - 1] == t.index[i].name
  {
    if p != [] {
      var n := |p| - 1;
      var d := Lookup(t, p[..n]).value;
      assert ChildOk(t, d, p[n]);
    }
  }

  /** No inode has two paths. */
  lemma {:induction false} PathUnique(t: Tree, p: Path, q: Path, i: nat)
    requires TreeInv(t) && Lookup(t, p) == Some(i) && Lookup(t, q) == Some(i)
    ensures p == q
    decreases |p|
  {
    hide TreeInv, EntryOk, Lookup;
    LookupInIndex(t, p, i);
    LookupInIndex(t, q, i);
    if p != [] {
      var n, k := |p| - 1, |q| - 1;
      PathUnique(t, p[..n], q[..k], t.index[i].parent);
      assert p == p[..n] + [p[n]] && q == q[..k] + [q[k]];
    }
  }

  // ---------------------------------------------------------------------------------------
  // Elementary changes and what they do to paths
  // ---------------------------------------------------------------------------------------

  /** A new root version with its writer and time. */
  function Bump(t: Tree, writer: u32, mtime: u32): Tree
    requires 0 in t.index
  {
    t.(index := t.index[0 := t.index[0].(version := Version(t) + 1, writer := writer, mtime := mtime)])
  }

  /** Replace the attributes of an entry that stays where it is. */
  function SetEntry(t: Tree, e: Entry): Tree {
    t.(index := t.index[e.inode := e])
  }

  function AddLeaf(t: Tree, e: Entry): Tree
    requires e.parent in t.dirs
  {
    var names: map<Name, nat> := t.dirs[e.parent][e.name := e.inode];
    var dirs: map<nat, map<Name, nat>> := t.dirs[e.parent := names];
    Tree(t.index[e.inode := e], if e.kind.Dir? then dirs[e.inode := map[]] else dirs)
  }

  function RemoveLeaf(t: Tree, i: nat): Tree
    requires i in t.index && t.index[i].parent in t.dirs
  {
    var e := t.index[i];
    var names: map<Name, nat> := t.dirs[e.parent] - {e.name};
    Tree(t.index - {i}, t.dirs[e.parent := names] - {i})
  }

  lemma {:induction false} LookupSameDirs(t: Tree, u: Tree, p: Path)
    requires t.dirs == u.dirs
    ensures Lookup(t, p) == Lookup(u, p)
  {
    if p != [] {
      LookupSameDirs(t, u, p[..|p| - 1]);
    }
  }

  lemma {:induction false} ReachableSameDirs(t: Tree, u: Tree, i: nat)
    requires t.dirs == u.dirs && Reachable(t, i)
    ensures Reachable(u, i)
  {
    hide Lookup;
    var p :| Lookup(t, p) == Some(i);
    LookupSameDirs(t, u, p);
  }

  /** A change of attributes: tables, links and kinds stay, and no version gets ahead of the root. */
  ghost predicate Relabelled(t: Tree, u: Tree)
    requires 0 in t.index
  {
    && u.dirs == t.dirs && u.index.Keys == t.index.Keys && Version(u) >= Version(t)
    && forall i :: i in t.index ==> SameLinks(t.index[i], u.index[i]) && u.index[i].version <= Version(u)
  }

  predicate SameLinks(a: Entry, b: Entry) {
    a.inode == b.inode && a.parent == b.parent && a.name == b.name && a.kind == b.kind
  }

  lemma {:induction false} RelabelInv(t: Tree, u: Tree)
    requires TreeInv(t) && Relabelled(t, u)
    ensures TreeInv(u)
  {
    hide Reachable;
    forall i | i in u.index
      ensures EntryOk(u, i) && Reachable(u, i)
    {
      assert EntryOk(t, i) && SameLinks(t.index[i], u.index[i]);
      ReachableSameDirs(t, u, i);
    }
    assert SameLinks(t.index[0], u.index[0]);
    forall d, n | d in u.dirs && n in u.dirs[d]
      ensures ChildOk(u, d, n)
    {
      assert ChildOk(t, d, n);
      assert SameLinks(t.index[t.dirs[d][n]], u.index[t.dirs[d][n]]);
    }
  }

  lemma {:induction false} EntryVersions(t: Tree, i: nat)
    requires TreeInv(t) && i in t.index
    ensures 0 in t.index && t.index[i].inode == i && t.index[i].version <= Version(t)
  {
    assert EntryOk(t, i);
  }

  lemma {:induction false} RootPresent(t: Tree)
    requires TreeInv(t)
    ensures 0 in t.index
  {
    hide Reachable, EntryOk, ChildOk;
  }

  lemma {:induction false} BumpInv(t: Tree, writer: u32, mtime: u32)
    requires TreeInv(t)
    ensures TreeInv(Bump(t, writer, mtime))
    ensures forall p :: Lookup(Bump(t, writer, mtime), p) == Lookup(t, p)
  {
    hide Lookup, TreeInv;
    RootPresent(t);
    var u := Bump(t, writer, mtime);
    forall p
      ensures Lookup(u, p) == Lookup(t, p)
    {
      LookupSameDirs(u, t, p);
    }
    forall i | i in t.index
      ensures t.index[i].version <= Version(t)
    {
      EntryVersions(t, i);
    }
    RelabelInv(t, u);
  }

  lemma {:induction false} SetEntryInv(t: Tree, e: Entry)
    requires TreeInv(t) && e.inode in t.index && e.inode != 0 && e.version <= Version(t)
    requires var o := t.index[e.inode]; e.parent == o.parent && e.name == o.name && e.kind == o.kind
    ensures TreeInv(SetEntry(t, e))
    ensures forall p :: Lookup(SetEntry(t, e), p) == Lookup(t, p)
  {
    hide Lookup, TreeInv;
    RootPresent(t);
    var u := SetEntry(t, e);
    forall p
      ensures Lookup(u, p) == Lookup(t, p)
    {
      LookupSameDirs(u, t, p);
    }
    forall i | i in t.index
      ensures t.index[i].version <= Version(t) && t.index[i].inode == i
    {
      EntryVersions(t, i);
    }
    RelabelInv(t, u);
  }

  /** One component of a path: the last directory and the name in it. */
  lemma {:induction false} LookupStep(t: Tree, d: Path, n: Name)
    ensures Lookup(t, d + [n]) ==
            if Lookup(t, d).Some? && Lookup(t, d).value in t.dirs && n in t.dirs[Lookup(t, d).value] then Some(t.dirs[Lookup(t, d).value][n]) else None
  {
    assert (d + [n])[..|d|] == d;
  }

  /** A name in a directory after a leaf has been added. */
  lemma {:induction false} AddLeafName(t: Tree, e: Entry, x: nat, n: Name)
    requires e.parent in t.dirs && e.inode !in t.dirs
    ensures var u := AddLeaf(t, e);
            if x == e.inode then !(x in u.dirs && n in u.dirs[x])
            else if x == e.parent && n == e.name then x in u.dirs && n in u.dirs[x] && u.dirs[x][n] == e.inode
            else (x in u.dirs && n in u.dirs[x] <==> x in t.dirs && n in t.dirs[x]) && (x in t.dirs && n in t.dirs[x] ==> u.dirs[x][n] == t.dirs[x][n])
  {
  }

  lemma {:induction false} SameSnoc(a: Path, x: Name, b: Path, y: Name)
    ensures a + [x] == b + [y] <==> a == b && x == y
  {
    if a + [x] == b + [y] {
      assert a == (a + [x])[..|a|] && b == (b + [y])[..|b|];
      assert (a + [x])[|a|] == (b + [y])[|b|];
    }
  }

  lemma {:induction false} LookupAddStep(t: Tree, e: Entry, dp: Path, d: Path, n: Name)
    requires TreeInv(t) && e.inode !in t.dirs && e.inode !in t.index && Lookup(t, dp) == Some(e.parent)
    requires e.parent in t.dirs && e.name !in t.dirs[e.parent]
    requires Lookup(AddLeaf(t, e), d) == if d == dp + [e.name] then Some(e.inode) else Lookup(t, d)
    ensures Lookup(AddLeaf(t, e), d + [n]) == if d == dp && n == e.name then Some(e.inode) else Lookup(t, d + [n])
  {
    hide TreeInv, Lookup, AddLeaf;
    LookupStep(t, d, n);
    LookupStep(AddLeaf(t, e), d, n);
    if d == dp + [e.name] {
      LookupStep(t, dp, e.name);
      AddLeafName(t, e, e.inode, n);
      assert |d| != |dp|;
    } else if Lookup(t, d).Some? {
      var x := Lookup(t, d).value;
      LookupInIndex(t, d, x);
      AddLeafName(t, e, x, n);
      if x == e.parent {
        PathUnique(t, d, dp, e.parent);
      }
    }
  }

  /** A new leaf gets exactly one path; every other path leads where it led. */
  lemma {:induction false} LookupAdd(t: Tree, e: Entry, dp: Path, p: Path)
    requires TreeInv(t) && e.inode !in t.dirs && e.inode !in t.index && Lookup(t, dp) == Some(e.parent)
    requires e.parent in t.dirs && e.name !in t.dirs[e.parent]
    ensures Lookup(AddLeaf(t, e), p) == if p == dp + [e.name] then Some(e.inode) else Lookup(t, p)
  {
    hide TreeInv, AddLeaf;
    if p == [] {
      assert |dp + [e.name]| > 0;
    } else {
      hide Lookup;
      var d, n := p[..|p| - 1], p[|p| - 1];
      assert p == d + [n];
      LookupAdd(t, e, dp, d);
      LookupAddStep(t, e, dp, d, n);
      SameSnoc(d, n, dp, e.name);
    }
  }

  /** The index entries and directory tables, apart from paths. */
  ghost predicate Linked(t: Tree) {
    && 0 in t.index
    && (forall i :: i in t.index ==> EntryOk(t, i))
    && (forall d, n :: d in t.dirs && n in t.dirs[d] ==> ChildOk(t, d, n))
  }

  lemma {:induction false} AddLeafLinked(t: Tree, e: Entry)
    requires Linked(t) && e.inode !in t.index && e.inode !in t.dirs
    requires e.inode != 0 && e.inode <= Version(t) && e.version <= Version(t)
    requires e.parent in t.dirs && e.name !in t.dirs[e.parent]
    ensures Linked(AddLeaf(t, e))
  {
    var u := AddLeaf(t, e);
    forall i | i in u.index
      ensures EntryOk(u, i)
    {
      if i != e.inode {
        assert EntryOk(t, i);
      }
    }
    forall d, n | d in u.dirs && n in u.dirs[d]
      ensures ChildOk(u, d, n)
    {
      if d != e.parent || n != e.name {
        assert ChildOk(t, d, n);
      }
    }
  }

  lemma {:induction false} AddLeafInv(t: Tree, e: Entry, dp: Path)
    requires TreeInv(t) && e.inode !in t.index && Lookup(t, dp) == Some(e.parent)
    requires e.inode != 0 && e.inode <= Version(t) && e.version <= Version(t)
    requires e.parent in t.dirs && e.name !in t.dirs[e.parent]
    ensures TreeInv(AddLeaf(t, e))
    ensures forall p :: Lookup(AddLeaf(t, e), p) == if p == dp + [e.name] then Some(e.inode) else Lookup(t, p)
  {
    hide Lookup, EntryOk, ChildOk;
    var u := AddLeaf(t, e);
    AddLeafLinked(t, e);
    forall p
      ensures Lookup(u, p) == if p == dp + [e.name] then Some(e.inode) else Lookup(t, p)
    {
      LookupAdd(t, e, dp, p);
    }
    LookupNew(t, e, dp);
    forall i | i in u.index
      ensures Reachable(u, i)
    {
      if i == e.inode {
        assert Lookup(u, dp + [e.name]) == Some(i);
      } else {
        assert Reachable(t, i);
        var p :| Lookup(t, p) == Some(i);
        assert Lookup(u, p) == Some(i);
      }
    }
  }

  lemma {:induction false} LookupNew(t: Tree, e: Entry, dp: Path)
    requires Lookup(t, dp) == Some(e.parent) && e.parent in t.dirs && e.name !in t.dirs[e.parent]
    ensures Lookup(t, dp + [e.name]) == None
  {
    assert (dp + [e.name])[..|dp|] == dp;
  }

  /** Removing a leaf takes away its one path and no other. */
  lemma {:induction false} LookupRemove(t: Tree, i: nat, x: Path, p: Path)
    requires TreeInv(t) && i in t.index && i != 0 && Lookup(t, x) == Some(i)
    requires t.index[i].parent in t.dirs
    requires i in t.dirs ==> t.dirs[i] == map[]
    ensures Lookup(RemoveLeaf(t, i), p) == if p == x then None else Lookup(t, p)
  {
    hide TreeInv, EntryOk;
    var e, u := t.index[i], RemoveLeaf(t, i);
    LookupInIndex(t, x, i);
    if p != [] {
      var n := |p| - 1;
      LookupRemove(t, i, x, p[..n]);
      var d := Lookup(t, p[..n]);
      assert p == p[..n] + [p[n]] && x == x[..|x| - 1] + [e.name];
      if d.Some? {
        if d.value == i {
          PathUnique(t, p[..n], x, i);
        } else if d.value == e.parent {
          PathUnique(t, p[..n], x[..|x| - 1], e.parent);
        }
      }
    }
  }

  lemma {:induction false} RemoveLeafLinked(t: Tree, i: nat)
    requires Linked(t) && i in t.index && i != 0
    requires i in t.dirs ==> t.dirs[i] == map[]
    ensures EntryOk(t, i) && Linked(RemoveLeaf(t, i))
  {
    var e, u := t.index[i], RemoveLeaf(t, i);
    assert EntryOk(t, i);
    forall j | j in u.index
      ensures EntryOk(u, j)
    {
      assert EntryOk(t, j);
      if j != 0 && t.index[j].parent == i {
        assert false;
      }
    }
    forall d, n | d in u.dirs && n in u.dirs[d]
      ensures ChildOk(u, d, n)
    {
      assert ChildOk(t, d, n);
    }
  }

  lemma {:induction false} RemoveLeafInv(t: Tree, i: nat, x: Path)
    requires TreeInv(t) && i in t.index && i != 0 && Lookup(t, x) == Some(i)
    requires i in t.dirs ==> t.dirs[i] == map[]
    ensures EntryOk(t, i) && TreeInv(RemoveLeaf(t, i))
    ensures forall p :: Lookup(RemoveLeaf(t, i), p) == if p == x then None else Lookup(t, p)
  {
    hide Lookup, ChildOk;
    RemoveLeafLinked(t, i);
    var u := RemoveLeaf(t, i);
    forall p
      ensures Lookup(u, p) == if p == x then None else Lookup(t, p)
    {
      LookupRemove(t, i, x, p);
    }
    forall j | j in u.index
      ensures Reachable(u, j)
    {
      assert Reachable(t, j);
      var p :| Lookup(t, p) == Some(j);
      assert Lookup(u, p) == Some(j);
    }
  }
}
