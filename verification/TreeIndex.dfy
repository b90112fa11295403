/** The index of a tree that members exchange: one digest per inode, sorted by inode
    (`memdb_encode_index`). */
module TreeIndex {
  import opened Bytes
  import opened MemTree
  import opened MemDb

  /** SHA-256, taken as free of collisions. */
  datatype Digest = Sha256(input: seq<byte>)

  datatype Mark = Mark(inode: nat, digest: Digest)

  /** `size` and `bytes` of the source follow from the number of marks. */
  datatype Index = Index(version: nat, lastInode: nat, writer: u32, mtime: u32, marks: seq<Mark>)

  const TYPE_DIR: byte := 4
  const TYPE_REG: byte := 8

  function TypeByte(k: Kind): byte {
    if k.Dir? then TYPE_DIR else TYPE_REG
  }

  function Attributes(e: Entry): (s: seq<byte>)
    ensures |s| == 29
  {
    LE(e.version, 8) + LE(e.writer, 4) + LE(e.mtime, 4) + LE(e.size, 4) + [TypeByte(e.kind)] + LE(e.parent, 8)
  }

  /** The bytes that are hashed; the name has no terminator. */
  function DigestInput(e: Entry): seq<byte> {
    Attributes(e) + e.name + (if e.kind.Reg? && e.size > 0 then e.data else [])
  }

  function MarkOf(e: Entry): Mark {
    Mark(e.inode, Sha256(DigestInput(e)))
  }

  predicate Fits64(n: nat) {
    n < Pow256(8)
  }

  lemma {:induction false} AttributesInjective(e: Entry, f: Entry)
    requires Attributes(e) == Attributes(f)
    requires Fits64(e.version) && Fits64(f.version) && Fits64(e.parent) && Fits64(f.parent)
    requires e.size <= MAX_FILE_SIZE && f.size <= MAX_FILE_SIZE
    ensures e.version == f.version && e.writer == f.writer && e.mtime == f.mtime
    ensures e.size == f.size && e.kind == f.kind && e.parent == f.parent
  {
    hide LE, Pow256;
    Pow256Values();
    var a, b := Attributes(e), Attributes(f);
    assert a[..8] == LE(e.version, 8) && a[8..12] == LE(e.writer, 4) && a[12..16] == LE(e.mtime, 4);
    assert a[16..20] == LE(e.size, 4) && a[20] == TypeByte(e.kind) && a[21..] == LE(e.parent, 8);
    assert b[..8] == LE(f.version, 8) && b[8..12] == LE(f.writer, 4) && b[12..16] == LE(f.mtime, 4);
    assert b[16..20] == LE(f.size, 4) && b[20] == TypeByte(f.kind) && b[21..] == LE(f.parent, 8);
    LEInjective(e.version, f.version, 8);
    LEInjective(e.writer, f.writer, 4);
    LEInjective(e.mtime, f.mtime, 4);
    LEInjective(e.size, f.size, 4);
    LEInjective(e.parent, f.parent, 8);
  }

  /** The digest input can be decoded although nothing ends the name. */
  lemma {:induction false} DigestInputInjective(e: Entry, f: Entry)
    requires DigestInput(e) == DigestInput(f) && e.inode == f.inode
    requires WellStored(e) && WellStored(f)
    requires Fits64(e.version) && Fits64(f.version) && Fits64(e.parent) && Fits64(f.parent)
    ensures e == f
  {
    hide Attributes, Fits64;
    var a, b := DigestInput(e), DigestInput(f);
    assert a[..29] == Attributes(e) && b[..29] == Attributes(f);
    AttributesInjective(e, f);
    assert a == Attributes(e) + e.name + e.data && b == Attributes(f) + f.name + f.data;
    var n := |a| - e.size;
    assert a[29..n] == e.name && b[29..n] == f.name;
    assert a[n..] == e.data && b[n..] == f.data;
  }

  // ---------------------------------------------------------------------------------------
  // Sorting by inode
  // ---------------------------------------------------------------------------------------

  ghost predicate IsLeast(s: set<nat>, x: nat) {
    x in s && forall y :: y in s ==> x <= y
  }

  lemma {:induction false} HasLeast(s: set<nat>) returns (x: nat)
    requires s != {}
    ensures IsLeast(s, x)
    decreases |s|
  {
    var a :| a in s;
    var rest := s - {a};
    if rest == {} {
      x := a;
      assert s == {a};
    } else {
      var r := HasLeast(rest);
      x := if a < r then a else r;
      forall y | y in s
        ensures x <= y
      {
        assert y == a || y in rest;
      }
    }
  }

  lemma {:induction false} LeastExists(s: set<nat>)
    requires s != {}
    ensures exists x :: x in s && forall y :: y in s ==> x <= y
  {
    var x := HasLeast(s);
    assert x in s && forall y :: y in s ==> x <= y;
  }

  function Least(s: set<nat>): (x: nat)
    requires s != {}
    ensures x in s && forall y :: y in s ==> x <= y
  {
    LeastExists(s);
    var x :| x in s && forall y :: y in s ==> x <= y;
    x
  }

  /** The elements in increasing order. */
  function Sorted(s: set<nat>): (r: seq<nat>)
    ensures |r| == |s|
    decreases |s|
  {
    if s == {} then [] else [Least(s)] + Sorted(s - {Least(s)})
  }

  ghost predicate Increasing(r: seq<nat>) {
    forall k, l :: 0 <= k < l < |r| ==> r[k] < r[l]
  }

  lemma {:induction false} SortedIs(s: set<nat>)
    ensures Increasing(Sorted(s))
    ensures forall x :: x in Sorted(s) <==> x in s
    decreases |s|
  {
    if s != {} {
      var x, rest := Least(s), s - {Least(s)};
      SortedIs(rest);
      var r := Sorted(rest);
      assert Sorted(s) == [x] + r;
      forall k | 0 <= k < |r|
        ensures x < r[k]
      {
        assert r[k] in r;
      }
      forall y
        ensures y in Sorted(s) <==> y in s
      {
        assert y in s <==> y == x || y in rest;
      }
    }
  }

  lemma {:induction false} FirstIn(b: seq<nat>)
    requires b != []
    ensures b[0] in b
  {
  }

  /** There is one increasing sequence of a set. */
  lemma {:induction false} IncreasingUnique(a: seq<nat>, b: seq<nat>)
    requires Increasing(a) && Increasing(b) && forall x :: x in a <==> x in b
    ensures a == b
    decreases |a|
  {
    if a == [] {
      if b != [] {
        FirstIn(b);
      }
    } else {
      assert a[0] in a;
      assert a[0] in b;
      assert b[0] in b;
      var i :| 0 <= i < |b| && b[i] == a[0];
      var j :| 0 <= j < |a| && a[j] == b[0];
      assert a[0] == b[0];
      forall x
        ensures x in a[1..] <==> x in b[1..]
      {
        TailElements(a, x);
        TailElements(b, x);
      }
      IncreasingUnique(a[1..], b[1..]);
      assert a == [a[0]] + a[1..] && b == [b[0]] + b[1..];
    }
  }

  lemma {:induction false} TailElements(a: seq<nat>, x: nat)
    requires a != [] && Increasing(a)
    ensures x in a[1..] <==> x in a && x != a[0]
  {
    if x in a && x != a[0] {
      var k :| 0 <= k < |a| && a[k] == x;
      assert a[1..][k - 1] == x;
    }
    if x in a[1..] {
      var k :| 0 <= k < |a[1..]| && a[1..][k] == x;
      assert a[k + 1] == x;
    }
  }

  // ---------------------------------------------------------------------------------------
  // The index of a tree
  // ---------------------------------------------------------------------------------------

  function Marks(index: map<nat, Entry>, inodes: seq<nat>): (r: seq<Mark>)
    requires forall k :: 0 <= k < |inodes| ==> inodes[k] in index
    ensures |r| == |inodes|
    ensures forall k :: 0 <= k < |r| ==> r[k] == MarkOf(index[inodes[k]])
  {
    seq(|inodes|, k requires 0 <= k < |inodes| => MarkOf(index[inodes[k]]))
  }

  function LastInode(inodes: seq<nat>): nat {
    if inodes == [] then 0 else inodes[|inodes| - 1]
  }

  function Encode(t: Tree): Index
    requires 0 in t.index
  {
    SortedIs(t.index.Keys);
    var inodes := Sorted(t.index.Keys);
    assert forall k :: 0 <= k < |inodes| ==> inodes[k] in t.index by {
      forall k | 0 <= k < |inodes|
        ensures inodes[k] in t.index
      {
        assert inodes[k] in inodes;
      }
    }
    Index(t.index[0].version, LastInode(inodes), t.index[0].writer, t.index[0].mtime, Marks(t.index, inodes))
  }

  ghost predicate SortedMarks(marks: seq<Mark>) {
    forall k, l :: 0 <= k < l < |marks| ==> marks[k].inode < marks[l].inode
  }

  /** A tree whose numbers fit the fields of the index. */
  ghost predicate Exchangeable(t: Tree) {
    TreeInv(t) && ContentInv(t) && Fits64(Version(t))
  }

  predicate IsMark(t: Tree, m: Mark) {
    m.inode in t.index && m == MarkOf(t.index[m.inode])
  }

  lemma {:induction false} AttributesLayout(e: Entry)
    ensures var a := Attributes(e);
            && a[..8] == LE(e.version, 8) && a[8..12] == LE(e.writer, 4) && a[12..16] == LE(e.mtime, 4)
            && a[16..20] == LE(e.size, 4) && a[20] == (if e.kind.Dir? then 4 else 8) && a[21..29] == LE(e.parent, 8)
  {
    hide LE;
  }

  /** What is hashed of an entry, field by field. */
  lemma {:induction false} DigestLayout(e: Entry)
    ensures var d := DigestInput(e);
            var n := 29 + |e.name|;
            && |d| >= n && d[..8] == LE(e.version, 8) && d[8..12] == LE(e.writer, 4) && d[12..16] == LE(e.mtime, 4)
            && d[16..20] == LE(e.size, 4) && d[20] == (if e.kind.Dir? then 4 else 8) && d[21..29] == LE(e.parent, 8)
            && d[29..n] == e.name && d[n..] == (if e.kind.Reg? && e.size > 0 then e.data else [])
  {
    hide LE, Attributes;
    AttributesLayout(e);
    var d, a, data := DigestInput(e), Attributes(e), if e.kind.Reg? && e.size > 0 then e.data else [];
    assert d == a + (e.name + data);
    assert d[..8] == a[..8] && d[8..12] == a[8..12] && d[12..16] == a[12..16] && d[16..20] == a[16..20] && d[21..29] == a[21..29];
  }

  /** The head of an index: version, writer and time of the root, and the greatest inode. */
  lemma {:induction false} EncodeHead(t: Tree)
    requires 0 in t.index
    ensures var idx, root := Encode(t), t.index[0];
            && idx.version == root.version && idx.writer == root.writer && idx.mtime == root.mtime
            && idx.lastInode in t.index && forall i :: i in t.index ==> i <= idx.lastInode
  {
    hide MarkOf, Sorted;
    SortedIs(t.index.Keys);
    var inodes := Sorted(t.index.Keys);
    assert 0 in inodes;
    var last := inodes[|inodes| - 1];
    assert last in inodes;
    forall i | i in t.index
      ensures i <= last
    {
      assert i in inodes;
      var k :| 0 <= k < |inodes| && inodes[k] == i;
    }
  }

  /** The marks of a tree are sorted and are those of its entries. */
  lemma {:induction false} EncodeMarks(t: Tree)
    requires TreeInv(t)
    ensures SortedMarks(Encode(t).marks)
    ensures forall m :: m in Encode(t).marks <==> IsMark(t, m)
  {
    hide MarkOf, Sorted, Reachable;
    SortedIs(t.index.Keys);
    var inodes, marks := Sorted(t.index.Keys), Encode(t).marks;
    forall k | 0 <= k < |marks|
      ensures marks[k].inode == inodes[k] && IsMark(t, marks[k])
    {
      EntryInode(t, inodes[k]);
    }
    forall m | IsMark(t, m)
      ensures m in marks
    {
      var k :| 0 <= k < |inodes| && inodes[k] == m.inode;
      assert marks[k] == m;
    }
  }

  lemma {:induction false} EntryInode(t: Tree, i: nat)
    requires TreeInv(t) && i in t.index
    ensures MarkOf(t.index[i]).inode == i
  {
    assert EntryOk(t, i);
  }

  /** No number of an exchangeable tree is wider than the root version, or than a file. */
  lemma {:induction false} EntryFits(t: Tree, i: nat)
    requires Exchangeable(t) && i in t.index
    ensures WellStored(t.index[i]) && Fits64(t.index[i].version) && Fits64(t.index[i].parent) && t.index[i].inode == i
  {
    hide Reachable, Pow256;
    assert EntryOk(t, i);
    if i != 0 {
      var p := t.index[i].parent;
      assert p in t.index;
      assert EntryOk(t, p);
    }
  }

  /** Equal marks, equal entries. */
  lemma {:induction false} MarkDecides(t: Tree, u: Tree, i: nat)
    requires Exchangeable(t) && Exchangeable(u) && i in t.index && i in u.index
    requires MarkOf(t.index[i]) == MarkOf(u.index[i])
    ensures t.index[i] == u.index[i]
  {
    hide Exchangeable, DigestInput, Fits64;
    EntryFits(t, i);
    EntryFits(u, i);
    DigestInputInjective(t.index[i], u.index[i]);
  }

  /** The directory tables follow from the entries. */
  lemma {:induction false} TablesFromEntries(t: Tree, u: Tree)
    requires TreeInv(t) && TreeInv(u) && t.index == u.index
    ensures t == u
  {
    hide TreeInv;
    forall d
      ensures d in t.dirs ==> d in u.dirs && t.dirs[d].Keys <= u.dirs[d].Keys
      ensures d in u.dirs ==> d in t.dirs && u.dirs[d].Keys <= t.dirs[d].Keys
      ensures d in t.dirs && d in u.dirs ==> forall n :: n in t.dirs[d] && n in u.dirs[d] ==> t.dirs[d][n] == u.dirs[d][n]
    {
      TableIncluded(t, u, d);
      TableIncluded(u, t, d);
    }
    assert t.dirs.Keys == u.dirs.Keys;
    forall d | d in t.dirs
      ensures t.dirs[d] == u.dirs[d]
    {
    }
    assert t.dirs == u.dirs;
  }

  lemma {:induction false} TableIncluded(t: Tree, u: Tree, d: nat)
    requires TreeInv(t) && TreeInv(u) && t.index == u.index
    ensures d in t.dirs ==> d in u.dirs
    ensures d in t.dirs ==> forall n :: n in t.dirs[d] ==> n in u.dirs[d] && u.dirs[d][n] == t.dirs[d][n]
  {
    hide Reachable;
    if d in t.dirs {
      assert EntryOk(t, d) && EntryOk(u, d);
      forall n | n in t.dirs[d]
        ensures n in u.dirs[d] && u.dirs[d][n] == t.dirs[d][n]
      {
        assert ChildOk(t, d, n);
        assert EntryOk(u, t.dirs[d][n]);
      }
    }
  }

  /** Members with equal indexes have equal trees. */
  lemma {:induction false} EncodeInjective(t: Tree, u: Tree)
    requires Exchangeable(t) && Exchangeable(u)
    ensures Encode(t) == Encode(u) <==> t == u
  {
    hide TreeInv, ContentInv, Fits64, MarkOf, Encode;
    RootIn(t);
    RootIn(u);
    if Encode(t) == Encode(u) {
      EncodeMarks(t);
      EncodeMarks(u);
      forall i
        ensures i in t.index <==> i in u.index
        ensures i in t.index ==> t.index[i] == u.index[i]
      {
        if i in t.index {
          EntryInode(t, i);
          assert IsMark(u, MarkOf(t.index[i]));
          MarkDecides(t, u, i);
        }
        if i in u.index {
          EntryInode(u, i);
          assert IsMark(t, MarkOf(u.index[i]));
        }
      }
      assert t.index == u.index;
      TablesFromEntries(t, u);
    }
  }

  lemma {:induction false} RootIn(t: Tree)
    requires TreeInv(t)
    ensures 0 in t.index
  {
  }

  /** The list `list` names the entries of `t` in increasing order. */
  ghost predicate InOrder(t: Tree, list: seq<nat>) {
    Increasing(list) && forall i :: i in list <==> i in t.index
  }

  lemma {:induction false} EncodeIs(t: Tree, list: seq<nat>, marks: seq<Mark>)
    requires 0 in t.index && InOrder(t, list) && |marks| == |list|
    requires forall k :: 0 <= k < |list| ==> list[k] in t.index && marks[k] == MarkOf(t.index[list[k]])
    ensures Encode(t) == Index(t.index[0].version, LastInode(list), t.index[0].writer, t.index[0].mtime, marks)
  {
    hide MarkOf, Sorted, LastInode;
    SortedIs(t.index.Keys);
    IncreasingUnique(list, Sorted(t.index.Keys));
    assert Encode(t).marks == marks;
  }

  /** The encoding loop over the sorted entries. */
  method EncodeIndex(t: Tree, list: seq<nat>) returns (idx: Index)
    requires 0 in t.index && InOrder(t, list)
    ensures idx == Encode(t)
  {
    hide MarkOf, Encode;
    var last, marks, k := 0, [], 0;
    while k < |list|
      invariant 0 <= k <= |list| && |marks| == k
      invariant forall l :: 0 <= l < k ==> list[l] in t.index && marks[l] == MarkOf(t.index[list[l]])
      invariant last == if k == 0 then 0 else list[k - 1]
    {
      var i := list[k];
      assert i in list;
      if i > last {
        last := i;
      }
      marks := marks + [MarkOf(t.index[i])];
      k := k + 1;
    }
    EncodeIs(t, list, marks);
    idx := Index(t.index[0].version, last, t.index[0].writer, t.index[0].mtime, marks);
  }
}
