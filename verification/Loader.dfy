/** `bdb_backend_load_index`: the tree from the rows of the SQL table, in whatever order the
    query returns them. A parent not seen yet is represented by a placeholder, which has a
    directory table but no entry. */
module Loader {
  import opened Bytes
  import opened MemTree
  import opened MemDb

  const DT_DIR: nat := 4
  const DT_REG: nat := 8

  /** A row as the database returns it, before any check; `typ` is the low byte of its type. */
  datatype RawRow = RawRow(inode: nat, parent: nat, version: nat, writer: nat, mtime: nat, typ: nat, name: Name, data: seq<byte>)

  function Low32(n: nat): u32 {
    n % 0x1_0000_0000
  }

  function EntryOf(r: RawRow): Entry {
    Entry(r.inode, r.parent, r.version, Low32(r.writer), Low32(r.mtime), if r.typ == DT_DIR then Dir else Reg, |r.data|, r.name, r.data)
  }

  /** The root before loading. */
  const EmptyRoot: Entry := Entry(0, 0, 0, 0, 0, Dir, 0, [], [])

  /** The checks that look at one row only. */
  predicate RowOk(r: RawRow) {
    && r.name != []
    && (r.typ == DT_REG || (r.typ == DT_DIR && r.data == []))
    && (r.inode == 0 ==> r.name == VERSION_FILE)
  }

  predicate IsDirRow(r: RawRow) {
    r.inode != 0 && r.typ == DT_DIR
  }

  /** Row `r` is an entry of directory `d`. */
  predicate Within(r: RawRow, d: nat) {
    r.inode != 0 && r.parent == d
  }

  ghost predicate HasDir(rows: seq<RawRow>, d: nat) {
    exists k :: 0 <= k < |rows| && IsDirRow(rows[k]) && rows[k].inode == d
  }

  ghost predicate HasChild(rows: seq<RawRow>, d: nat) {
    exists k :: 0 <= k < |rows| && Within(rows[k], d)
  }

  predicate IsFileRow(r: RawRow) {
    r.inode != 0 && r.typ == DT_REG
  }

  ghost predicate HasFile(rows: seq<RawRow>, d: nat) {
    exists k :: 0 <= k < |rows| && IsFileRow(rows[k]) && rows[k].inode == d
  }

  /** Row sets from which a tree can be built: inodes are unique (the primary key), every parent
      is the root or a directory row, and names are unique within a directory. */
  ghost predicate WellFormedRows(rows: seq<RawRow>) {
    && (forall k :: 0 <= k < |rows| ==> RowOk(rows[k]))
    && (forall k :: 0 <= k < |rows| && rows[k].inode != 0 ==> ParentOk(rows, rows[k]))
    && (forall k, l :: 0 <= k < l < |rows| ==> Compatible(rows[k], rows[l]))
  }

  /** The same, but a parent may be a row of either kind. */
  ghost predicate Loadable(rows: seq<RawRow>) {
    && (forall k :: 0 <= k < |rows| ==> RowOk(rows[k]))
    && (forall k :: 0 <= k < |rows| && rows[k].inode != 0 ==> ParentThere(rows, rows[k]))
    && (forall k, l :: 0 <= k < l < |rows| ==> Compatible(rows[k], rows[l]))
  }

  /** The same without a word about the rows of the parents. */
  ghost predicate Plain(rows: seq<RawRow>) {
    && (forall k :: 0 <= k < |rows| ==> RowOk(rows[k]) && !OwnParent(rows[k]))
    && (forall k, l :: 0 <= k < l < |rows| ==> Compatible(rows[k], rows[l]))
  }

  predicate OwnParent(r: RawRow) {
    r.inode != 0 && r.parent == r.inode
  }

  ghost predicate ParentThere(rows: seq<RawRow>, r: RawRow) {
    r.parent != r.inode && Inode(rows, r.parent)
  }

  predicate BelowFile(child: RawRow, file: RawRow) {
    child.inode != 0 && IsFileRow(file) && child.parent == file.inode
  }

  /** Every row whose parent is a file comes before that file. */
  ghost predicate ChildrenFirst(rows: seq<RawRow>) {
    forall k, l :: 0 <= k < |rows| && 0 <= l < |rows| && BelowFile(rows[k], rows[l]) ==> k < l
  }

  ghost predicate NoneBelowFile(rows: seq<RawRow>) {
    forall k, l :: 0 <= k < |rows| && 0 <= l < |rows| ==> !BelowFile(rows[k], rows[l])
  }

  ghost predicate ParentOk(rows: seq<RawRow>, r: RawRow) {
    r.parent != r.inode && (r.parent == 0 || HasDir(rows, r.parent))
  }

  predicate Compatible(r: RawRow, s: RawRow) {
    r.inode != s.inode && !(r.inode != 0 && s.inode != 0 && r.parent == s.parent && r.name == s.name)
  }

  // ---------------------------------------------------------------------------------------
  // The tree that a row set stands for
  // ---------------------------------------------------------------------------------------

  ghost predicate Inode(rows: seq<RawRow>, i: nat) {
    i == 0 || exists k :: 0 <= k < |rows| && rows[k].inode == i
  }

  ghost predicate IndexIs(rows: seq<RawRow>, index: map<nat, Entry>) {
    && (forall i :: i in index <==> Inode(rows, i))
    && (forall k :: 0 <= k < |rows| && rows[k].inode != 0 ==> rows[k].inode in index && index[rows[k].inode] == EntryOf(rows[k]))
    && index[0] == RootOf(rows)
  }

  /** The root takes version, writer and time from the version row. */
  function RootOf(rows: seq<RawRow>): Entry {
    if rows == [] then EmptyRoot else
      var r := rows[|rows| - 1];
      if r.inode == 0 then EmptyRoot.(version := r.version, writer := Low32(r.writer), mtime := Low32(r.mtime))
      else RootOf(rows[..|rows| - 1])
  }

  /** Directory tables, with `open` the set of directories and placeholders. */
  ghost predicate TablesAre(rows: seq<RawRow>, dirs: map<nat, map<Name, nat>>) {
    && (forall k :: 0 <= k < |rows| && rows[k].inode != 0 ==>
          rows[k].parent in dirs && rows[k].name in dirs[rows[k].parent] && dirs[rows[k].parent][rows[k].name] == rows[k].inode)
    && (forall d, n :: d in dirs && n in dirs[d] ==> NamedIn(rows, d, n))
  }

  /** The same while loading: a file has taken the table with the names below it away. */
  ghost predicate LinkedIn(rows: seq<RawRow>, dirs: map<nat, map<Name, nat>>) {
    && (forall k :: 0 <= k < |rows| && rows[k].inode != 0 && !HasFile(rows, rows[k].parent) ==>
          rows[k].parent in dirs && rows[k].name in dirs[rows[k].parent] && dirs[rows[k].parent][rows[k].name] == rows[k].inode)
    && (forall d, n :: d in dirs && n in dirs[d] ==> NamedIn(rows, d, n))
  }

  ghost predicate NamedIn(rows: seq<RawRow>, d: nat, n: Name) {
    exists k :: 0 <= k < |rows| && Within(rows[k], d) && rows[k].name == n
  }

  ghost predicate IsDirInode(rows: seq<RawRow>, d: nat) {
    d == 0 || HasDir(rows, d)
  }

  /** `t` is the tree of the rows. */
  ghost predicate TreeOf(rows: seq<RawRow>, t: Tree) {
    && IndexIs(rows, t.index) && TablesAre(rows, t.dirs)
    && forall d :: d in t.dirs <==> IsDirInode(rows, d)
  }

  // ---------------------------------------------------------------------------------------
  // The loading loop
  // ---------------------------------------------------------------------------------------

  /** What has been built so far; `open` are the placeholders. */
  datatype Partial = Partial(index: map<nat, Entry>, dirs: map<nat, map<Name, nat>>, open: set<nat>)

  ghost predicate Shape(s: Partial) {
    && 0 in s.index && s.open <= s.dirs.Keys
    && forall i :: i in s.index && s.index[i].kind.Dir? ==> i in s.dirs
  }

  const Start: Partial := Partial(map[0 := EmptyRoot], map[0 := map[]], {})

  /** One row. A row that is its own parent hands its placeholder table on and is linked nowhere; a
      file row replaces a placeholder together with its table. */
  function Step(s: Partial, r: RawRow): (res: Option<Partial>)
    requires Shape(s)
    ensures res.Some? ==> Shape(res.value)
  {
    if !RowOk(r) then None
    else if r.inode == 0 then
      Some(s.(index := s.index[0 := s.index[0].(version := r.version, writer := Low32(r.writer), mtime := Low32(r.mtime))]))
    else if r.parent in s.index && s.index[r.parent].kind.Reg? then None
    else
      var known := r.parent in s.index || r.parent in s.open;
      var dirs1: map<nat, map<Name, nat>> := if known then s.dirs else s.dirs[r.parent := map[]];
      var open1 := if known then s.open else s.open + {r.parent};
      if r.typ == DT_DIR && r.inode in s.index then None
      else
        var dirs2: map<nat, map<Name, nat>> := if r.typ == DT_DIR && r.inode !in open1 then dirs1[r.inode := map[]] else dirs1;
        if r.typ == DT_DIR && r.parent == r.inode then
          Some(Partial(s.index[r.inode := EntryOf(r)], dirs2, open1 - {r.inode}))
        else if r.name in dirs2[r.parent] then None
        else
          var names: map<Name, nat> := dirs2[r.parent][r.name := r.inode];
          var dirs3: map<nat, map<Name, nat>> := dirs2[r.parent := names];
          var dirs4: map<nat, map<Name, nat>> := if r.typ == DT_REG && r.inode in open1 then dirs3 - {r.inode} else dirs3;
          Some(Partial(s.index[r.inode := EntryOf(r)], dirs4, open1 - {r.inode}))
  }

  function LoadRows(rows: seq<RawRow>): (res: Option<Partial>)
    ensures res.Some? ==> Shape(res.value)
  {
    if rows == [] then Some(Start) else
      var n := |rows| - 1;
      match LoadRows(rows[..n])
      case None => None
      case Some(s) => Step(s, rows[n])
  }

  /** All rows, then the check that no placeholder is left. */
  function LoadTree(rows: seq<RawRow>): Option<Tree> {
    match LoadRows(rows)
    case None => None
    case Some(s) => if s.open != {} then None else Some(Tree(s.index, s.dirs))
  }

  /** After some rows: a table for every directory and for every parent that is no row yet; the
      latter are placeholders. */
  ghost predicate Loading(rows: seq<RawRow>, s: Partial) {
    && 0 in s.index && IndexIs(rows, s.index) && LinkedIn(rows, s.dirs)
    && (forall d :: d in s.dirs <==> IsDirInode(rows, d) || (HasChild(rows, d) && !Inode(rows, d)))
    && (forall d :: d in s.open <==> HasChild(rows, d) && !Inode(rows, d))
  }

  // ---------------------------------------------------------------------------------------
  // One more row
  // ---------------------------------------------------------------------------------------

  lemma {:induction false} AppendFacts(pre: seq<RawRow>, r: RawRow, d: nat, n: Name)
    ensures Inode(pre + [r], d) <==> Inode(pre, d) || r.inode == d
    ensures HasDir(pre + [r], d) <==> HasDir(pre, d) || (IsDirRow(r) && r.inode == d)
    ensures HasFile(pre + [r], d) <==> HasFile(pre, d) || (IsFileRow(r) && r.inode == d)
    ensures HasChild(pre + [r], d) <==> HasChild(pre, d) || Within(r, d)
    ensures NamedIn(pre + [r], d, n) <==> NamedIn(pre, d, n) || (Within(r, d) && r.name == n)
  {
    var post := pre + [r];
    assert post[|pre|] == r;
    if HasFile(pre, d) {
      var k :| 0 <= k < |pre| && IsFileRow(pre[k]) && pre[k].inode == d;
      assert post[k] == pre[k];
    }
    if Inode(pre, d) && d != 0 {
      var k :| 0 <= k < |pre| && pre[k].inode == d;
      assert post[k] == pre[k];
    }
    if HasDir(pre, d) {
      var k :| 0 <= k < |pre| && IsDirRow(pre[k]) && pre[k].inode == d;
      assert post[k] == pre[k];
    }
    if HasChild(pre, d) {
      var k :| 0 <= k < |pre| && Within(pre[k], d);
      assert post[k] == pre[k];
    }
    if NamedIn(pre, d, n) {
      var k :| 0 <= k < |pre| && Within(pre[k], d) && pre[k].name == n;
      assert post[k] == pre[k];
    }
  }

  lemma {:induction false} RootShape(rows: seq<RawRow>)
    ensures var e := RootOf(rows); e == EmptyRoot.(version := e.version, writer := e.writer, mtime := e.mtime)
  {
    if rows != [] {
      RootShape(rows[..|rows| - 1]);
    }
  }

  /** The row being loaded is new and its name is free; its parent, if loaded, is a directory or a
      file. */
  lemma {:induction false} NextRow(rows: seq<RawRow>, k: nat)
    requires Plain(rows) && k < |rows| && rows[k].inode != 0
    ensures RowOk(rows[k]) && rows[k].parent != rows[k].inode
    ensures !Inode(rows[..k], rows[k].inode)
    ensures !NamedIn(rows[..k], rows[k].parent, rows[k].name)
    ensures Inode(rows[..k], rows[k].parent) ==> IsDirInode(rows[..k], rows[k].parent) || HasFile(rows[..k], rows[k].parent)
  {
    var r, pre := rows[k], rows[..k];
    assert !OwnParent(r) && RowOk(r);
    forall l | 0 <= l < |pre|
      ensures Compatible(pre[l], r) && RowOk(pre[l])
    {
      assert Compatible(rows[l], rows[k]) && RowOk(rows[l]);
    }
  }

  /** What a loading state knows about one inode. */
  lemma {:induction false} DirEntry(rows: seq<RawRow>, s: Partial, d: nat)
    requires Loading(rows, s) && IsDirInode(rows, d)
    ensures d in s.index && s.index[d].kind.Dir? && d in s.dirs && d !in s.open
  {
    if d == 0 {
      assert Inode(rows, 0);
      RootShape(rows);
    } else {
      var k :| 0 <= k < |rows| && IsDirRow(rows[k]) && rows[k].inode == d;
      assert Inode(rows, d);
    }
  }

  lemma {:induction false} StepIndex(rows: seq<RawRow>, k: nat, index: map<nat, Entry>)
    requires k < |rows| && rows[k].inode != 0 && 0 in index && IndexIs(rows[..k], index) && !Inode(rows[..k], rows[k].inode)
    ensures IndexIs(rows[..k + 1], index[rows[k].inode := EntryOf(rows[k])])
  {
    var pre, r := rows[..k], rows[k];
    assert rows[..k + 1] == pre + [r];
    forall i
      ensures Inode(pre + [r], i) <==> Inode(pre, i) || r.inode == i
    {
      AppendFacts(pre, r, i, []);
    }
    var after := index[r.inode := EntryOf(r)];
    assert (pre + [r])[..|pre + [r]| - 1] == pre;
    forall l | 0 <= l < |pre + [r]| && (pre + [r])[l].inode != 0
      ensures (pre + [r])[l].inode in after && after[(pre + [r])[l].inode] == EntryOf((pre + [r])[l])
    {
      if l < |pre| {
        assert Inode(pre, pre[l].inode);
      }
    }
  }

  lemma {:induction false} StepTables(pre: seq<RawRow>, r: RawRow, dirs: map<nat, map<Name, nat>>, after: map<nat, map<Name, nat>>)
    requires r.inode != 0 && RowOk(r) && LinkedIn(pre, dirs) && !NamedIn(pre, r.parent, r.name) && Adds(dirs, r, after)
    ensures LinkedIn(pre + [r], after)
  {
    hide HasFile;
    forall k | 0 <= k < |pre + [r]| && (pre + [r])[k].inode != 0 && !HasFile(pre + [r], (pre + [r])[k].parent)
      ensures var c := (pre + [r])[k]; c.parent in after && c.name in after[c.parent] && after[c.parent][c.name] == c.inode
    {
      if k < |pre| {
        AppendFacts(pre, r, pre[k].parent, []);
        assert pre[k].parent in dirs && pre[k].name in dirs[pre[k].parent];
      }
    }
    forall d, n | d in after && n in after[d]
      ensures NamedIn(pre + [r], d, n)
    {
      AppendFacts(pre, r, d, n);
    }
  }

  /** What one accepted row does to the tables. */
  lemma {:induction false} StepValue(s: Partial, r: RawRow)
    requires Acceptable(s, r)
    ensures Step(s, r).Some?
    ensures var t := Step(s, r).value;
            && t.index == s.index[r.inode := EntryOf(r)]
            && (forall d :: d in t.open <==> d != r.inode && (d in s.open || (d == r.parent && d !in s.dirs)))
            && (forall d :: d in t.dirs <==> if d == r.inode then IsDirRow(r) else d in s.dirs || d == r.parent)
  {
    hide EntryOf, Low32, Shape;
    assert Shape(s);
  }

  lemma {:induction false} StepAdds(s: Partial, r: RawRow)
    requires Acceptable(s, r)
    ensures Step(s, r).Some? && Adds(s.dirs, r, Step(s, r).value.dirs)
  {
    hide Step, Adds;
    if r.typ == DT_DIR {
      StepAddsDir(s, r);
    } else {
      StepAddsFile(s, r);
    }
  }

  lemma {:induction false} StepAddsDir(s: Partial, r: RawRow)
    requires Acceptable(s, r) && r.typ == DT_DIR
    ensures Step(s, r).Some? && Adds(s.dirs, r, Step(s, r).value.dirs)
  {
    hide EntryOf, Low32, Shape;
    assert Shape(s);
  }

  lemma {:induction false} StepAddsFile(s: Partial, r: RawRow)
    requires Acceptable(s, r) && r.typ == DT_REG
    ensures Step(s, r).Some? && Adds(s.dirs, r, Step(s, r).value.dirs)
  {
    hide EntryOf, Low32, Shape;
    assert Shape(s);
  }

  /** A state in which the row passes every check and is not its own parent. */
  ghost predicate Acceptable(s: Partial, r: RawRow) {
    && Shape(s) && RowOk(r) && r.inode != 0 && r.parent != r.inode && r.inode !in s.index
    && (r.parent in s.index ==> s.index[r.parent].kind.Dir?)
    && (r.parent in s.dirs <==> r.parent in s.index || r.parent in s.open)
    && (r.inode in s.dirs <==> r.inode in s.open)
    && (r.parent in s.dirs ==> r.name !in s.dirs[r.parent])
  }

  /** The tables gain the name of one row, and perhaps empty tables; a file loses its table. */
  ghost predicate Adds(dirs: map<nat, map<Name, nat>>, r: RawRow, after: map<nat, map<Name, nat>>) {
    && r.parent in after && r.name in after[r.parent] && after[r.parent][r.name] == r.inode
    && (forall d :: d in dirs && !(IsFileRow(r) && d == r.inode) ==> d in after)
    && (forall d, n :: d in dirs && n in dirs[d] && !(d == r.parent && n == r.name) && !(IsFileRow(r) && d == r.inode) ==>
          n in after[d] && after[d][n] == dirs[d][n])
    && (forall d, n :: d in after && n in after[d] && !(d == r.parent && n == r.name) ==> d in dirs && n in dirs[d])
  }

  /** A row is refused exactly if its parent is a file that came before it. */
  lemma {:induction false} StepLoading(rows: seq<RawRow>, k: nat, s: Partial)
    requires Plain(rows) && k < |rows| && Shape(s) && Loading(rows[..k], s)
    ensures Step(s, rows[k]).Some? <==> rows[k].inode == 0 || !HasFile(rows[..k], rows[k].parent)
    ensures Step(s, rows[k]).Some? ==> Loading(rows[..k + 1], Step(s, rows[k]).value)
  {
    hide IndexIs, LinkedIn, Plain, HasDir, HasChild, HasFile, Low32, EntryOf, NamedIn, Inode, Adds, Shape;
    var pre, r := rows[..k], rows[k];
    assert rows[..k + 1] == pre + [r];
    assert RowOk(r) by { RowFine(rows, k); }
    forall d
      ensures Inode(pre + [r], d) <==> Inode(pre, d) || r.inode == d
      ensures HasDir(pre + [r], d) <==> HasDir(pre, d) || (IsDirRow(r) && r.inode == d)
      ensures HasChild(pre + [r], d) <==> HasChild(pre, d) || Within(r, d)
    {
      AppendFacts(pre, r, d, []);
    }
    if r.inode == 0 {
      StepRoot(pre, r, s);
      ZeroInode(pre);
    } else if HasFile(pre, r.parent) {
      FileEntry(rows, k, s, r.parent);
    } else {
      StepTaken(rows, k, s);
    }
  }

  lemma {:induction false} ZeroInode(rows: seq<RawRow>)
    ensures Inode(rows, 0)
  {
  }

  lemma {:induction false} StepTaken(rows: seq<RawRow>, k: nat, s: Partial)
    requires Plain(rows) && k < |rows| && Shape(s) && Loading(rows[..k], s) && rows[k].inode != 0 && !HasFile(rows[..k], rows[k].parent)
    ensures Step(s, rows[k]).Some? && Loading(rows[..k + 1], Step(s, rows[k]).value)
  {
    hide IndexIs, LinkedIn, Plain, HasDir, HasChild, HasFile, Low32, EntryOf, NamedIn, Inode, Adds, Shape;
    var pre, r := rows[..k], rows[k];
    assert rows[..k + 1] == pre + [r];
    forall d
      ensures Inode(pre + [r], d) <==> Inode(pre, d) || r.inode == d
      ensures HasDir(pre + [r], d) <==> HasDir(pre, d) || (IsDirRow(r) && r.inode == d)
      ensures HasChild(pre + [r], d) <==> HasChild(pre, d) || Within(r, d)
    {
      AppendFacts(pre, r, d, []);
    }
    NextRow(rows, k);
    ZeroInode(pre);
    IndexKeys(pre, s.index, r.inode);
    IndexKeys(pre, s.index, r.parent);
    if IsDirInode(pre, r.parent) {
      DirEntry(pre, s, r.parent);
    }
    if IsDirInode(pre, r.inode) {
      DirEntry(pre, s, r.inode);
    }
    TableNames(pre, s.dirs, r.parent, r.name);
    StepIndex(rows, k, s.index);
    hide Step;
    StepValue(s, r);
    StepAdds(s, r);
    StepTables(pre, r, s.dirs, Step(s, r).value.dirs);
    hide RowOk;
    forall d
      ensures IsDirInode(pre, d) ==> Inode(pre, d)
    {
      DirIsInode(pre, d);
    }
  }

  lemma {:induction false} DirIsInode(rows: seq<RawRow>, d: nat)
    ensures IsDirInode(rows, d) ==> Inode(rows, d)
  {
  }

  lemma {:induction false} FileEntry(rows: seq<RawRow>, k: nat, s: Partial, d: nat)
    requires k <= |rows| && Loading(rows[..k], s) && HasFile(rows[..k], d)
    ensures d in s.index && s.index[d].kind.Reg?
  {
    hide LinkedIn, Low32;
    var pre := rows[..k];
    var l :| 0 <= l < |pre| && IsFileRow(pre[l]) && pre[l].inode == d;
  }

  lemma {:induction false} RowFine(rows: seq<RawRow>, k: nat)
    requires Plain(rows) && k < |rows|
    ensures RowOk(rows[k])
  {
  }

  lemma {:induction false} IndexKeys(rows: seq<RawRow>, index: map<nat, Entry>, i: nat)
    requires 0 in index && IndexIs(rows, index)
    ensures i in index <==> Inode(rows, i)
  {
  }

  lemma {:induction false} TableNames(rows: seq<RawRow>, dirs: map<nat, map<Name, nat>>, d: nat, n: Name)
    requires LinkedIn(rows, dirs)
    ensures d in dirs && n in dirs[d] ==> NamedIn(rows, d, n)
  {
  }

  lemma {:induction false} StepRoot(pre: seq<RawRow>, r: RawRow, s: Partial)
    requires r.inode == 0 && 0 in s.index && IndexIs(pre, s.index) && LinkedIn(pre, s.dirs)
    ensures var e := s.index[0].(version := r.version, writer := Low32(r.writer), mtime := Low32(r.mtime));
            IndexIs(pre + [r], s.index[0 := e]) && LinkedIn(pre + [r], s.dirs)
  {
    hide IndexIs, LinkedIn, Low32;
    RootIndex(pre, r, s.index);
    RootTables(pre, r, s.dirs);
  }

  lemma {:induction false} RootIndex(pre: seq<RawRow>, r: RawRow, index: map<nat, Entry>)
    requires r.inode == 0 && 0 in index && IndexIs(pre, index)
    ensures IndexIs(pre + [r], index[0 := index[0].(version := r.version, writer := Low32(r.writer), mtime := Low32(r.mtime))])
  {
    hide Low32, EntryOf;
    RootShape(pre);
    var post := pre + [r];
    assert post[..|post| - 1] == pre && post[|pre|] == r;
    assert RootOf(post) == EmptyRoot.(version := r.version, writer := Low32(r.writer), mtime := Low32(r.mtime));
    hide RootOf;
    forall i
      ensures Inode(post, i) <==> Inode(pre, i)
    {
      AppendFacts(pre, r, i, []);
    }
    hide Inode;
    forall k | 0 <= k < |post| && post[k].inode != 0
      ensures post[k] == pre[k]
    {
    }
  }

  lemma {:induction false} RootTables(pre: seq<RawRow>, r: RawRow, dirs: map<nat, map<Name, nat>>)
    requires r.inode == 0 && LinkedIn(pre, dirs)
    ensures LinkedIn(pre + [r], dirs)
  {
    hide NamedIn, HasFile;
    var post := pre + [r];
    forall d, n | d in dirs && n in dirs[d]
      ensures NamedIn(post, d, n)
    {
      AppendFacts(pre, r, d, n);
    }
    forall k | 0 <= k < |post| && post[k].inode != 0
      ensures post[k] == pre[k] && (HasFile(post, post[k].parent) <==> HasFile(pre, post[k].parent))
    {
      AppendFacts(pre, r, post[k].parent, []);
    }
  }

  // ---------------------------------------------------------------------------------------
  // Whole runs
  // ---------------------------------------------------------------------------------------

  lemma {:induction false} FirstMore(rows: seq<RawRow>, k: nat)
    requires k < |rows| && (rows[k].inode != 0 ==> rows[k].parent != rows[k].inode)
    ensures ChildrenFirst(rows[..k + 1]) <==> ChildrenFirst(rows[..k]) && (rows[k].inode == 0 || !HasFile(rows[..k], rows[k].parent))
  {
    var pre, post := rows[..k], rows[..k + 1];
    assert forall l :: 0 <= l < k ==> pre[l] == post[l];
    assert post[k] == rows[k];
    if ChildrenFirst(post) {
      forall a, b | 0 <= a < k && 0 <= b < k && BelowFile(pre[a], pre[b])
        ensures a < b
      {
        assert BelowFile(post[a], post[b]);
      }
      assert forall l :: 0 <= l < |pre| ==> !BelowFile(post[k], post[l]);
    }
  }

  lemma {:induction false} ParentOther(rows: seq<RawRow>, k: nat)
    requires Plain(rows) && k < |rows| && rows[k].inode != 0
    ensures rows[k].parent != rows[k].inode
  {
    assert !OwnParent(rows[k]);
  }

  lemma {:induction false} LoadableIs(rows: seq<RawRow>)
    ensures Loadable(rows) <==> Plain(rows) && forall k :: 0 <= k < |rows| && rows[k].inode != 0 ==> Inode(rows, rows[k].parent)
  {
    hide RowOk, Compatible, Inode;
    if Loadable(rows) {
      forall k | 0 <= k < |rows|
        ensures !OwnParent(rows[k]) && (rows[k].inode != 0 ==> Inode(rows, rows[k].parent))
      {
        if rows[k].inode != 0 {
          assert ParentThere(rows, rows[k]);
        }
      }
    } else if Plain(rows) && forall k :: 0 <= k < |rows| && rows[k].inode != 0 ==> Inode(rows, rows[k].parent) {
      assert forall k :: 0 <= k < |rows| && rows[k].inode != 0 ==> !OwnParent(rows[k]);
    }
  }

  lemma {:induction false} LoadPrefix(rows: seq<RawRow>, k: nat)
    requires Plain(rows) && k <= |rows|
    ensures LoadRows(rows[..k]).Some? <==> ChildrenFirst(rows[..k])
    ensures LoadRows(rows[..k]).Some? ==> Loading(rows[..k], LoadRows(rows[..k]).value)
  {
    if k == 0 {
      assert rows[..0] == [];
    } else {
      hide Plain, Loading, Step, ChildrenFirst, HasFile;
      LoadPrefix(rows, k - 1);
      assert rows[..k][..k - 1] == rows[..k - 1];
      if rows[k - 1].inode != 0 {
        ParentOther(rows, k - 1);
      }
      FirstMore(rows, k - 1);
      if LoadRows(rows[..k - 1]).Some? {
        StepLoading(rows, k - 1, LoadRows(rows[..k - 1]).value);
      }
    }
  }

  /** A row set with a row for every parent loads exactly if every row below a file comes before
      that file. */
  lemma {:induction false} LoadExact(rows: seq<RawRow>)
    requires Loadable(rows)
    ensures LoadTree(rows).Some? <==> ChildrenFirst(rows)
  {
    hide IndexIs, LinkedIn, RowOk, Compatible, LoadRows, ChildrenFirst;
    LoadableIs(rows);
    LoadPrefix(rows, |rows|);
    assert rows[..|rows|] == rows;
    if LoadRows(rows).Some? {
      forall d | HasChild(rows, d)
        ensures Inode(rows, d)
      {
        var k :| 0 <= k < |rows| && Within(rows[k], d);
        assert ParentThere(rows, rows[k]);
      }
      assert LoadRows(rows).value.open == {};
    }
  }

  /** A row that is taken behind plain rows fits beside them. */
  lemma {:induction false} TakenFits(pre: seq<RawRow>, r: RawRow, s: Partial, l: nat)
    requires Shape(s) && Loading(pre, s) && l < |pre| && pre[l].inode != r.inode && !OwnParent(r) && Step(s, r).Some?
    ensures Compatible(pre[l], r)
  {
    hide IndexIs, Low32, EntryOf, NamedIn, HasDir, HasChild;
    if !Compatible(pre[l], r) {
      if HasFile(pre, r.parent) {
        assert pre[..|pre|] == pre;
        FileEntry(pre, |pre|, s, r.parent);
      } else {
        assert r.name in s.dirs[r.parent];
        if IsDirInode(pre, r.parent) {
          DirEntry(pre, s, r.parent);
        }
      }
    }
  }

  lemma {:induction false} TakenPlain(rows: seq<RawRow>, k: nat)
    requires k <= |rows| && LoadRows(rows[..k]).Some?
    requires forall i :: 0 <= i < |rows| ==> !OwnParent(rows[i])
    requires forall i, j :: 0 <= i < j < |rows| ==> rows[i].inode != rows[j].inode
    ensures Plain(rows[..k])
  {
    hide Loading, Step, RowOk, Compatible;
    if k > 0 {
      var pre, r := rows[..k - 1], rows[k - 1];
      assert rows[..k][..k - 1] == pre && rows[..k] == pre + [r];
      TakenPlain(rows, k - 1);
      LoadPrefix(pre, k - 1);
      assert pre[..k - 1] == pre;
      var s := LoadRows(pre).value;
      TakenOk(s, r);
      forall l | 0 <= l < |pre|
        ensures Compatible(pre[l], r)
      {
        TakenFits(pre, r, s, l);
      }
    }
  }

  lemma {:induction false} TakenOk(s: Partial, r: RawRow)
    requires Shape(s) && Step(s, r).Some?
    ensures RowOk(r)
  {
    hide Shape;
  }

  /** Of the row sets the key of the table admits, and in which no row is its own parent, exactly
      those load that have good rows, a row for every parent, no name twice in a directory, and
      every row below a file in front of that file. */
  lemma {:induction false} LoadsExactly(rows: seq<RawRow>)
    requires forall i :: 0 <= i < |rows| ==> !OwnParent(rows[i])
    requires forall i, j :: 0 <= i < j < |rows| ==> rows[i].inode != rows[j].inode
    ensures LoadTree(rows).Some? <==> Loadable(rows) && ChildrenFirst(rows)
  {
    hide IndexIs, LinkedIn, RowOk, Compatible, LoadRows, ChildrenFirst, Loadable, IsDirInode;
    if Loadable(rows) {
      LoadExact(rows);
    } else if LoadTree(rows).Some? {
      assert rows[..|rows|] == rows;
      TakenPlain(rows, |rows|);
      LoadPrefix(rows, |rows|);
      forall k | 0 <= k < |rows| && rows[k].inode != 0
        ensures Inode(rows, rows[k].parent)
      {
        assert Within(rows[k], rows[k].parent);
        assert HasChild(rows, rows[k].parent);
        assert rows[k].parent !in LoadRows(rows).value.open;
      }
      LoadableIs(rows);
    }
  }

  /** What makes a row good, in text: it has a name; its type is that of a file (8), or that of a
      directory (4) and it has no data; row 0 has the name of the version row. */
  lemma {:induction false} RowOkExact(r: RawRow)
    ensures RowOk(r) <==>
            && r.name != [] && (r.typ == 4 || r.typ == 8) && (r.typ == 4 ==> r.data == [])
            && (r.inode == 0 ==> r.name == Ascii("__version__"))
  {
    assert Ascii("__version__") == VERSION_FILE;
  }

  /** A directory row that is its own parent is taken, whatever its name, and linked nowhere. */
  lemma {:induction false} OwnParentTaken(s: Partial, r: RawRow)
    requires Shape(s) && RowOk(r) && r.typ == DT_DIR && OwnParent(r) && r.inode !in s.index
    ensures Step(s, r).Some? && r.inode in Step(s, r).value.index
    ensures var after := Step(s, r).value.dirs; forall d, n :: d in after && n in after[d] ==> d in s.dirs && n in s.dirs[d]
  {
  }

  /** Well-formed are the row sets with a row for every parent and none below a file. */
  lemma {:induction false} WellFormedIs(rows: seq<RawRow>)
    ensures WellFormedRows(rows) <==> Loadable(rows) && NoneBelowFile(rows)
  {
    hide Compatible;
    if WellFormedRows(rows) {
      forall k | 0 <= k < |rows| && rows[k].inode != 0
        ensures ParentThere(rows, rows[k])
      {
        assert ParentOk(rows, rows[k]);
      }
      forall k, l | 0 <= k < |rows| && 0 <= l < |rows|
        ensures !BelowFile(rows[k], rows[l])
      {
        if rows[k].inode != 0 {
          assert ParentOk(rows, rows[k]);
          DirOrFile(rows, rows[k].parent, l);
        }
      }
    }
    if Loadable(rows) && NoneBelowFile(rows) {
      forall k | 0 <= k < |rows| && rows[k].inode != 0
        ensures ParentOk(rows, rows[k])
      {
        assert ParentThere(rows, rows[k]);
        if rows[k].parent != 0 {
          var l :| 0 <= l < |rows| && rows[l].inode == rows[k].parent;
          assert !BelowFile(rows[k], rows[l]) && RowOk(rows[l]);
        }
      }
    }
  }

  lemma {:induction false} DirOrFile(rows: seq<RawRow>, d: nat, l: nat)
    requires WellFormedRows(rows) && l < |rows| && (d == 0 || HasDir(rows, d))
    ensures !(IsFileRow(rows[l]) && rows[l].inode == d)
  {
    hide RowOk, ParentOk;
    if d != 0 {
      var k :| 0 <= k < |rows| && IsDirRow(rows[k]) && rows[k].inode == d;
      assert k < l ==> Compatible(rows[k], rows[l]);
      assert l < k ==> Compatible(rows[l], rows[k]);
    }
  }

  /** A well-formed row set loads, no placeholder is left, and the result is its tree. */
  lemma {:induction false} LoadWellFormed(rows: seq<RawRow>)
    requires WellFormedRows(rows)
    ensures LoadTree(rows).Some? && TreeOf(rows, LoadTree(rows).value)
  {
    hide IndexIs, Loadable, WellFormedRows, LoadRows, HasFile, Plain;
    WellFormedIs(rows);
    LoadExact(rows);
    LoadableIs(rows);
    LoadPrefix(rows, |rows|);
    assert rows[..|rows|] == rows;
    NoFiles(rows);
    var s := LoadRows(rows).value;
    assert TablesAre(rows, s.dirs);
  }

  lemma {:induction false} NoFiles(rows: seq<RawRow>)
    requires NoneBelowFile(rows)
    ensures forall k :: 0 <= k < |rows| && rows[k].inode != 0 ==> !HasFile(rows, rows[k].parent)
  {
  }

  // ---------------------------------------------------------------------------------------
  // The order of the rows does not matter
  // ---------------------------------------------------------------------------------------

  lemma {:induction false} DistinctCount(rows: seq<RawRow>, r: RawRow)
    requires forall k, l :: 0 <= k < l < |rows| ==> rows[k] != rows[l]
    ensures multiset(rows)[r] <= 1
  {
    if rows != [] {
      var n := |rows| - 1;
      DistinctCount(rows[..n], r);
      assert rows == rows[..n] + [rows[n]];
    }
  }

  lemma {:induction false} TwiceCount(rows: seq<RawRow>, k: nat, l: nat)
    requires k < l < |rows| && rows[k] == rows[l]
    ensures multiset(rows)[rows[k]] >= 2
  {
    assert rows == rows[..l] + rows[l..];
    assert rows[..l][k] == rows[k] && rows[l..][0] == rows[l];
    assert rows[k] in multiset(rows[..l]) && rows[k] in multiset(rows[l..]);
  }

  lemma {:induction false} PermutedAt(rows: seq<RawRow>, perm: seq<RawRow>, k: nat) returns (j: nat)
    requires multiset(rows) == multiset(perm) && k < |perm|
    ensures j < |rows| && rows[j] == perm[k]
  {
    assert perm[k] in multiset(rows);
    j :| 0 <= j < |rows| && rows[j] == perm[k];
  }

  lemma {:induction false} PermutedDir(rows: seq<RawRow>, perm: seq<RawRow>, d: nat)
    requires multiset(rows) == multiset(perm) && HasDir(rows, d)
    ensures HasDir(perm, d)
  {
    var k :| 0 <= k < |rows| && IsDirRow(rows[k]) && rows[k].inode == d;
    var j := PermutedAt(perm, rows, k);
    assert IsDirRow(perm[j]);
  }

  lemma {:induction false} PermutedCompatible(rows: seq<RawRow>, perm: seq<RawRow>, k: nat, l: nat)
    requires (forall a, b :: 0 <= a < b < |rows| ==> Compatible(rows[a], rows[b])) && multiset(rows) == multiset(perm) && k < l < |perm|
    ensures Compatible(perm[k], perm[l])
  {
    forall a, b | 0 <= a < b < |rows|
      ensures rows[a] != rows[b]
    {
      assert Compatible(rows[a], rows[b]);
    }
    DistinctCount(rows, perm[k]);
    if perm[k] == perm[l] {
      TwiceCount(perm, k, l);
    }
    var i := PermutedAt(rows, perm, k);
    var j := PermutedAt(rows, perm, l);
    assert Compatible(rows[i], rows[j]) || Compatible(rows[j], rows[i]);
  }

  lemma {:induction false} PermutedWellFormed(rows: seq<RawRow>, perm: seq<RawRow>)
    requires WellFormedRows(rows) && multiset(rows) == multiset(perm)
    ensures WellFormedRows(perm)
  {
    hide RowOk, HasDir, Compatible;
    forall k | 0 <= k < |perm|
      ensures RowOk(perm[k]) && (perm[k].inode != 0 ==> ParentOk(perm, perm[k]))
    {
      var j := PermutedAt(rows, perm, k);
      assert RowOk(rows[j]);
      if perm[k].inode != 0 && perm[k].parent != 0 {
        assert ParentOk(rows, rows[j]);
        PermutedDir(rows, perm, perm[k].parent);
      }
    }
    forall k, l | 0 <= k < l < |perm|
      ensures Compatible(perm[k], perm[l])
    {
      PermutedCompatible(rows, perm, k, l);
    }
  }

  /** The root is decided by the one version row, if there is one. */
  lemma {:induction false} RootOfIs(rows: seq<RawRow>, k: nat)
    requires k < |rows| && rows[k].inode == 0
    requires forall l :: 0 <= l < |rows| && l != k ==> rows[l].inode != 0
    ensures RootOf(rows) == EmptyRoot.(version := rows[k].version, writer := Low32(rows[k].writer), mtime := Low32(rows[k].mtime))
  {
    var n := |rows| - 1;
    if k < n {
      RootOfIs(rows[..n], k);
    }
  }

  lemma {:induction false} RootOfNone(rows: seq<RawRow>)
    requires forall l :: 0 <= l < |rows| ==> rows[l].inode != 0
    ensures RootOf(rows) == EmptyRoot
  {
    if rows != [] {
      RootOfNone(rows[..|rows| - 1]);
    }
  }

  lemma {:induction false} PermutedRoot(rows: seq<RawRow>, perm: seq<RawRow>)
    requires WellFormedRows(rows) && WellFormedRows(perm) && multiset(rows) == multiset(perm)
    ensures RootOf(rows) == RootOf(perm)
  {
    hide RowOk, ParentOk, RootOf, Low32;
    if k :| 0 <= k < |rows| && rows[k].inode == 0 {
      var j := PermutedAt(perm, rows, k);
      forall l | 0 <= l < |rows| && l != k
        ensures rows[l].inode != 0
      {
        assert Compatible(rows[k], rows[l]) || Compatible(rows[l], rows[k]);
      }
      forall l | 0 <= l < |perm| && l != j
        ensures perm[l].inode != 0
      {
        assert Compatible(perm[j], perm[l]) || Compatible(perm[l], perm[j]);
      }
      RootOfIs(rows, k);
      RootOfIs(perm, j);
    } else {
      forall l | 0 <= l < |perm|
        ensures perm[l].inode != 0
      {
        var j := PermutedAt(rows, perm, l);
      }
      RootOfNone(rows);
      RootOfNone(perm);
    }
  }

  lemma {:induction false} PermutedIndex(rows: seq<RawRow>, perm: seq<RawRow>, a: map<nat, Entry>, b: map<nat, Entry>)
    requires multiset(rows) == multiset(perm) && RootOf(rows) == RootOf(perm)
    requires 0 in a && 0 in b && IndexIs(rows, a) && IndexIs(perm, b)
    ensures forall i :: i in a ==> i in b && a[i] == b[i]
  {
    hide EntryOf, RootOf;
    forall i | i in a
      ensures i in b && a[i] == b[i]
    {
      assert Inode(rows, i);
      if i != 0 {
        var k :| 0 <= k < |rows| && rows[k].inode == i;
        var j := PermutedAt(perm, rows, k);
        assert perm[j].inode == i;
      }
    }
  }

  lemma {:induction false} PermutedTables(rows: seq<RawRow>, perm: seq<RawRow>, a: map<nat, map<Name, nat>>, b: map<nat, map<Name, nat>>, d: nat)
    requires multiset(rows) == multiset(perm) && TablesAre(rows, a) && TablesAre(perm, b) && d in a && d in b
    ensures forall n :: n in a[d] ==> n in b[d] && a[d][n] == b[d][n]
  {
    forall n | n in a[d]
      ensures n in b[d] && a[d][n] == b[d][n]
    {
      assert NamedIn(rows, d, n);
      var k :| 0 <= k < |rows| && Within(rows[k], d) && rows[k].name == n;
      var j := PermutedAt(perm, rows, k);
      assert perm[j] == rows[k];
    }
  }

  /** Trees of the same rows in different orders are equal. */
  lemma {:induction false} TreeUnique(rows: seq<RawRow>, perm: seq<RawRow>, t: Tree, u: Tree)
    requires WellFormedRows(rows) && WellFormedRows(perm) && multiset(rows) == multiset(perm)
    requires 0 in t.index && 0 in u.index && TreeOf(rows, t) && TreeOf(perm, u)
    ensures t == u
  {
    hide IndexIs, TablesAre, WellFormedRows, HasDir;
    PermutedRoot(rows, perm);
    PermutedIndex(rows, perm, t.index, u.index);
    PermutedIndex(perm, rows, u.index, t.index);
    assert t.index == u.index;
    forall d
      ensures d in t.dirs <==> d in u.dirs
    {
      if HasDir(rows, d) {
        PermutedDir(rows, perm, d);
      }
      if HasDir(perm, d) {
        PermutedDir(perm, rows, d);
      }
    }
    forall d | d in t.dirs
      ensures t.dirs[d] == u.dirs[d]
    {
      PermutedTables(rows, perm, t.dirs, u.dirs, d);
      PermutedTables(perm, rows, u.dirs, t.dirs, d);
    }
    assert t.dirs == u.dirs;
  }

  /** Loading succeeds for every order of a well-formed row set, always with the same tree. */
  lemma {:induction false} LoadOrderIndependent(rows: seq<RawRow>, perm: seq<RawRow>)
    requires WellFormedRows(rows) && multiset(rows) == multiset(perm)
    ensures LoadTree(perm).Some? && LoadTree(perm) == LoadTree(rows)
  {
    hide LoadRows, WellFormedRows, IndexIs, TablesAre;
    PermutedWellFormed(rows, perm);
    LoadWellFormed(rows);
    LoadWellFormed(perm);
    TreeUnique(rows, perm, LoadTree(rows).value, LoadTree(perm).value);
  }

  // ---------------------------------------------------------------------------------------
  // When it does matter
  // ---------------------------------------------------------------------------------------

  lemma {:induction false} PermutedLoadable(rows: seq<RawRow>, perm: seq<RawRow>)
    requires Loadable(rows) && multiset(rows) == multiset(perm)
    ensures Loadable(perm)
  {
    hide RowOk, Compatible;
    forall k | 0 <= k < |perm|
      ensures RowOk(perm[k]) && (perm[k].inode != 0 ==> ParentThere(perm, perm[k]))
    {
      var j := PermutedAt(rows, perm, k);
      assert RowOk(rows[j]);
      if perm[k].inode != 0 {
        assert ParentThere(rows, rows[j]);
        if perm[k].parent != 0 {
          var l :| 0 <= l < |rows| && rows[l].inode == perm[k].parent;
          var m := PermutedAt(perm, rows, l);
          assert perm[m].inode == perm[k].parent;
        }
      }
    }
    forall k, l | 0 <= k < l < |perm|
      ensures Compatible(perm[k], perm[l])
    {
      PermutedCompatible(rows, perm, k, l);
    }
  }

  lemma {:induction false} RemoveOne(rows: seq<RawRow>, k: nat)
    requires k < |rows|
    ensures multiset(rows) == multiset(rows[..k] + rows[k + 1..]) + multiset{rows[k]}
  {
    assert rows == rows[..k] + [rows[k]] + rows[k + 1..];
  }

  /** An order in which row `l` comes first and row `k` last. */
  lemma {:induction false} LastAndFirst(rows: seq<RawRow>, k: nat, l: nat) returns (perm: seq<RawRow>)
    requires k < |rows| && l < |rows| && k != l
    ensures multiset(perm) == multiset(rows) && |perm| > 1 && perm[0] == rows[l] && perm[|perm| - 1] == rows[k]
  {
    var some := rows[..k] + rows[k + 1..];
    RemoveOne(rows, k);
    var m := if l < k then l else l - 1;
    assert some[m] == rows[l];
    RemoveOne(some, m);
    var rest := some[..m] + some[m + 1..];
    perm := [rows[l]] + rest + [rows[k]];
  }

  ghost predicate LoadsAlike(rows: seq<RawRow>, perm: seq<RawRow>) {
    multiset(perm) == multiset(rows) ==> LoadTree(perm).Some? && LoadTree(perm) == LoadTree(rows)
  }

  /** Every order of a row set loads, and all with the same tree, exactly if no row is below a
      file. */
  lemma {:induction false} AllOrdersExact(rows: seq<RawRow>)
    requires Loadable(rows)
    ensures (forall perm :: LoadsAlike(rows, perm)) <==> NoneBelowFile(rows)
  {
    hide Loadable, LoadTree, WellFormedRows, BelowFile, ChildrenFirst;
    WellFormedIs(rows);
    if NoneBelowFile(rows) {
      forall perm
        ensures LoadsAlike(rows, perm)
      {
        if multiset(perm) == multiset(rows) {
          LoadOrderIndependent(rows, perm);
        }
      }
    } else {
      var k, l :| 0 <= k < |rows| && 0 <= l < |rows| && BelowFile(rows[k], rows[l]);
      NotItself(rows, k, l);
      var perm := LastAndFirst(rows, k, l);
      PermutedLoadable(rows, perm);
      LoadExact(perm);
      NotFirst(perm);
      assert !LoadsAlike(rows, perm);
    }
  }

  lemma {:induction false} NotItself(rows: seq<RawRow>, k: nat, l: nat)
    requires Loadable(rows) && k < |rows| && l < |rows| && BelowFile(rows[k], rows[l])
    ensures k != l
  {
    ParentOther(rows, k);
  }

  lemma {:induction false} NotFirst(rows: seq<RawRow>)
    requires |rows| > 1 && BelowFile(rows[|rows| - 1], rows[0])
    ensures !ChildrenFirst(rows)
  {
  }

  /** The body of the loading loop for a row other than the version row. */
  method AddRow(index0: map<nat, Entry>, dirs0: map<nat, map<Name, nat>>, open0: set<nat>, r: RawRow)
      returns (ok: bool, index: map<nat, Entry>, dirs: map<nat, map<Name, nat>>, open: set<nat>)
    requires Shape(Partial(index0, dirs0, open0)) && RowOk(r) && r.inode != 0
    ensures Step(Partial(index0, dirs0, open0), r) == if ok then Some(Partial(index, dirs, open)) else None
  {
    hide EntryOf, RowOk;
    ok, index, dirs, open := false, index0, dirs0, open0;
    if r.parent !in index && r.parent !in open {
      dirs, open := dirs[r.parent := map[]], open + {r.parent};
    } else if r.parent in index && index[r.parent].kind.Reg? {
      return;
    }
    if r.typ == DT_DIR {
      if r.inode in index {
        return;
      }
      if r.inode !in open {
        dirs := dirs[r.inode := map[]];
      }
    }
    if !(r.typ == DT_DIR && r.parent == r.inode) {
      if r.name in dirs[r.parent] {
        return;
      }
      var names: map<Name, nat> := dirs[r.parent][r.name := r.inode];
      dirs := dirs[r.parent := names];
      if r.typ == DT_REG && r.inode in open {
        dirs := dirs - {r.inode};
      }
    }
    index, open := index[r.inode := EntryOf(r)], open - {r.inode};
    ok := true;
  }

  /** The loading loop; the failures leave early. */
  method LoadIndex(rows: seq<RawRow>) returns (res: Option<Tree>)
    ensures res == LoadTree(rows)
  {
    var index: map<nat, Entry> := map[0 := EmptyRoot];
    var dirs: map<nat, map<Name, nat>> := map[0 := map[]];
    var open: set<nat> := {};
    var k := 0;
    assert rows[..0] == [];
    while k < |rows|
      invariant 0 <= k <= |rows|
      invariant LoadRows(rows[..k]) == Some(Partial(index, dirs, open))
    {
      hide Low32, RowOk, Step;
      var r := rows[k];
      ghost var s := Partial(index, dirs, open);
      assert Shape(s);
      assert LoadRows(rows[..k + 1]) == Step(s, r) by {
        assert rows[..k + 1][..k] == rows[..k];
      }
      StepVersion(s, r);
      if !RowOk(r) {
        LoadFails(rows, k + 1);
        return None;
      }
      if r.inode == 0 {
        index := index[0 := index[0].(version := r.version, writer := Low32(r.writer), mtime := Low32(r.mtime))];
      } else {
        var ok;
        ok, index, dirs, open := AddRow(index, dirs, open, r);
        if !ok {
          LoadFails(rows, k + 1);
          return None;
        }
      }
      k := k + 1;
    }
    assert rows[..k] == rows;
    if open != {} {
      return None;
    }
    return Some(Tree(index, dirs));
  }

  lemma {:induction false} StepVersion(s: Partial, r: RawRow)
    requires Shape(s)
    ensures !RowOk(r) ==> Step(s, r) == None
    ensures RowOk(r) && r.inode == 0 ==>
      Step(s, r) == Some(s.(index := s.index[0 := s.index[0].(version := r.version, writer := Low32(r.writer), mtime := Low32(r.mtime))]))
  {
  }

  lemma {:induction false} LoadFails(rows: seq<RawRow>, k: nat)
    requires k <= |rows| && LoadRows(rows[..k]).None?
    ensures LoadRows(rows).None?
    decreases |rows| - k
  {
    hide Step;
    if k == |rows| {
      assert rows[..k] == rows;
    } else {
      assert rows[..k + 1][..k] == rows[..k];
      LoadFails(rows, k + 1);
    }
  }
}
