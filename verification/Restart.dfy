/** Restart: loading the table that the operations have written rebuilds the tree in memory. */
module Restart {
  import opened Bytes
  import opened MemTree
  import opened MemDb
  import opened Loader

  function RawOf(i: nat, r: Row): RawRow {
    RawRow(i, r.parent, r.version, r.writer, r.mtime, if r.kind.Dir? then DT_DIR else DT_REG, r.name, r.data)
  }

  predicate AtRow(table: map<nat, Row>, r: RawRow) {
    r.inode in table && r == RawOf(r.inode, table[r.inode])
  }

  /** The query returns every row of the table once, in any order. */
  ghost predicate Lists(table: map<nat, Row>, rows: seq<RawRow>) {
    && (forall k, l :: 0 <= k < l < |rows| ==> rows[k].inode != rows[l].inode)
    && (forall k :: 0 <= k < |rows| ==> AtRow(table, rows[k]))
    && (forall i :: i in table ==> exists k :: 0 <= k < |rows| && rows[k].inode == i)
  }

  ghost predicate Stored(t: Tree, table: map<nat, Row>) {
    TreeInv(t) && ContentInv(t) && Mirror(t, table)
  }

  lemma {:induction false} StoredEntry(t: Tree, table: map<nat, Row>, i: nat)
    requires Stored(t, table)
    ensures 0 in t.index && 0 in t.dirs && 0 in table && (i in t.index <==> i in table)
    ensures i in t.dirs ==> i in t.index
    ensures i in t.index ==> EntryOk(t, i) && WellStored(t.index[i])
    ensures i in t.index && i == 0 ==> t.index[0].kind.Dir? && t.index[0].parent == 0 && t.index[0].name == [] && IsVersionRow(table[0], t.index[0])
    ensures i in t.index && i != 0 ==> t.index[i].parent != i && t.index[i].parent in t.index && table[i] == RowOf(t.index[i])
  {
    hide Reachable, WellStored, IsVersionRow;
    assert EntryOk(t, 0);
    if i in t.index {
      assert EntryOk(t, i);
      if i != 0 {
        NoSelfParent(t, i);
      }
    }
  }

  lemma {:induction false} Low32Id(n: u32)
    ensures Low32(n) == n
  {
  }

  /** What a row of a stored tree says. */
  lemma {:induction false} StoredRow(t: Tree, table: map<nat, Row>, r: RawRow)
    requires Stored(t, table) && AtRow(table, r)
    ensures RowOk(r) && r.inode in t.index && 0 in t.index
    ensures r.inode == 0 ==> t.index[0] == EmptyRoot.(version := r.version, writer := Low32(r.writer), mtime := Low32(r.mtime))
    ensures r.inode != 0 ==>
      && EntryOf(r) == t.index[r.inode] && r.parent != r.inode && r.parent in t.dirs && r.parent in t.index
      && r.name in t.dirs[r.parent] && t.dirs[r.parent][r.name] == r.inode
    ensures r.inode in t.dirs <==> r.inode == 0 || IsDirRow(r)
  {
    hide Stored, Low32;
    StoredEntry(t, table, r.inode);
    Low32Id(table[r.inode].writer);
    Low32Id(table[r.inode].mtime);
  }

  lemma {:induction false} StoredParent(t: Tree, table: map<nat, Row>, rows: seq<RawRow>, r: RawRow)
    requires Stored(t, table) && Lists(table, rows) && AtRow(table, r) && r.inode != 0
    ensures ParentOk(rows, r)
  {
    hide Stored, RowOk, EntryOf, Low32;
    StoredRow(t, table, r);
    if r.parent != 0 {
      StoredEntry(t, table, r.parent);
      var k :| 0 <= k < |rows| && rows[k].inode == r.parent;
      StoredRow(t, table, rows[k]);
    }
  }

  lemma {:induction false} StoredRowsWellFormed(t: Tree, table: map<nat, Row>, rows: seq<RawRow>)
    requires Stored(t, table) && Lists(table, rows)
    ensures WellFormedRows(rows)
  {
    hide Stored, RowOk, EntryOf, Low32, ParentOk, AtRow;
    forall k | 0 <= k < |rows|
      ensures RowOk(rows[k]) && (rows[k].inode != 0 ==> ParentOk(rows, rows[k]))
    {
      StoredRow(t, table, rows[k]);
      if rows[k].inode != 0 {
        StoredParent(t, table, rows, rows[k]);
      }
    }
    forall k, l | 0 <= k < l < |rows|
      ensures Compatible(rows[k], rows[l])
    {
      StoredRow(t, table, rows[k]);
      StoredRow(t, table, rows[l]);
    }
  }

  lemma {:induction false} StoredRoot(t: Tree, table: map<nat, Row>, rows: seq<RawRow>)
    requires Stored(t, table) && Lists(table, rows)
    ensures 0 in t.index && RootOf(rows) == t.index[0]
  {
    hide Stored, RowOk, EntryOf, Low32, RootOf;
    StoredEntry(t, table, 0);
    var k :| 0 <= k < |rows| && rows[k].inode == 0;
    StoredRow(t, table, rows[k]);
    forall l | 0 <= l < |rows| && l != k
      ensures rows[l].inode != 0
    {
    }
    RootOfIs(rows, k);
  }

  /** The row of an inode. */
  lemma {:induction false} RowAt(t: Tree, table: map<nat, Row>, rows: seq<RawRow>, i: nat) returns (k: nat)
    requires Stored(t, table) && Lists(table, rows) && i in t.index
    ensures k < |rows| && rows[k].inode == i && AtRow(table, rows[k])
  {
    hide Stored, AtRow;
    StoredEntry(t, table, i);
    k :| 0 <= k < |rows| && rows[k].inode == i;
  }

  lemma {:induction false} StoredIndex(t: Tree, table: map<nat, Row>, rows: seq<RawRow>)
    requires Stored(t, table) && Lists(table, rows)
    ensures 0 in t.index && IndexIs(rows, t.index)
  {
    hide Stored, RowOk, EntryOf, Low32, RootOf, AtRow, EntryOk, IsDirRow;
    StoredRoot(t, table, rows);
    forall k | 0 <= k < |rows|
      ensures rows[k].inode in t.index && (rows[k].inode != 0 ==> t.index[rows[k].inode] == EntryOf(rows[k]))
    {
      StoredRow(t, table, rows[k]);
    }
    forall i | i in t.index
      ensures Inode(rows, i)
    {
      var k := RowAt(t, table, rows, i);
    }
  }

  lemma {:induction false} StoredTables(t: Tree, table: map<nat, Row>, rows: seq<RawRow>)
    requires Stored(t, table) && Lists(table, rows)
    ensures TablesAre(rows, t.dirs)
  {
    hide Stored, RowOk, EntryOf, Low32, AtRow, NamedIn, IsDirRow;
    forall k | 0 <= k < |rows| && rows[k].inode != 0
      ensures rows[k].parent in t.dirs && rows[k].name in t.dirs[rows[k].parent] && t.dirs[rows[k].parent][rows[k].name] == rows[k].inode
    {
      StoredRow(t, table, rows[k]);
    }
    forall d, n | d in t.dirs && n in t.dirs[d]
      ensures NamedIn(rows, d, n)
    {
      StoredName(t, table, rows, d, n);
    }
  }

  lemma {:induction false} StoredDirs(t: Tree, table: map<nat, Row>, rows: seq<RawRow>, d: nat)
    requires Stored(t, table) && Lists(table, rows)
    ensures d in t.dirs <==> IsDirInode(rows, d)
  {
    hide Stored, RowOk, EntryOf, Low32, AtRow, EntryOk, WellStored;
    StoredEntry(t, table, d);
    if d in t.dirs {
      var k := RowAt(t, table, rows, d);
      StoredRow(t, table, rows[k]);
    }
    if HasDir(rows, d) {
      var k :| 0 <= k < |rows| && IsDirRow(rows[k]) && rows[k].inode == d;
      StoredRow(t, table, rows[k]);
    }
  }

  lemma {:induction false} StoredTree(t: Tree, table: map<nat, Row>, rows: seq<RawRow>)
    requires Stored(t, table) && Lists(table, rows)
    ensures 0 in t.index && TreeOf(rows, t)
  {
    hide Stored, Lists, IndexIs, TablesAre, IsDirInode;
    StoredIndex(t, table, rows);
    StoredTables(t, table, rows);
    forall d
      ensures d in t.dirs <==> IsDirInode(rows, d)
    {
      StoredDirs(t, table, rows, d);
    }
  }

  lemma {:induction false} StoredName(t: Tree, table: map<nat, Row>, rows: seq<RawRow>, d: nat, n: Name)
    requires Stored(t, table) && Lists(table, rows) && d in t.dirs && n in t.dirs[d]
    ensures NamedIn(rows, d, n)
  {
    hide Reachable, RowOk, EntryOk, WellStored;
    assert ChildOk(t, d, n);
    var c := t.dirs[d][n];
    var k :| 0 <= k < |rows| && rows[k].inode == c;
    assert AtRow(table, rows[k]);
    assert Within(rows[k], d) && rows[k].name == n;
  }

  /** The table of a database, read back in any order, is the tree in memory, root version,
      writer and time included. */
  lemma {:induction false} RestartRoundTrip(db: Db, rows: seq<RawRow>)
    requires Inv(db) && Lists(db.table, rows)
    ensures LoadTree(rows) == Some(db.tree)
  {
    hide TreeInv, ContentInv, Mirror, VmInv, Lists, WellFormedRows, TreeOf, LoadTree;
    StoredLoads(db.tree, db.table, rows);
  }

  lemma {:induction false} StoredLoads(t: Tree, table: map<nat, Row>, rows: seq<RawRow>)
    requires Stored(t, table) && Lists(table, rows)
    ensures LoadTree(rows) == Some(t)
  {
    hide Stored, Lists, WellFormedRows, LoadRows;
    StoredRowsWellFormed(t, table, rows);
    StoredTree(t, table, rows);
    LoadWellFormed(rows);
    TreeUnique(rows, rows, LoadTree(rows).value, t);
  }
}
