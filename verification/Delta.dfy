/** The delta transfer: the leader collects the inodes that some member lacks or has different,
    a follower deletes what the leader does not have, replaces what it was sent, reloads its table
    and compares (`dcdb_create_and_send_updates`, `bdb_backend_commit_update`). */
module Delta {
  import opened Bytes
  import opened MemTree
  import opened VmConfig
  import opened MemDb
  import opened TreeIndex
  import opened Loader
  import opened Restart
  import opened VmScan

  // ---------------------------------------------------------------------------------------
  // The leader: what has to be sent
  // ---------------------------------------------------------------------------------------

  /** Some other member does not have this mark. */
  predicate Needed(idx: seq<Index>, leader: nat, m: Mark) {
    exists n :: 0 <= n < |idx| && n != leader && m !in idx[n].marks
  }

  function NeededInodes(idx: seq<Index>, leader: nat): set<nat>
    requires leader < |idx|
  {
    set m | m in idx[leader].marks && Needed(idx, leader, m) :: m.inode
  }

  /** The copies to send; there are none if an inode of the index is not in the tree. */
  function Updates(t: Tree, idx: seq<Index>, leader: nat): Option<map<nat, Entry>>
    requires leader < |idx|
  {
    var inodes := NeededInodes(idx, leader);
    if inodes <= t.index.Keys then Some(map i | i in inodes :: t.index[i]) else None
  }

  /** Inodes needed by the first `n` members, and by member `n` among the first `i` marks. */
  ghost predicate Wanted(idx: seq<Index>, leader: nat, n: nat, i: nat, x: nat)
    requires leader < |idx| && n <= |idx|
  {
    exists k :: 0 <= k < |idx[leader].marks| && idx[leader].marks[k].inode == x && WantedBy(idx, leader, n, i, k)
  }

  ghost predicate WantedBy(idx: seq<Index>, leader: nat, n: nat, i: nat, k: nat)
    requires leader < |idx| && n <= |idx| && k < |idx[leader].marks|
  {
    exists o :: 0 <= o < |idx| && o != leader && (o < n || (o == n && k < i)) && idx[leader].marks[k] !in idx[o].marks
  }

  lemma {:induction false} WantedAll(idx: seq<Index>, leader: nat, x: nat)
    requires leader < |idx|
    ensures Wanted(idx, leader, |idx|, 0, x) <==> x in NeededInodes(idx, leader)
  {
    var marks := idx[leader].marks;
    if Wanted(idx, leader, |idx|, 0, x) {
      var k :| 0 <= k < |marks| && marks[k].inode == x && WantedBy(idx, leader, |idx|, 0, k);
      assert marks[k] in marks && Needed(idx, leader, marks[k]);
    }
    if x in NeededInodes(idx, leader) {
      var m :| m in marks && Needed(idx, leader, m) && m.inode == x;
      var k :| 0 <= k < |marks| && marks[k] == m;
      assert WantedBy(idx, leader, |idx|, 0, k);
    }
  }

  lemma {:induction false} WantedStep(idx: seq<Index>, leader: nat, n: nat, i: nat, x: nat)
    requires leader < |idx| && n < |idx| && n != leader && i < |idx[leader].marks|
    ensures var m := idx[leader].marks[i];
            Wanted(idx, leader, n, i + 1, x) <==> Wanted(idx, leader, n, i, x) || (m !in idx[n].marks && m.inode == x)
  {
    var marks := idx[leader].marks;
    if Wanted(idx, leader, n, i + 1, x) {
      var k :| 0 <= k < |marks| && marks[k].inode == x && WantedBy(idx, leader, n, i + 1, k);
      var o :| 0 <= o < |idx| && o != leader && (o < n || (o == n && k < i + 1)) && marks[k] !in idx[o].marks;
      assert (o == n && k == i) || WantedBy(idx, leader, n, i, k);
    }
    if Wanted(idx, leader, n, i, x) {
      var k :| 0 <= k < |marks| && marks[k].inode == x && WantedBy(idx, leader, n, i, k);
      assert WantedBy(idx, leader, n, i + 1, k);
    }
    if marks[i] !in idx[n].marks && marks[i].inode == x {
      assert WantedBy(idx, leader, n, i + 1, i);
    }
  }

  lemma {:induction false} WantedNext(idx: seq<Index>, leader: nat, n: nat, x: nat)
    requires leader < |idx| && n < |idx|
    ensures Wanted(idx, leader, n + 1, 0, x) <==> Wanted(idx, leader, n, if n == leader then 0 else |idx[leader].marks|, x)
  {
    var marks := idx[leader].marks;
    var top := if n == leader then 0 else |marks|;
    forall k | 0 <= k < |marks|
      ensures WantedBy(idx, leader, n + 1, 0, k) <==> WantedBy(idx, leader, n, top, k)
    {
      if WantedBy(idx, leader, n + 1, 0, k) {
        var o :| 0 <= o < |idx| && o != leader && o < n + 1 && marks[k] !in idx[o].marks;
        assert o < n || (o == n && k < top);
      }
    }
  }

  /** Where the cursor stops, the mark is either there or nowhere. */
  lemma {:induction false} CursorDecides(marks: seq<Mark>, j: nat, m: Mark)
    requires SortedMarks(marks) && j <= |marks|
    requires forall l :: 0 <= l < j ==> marks[l].inode < m.inode
    requires j < |marks| ==> marks[j].inode >= m.inode
    ensures m in marks <==> j < |marks| && marks[j] == m
    ensures j == |marks| <==> Beyond(marks, m)
  {
    forall l | 0 <= l < |marks| && l != j
      ensures marks[l] != m
    {
      if l > j {
        assert marks[j].inode < marks[l].inode;
      }
    }
  }

  /** The two-cursor comparison of the leader's index with the index of every other member. A
      cursor past the end of a member's index counts as "different". */
  method CollectUpdates(t: Tree, idx: seq<Index>, leader: nat) returns (res: Option<map<nat, Entry>>)
    requires leader < |idx| && forall n :: 0 <= n < |idx| ==> SortedMarks(idx[n].marks)
    ensures res == Updates(t, idx, leader)
  {
    hide Wanted, NeededInodes, Needed;
    var master := idx[leader].marks;
    var updates: map<nat, Entry> := map[];
    var n := 0;
    forall x
      ensures !Wanted(idx, leader, 0, 0, x)
    {
      NothingWanted(idx, leader, x);
    }
    while n < |idx|
      invariant 0 <= n <= |idx|
      invariant forall x :: x in updates <==> Wanted(idx, leader, n, 0, x)
      invariant forall x :: x in updates ==> x in t.index && updates[x] == t.index[x]
    {
      if n != leader {
        var ok;
        ok, updates := CompareOne(t, idx, leader, n, updates);
        if !ok {
          return None;
        }
      }
      forall x
        ensures Wanted(idx, leader, n + 1, 0, x) <==> x in updates
      {
        WantedNext(idx, leader, n, x);
      }
      n := n + 1;
    }
    forall x
      ensures x in updates <==> x in NeededInodes(idx, leader)
    {
      WantedAll(idx, leader, x);
    }
    assert NeededInodes(idx, leader) <= t.index.Keys;
    assert updates == Updates(t, idx, leader).value;
    return Some(updates);
  }

  /** The mark has a greater inode than all of the index: the cursor is at its end, and the entry
      that the code compares with lies behind it. */
  ghost predicate Beyond(marks: seq<Mark>, m: Mark) {
    forall l :: 0 <= l < |marks| ==> marks[l].inode < m.inode
  }

  /** This happens exactly if the leader's last inode is greater than the follower's last. */
  lemma {:induction false} BeyondExact(master: seq<Mark>, slave: seq<Mark>)
    requires SortedMarks(master) && SortedMarks(slave)
    ensures (exists i :: 0 <= i < |master| && Beyond(slave, master[i])) <==>
              master != [] && (slave == [] || slave[|slave| - 1].inode < master[|master| - 1].inode)
  {
    var n, k := |master| - 1, |slave| - 1;
    if master != [] && (slave == [] || slave[k].inode < master[n].inode) {
      assert Beyond(slave, master[n]);
    }
    if i :| 0 <= i < |master| && Beyond(slave, master[i]) {
      assert i < n ==> master[i].inode < master[n].inode;
    }
  }

  lemma {:induction false} NothingWanted(idx: seq<Index>, leader: nat, x: nat)
    requires leader < |idx|
    ensures !Wanted(idx, leader, 0, 0, x)
  {
  }

  /** One member's index against the leader's. */
  method CompareOne(t: Tree, idx: seq<Index>, leader: nat, n: nat, updates0: map<nat, Entry>)
      returns (ok: bool, updates: map<nat, Entry>)
    requires leader < |idx| && n < |idx| && n != leader
    requires SortedMarks(idx[n].marks) && SortedMarks(idx[leader].marks)
    requires forall x :: x in updates0 <==> Wanted(idx, leader, n, 0, x)
    requires forall x :: x in updates0 ==> x in t.index && updates0[x] == t.index[x]
    ensures ok ==> forall x :: x in updates <==> Wanted(idx, leader, n, |idx[leader].marks|, x)
    ensures ok ==> forall x :: x in updates ==> x in t.index && updates[x] == t.index[x]
    ensures !ok ==> Updates(t, idx, leader).None?
  {
    hide Wanted, NeededInodes;
    var master, slave := idx[leader].marks, idx[n].marks;
    var i, j := 0, 0;
    updates := updates0;
    while i < |master|
      invariant 0 <= i <= |master| && 0 <= j <= |slave|
      invariant forall l :: 0 <= l < j && i < |master| ==> slave[l].inode < master[i].inode
      invariant forall x :: x in updates <==> Wanted(idx, leader, n, i, x)
      invariant forall x :: x in updates ==> x in t.index && updates[x] == t.index[x]
    {
      var m := master[i];
      while j < |slave| && slave[j].inode < m.inode
        invariant 0 <= j <= |slave|
        invariant forall l :: 0 <= l < j ==> slave[l].inode < m.inode
      {
        j := j + 1;
      }
      CursorDecides(slave, j, m);
      forall x
        ensures Wanted(idx, leader, n, i + 1, x) <==> x in updates || (m !in slave && m.inode == x)
      {
        WantedStep(idx, leader, n, i, x);
      }
      if !(j < |slave| && slave[j] == m) && m.inode !in updates {
        if m.inode !in t.index {
          NeededHere(idx, leader, n, i);
          return false, updates;
        }
        updates := updates[m.inode := t.index[m.inode]];
      }
      assert i + 1 < |master| ==> m.inode < master[i + 1].inode;
      i := i + 1;
    }
    ok := true;
  }

  lemma {:induction false} NeededHere(idx: seq<Index>, leader: nat, n: nat, i: nat)
    requires leader < |idx| && n < |idx| && n != leader && i < |idx[leader].marks| && idx[leader].marks[i] !in idx[n].marks
    ensures idx[leader].marks[i].inode in NeededInodes(idx, leader)
  {
    assert Needed(idx, leader, idx[leader].marks[i]);
  }

  // ---------------------------------------------------------------------------------------
  // The follower: delete, replace, reload, compare
  // ---------------------------------------------------------------------------------------

  function Inodes(marks: seq<Mark>): set<nat> {
    set m | m in marks :: m.inode
  }

  /** What the follower has and the leader has not. */
  function Absent(master: Index, slave: Index): set<nat> {
    Inodes(slave.marks) - Inodes(master.marks)
  }

  /** The row written for a received entry; the root is stored under the name of the version row. */
  function ReceivedRow(e: Entry): Row {
    if e.inode == 0 then RowOf(e).(name := VERSION_FILE) else RowOf(e)
  }

  function PutRows(table: map<nat, Row>, us: seq<Entry>): map<nat, Row> {
    if us == [] then table else
      var n := |us| - 1;
      PutRows(table, us[..n])[us[n].inode := ReceivedRow(us[n])]
  }

  function NewTable(table: map<nat, Row>, master: Index, slave: Index, us: seq<Entry>): map<nat, Row> {
    PutRows(table - Absent(master, slave), us)
  }

  /** Loading a table, the rows coming in some fixed order. */
  ghost function LoadTable(table: map<nat, Row>): Option<Tree> {
    TableLists(table);
    var rows :| Lists(table, rows);
    LoadTree(rows)
  }

  lemma {:induction false} TableLists(table: map<nat, Row>)
    ensures exists rows :: Lists(table, rows)
    decreases |table|
  {
    if table == map[] {
      assert Lists(table, []);
    } else {
      var i :| i in table;
      var rest := table - {i};
      TableLists(rest);
      var rows :| Lists(rest, rows);
      ListsGrow(table, i, rows);
    }
  }

  lemma {:induction false} ListsGrow(table: map<nat, Row>, i: nat, rows: seq<RawRow>)
    requires i in table && Lists(table - {i}, rows)
    ensures Lists(table, rows + [RawOf(i, table[i])])
  {
    hide RawOf;
    var all := rows + [RawOf(i, table[i])];
    assert RawOf(i, table[i]).inode == i by { RawInode(i, table[i]); }
    forall k | 0 <= k < |rows|
      ensures AtRow(table, rows[k]) && rows[k].inode != i
    {
      assert AtRow(table - {i}, rows[k]);
    }
    forall x | x in table
      ensures exists k :: 0 <= k < |all| && all[k].inode == x
    {
      if x == i {
        assert all[|rows|].inode == x;
      } else {
        assert x in table - {i};
        var k :| 0 <= k < |rows| && rows[k].inode == x;
        assert all[k].inode == x;
      }
    }
  }

  lemma {:induction false} RawInode(i: nat, r: Row)
    ensures RawOf(i, r).inode == i
  {
  }

  /** `memdb_recreate_vmlist` as a function: the list in use afterwards, and whether the scan
      reports success. */
  ghost function ScanVms(t: Tree, vms: map<int, VmInfo>): (map<int, VmInfo>, bool) {
    if !IsDirAt(t, [NODES]) then (vms, true)
    else if exists l :: VmInv(t, l) then
      var l :| VmInv(t, l);
      (l, !Misplaced(t))
    else (map[], false)
  }

  /** The checks on the reloaded tree; the version looked at is that of the old root. */
  predicate Accepted(db: Db, loaded: Option<Tree>, master: Index)
    requires 0 in db.tree.index
  {
    loaded.Some? && Version(db.tree) != 0 && 0 in loaded.value.index && Encode(loaded.value) == master
  }

  /** The end of `bdb_backend_commit_update`: roll back, or commit the new table and tree. */
  ghost function Finish(db: Db, table: map<nat, Row>, loaded: Option<Tree>, master: Index): (Db, bool)
    requires 0 in db.tree.index
  {
    if !Accepted(db, loaded, master) then (db.(errors := true), false)
    else
      var (vms, ok) := ScanVms(loaded.value, db.vmlist);
      (Db(loaded.value, table, vms, db.errors || !ok), ok)
  }

  /** `bdb_backend_commit_update`. */
  ghost function Commit(db: Db, master: Index, slave: Index, us: seq<Entry>): (Db, bool)
    requires 0 in db.tree.index
  {
    var table := NewTable(db.table, master, slave, us);
    Finish(db, table, LoadTable(table), master)
  }

  // ---------------------------------------------------------------------------------------
  // The transfer is exact
  // ---------------------------------------------------------------------------------------

  /** Whatever entries have arrived: a commit that succeeds ends with a tree that has the leader's
      index, and the error flag as it was; one that does not sets the flag. Tree, table and VM list
      are left as they were, or the tree has the leader's index and is what the table loads as. */
  lemma {:induction false} CommitSafe(db: Db, master: Index, slave: Index, us: seq<Entry>)
    requires 0 in db.tree.index
    ensures var (db', ok) := Commit(db, master, slave, us);
            var reached := 0 in db'.tree.index && Encode(db'.tree) == master;
            && (ok ==> reached && db'.errors == db.errors) && (!ok ==> db'.errors)
            && ((db'.tree, db'.table, db'.vmlist) == (db.tree, db.table, db.vmlist) || (reached && LoadTable(db'.table) == Some(db'.tree)))
            && (Version(db.tree) == 0 ==> db' == db.(errors := true))
  {
    hide LoadTable, Encode, ScanVms, NewTable;
  }

  /** The entries `us` are entries of the leader, and all that the follower lacks or has
      different are among them. */
  ghost predicate Transfers(leader: Tree, slave: Index, us: seq<Entry>) {
    && (forall k :: 0 <= k < |us| ==> us[k].inode in leader.index && us[k] == leader.index[us[k].inode])
    && (forall i :: i in leader.index && MarkOf(leader.index[i]) !in slave.marks ==> Sent(us, i))
  }

  predicate Sent(us: seq<Entry>, i: nat) {
    exists k :: 0 <= k < |us| && us[k].inode == i
  }

  lemma {:induction false} PutRowsAt(t: Tree, table: map<nat, Row>, us: seq<Entry>, i: nat)
    requires forall k :: 0 <= k < |us| ==> us[k].inode in t.index && us[k] == t.index[us[k].inode]
    ensures var r := PutRows(table, us);
            && (i in r <==> i in table || Sent(us, i))
            && (i in r && !Sent(us, i) ==> r[i] == table[i])
            && (Sent(us, i) ==> i in t.index && r[i] == ReceivedRow(t.index[i]))
  {
    hide ReceivedRow;
    if us != [] {
      var n := |us| - 1;
      PutRowsAt(t, table, us[..n], i);
      assert Sent(us, i) <==> Sent(us[..n], i) || us[n].inode == i by {
        if Sent(us[..n], i) {
          var k :| 0 <= k < |us[..n]| && us[..n][k].inode == i;
          assert us[k].inode == i;
        }
        if Sent(us, i) {
          var k :| 0 <= k < |us| && us[k].inode == i;
          assert k < n ==> us[..n][k].inode == i;
        }
      }
    }
  }

  /** What the follower keeps is the leader's already. */
  lemma {:induction false} KeptRow(leader: Tree, db: Db, i: nat)
    requires Exchangeable(leader) && Inv(db) && Exchangeable(db.tree) && i in leader.index && 0 in leader.index && 0 in db.tree.index
    requires MarkOf(leader.index[i]) in Encode(db.tree).marks
    ensures i in db.table && i in db.tree.index && db.tree.index[i] == leader.index[i]
    ensures if i == 0 then IsVersionRow(db.table[0], leader.index[0]) else db.table[i] == RowOf(leader.index[i])
  {
    hide TreeInv, ContentInv, Mirror, VmInv, Encode, MarkOf, Fits64, IsVersionRow;
    EncodeMarks(db.tree);
    EntryInode(leader, i);
    assert IsMark(db.tree, MarkOf(leader.index[i]));
    MarkDecides(leader, db.tree, i);
    StoredEntry(db.tree, db.table, i);
  }

  lemma {:induction false} NotAbsent(leader: Tree, slave: Index, i: nat)
    requires TreeInv(leader) && i in leader.index && 0 in leader.index
    ensures i !in Absent(Encode(leader), slave)
  {
    hide TreeInv, Encode, MarkOf;
    EncodeMarks(leader);
    EntryInode(leader, i);
    assert IsMark(leader, MarkOf(leader.index[i]));
  }

  /** One inode of the leader, after the follower's deletions and replacements. */
  lemma {:induction false} RowArrives(leader: Tree, db: Db, us: seq<Entry>, i: nat)
    requires Exchangeable(leader) && Inv(db) && Exchangeable(db.tree) && Transfers(leader, Encode(db.tree), us)
    requires i in leader.index && 0 in leader.index
    ensures var r := NewTable(db.table, Encode(leader), Encode(db.tree), us);
            i in r && (if i == 0 then IsVersionRow(r[0], leader.index[0]) else r[i] == RowOf(leader.index[i]))
  {
    hide Inv, Encode, MarkOf, PutRows, Exchangeable, Absent, IsVersionRow, TreeInv, ContentInv;
    RootEntry(leader);
    RootEntry(db.tree);
    PutRowsAt(leader, db.table - Absent(Encode(leader), Encode(db.tree)), us, i);
    EntryInode(leader, i);
    NotAbsent(leader, Encode(db.tree), i);
    if !Sent(us, i) {
      KeptRow(leader, db, i);
    }
  }

  lemma {:induction false} RootEntry(t: Tree)
    requires Exchangeable(t)
    ensures TreeInv(t) && ContentInv(t) && 0 in t.index && IsVersionRow(ReceivedRow(t.index[0]), t.index[0])
  {
    hide Reachable, Pow256;
    assert EntryOk(t, 0) && WellStored(t.index[0]);
  }

  /** Nothing else stays. */
  lemma {:induction false} NothingElse(leader: Tree, db: Db, us: seq<Entry>, i: nat)
    requires Exchangeable(leader) && Inv(db) && Exchangeable(db.tree) && Transfers(leader, Encode(db.tree), us)
    requires i in NewTable(db.table, Encode(leader), Encode(db.tree), us)
    ensures i in leader.index
  {
    hide VmInv, Encode, MarkOf, PutRows, Exchangeable;
    RootEntry(leader);
    RootEntry(db.tree);
    EncodeMarks(leader);
    EncodeMarks(db.tree);
    var kept := db.table - Absent(Encode(leader), Encode(db.tree));
    PutRowsAt(leader, kept, us, i);
    if !Sent(us, i) {
      assert i in db.tree.index;
      EntryInode(db.tree, i);
      var m := MarkOf(db.tree.index[i]);
      assert IsMark(db.tree, m);
      assert i in Inodes(Encode(db.tree).marks);
    }
  }

  lemma {:induction false} TableBecomesLeaders(leader: Tree, db: Db, us: seq<Entry>)
    requires Exchangeable(leader) && Inv(db) && Exchangeable(db.tree) && Transfers(leader, Encode(db.tree), us)
    ensures Stored(leader, NewTable(db.table, Encode(leader), Encode(db.tree), us))
  {
    hide Inv, Encode, NewTable, Exchangeable, Transfers, TreeInv, ContentInv;
    RootEntry(leader);
    RootEntry(db.tree);
    var r := NewTable(db.table, Encode(leader), Encode(db.tree), us);
    forall i
      ensures i in r <==> i in leader.index
      ensures i in leader.index ==> if i == 0 then IsVersionRow(r[0], leader.index[0]) else r[i] == RowOf(leader.index[i])
    {
      if i in leader.index {
        RowArrives(leader, db, us, i);
      }
      if i in r {
        NothingElse(leader, db, us, i);
      }
    }
    assert r.Keys == leader.index.Keys;
  }

  /** Whatever order the rows come in, the reload gives the leader's tree. */
  lemma {:induction false} ReloadIsLeaders(leader: Tree, db: Db, us: seq<Entry>, rows: seq<RawRow>)
    requires Exchangeable(leader) && Inv(db) && Exchangeable(db.tree) && Transfers(leader, Encode(db.tree), us)
    requires Lists(NewTable(db.table, Encode(leader), Encode(db.tree), us), rows)
    ensures LoadTree(rows) == Some(leader)
  {
    hide Inv, Encode, NewTable, Exchangeable, Transfers, Lists, Stored, LoadTree;
    RootOf64(leader);
    RootOf64(db.tree);
    TableBecomesLeaders(leader, db, us);
    StoredLoads(leader, NewTable(db.table, Encode(leader), Encode(db.tree), us), rows);
  }

  lemma {:induction false} RootOf64(t: Tree)
    requires Exchangeable(t)
    ensures 0 in t.index && Version(t) > 0
  {
  }

  lemma {:induction false} LoadTableIs(table: map<nat, Row>) returns (rows: seq<RawRow>)
    ensures Lists(table, rows) && LoadTable(table) == LoadTree(rows)
  {
    TableLists(table);
    rows :| Lists(table, rows) && LoadTable(table) == LoadTree(rows);
  }

  /** The scan does not report an error. */
  ghost predicate Scannable(t: Tree) {
    IsDirAt(t, [NODES]) ==> !Misplaced(t)
  }

  lemma {:induction false} VmFileBelowNodes(t: Tree, p: Path)
    requires TreeInv(t) && VmFile(t, p)
    ensures IsDirAt(t, [NODES])
  {
    hide TreeInv, Get, PathVm, ValidNodeName;
    VmFilePlace(t, p);
    ParentOfEntry(t, p);
    ParentOfEntry(t, Dirname(p));
    assert Dirname(Dirname(p)) == [NODES, p[1]];
    assert Dirname([NODES, p[1]]) == [NODES];
    ParentOfEntry(t, [NODES, p[1]]);
  }

  lemma {:induction false} NoNodesNoVms(t: Tree, vms: map<int, VmInfo>)
    requires TreeInv(t) && !IsDirAt(t, [NODES])
    ensures VmInv(t, vms) <==> vms == map[]
  {
    hide TreeInv, VmFile, IsDirAt, PathVm;
    forall p
      ensures !VmFile(t, p)
    {
      if VmFile(t, p) {
        VmFileBelowNodes(t, p);
      }
    }
    if VmInv(t, vms) {
      assert forall v :: v in vms ==> Backed(t, v, vms[v]);
      assert vms.Keys == {};
    }
  }

  lemma {:induction false} ScanOfLeader(t: Tree, lvms: map<int, VmInfo>, vms: map<int, VmInfo>)
    requires TreeInv(t) && VmInv(t, lvms)
    ensures ScanVms(t, vms).1 <==> Scannable(t)
    ensures ScanVms(t, vms).0 == if IsDirAt(t, [NODES]) then lvms else vms
    ensures VmInv(t, ScanVms(t, vms).0) <==> IsDirAt(t, [NODES]) || vms == map[]
  {
    hide TreeInv, VmInv, IsDirAt, Misplaced;
    if IsDirAt(t, [NODES]) {
      VmListUnique(t, ScanVms(t, vms).0, lvms);
    } else {
      NoNodesNoVms(t, vms);
    }
  }

  /** Delta transfer is exact: the reload succeeds, the re-encoded index equals the leader's, the
      mismatch abort is not taken, and the follower has the leader's tree and a table that mirrors
      it. The whole database is the leader's exactly if the scan for VMs finds nothing misplaced
      and, where the leader has no directory `nodes`, the follower had no VMs listed. */
  lemma {:induction false} DeltaExact(leader: Db, db: Db, us: seq<Entry>)
    requires Inv(leader) && Inv(db) && Exchangeable(leader.tree) && Exchangeable(db.tree)
    requires Transfers(leader.tree, Encode(db.tree), us)
    ensures 0 in leader.tree.index && 0 in db.tree.index
    ensures var (db', ok) := Commit(db, Encode(leader.tree), Encode(db.tree), us);
            && db'.tree == leader.tree && Stored(leader.tree, db'.table)
            && (ok <==> Scannable(leader.tree)) && (db'.errors <==> !ok)
            && (Inv(db') && db'.vmlist == leader.vmlist <==>
                Scannable(leader.tree) && (IsDirAt(leader.tree, [NODES]) || db.vmlist == map[]))
  {
    hide TreeInv, ContentInv, Mirror, VmInv, Encode, NewTable, Exchangeable, Transfers, Lists, LoadTree, LoadTable, IsDirAt, Misplaced, ScanVms, Scannable;
    var t := leader.tree;
    RootOf64(t);
    RootOf64(db.tree);
    TableBecomesLeaders(t, db, us);
    var rows := LoadTableIs(NewTable(db.table, Encode(t), Encode(db.tree), us));
    ReloadIsLeaders(t, db, us, rows);
    ScanOfLeader(t, leader.vmlist, db.vmlist);
    if !IsDirAt(t, [NODES]) {
      NoNodesNoVms(t, leader.vmlist);
    }
  }

  // ---------------------------------------------------------------------------------------
  // From the leader's list to every follower
  // ---------------------------------------------------------------------------------------

  /** A sequence with every collected update once, in any order. */
  ghost predicate ListsUpdates(updates: map<nat, Entry>, us: seq<Entry>) {
    && (forall k :: 0 <= k < |us| ==> us[k].inode in updates && us[k] == updates[us[k].inode])
    && (forall i :: i in updates ==> Sent(us, i))
  }

  /** What the leader sends suffices for every member. */
  lemma {:induction false} UpdatesTransfer(t: Tree, idx: seq<Index>, leader: nat, us: seq<Entry>, n: nat)
    requires TreeInv(t) && leader < |idx| && idx[leader] == Encode(t)
    requires Updates(t, idx, leader).Some? ==> ListsUpdates(Updates(t, idx, leader).value, us)
    requires n < |idx| && n != leader
    ensures Updates(t, idx, leader).Some? && Transfers(t, idx[n], us)
  {
    hide TreeInv, Encode, MarkOf;
    EncodeMarks(t);
    forall i | i in NeededInodes(idx, leader)
      ensures i in t.index
    {
      var m :| m in idx[leader].marks && Needed(idx, leader, m) && m.inode == i;
      assert IsMark(t, m);
    }
    assert NeededInodes(idx, leader) <= t.index.Keys;
    forall i | i in t.index && MarkOf(t.index[i]) !in idx[n].marks
      ensures Sent(us, i)
    {
      EntryInode(t, i);
      assert IsMark(t, MarkOf(t.index[i]));
      assert Needed(idx, leader, MarkOf(t.index[i]));
      assert i in NeededInodes(idx, leader);
    }
    forall k | 0 <= k < |us|
      ensures us[k].inode in t.index && us[k] == t.index[us[k].inode]
    {
      assert us[k].inode in Updates(t, idx, leader).value;
    }
  }

  /** Entry `i` of the leader is missing in `u`, or different. */
  predicate Differs(t: Tree, u: Tree, i: nat)
    requires i in t.index
  {
    i !in u.index || u.index[i] != t.index[i]
  }

  /** What the leader sends is what some member needs, no more and no less: the entries that one of
      the others lacks or has different. */
  lemma {:induction false} UpdatesExact(trees: seq<Tree>, idx: seq<Index>, leader: nat, i: nat)
    requires |trees| == |idx| && leader < |idx| && forall n :: 0 <= n < |idx| ==> Exchangeable(trees[n]) && idx[n] == Encode(trees[n])
    ensures var t := trees[leader];
            && Updates(t, idx, leader).Some?
            && var sent := Updates(t, idx, leader).value;
            && (i in sent <==> i in t.index && exists n :: 0 <= n < |idx| && Differs(t, trees[n], i))
            && (i in sent ==> sent[i] == t.index[i])
  {
    hide TreeInv, ContentInv, Encode, MarkOf, Fits64;
    var t := trees[leader];
    EncodeMarks(t);
    forall x | x in NeededInodes(idx, leader)
      ensures x in t.index
    {
      var m :| m in idx[leader].marks && Needed(idx, leader, m) && m.inode == x;
      assert IsMark(t, m);
    }
    assert NeededInodes(idx, leader) <= t.index.Keys;
    if i in t.index {
      EntryInode(t, i);
      var m := MarkOf(t.index[i]);
      assert IsMark(t, m);
      forall n | 0 <= n < |idx|
        ensures m in idx[n].marks <==> !Differs(t, trees[n], i)
      {
        MarkThere(t, trees[n], i);
      }
      assert forall x :: x in idx[leader].marks && x.inode == i ==> x == m;
      assert Needed(idx, leader, m) <==> exists n :: 0 <= n < |idx| && Differs(t, trees[n], i);
    }
  }

  lemma {:induction false} MarkThere(t: Tree, u: Tree, i: nat)
    requires Exchangeable(t) && Exchangeable(u) && i in t.index
    ensures MarkOf(t.index[i]) in Encode(u).marks <==> !Differs(t, u, i)
  {
    hide TreeInv, ContentInv, Encode, MarkOf, Fits64;
    EncodeMarks(u);
    EntryInode(t, i);
    var m := MarkOf(t.index[i]);
    if IsMark(u, m) {
      MarkDecides(t, u, i);
    }
  }

  // ---------------------------------------------------------------------------------------
  // The deletion loops
  // ---------------------------------------------------------------------------------------

  /** The inodes among the first `j` of the follower that the leader does not have. */
  ghost function Dropped(master: Index, slave: Index, j: nat): set<nat>
    requires j <= |slave.marks|
  {
    set l | 0 <= l < j && slave.marks[l].inode !in Inodes(master.marks) :: slave.marks[l].inode
  }

  lemma {:induction false} DroppedStep(master: Index, slave: Index, j: nat)
    requires j < |slave.marks|
    ensures var x := slave.marks[j].inode;
            Dropped(master, slave, j + 1) == Dropped(master, slave, j) + if x in Inodes(master.marks) then {} else {x}
  {
    hide Inodes;
    var x := slave.marks[j].inode;
    forall y
      ensures y in Dropped(master, slave, j + 1) <==> y in Dropped(master, slave, j) || (x !in Inodes(master.marks) && y == x)
    {
      if y in Dropped(master, slave, j + 1) {
        var l :| 0 <= l < j + 1 && slave.marks[l].inode !in Inodes(master.marks) && slave.marks[l].inode == y;
      }
    }
  }

  lemma {:induction false} DroppedAll(master: Index, slave: Index)
    ensures Dropped(master, slave, |slave.marks|) == Absent(master, slave)
  {
    forall x
      ensures x in Dropped(master, slave, |slave.marks|) <==> x in Absent(master, slave)
    {
      if x in Absent(master, slave) {
        var m :| m in slave.marks && m.inode == x;
        var l :| 0 <= l < |slave.marks| && slave.marks[l] == m;
      }
    }
  }

  /** Between two neighbours of a sorted index there is nothing. */
  lemma {:induction false} NotBetween(marks: seq<Mark>, i: nat, x: nat)
    requires SortedMarks(marks) && i <= |marks|
    requires (i > 0 ==> marks[i - 1].inode < x) && (i < |marks| ==> x < marks[i].inode)
    ensures x !in Inodes(marks)
  {
    forall l | 0 <= l < |marks|
      ensures marks[l].inode != x
    {
      if l < i - 1 {
        assert marks[l].inode < marks[i - 1].inode;
      } else if l > i {
        assert marks[i].inode < marks[l].inode;
      }
    }
  }

  method DeleteAbsent(table0: map<nat, Row>, master: Index, slave: Index) returns (table: map<nat, Row>)
    requires SortedMarks(master.marks) && SortedMarks(slave.marks)
    ensures table == table0 - Absent(master, slave)
  {
    hide Inodes, Dropped, Absent;
    var ms, ss := master.marks, slave.marks;
    var i, j := 0, 0;
    table := table0;
    assert Dropped(master, slave, 0) == {} by { NothingDropped(master, slave); }
    while i < |ms|
      invariant 0 <= i <= |ms| && 0 <= j <= |ss|
      invariant i > 0 && j < |ss| ==> ms[i - 1].inode < ss[j].inode
      invariant table == table0 - Dropped(master, slave, j)
    {
      while j < |ss| && ss[j].inode <= ms[i].inode
        invariant 0 <= j <= |ss|
        invariant i > 0 && j < |ss| ==> ms[i - 1].inode < ss[j].inode
        invariant table == table0 - Dropped(master, slave, j)
      {
        DroppedStep(master, slave, j);
        if ss[j].inode < ms[i].inode {
          NotBetween(ms, i, ss[j].inode);
          table := table - {ss[j].inode};
        } else {
          MarkInode(ms, i);
        }
        assert j + 1 < |ss| ==> ss[j].inode < ss[j + 1].inode;
        j := j + 1;
      }
      i := i + 1;
      if j >= |ss| {
        break;
      }
    }
    while j < |ss|
      invariant 0 <= j <= |ss|
      invariant j < |ss| ==> i == |ms| && (i > 0 ==> ms[i - 1].inode < ss[j].inode)
      invariant table == table0 - Dropped(master, slave, j)
    {
      DroppedStep(master, slave, j);
      NotBetween(ms, |ms|, ss[j].inode);
      table := table - {ss[j].inode};
      assert j + 1 < |ss| ==> ss[j].inode < ss[j + 1].inode;
      j := j + 1;
    }
    DroppedAll(master, slave);
  }

  lemma {:induction false} NothingDropped(master: Index, slave: Index)
    ensures Dropped(master, slave, 0) == {}
  {
  }

  lemma {:induction false} MarkInode(marks: seq<Mark>, i: nat)
    requires i < |marks|
    ensures marks[i].inode in Inodes(marks)
  {
    assert marks[i] in marks;
  }

  method ReplaceRows(table0: map<nat, Row>, us: seq<Entry>) returns (table: map<nat, Row>)
    ensures table == PutRows(table0, us)
  {
    table := table0;
    var k := 0;
    while k < |us|
      invariant 0 <= k <= |us| && table == PutRows(table0, us[..k])
    {
      table := table[us[k].inode := ReceivedRow(us[k])];
      k := k + 1;
      assert us[..k][..k - 1] == us[..k - 1];
    }
    assert us[..k] == us;
  }

  /** The query `stmt_load_all`: the rows in some order. */
  method ListRows(table: map<nat, Row>) returns (rows: seq<RawRow>)
    ensures Lists(table, rows)
  {
    rows := [];
    var todo := table.Keys;
    while todo != {}
      invariant todo <= table.Keys && Lists(table - todo, rows)
      decreases todo
    {
      var i :| i in todo;
      var done := table - (todo - {i});
      assert done - {i} == table - todo;
      ListsGrow(done, i, rows);
      rows := rows + [RawOf(i, table[i])];
      todo := todo - {i};
    }
    assert table - {} == table;
  }
}
