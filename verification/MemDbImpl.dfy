/** `memdb_t` as an object: the operations of `memdb.c` in the order in which the source changes
    the root, the inode index, the directory tables, the SQL table and the VM list. Each method is
    proved to compute the function of the same name in module `MemDb`. */
module MemDbImpl {
  import opened Bytes
  import opened MemTree
  import opened VmConfig
  import M = MemDb
  import TreeIndex
  import Loader
  import Restart
  import VmScan
  import Delta

  class MemDb {
    var index: map<nat, Entry>
    var dirs: map<nat, map<Name, nat>>
    var table: map<nat, M.Row>
    var vmlist: map<int, VmInfo>
    var errors: bool

    ghost function State(): M.Db
      reads this
    {
      M.Db(Tree(index, dirs), table, vmlist, errors)
    }

    constructor (db: M.Db)
      ensures State() == db
    {
      index, dirs := db.tree.index, db.tree.dirs;
      table, vmlist, errors := db.table, db.vmlist, db.errors;
    }

    /** `memdb_lookup_path`: the loop over the components. */
    method LookupPath(p: Path) returns (r: Option<nat>)
      ensures r == Lookup(Tree(index, dirs), p)
    {
      var k := 0;
      r := Some(0);
      while k < |p|
        invariant 0 <= k <= |p|
        invariant r.None? ==> k == |p| && Lookup(Tree(index, dirs), p) == None
        invariant r.Some? ==> Lookup(Tree(index, dirs), p[..k]) == r
      {
        assert p[..k + 1][..k] == p[..k];
        if r.value in dirs && p[k] in dirs[r.value] {
          r := Some(dirs[r.value][p[k]]);
          k := k + 1;
        } else {
          LookupStops(Tree(index, dirs), p, k + 1);
          r, k := None, |p|;
        }
      }
      assert p[..|p|] == p;
    }

    /** `bdb_backend_write`, all of whose statements take effect together. */
    method BackendWrite(e: Option<Entry>, version: nat, writer: u32, mtime: u32, del: nat)
      modifies this`table
      ensures table == M.BackendWrite(old(table), e, version, writer, mtime, del)
    {
      if del != 0 {
        table := table - {del};
      }
      if e.Some? {
        table := table[e.value.inode := M.RowOf(e.value)];
      }
      table := table[0 := M.VersionRow(version, writer, mtime)];
    }

    method BumpRoot(writer: u32, mtime: u32)
      requires 0 in index
      modifies this`index
      ensures Tree(index, dirs) == Bump(old(Tree(index, dirs)), writer, mtime)
    {
      var root := index[0];
      index := index[0 := root.(version := root.version + 1, writer := writer, mtime := mtime)];
    }

    /** Enter a new entry into its directory and into the index. */
    method LinkEntry(e: Entry)
      requires e.parent in dirs
      modifies this`index, this`dirs
      ensures Tree(index, dirs) == AddLeaf(old(Tree(index, dirs)), e)
    {
      var names: map<Name, nat> := dirs[e.parent][e.name := e.inode];
      dirs := dirs[e.parent := names];
      if e.kind.Dir? {
        dirs := dirs[e.inode := map[]];
      }
      index := index[e.inode := e];
    }

    /** The two `g_hash_table_steal` calls of `unlink_tree_entry`. */
    method UnlinkEntry(i: nat)
      requires i in index && index[i].parent in dirs
      modifies this`index, this`dirs
      ensures Tree(index, dirs) == RemoveLeaf(old(Tree(index, dirs)), i)
    {
      var e := index[i];
      var names: map<Name, nat> := dirs[e.parent] - {e.name};
      dirs := dirs[e.parent := names] - {i};
      index := index - {i};
    }

    method Mkdir(path: Path, writer: u32, mtime: u32) returns (r: M.Outcome)
      requires TreeInv(Tree(index, dirs))
      modifies this
      ensures 0 in old(State()).tree.index
      ensures (State(), r) == M.Mkdir(old(State()), path, writer, mtime)
    {
      hide TreeInv, Lookup, Bump, AddLeaf, M.BackendWrite;
      M.FreshInode(Tree(index, dirs));
      if errors { return M.Err(M.EIO); }
      if path == [] { return M.Err(M.EACCES); }
      var base := path[|path| - 1];
      var parent := LookupPath(path[..|path| - 1]);
      if parent.None? { return M.Err(M.ENOENT); }
      if parent.value !in dirs { return M.Err(M.ENOTDIR); }
      if M.Reserved(base) { return M.Err(M.EACCES); }
      if base in dirs[parent.value] { return M.Err(M.EEXIST); }
      M.BumpShape(Tree(index, dirs), writer, mtime);
      BumpRoot(writer, mtime);
      var v := index[0].version;
      var e := Entry(v, parent.value, v, writer, mtime, Dir, 0, base, []);
      LinkEntry(e);
      BackendWrite(Some(e), v, writer, mtime, 0);
      r := M.Ok(0);
    }

    method Pwrite(path: Path, writer: u32, mtime: u32, data: seq<byte>, offset: nat, truncate: bool, create: bool) returns (r: M.Outcome)
      requires M.Sound(State())
      modifies this
      ensures (State(), r) == M.Pwrite(old(State()), path, writer, mtime, data, offset, truncate, create)
    {
      hide TreeInv, Lookup, Bump, AddLeaf, SetEntry, M.BackendWrite, PathVm, M.PwriteData;
      M.FreshInode(Tree(index, dirs));
      if errors { return M.Err(M.EIO); }
      if offset + |data| > MAX_FILE_SIZE { return M.Err(M.EFBIG); }
      if path == [] { return M.Err(M.EACCES); }
      var base := path[|path| - 1];
      var parent := LookupPath(path[..|path| - 1]);
      if parent.None? { return M.Err(M.ENOENT); }
      if parent.value !in dirs { return M.Err(M.ENOTDIR); }
      if M.Reserved(base) { return M.Err(M.EACCES); }
      var vm := PathVm(path);
      if vm.Some? && M.DifferentVm(vmlist, vm.value) { return M.Err(M.EEXIST); }
      var e: Entry;
      M.BumpShape(Tree(index, dirs), writer, mtime);
      if base in dirs[parent.value] {
        ChildEntry(Tree(index, dirs), parent.value, base);
        var te := index[dirs[parent.value][base]];
        if !te.kind.Reg? { return M.Err(M.ENOTDIR); }
        if create { return M.Err(M.EEXIST); }
        assert M.DataOk(te);
        BumpRoot(writer, mtime);
        var w := M.PwriteData(te.data, te.size, data, offset, truncate);
        e := te.(version := index[0].version, writer := writer, mtime := mtime, size := w.0, data := w.1);
        SetEntryIs(Tree(index, dirs), e);
        index := index[e.inode := e];
      } else {
        if !create { return M.Err(M.ENOENT); }
        BumpRoot(writer, mtime);
        var w := M.PwriteData([], 0, data, offset, truncate);
        e := Entry(index[0].version, parent.value, index[0].version, writer, mtime, Reg, w.0, base, w.1);
        LinkEntry(e);
      }
      BackendWrite(Some(e), e.version, writer, mtime, 0);
      if vm.Some? {
        vmlist := vmlist[vm.value.0 := vm.value.1];
      }
      r := M.Ok(|data|);
    }

    method Mtime(path: Path, writer: u32, mtime: u32) returns (r: M.Outcome)
      requires M.Sound(State())
      modifies this
      ensures (State(), r) == M.Mtime(old(State()), path, writer, mtime)
    {
      hide TreeInv, Lookup, Bump, SetEntry, M.BackendWrite;
      M.FreshInode(Tree(index, dirs));
      if errors { return M.Err(M.EIO); }
      if path == [] { return M.Err(M.EACCES); }
      var base := path[|path| - 1];
      var parent := LookupPath(path[..|path| - 1]);
      if parent.None? { return M.Err(M.ENOENT); }
      if parent.value !in dirs { return M.Err(M.ENOTDIR); }
      if M.Reserved(base) { return M.Err(M.EACCES); }
      if base !in dirs[parent.value] { return M.Err(M.ENOENT); }
      ChildEntry(Tree(index, dirs), parent.value, base);
      var te := index[dirs[parent.value][base]];
      if path[..|path| - 1] == [M.PRIV, M.LOCK] && te.kind.Dir? {
        if mtime < te.mtime || te.writer != writer { return M.Err(M.EACCES); }
      }
      M.BumpShape(Tree(index, dirs), writer, mtime);
      BumpRoot(writer, mtime);
      var e := te.(version := index[0].version, writer := writer, mtime := mtime);
      SetEntryIs(Tree(index, dirs), e);
      index := index[e.inode := e];
      BackendWrite(Some(e), e.version, writer, mtime, 0);
      r := M.Ok(0);
    }

    method Delete(path: Path, writer: u32, mtime: u32) returns (r: M.Outcome)
      requires M.Sound(State())
      modifies this
      ensures (State(), r) == M.Delete(old(State()), path, writer, mtime)
    {
      hide TreeInv, Lookup, Bump, RemoveLeaf, M.BackendWrite, PathVm;
      M.FreshInode(Tree(index, dirs));
      if errors { return M.Err(M.EIO); }
      var te := LookupPath(path);
      if te.None? { return M.Err(M.ENOENT); }
      if path == [] { return M.Err(M.EACCES); }
      if te.value in dirs && dirs[te.value] != map[] { return M.Err(M.ENOTEMPTY); }
      M.LookupLinked(Tree(index, dirs), path, te.value);
      M.RemoveLeafShape(Tree(index, dirs), te.value);
      var v := index[0].version + 1;
      UnlinkEntry(te.value);
      BumpRoot(writer, mtime);
      BackendWrite(None, v, writer, mtime, te.value);
      var vm := PathVm(path);
      if vm.Some? {
        vmlist := vmlist - {vm.value.0};
      }
      r := M.Ok(0);
    }

    /** The second half of `memdb_rename`, from the unlinking of the source on. */
    method Move(i: nat, d: nat, from: Path, to: Path, writer: u32, mtime: u32, del: nat) returns (r: M.Outcome)
      requires 0 in index && to != [] && i != 0 && d in dirs
      modifies this
      ensures (State(), r) == M.Move(old(State()), old(Tree(index, dirs)), i, d, from, to, writer, mtime, del)
    {
      hide Bump, RemoveLeaf, AddLeaf, M.BackendWrite, PathVm;
      if !(i in index && index[i].parent in dirs && index[i].name in dirs[index[i].parent]) {
        errors := true;
        return M.Err(M.EIO);
      }
      if i in dirs && dirs[i] != map[] { return M.Err(M.ENOTEMPTY); }
      var te := index[i];
      M.RemoveLeafShape(Tree(index, dirs), i);
      var v := index[0].version + 1;
      UnlinkEntry(i);
      BumpRoot(writer, mtime);
      var e := Entry(i, d, v, writer, mtime, te.kind, te.size, to[|to| - 1], te.data);
      if d in dirs {
        LinkEntry(e);
      } else {
        dirs := dirs[i := map[e.name := i]];
        index := index[i := e];
      }
      BackendWrite(Some(e), v, writer, mtime, del);
      if te.kind.Reg? {
        var fromVm, toVm := PathVm(from), PathVm(to);
        if fromVm.Some? {
          vmlist := vmlist - {fromVm.value.0};
        }
        if toVm.Some? {
          vmlist := vmlist[toVm.value.0 := toVm.value.1];
        }
      }
      r := M.Ok(0);
    }

    method Rename(from: Path, to: Path, writer: u32, mtime: u32) returns (r: M.Outcome)
      requires M.Sound(State())
      modifies this
      ensures (State(), r) == M.Rename(old(State()), from, to, writer, mtime)
    {
      hide TreeInv, Lookup, RemoveLeaf, M.Move, PathVm, M.IsLockDir, M.DifferentVm;
      M.FreshInode(Tree(index, dirs));
      M.RootLookup(Tree(index, dirs));
      if errors { return M.Err(M.EIO); }
      var fromTe := LookupPath(from);
      if fromTe.None? { return M.Err(M.ENOENT); }
      if from == [] { return M.Err(M.EACCES); }
      M.LookupLinked(Tree(index, dirs), from, fromTe.value);
      var kind := index[fromTe.value].kind;
      var fromVm, vm := PathVm(from), PathVm(to);
      if kind.Reg? && vm.Some? && M.DifferentVm(vmlist, vm.value) {
        if !(fromVm.Some? && vm.value.0 == fromVm.value.0) { return M.Err(M.EEXIST); }
      }
      if kind.Dir? && M.IsLockDir(from) { return M.Err(M.EACCES); }
      var toTe := LookupPath(to);
      if toTe.Some? {
        if to == [] { return M.Err(M.EACCES); }
        var j := toTe.value;
        if j in dirs && dirs[j] != map[] { return M.Err(M.ENOTEMPTY); }
        M.LookupLinked(Tree(index, dirs), to, j);
        M.UnlinkPath(Tree(index, dirs), to, j);
        var d := index[j].parent;
        assert d in RemoveLeaf(Tree(index, dirs), j).dirs by { TargetDirStays(Tree(index, dirs), to, j); }
        M.MoveTreeArgument(State(), RemoveLeaf(Tree(index, dirs), j), fromTe.value, d, from, to, writer, mtime, j);
        UnlinkEntry(j);
        r := Move(fromTe.value, d, from, to, writer, mtime, j);
      } else {
        var target := LookupPath(to[..|to| - 1]);
        if target.None? { return M.Err(M.ENOENT); }
        if target.value !in dirs { return M.Err(M.ENOTDIR); }
        r := Move(fromTe.value, target.value, from, to, writer, mtime, 0);
      }
    }

    /** `bdb_backend_commit_update`: delete and replace rows, reload, compare, and either roll
        back or switch to the reloaded tree and scan it for VMs. */
    method CommitUpdate(master: TreeIndex.Index, slave: TreeIndex.Index, us: seq<Entry>) returns (ok: bool)
      requires 0 in index && TreeIndex.SortedMarks(master.marks) && TreeIndex.SortedMarks(slave.marks)
      requires OnlyTrees(State(), master, slave, us)
      modifies this
      ensures exists rows :: Committed(old(State()), master, slave, us, rows, State(), ok)
    {
      hide Restart.Lists, Delta.PutRows, Loader.LoadTree, Delta.Absent, TreeIndex.Encode, TreeInv, VmScan.Misplaced, M.IsDirAt, M.VmInv, VmScan.NoDuplicates, Delta.ScanVms;
      ghost var db := State();
      var before := table;
      table := Delta.DeleteAbsent(table, master, slave);
      table := Delta.ReplaceRows(table, us);
      assert table == Delta.NewTable(before, master, slave, us);
      var rows := Delta.ListRows(table);
      assert AcceptsTree(db, rows, master);
      var loaded := Loader.LoadIndex(rows);
      var same := SameIndex(index[0].version, loaded, master);
      if !same {
        errors := true;
        table := before;
        ok := false;
        assert State() == Delta.Finish(db, Delta.NewTable(before, master, slave, us), loaded, master).0;
      } else {
        index, dirs := loaded.value.index, loaded.value.dirs;
        vmlist, ok := VmScan.Recreate(loaded.value, vmlist);
        if !ok {
          errors := true;
        }
        ScanIs(loaded.value, db.vmlist, vmlist, ok);
      }
      assert Committed(db, master, slave, us, rows, State(), ok);
    }
  }

  /** The index of the reloaded tree against the leader's. */
  method SameIndex(version: nat, loaded: Option<Tree>, master: TreeIndex.Index) returns (same: bool)
    ensures same <==> loaded.Some? && version != 0 && 0 in loaded.value.index && TreeIndex.Encode(loaded.value) == master
  {
    hide TreeIndex.Encode;
    same := false;
    if loaded.Some? && version != 0 && 0 in loaded.value.index {
      TreeIndex.SortedIs(loaded.value.index.Keys);
      var idx := TreeIndex.EncodeIndex(loaded.value, TreeIndex.Sorted(loaded.value.index.Keys));
      same := idx == master;
    }
  }

  /** Whatever passes the comparison is a tree, as it is for every index a member has sent. */
  ghost predicate OnlyTrees(db: M.Db, master: TreeIndex.Index, slave: TreeIndex.Index, us: seq<Entry>)
    requires 0 in db.tree.index
  {
    forall rows :: Restart.Lists(Delta.NewTable(db.table, master, slave, us), rows) ==> AcceptsTree(db, rows, master)
  }

  ghost predicate AcceptsTree(db: M.Db, rows: seq<Loader.RawRow>, master: TreeIndex.Index)
    requires 0 in db.tree.index
  {
    Delta.Accepted(db, Loader.LoadTree(rows), master) ==> TreeInv(Loader.LoadTree(rows).value)
  }

  /** `db'` is what committing leaves when the rows are read in the order `rows`; with two files of
      one VMID, which of them is listed is left open. */
  ghost predicate Committed(db: M.Db, master: TreeIndex.Index, slave: TreeIndex.Index, us: seq<Entry>, rows: seq<Loader.RawRow>, db': M.Db, ok: bool)
    requires 0 in db.tree.index
  {
    var table := Delta.NewTable(db.table, master, slave, us);
    && Restart.Lists(table, rows)
    && (var (d, o) := Delta.Finish(db, table, Loader.LoadTree(rows), master);
        ok == o && db' == d.(vmlist := if VmScan.NoDuplicates(db'.tree) || !M.IsDirAt(db'.tree, [NODES]) then d.vmlist else db'.vmlist))
  }

  /** The scan computes the function. */
  lemma {:induction false} ScanIs(t: Tree, vms: map<int, VmInfo>, vmlist: map<int, VmInfo>, ok: bool)
    requires !M.IsDirAt(t, [NODES]) ==> vmlist == vms && ok
    requires M.IsDirAt(t, [NODES]) && VmScan.NoDuplicates(t) ==> M.VmInv(t, vmlist)
    requires M.IsDirAt(t, [NODES]) ==> (ok <==> VmScan.NoDuplicates(t) && !VmScan.Misplaced(t))
    ensures ok == Delta.ScanVms(t, vms).1
    ensures VmScan.NoDuplicates(t) || !M.IsDirAt(t, [NODES]) ==> vmlist == Delta.ScanVms(t, vms).0
  {
    hide M.IsDirAt, VmScan.NoDuplicates, VmScan.Misplaced, M.VmInv;
    if M.IsDirAt(t, [NODES]) {
      if l :| M.VmInv(t, l) {
        VmScan.VmInvNoDuplicates(t, l);
      }
    }
  }

  /** What the leader's updates lead to is a tree: the leader's. */
  lemma {:induction false} TransfersOnlyTrees(leader: Tree, db: M.Db, us: seq<Entry>)
    requires TreeIndex.Exchangeable(leader) && M.Inv(db) && TreeIndex.Exchangeable(db.tree)
    requires Delta.Transfers(leader, TreeIndex.Encode(db.tree), us)
    ensures 0 in db.tree.index && OnlyTrees(db, TreeIndex.Encode(leader), TreeIndex.Encode(db.tree), us)
  {
    hide M.Inv, TreeIndex.Encode, Delta.NewTable, Delta.Transfers, Restart.Lists, Loader.LoadTree, TreeInv, M.ContentInv;
    Delta.RootOf64(leader);
    Delta.RootOf64(db.tree);
    forall rows | Restart.Lists(Delta.NewTable(db.table, TreeIndex.Encode(leader), TreeIndex.Encode(db.tree), us), rows)
      ensures AcceptsTree(db, rows, TreeIndex.Encode(leader))
    {
      Delta.ReloadIsLeaders(leader, db, us, rows);
    }
  }

  lemma {:induction false} ChildEntry(t: Tree, d: nat, n: Name)
    requires TreeInv(t) && d in t.dirs && n in t.dirs[d]
    ensures t.dirs[d][n] in t.index && t.dirs[d][n] != 0 && t.index[t.dirs[d][n]].parent == d
  {
    assert ChildOk(t, d, n);
  }

  lemma {:induction false} SetEntryIs(t: Tree, e: Entry)
    ensures SetEntry(t, e) == Tree(t.index[e.inode := e], t.dirs)
  {
  }

  lemma {:induction false} TargetDirStays(t: Tree, to: Path, j: nat)
    requires TreeInv(t) && to != [] && Lookup(t, to) == Some(j) && j in t.index && t.index[j].parent in t.dirs
    ensures t.index[j].parent in RemoveLeaf(t, j).dirs
  {
    hide TreeInv, Lookup;
    M.LookupLinked(t, to, j);
    if t.index[j].parent == j {
      M.NoSelfParent(t, j);
    }
  }

  lemma {:induction false} LookupStops(t: Tree, p: Path, k: nat)
    requires k <= |p| && Lookup(t, p[..k]) == None
    ensures Lookup(t, p) == None
    decreases |p| - k
  {
    if k < |p| {
      assert p[..k + 1][..k] == p[..k];
      LookupStops(t, p, k + 1);
    } else {
      assert p[..k] == p;
    }
  }
}
