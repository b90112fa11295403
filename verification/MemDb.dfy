/** The database of a node: the tree with its SQL mirror, the VM list and the operations of
    `memdb.c`. Every operation is a function from a database to a database and an outcome. */
module MemDb {
  import opened Bytes
  import opened MemTree
  import opened VmConfig

  const VERSION_FILE: Name := [95, 95, 118, 101, 114, 115, 105, 111, 110, 95, 95]
  const PRIV: Name := [112, 114, 105, 118]
  const LOCK: Name := [108, 111, 99, 107]

  datatype Errno = EACCES | ENOENT | ENOTDIR | EEXIST | ENOTEMPTY | EFBIG | EIO
  datatype Outcome = Ok(count: nat) | Err(errno: Errno)

  datatype Row = Row(parent: nat, version: nat, writer: u32, mtime: u32, kind: Kind, name: Name, data: seq<byte>)

  datatype Db = Db(tree: Tree, table: map<nat, Row>, vmlist: map<int, VmInfo>, errors: bool)

  function RowOf(e: Entry): Row {
    Row(e.parent, e.version, e.writer, e.mtime, e.kind, e.name, e.data)
  }

  function VersionRow(version: nat, writer: u32, mtime: u32): Row {
    Row(0, version, writer, mtime, Reg, VERSION_FILE, [])
  }

  /** `bdb_backend_write`: one transaction deletes a row, replaces a row and always the version
      row; inode 0 stands for "none" in both places. */
  function BackendWrite(table: map<nat, Row>, e: Option<Entry>, version: nat, writer: u32, mtime: u32, del: nat): map<nat, Row> {
    var t1: map<nat, Row> := if del != 0 then table - {del} else table;
    var t2: map<nat, Row> := if e.Some? then t1[e.value.inode := RowOf(e.value)] else t1;
    t2[0 := VersionRow(version, writer, mtime)]
  }

  predicate Reserved(name: Name) {
    name == [] || name == [46] || name == [46, 46]
  }

  predicate IsLockDir(p: Path) {
    |p| >= 3 && p[0] == PRIV && p[1] == LOCK
  }

  function Dirname(p: Path): Path
    requires p != []
  {
    p[..|p| - 1]
  }

  function Basename(p: Path): Name
    requires p != []
  {
    p[|p| - 1]
  }

  /** `vmlist_different_vm_exists` */
  predicate DifferentVm(vmlist: map<int, VmInfo>, vm: (int, VmInfo)) {
    vm.0 in vmlist && vmlist[vm.0] != vm.1
  }

  // ---------------------------------------------------------------------------------------
  // Operations
  // ---------------------------------------------------------------------------------------

  function Mkdir(db: Db, path: Path, writer: u32, mtime: u32): (Db, Outcome)
    requires 0 in db.tree.index
  {
    if db.errors then (db, Err(EIO))
    else if path == [] then (db, Err(EACCES))
    else
      match Lookup(db.tree, Dirname(path))
      case None => (db, Err(ENOENT))
      case Some(d) =>
        if d !in db.tree.dirs then (db, Err(ENOTDIR))
        else if Reserved(Basename(path)) then (db, Err(EACCES))
        else if Basename(path) in db.tree.dirs[d] then (db, Err(EEXIST))
        else
          var v := Version(db.tree) + 1;
          var e := Entry(v, d, v, writer, mtime, Dir, 0, Basename(path), []);
          (db.(tree := AddLeaf(Bump(db.tree, writer, mtime), e),
               table := BackendWrite(db.table, Some(e), v, writer, mtime, 0)), Ok(0))
  }

  function Zeros(n: nat): (z: seq<byte>)
    ensures |z| == n && forall i :: 0 <= i < n ==> z[i] == 0
  {
    seq(n, i => 0)
  }

  /** `data` copied over `buf` from `offset` on. */
  function Overlay(buf: seq<byte>, offset: nat, data: seq<byte>): (r: seq<byte>)
    requires offset + |data| <= |buf|
    ensures |r| == |buf|
  {
    buf[..offset] + data + buf[offset + |data|..]
  }

  /** A data pointer that is not null points to `size` bytes. */
  predicate DataOk(e: Entry) {
    e.data != [] ==> |e.data| == e.size
  }

  ghost predicate Sound(db: Db) {
    TreeInv(db.tree) && forall i :: i in db.tree.index ==> DataOk(db.tree.index[i])
  }

  /** The new size and data pointer of a file with contents `was`, as `memdb_pwrite` computes
      them; a null data pointer is the empty sequence. */
  function PwriteData(was: seq<byte>, size: nat, data: seq<byte>, offset: nat, truncate: bool): (r: (nat, seq<byte>))
    requires was != [] ==> size == |was|
    ensures r.1 != [] ==> |r.1| == r.0
  {
    var newsize := offset + |data|;
    if was != [] then
      var n := if newsize > size || truncate then newsize else size;
      var buf := if newsize > size then was + Zeros(newsize - size) else was[..n];
      (n, if data != [] then Overlay(buf, offset, data) else buf)
    else
      (newsize, if data != [] then Overlay(Zeros(newsize), offset, data) else [])
  }

  /** Store the written file in the tree and in the table, and register it if it is a VM. */
  function PutFile(db: Db, e: Entry, path: Path, isNew: bool): Db
    requires 0 in db.tree.index && e.parent in db.tree.dirs
  {
    var t := Bump(db.tree, e.writer, e.mtime);
    db.(tree := if isNew then AddLeaf(t, e) else SetEntry(t, e),
        table := BackendWrite(db.table, Some(e), e.version, e.writer, e.mtime, 0),
        vmlist := if PathVm(path).Some? then db.vmlist[PathVm(path).value.0 := PathVm(path).value.1] else db.vmlist)
  }

  /** `memdb_pwrite`; `memdb_create` is a call with `create` and no data. */
  function Pwrite(db: Db, path: Path, writer: u32, mtime: u32, data: seq<byte>, offset: nat, truncate: bool, create: bool): (Db, Outcome)
    requires Sound(db)
  {
    if db.errors then (db, Err(EIO))
    else if offset + |data| > MAX_FILE_SIZE then (db, Err(EFBIG))
    else if path == [] then (db, Err(EACCES))
    else
      var name, v := Basename(path), Version(db.tree) + 1;
      match Lookup(db.tree, Dirname(path))
      case None => (db, Err(ENOENT))
      case Some(d) =>
        if d !in db.tree.dirs then (db, Err(ENOTDIR))
        else if Reserved(name) then (db, Err(EACCES))
        else if PathVm(path).Some? && DifferentVm(db.vmlist, PathVm(path).value) then (db, Err(EEXIST))
        else if name in db.tree.dirs[d] then
          assert ChildOk(db.tree, d, name);
          var o := db.tree.index[db.tree.dirs[d][name]];
          if !o.kind.Reg? then (db, Err(ENOTDIR))
          else if create then (db, Err(EEXIST))
          else
            assert DataOk(o);
            var r := PwriteData(o.data, o.size, data, offset, truncate);
            var e := o.(version := v, writer := writer, mtime := mtime, size := r.0, data := r.1);
            (PutFile(db, e, path, false), Ok(|data|))
        else if !create then (db, Err(ENOENT))
        else
          var r := PwriteData([], 0, data, offset, truncate);
          (PutFile(db, Entry(v, d, v, writer, mtime, Reg, r.0, name, r.1), path, true), Ok(|data|))
  }

  /** `memdb_mtime`: a lock directory keeps its time unless the same writer moves it forward. */
  function Mtime(db: Db, path: Path, writer: u32, mtime: u32): (Db, Outcome)
    requires Sound(db)
  {
    if db.errors then (db, Err(EIO))
    else if path == [] then (db, Err(EACCES))
    else
      var name, v := Basename(path), Version(db.tree) + 1;
      match Lookup(db.tree, Dirname(path))
      case None => (db, Err(ENOENT))
      case Some(d) =>
        if d !in db.tree.dirs then (db, Err(ENOTDIR))
        else if Reserved(name) then (db, Err(EACCES))
        else if name !in db.tree.dirs[d] then (db, Err(ENOENT))
        else
          assert ChildOk(db.tree, d, name);
          var o := db.tree.index[db.tree.dirs[d][name]];
          if Dirname(path) == [PRIV, LOCK] && o.kind.Dir? && (mtime < o.mtime || o.writer != writer) then
            (db, Err(EACCES))
          else
            var e := o.(version := v, writer := writer, mtime := mtime);
            (db.(tree := SetEntry(Bump(db.tree, writer, mtime), e),
                 table := BackendWrite(db.table, Some(e), v, writer, mtime, 0)), Ok(0))
  }

  predicate NonEmptyDir(t: Tree, i: nat) {
    i in t.dirs && t.dirs[i] != map[]
  }

  function Delete(db: Db, path: Path, writer: u32, mtime: u32): (Db, Outcome)
    requires Sound(db)
  {
    if db.errors then (db, Err(EIO))
    else
      match Lookup(db.tree, path)
      case None => (db, Err(ENOENT))
      case Some(i) =>
        if path == [] then (db, Err(EACCES))
        else if NonEmptyDir(db.tree, i) then (db, Err(ENOTEMPTY))
        else
          LookupInIndex(db.tree, path, i);
          var v := Version(db.tree) + 1;
          (db.(tree := Bump(RemoveLeaf(db.tree, i), writer, mtime),
               table := BackendWrite(db.table, None, v, writer, mtime, i),
               vmlist := if PathVm(path).Some? then db.vmlist - {PathVm(path).value.0} else db.vmlist), Ok(0))
  }

  /** The part of `memdb_rename` after the target directory `d` is known and an existing target
      has been unlinked from tree `t`; `del` is the inode of that target or 0. */
  function Move(db: Db, t: Tree, i: nat, d: nat, from: Path, to: Path, writer: u32, mtime: u32, del: nat): (Db, Outcome)
    requires 0 in t.index && to != [] && i != 0 && d in t.dirs
  {
    if !(i in t.index && t.index[i].parent in t.dirs && t.index[i].name in t.dirs[t.index[i].parent]) then
      // The source is no longer linked: it was the target itself.
      (db.(tree := t, errors := true), Err(EIO))
    else if NonEmptyDir(t, i) then
      (db.(tree := t), Err(ENOTEMPTY))
    else
      var o := t.index[i];
      var u := Bump(RemoveLeaf(t, i), writer, mtime);
      var e := Entry(i, d, Version(t) + 1, writer, mtime, o.kind, o.size, Basename(to), o.data);
      // Moving a directory into itself links it to the table it brings along.
      var u' := if d in u.dirs then AddLeaf(u, e) else Tree(u.index[i := e], u.dirs[i := map[e.name := i]]);
      var vms := if o.kind.Reg? && PathVm(from).Some? then db.vmlist - {PathVm(from).value.0} else db.vmlist;
      (db.(tree := u',
           table := BackendWrite(db.table, Some(e), e.version, writer, mtime, del),
           vmlist := if o.kind.Reg? && PathVm(to).Some? then vms[PathVm(to).value.0 := PathVm(to).value.1] else vms), Ok(0))
  }

  function Rename(db: Db, from: Path, to: Path, writer: u32, mtime: u32): (Db, Outcome)
    requires Sound(db)
  {
    if db.errors then (db, Err(EIO))
    else
      match Lookup(db.tree, from)
      case None => (db, Err(ENOENT))
      case Some(i) =>
        LookupInIndex(db.tree, from, i);
        var vm := PathVm(to);
        if from == [] then (db, Err(EACCES))
        else if db.tree.index[i].kind.Reg? && vm.Some? && DifferentVm(db.vmlist, vm.value)
                && !(PathVm(from).Some? && PathVm(from).value.0 == vm.value.0) then (db, Err(EEXIST))
        else if db.tree.index[i].kind.Dir? && IsLockDir(from) then (db, Err(EACCES))
        else
          match Lookup(db.tree, to)
          case Some(j) =>
            if to == [] then (db, Err(EACCES))
            else if NonEmptyDir(db.tree, j) then (db, Err(ENOTEMPTY))
            else
              LookupInIndex(db.tree, to, j);
              Move(db, RemoveLeaf(db.tree, j), i, db.tree.index[j].parent, from, to, writer, mtime, j)
          case None =>
            match Lookup(db.tree, Dirname(to))
            case None => (db, Err(ENOENT))
            case Some(d) =>
              if d !in db.tree.dirs then (db, Err(ENOTDIR))
              else Move(db, db.tree, i, d, from, to, writer, mtime, 0)
  }

  // ---------------------------------------------------------------------------------------
  // The invariant
  // ---------------------------------------------------------------------------------------

  predicate WellStored(e: Entry) {
    e.size == |e.data| <= MAX_FILE_SIZE && (e.kind.Dir? ==> e.data == []) && (e.inode != 0 ==> e.name != [])
  }

  /** Paths without empty components. */
  predicate Canonical(p: Path) {
    forall k :: 0 <= k < |p| ==> p[k] != []
  }

  ghost predicate ContentInv(t: Tree) {
    forall i :: i in t.index ==> WellStored(t.index[i])
  }

  /** The kind of the version row is not looked at by anyone. */
  predicate IsVersionRow(r: Row, root: Entry) {
    r == VersionRow(root.version, root.writer, root.mtime).(kind := r.kind)
  }

  /** The table holds the entries and the version row, and nothing else. */
  ghost predicate Mirror(t: Tree, table: map<nat, Row>) {
    && 0 in t.index && table.Keys == t.index.Keys
    && IsVersionRow(table[0], t.index[0])
    && forall i :: i in t.index && i != 0 ==> table[i] == RowOf(t.index[i])
  }

  /** The file system by paths: what the entry at a path is. */
  function Get(t: Tree, p: Path): Option<Entry> {
    match Lookup(t, p)
    case None => None
    case Some(i) => if i in t.index then Some(t.index[i]) else None
  }

  /** A VM configuration file. */
  predicate VmFile(t: Tree, p: Path) {
    PathVm(p).Some? && Get(t, p).Some? && Get(t, p).value.kind.Reg?
  }

  predicate Listed(vmlist: map<int, VmInfo>, vm: (int, VmInfo)) {
    vm.0 in vmlist && vmlist[vm.0] == vm.1
  }

  ghost predicate Backed(t: Tree, v: int, info: VmInfo) {
    exists p :: VmFile(t, p) && PathVm(p) == Some((v, info))
  }

  /** The VM list names every VM file of the tree and nothing else. */
  ghost predicate VmInv(t: Tree, vmlist: map<int, VmInfo>) {
    && (forall p :: VmFile(t, p) ==> Listed(vmlist, PathVm(p).value))
    && (forall v :: v in vmlist ==> Backed(t, v, vmlist[v]))
  }

  ghost predicate Inv(db: Db) {
    && TreeInv(db.tree) && ContentInv(db.tree) && !db.errors
    && Mirror(db.tree, db.table) && VmInv(db.tree, db.vmlist)
  }

  lemma {:induction false} InvSound(db: Db)
    requires Inv(db)
    ensures Sound(db)
  {
    hide TreeInv, VmInv, Mirror;
    forall i | i in db.tree.index
      ensures DataOk(db.tree.index[i])
    {
      assert WellStored(db.tree.index[i]);
    }
  }

  /** No VMID occurs in two places. */
  lemma {:induction false} VmidsUnique(t: Tree, vmlist: map<int, VmInfo>, p: Path, q: Path)
    requires VmInv(t, vmlist) && VmFile(t, p) && VmFile(t, q)
    requires PathVm(p).value.0 == PathVm(q).value.0
    ensures p == q
  {
    hide PathVm, Get;
    PathVmInjective(p, q);
  }

  /** There is only one list that fits a tree. */
  lemma {:induction false} VmListUnique(t: Tree, a: map<int, VmInfo>, b: map<int, VmInfo>)
    requires VmInv(t, a) && VmInv(t, b)
    ensures a == b
  {
    hide VmInv;
    forall v
      ensures v in a <==> v in b
      ensures v in a ==> a[v] == b[v]
    {
      VmListIncluded(t, a, b, v);
      VmListIncluded(t, b, a, v);
    }
  }

  lemma {:induction false} VmListIncluded(t: Tree, a: map<int, VmInfo>, b: map<int, VmInfo>, v: int)
    requires VmInv(t, a) && VmInv(t, b)
    ensures v in a ==> v in b && b[v] == a[v]
  {
    hide PathVm, Get;
    if v in a {
      assert Backed(t, v, a[v]);
      var p :| VmFile(t, p) && PathVm(p) == Some((v, a[v]));
      assert Listed(b, PathVm(p).value);
    }
  }

  // ---------------------------------------------------------------------------------------
  // Changes by path
  // ---------------------------------------------------------------------------------------

  /** Below the root, exactly the entry at path `at` is replaced. */
  ghost predicate Changed(t: Tree, u: Tree, at: Path, e: Option<Entry>) {
    forall p :: p != [] ==> Get(u, p) == if p == at then e else Get(t, p)
  }

  /** The root of `u` is that of `t` one version later. */
  predicate RootAfter(t: Tree, u: Tree, writer: u32, mtime: u32) {
    && 0 in t.index && 0 in u.index
    && u.index[0] == t.index[0].(version := Version(t) + 1, writer := writer, mtime := mtime)
  }

  lemma {:induction false} AddPath(t: Tree, path: Path, d: nat, e: Entry)
    requires TreeInv(t) && path != [] && Lookup(t, Dirname(path)) == Some(d)
    requires d in t.dirs && Basename(path) !in t.dirs[d]
    requires e.parent == d && e.name == Basename(path) && e.inode == e.version == Version(t) + 1
    ensures var u := AddLeaf(Bump(t, e.writer, e.mtime), e);
            && TreeInv(u) && Changed(t, u, path, Some(e))
            && RootAfter(t, u, e.writer, e.mtime) && u.index.Keys == t.index.Keys + {e.inode}
            && forall i :: i in t.index && i != 0 ==> u.index[i] == t.index[i]
    ensures e.inode !in t.index && Get(t, path) == None
  {
    hide Lookup, TreeInv, AddLeaf, Bump;
    FreshInode(t);
    BumpInv(t, e.writer, e.mtime);
    var b := Bump(t, e.writer, e.mtime);
    assert b.dirs == t.dirs && b.index.Keys == t.index.Keys && Version(b) == Version(t) + 1
      && (forall i :: i in t.index && i != 0 ==> b.index[i] == t.index[i])
      && RootAfter(t, b, e.writer, e.mtime) by { BumpShape(t, e.writer, e.mtime); }
    AddLeafInv(b, e, Dirname(path));
    var u := AddLeaf(b, e);
    assert u.index == b.index[e.inode := e] by { AddLeafShape(b, e); }
    assert path == Dirname(path) + [e.name];
    LookupNew(t, e, Dirname(path));
    forall p | p != []
      ensures Get(u, p) == if p == path then Some(e) else Get(t, p)
    {
      if Lookup(t, p).Some? {
        LookupInIndex(t, p, Lookup(t, p).value);
      }
    }
  }

  lemma {:induction false} BumpShape(t: Tree, w: u32, m: u32)
    requires 0 in t.index
    ensures var b := Bump(t, w, m);
            && b.dirs == t.dirs && b.index.Keys == t.index.Keys && Version(b) == Version(t) + 1
            && (forall i :: i in t.index && i != 0 ==> b.index[i] == t.index[i])
            && RootAfter(t, b, w, m)
  {
  }

  lemma {:induction false} AddLeafShape(t: Tree, e: Entry)
    requires e.parent in t.dirs
    ensures AddLeaf(t, e).index == t.index[e.inode := e]
  {
  }

  /** The next version number is not in use as an inode. */
  lemma {:induction false} FreshInode(t: Tree)
    requires TreeInv(t)
    ensures 0 in t.index && Version(t) > 0 && Version(t) + 1 !in t.index
  {
    forall i | i in t.index
      ensures i <= Version(t)
    {
      assert EntryOk(t, i);
    }
  }

  lemma {:induction false} SetPath(t: Tree, path: Path, i: nat, e: Entry)
    requires TreeInv(t) && path != [] && Lookup(t, path) == Some(i) && i in t.index
    requires e == t.index[i].(version := Version(t) + 1, writer := e.writer, mtime := e.mtime, size := e.size, data := e.data)
    ensures var u := SetEntry(Bump(t, e.writer, e.mtime), e);
            && TreeInv(u) && Changed(t, u, path, Some(e))
            && RootAfter(t, u, e.writer, e.mtime) && u.index.Keys == t.index.Keys
            && e.inode == i != 0 && u.index[i] == e
            && forall j :: j in t.index && j != 0 && j != i ==> u.index[j] == t.index[j]
  {
    hide Lookup, TreeInv, Bump;
    LookupInIndex(t, path, i);
    FreshInode(t);
    BumpInv(t, e.writer, e.mtime);
    BumpShape(t, e.writer, e.mtime);
    var b := Bump(t, e.writer, e.mtime);
    SetEntryInv(b, e);
    var u := SetEntry(b, e);
    forall p | p != []
      ensures Get(u, p) == if p == path then Some(e) else Get(t, p)
    {
      if Lookup(t, p).Some? {
        LookupInIndex(t, p, Lookup(t, p).value);
        if Lookup(t, p).value == i {
          PathUnique(t, p, path, i);
        }
      }
    }
  }

  lemma {:induction false} RemoveLeafShape(t: Tree, i: nat)
    requires i in t.index && t.index[i].parent in t.dirs
    ensures RemoveLeaf(t, i).index == t.index - {i}
  {
  }

  /** Unlinking a leaf, before the root version changes. */
  lemma {:induction false} UnlinkPath(t: Tree, path: Path, i: nat)
    requires TreeInv(t) && path != [] && Lookup(t, path) == Some(i) && !NonEmptyDir(t, i)
    ensures i in t.index && i != 0 && t.index[i].parent in t.dirs
    ensures var u := RemoveLeaf(t, i);
            && TreeInv(u) && Changed(t, u, path, None) && u.index == t.index - {i}
            && forall p :: Lookup(u, p) == if p == path then None else Lookup(t, p)
  {
    hide Lookup, TreeInv, RemoveLeaf;
    LookupInIndex(t, path, i);
    RemoveLeafInv(t, i, path);
    RemoveLeafShape(t, i);
    var u := RemoveLeaf(t, i);
    forall p | p != []
      ensures Get(u, p) == if p == path then None else Get(t, p)
    {
      if Lookup(t, p).Some? && Lookup(t, p).value == i {
        PathUnique(t, p, path, i);
      }
    }
  }

  lemma {:induction false} RemovePath(t: Tree, path: Path, i: nat, w: u32, m: u32)
    requires TreeInv(t) && path != [] && Lookup(t, path) == Some(i) && !NonEmptyDir(t, i)
    ensures i in t.index && i != 0 && t.index[i].parent in t.dirs
    ensures var u := Bump(RemoveLeaf(t, i), w, m);
            && TreeInv(u) && Changed(t, u, path, None)
            && RootAfter(t, u, w, m) && u.index.Keys == t.index.Keys - {i}
            && forall j :: j in u.index && j != 0 ==> u.index[j] == t.index[j]
  {
    hide Lookup, TreeInv, RemoveLeaf, Bump;
    UnlinkPath(t, path, i);
    var r := RemoveLeaf(t, i);
    FreshInode(t);
    FreshInode(r);
    BumpInv(r, w, m);
    BumpShape(r, w, m);
    var u := Bump(r, w, m);
    forall p | p != []
      ensures Get(u, p) == Get(r, p)
    {
      if Lookup(r, p).Some? {
        LookupInIndex(r, p, Lookup(r, p).value);
      }
    }
  }

  // ---------------------------------------------------------------------------------------
  // The VM list follows changes by path
  // ---------------------------------------------------------------------------------------

  /** The list after path `at` came to hold `e`. */
  function VmsAfter(vmlist: map<int, VmInfo>, at: Path, e: Option<Entry>): map<int, VmInfo> {
    if PathVm(at).None? then vmlist
    else if e.Some? && e.value.kind.Reg? then vmlist[PathVm(at).value.0 := PathVm(at).value.1]
    else vmlist - {PathVm(at).value.0}
  }

  /** The list stays right if the VM written is not already elsewhere, and the VM removed is the
      one listed. */
  lemma {:induction false} VmChange(t: Tree, u: Tree, vmlist: map<int, VmInfo>, at: Path, e: Option<Entry>)
    requires VmInv(t, vmlist) && Changed(t, u, at, e) && at != []
    requires PathVm(at).Some? ==> !DifferentVm(vmlist, PathVm(at).value)
    ensures VmInv(u, VmsAfter(vmlist, at, e))
  {
    hide PathVm, Get;
    var after := VmsAfter(vmlist, at, e);
    forall p | VmFile(u, p)
      ensures Listed(after, PathVm(p).value)
    {
      VmPathNotRoot(p);
      if p != at {
        assert VmFile(t, p);
        assert Listed(vmlist, PathVm(p).value);
        if PathVm(at).Some? && PathVm(at).value.0 == PathVm(p).value.0 {
          PathVmInjective(p, at);
        }
      }
    }
    forall v | v in after
      ensures Backed(u, v, after[v])
    {
      if PathVm(at).Some? && PathVm(at).value.0 == v {
        assert VmFile(u, at) && PathVm(at) == Some((v, after[v]));
      } else {
        assert Backed(t, v, vmlist[v]);
        var p :| VmFile(t, p) && PathVm(p) == Some((v, vmlist[v]));
        VmPathNotRoot(p);
        assert VmFile(u, p) && PathVm(p) == Some((v, after[v]));
      }
    }
  }

  lemma {:induction false} VmPathNotRoot(p: Path)
    ensures PathVm(p).Some? ==> p != []
  {
  }

  /** A change that is no VM file before and after leaves the list right. */
  lemma {:induction false} VmUnaffected(t: Tree, u: Tree, vmlist: map<int, VmInfo>, at: Path, e: Option<Entry>)
    requires VmInv(t, vmlist) && Changed(t, u, at, e) && at != []
    requires !VmFile(t, at) && !(PathVm(at).Some? && e.Some? && e.value.kind.Reg?)
    ensures VmInv(u, vmlist)
  {
    hide PathVm, Get;
    forall p | VmFile(u, p)
      ensures Listed(vmlist, PathVm(p).value)
    {
      VmPathNotRoot(p);
      assert VmFile(t, p);
    }
    forall v | v in vmlist
      ensures Backed(u, v, vmlist[v])
    {
      assert Backed(t, v, vmlist[v]);
      var p :| VmFile(t, p) && PathVm(p) == Some((v, vmlist[v]));
      VmPathNotRoot(p);
      assert VmFile(u, p) && PathVm(p) == Some((v, vmlist[v]));
    }
  }

  // ---------------------------------------------------------------------------------------
  // The table follows
  // ---------------------------------------------------------------------------------------

  lemma {:induction false} MirrorPut(t: Tree, u: Tree, table: map<nat, Row>, e: Entry, del: nat)
    requires Mirror(t, table) && RootAfter(t, u, e.writer, e.mtime) && e.version == Version(t) + 1
    requires e.inode != 0 && e.inode != del && (del != 0 ==> del in t.index)
    requires u.index.Keys == t.index.Keys + {e.inode} - (if del != 0 then {del} else {}) && u.index[e.inode] == e
    requires forall i :: i in u.index && i != 0 && i != e.inode ==> i in t.index && u.index[i] == t.index[i]
    ensures Mirror(u, BackendWrite(table, Some(e), e.version, e.writer, e.mtime, del))
  {
  }

  lemma {:induction false} MirrorDelete(t: Tree, u: Tree, table: map<nat, Row>, w: u32, m: u32, del: nat)
    requires Mirror(t, table) && RootAfter(t, u, w, m)
    requires del != 0 && del in t.index && u.index.Keys == t.index.Keys - {del}
    requires forall i :: i in u.index && i != 0 ==> u.index[i] == t.index[i]
    ensures Mirror(u, BackendWrite(table, None, Version(t) + 1, w, m, del))
  {
  }

  // ---------------------------------------------------------------------------------------
  // What the operations do, by path
  // ---------------------------------------------------------------------------------------

  predicate IsDirAt(t: Tree, p: Path) {
    Get(t, p).Some? && Get(t, p).value.kind.Dir?
  }

  predicate FileAt(t: Tree, p: Path) {
    Get(t, p).Some? && Get(t, p).value.kind.Reg?
  }

  lemma {:induction false} DirLookup(t: Tree, p: Path)
    requires TreeInv(t)
    ensures Get(t, p).None? <==> Lookup(t, p).None?
    ensures Get(t, p).Some? ==> Lookup(t, p) == Some(Get(t, p).value.inode) && (p == [] <==> Get(t, p).value.inode == 0)
    ensures IsDirAt(t, p) <==> Lookup(t, p).Some? && Lookup(t, p).value in t.dirs
  {
    hide TreeInv, Lookup;
    if Lookup(t, p).Some? {
      LookupInIndex(t, p, Lookup(t, p).value);
    }
  }

  lemma {:induction false} ChildLookup(t: Tree, p: Path, d: nat)
    requires TreeInv(t) && p != [] && Lookup(t, Dirname(p)) == Some(d) && d in t.dirs
    ensures Basename(p) in t.dirs[d] <==> Get(t, p).Some?
    ensures Basename(p) in t.dirs[d] ==>
              Lookup(t, p) == Some(t.dirs[d][Basename(p)]) && t.dirs[d][Basename(p)] in t.index
              && Get(t, p) == Some(t.index[t.dirs[d][Basename(p)]])
  {
    hide TreeInv;
    if Basename(p) in t.dirs[d] {
      LookupInIndex(t, p, t.dirs[d][Basename(p)]);
    }
  }

  /** Only the entry written decides whether all contents are in order afterwards. */
  lemma {:induction false} ContentAfter(t: Tree, u: Tree, e: Entry)
    requires ContentInv(t) && RootAfter(t, u, e.writer, e.mtime)
    requires e.inode != 0 && e.inode in u.index && u.index[e.inode] == e
    requires forall i :: i in u.index && i != 0 && i != e.inode ==> i in t.index && u.index[i] == t.index[i]
    ensures ContentInv(u) <==> WellStored(e)
  {
    assert WellStored(t.index[0]);
    forall i | i in u.index && i != e.inode
      ensures WellStored(u.index[i])
    {
      assert i == 0 || WellStored(t.index[i]);
    }
  }

  lemma {:induction false} ContentRemoved(t: Tree, u: Tree, w: u32, m: u32)
    requires ContentInv(t) && RootAfter(t, u, w, m)
    requires forall i :: i in u.index && i != 0 ==> i in t.index && u.index[i] == t.index[i]
    ensures ContentInv(u)
  {
    assert WellStored(t.index[0]);
    forall i | i in u.index
      ensures WellStored(u.index[i])
    {
      assert i == 0 || WellStored(t.index[i]);
    }
  }

  // ---- mkdir ----

  predicate CanMkdir(t: Tree, path: Path) {
    path != [] && IsDirAt(t, Dirname(path)) && !Reserved(Basename(path)) && Get(t, path).None?
  }

  /** The entry of a new file or directory. */
  function NewEntry(t: Tree, path: Path, w: u32, m: u32, kind: Kind, data: seq<byte>): Entry
    requires 0 in t.index && path != [] && Get(t, Dirname(path)).Some?
  {
    Entry(Version(t) + 1, Get(t, Dirname(path)).value.inode, Version(t) + 1, w, m, kind, |data|, Basename(path), data)
  }

  lemma {:induction false} MkdirCorrect(db: Db, path: Path, w: u32, m: u32)
    requires Inv(db)
    ensures var (db', r) := Mkdir(db, path, w, m);
            && Inv(db') && (r.Ok? <==> CanMkdir(db.tree, path)) && (r.Err? ==> db' == db)
            && (r.Ok? ==> RootAfter(db.tree, db'.tree, w, m)
                          && Changed(db.tree, db'.tree, path, Some(NewEntry(db.tree, path, w, m, Dir, []))))
  {
    hide TreeInv, Lookup, Get, VmInv, Mirror, ContentInv, Changed, AddLeaf, Bump, BackendWrite, PathVm;
    var t := db.tree;
    FreshInode(t);
    var (db', r) := Mkdir(db, path, w, m);
    if path != [] {
      DirLookup(t, Dirname(path));
      if IsDirAt(t, Dirname(path)) {
        ChildLookup(t, path, Lookup(t, Dirname(path)).value);
        if r.Ok? {
          var e := NewEntry(t, path, w, m, Dir, []);
          AddPath(t, path, e.parent, e);
          assert !VmFile(t, path);
          VmUnaffected(t, db'.tree, db.vmlist, path, Some(e));
          AddedAt(t, db'.tree, path, e);
          MirrorPut(t, db'.tree, db.table, e, 0);
          ContentAfter(t, db'.tree, e);
        }
      }
    }
  }

  lemma {:induction false} AddedAt(t: Tree, u: Tree, path: Path, e: Entry)
    requires TreeInv(u) && Changed(t, u, path, Some(e)) && path != []
    ensures e.inode in u.index && u.index[e.inode] == e
  {
    hide Lookup, TreeInv;
    assert Get(u, path) == Some(e);
    LookupInIndex(u, path, Lookup(u, path).value);
  }

  // ---- write and create ----

  /** The byte-array meaning of a write: a gap is filled with zeros, and only a truncating write
      shortens the file. */
  function Written(was: seq<byte>, data: seq<byte>, offset: nat, truncate: bool): seq<byte> {
    var n := offset + |data|;
    var buf := if |was| < n then was + Zeros(n - |was|) else if truncate then was[..n] else was;
    Overlay(buf, offset, data)
  }

  /** Extending an empty file without data: the one case in which the size is set but no data is
      stored. */
  predicate Hole(was: seq<byte>, data: seq<byte>, offset: nat) {
    was == [] && data == [] && offset > 0
  }

  lemma {:induction false} PwriteDataExact(was: seq<byte>, data: seq<byte>, offset: nat, truncate: bool)
    ensures var w := Written(was, data, offset, truncate);
            PwriteData(was, |was|, data, offset, truncate) == (|w|, w) <==> !Hole(was, data, offset)
    ensures |Written(was, data, offset, truncate)| <= if |was| > offset + |data| then |was| else offset + |data|
    ensures Hole(was, data, offset) ==> PwriteData(was, |was|, data, offset, truncate) == (offset, [])
  {
    var w, r := Written(was, data, offset, truncate), PwriteData(was, |was|, data, offset, truncate);
    if !Hole(was, data, offset) {
      assert [] + Zeros(offset + |data|) == Zeros(offset + |data|);
      assert r.1 == w;
    }
  }

  predicate CanWrite(db: Db, path: Path, data: seq<byte>, offset: nat, create: bool) {
    && path != [] && offset + |data| <= MAX_FILE_SIZE
    && IsDirAt(db.tree, Dirname(path)) && !Reserved(Basename(path))
    && !(PathVm(path).Some? && DifferentVm(db.vmlist, PathVm(path).value))
    && (if create then Get(db.tree, path).None? else Get(db.tree, path).Some? && Get(db.tree, path).value.kind.Reg?)
  }

  /** What a file has before a write. */
  function Contents(t: Tree, path: Path): seq<byte> {
    if Get(t, path).Some? then Get(t, path).value.data else []
  }

  /** The entry a write is meant to leave. */
  function WrittenEntry(t: Tree, path: Path, w: u32, m: u32, bytes: seq<byte>): Entry
    requires 0 in t.index && path != [] && Get(t, Dirname(path)).Some?
  {
    if Get(t, path).Some? then
      Get(t, path).value.(version := Version(t) + 1, writer := w, mtime := m, size := |bytes|, data := bytes)
    else
      NewEntry(t, path, w, m, Reg, bytes)
  }

  lemma {:induction false} PutFileCorrect(db: Db, path: Path, e: Entry, isNew: bool, d: nat)
    requires Inv(db) && path != [] && Lookup(db.tree, Dirname(path)) == Some(d) && d in db.tree.dirs
    requires PathVm(path).Some? ==> !DifferentVm(db.vmlist, PathVm(path).value)
    requires 0 in db.tree.index && e.parent in db.tree.dirs && e.kind.Reg?
    requires if isNew then
               && Basename(path) !in db.tree.dirs[d] && e.parent == d && e.name == Basename(path)
               && e.inode == e.version == Version(db.tree) + 1
             else
               && Lookup(db.tree, path).Some? && Lookup(db.tree, path).value in db.tree.index
               && e == db.tree.index[Lookup(db.tree, path).value].(version := Version(db.tree) + 1, writer := e.writer, mtime := e.mtime, size := e.size, data := e.data)
    ensures var db' := PutFile(db, e, path, isNew);
            && (Inv(db') <==> WellStored(e))
            && RootAfter(db.tree, db'.tree, e.writer, e.mtime) && Changed(db.tree, db'.tree, path, Some(e))
  {
    hide TreeInv, Lookup, Get, VmInv, Mirror, ContentInv, Changed, AddLeaf, Bump, SetEntry, BackendWrite, PathVm;
    var t, db' := db.tree, PutFile(db, e, path, isNew);
    if isNew {
      AddPath(t, path, d, e);
    } else {
      SetPath(t, path, Lookup(t, path).value, e);
    }
    AddedAt(t, db'.tree, path, e);
    VmChange(t, db'.tree, db.vmlist, path, Some(e));
    MirrorPut(t, db'.tree, db.table, e, 0);
    ContentAfter(t, db'.tree, e);
  }

  /** A write succeeds exactly when it can, a failed one changes nothing, and a successful one is
      the byte-array write on one path; the invariant survives unless the write leaves a hole. */
  lemma {:induction false} PwriteCorrect(db: Db, path: Path, w: u32, m: u32, data: seq<byte>, offset: nat, truncate: bool, create: bool)
    requires Inv(db)
    ensures Sound(db)
    ensures var (db', r) := Pwrite(db, path, w, m, data, offset, truncate, create);
            var was := Contents(db.tree, path);
            && (r.Ok? <==> CanWrite(db, path, data, offset, create)) && (r.Err? ==> db' == db) && (r.Ok? ==> r.count == |data|)
            && (Inv(db') <==> !(r.Ok? && Hole(was, data, offset)))
            && (r.Ok? && !Hole(was, data, offset) ==>
                  && RootAfter(db.tree, db'.tree, w, m)
                  && Changed(db.tree, db'.tree, path, Some(WrittenEntry(db.tree, path, w, m, Written(was, data, offset, truncate)))))
  {
    hide TreeInv, Lookup, Get, VmInv, Mirror, ContentInv, Changed, PathVm, PutFile, Written, PwriteData;
    InvSound(db);
    FreshInode(db.tree);
    var t, was := db.tree, Contents(db.tree, path);
    PwriteDataExact(was, data, offset, truncate);
    if path != [] {
      DirLookup(t, Dirname(path));
      if IsDirAt(t, Dirname(path)) {
        var d := Lookup(t, Dirname(path)).value;
        ChildLookup(t, path, d);
        if CanWrite(db, path, data, offset, create) {
          var r := PwriteData(was, |was|, data, offset, truncate);
          var e := WrittenEntry(t, path, w, m, []).(size := r.0, data := r.1);
          if Get(t, path).Some? {
            StoredSize(t, path);
            LookupInIndex(t, path, Lookup(t, path).value);
          }
          PutFileCorrect(db, path, e, create, d);
        }
      }
    }
  }

  lemma {:induction false} StoredSize(t: Tree, path: Path)
    requires TreeInv(t) && ContentInv(t) && Get(t, path).Some?
    ensures WellStored(Get(t, path).value)
  {
    LookupInIndex(t, path, Lookup(t, path).value);
  }

  // ---- mtime ----

  predicate CanMtime(t: Tree, path: Path, w: u32, m: u32) {
    && path != [] && !Reserved(Basename(path)) && Get(t, path).Some?
    && (Dirname(path) == [PRIV, LOCK] && Get(t, path).value.kind.Dir? ==>
          m >= Get(t, path).value.mtime && w == Get(t, path).value.writer)
  }

  lemma {:induction false} MtimeCorrect(db: Db, path: Path, w: u32, m: u32)
    requires Inv(db)
    ensures Sound(db)
    ensures var (db', r) := Mtime(db, path, w, m);
            && Inv(db') && (r.Ok? <==> CanMtime(db.tree, path, w, m)) && (r.Err? ==> db' == db)
            && (r.Ok? ==>
                  && RootAfter(db.tree, db'.tree, w, m)
                  && Changed(db.tree, db'.tree, path,
                             Some(Get(db.tree, path).value.(version := Version(db.tree) + 1, writer := w, mtime := m))))
  {
    hide TreeInv, Lookup, Get, VmInv, Mirror, ContentInv, Changed, SetEntry, Bump, BackendWrite, PathVm;
    InvSound(db);
    FreshInode(db.tree);
    var t := db.tree;
    if path != [] {
      DirLookup(t, Dirname(path));
      if Get(t, path).Some? {
        ParentOfEntry(t, path);
      }
      if IsDirAt(t, Dirname(path)) {
        var d := Lookup(t, Dirname(path)).value;
        ChildLookup(t, path, d);
        if CanMtime(t, path, w, m) {
          var db' := Mtime(db, path, w, m).0;
          var o := Get(t, path).value;
          var e := o.(version := Version(t) + 1, writer := w, mtime := m);
          StoredSize(t, path);
          SetPath(t, path, Lookup(t, path).value, e);
          AddedAt(t, db'.tree, path, e);
          MirrorPut(t, db'.tree, db.table, e, 0);
          ContentAfter(t, db'.tree, e);
          VmSameKind(db, db'.tree, path, e);
        }
      }
    }
  }

  lemma {:induction false} ParentOfEntry(t: Tree, path: Path)
    requires TreeInv(t) && path != [] && Get(t, path).Some?
    ensures IsDirAt(t, Dirname(path))
  {
    hide TreeInv;
    LookupInIndex(t, path, Lookup(t, path).value);
    DirLookup(t, Dirname(path));
  }

  /** Replacing an entry by one of the same kind does not touch the VM list. */
  lemma {:induction false} VmSameKind(db: Db, u: Tree, path: Path, e: Entry)
    requires VmInv(db.tree, db.vmlist) && path != [] && Changed(db.tree, u, path, Some(e))
    requires Get(db.tree, path).Some? && Get(db.tree, path).value.kind == e.kind
    ensures VmInv(u, db.vmlist)
  {
    hide PathVm, Get;
    if PathVm(path).Some? && e.kind.Reg? {
      assert VmFile(db.tree, path);
      VmChange(db.tree, u, db.vmlist, path, Some(e));
      assert VmsAfter(db.vmlist, path, Some(e)) == db.vmlist;
    } else {
      VmUnaffected(db.tree, u, db.vmlist, path, Some(e));
    }
  }

  // ---- delete ----

  predicate CanDelete(t: Tree, path: Path) {
    path != [] && Get(t, path).Some? && !NonEmptyDir(t, Get(t, path).value.inode)
  }

  /** A directory that carries the name of a listed VM: deleting it unlists that VM. */
  predicate VmDirectory(db: Db, path: Path) {
    && PathVm(path).Some? && Get(db.tree, path).Some? && Get(db.tree, path).value.kind.Dir?
    && PathVm(path).value.0 in db.vmlist
  }

  lemma {:induction false} DeleteCorrect(db: Db, path: Path, w: u32, m: u32)
    requires Inv(db)
    ensures Sound(db)
    ensures var (db', r) := Delete(db, path, w, m);
            && (r.Ok? <==> CanDelete(db.tree, path)) && (r.Err? ==> db' == db)
            && (Inv(db') <==> !(r.Ok? && VmDirectory(db, path)))
            && (r.Ok? ==> TreeInv(db'.tree) && RootAfter(db.tree, db'.tree, w, m) && Changed(db.tree, db'.tree, path, None))
  {
    hide TreeInv, Lookup, Get, VmInv, Mirror, ContentInv, Changed, RemoveLeaf, Bump, BackendWrite, PathVm;
    InvSound(db);
    FreshInode(db.tree);
    var t := db.tree;
    DirLookup(t, path);
    if CanDelete(t, path) {
      var db' := Delete(db, path, w, m).0;
      var i := Lookup(t, path).value;
      RemovePath(t, path, i, w, m);
      MirrorDelete(t, db'.tree, db.table, w, m, i);
      ContentRemoved(t, db'.tree, w, m);
      VmAfterDelete(db, db'.tree, path);
    }
  }

  lemma {:induction false} VmAfterDelete(db: Db, u: Tree, path: Path)
    requires VmInv(db.tree, db.vmlist) && path != [] && Changed(db.tree, u, path, None) && Get(db.tree, path).Some?
    ensures var vms := if PathVm(path).Some? then db.vmlist - {PathVm(path).value.0} else db.vmlist;
            VmInv(u, vms) <==> !VmDirectory(db, path)
  {
    hide PathVm, Get;
    var vms := if PathVm(path).Some? then db.vmlist - {PathVm(path).value.0} else db.vmlist;
    if VmFile(db.tree, path) {
      VmChange(db.tree, u, db.vmlist, path, None);
    } else {
      VmUnaffected(db.tree, u, db.vmlist, path, None);
      if VmDirectory(db, path) {
        if VmInv(u, vms) {
          VmListUnique(u, vms, db.vmlist);
        }
      } else {
        assert vms == db.vmlist;
      }
    }
  }

  // ---- rename ----

  /** Below the root, `to` has the entry moved away from `from`. */
  ghost predicate Moved(t: Tree, u: Tree, from: Path, to: Path, e: Entry) {
    forall p :: p != [] ==> Get(u, p) == if p == to then Some(e) else if p == from then None else Get(t, p)
  }

  /** The checks that come before anything is changed. */
  predicate ReachesMove(db: Db, from: Path, to: Path) {
    && from != [] && Get(db.tree, from).Some?
    && (var e := Get(db.tree, from).value;
        && !(e.kind.Reg? && PathVm(to).Some? && DifferentVm(db.vmlist, PathVm(to).value)
             && !(PathVm(from).Some? && PathVm(from).value.0 == PathVm(to).value.0))
        && !(e.kind.Dir? && IsLockDir(from)))
    && to != []
    && if Get(db.tree, to).Some? then !NonEmptyDir(db.tree, Get(db.tree, to).value.inode) else IsDirAt(db.tree, Dirname(to))
  }

  /** The renames that break the database: onto itself, of a directory with entries onto an
      existing entry, of a directory into itself, of a directory onto a VM file. */
  predicate BadRename(db: Db, from: Path, to: Path) {
    ReachesMove(db, from, to) &&
    var e := Get(db.tree, from).value;
    || from == to
    || (Get(db.tree, to).Some? && NonEmptyDir(db.tree, e.inode))
    || (Get(db.tree, to).None? && Dirname(to) == from && !NonEmptyDir(db.tree, e.inode))
    || (e.kind.Dir? && VmFile(db.tree, to))
  }

  predicate CanRename(db: Db, from: Path, to: Path) {
    ReachesMove(db, from, to) && !NonEmptyDir(db.tree, Get(db.tree, from).value.inode)
  }

  function MovedEntry(t: Tree, from: Path, to: Path, w: u32, m: u32): Entry
    requires 0 in t.index && to != [] && Get(t, from).Some? && Get(t, Dirname(to)).Some?
  {
    Get(t, from).value.(parent := Get(t, Dirname(to)).value.inode, version := Version(t) + 1,
                        writer := w, mtime := m, name := Basename(to))
  }

  /** The tree part of a rename: unlink the source, then link it at the free target. `t` is the
      tree without the target. */
  lemma {:induction false} MoveTree(t: Tree, i: nat, d: nat, from: Path, to: Path, e: Entry)
    requires TreeInv(t) && from != [] && to != [] && from != to && Dirname(to) != from
    requires Lookup(t, from) == Some(i) && !NonEmptyDir(t, i)
    requires Lookup(t, Dirname(to)) == Some(d) && d in t.dirs && Get(t, to).None?
    requires i in t.index && e == t.index[i].(parent := d, version := Version(t) + 1, writer := e.writer, mtime := e.mtime, name := Basename(to))
    ensures i != 0 && t.index[i].parent in t.dirs && e.inode == i
    ensures var b := Bump(RemoveLeaf(t, i), e.writer, e.mtime);
            && d in b.dirs
            && var u := AddLeaf(b, e);
            && TreeInv(u) && Moved(t, u, from, to, e) && RootAfter(t, u, e.writer, e.mtime)
            && u.index.Keys == t.index.Keys && u.index[i] == e
            && forall j :: j in t.index && j != 0 && j != i ==> u.index[j] == t.index[j]
  {
    hide Lookup, TreeInv, RemoveLeaf, Bump, AddLeaf;
    FreshInode(t);
    LookupInIndex(t, from, i);
    RemovePath(t, from, i, e.writer, e.mtime);
    RemoveLeafShape(t, i);
    var b := Bump(RemoveLeaf(t, i), e.writer, e.mtime);
    DirLookup(t, Dirname(to));
    DirLookup(b, Dirname(to));
    assert Dirname(to) == [] ==> d == 0;
    RootStays(t, b, Dirname(to), d);
    ChildLookup(b, to, d);
    assert Get(b, to).None?;
    AddLeafInv(b, e, Dirname(to));
    AddLeafShape(b, e);
    var u := AddLeaf(b, e);
    assert to == Dirname(to) + [e.name];
    forall p | p != []
      ensures Get(u, p) == if p == to then Some(e) else if p == from then None else Get(t, p)
    {
      assert Get(b, p) == if p == from then None else Get(t, p);
      if Lookup(b, p).Some? {
        LookupInIndex(b, p, Lookup(b, p).value);
      }
    }
  }

  /** A directory other than the one changed is found at the same inode. */
  lemma {:induction false} RootStays(t: Tree, b: Tree, p: Path, d: nat)
    requires TreeInv(t) && TreeInv(b) && Lookup(t, p) == Some(d) && d in t.dirs
    requires p != [] ==> Get(b, p) == Get(t, p)
    ensures Lookup(b, p) == Some(d) && d in b.dirs
  {
    hide TreeInv;
    DirLookup(t, p);
    DirLookup(b, p);
    if p == [] {
      LookupInIndex(b, [], 0);
      RootIsDir(b);
    }
  }

  lemma {:induction false} RootIsDir(t: Tree)
    requires TreeInv(t)
    ensures 0 in t.dirs
  {
    assert EntryOk(t, 0);
  }

  /** An entry cannot be its own parent: no path would lead to it. */
  lemma {:induction false} NoSelfParent(t: Tree, i: nat)
    requires TreeInv(t) && i != 0 && i in t.index
    ensures t.index[i].parent != i
  {
    assert Reachable(t, i);
    var p :| Lookup(t, p) == Some(i);
    hide TreeInv, Lookup;
    LookupInIndex(t, p, i);
    if t.index[i].parent == i {
      PathUnique(t, p, p[..|p| - 1], i);
    }
  }

  lemma {:induction false} SelfParentBreaks(t: Tree, i: nat)
    requires i != 0 && i in t.index && t.index[i].parent == i
    ensures !TreeInv(t)
  {
    hide TreeInv;
    if TreeInv(t) {
      NoSelfParent(t, i);
    }
  }

  /** The VM list after a rename: unlist the source, then list the target. */
  function VmsMoved(vmlist: map<int, VmInfo>, from: Path, to: Path, kind: Kind): map<int, VmInfo> {
    var vms := if kind.Reg? && PathVm(from).Some? then vmlist - {PathVm(from).value.0} else vmlist;
    if kind.Reg? && PathVm(to).Some? then vms[PathVm(to).value.0 := PathVm(to).value.1] else vms
  }

  lemma {:induction false} VmMoved(db: Db, u: Tree, from: Path, to: Path, e: Entry)
    requires Inv(db) && CanRename(db, from, to) && !BadRename(db, from, to) && Canonical(to)
    requires Moved(db.tree, u, from, to, e) && e.kind == Get(db.tree, from).value.kind
    ensures VmInv(u, VmsMoved(db.vmlist, from, to, e.kind))
  {
    hide TreeInv, Lookup, Get, PathVm, VmInv, Mirror, ContentInv, RemoveLeaf, Bump, IsLockDir;
    var t := db.tree;
    DirLookup(t, from);
    FreshInode(t);
    RemovePath(t, from, Lookup(t, from).value, 0, 0);
    RemoveLeafShape(t, Lookup(t, from).value);
    var b := Bump(RemoveLeaf(t, Lookup(t, from).value), 0, 0);
    assert Changed(b, u, to, Some(e));
    if e.kind.Reg? {
      if PathVm(from).Some? {
        assert VmFile(t, from);
        VmFileListed(t, db.vmlist, from);
      }
      VmChange(t, b, db.vmlist, from, None);
      VmChange(b, u, VmsAfter(db.vmlist, from, None), to, Some(e));
    } else {
      VmUnaffected(t, b, db.vmlist, from, None);
      assert !VmFile(b, to);
      VmUnaffected(b, u, db.vmlist, to, Some(e));
    }
  }

  lemma {:induction false} VmFileListed(t: Tree, vmlist: map<int, VmInfo>, p: Path)
    requires VmInv(t, vmlist) && VmFile(t, p)
    ensures Listed(vmlist, PathVm(p).value)
  {
  }

  predicate LinkedAt(t: Tree, i: nat) {
    i in t.index && t.index[i].parent in t.dirs && t.index[i].name in t.dirs[t.index[i].parent]
  }

  lemma {:induction false} LookupLinked(t: Tree, p: Path, i: nat)
    requires TreeInv(t) && p != [] && Lookup(t, p) == Some(i)
    ensures LinkedAt(t, i) && t.index[i].inode == i && i != 0
    ensures Lookup(t, Dirname(p)) == Some(t.index[i].parent) && t.index[i].name == Basename(p)
  {
    hide TreeInv, Lookup;
    LookupInIndex(t, p, i);
  }

  /** An existing target can be unlinked first: the source and the target directory stay. */
  lemma {:induction false} UnlinkTarget(t: Tree, from: Path, to: Path, i: nat, j: nat)
    requires TreeInv(t) && from != [] && to != [] && from != to
    requires Lookup(t, from) == Some(i) && Lookup(t, to) == Some(j) && !NonEmptyDir(t, i) && !NonEmptyDir(t, j)
    ensures i in t.index && LinkedAt(t, j) && i != j && j != 0
    ensures var r, d := RemoveLeaf(t, j), t.index[j].parent;
            && TreeInv(r) && Lookup(r, from) == Some(i) && LinkedAt(r, i) && !NonEmptyDir(r, i)
            && r.index == t.index - {j} && Changed(t, r, to, None)
            && Lookup(r, Dirname(to)) == Some(d) && d in r.dirs && Dirname(to) != from && Get(r, to).None?
  {
    hide TreeInv, Lookup, RemoveLeaf, Changed;
    LookupLinked(t, from, i);
    LookupLinked(t, to, j);
    if i == j {
      PathUnique(t, from, to, i);
    }
    UnlinkPath(t, to, j);
    var r, d := RemoveLeaf(t, j), t.index[j].parent;
    LookupLinked(r, from, i);
    assert d != i;
    DirLookup(r, to);
    assert |Dirname(to)| < |to|;
    assert Lookup(r, Dirname(to)) == Some(d);
    RemoveLeafDirs(t, j, i);
    RemoveLeafDirs(t, j, d);
  }

  lemma {:induction false} RemoveLeafDirs(t: Tree, j: nat, d: nat)
    requires j in t.index && t.index[j].parent in t.dirs
    ensures var r := RemoveLeaf(t, j);
            && (d in r.dirs <==> d in t.dirs && d != j)
            && (d in r.dirs && t.dirs[d] == map[] ==> r.dirs[d] == map[])
  {
    var names: map<Name, nat> := map[];
    assert names - {t.index[j].name} == names;
  }

  /** The case in which a rename goes through. */
  lemma {:induction false} RenameGood(db: Db, from: Path, to: Path, w: u32, m: u32)
    requires Inv(db) && CanRename(db, from, to) && !BadRename(db, from, to) && Canonical(to)
    ensures Sound(db) && IsDirAt(db.tree, Dirname(to))
    ensures var (db', r) := Rename(db, from, to, w, m);
            && r.Ok? && Inv(db') && RootAfter(db.tree, db'.tree, w, m)
            && Moved(db.tree, db'.tree, from, to, MovedEntry(db.tree, from, to, w, m))
  {
    hide TreeInv, Lookup, PathVm, VmInv, Mirror, ContentInv, RemoveLeaf, AddLeaf, Bump, BackendWrite, IsLockDir;
    InvSound(db);
    FreshInode(db.tree);
    var t := db.tree;
    DirLookup(t, from);
    DirLookup(t, to);
    if Get(t, to).Some? {
      ParentOfEntry(t, to);
      RenameOnto(db, from, to, w, m);
    } else {
      RenameFresh(db, from, to, w, m);
    }
  }

  lemma {:induction false} RenameOnto(db: Db, from: Path, to: Path, w: u32, m: u32)
    requires Inv(db) && CanRename(db, from, to) && !BadRename(db, from, to) && Canonical(to)
    requires Get(db.tree, to).Some?
    ensures Sound(db) && IsDirAt(db.tree, Dirname(to)) && 0 in db.tree.index
    ensures var (db', r) := Rename(db, from, to, w, m);
            && r.Ok? && Inv(db') && RootAfter(db.tree, db'.tree, w, m)
            && Moved(db.tree, db'.tree, from, to, MovedEntry(db.tree, from, to, w, m))
  {
    hide TreeInv, Lookup, PathVm, VmInv, Mirror, ContentInv, RemoveLeaf, AddLeaf, Bump, BackendWrite, IsLockDir, DifferentVm;
    InvSound(db);
    FreshInode(db.tree);
    var t := db.tree;
    DirLookup(t, from);
    DirLookup(t, to);
    ParentOfEntry(t, to);
    DirLookup(t, Dirname(to));
    var i, j := Lookup(t, from).value, Lookup(t, to).value;
    UnlinkTarget(t, from, to, i, j);
    LookupLinked(t, to, j);
    var r, d := RemoveLeaf(t, j), t.index[j].parent;
    var e := MovedEntry(t, from, to, w, m);
    FreshInode(r);
    MoveTree(r, i, d, from, to, e);
    RemoveLeafShape(r, i);
    var db' := Rename(db, from, to, w, m).0;
    assert db'.tree == AddLeaf(Bump(RemoveLeaf(r, i), w, m), e);
    assert Moved(t, db'.tree, from, to, e);
    MirrorPut(t, db'.tree, db.table, e, j);
    StoredSize(t, from);
    ContentAfter(t, db'.tree, e);
    VmMoved(db, db'.tree, from, to, e);
  }

  lemma {:induction false} RenameFresh(db: Db, from: Path, to: Path, w: u32, m: u32)
    requires Inv(db) && CanRename(db, from, to) && !BadRename(db, from, to) && Canonical(to)
    requires Get(db.tree, to).None?
    ensures Sound(db) && IsDirAt(db.tree, Dirname(to)) && 0 in db.tree.index
    ensures var (db', r) := Rename(db, from, to, w, m);
            && r.Ok? && Inv(db') && RootAfter(db.tree, db'.tree, w, m)
            && Moved(db.tree, db'.tree, from, to, MovedEntry(db.tree, from, to, w, m))
  {
    hide TreeInv, Lookup, PathVm, VmInv, Mirror, ContentInv, RemoveLeaf, AddLeaf, Bump, BackendWrite, IsLockDir, DifferentVm;
    InvSound(db);
    FreshInode(db.tree);
    var t := db.tree;
    DirLookup(t, from);
    DirLookup(t, to);
    DirLookup(t, Dirname(to));
    var i, d := Lookup(t, from).value, Lookup(t, Dirname(to)).value;
    var e := MovedEntry(t, from, to, w, m);
    LookupLinked(t, from, i);
    MoveTree(t, i, d, from, to, e);
    var db' := Rename(db, from, to, w, m).0;
    MirrorPut(t, db'.tree, db.table, e, 0);
    StoredSize(t, from);
    ContentAfter(t, db'.tree, e);
    VmMoved(db, db'.tree, from, to, e);
  }

  /** Every bad rename breaks the invariant. */
  lemma {:induction false} RenameBad(db: Db, from: Path, to: Path, w: u32, m: u32)
    requires Inv(db) && BadRename(db, from, to)
    ensures Sound(db) && !Inv(Rename(db, from, to, w, m).0)
  {
    hide TreeInv, Lookup, PathVm, VmInv, ContentInv, RemoveLeaf, AddLeaf, Bump, BackendWrite, IsLockDir, DifferentVm;
    InvSound(db);
    FreshInode(db.tree);
    var t := db.tree;
    DirLookup(t, from);
    DirLookup(t, to);
    var i := Lookup(t, from).value;
    LookupLinked(t, from, i);
    if Get(t, to).Some? {
      var j := Lookup(t, to).value;
      LookupLinked(t, to, j);
      RemoveLeafShape(t, j);
      var r, d := RemoveLeaf(t, j), t.index[j].parent;
      if from != to && !NonEmptyDir(t, i) {
        BadOntoVm(db, from, to, w, m);
      } else if from != to {
        UnlinkedDirs(t, j, i, from, to);
        if !NonEmptyDir(r, i) {
          MoveIntoItself(db, r, i, d, from, to, w, m, j);
        }
      }
    } else {
      MoveIntoItself(db, t, i, i, from, to, w, m, 0);
    }
  }

  /** A directory with entries stays linked when one leaf goes; it becomes empty only if the leaf
      was its one entry. */
  lemma {:induction false} UnlinkedDirs(t: Tree, j: nat, i: nat, from: Path, to: Path)
    requires TreeInv(t) && from != [] && to != [] && from != to
    requires Lookup(t, from) == Some(i) && Lookup(t, to) == Some(j) && NonEmptyDir(t, i) && !NonEmptyDir(t, j)
    ensures LinkedAt(t, j) && i != j && LinkedAt(RemoveLeaf(t, j), i) && i in RemoveLeaf(t, j).dirs
    ensures !NonEmptyDir(RemoveLeaf(t, j), i) ==> t.index[j].parent == i
  {
    hide TreeInv, Lookup;
    LookupLinked(t, from, i);
    LookupLinked(t, to, j);
    UnlinkPath(t, to, j);
    LookupLinked(RemoveLeaf(t, j), from, i);
  }

  lemma {:induction false} MoveIntoItself(db: Db, t: Tree, i: nat, d: nat, from: Path, to: Path, w: u32, m: u32, del: nat)
    requires 0 in t.index && to != [] && i != 0 && d in t.dirs && d == i
    requires LinkedAt(t, i) && !NonEmptyDir(t, i)
    ensures !TreeInv(Move(db, t, i, d, from, to, w, m, del).0.tree)
  {
    hide TreeInv, BackendWrite, PathVm;
    SelfParentBreaks(Move(db, t, i, d, from, to, w, m, del).0.tree, i);
  }

  /** A directory moved onto a VM file leaves the VM listed without a file. */
  lemma {:induction false} BadOntoVm(db: Db, from: Path, to: Path, w: u32, m: u32)
    requires Inv(db) && CanRename(db, from, to) && from != to
    requires Get(db.tree, from).value.kind.Dir? && VmFile(db.tree, to)
    ensures Sound(db) && !Inv(Rename(db, from, to, w, m).0)
  {
    hide TreeInv, Lookup, PathVm, Mirror, ContentInv, RemoveLeaf, AddLeaf, Bump, BackendWrite, IsLockDir, DifferentVm;
    InvSound(db);
    FreshInode(db.tree);
    var t := db.tree;
    DirLookup(t, from);
    DirLookup(t, to);
    ParentOfEntry(t, to);
    DirLookup(t, Dirname(to));
    var i, j := Lookup(t, from).value, Lookup(t, to).value;
    UnlinkTarget(t, from, to, i, j);
    LookupLinked(t, to, j);
    var r, d := RemoveLeaf(t, j), t.index[j].parent;
    var e := MovedEntry(t, from, to, w, m);
    FreshInode(r);
    MoveTree(r, i, d, from, to, e);
    RemoveLeafShape(r, i);
    var db' := Rename(db, from, to, w, m).0;
    assert db'.tree == AddLeaf(Bump(RemoveLeaf(r, i), w, m), e);
    assert Get(db'.tree, to) == Some(e);
    VmFileListed(t, db.vmlist, to);
    StaleListing(db'.tree, db'.vmlist, to);
  }

  lemma {:induction false} StaleListing(u: Tree, vmlist: map<int, VmInfo>, to: Path)
    requires PathVm(to).Some? && Listed(vmlist, PathVm(to).value) && !VmFile(u, to)
    ensures !VmInv(u, vmlist)
  {
    hide PathVm, Get;
    if VmInv(u, vmlist) {
      var vm := PathVm(to).value;
      assert Backed(u, vm.0, vmlist[vm.0]);
      var p :| VmFile(u, p) && PathVm(p) == Some((vm.0, vm.1));
      PathVmInjective(p, to);
    }
  }

  /** Renames: exactly the bad ones break the invariant; of the others, those that can be done are
      done, and those that cannot change nothing. */
  lemma {:induction false} RenameCorrect(db: Db, from: Path, to: Path, w: u32, m: u32)
    requires Inv(db) && Canonical(to)
    ensures Sound(db)
    ensures var (db', r) := Rename(db, from, to, w, m);
            && (Inv(db') <==> !BadRename(db, from, to))
            && (!BadRename(db, from, to) ==> (r.Ok? <==> CanRename(db, from, to)) && (r.Err? ==> db' == db))
            && (!BadRename(db, from, to) && r.Ok? ==>
                  && IsDirAt(db.tree, Dirname(to)) && RootAfter(db.tree, db'.tree, w, m)
                  && Moved(db.tree, db'.tree, from, to, MovedEntry(db.tree, from, to, w, m)))
  {
    hide TreeInv, Lookup, PathVm, VmInv, Mirror, ContentInv, RemoveLeaf, AddLeaf, Bump, BackendWrite, IsLockDir, DifferentVm, Moved;
    InvSound(db);
    if BadRename(db, from, to) {
      RenameBad(db, from, to, w, m);
    } else if CanRename(db, from, to) {
      RenameGood(db, from, to, w, m);
    } else {
      RenameRefused(db, from, to, w, m);
    }
  }

  lemma {:induction false} RenameRefused(db: Db, from: Path, to: Path, w: u32, m: u32)
    requires Inv(db) && Sound(db) && !BadRename(db, from, to) && !CanRename(db, from, to)
    ensures Rename(db, from, to, w, m).0 == db && Rename(db, from, to, w, m).1.Err?
  {
    hide TreeInv, Lookup, PathVm, VmInv, Mirror, ContentInv, RemoveLeaf, AddLeaf, Bump, BackendWrite, IsLockDir, DifferentVm;
    FreshInode(db.tree);
    var t := db.tree;
    RootLookup(t);
    DirLookup(t, from);
    DirLookup(t, to);
    if from != [] && Lookup(t, from).Some? {
      LookupLinked(t, from, Lookup(t, from).value);
    }
    if to != [] {
      DirLookup(t, Dirname(to));
    }
  }

  lemma {:induction false} RootLookup(t: Tree)
    ensures Lookup(t, []) == Some(0)
  {
  }

  /** `Move` takes the tree from its own argument. */
  lemma {:induction false} MoveTreeArgument(db: Db, t: Tree, i: nat, d: nat, from: Path, to: Path, w: u32, m: u32, del: nat)
    requires 0 in t.index && to != [] && i != 0 && d in t.dirs
    ensures Move(db, t, i, d, from, to, w, m, del) == Move(db.(tree := t), t, i, d, from, to, w, m, del)
  {
    hide Bump, RemoveLeaf, AddLeaf, BackendWrite, PathVm;
  }
}
