/** When the operations of `memdb.c` succeed and which error they report, said of paths and files
    alone: without the inode table, the VM list or any other helper of the operations. */
module Outcomes {
  import opened Bytes
  import opened MemTree
  import opened VmConfig
  import opened MemDb

  // ---------------------------------------------------------------------------------------
  // The guards
  // ---------------------------------------------------------------------------------------

  /** There is something below the path. */
  ghost predicate HasEntries(t: Tree, p: Path) {
    exists n :: Get(t, p + [n]).Some?
  }

  predicate NoName(name: Name) {
    name == Ascii("") || name == Ascii(".") || name == Ascii("..")
  }

  /** A VM configuration file with the number of `p`, at another path, and not the one at `except`. */
  ghost predicate OtherVm(t: Tree, p: Path, except: Path) {
    exists q :: VmFile(t, q) && PathVm(p).Some? && PathVm(q).value.0 == PathVm(p).value.0 && q != p && q != except
  }

  function LocksPath(): Path {
    [Ascii("priv"), Ascii("lock")]
  }

  predicate BelowLocks(p: Path) {
    |p| > 2 && p[..2] == LocksPath()
  }

  lemma {:induction false} ReservedExact(name: Name)
    ensures Reserved(name) <==> NoName(name)
  {
    assert Ascii("") == [] && Ascii(".") == [46] && Ascii("..") == [46, 46];
  }

  lemma {:induction false} LockDirExact(p: Path)
    ensures IsLockDir(p) <==> BelowLocks(p)
    ensures p == [PRIV, LOCK] <==> p == LocksPath()
  {
    assert Ascii("priv") == PRIV && Ascii("lock") == LOCK;
  }

  /** The children of a directory are the paths one component longer. */
  lemma {:induction false} EmptyExact(t: Tree, p: Path)
    requires TreeInv(t) && Get(t, p).Some?
    ensures NonEmptyDir(t, Get(t, p).value.inode) <==> HasEntries(t, p)
  {
    hide TreeInv, Lookup, IsDirAt;
    DirLookup(t, p);
    var i := Get(t, p).value.inode;
    if NonEmptyDir(t, i) {
      var n :| n in t.dirs[i];
      assert Dirname(p + [n]) == p && Basename(p + [n]) == n;
      ChildLookup(t, p + [n], i);
    }
    if n :| Get(t, p + [n]).Some? {
      assert (p + [n])[..|p|] == p;
      ChildThere(t, p, n);
    }
  }

  lemma {:induction false} ChildThere(t: Tree, p: Path, n: Name)
    requires Get(t, p + [n]).Some?
    ensures Lookup(t, p).Some? && NonEmptyDir(t, Lookup(t, p).value)
  {
    assert (p + [n])[..|p|] == p;
  }

  /** The VM list is asked in place of the files. */
  lemma {:induction false} OtherVmExact(db: Db, p: Path)
    requires Inv(db) && PathVm(p).Some?
    ensures DifferentVm(db.vmlist, PathVm(p).value) <==> OtherVm(db.tree, p, p)
  {
    hide TreeInv, ContentInv, Mirror, PathVm, Get;
    var t, vm := db.tree, PathVm(p).value;
    if DifferentVm(db.vmlist, vm) {
      assert Backed(t, vm.0, db.vmlist[vm.0]);
      var q :| VmFile(t, q) && PathVm(q) == Some((vm.0, db.vmlist[vm.0]));
    }
    if q :| VmFile(t, q) && PathVm(q).value.0 == vm.0 && q != p {
      assert Listed(db.vmlist, PathVm(q).value);
      if PathVm(q) == PathVm(p) {
        PathVmInjective(q, p);
      }
    }
  }

  /** A file that has the number of the target itself is no obstacle. */
  lemma {:induction false} ObstacleExact(db: Db, to: Path, from: Path)
    requires Inv(db) && PathVm(to).Some? && FileAt(db.tree, from)
    ensures OtherVm(db.tree, to, from) <==>
            DifferentVm(db.vmlist, PathVm(to).value) && !(PathVm(from).Some? && PathVm(from).value.0 == PathVm(to).value.0)
  {
    hide TreeInv, ContentInv, Mirror, PathVm, Get, DifferentVm;
    OtherVmExact(db, to);
    if q :| VmFile(db.tree, q) && PathVm(q).value.0 == PathVm(to).value.0 && q != to && q != from {
      if PathVm(from).Some? && PathVm(from).value.0 == PathVm(to).value.0 {
        VmidsUnique(db.tree, db.vmlist, from, q);
      }
    }
  }

  // ---------------------------------------------------------------------------------------
  // The operations: the first condition that holds decides
  // ---------------------------------------------------------------------------------------

  lemma {:induction false} MkdirOutcome(db: Db, path: Path, w: u32, m: u32)
    requires Inv(db)
    ensures 0 in db.tree.index
    ensures Mkdir(db, path, w, m).1 ==
            var t := db.tree;
            if path == [] then Err(EACCES)
            else if Get(t, Dirname(path)).None? then Err(ENOENT)
            else if FileAt(t, Dirname(path)) then Err(ENOTDIR)
            else if NoName(Basename(path)) then Err(EACCES)
            else if Get(t, path).Some? then Err(EEXIST)
            else Ok(0)
  {
    hide TreeInv, Lookup, VmInv, Mirror, ContentInv, AddLeaf, Bump, BackendWrite, Get, Reserved, NoName;
    InvSound(db);
    RootPresent(db.tree);
    if path != [] {
      ReservedExact(Basename(path));
      DirLookup(db.tree, Dirname(path));
      if IsDirAt(db.tree, Dirname(path)) {
        ChildLookup(db.tree, path, Lookup(db.tree, Dirname(path)).value);
      }
    }
  }

  lemma {:induction false} PwriteOutcome(db: Db, path: Path, w: u32, m: u32, data: seq<byte>, offset: nat, truncate: bool, create: bool)
    requires Inv(db)
    ensures Sound(db)
    ensures Pwrite(db, path, w, m, data, offset, truncate, create).1 ==
            var t := db.tree;
            if offset + |data| > 1048576 then Err(EFBIG)
            else if path == [] then Err(EACCES)
            else if Get(t, Dirname(path)).None? then Err(ENOENT)
            else if FileAt(t, Dirname(path)) then Err(ENOTDIR)
            else if NoName(Basename(path)) then Err(EACCES)
            else if OtherVm(t, path, path) then Err(EEXIST)
            else if Get(t, path).None? then (if create then Ok(|data|) else Err(ENOENT))
            else if !FileAt(t, path) then Err(ENOTDIR)
            else if create then Err(EEXIST)
            else Ok(|data|)
  {
    hide TreeInv, Lookup, VmInv, Mirror, ContentInv, PathVm, Get, Reserved, NoName, PutFile, PwriteData, DifferentVm, VmFile;
    InvSound(db);
    if path != [] {
      ReservedExact(Basename(path));
      if PathVm(path).Some? {
        OtherVmExact(db, path);
      }
      DirLookup(db.tree, Dirname(path));
      if IsDirAt(db.tree, Dirname(path)) {
        ChildLookup(db.tree, path, Lookup(db.tree, Dirname(path)).value);
      }
    }
  }

  lemma {:induction false} MtimeOutcome(db: Db, path: Path, w: u32, m: u32)
    requires Inv(db)
    ensures Sound(db)
    ensures Mtime(db, path, w, m).1 ==
            var t := db.tree;
            if path == [] then Err(EACCES)
            else if Get(t, Dirname(path)).None? then Err(ENOENT)
            else if FileAt(t, Dirname(path)) then Err(ENOTDIR)
            else if NoName(Basename(path)) then Err(EACCES)
            else if Get(t, path).None? then Err(ENOENT)
            else if Dirname(path) == LocksPath() && IsDirAt(t, path)
                    && !(Get(t, path).value.mtime <= m && Get(t, path).value.writer == w) then Err(EACCES)
            else Ok(0)
  {
    hide TreeInv, Lookup, VmInv, Mirror, ContentInv, Bump, SetEntry, BackendWrite, Get, LocksPath, Reserved, NoName, IsLockDir, BelowLocks;
    InvSound(db);
    if path != [] {
      ReservedExact(Basename(path));
      LockDirExact(Dirname(path));
      DirLookup(db.tree, Dirname(path));
      if IsDirAt(db.tree, Dirname(path)) {
        ChildLookup(db.tree, path, Lookup(db.tree, Dirname(path)).value);
      }
    }
  }

  lemma {:induction false} DeleteOutcome(db: Db, path: Path, w: u32, m: u32)
    requires Inv(db)
    ensures Sound(db)
    ensures Delete(db, path, w, m).1 ==
            if Get(db.tree, path).None? then Err(ENOENT)
            else if path == [] then Err(EACCES)
            else if HasEntries(db.tree, path) then Err(ENOTEMPTY)
            else Ok(0)
  {
    hide TreeInv, Lookup, VmInv, Mirror, ContentInv, Bump, RemoveLeaf, BackendWrite, PathVm, Get, NonEmptyDir, HasEntries;
    InvSound(db);
    DirLookup(db.tree, path);
    if Get(db.tree, path).Some? {
      EmptyExact(db.tree, path);
    }
  }

  /** The checks of a rename, in the order in which they are made. */
  lemma {:induction false} RenameChecks(db: Db, from: Path, to: Path)
    requires Inv(db)
    ensures ReachesMove(db, from, to) <==>
            var t := db.tree;
            && Get(t, from).Some? && from != [] && !(FileAt(t, from) && OtherVm(t, to, from))
            && !(IsDirAt(t, from) && BelowLocks(from)) && to != []
            && (if Get(t, to).Some? then !HasEntries(t, to) else IsDirAt(t, Dirname(to)))
  {
    hide TreeInv, Lookup, PathVm, VmInv, Mirror, ContentInv, IsLockDir, DifferentVm, Get, HasEntries, NonEmptyDir, BelowLocks, VmFile;
    var t := db.tree;
    LockDirExact(from);
    if PathVm(to).Some? && FileAt(t, from) {
      ObstacleExact(db, to, from);
    }
    if Get(t, to).Some? {
      EmptyExact(t, to);
    }
  }

  /** A rename that does not break the database. */
  lemma {:induction false} RenameOutcome(db: Db, from: Path, to: Path, w: u32, m: u32)
    requires Inv(db) && Canonical(to) && !BadRename(db, from, to)
    ensures Sound(db)
    ensures Rename(db, from, to, w, m).1 ==
            var t := db.tree;
            if Get(t, from).None? then Err(ENOENT)
            else if from == [] then Err(EACCES)
            else if FileAt(t, from) && OtherVm(t, to, from) then Err(EEXIST)
            else if IsDirAt(t, from) && BelowLocks(from) then Err(EACCES)
            else if to == [] then Err(EACCES)
            else if Get(t, to).Some? && HasEntries(t, to) then Err(ENOTEMPTY)
            else if Get(t, to).None? && Get(t, Dirname(to)).None? then Err(ENOENT)
            else if Get(t, to).None? && FileAt(t, Dirname(to)) then Err(ENOTDIR)
            else if HasEntries(t, from) then Err(ENOTEMPTY)
            else Ok(0)
  {
    hide TreeInv, Lookup, PathVm, VmInv, Mirror, ContentInv, IsLockDir, DifferentVm, Get, HasEntries, OtherVm, NonEmptyDir, BelowLocks, Rename, ReachesMove, Moved, VmFile;
    var t := db.tree;
    RenameCorrect(db, from, to, w, m);
    RenameChecks(db, from, to);
    if Get(t, from).Some? {
      EmptyExact(t, from);
    }
    if CanRename(db, from, to) {
      OkIsZero(db, from, to, w, m);
    } else {
      RenameError(db, from, to, w, m);
    }
  }

  lemma {:induction false} OkIsZero(db: Db, from: Path, to: Path, w: u32, m: u32)
    requires Sound(db) && Rename(db, from, to, w, m).1.Ok?
    ensures Rename(db, from, to, w, m).1 == Ok(0)
  {
    hide Sound, Lookup, PathVm, RemoveLeaf, AddLeaf, Bump, BackendWrite, IsLockDir, DifferentVm, NonEmptyDir;
  }

  lemma {:induction false} RenameError(db: Db, from: Path, to: Path, w: u32, m: u32)
    requires Inv(db) && Sound(db) && !BadRename(db, from, to) && !CanRename(db, from, to)
    ensures Rename(db, from, to, w, m).1 ==
            var t := db.tree;
            if Get(t, from).None? then Err(ENOENT)
            else if from == [] then Err(EACCES)
            else if FileAt(t, from) && OtherVm(t, to, from) then Err(EEXIST)
            else if IsDirAt(t, from) && BelowLocks(from) then Err(EACCES)
            else if to == [] then Err(EACCES)
            else if Get(t, to).Some? then Err(ENOTEMPTY)
            else if Get(t, Dirname(to)).None? then Err(ENOENT)
            else if FileAt(t, Dirname(to)) then Err(ENOTDIR)
            else Err(ENOTEMPTY)
  {
    hide TreeInv, Lookup, PathVm, VmInv, Mirror, ContentInv, RemoveLeaf, AddLeaf, Bump, BackendWrite, IsLockDir, DifferentVm, OtherVm, NonEmptyDir, BelowLocks, VmFile, Sound;
    var t := db.tree;
    FreshInode(t);
    RootLookup(t);
    DirLookup(t, from);
    DirLookup(t, to);
    LockDirExact(from);
    NoVmNoObstacle(t, from, to);
    if PathVm(to).Some? && FileAt(t, from) {
      ObstacleExact(db, to, from);
    }
    if from != [] && Lookup(t, from).Some? {
      LookupLinked(t, from, Lookup(t, from).value);
    }
    if to != [] {
      DirLookup(t, Dirname(to));
    }
  }

  lemma {:induction false} NoVmNoObstacle(t: Tree, from: Path, to: Path)
    ensures OtherVm(t, to, from) ==> PathVm(to).Some?
  {
  }
}
