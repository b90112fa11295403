/** `memdb_recreate_vmlist`: the VM list by a full scan of the tree. */
module VmScan {
  import opened Bytes
  import opened MemTree
  import opened VmConfig
  import opened MemDb

  ghost predicate Covered(t: Tree, vmlist: map<int, VmInfo>, p: Path, dup: bool) {
    VmFile(t, p) && PathVm(p).value.0 in vmlist && (!dup ==> Listed(vmlist, PathVm(p).value))
  }

  ghost predicate From(seen: set<Path>, v: int, info: VmInfo) {
    exists p :: p in seen && PathVm(p) == Some((v, info))
  }

  /** `vmlist` is what a scan of the VM files `seen` yields; `dup` tells that a VMID came twice. */
  ghost predicate Scanned(t: Tree, vmlist: map<int, VmInfo>, seen: set<Path>, dup: bool) {
    && (forall p :: p in seen ==> Covered(t, vmlist, p, dup))
    && (forall v :: v in vmlist ==> From(seen, v, vmlist[v]))
    && (dup ==> exists p, q :: p in seen && q in seen && SameVmid(p, q) && p != q)
  }

  ghost predicate SameVmid(p: Path, q: Path) {
    PathVm(p).Some? && PathVm(q).Some? && PathVm(p).value.0 == PathVm(q).value.0
  }

  ghost predicate NoDuplicates(t: Tree) {
    forall p, q :: VmFile(t, p) && VmFile(t, q) && SameVmid(p, q) ==> p == q
  }

  /** Adding one VM file, as `vmlist_hash_insert_vm` without replacement does. */
  lemma {:induction false} ScanOne(t: Tree, vmlist: map<int, VmInfo>, seen: set<Path>, dup: bool, p: Path)
    requires Scanned(t, vmlist, seen, dup) && VmFile(t, p) && p !in seen
    ensures var vm := PathVm(p).value;
            if vm.0 in vmlist then Scanned(t, vmlist, seen + {p}, true)
            else Scanned(t, vmlist[vm.0 := vm.1], seen + {p}, dup)
  {
    hide PathVm, VmFile;
    VmFileHasPath(t, p);
    var vm := PathVm(p).value;
    if vm.0 in vmlist {
      assert From(seen, vm.0, vmlist[vm.0]);
      var q :| q in seen && PathVm(q) == Some((vm.0, vmlist[vm.0]));
      assert SameVmid(p, q);
      forall v | v in vmlist
        ensures From(seen + {p}, v, vmlist[v])
      {
        FromGrows(seen, p, v, vmlist[v]);
      }
    } else {
      var after := vmlist[vm.0 := vm.1];
      forall v | v in after
        ensures From(seen + {p}, v, after[v])
      {
        if v == vm.0 {
          assert p in seen + {p};
        } else {
          FromGrows(seen, p, v, vmlist[v]);
        }
      }
      forall q | q in seen + {p}
        ensures Covered(t, after, q, dup)
      {
        if q != p {
          assert Covered(t, vmlist, q, dup);
        }
      }
      if dup {
        var a, b :| a in seen && b in seen && SameVmid(a, b) && a != b;
        assert a in seen + {p} && b in seen + {p};
      }
    }
  }

  lemma {:induction false} VmFileHasPath(t: Tree, p: Path)
    requires VmFile(t, p)
    ensures PathVm(p).Some?
  {
  }

  lemma {:induction false} FromGrows(seen: set<Path>, p: Path, v: int, info: VmInfo)
    requires From(seen, v, info)
    ensures From(seen + {p}, v, info)
  {
    var q :| q in seen && PathVm(q) == Some((v, info));
    assert q in seen + {p};
  }

  /** The VM files of one directory. */
  ghost predicate InDir(t: Tree, dir: Path, p: Path) {
    p != [] && Dirname(p) == dir && VmFile(t, p)
  }

  lemma {:induction false} FileInDir(t: Tree, dir: Path, x: nat, name: Name)
    requires TreeInv(t) && Lookup(t, dir) == Some(x) && x in t.dirs && name in t.dirs[x] && DirVm(dir).Some?
    ensures t.dirs[x][name] in t.index
    ensures VmFile(t, dir + [name]) <==> t.index[t.dirs[x][name]].kind.Reg? && NameVmid(name).Some?
    ensures VmFile(t, dir + [name]) ==> PathVm(dir + [name]) == Some((NameVmid(name).value, DirVm(dir).value))
  {
    hide TreeInv, Lookup, DirVm, NameVmid;
    var p := dir + [name];
    assert Dirname(p) == dir && Basename(p) == name;
    ChildLookup(t, p, x);
  }

  lemma {:induction false} DirHasFile(t: Tree, dir: Path, x: nat, p: Path)
    requires TreeInv(t) && Lookup(t, dir) == Some(x) && x in t.dirs && InDir(t, dir, p)
    ensures Basename(p) in t.dirs[x] && p == dir + [Basename(p)]
  {
    hide TreeInv, Lookup, PathVm;
    ChildLookup(t, p, x);
  }

  /** `vmlist_add_dir` */
  method AddDir(t: Tree, dir: Path, x: nat, vms: map<int, VmInfo>, dups: bool, ghost seen0: set<Path>)
    returns (vmlist: map<int, VmInfo>, dup: bool, ghost seen: set<Path>)
    requires TreeInv(t) && Lookup(t, dir) == Some(x) && x in t.dirs && DirVm(dir).Some?
    requires Scanned(t, vms, seen0, dups) && forall p :: p in seen0 ==> !InDir(t, dir, p)
    ensures Scanned(t, vmlist, seen, dup)
    ensures forall p :: p in seen <==> p in seen0 || InDir(t, dir, p)
  {
    hide TreeInv, Lookup, DirVm, NameVmid, Scanned, PathVm, VmFile;
    var info := DirVm(dir).value;
    var todo := t.dirs[x].Keys;
    vmlist, dup, seen := vms, dups, seen0;
    forall p | InDir(t, dir, p)
      ensures Basename(p) in todo
    {
      DirHasFile(t, dir, x, p);
    }
    while todo != {}
      invariant todo <= t.dirs[x].Keys
      invariant Scanned(t, vmlist, seen, dup)
      invariant forall p :: p in seen <==> p in seen0 || (InDir(t, dir, p) && Basename(p) !in todo)
      decreases todo
    {
      var name :| name in todo;
      ghost var p := dir + [name];
      FileInDir(t, dir, x, name);
      assert Dirname(p) == dir && Basename(p) == name;
      var te := t.index[t.dirs[x][name]];
      var vmid := NameVmid(name);
      if te.kind.Reg? && vmid.Some? {
        ScanOne(t, vmlist, seen, dup, p);
        if vmid.value in vmlist {
          dup := true;
        } else {
          vmlist := vmlist[vmid.value := info];
        }
        seen := seen + {p};
      }
      forall q | InDir(t, dir, q) && Basename(q) == name
        ensures q == p
      {
        DirHasFile(t, dir, x, q);
      }
      todo := todo - {name};
    }
    forall p | InDir(t, dir, p)
      ensures p in seen
    {
      DirHasFile(t, dir, x, p);
    }
  }

  /** A file where the directory of a VM type of the node is expected. */
  predicate FileForDir(t: Tree, node: Name) {
    FileAt(t, [NODES, node, QEMU_SERVER]) || FileAt(t, [NODES, node, OPENVZ]) || FileAt(t, [NODES, node, LXC])
  }

  /** The tree has a node directory with such a file. */
  ghost predicate Misplaced(t: Tree) {
    exists node :: BadNode(t, node)
  }

  predicate BadNode(t: Tree, node: Name) {
    ValidNodeName(node) && IsDirAt(t, [NODES, node]) && FileForDir(t, node)
  }

  /** One of the three subdirectories of a node, if it is there; a file in its place is an error. */
  method AddSub(t: Tree, node: Name, x: nat, sub: Name, vms: map<int, VmInfo>, dups: bool, ghost seen0: set<Path>)
    returns (vmlist: map<int, VmInfo>, dup: bool, bad: bool, ghost seen: set<Path>)
    requires TreeInv(t) && Lookup(t, [NODES, node]) == Some(x) && x in t.dirs && DirVm([NODES, node, sub]).Some?
    requires Scanned(t, vms, seen0, dups) && forall p :: p in seen0 ==> !InDir(t, [NODES, node, sub], p)
    ensures Scanned(t, vmlist, seen, dup)
    ensures forall p :: p in seen <==> p in seen0 || InDir(t, [NODES, node, sub], p)
    ensures bad <==> FileAt(t, [NODES, node, sub])
  {
    hide TreeInv, Lookup, DirVm, Scanned, PathVm, VmFile;
    vmlist, dup, bad, seen := vms, dups, false, seen0;
    ghost var dir := [NODES, node, sub];
    assert Dirname(dir) == [NODES, node] && Basename(dir) == sub;
    ChildLookup(t, dir, x);
    DirLookup(t, dir);
    if sub in t.dirs[x] {
      if t.dirs[x][sub] in t.dirs {
        vmlist, dup, seen := AddDir(t, [NODES, node, sub], t.dirs[x][sub], vms, dups, seen0);
      } else {
        bad := true;
        NoFilesHere(t, dir);
      }
    } else {
      NoFilesHere(t, dir);
    }
  }

  lemma {:induction false} NoFilesHere(t: Tree, dir: Path)
    requires TreeInv(t) && !IsDirAt(t, dir)
    ensures forall p :: !InDir(t, dir, p)
  {
    hide TreeInv, Lookup, PathVm;
    forall p
      ensures !InDir(t, dir, p)
    {
      if p != [] && Get(t, p).Some? {
        ParentOfEntry(t, p);
      }
    }
  }

  /** A VM file lies in one of three directories of one node. */
  lemma {:induction false} VmFilePlace(t: Tree, p: Path)
    requires VmFile(t, p)
    ensures |p| == 4 && p[0] == NODES && ValidNodeName(p[1])
    ensures exists sub :: sub in {QEMU_SERVER, OPENVZ, LXC} && Dirname(p) == [NODES, p[1], sub] && InDir(t, [NODES, p[1], sub], p)
  {
    hide NameVmid, ValidNodeName, Get;
    var d := Dirname(p);
    assert d == [d[0], d[1], d[2]];
    assert InDir(t, [NODES, p[1], d[2]], p);
  }

  ghost predicate UnderNode(t: Tree, node: Name, p: Path) {
    VmFile(t, p) && |p| == 4 && p[1] == node
  }

  lemma {:induction false} NodeHasThree(t: Tree, node: Name, p: Path)
    ensures UnderNode(t, node, p) <==>
              InDir(t, [NODES, node, QEMU_SERVER], p) || InDir(t, [NODES, node, OPENVZ], p) || InDir(t, [NODES, node, LXC], p)
  {
    hide PathVm, VmFile;
    if VmFile(t, p) {
      VmFilePlace(t, p);
    }
  }

  method AddNode(t: Tree, node: Name, x: nat, vms: map<int, VmInfo>, dups: bool, ghost seen0: set<Path>)
    returns (vmlist: map<int, VmInfo>, dup: bool, bad: bool, ghost seen: set<Path>)
    requires TreeInv(t) && Lookup(t, [NODES, node]) == Some(x) && x in t.dirs && ValidNodeName(node)
    requires Scanned(t, vms, seen0, dups) && forall p :: p in seen0 ==> !UnderNode(t, node, p)
    ensures Scanned(t, vmlist, seen, dup)
    ensures forall p :: p in seen <==> p in seen0 || UnderNode(t, node, p)
    ensures bad <==> FileForDir(t, node)
  {
    hide TreeInv, Lookup, Scanned, PathVm, VmFile, ValidNodeName;
    forall p
      ensures UnderNode(t, node, p) <==>
                InDir(t, [NODES, node, QEMU_SERVER], p) || InDir(t, [NODES, node, OPENVZ], p) || InDir(t, [NODES, node, LXC], p)
    {
      NodeHasThree(t, node, p);
    }
    var b1, b2, b3;
    ghost var s1, s2;
    vmlist, dup, b1, s1 := AddSub(t, node, x, QEMU_SERVER, vms, dups, seen0);
    DirsDiffer(t, node);
    vmlist, dup, b2, s2 := AddSub(t, node, x, OPENVZ, vmlist, dup, s1);
    vmlist, dup, b3, seen := AddSub(t, node, x, LXC, vmlist, dup, s2);
    bad := b1 || b2 || b3;
  }

  lemma {:induction false} DirsDiffer(t: Tree, node: Name)
    ensures forall p :: InDir(t, [NODES, node, QEMU_SERVER], p) ==> !InDir(t, [NODES, node, OPENVZ], p) && !InDir(t, [NODES, node, LXC], p)
    ensures forall p :: InDir(t, [NODES, node, OPENVZ], p) ==> !InDir(t, [NODES, node, LXC], p)
  {
    hide VmFile;
    assert [NODES, node, QEMU_SERVER][2] != [NODES, node, OPENVZ][2];
    assert [NODES, node, QEMU_SERVER][2] != [NODES, node, LXC][2];
    assert [NODES, node, OPENVZ][2] != [NODES, node, LXC][2];
  }

  /** The scan. Without a directory `nodes` the list `vms` in use is left alone; otherwise the new
      list is the right one whenever no VMID occurs twice, and a scan that reports success has
      found none twice and no file in the place of a directory. */
  method Recreate(t: Tree, vms: map<int, VmInfo>) returns (vmlist: map<int, VmInfo>, ok: bool)
    requires TreeInv(t)
    ensures !IsDirAt(t, [NODES]) ==> vmlist == vms && ok
    ensures IsDirAt(t, [NODES]) && NoDuplicates(t) ==> VmInv(t, vmlist)
    ensures IsDirAt(t, [NODES]) ==> (ok <==> NoDuplicates(t) && !Misplaced(t))
  {
    hide TreeInv, Lookup, PathVm, VmFile, ValidNodeName, Scanned;
    DirLookup(t, [NODES]);
    var te := Lookup(t, [NODES]);
    if te.None? || te.value !in t.dirs {
      return vms, true;
    }
    var x, todo := te.value, t.dirs[te.value].Keys;
    var dup, bad, b := false, false, false;
    ghost var seen: set<Path> := {};
    vmlist, ok := map[], true;
    assert Scanned(t, vmlist, seen, dup) by { NothingScanned(t); }
    while todo != {}
      invariant todo <= t.dirs[x].Keys
      invariant Scanned(t, vmlist, seen, dup)
      invariant forall p :: p in seen <==> VmFile(t, p) && |p| == 4 && p[1] in t.dirs[x].Keys - todo
      invariant bad <==> exists node :: node in t.dirs[x].Keys - todo && BadNode(t, node)
      decreases todo
    {
      var name :| name in todo;
      assert Dirname([NODES, name]) == [NODES] && Basename([NODES, name]) == name;
      ChildLookup(t, [NODES, name], x);
      DirLookup(t, [NODES, name]);
      var c := t.dirs[x][name];
      if c in t.dirs && ValidNodeName(name) {
        vmlist, dup, b, seen := AddNode(t, name, c, vmlist, dup, seen);
        bad := bad || b;
        assert b <==> BadNode(t, name);
      } else {
        NodeWithoutFiles(t, name);
      }
      todo := todo - {name};
      forall p
        ensures p in seen <==> VmFile(t, p) && |p| == 4 && p[1] in t.dirs[x].Keys - todo
      {
        assert UnderNode(t, name, p) <==> VmFile(t, p) && |p| == 4 && p[1] == name;
      }
    }
    forall p | VmFile(t, p)
      ensures p in seen
    {
      NodeListed(t, x, p);
    }
    forall node | BadNode(t, node)
      ensures node in t.dirs[x]
    {
      BadNodeListed(t, x, node);
    }
    ok := !dup && !bad;
    ScanDone(t, vmlist, seen, dup);
  }

  lemma {:induction false} NothingScanned(t: Tree)
    ensures Scanned(t, map[], {}, false)
  {
  }

  lemma {:induction false} NodeWithoutFiles(t: Tree, node: Name)
    requires TreeInv(t) && (!IsDirAt(t, [NODES, node]) || !ValidNodeName(node))
    ensures forall p :: !UnderNode(t, node, p)
  {
    hide TreeInv, Lookup, PathVm, ValidNodeName, Get;
    forall p
      ensures !UnderNode(t, node, p)
    {
      if VmFile(t, p) {
        VmFilePlace(t, p);
        ParentOfEntry(t, p);
        ParentOfEntry(t, Dirname(p));
        assert Dirname(Dirname(p)) == [NODES, p[1]];
      }
    }
  }

  lemma {:induction false} NodeListed(t: Tree, x: nat, p: Path)
    requires TreeInv(t) && Lookup(t, [NODES]) == Some(x) && x in t.dirs && VmFile(t, p)
    ensures |p| == 4 && p[1] in t.dirs[x]
  {
    hide TreeInv, Lookup, PathVm, ValidNodeName;
    VmFilePlace(t, p);
    ParentOfEntry(t, p);
    ParentOfEntry(t, Dirname(p));
    var q := [NODES, p[1]];
    assert Dirname(Dirname(p)) == q && Dirname(q) == [NODES] && Basename(q) == p[1];
    ChildLookup(t, q, x);
  }

  lemma {:induction false} BadNodeListed(t: Tree, x: nat, node: Name)
    requires TreeInv(t) && Lookup(t, [NODES]) == Some(x) && x in t.dirs && BadNode(t, node)
    ensures node in t.dirs[x]
  {
    hide TreeInv, Lookup, ValidNodeName;
    var q := [NODES, node];
    assert Dirname(q) == [NODES] && Basename(q) == node;
    ChildLookup(t, q, x);
  }

  lemma {:induction false} ScanDone(t: Tree, vmlist: map<int, VmInfo>, seen: set<Path>, dup: bool)
    requires Scanned(t, vmlist, seen, dup) && forall p :: p in seen <==> VmFile(t, p)
    ensures NoDuplicates(t) ==> VmInv(t, vmlist)
    ensures dup <==> !NoDuplicates(t)
  {
    hide PathVm, Get;
    if !dup {
      forall p, q | VmFile(t, p) && VmFile(t, q) && SameVmid(p, q)
        ensures p == q
      {
        assert Covered(t, vmlist, p, dup) && Covered(t, vmlist, q, dup);
        PathVmInjective(p, q);
      }
    }
    forall p | !dup && VmFile(t, p)
      ensures Listed(vmlist, PathVm(p).value)
    {
      assert Covered(t, vmlist, p, dup);
    }
    forall v | v in vmlist
      ensures Backed(t, v, vmlist[v])
    {
      assert From(seen, v, vmlist[v]);
      var p :| p in seen && PathVm(p) == Some((v, vmlist[v]));
      assert VmFile(t, p);
    }
  }

  /** Incremental maintenance and scan agree: on a tree whose list is right, a scan that finds the
      directory `nodes` returns that very list. */
  lemma {:induction false} VmInvNoDuplicates(t: Tree, vmlist: map<int, VmInfo>)
    requires VmInv(t, vmlist)
    ensures NoDuplicates(t)
    ensures forall other :: VmInv(t, other) ==> other == vmlist
  {
    hide PathVm, VmFile, VmInv;
    forall p, q | VmFile(t, p) && VmFile(t, q) && SameVmid(p, q)
      ensures p == q
    {
      VmidsUnique(t, vmlist, p, q);
    }
    forall other | VmInv(t, other)
      ensures other == vmlist
    {
      VmListUnique(t, other, vmlist);
    }
  }
}
