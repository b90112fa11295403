/** What the distributed database does with a delivered message (`dcdb_deliver`). */
module Dcdb {
  import opened Bytes
  import opened MemTree
  import opened VmConfig
  import opened MemDb
  import opened TreeIndex
  import opened Leader
  import opened Operations

  /** A file system message carries the time of the message, a touch the time it sets. */
  datatype AppMsg =
    | Fs(op: Op, time: u32)
    | Unlock(path: Path, csum: Digest, time: u32)
    | UnlockRequest(path: Path, csum: Digest)

  /** `memdb_tree_entry_csum` */
  function LockDigest(e: Entry): Digest {
    Sha256(LE(e.inode, 8) + DigestInput(e))
  }

  /** The message speaks of the lock directory that is there now. */
  predicate Current(t: Tree, path: Path, csum: Digest) {
    && Get(t, path).Some? && Get(t, path).value.kind.Dir? && IsLockDir(path)
    && LockDigest(Get(t, path).value) == csum
  }

  /** The database after a message; nothing is said about operations on what is no tree. */
  ghost function Deliver(db: Db, from: Member, m: AppMsg): Db {
    if !Sound(db) then db else
      match m
      case Fs(op, time) => Apply(db, Request(op, from.nodeid, time)).0
      case Unlock(path, csum, time) => if Current(db.tree, path, csum) then Delete(db, path, from.nodeid, time).0 else db
      case UnlockRequest(path, csum) => db
  }

  /** A message that has an effect raises the version of the database by one and stamps it with the
      node that sent it and the time in it, on every member alike. */
  lemma {:induction false} DeliverStamps(db: Db, from: Member, m: AppMsg)
    requires Inv(db) && (m.Fs? ==> CanonicalOp(m.op) && Safe(db, m.op))
    ensures 0 in db.tree.index
    ensures var db' := Deliver(db, from, m);
            || db' == db
            || (!m.UnlockRequest? && 0 in db'.tree.index && db'.tree.index[0] ==
                 db.tree.index[0].(version := Version(db.tree) + 1, writer := from.nodeid, mtime := m.time))
  {
    hide Inv, Sound, Apply, Delete, Safe, LockDigest, Get, CanDelete, Changed;
    RootStored(db);
    match m
    case Fs(op, time) => ApplyInv(db, Request(op, from.nodeid, time));
    case Unlock(path, csum, time) => DeleteCorrect(db, path, from.nodeid, time);
    case UnlockRequest(_, _) =>
  }

  // ---------------------------------------------------------------------------------------
  // What replication has to keep equal
  // ---------------------------------------------------------------------------------------

  /** Everything that operations look at; the table follows from it. */
  datatype Core = Core(tree: Tree, vmlist: map<int, VmInfo>, errors: bool)

  function CoreOf(db: Db): Core {
    Core(db.tree, db.vmlist, db.errors)
  }

  lemma {:induction false} SoundCore(a: Db, b: Db)
    requires CoreOf(a) == CoreOf(b)
    ensures Sound(a) <==> Sound(b)
  {
  }

  predicate SameEffect(x: (Db, Outcome), y: (Db, Outcome)) {
    CoreOf(x.0) == CoreOf(y.0) && x.1 == y.1
  }

  lemma {:induction false} MoveCore(a: Db, b: Db, t: Tree, i: nat, d: nat, from: Path, to: Path, w: u32, m: u32, del: nat)
    requires CoreOf(a) == CoreOf(b) && 0 in t.index && to != [] && i != 0 && d in t.dirs
    ensures SameEffect(Move(a, t, i, d, from, to, w, m, del), Move(b, t, i, d, from, to, w, m, del))
  {
    hide RemoveLeaf, AddLeaf, Bump, BackendWrite, PathVm, NonEmptyDir;
  }

  lemma {:induction false} TargetParent(t: Tree, to: Path, j: nat)
    requires TreeInv(t) && to != [] && Lookup(t, to) == Some(j)
    ensures j != 0 && j in t.index && t.index[j].parent in t.dirs && t.index[j].parent in RemoveLeaf(t, j).dirs && 0 in RemoveLeaf(t, j).index
  {
    hide TreeInv, Lookup;
    LookupInIndex(t, to, j);
    FreshInode(t);
    NoSelfParent(t, j);
  }

  lemma {:induction false} RenameCore(a: Db, b: Db, from: Path, to: Path, w: u32, m: u32)
    requires CoreOf(a) == CoreOf(b) && Sound(a) && Sound(b)
    ensures SameEffect(Rename(a, from, to, w, m), Rename(b, from, to, w, m))
  {
    hide TreeInv, Lookup, AddLeaf, Bump, BackendWrite, PathVm, NonEmptyDir, IsLockDir, Move;
    var t := a.tree;
    FreshInode(t);
    RootLookup(t);
    if from != [] && to != [] && Lookup(t, from).Some? {
      var i := Lookup(t, from).value;
      LookupInIndex(t, from, i);
      if Lookup(t, to).Some? {
        var j := Lookup(t, to).value;
        TargetParent(t, to, j);
        MoveCore(a, b, RemoveLeaf(t, j), i, t.index[j].parent, from, to, w, m, j);
      } else if Lookup(t, Dirname(to)).Some? && Lookup(t, Dirname(to)).value in t.dirs {
        MoveCore(a, b, t, i, Lookup(t, Dirname(to)).value, from, to, w, m, 0);
      }
    }
  }

  lemma {:induction false} ApplyCore(a: Db, b: Db, q: Request)
    requires CoreOf(a) == CoreOf(b) && Sound(a) && Sound(b)
    ensures SameEffect(Apply(a, q), Apply(b, q))
  {
    hide Sound, Lookup, RemoveLeaf, AddLeaf, SetEntry, Bump, BackendWrite, PathVm, NonEmptyDir, Rename, PwriteData, IsLockDir;
    match q.op
    case RenameOp(from, to) => RenameCore(a, b, from, to, q.writer, q.mtime);
    case _ =>
  }

  /** A message has the same effect on databases that differ in nothing but their tables. */
  lemma {:induction false} DeliverCore(a: Db, b: Db, from: Member, m: AppMsg)
    requires CoreOf(a) == CoreOf(b)
    ensures CoreOf(Deliver(a, from, m)) == CoreOf(Deliver(b, from, m))
  {
    hide Sound, Apply, Lookup, RemoveLeaf, Bump, BackendWrite, PathVm, NonEmptyDir, LockDigest;
    SoundCore(a, b);
    if Sound(a) {
      match m
      case Fs(op, time) => ApplyCore(a, b, Request(op, from.nodeid, time));
      case _ =>
    }
  }
}
