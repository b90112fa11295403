/** Sequences of operations on a database, and the plain file system they implement. */
module Operations {
  import opened Bytes
  import opened MemTree
  import opened VmConfig
  import opened MemDb
  import Loader
  import Restart

  datatype Op =
    | MkdirOp(path: Path)
    | WriteOp(path: Path, data: seq<byte>, offset: nat, truncate: bool, create: bool)
    | TouchOp(path: Path)
    | DeleteOp(path: Path)
    | RenameOp(path: Path, to: Path)

  /** A request with the node and the time it carries. */
  datatype Request = Request(op: Op, writer: u32, mtime: u32)

  function Apply(db: Db, q: Request): (Db, Outcome)
    requires Sound(db)
  {
    match q.op
    case MkdirOp(path) => Mkdir(db, path, q.writer, q.mtime)
    case WriteOp(path, data, offset, truncate, create) => Pwrite(db, path, q.writer, q.mtime, data, offset, truncate, create)
    case TouchOp(path) => Mtime(db, path, q.writer, q.mtime)
    case DeleteOp(path) => Delete(db, path, q.writer, q.mtime)
    case RenameOp(from, to) => Rename(db, from, to, q.writer, q.mtime)
  }

  /** Requests that do not meet one of the branches in which an operation damages the database. */
  predicate Safe(db: Db, op: Op) {
    match op
    case MkdirOp(_) => true
    case WriteOp(path, data, offset, truncate, create) =>
      !(CanWrite(db, path, data, offset, create) && Hole(Contents(db.tree, path), data, offset))
    case TouchOp(_) => true
    case DeleteOp(path) => !(CanDelete(db.tree, path) && VmDirectory(db, path))
    case RenameOp(from, to) => !BadRename(db, from, to)
  }

  predicate CanonicalOp(op: Op) {
    op.RenameOp? ==> Canonical(op.to)
  }

  /** One request: the invariant is kept exactly by the safe ones; of those, a failed one changes
      nothing and a successful one raises the root version by one. */
  lemma {:induction false} ApplyInv(db: Db, q: Request)
    requires Inv(db) && CanonicalOp(q.op)
    ensures Sound(db)
    ensures var (db', r) := Apply(db, q);
            && (Inv(db') <==> Safe(db, q.op))
            && (Safe(db, q.op) ==> (r.Err? ==> db' == db) && (r.Ok? ==> RootAfter(db.tree, db'.tree, q.writer, q.mtime)))
  {
    hide Inv, Sound, Get, Mkdir, Pwrite, Mtime, Delete, Rename, BadRename, CanRename, CanWrite, CanDelete, Hole, VmDirectory, Moved, Changed;
    match q.op
    case MkdirOp(path) =>
      MkdirCorrect(db, path, q.writer, q.mtime);
      InvSound(db);
    case WriteOp(path, data, offset, truncate, create) =>
      PwriteCorrect(db, path, q.writer, q.mtime, data, offset, truncate, create);
    case TouchOp(path) =>
      MtimeCorrect(db, path, q.writer, q.mtime);
    case DeleteOp(path) =>
      DeleteCorrect(db, path, q.writer, q.mtime);
    case RenameOp(from, to) =>
      RenameCorrect(db, from, to, q.writer, q.mtime);
  }

  // ---------------------------------------------------------------------------------------
  // Runs
  // ---------------------------------------------------------------------------------------

  /** `dbs` are the states before and after each request. */
  ghost predicate RunStep(db: Db, q: Request, out: Outcome, db': Db) {
    CanonicalOp(q.op) && Safe(db, q.op) && Sound(db) && Apply(db, q) == (db', out)
  }

  ghost predicate IsRun(dbs: seq<Db>, qs: seq<Request>, outs: seq<Outcome>) {
    && |dbs| == |qs| + 1 && |outs| == |qs|
    && forall k :: 0 <= k < |qs| ==> RunStep(dbs[k], qs[k], outs[k], dbs[k + 1])
  }

  function Successes(outs: seq<Outcome>): nat {
    if outs == [] then 0 else Successes(outs[..|outs| - 1]) + if outs[|outs| - 1].Ok? then 1 else 0
  }

  /** Every state of a run is sound, and its version counts the successes before it. */
  lemma {:induction false} RunInv(dbs: seq<Db>, qs: seq<Request>, outs: seq<Outcome>, k: nat)
    requires IsRun(dbs, qs, outs) && Inv(dbs[0]) && k <= |qs|
    ensures Inv(dbs[k]) && 0 in dbs[0].tree.index && 0 in dbs[k].tree.index
    ensures Version(dbs[k].tree) == Version(dbs[0].tree) + Successes(outs[..k])
  {
    hide Apply, Safe, Inv, Sound;
    RootStored(dbs[0]);
    if k > 0 {
      RunInv(dbs, qs, outs, k - 1);
      assert RunStep(dbs[k - 1], qs[k - 1], outs[k - 1], dbs[k]);
      ApplyInv(dbs[k - 1], qs[k - 1]);
      RootStored(dbs[k]);
      assert outs[..k][..k - 1] == outs[..k - 1];
    } else {
      assert outs[..k] == [];
    }
  }

  lemma {:induction false} RootStored(db: Db)
    requires Inv(db)
    ensures 0 in db.tree.index
  {
  }

  /** At any moment of a run the table alone is enough to restore the tree. */
  lemma {:induction false} RestartInAnyRun(dbs: seq<Db>, qs: seq<Request>, outs: seq<Outcome>, k: nat, rows: seq<Loader.RawRow>)
    requires IsRun(dbs, qs, outs) && Inv(dbs[0]) && k <= |qs| && Restart.Lists(dbs[k].table, rows)
    ensures Loader.LoadTree(rows) == Some(dbs[k].tree)
  {
    hide RunStep, Inv, Restart.Lists, Loader.LoadTree;
    RunInv(dbs, qs, outs, k);
    Restart.RestartRoundTrip(dbs[k], rows);
  }

  // ---------------------------------------------------------------------------------------
  // The plain file system
  // ---------------------------------------------------------------------------------------

  datatype Node = Folder | File(bytes: seq<byte>)

  /** What a successful request means for a map from paths to nodes. */
  function FsAfter(fs: map<Path, Node>, op: Op): map<Path, Node> {
    match op
    case MkdirOp(path) => fs[path := Folder]
    case WriteOp(path, data, offset, truncate, create) =>
      var was := if path in fs && fs[path].File? then fs[path].bytes else [];
      fs[path := File(Written(was, data, offset, truncate))]
    case TouchOp(_) => fs
    case DeleteOp(path) => fs - {path}
    case RenameOp(from, to) => if from in fs then (fs - {from})[to := fs[from]] else fs
  }

  function FsRun(fs: map<Path, Node>, qs: seq<Request>, outs: seq<Outcome>): map<Path, Node>
    requires |qs| == |outs|
  {
    if qs == [] then fs else
      var n := |qs| - 1;
      var before := FsRun(fs, qs[..n], outs[..n]);
      if outs[n].Ok? then FsAfter(before, qs[n].op) else before
  }

  function NodeOf(e: Entry): Node {
    if e.kind.Dir? then Folder else File(e.data)
  }

  /** The path `p` is the same in both. */
  predicate SameAt(t: Tree, fs: map<Path, Node>, p: Path) {
    (p in fs <==> Get(t, p).Some?) && (p in fs ==> fs[p] == NodeOf(Get(t, p).value))
  }

  ghost predicate Represents(t: Tree, fs: map<Path, Node>) {
    forall p :: p != [] ==> SameAt(t, fs, p)
  }

  /** A successful safe request does to the paths what it does to the plain file system. */
  lemma {:induction false} ApplyRefines(db: Db, q: Request, fs: map<Path, Node>)
    requires Inv(db) && CanonicalOp(q.op) && Safe(db, q.op) && Represents(db.tree, fs)
    ensures Sound(db)
    ensures var (db', r) := Apply(db, q); Represents(db'.tree, if r.Ok? then FsAfter(fs, q.op) else fs)
  {
    hide Inv, Sound, Get, Mkdir, Pwrite, Mtime, Delete, Rename, Written, PathVm, DifferentVm, IsDirAt, NonEmptyDir;
    ApplyInv(db, q);
    var (db', r) := Apply(db, q);
    if r.Ok? {
      match q.op {
      case MkdirOp(path) => MkdirCorrect(db, path, q.writer, q.mtime);
      case WriteOp(path, data, offset, truncate, create) =>
        PwriteCorrect(db, path, q.writer, q.mtime, data, offset, truncate, create);
        assert SameAt(db.tree, fs, path);
      case TouchOp(path) =>
        MtimeCorrect(db, path, q.writer, q.mtime);
        assert SameAt(db.tree, fs, path);
      case DeleteOp(path) => DeleteCorrect(db, path, q.writer, q.mtime);
      case RenameOp(from, to) =>
        RenameCorrect(db, from, to, q.writer, q.mtime);
        assert SameAt(db.tree, fs, from);
      }
      forall p | p != []
        ensures SameAt(db'.tree, FsAfter(fs, q.op), p)
      {
        assert SameAt(db.tree, fs, p);
      }
    }
  }

  /** Over a whole run, the database is the plain file system that executed the successful
      requests. */
  lemma {:induction false} RunRefines(dbs: seq<Db>, qs: seq<Request>, outs: seq<Outcome>, fs: map<Path, Node>, k: nat)
    requires IsRun(dbs, qs, outs) && Inv(dbs[0]) && Represents(dbs[0].tree, fs) && k <= |qs|
    ensures Represents(dbs[k].tree, FsRun(fs, qs[..k], outs[..k]))
  {
    hide Represents, Apply, Safe, FsAfter, Inv, Sound;
    if k > 0 {
      RunRefines(dbs, qs, outs, fs, k - 1);
      RunInv(dbs, qs, outs, k - 1);
      assert RunStep(dbs[k - 1], qs[k - 1], outs[k - 1], dbs[k]);
      ApplyRefines(dbs[k - 1], qs[k - 1], FsRun(fs, qs[..k - 1], outs[..k - 1]));
      assert outs[..k][..k - 1] == outs[..k - 1] && qs[..k][..k - 1] == qs[..k - 1];
    }
  }
}
