/** Locks: directories below `priv/lock` that any member may ask to have removed once their
    checksum has been on record for two minutes (`memdb_lock_expired`, the unlock messages of
    `dcdb_deliver`). */
module Locks {
  import opened Bytes
  import opened MemTree
  import opened VmConfig
  import opened MemDb
  import opened TreeIndex
  import opened Leader
  import opened Operations
  import opened Outcomes
  import opened Dcdb

  const LOCK_TIMEOUT: nat := 120

  const SLASH: byte := 47

  /** Since when a checksum is on record, in the local time of this member. */
  datatype LockInfo = LockInfo(ltime: u32, csum: Digest)

  /** The keys are paths as text. */
  type LockTable = map<seq<byte>, LockInfo>

  // ---------------------------------------------------------------------------------------
  // Paths as text
  // ---------------------------------------------------------------------------------------

  function Text(p: Path): seq<byte> {
    if p == [] then [] else if |p| == 1 then p[0] else p[0] + [SLASH] + Text(p[1..])
  }

  predicate NoSlash(name: Name) {
    SLASH !in name
  }

  predicate Textual(p: Path) {
    p != [] && forall k :: 0 <= k < |p| ==> NoSlash(p[k])
  }

  lemma {:induction false} FirstSlash(a: Name, b: Name, s: seq<byte>, t: seq<byte>)
    requires NoSlash(a) && NoSlash(b) && a + [SLASH] + s == b + [SLASH] + t
    ensures a == b && s == t
  {
    var u := a + [SLASH] + s;
    assert u[|a|] == SLASH && u[|b|] == SLASH;
    assert a == u[..|a|] && b == u[..|b|] && s == u[|a| + 1..] && t == u[|b| + 1..];
  }

  lemma {:induction false} SlashInside(a: Name, s: seq<byte>)
    ensures !NoSlash(a + [SLASH] + s)
  {
    assert (a + [SLASH] + s)[|a|] == SLASH;
  }

  /** Different paths have different texts. */
  lemma {:induction false} TextInjective(p: Path, q: Path)
    requires Textual(p) && Textual(q) && Text(p) == Text(q)
    ensures p == q
  {
    if |p| > 1 {
      SlashInside(p[0], Text(p[1..]));
    }
    if |q| > 1 {
      SlashInside(q[0], Text(q[1..]));
    }
    if |p| > 1 && |q| > 1 {
      FirstSlash(p[0], q[0], Text(p[1..]), Text(q[1..]));
      TextInjective(p[1..], q[1..]);
      assert p == [p[0]] + p[1..] && q == [q[0]] + q[1..];
    }
  }

  function LockPath(name: Name): (p: Path)
    ensures |p| == 3 && p[2] == name
  {
    [PRIV, LOCK, name]
  }

  /** `priv/lock/` followed by the name. */
  function LockKey(name: Name): (key: seq<byte>)
    ensures key == Text(LockPath(name)) && SLASH in key && |key| > |name|
  {
    assert LockPath(name)[1..] == [LOCK, name] && [LOCK, name][1..] == [name];
    assert Text([name]) == name && Text([LOCK, name]) == LOCK + [SLASH] + name;
    var key := PRIV + [SLASH] + (LOCK + [SLASH] + name);
    assert key[4] == SLASH;
    key
  }

  lemma {:induction false} KeyText(name: Name)
    ensures LockKey(name) == Ascii("priv/lock/") + name
  {
    assert Ascii("priv/lock/") == PRIV + [SLASH] + LOCK + [SLASH];
  }

  lemma {:induction false} LockKeyInjective(a: Name, b: Name)
    ensures LockKey(a) == LockKey(b) ==> a == b
  {
    assert LockKey(a)[10..] == a && LockKey(b)[10..] == b;
  }

  // ---------------------------------------------------------------------------------------
  // The record of one member
  // ---------------------------------------------------------------------------------------

  /** `memdb_lock_expired` */
  function CheckLock(locks: LockTable, key: seq<byte>, csum: Digest, now: u32): (LockTable, bool) {
    if key in locks && locks[key].csum == csum then
      (locks, now > locks[key].ltime && now - locks[key].ltime > LOCK_TIMEOUT)
    else (locks[key := LockInfo(now, csum)], false)
  }

  /** A check says yes exactly if the checksum has been on record for more than 120 seconds. If it
      is not on record, it is as of now; nothing is done to other keys. */
  lemma {:induction false} CheckExact(locks: LockTable, key: seq<byte>, csum: Digest, now: u32)
    ensures var (after, expired) := CheckLock(locks, key, csum, now);
            var known := key in locks && locks[key].csum == csum;
            && (expired <==> known && now > locks[key].ltime + 120)
            && key in after && after[key].csum == csum && after[key].ltime == (if known then locks[key].ltime else now)
            && after - {key} == locks - {key}
  {
    var after := CheckLock(locks, key, csum, now).0;
    assert after - {key} == locks - {key};
  }

  /** A lock that has been touched starts a new record. */
  function RenewLock(locks: LockTable, key: seq<byte>, csum: Digest, now: u32): LockTable {
    CheckLock(locks - {key}, key, csum, now).0
  }

  predicate IsLock(t: Tree, x: nat, name: Name)
    requires x in t.dirs
  {
    name in t.dirs[x] && t.dirs[x][name] in t.index && t.index[t.dirs[x][name]].kind.Dir?
  }

  function LockEntry(t: Tree, x: nat, name: Name): Entry
    requires x in t.dirs && IsLock(t, x, name)
  {
    t.index[t.dirs[x][name]]
  }

  /** The time of a new record: it is taken over where the table under construction has the bare
      name for a key, with the same checksum. */
  function TimeOf(table: LockTable, name: Name, csum: Digest, now: u32): u32 {
    if name in table && table[name].csum == csum then table[name].ltime else now
  }

  function AddLock(table: LockTable, t: Tree, x: nat, name: Name, now: u32): LockTable
    requires x in t.dirs
  {
    if !IsLock(t, x, name) then table
    else
      var csum := LockDigest(LockEntry(t, x, name));
      table[LockKey(name) := LockInfo(TimeOf(table, name, csum, now), csum)]
  }

  /** The loop of `memdb_update_locks` over the names in some order, with what the clock shows. */
  function LocksBelow(t: Tree, x: nat, order: seq<Name>, clock: seq<u32>): LockTable
    requires x in t.dirs && |clock| == |order|
  {
    if order == [] then map[]
    else
      var n := |order| - 1;
      AddLock(LocksBelow(t, x, order[..n], clock[..n]), t, x, order[n], clock[n])
  }

  function ReloadLocks(locks: LockTable, t: Tree, order: seq<Name>, clock: seq<u32>): LockTable
    requires |clock| == |order|
  {
    match Lookup(t, [PRIV, LOCK])
    case None => locks
    case Some(x) => if x !in t.dirs then locks else LocksBelow(t, x, order, clock)
  }

  // ---------------------------------------------------------------------------------------
  // A reload starts all locks anew
  // ---------------------------------------------------------------------------------------

  predicate NoneTwice(order: seq<Name>) {
    forall k, l :: 0 <= k < l < |order| ==> order[k] != order[l]
  }

  /** The keys of the new table. */
  lemma {:induction false} BelowKeys(t: Tree, x: nat, order: seq<Name>, clock: seq<u32>, key: seq<byte>)
    requires x in t.dirs && |clock| == |order|
    ensures key in LocksBelow(t, x, order, clock) <==> exists k :: 0 <= k < |order| && IsLock(t, x, order[k]) && key == LockKey(order[k])
  {
    hide LockKey, LockDigest, IsLock;
    if order != [] {
      var n := |order| - 1;
      BelowKeys(t, x, order[..n], clock[..n], key);
      if key in LocksBelow(t, x, order[..n], clock[..n]) {
        var k :| 0 <= k < n && IsLock(t, x, order[..n][k]) && key == LockKey(order[..n][k]);
        assert order[k] == order[..n][k];
      }
      if k :| 0 <= k < |order| && IsLock(t, x, order[k]) && key == LockKey(order[k]) {
        assert k < n ==> order[..n][k] == order[k];
      }
    }
  }

  /** The record that the `k`-th name gets. */
  lemma {:induction false} BelowIs(t: Tree, x: nat, order: seq<Name>, clock: seq<u32>, k: nat)
    requires x in t.dirs && |clock| == |order| && NoneTwice(order) && k < |order| && IsLock(t, x, order[k])
    ensures var table := LocksBelow(t, x, order, clock); var csum := LockDigest(LockEntry(t, x, order[k]));
            LockKey(order[k]) in table && table[LockKey(order[k])] == LockInfo(TimeOf(LocksBelow(t, x, order[..k], clock[..k]), order[k], csum, clock[k]), csum)
    decreases |order|
  {
    hide LockDigest, IsLock, LockKey, TimeOf;
    var n := |order| - 1;
    if k < n {
      LockKeyInjective(order[k], order[n]);
      BelowIs(t, x, order[..n], clock[..n], k);
      assert order[..n][..k] == order[..k] && clock[..n][..k] == clock[..k];
    }
  }

  /** A time is taken over exactly if the bare name is the key of another lock, with the same
      checksum. A name without a slash is no such key, so its time is what the clock shows. */
  lemma {:induction false} CarriedExact(t: Tree, x: nat, order: seq<Name>, clock: seq<u32>, k: nat)
    requires x in t.dirs && |clock| == |order| && NoneTwice(order) && k < |order| && IsLock(t, x, order[k])
    ensures var table := LocksBelow(t, x, order[..k], clock[..k]);
            order[k] in table <==> exists j :: 0 <= j < k && IsLock(t, x, order[j]) && order[k] == LockKey(order[j])
    ensures NoSlash(order[k]) ==>
              LockKey(order[k]) in LocksBelow(t, x, order, clock) && LocksBelow(t, x, order, clock)[LockKey(order[k])].ltime == clock[k]
  {
    hide LockDigest, IsLock, LocksBelow;
    BelowIs(t, x, order, clock, k);
    BelowKeys(t, x, order[..k], clock[..k], order[k]);
    if j :| 0 <= j < k && IsLock(t, x, order[j]) && order[k] == LockKey(order[j]) {
      assert order[..k][j] == order[j];
    }
  }

  /** A checksum is never on record for two names, so no time is taken over whatever the names. */
  lemma {:induction false} NeverCarried(t: Tree, x: nat, order: seq<Name>, clock: seq<u32>, k: nat)
    requires x in t.dirs && |clock| == |order| && NoneTwice(order) && k < |order| && IsLock(t, x, order[k]) && Exchangeable(t)
    ensures LockKey(order[k]) in LocksBelow(t, x, order, clock)
    ensures LocksBelow(t, x, order, clock)[LockKey(order[k])] == LockInfo(clock[k], LockDigest(LockEntry(t, x, order[k])))
  {
    hide LockDigest, LocksBelow, Exchangeable;
    BelowIs(t, x, order, clock, k);
    var name := order[k];
    var table := LocksBelow(t, x, order[..k], clock[..k]);
    if name in table && table[name].csum == LockDigest(LockEntry(t, x, name)) {
      BelowKeys(t, x, order[..k], clock[..k], name);
      var j :| 0 <= j < k && IsLock(t, x, order[..k][j]) && name == LockKey(order[..k][j]);
      BelowIs(t, x, order[..k], clock[..k], j);
      LockNames(t, x, name, order[..k][j]);
    }
  }

  lemma {:induction false} LockNames(t: Tree, x: nat, a: Name, b: Name)
    requires x in t.dirs && IsLock(t, x, a) && IsLock(t, x, b) && Exchangeable(t) && LockDigest(LockEntry(t, x, a)) == LockDigest(LockEntry(t, x, b))
    ensures a == b
  {
    hide LockDigest, Reachable, WellStored, Pow256;
    var i, j := t.dirs[x][a], t.dirs[x][b];
    assert ChildOk(t, x, a) && ChildOk(t, x, b);
    EntryFits(t, i);
    EntryFits(t, j);
    assert EntryOk(t, i) && EntryOk(t, j);
    LockDigestInjective(t.index[i], t.index[j]);
  }

  // ---------------------------------------------------------------------------------------
  // Incarnations
  // ---------------------------------------------------------------------------------------

  /** The checksum of a lock identifies its entry. */
  lemma {:induction false} LockDigestInjective(e: Entry, f: Entry)
    requires LockDigest(e) == LockDigest(f) && WellStored(e) && WellStored(f)
    requires Fits64(e.inode) && Fits64(f.inode) && Fits64(e.version) && Fits64(f.version) && Fits64(e.parent) && Fits64(f.parent)
    ensures e == f
  {
    hide DigestInput, WellStored, LE;
    var a, b := LE(e.inode, 8) + DigestInput(e), LE(f.inode, 8) + DigestInput(f);
    assert a[..8] == LE(e.inode, 8) && b[..8] == LE(f.inode, 8);
    assert a[8..] == DigestInput(e) && b[8..] == DigestInput(f);
    LEInjective(e.inode, f.inode, 8);
    DigestInputInjective(e, f);
  }

  /** What one operation can do to a path. */
  lemma {:induction false} PathStep(db: Db, q: Request, path: Path)
    requires Inv(db) && CanonicalOp(q.op) && Safe(db, q.op) && path != []
    ensures Sound(db) && 0 in db.tree.index
    ensures var (db', r) := Apply(db, q);
            || Get(db'.tree, path) == Get(db.tree, path) || Get(db'.tree, path).None?
            || Get(db'.tree, path).value.version == Version(db.tree) + 1
  {
    hide Inv, Sound, Get, Mkdir, Pwrite, Mtime, Delete, Rename, Written, PathVm, DifferentVm, NonEmptyDir;
    ApplyInv(db, q);
    RootStored(db);
    var (db', r) := Apply(db, q);
    if r.Ok? {
      match q.op
      case MkdirOp(p) =>
        MkdirCorrect(db, p, q.writer, q.mtime);
        assert Changed(db.tree, db'.tree, p, Some(NewEntry(db.tree, p, q.writer, q.mtime, Dir, [])));
      case WriteOp(p, data, offset, truncate, create) =>
        PwriteCorrect(db, p, q.writer, q.mtime, data, offset, truncate, create);
        assert Changed(db.tree, db'.tree, p, Some(WrittenEntry(db.tree, p, q.writer, q.mtime, Written(Contents(db.tree, p), data, offset, truncate))));
      case TouchOp(p) =>
        MtimeCorrect(db, p, q.writer, q.mtime);
        assert Changed(db.tree, db'.tree, p, Some(Get(db.tree, p).value.(version := Version(db.tree) + 1, writer := q.writer, mtime := q.mtime)));
      case DeleteOp(p) =>
        DeleteCorrect(db, p, q.writer, q.mtime);
        assert Changed(db.tree, db'.tree, p, None);
      case RenameOp(from, to) =>
        RenameCorrect(db, from, to, q.writer, q.mtime);
        assert Moved(db.tree, db'.tree, from, to, MovedEntry(db.tree, from, to, q.writer, q.mtime));
    }
  }

  /** Databases in a row: each is the one before, or what a safe request makes of it. */
  ghost predicate DbRun(dbs: seq<Db>) {
    dbs != [] && forall l :: 0 < l < |dbs| ==> DbStep(dbs[l - 1], dbs[l])
  }

  ghost predicate DbStep(db: Db, db': Db) {
    db' == db || exists q, out :: RunStep(db, q, out, db')
  }

  lemma {:induction false} DbStepKeeps(db: Db, db': Db, path: Path)
    requires Inv(db) && DbStep(db, db') && path != []
    ensures Inv(db') && 0 in db.tree.index && 0 in db'.tree.index && Version(db.tree) <= Version(db'.tree)
    ensures || Get(db'.tree, path) == Get(db.tree, path) || Get(db'.tree, path).None?
            || Get(db'.tree, path).value.version == Version(db.tree) + 1
  {
    hide Inv, Get, Apply, Safe, Sound;
    RootStored(db);
    if db' != db {
      var q, out :| RunStep(db, q, out, db');
      ApplyInv(db, q);
      PathStep(db, q, path);
      RootStored(db');
      RootIs(db, db', q, out);
    }
  }

  lemma {:induction false} RootIs(db: Db, db': Db, q: Request, out: Outcome)
    requires Inv(db) && RunStep(db, q, out, db') && 0 in db.tree.index && 0 in db'.tree.index
    ensures Version(db.tree) <= Version(db'.tree)
  {
    hide Inv, Apply, Safe, Sound;
    ApplyInv(db, q);
  }

  /** From state `k` of a run on, the path has its old entry unchanged, or none, or a newer one. */
  lemma {:induction false} EntryOrNewer(dbs: seq<Db>, k: nat, m: nat, path: Path, e: Entry)
    requires DbRun(dbs) && k <= m < |dbs| && Inv(dbs[k]) && path != [] && Get(dbs[k].tree, path) == Some(e)
    ensures Inv(dbs[m]) && 0 in dbs[k].tree.index && 0 in dbs[m].tree.index && Version(dbs[k].tree) <= Version(dbs[m].tree)
    ensures var x := Get(dbs[m].tree, path);
            || (forall l :: k <= l <= m ==> Get(dbs[l].tree, path) == Some(e))
            || x.None? || x.value.version > Version(dbs[k].tree)
    decreases m
  {
    hide Inv, Get, DbStep;
    RootStored(dbs[k]);
    if m > k {
      EntryOrNewer(dbs, k, m - 1, path, e);
      DbStepKeeps(dbs[m - 1], dbs[m], path);
    }
  }

  lemma {:induction false} EntryVersion(db: Db, path: Path)
    requires Inv(db) && Get(db.tree, path).Some? && Fits64(Version(db.tree))
    ensures var e := Get(db.tree, path).value;
            e.version <= Version(db.tree) && WellStored(e) && Fits64(e.inode) && Fits64(e.version) && Fits64(e.parent)
  {
    hide Mirror, VmInv, Reachable, Lookup, Pow256, WellStored;
    var i := Lookup(db.tree, path).value;
    LookupInIndex(db.tree, path, i);
    assert Exchangeable(db.tree);
    EntryFits(db.tree, i);
  }

  /** If the lock of state `k` has the checksum of the lock of state `m`, it was there all the
      time between, neither renewed nor removed and created again. */
  lemma {:induction false} SameIncarnation(dbs: seq<Db>, k: nat, m: nat, path: Path, csum: Digest)
    requires DbRun(dbs) && k <= m < |dbs| && Inv(dbs[k]) && path != [] && 0 in dbs[m].tree.index && Fits64(Version(dbs[m].tree))
    requires Current(dbs[k].tree, path, csum) && Current(dbs[m].tree, path, csum)
    ensures forall l :: k <= l <= m ==> Get(dbs[l].tree, path) == Get(dbs[m].tree, path)
  {
    hide Inv, Get, LockDigest, DbStep, Pow256;
    var e := Get(dbs[k].tree, path).value;
    EntryOrNewer(dbs, k, m, path, e);
    EntryVersion(dbs[m], path);
    EntryVersion(dbs[k], path);
    LockDigestInjective(Get(dbs[m].tree, path).value, e);
  }

  /** Stale unlocks are harmless. A member has seen the lock `e` in state `k` of the database; the
      unlock message arrives in state `m`. If it takes effect, the lock is `e` still and has been
      all the time. If anything has happened to it, the message changes nothing. */
  lemma {:induction false} UnlockHitsIncarnation(dbs: seq<Db>, k: nat, m: nat, path: Path, csum: Digest, from: Member, time: u32)
    requires DbRun(dbs) && k <= m < |dbs| && Inv(dbs[k]) && path != [] && 0 in dbs[m].tree.index && Fits64(Version(dbs[m].tree))
    requires Current(dbs[k].tree, path, csum)
    ensures || Deliver(dbs[m], from, Unlock(path, csum, time)) == dbs[m]
            || (forall l :: k <= l <= m ==> Get(dbs[l].tree, path) == Get(dbs[m].tree, path))
  {
    hide Inv, Get, LockDigest, DbStep, Delete, Sound;
    if Current(dbs[m].tree, path, csum) {
      SameIncarnation(dbs, k, m, path, csum);
    }
  }

  // ---------------------------------------------------------------------------------------
  // The database and the record together
  // ---------------------------------------------------------------------------------------

  datatype Moment = Moment(db: Db, locks: LockTable)

  /** `Ask`: a request to unlock is delivered; the member looks at its record if the checksum is
      that of the lock. */
  datatype Act = Operate(q: Request, now: u32) | Ask(path: Path, csum: Digest, now: u32)

  predicate IsLockPath(p: Path) {
    |p| == 3 && p[0] == PRIV && p[1] == LOCK
  }

  predicate DirAt(t: Tree, p: Path) {
    Get(t, p).Some? && Get(t, p).value.kind.Dir?
  }

  /** What a request that has succeeded does to the record: a lock that is made or touched is on
      record as of now, a directory that is removed no longer. */
  function LocksAfter(locks: LockTable, t: Tree, u: Tree, op: Op, now: u32): LockTable {
    if (op.MkdirOp? || op.TouchOp?) && IsLockPath(op.path) && DirAt(u, op.path) then
      RenewLock(locks, Text(op.path), LockDigest(Get(u, op.path).value), now)
    else if op.DeleteOp? && DirAt(t, op.path) then locks - {Text(op.path)}
    else locks
  }

  ghost predicate LockNext(s: Moment, a: Act, s': Moment) {
    match a
    case Operate(q, now) =>
      exists out ::
        RunStep(s.db, q, out, s'.db) && s'.locks == if out.Ok? then LocksAfter(s.locks, s.db.tree, s'.db.tree, q.op, now) else s.locks
    case Ask(path, csum, now) =>
      && s'.db == s.db
      && s'.locks == if Current(s.db.tree, path, csum) then CheckLock(s.locks, Text(path), csum, now).0 else s.locks
  }

  predicate TextualAct(a: Act) {
    match a
    case Operate(q, _) => Textual(q.op.path)
    case Ask(path, _, _) => Textual(path)
  }

  /** What is on record are locks that are there. */
  ghost predicate RecordFits(s: Moment) {
    forall p :: Textual(p) && Text(p) in s.locks ==> Current(s.db.tree, p, s.locks[Text(p)].csum)
  }

  ghost predicate LockRun(ss: seq<Moment>, acts: seq<Act>) {
    && |ss| == |acts| + 1 && Inv(ss[0].db) && RecordFits(ss[0])
    && forall k :: 0 <= k < |acts| ==> TextualAct(acts[k]) && LockNext(ss[k], acts[k], ss[k + 1])
  }

  function Databases(ss: seq<Moment>): (dbs: seq<Db>)
    ensures |dbs| == |ss| && forall k :: 0 <= k < |dbs| ==> dbs[k] == ss[k].db
  {
    seq(|ss|, k requires 0 <= k < |ss| => ss[k].db)
  }

  lemma {:induction false} DatabasesRun(ss: seq<Moment>, acts: seq<Act>)
    requires LockRun(ss, acts)
    ensures DbRun(Databases(ss))
  {
    hide Inv, RecordFits, RunStep, LocksAfter, CheckLock, Current;
    var dbs := Databases(ss);
    forall l | 0 < l < |dbs|
      ensures DbStep(dbs[l - 1], dbs[l])
    {
      assert LockNext(ss[l - 1], acts[l - 1], ss[l]);
    }
  }

  /** A record that is new in a step is of that time, and of a lock that is there. */
  lemma {:induction false} StepRecords(s: Moment, a: Act, s': Moment, p: Path)
    requires Inv(s.db) && LockNext(s, a, s') && TextualAct(a) && Textual(p) && Text(p) in s'.locks
    ensures || (Text(p) in s.locks && s'.locks[Text(p)] == s.locks[Text(p)])
            || (s'.locks[Text(p)].ltime == a.now && Current(s'.db.tree, p, s'.locks[Text(p)].csum))
  {
    hide Inv, RunStep, LockDigest, Get, Text, Textual;
    match a
    case Operate(q, now) =>
      if Text(q.op.path) == Text(p) {
        TextInjective(q.op.path, p);
      }
    case Ask(path, csum, now) =>
      if Text(path) == Text(p) {
        TextInjective(path, p);
      }
  }

  /** The record of `p` stands unchanged in the states from `j` to `k`. */
  ghost predicate Stands(ss: seq<Moment>, j: nat, k: nat, p: Path)
    requires j <= k < |ss|
  {
    Text(p) in ss[k].locks && forall l :: j <= l <= k ==> Text(p) in ss[l].locks && ss[l].locks[Text(p)] == ss[k].locks[Text(p)]
  }

  /** Where a record comes from: the state in which it was made, when the lock was there; what the
      record says of the time is the time of that step. */
  lemma {:induction false} RecordOrigin(ss: seq<Moment>, acts: seq<Act>, k: nat, p: Path) returns (j: nat)
    requires LockRun(ss, acts) && k < |ss| && Textual(p) && Text(p) in ss[k].locks
    ensures j <= k && Stands(ss, j, k, p) && Current(ss[j].db.tree, p, ss[k].locks[Text(p)].csum)
    ensures j > 0 ==> ss[k].locks[Text(p)].ltime == acts[j - 1].now
  {
    hide Inv, RunStep, LockDigest, Get, Text, Textual, LockNext;
    if k == 0 {
      j := 0;
    } else {
      InvInRun(ss, acts, k - 1);
      StepRecords(ss[k - 1], acts[k - 1], ss[k], p);
      if Text(p) in ss[k - 1].locks && ss[k].locks[Text(p)] == ss[k - 1].locks[Text(p)] {
        j := RecordOrigin(ss, acts, k - 1, p);
      } else {
        j := k;
      }
    }
  }

  lemma {:induction false} InvInRun(ss: seq<Moment>, acts: seq<Act>, k: nat)
    requires LockRun(ss, acts) && k < |ss|
    ensures Inv(ss[k].db)
  {
    hide Inv, RunStep, RecordFits, DbStep, LockNext;
    DatabasesRun(ss, acts);
    if k > 0 {
      InvInRun(ss, acts, k - 1);
      DbStepKeeps(Databases(ss)[k - 1], Databases(ss)[k], [PRIV]);
    }
  }

  /** A lock reported as expired has been there, untouched, since the record was made, which was
      more than two minutes ago. */
  lemma {:induction false} ExpiredUntouched(ss: seq<Moment>, acts: seq<Act>, k: nat, p: Path, csum: Digest, now: u32) returns (j: nat)
    requires LockRun(ss, acts) && k < |ss| && Textual(p) && 0 in ss[k].db.tree.index && Fits64(Version(ss[k].db.tree))
    requires Current(ss[k].db.tree, p, csum) && CheckLock(ss[k].locks, Text(p), csum, now).1
    ensures j <= k && Stands(ss, j, k, p) && now > ss[k].locks[Text(p)].ltime + LOCK_TIMEOUT
    ensures j > 0 ==> ss[k].locks[Text(p)].ltime == acts[j - 1].now
    ensures forall l :: j <= l <= k ==> Get(ss[l].db.tree, p) == Get(ss[k].db.tree, p)
  {
    hide Inv, LockDigest, Get, Text, LockNext, RecordFits, DbStep, Pow256;
    j := RecordOrigin(ss, acts, k, p);
    DatabasesRun(ss, acts);
    InvInRun(ss, acts, j);
    SameIncarnation(Databases(ss), j, k, p, csum);
  }

  /** The whole way of an unlock: a member sends it in state `k` because its record of the lock has
      expired; where it is delivered, in state `m`, it removes that very lock, which nobody has
      touched since the record was made more than two minutes before it was sent, or it changes
      nothing. */
  lemma {:induction false} StaleUnlocksHarmless(ss: seq<Moment>, acts: seq<Act>, k: nat, m: nat, p: Path, csum: Digest, now: u32,
                                                from: Member, time: u32) returns (j: nat)
    requires LockRun(ss, acts) && k <= m < |ss| && Textual(p) && 0 in ss[m].db.tree.index && Fits64(Version(ss[m].db.tree))
    requires Current(ss[k].db.tree, p, csum) && CheckLock(ss[k].locks, Text(p), csum, now).1
    ensures j <= k && Stands(ss, j, k, p) && now > ss[k].locks[Text(p)].ltime + LOCK_TIMEOUT
    ensures j > 0 ==> ss[k].locks[Text(p)].ltime == acts[j - 1].now
    ensures || Deliver(ss[m].db, from, Unlock(p, csum, time)) == ss[m].db
            || (forall l :: j <= l <= m ==> Get(ss[l].db.tree, p) == Get(ss[m].db.tree, p))
  {
    hide Inv, LockDigest, Get, Text, LockNext, RecordFits, DbStep, Pow256, Deliver;
    j := RecordOrigin(ss, acts, k, p);
    DatabasesRun(ss, acts);
    InvInRun(ss, acts, j);
    UnlockHitsIncarnation(Databases(ss), j, m, p, csum, from, time);
  }

  /** A step that makes a lock or touches it puts it on record as of now. */
  lemma {:induction false} LockRecorded(s: Moment, a: Act, s': Moment, p: Path)
    requires Inv(s.db) && LockNext(s, a, s') && a.Operate? && (a.q.op.MkdirOp? || a.q.op.TouchOp?) && a.q.op.path == p
    requires IsLockPath(p) && DirAt(s'.db.tree, p) && Get(s'.db.tree, p) != Get(s.db.tree, p)
    ensures Text(p) in s'.locks && s'.locks[Text(p)] == LockInfo(a.now, LockDigest(Get(s'.db.tree, p).value))
  {
    hide Inv, LockDigest, Get, Text, Sound, Safe, Apply;
    ApplyInv(s.db, a.q);
  }

  /** Directories elsewhere, also those below a lock, are not put on record. */
  lemma {:induction false} OnlyLocksRecorded(s: Moment, a: Act, s': Moment)
    requires LockNext(s, a, s') && a.Operate? && !a.q.op.DeleteOp? && a.q.op.path != [] && Dirname(a.q.op.path) != LocksPath()
    ensures s'.locks == s.locks
  {
    hide LockDigest, Get, Text, RunStep;
    assert Ascii("priv") == PRIV && Ascii("lock") == LOCK;
  }

  /** A step that removes a lock takes it off the record. */
  lemma {:induction false} LockForgotten(s: Moment, a: Act, s': Moment, p: Path)
    requires Inv(s.db) && LockNext(s, a, s') && a.Operate? && a.q.op.DeleteOp? && a.q.op.path == p
    requires DirAt(s.db.tree, p) && Get(s'.db.tree, p).None?
    ensures s'.locks == s.locks - {Text(p)}
  {
    hide Inv, LockDigest, Get, Text, Sound, Safe, Apply;
    ApplyInv(s.db, a.q);
  }

  /** A request that succeeds on a path and is about its record changes what is there. */
  lemma {:induction false} RequestChanges(db: Db, q: Request, out: Outcome, db': Db, p: Path)
    requires Inv(db) && RunStep(db, q, out, db') && out.Ok? && q.op.path == p && (q.op.MkdirOp? || q.op.TouchOp? || q.op.DeleteOp?)
    ensures p != [] && Get(db'.tree, p) != Get(db.tree, p)
  {
    hide Inv, Get, Mkdir, Mtime, Delete, IsDirAt, NonEmptyDir, Reserved;
    if q.op.MkdirOp? {
      MkdirCorrect(db, p, q.writer, q.mtime);
    } else if q.op.TouchOp? {
      MtimeCorrect(db, p, q.writer, q.mtime);
      StoredVersion(db, p);
    } else {
      DeleteCorrect(db, p, q.writer, q.mtime);
    }
  }

  lemma {:induction false} StoredVersion(db: Db, p: Path)
    requires Inv(db) && Get(db.tree, p).Some?
    ensures 0 in db.tree.index && Get(db.tree, p).value.version <= Version(db.tree)
  {
    hide Mirror, VmInv, Reachable, Lookup, WellStored;
    LookupInIndex(db.tree, p, Lookup(db.tree, p).value);
  }

  /** The record of a lock stands as long as the lock is left alone. */
  lemma {:induction false} RecordKept(s: Moment, a: Act, s': Moment, p: Path, e: Entry)
    requires Inv(s.db) && LockNext(s, a, s') && TextualAct(a) && Textual(p) && Text(p) in s.locks
    requires Get(s.db.tree, p) == Some(e) && Get(s'.db.tree, p) == Some(e) && s.locks[Text(p)].csum == LockDigest(e)
    ensures Text(p) in s'.locks && s'.locks[Text(p)] == s.locks[Text(p)]
  {
    hide Inv, RunStep, LockDigest, Get, Text, Textual;
    match a
    case Operate(q, now) =>
      var out :| RunStep(s.db, q, out, s'.db) && s'.locks == if out.Ok? then LocksAfter(s.locks, s.db.tree, s'.db.tree, q.op, now) else s.locks;
      if Text(q.op.path) == Text(p) {
        TextInjective(q.op.path, p);
        if out.Ok? && (q.op.MkdirOp? || q.op.TouchOp? || q.op.DeleteOp?) {
          RequestChanges(s.db, q, out, s'.db, p);
        }
      }
    case Ask(path, csum, now) =>
      if Text(path) == Text(p) {
        TextInjective(path, p);
      }
  }

  /** A lock that is made or touched in the step to state `j` and left alone until state `k` has
      its record of that step in every state between. */
  lemma {:induction false} RecordStands(ss: seq<Moment>, acts: seq<Act>, j: nat, k: nat, p: Path)
    requires LockRun(ss, acts) && 0 < j <= k < |ss| && Textual(p) && IsLockPath(p) && DirAt(ss[j].db.tree, p)
    requires var a := acts[j - 1]; a.Operate? && (a.q.op.MkdirOp? || a.q.op.TouchOp?) && a.q.op.path == p
    requires Get(ss[j - 1].db.tree, p) != Get(ss[j].db.tree, p)
    requires forall l :: j <= l <= k ==> Get(ss[l].db.tree, p) == Get(ss[j].db.tree, p)
    ensures Stands(ss, j, k, p) && ss[k].locks[Text(p)] == LockInfo(acts[j - 1].now, LockDigest(Get(ss[k].db.tree, p).value))
    decreases k
  {
    hide Inv, LockDigest, Get, Text, Textual, LockNext, RecordFits, IsLockPath;
    InvInRun(ss, acts, k - 1);
    if j == k {
      LockRecorded(ss[k - 1], acts[k - 1], ss[k], p);
    } else {
      RecordStands(ss, acts, j, k - 1, p);
      RecordKept(ss[k - 1], acts[k - 1], ss[k], p, Get(ss[j].db.tree, p).value);
    }
  }

  /** Abandoned locks expire, in 120 seconds and not before: a lock that is made or touched in the
      step to state `j` and left alone until state `k` is reported as expired there to whoever asks
      with its checksum at a time more than 120 seconds after that step, and to nobody else. */
  lemma {:induction false} ExpiresInTime(ss: seq<Moment>, acts: seq<Act>, j: nat, k: nat, p: Path, csum: Digest, now: u32)
    requires LockRun(ss, acts) && 0 < j <= k < |ss| && Textual(p) && IsLockPath(p) && DirAt(ss[j].db.tree, p)
    requires var a := acts[j - 1]; a.Operate? && (a.q.op.MkdirOp? || a.q.op.TouchOp?) && a.q.op.path == p
    requires Get(ss[j - 1].db.tree, p) != Get(ss[j].db.tree, p)
    requires forall l :: j <= l <= k ==> Get(ss[l].db.tree, p) == Get(ss[j].db.tree, p)
    ensures CheckLock(ss[k].locks, Text(p), csum, now).1 <==> Current(ss[k].db.tree, p, csum) && now > acts[j - 1].now + 120
  {
    hide Inv, LockDigest, Get, Text, Textual, LockNext, RecordFits, LockRun;
    RecordStands(ss, acts, j, k, p);
    CheckExact(ss[k].locks, Text(p), csum, now);
  }

  /** The same for any record: made in the step to state `j`, standing until state `k`. */
  lemma {:induction false} RecordExpires(ss: seq<Moment>, acts: seq<Act>, j: nat, k: nat, p: Path, csum: Digest, now: u32)
    requires LockRun(ss, acts) && 0 < j <= k < |ss| && Textual(p) && Stands(ss, j, k, p)
    requires Text(p) !in ss[j - 1].locks || ss[j - 1].locks[Text(p)] != ss[j].locks[Text(p)]
    ensures CheckLock(ss[k].locks, Text(p), csum, now).1 <==> csum == ss[k].locks[Text(p)].csum && now > acts[j - 1].now + 120
  {
    hide Inv, LockDigest, Get, Text, Textual, LockNext, RecordFits;
    InvInRun(ss, acts, j - 1);
    StepRecords(ss[j - 1], acts[j - 1], ss[j], p);
    CheckExact(ss[k].locks, Text(p), csum, now);
  }

  /** Delivering an unlock removes the lock if it is the one meant and nothing is below it, and
      otherwise changes nothing; no other path is concerned. */
  lemma {:induction false} UnlockExact(db: Db, path: Path, csum: Digest, from: Member, time: u32)
    requires Inv(db)
    ensures var db' := Deliver(db, from, Unlock(path, csum, time));
            var gone := Current(db.tree, path, csum) && !HasEntries(db.tree, path);
            && (gone ==> Changed(db.tree, db'.tree, path, None) && RootAfter(db.tree, db'.tree, from.nodeid, time))
            && (!gone ==> db' == db)
  {
    hide TreeInv, ContentInv, Mirror, VmInv, LockDigest, Get, Delete, Sound, Changed, RootAfter, NonEmptyDir;
    DeleteCorrect(db, path, from.nodeid, time);
    if Current(db.tree, path, csum) {
      EmptyExact(db.tree, path);
    }
  }

  /** After a reload that has found the directory of the locks, what is on record are locks that
      are there. */
  lemma {:induction false} ReloadFits(db: Db, locks: LockTable, order: seq<Name>, clock: seq<u32>, x: nat)
    requires Inv(db) && |clock| == |order| && Lookup(db.tree, [PRIV, LOCK]) == Some(x) && x in db.tree.dirs && NoneTwice(order)
    requires forall k :: 0 <= k < |order| ==> NoSlash(order[k])
    ensures RecordFits(Moment(db, ReloadLocks(locks, db.tree, order, clock)))
  {
    hide Inv, LockDigest, LocksBelow, Lookup, Text, IsLock, NoneTwice;
    var t := db.tree;
    var table := LocksBelow(t, x, order, clock);
    forall p | Textual(p) && Text(p) in table
      ensures Current(t, p, table[Text(p)].csum)
    {
      BelowKeys(t, x, order, clock, Text(p));
      var k :| 0 <= k < |order| && IsLock(t, x, order[k]) && Text(p) == LockKey(order[k]);
      BelowIs(t, x, order, clock, k);
      PlainLockPath(order[k]);
      TextInjective(p, LockPath(order[k]));
      LockThere(t, x, order[k]);
    }
  }

  lemma {:induction false} PlainLockPath(name: Name)
    requires NoSlash(name)
    ensures Textual(LockPath(name)) && IsLockDir(LockPath(name))
  {
  }

  lemma {:induction false} LockThere(t: Tree, x: nat, name: Name)
    requires Lookup(t, [PRIV, LOCK]) == Some(x) && x in t.dirs && IsLock(t, x, name)
    ensures Get(t, LockPath(name)) == Some(LockEntry(t, x, name)) && LockEntry(t, x, name).kind.Dir?
  {
    assert LockPath(name)[..2] == [PRIV, LOCK];
  }

  // ---------------------------------------------------------------------------------------
  // The lock table as an object
  // ---------------------------------------------------------------------------------------

  class LockRecord {
    var locks: LockTable

    /** `memdb_lock_expired` */
    method Expired(key: seq<byte>, csum: Digest, now: u32) returns (expired: bool)
      modifies this
      ensures (locks, expired) == CheckLock(old(locks), key, csum, now)
      ensures expired <==> key in old(locks) && old(locks)[key].csum == csum && now > old(locks)[key].ltime + 120
    {
      expired := false;
      if key in locks {
        var li := locks[key];
        if li.csum != csum {
          locks := locks[key := LockInfo(now, csum)];
          return;
        }
        if now > li.ltime && now - li.ltime > LOCK_TIMEOUT {
          expired := true;
        }
      } else {
        locks := locks[key := LockInfo(now, csum)];
      }
    }

    method Renew(key: seq<byte>, csum: Digest, now: u32)
      modifies this
      ensures locks == RenewLock(old(locks), key, csum, now)
    {
      locks := locks - {key};
      var _ := Expired(key, csum, now);
    }

    /** `memdb_update_locks` */
    method Update(t: Tree, order: seq<Name>, clock: seq<u32>)
      requires |clock| == |order|
      modifies this
      ensures locks == ReloadLocks(old(locks), t, order, clock)
    {
      hide LockDigest, Lookup, LockKey;
      var te := Lookup(t, [PRIV, LOCK]);
      if te.None? || te.value !in t.dirs {
        return;
      }
      var x := te.value;
      locks := map[];
      for k := 0 to |order|
        invariant locks == LocksBelow(t, x, order[..k], clock[..k])
      {
        assert order[..k + 1][..k] == order[..k] && clock[..k + 1][..k] == clock[..k];
        var name := order[k];
        if IsLock(t, x, name) {
          var csum := LockDigest(LockEntry(t, x, name));
          if name in locks && locks[name].csum == csum {
            locks := locks[LockKey(name) := LockInfo(locks[name].ltime, csum)];
          } else {
            locks := locks[LockKey(name) := LockInfo(clock[k], csum)];
          }
        }
      }
      assert order[..|order|] == order && clock[..|order|] == clock;
    }
  }
}
