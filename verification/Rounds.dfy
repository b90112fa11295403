/** What follows a round: another request to synchronise, or a change of the group. Members that
    have delivered the same messages begin the next round alike, so agreement carries over from
    round to round. */
module Rounds {
  import opened MemTree
  import opened VmConfig
  import opened MemDb
  import opened TreeIndex
  import opened Leader
  import Ops = Operations
  import opened Dcdb
  import opened Dfsm
  import opened Queues
  import opened Agreement
  import opened Group
  import Epochs

  // ---------------------------------------------------------------------------------------
  // Another request
  // ---------------------------------------------------------------------------------------

  /** Member `i` in phase `p` after a request. */
  ghost function Asked(r: Round, i: nat, p: Phase, from: Member, epoch: Epoch): Node
    requires Valid(r) && i < |r.ms|
  {
    Receive(DcdbCallbacks(), View(r, i, p), from, Packet(r.version, SyncStart(epoch))).0
  }

  ghost predicate SameEpoch(r: Round, p: Phase, from: Member, epoch: Epoch)
    requires Valid(r)
  {
    forall i, j :: 0 <= i < |r.ms| && 0 <= j < |r.ms| ==>
      !Failed(Asked(r, i, p, from, epoch).mode) && Asked(r, i, p, from, epoch).epoch == Asked(r, j, p, from, epoch).epoch
  }

  ghost predicate Outdated(r: Round)
    requires Valid(r)
  {
    exists i :: 0 <= i < |r.ms| && !InSync(r, i)
  }

  lemma {:induction false} ViewMode(r: Round, i: nat, p: Phase)
    requires Valid(r) && i < |r.ms| && !p.Broken?
    ensures var n := View(r, i, p);
            && !Failed(n.mode) && n.known && n.version == r.version
            && ((p.Before? || p.Collecting?) ==> n.mode == StartSync && n.db == DbOf(r, i))
            && (p.Updating? ==> n.mode == (if InSync(r, i) then Synced else Update) && n.epoch == r.epoch)
            && (p.Done? ==> n.mode == Synced && n.epoch == r.epoch)
  {
    hide Valid, InSync, Applies, FirstPart, LastPart, Marked, Sequence, Base, DcdbCallbacks, InsertAll, Got, StateOf, LeaderOf, AllMarked;
    StartFacts(r, i);
  }

  /** A request outside a round's last phases starts it anew in the epoch of the request; after
      the last state the synced members ignore it and the others leave. */
  lemma {:induction false} AskedIs(r: Round, i: nat, p: Phase, from: Member, epoch: Epoch)
    requires Valid(r) && i < |r.ms| && !p.Broken?
    ensures var n := Asked(r, i, p, from, epoch);
            && ((p.Before? || p.Collecting?) ==> !Failed(n.mode) && n.epoch == epoch)
            && (p.Updating? ==> (Failed(n.mode) <==> !InSync(r, i)) && (InSync(r, i) ==> n.epoch == r.epoch))
            && (p.Done? ==> !Failed(n.mode) && n.epoch == r.epoch)
  {
    hide Valid, InSync, View, Receive, DcdbCallbacks;
    ViewMode(r, i, p);
    RootThere(r, i);
    Epochs.RequestStep(DcdbCallbacks(), View(r, i, p), from, epoch);
  }

  /** After a request from anyone, all members are in the group and in one epoch, unless it comes
      between the last state and the completion of a round with a member to be updated. */
  lemma {:induction false} RequestExact(r: Round, p: Phase, from: Member, epoch: Epoch)
    requires Valid(r) && !p.Broken?
    ensures SameEpoch(r, p, from, epoch) <==> !(p.Updating? && Outdated(r))
  {
    hide Valid, InSync, View, Asked;
    forall i | 0 <= i < |r.ms|
      ensures var n := Asked(r, i, p, from, epoch);
              && ((p.Before? || p.Collecting?) ==> !Failed(n.mode) && n.epoch == epoch)
              && (p.Updating? ==> (Failed(n.mode) <==> !InSync(r, i)) && (InSync(r, i) ==> n.epoch == r.epoch))
              && (p.Done? ==> !Failed(n.mode) && n.epoch == r.epoch)
    {
      AskedIs(r, i, p, from, epoch);
    }
  }

  /** The members while they collect states. */
  ghost function Views(r: Round, p: Phase): (ns: seq<Node>)
    requires Valid(r)
    ensures |ns| == |r.ms| && forall k :: 0 <= k < |ns| ==> ns[k] == View(r, k, p)
  {
    seq(|r.ms|, k requires 0 <= k < |r.ms| => View(r, k, p))
  }

  /** A request that comes before the last state begins a round with the same databases. */
  lemma {:induction false} RequestValid(r: Round, p: Phase, epoch: Epoch)
    requires Valid(r) && p.Collecting?
    ensures Valid(Round(r.ms, r.version, epoch, p.q, Views(r, p)))
  {
    hide Valid, Inv, Exchangeable, StateOf, Got, Fresh, ClearStates;
    var s := Round(r.ms, r.version, epoch, p.q, Views(r, p));
    forall k | 0 <= k < |r.ms|
      ensures Ready(s, k)
    {
      StartFacts(r, k);
      DbFacts(r, k);
      GotClear(r, p.got);
    }
    StartFacts(r, LeaderOf(r));
    AllReady(s);
  }

  lemma {:induction false} AllReady(s: Round)
    requires s.ms != [] && |s.start| == |s.ms| && Distinct(s.ms) && forall k :: 0 <= k < |s.ms| ==> Ready(s, k)
    ensures Valid(s)
  {
    hide Ready;
  }

  lemma {:induction false} GotClear(r: Round, got: set<nat>)
    requires Valid(r)
    ensures ClearStates(Got(r, got)) == Fresh(r.ms)
  {
    hide Valid, StateOf;
  }

  // ---------------------------------------------------------------------------------------
  // Members that are alike
  // ---------------------------------------------------------------------------------------

  /** Messages that keep the database in order. */
  ghost predicate SafeMessage(db: Db, m: AppMsg) {
    m.Fs? ==> Ops.CanonicalOp(m.op) && Ops.Safe(db, m.op)
  }

  ghost predicate SafeAll(db: Db, qs: seq<Queued>)
    decreases |qs|
  {
    qs == [] || (SafeMessage(db, qs[0].body) && SafeAll(Deliver(db, qs[0].from, qs[0].body), qs[1..]))
  }

  lemma {:induction false} LockIsNoVm(path: Path)
    requires IsLockDir(path)
    ensures PathVm(path).None?
  {
    hide NameVmid, ValidNodeName;
  }

  lemma {:induction false} SafeDeliver(db: Db, from: Member, m: AppMsg)
    requires Inv(db) && SafeMessage(db, m)
    ensures Inv(Deliver(db, from, m))
  {
    hide Inv, Ops.Apply, Ops.Safe, Sound, Delete, CanDelete, Changed, RootAfter, LockDigest, Get, PathVm, IsLockDir;
    InvSound(db);
    match m
    case Fs(op, time) => Ops.ApplyInv(db, Ops.Request(op, from.nodeid, time));
    case Unlock(path, csum, time) =>
      if Current(db.tree, path, csum) {
        LockIsNoVm(path);
        DeleteCorrect(db, path, from.nodeid, time);
      }
    case UnlockRequest(path, csum) =>
  }

  lemma {:induction false} SafeInv(db: Db, qs: seq<Queued>)
    requires Inv(db) && SafeAll(db, qs)
    ensures Inv(Applies(DcdbCallbacks(), db, qs))
    decreases |qs|
  {
    hide Inv, Deliver, SafeMessage;
    if qs != [] {
      SafeDeliver(db, qs[0].from, qs[0].body);
      SafeInv(Deliver(db, qs[0].from, qs[0].body), qs[1..]);
    }
  }

  lemma {:induction false} SafeSame(a: Db, b: Db, m: AppMsg)
    requires CoreOf(a) == CoreOf(b)
    ensures SafeMessage(a, m) <==> SafeMessage(b, m)
  {
    hide Get, PathVm, Hole, Contents, IsDirAt, NonEmptyDir, VmFile, IsLockDir;
  }

  lemma {:induction false} SafeCore(a: Db, b: Db, qs: seq<Queued>)
    requires CoreOf(a) == CoreOf(b)
    ensures SafeAll(a, qs) <==> SafeAll(b, qs)
    decreases |qs|
  {
    hide SafeMessage, Deliver;
    if qs != [] {
      SafeSame(a, b, qs[0].body);
      DeliverCore(a, b, qs[0].from, qs[0].body);
      SafeCore(Deliver(a, qs[0].from, qs[0].body), Deliver(b, qs[0].from, qs[0].body), qs[1..]);
    }
  }

  /** What a member has applied in a phase keeps the database in order, and its version fits. */
  ghost predicate SaneFor(r: Round, i: nat, p: Phase)
    requires Valid(r) && i < |r.ms|
  {
    var db := DbOf(r, LeaderOf(r));
    SafeAll(db, AppliedBy(r, i, p)) && (var d := Applies(DcdbCallbacks(), db, AppliedBy(r, i, p)); 0 in d.tree.index && Fits64(Version(d.tree)))
  }

  ghost predicate Sane(r: Round, p: Phase)
    requires Valid(r)
  {
    forall i :: 0 <= i < |r.ms| ==> SaneFor(r, i, p)
  }

  /** A member that can begin a round. */
  ghost predicate Fit(n: Node, version: nat) {
    !Failed(n.mode) && n.version == version && Inv(n.db) && Exchangeable(n.db.tree)
  }

  /** The message queue of the leader in a phase. */
  ghost function QueueIn(r: Round, p: Phase): seq<Queued>
    requires Valid(r)
  {
    match p
    case Before => r.queue
    case Collecting(got, q) => q
    case Updating(q, ns, us) => LastPart(r, q)
    case Done(q, ns, us, after) => []
    case Broken => r.queue
  }

  lemma {:induction false} ViewQueue(r: Round, i: nat, p: Phase)
    requires Valid(r) && i < |r.ms|
    ensures View(r, i, p).msgQueue == QueueIn(r, p) <==> (p.Updating? && !InSync(r, i) ==> Proviso(r, p.ns))
  {
    hide Valid, InSync, Applies, FirstPart, LastPart, Marked, Base, DcdbCallbacks, Got, StateOf, LeaderOf, AllMarked, InsertAll;
    StartFacts(r, i);
    if p.Updating? && !InSync(r, i) {
      InsertAllLength(LastPart(r, p.q), LastPart(r, p.ns));
      InsertNothing(LastPart(r, p.q));
    }
  }

  lemma {:induction false} InsertNothing(queue: seq<Queued>)
    ensures InsertAll(queue, []) == queue
  {
  }

  /** In every phase the members have one and the same message queue, exactly unless a message of a
      member not yet synced has come since the last state. */
  lemma {:induction false} QueuesExact(r: Round, p: Phase)
    requires Valid(r)
    ensures (forall i, j :: 0 <= i < |r.ms| && 0 <= j < |r.ms| ==> View(r, i, p).msgQueue == View(r, j, p).msgQueue) <==>
              (p.Updating? ==> Proviso(r, p.ns))
  {
    hide Valid, InSync, View, QueueIn, Proviso, LeaderOf;
    forall i | 0 <= i < |r.ms|
      ensures View(r, i, p).msgQueue == QueueIn(r, p) <==> (p.Updating? && !InSync(r, i) ==> Proviso(r, p.ns))
    {
      ViewQueue(r, i, p);
    }
    LeaderInSync(r);
    var l := LeaderOf(r);
    assert View(r, l, p).msgQueue == QueueIn(r, p);
    if p.Updating? && !Proviso(r, p.ns) {
      var i := SomeOutdated(r, p.ns);
      assert View(r, i, p).msgQueue != View(r, l, p).msgQueue;
    }
  }

  lemma {:induction false} SomeOutdated(r: Round, ns: seq<Queued>) returns (i: nat)
    requires Valid(r) && !Proviso(r, ns)
    ensures i < |r.ms| && !InSync(r, i)
  {
    hide Valid, InSync, FromUnsynced;
    var k := UnsyncedElement(Marked(r, false), ns, 0);
    UnsyncedMembers(Marked(r, false), ns);
    assert Position(Marked(r, false), FromUnsynced(Marked(r, false), ns)[0].from).Some?;
    i := Position(Marked(r, false), ns[k].from).value;
  }

  lemma {:induction false} ExchangeableIs(db: Db)
    requires Inv(db) && 0 in db.tree.index && Fits64(Version(db.tree))
    ensures Exchangeable(db.tree)
  {
    hide TreeInv, ContentInv, Mirror, VmInv, Fits64;
  }

  /** A database with the core of the leader's, after what a member applies. */
  lemma {:induction false} SaneDb(r: Round, i: nat, p: Phase, db: Db)
    requires Valid(r) && i < |r.ms| && SaneFor(r, i, p) && Inv(db) && CoreOf(db) == CoreOf(DbOf(r, LeaderOf(r)))
    ensures var d := Applies(DcdbCallbacks(), db, AppliedBy(r, i, p)); Inv(d) && Exchangeable(d.tree)
  {
    hide Valid, LeaderOf, Inv, SafeAll, Applies, AppliedBy, DcdbCallbacks, Exchangeable, Fits64;
    StartFacts(r, LeaderOf(r));
    var l, a := DbOf(r, LeaderOf(r)), AppliedBy(r, i, p);
    SafeCore(db, l, a);
    SafeInv(db, a);
    AppliesCore(db, l, a);
    ExchangeableIs(Applies(DcdbCallbacks(), db, a));
  }

  /** The database of a synced member before the completion. */
  lemma {:induction false} SyncedDb(r: Round, i: nat, p: Phase)
    requires Valid(r) && i < |r.ms| && p.Updating? && InSync(r, i) && SaneFor(r, i, p)
    ensures Inv(View(r, i, p).db) && Exchangeable(View(r, i, p).db.tree)
  {
    hide Valid, LeaderOf, Inv, Applies, DcdbCallbacks, Exchangeable, FirstPart, LastPart, InSync, SaneFor, Marked;
    StartFacts(r, i);
    DbFacts(r, i);
    SyncedCore(r, i);
    SaneDb(r, i, p, DbOf(r, i));
  }

  lemma {:induction false} DoneDb(r: Round, i: nat, p: Phase)
    requires Valid(r) && i < |r.ms| && p.Done? && Good(r, p) && SaneFor(r, i, p)
    ensures Inv(View(r, i, p).db) && Exchangeable(View(r, i, p).db.tree)
  {
    hide Valid, LeaderOf, Inv, Applies, DcdbCallbacks, Exchangeable, InSync, SaneFor, Base, UpdatesSent, Committable, Harmless, AllMembers, Sequence, AllMarked;
    StartFacts(r, i);
    BaseCore(r, i, p.us);
    SaneDb(r, i, p, Base(DcdbCallbacks(), r, i, p.us).0);
    AppliesAppend(DcdbCallbacks(), Base(DcdbCallbacks(), r, i, p.us).0, Sequence(r, i, p.q, p.ns), p.after);
  }

  /** In every phase of a round the members can begin the next one. */
  lemma {:induction false} ViewFit(r: Round, i: nat, p: Phase)
    requires Valid(r) && i < |r.ms| && Good(r, p) && SaneFor(r, i, p)
    ensures Fit(View(r, i, p), r.version)
  {
    hide Valid, Good, SaneFor, View, Inv, Exchangeable, InSync;
    GoodNotBroken(r, p);
    ViewMode(r, i, p);
    DbFacts(r, i);
    if p.Updating? {
      if InSync(r, i) {
        SyncedDb(r, i, p);
      } else {
        OldDb(r, i, p);
      }
    } else if p.Done? {
      DoneDb(r, i, p);
    }
  }

  lemma {:induction false} OldDb(r: Round, i: nat, p: Phase)
    requires Valid(r) && i < |r.ms| && p.Updating? && !InSync(r, i)
    ensures View(r, i, p).db == DbOf(r, i)
  {
    hide Valid, InSync, FirstPart, LastPart, Marked, InsertAll, StateOf, LeaderOf, DcdbCallbacks;
    StartFacts(r, i);
  }

  // ---------------------------------------------------------------------------------------
  // The next round
  // ---------------------------------------------------------------------------------------

  /** A member, what it is told of the members and of a join, and its time. */
  datatype Told = Told(before: Node, list: seq<Member>, joined: bool, time: nat)

  ghost function After(t: Told): (Node, seq<Out>) {
    ConfChange(DcdbCallbacks(), t.before, t.list, t.joined, t.time)
  }

  /** After a join a member gives its queue up. */
  function QueueAfter(t: Told): seq<Queued> {
    if t.joined then [] else t.before.msgQueue
  }

  ghost function Restarted(told: seq<Told>): (ns: seq<Node>)
    ensures |ns| == |told| && forall k :: 0 <= k < |ns| ==> ns[k] == After(told[k]).0
  {
    seq(|told|, k requires 0 <= k < |told| => After(told[k]).0)
  }

  /** The round that a change begins, with the queue `q`. */
  ghost function NextRound(ms: seq<Member>, version: nat, epoch: Epoch, q: seq<Queued>, told: seq<Told>): Round {
    Round(Sort(ms), version, epoch, q, Restarted(told))
  }

  /** All are told of the same members, in whatever order. */
  ghost predicate ToldAll(ms: seq<Member>, told: seq<Told>) {
    && |told| == |ms| == |Sort(ms)| && |ms| > 1 && Distinct(ms) && Consistent(ms)
    && forall k :: 0 <= k < |told| ==> multiset(told[k].list) == multiset(ms) && told[k].before.self == Sort(ms)[k]
  }

  lemma {:induction false} ChangeReady(t: Told, ms: seq<Member>, version: nat)
    requires Fit(t.before, version) && |ms| > 1 && Distinct(ms) && Consistent(ms) && multiset(t.list) == multiset(ms) && t.before.self in ms
    ensures var (n, outs) := After(t);
            && n.self == t.before.self && n.version == version && n.mode == StartSync && n.known
            && n.infos == Fresh(Sort(ms)) && n.msgQueue == QueueAfter(t) && n.syncQueue == [] && n.data == None
            && n.db == t.before.db && n.lowest == Lowest(t.list)
            && outs == (if t.joined then OwnMessages(t.before.msgQueue, n.self) else []) + (if n.lowest == n.self.nodeid then [Send(SyncStart(n.epoch))] else [])
  {
    hide Inv, Exchangeable, Sort, Fresh, Lowest, Consistent, AloneNow, DcdbCallbacks;
    SortOrderIndependent(ms, t.list);
    DistinctMultiset(ms, t.list);
  }

  lemma {:induction false} MemberThere(ms: seq<Member>, told: seq<Told>, k: nat)
    requires ToldAll(ms, told) && k < |told|
    ensures told[k].before.self in ms && multiset(told[k].list) == multiset(ms) && |ms| > 1 && Distinct(ms) && Consistent(ms)
  {
    hide Sort, Consistent, Distinct;
    SortElements(ms);
    assert Sort(ms)[k] in Sort(ms);
  }

  /** A change of the group begins a round exactly if it leaves all members with one queue. */
  lemma {:induction false} ChangeExact(ms: seq<Member>, version: nat, epoch: Epoch, q: seq<Queued>, told: seq<Told>)
    requires ToldAll(ms, told) && forall k :: 0 <= k < |told| ==> Fit(told[k].before, version)
    ensures Valid(NextRound(ms, version, epoch, q, told)) <==> forall k :: 0 <= k < |told| ==> QueueAfter(told[k]) == q
  {
    hide Sort, Fresh, Fit, ClearStates, After, QueueAfter, Consistent, Inv, Exchangeable;
    SortElements(ms);
    DistinctMultiset(ms, Sort(ms));
    var r := NextRound(ms, version, epoch, q, told);
    forall k | 0 <= k < |r.ms|
      ensures Ready(r, k) <==> QueueAfter(told[k]) == q
    {
      MemberThere(ms, told, k);
      ChangeReady(told[k], ms, version);
      FitDb(told[k].before, version);
      FreshClear(Sort(ms));
    }
  }

  lemma {:induction false} FitDb(n: Node, version: nat)
    requires Fit(n, version)
    ensures Inv(n.db) && Exchangeable(n.db.tree)
  {
    hide Inv, Exchangeable;
  }

  /** Where a member comes from: the round before, or from outside with an empty queue. */
  ghost predicate Origin(r: Round, p: Phase, n: Node)
    requires Valid(r)
  {
    || (exists i :: 0 <= i < |r.ms| && n == View(r, i, p))
    || (Fit(n, r.version) && n.msgQueue == [])
  }

  ghost predicate Origins(r: Round, p: Phase, told: seq<Told>)
    requires Valid(r)
  {
    Good(r, p) && Sane(r, p) && forall k :: 0 <= k < |told| ==> Origin(r, p, told[k].before)
  }

  lemma {:induction false} OriginFit(r: Round, p: Phase, n: Node)
    requires Valid(r) && Good(r, p) && Sane(r, p) && Origin(r, p, n)
    ensures Fit(n, r.version)
    ensures (p.Updating? ==> Proviso(r, p.ns)) ==> n.msgQueue == [] || n.msgQueue == QueueIn(r, p)
  {
    hide Valid, Good, SaneFor, View, QueueIn, Fit, InSync, Proviso;
    if i :| 0 <= i < |r.ms| && n == View(r, i, p) {
      ViewFit(r, i, p);
      ViewQueue(r, i, p);
    }
  }

  /** A member keeps messages over the change. */
  predicate KeepsQueue(t: Told) {
    !t.joined && t.before.msgQueue != []
  }

  /** What members are told of a join may differ. They begin a round exactly if all of them keep
      the messages they have queued, or none does. */
  lemma {:induction false} JoinExact(r: Round, p: Phase, ms: seq<Member>, epoch: Epoch, told: seq<Told>)
    requires Valid(r) && Origins(r, p, told) && ToldAll(ms, told) && (p.Updating? ==> Proviso(r, p.ns))
    ensures (exists q :: Valid(NextRound(ms, r.version, epoch, q, told))) <==>
              (forall k :: 0 <= k < |told| ==> KeepsQueue(told[k])) || (forall k :: 0 <= k < |told| ==> !KeepsQueue(told[k]))
  {
    hide Valid, Good, Sane, Origin, NextRound, ToldAll, QueueIn, Proviso, Fit;
    forall k | 0 <= k < |told|
      ensures Fit(told[k].before, r.version)
      ensures QueueAfter(told[k]) == if KeepsQueue(told[k]) then QueueIn(r, p) else []
      ensures KeepsQueue(told[k]) ==> QueueIn(r, p) != []
    {
      OriginFit(r, p, told[k].before);
    }
    forall q
      ensures Valid(NextRound(ms, r.version, epoch, q, told)) <==> forall k :: 0 <= k < |told| ==> QueueAfter(told[k]) == q
    {
      ChangeExact(ms, r.version, epoch, q, told);
    }
    SomeTold(ms, told);
    var q := QueueAfter(told[0]);
    assert (forall k :: 0 <= k < |told| ==> QueueAfter(told[k]) == q) ==> Valid(NextRound(ms, r.version, epoch, q, told));
  }

  lemma {:induction false} SomeTold(ms: seq<Member>, told: seq<Told>)
    requires ToldAll(ms, told)
    ensures |told| > 1
  {
    hide Sort, Consistent;
  }

  /** Round `s` follows round `r`, whose members have come to phase `p`. */
  ghost predicate Succeeds(r: Round, p: Phase, s: Round)
    requires Valid(r)
  {
    exists ms: seq<Member>, told: seq<Told> ::
      ToldAll(ms, told) && Origins(r, p, told) && s == NextRound(ms, r.version, s.epoch, s.queue, told)
      && forall k :: 0 <= k < |told| ==> QueueAfter(told[k]) == s.queue
  }

  /** A change of the group in any phase of a round begins a round, to which all that is proved of
      rounds applies. */
  lemma {:induction false} SuccessorValid(r: Round, p: Phase, s: Round)
    requires Valid(r) && Succeeds(r, p, s)
    ensures Valid(s)
  {
    hide Valid, Good, Sane, Origin, NextRound, ToldAll, Fit;
    var ms: seq<Member>, told: seq<Told> :|
      ToldAll(ms, told) && Origins(r, p, told) && s == NextRound(ms, r.version, s.epoch, s.queue, told)
      && forall k :: 0 <= k < |told| ==> QueueAfter(told[k]) == s.queue;
    forall k | 0 <= k < |told|
      ensures Fit(told[k].before, r.version)
    {
      OriginFit(r, p, told[k].before);
    }
    ChangeExact(ms, r.version, s.epoch, s.queue, told);
  }

  ghost predicate Chain(rs: seq<Round>, ps: seq<Phase>) {
    |rs| == |ps| + 1 && forall k :: 0 <= k < |ps| ==> Valid(rs[k]) ==> Succeeds(rs[k], ps[k], rs[k + 1])
  }

  /** Any number of changes, each in any phase of the round before: all rounds are rounds. */
  lemma {:induction false} ChainValid(rs: seq<Round>, ps: seq<Phase>, k: nat)
    requires Chain(rs, ps) && Valid(rs[0]) && k < |rs|
    ensures Valid(rs[k])
  {
    hide Valid, Succeeds;
    if k > 0 {
      ChainValid(rs, ps, k - 1);
      SuccessorValid(rs[k - 1], ps[k - 1], rs[k]);
    }
  }

  /** In every run of the group, a member that was not expelled is in the phase of what it has
      delivered, and can begin the next round. */
  lemma {:induction false} RunFit(r: Round, cs: seq<Cluster>, acts: seq<Action>, k: nat, i: nat)
    requires Valid(r) && IsRun(r, cs, acts) && Committable(r) && k <= |acts|
    requires Shaped(r, cs[k]) && HarmlessLog(r, cs[k].log) && i < |r.ms|
    requires var log := cs[k].log[..cs[k].pos[i]]; !Expelled(r, i, log) && SaneFor(r, i, PhaseOf(r, log))
    ensures var c := cs[k]; var p := PhaseOf(r, c.log[..c.pos[i]]);
            Good(r, p) && c.nodes[i] == View(r, i, p) && Fit(c.nodes[i], r.version)
  {
    hide Valid, View, LeaderOf, Awaited, UpdatesFit, Expected, Fine, Harmless, Committable, Announced, Next, Initial, PhaseOf, Expelled, Gone, Checked, Settled, Good, SaneFor, Fit;
    var c := cs[k];
    var log := c.log[..c.pos[i]];
    RunInv(r, cs, acts, k);
    assert MemberInv(r, c, i);
    FinePrefix(r, c.log, c.pos[i]);
    GoneExpelled(r, i, log);
    GoodIs(r, PhaseOf(r, log));
    ViewFit(r, i, PhaseOf(r, log));
  }

  // ---------------------------------------------------------------------------------------
  // What becomes of queued messages at a change
  // ---------------------------------------------------------------------------------------

  /** The messages that are sent again. */
  function Resends(outs: seq<Out>): seq<Queued> {
    if outs == [] then [] else (if outs[0].Resend? then [outs[0].q] else []) + Resends(outs[1..])
  }

  lemma {:induction false} ResendsAppend(a: seq<Out>, b: seq<Out>)
    ensures Resends(a + b) == Resends(a) + Resends(b)
    decreases |a|
  {
    if a == [] {
      assert a + b == b;
    } else {
      assert (a + b)[0] == a[0] && (a + b)[1..] == a[1..] + b;
      ResendsAppend(a[1..], b);
    }
  }

  /** A member sends its own messages again, in order. */
  lemma {:induction false} OwnResends(queue: seq<Queued>, self: Member)
    ensures Resends(OwnMessages(queue, self)) == Of(queue, self)
  {
    hide Of;
    if queue == [] {
      OfNone(self);
    } else {
      var n := |queue| - 1;
      OwnResends(queue[..n], self);
      var one: seq<Out> := if queue[n].from == self then [Resend(queue[n])] else [];
      ResendsAppend(OwnMessages(queue[..n], self), one);
      assert queue == queue[..n] + [queue[n]];
      OfAppend(queue[..n], [queue[n]], self);
      OfOne(queue[n], self);
      assert Resends(one) == Of([queue[n]], self);
    }
  }

  ghost function AllResent(told: seq<Told>): seq<Queued> {
    if told == [] then [] else Resends(After(told[0]).1) + AllResent(told[1..])
  }

  lemma {:induction false} OneResent(t: Told, ms: seq<Member>, version: nat)
    requires Fit(t.before, version) && |ms| > 1 && Distinct(ms) && Consistent(ms) && multiset(t.list) == multiset(ms) && t.before.self in ms
    ensures Resends(After(t).1) == if t.joined then Of(t.before.msgQueue, t.before.self) else []
  {
    hide Fit, After, Of, Resends, Consistent, Distinct, OwnMessages;
    ChangeReady(t, ms, version);
    var (n, outs) := After(t);
    var own: seq<Out> := if t.joined then OwnMessages(t.before.msgQueue, n.self) else [];
    var ask: seq<Out> := if n.lowest == n.self.nodeid then [Send(SyncStart(n.epoch))] else [];
    ResendsAppend(own, ask);
    OwnResends(t.before.msgQueue, n.self);
    NoResends(n.epoch);
    assert Resends(own) + [] == Resends(own);
  }

  lemma {:induction false} NoResends(epoch: Epoch)
    ensures Resends([]) == [] && Resends([Send(SyncStart(epoch))]) == []
  {
    assert [Send(SyncStart(epoch))][1..] == [];
  }

  lemma {:induction false} OfCount(qs: seq<Queued>, m: Member, x: Queued)
    ensures multiset(Of(qs, m))[x] == if x.from == m then multiset(qs)[x] else 0
  {
    if qs != [] {
      var q, rest := qs[0], qs[1..];
      assert qs == [q] + rest;
      OfCount(rest, m, x);
      var o := Of(rest, m);
      assert multiset([q] + o) == multiset{q} + multiset(o);
    }
  }

  /** The members of the round before, which have the queue `q`, and newcomers, from which nothing
      is queued. */
  ghost predicate OneQueue(told: seq<Told>, q: seq<Queued>) {
    forall k :: 0 <= k < |told| ==> told[k].joined && (told[k].before.msgQueue == q || (told[k].before.msgQueue == [] && Of(q, told[k].before.self) == []))
  }

  ghost predicate Resending(told: seq<Told>, q: seq<Queued>) {
    && (forall k :: 0 <= k < |told| ==> Resends(After(told[k]).1) == Of(q, told[k].before.self))
    && (forall k, l :: 0 <= k < l < |told| ==> told[k].before.self != told[l].before.self)
  }

  lemma {:induction false} ResentCount(told: seq<Told>, q: seq<Queued>, x: Queued)
    requires Resending(told, q)
    ensures multiset(AllResent(told))[x] == if exists k :: 0 <= k < |told| && told[k].before.self == x.from then multiset(q)[x] else 0
  {
    hide After, Of, Resends;
    if told != [] {
      ResentCount(told[1..], q, x);
      OfCount(q, told[0].before.self, x);
      var a, b := Resends(After(told[0]).1), AllResent(told[1..]);
      assert multiset(a + b) == multiset(a) + multiset(b);
      assert forall k :: 0 <= k < |told[1..]| ==> told[1..][k] == told[k + 1];
      if k :| 0 <= k < |told| && told[k].before.self == x.from {
        if k > 0 {
          assert told[1..][k - 1].before.self == x.from;
        }
      }
    }
  }

  /** After a join, what the members send again together are exactly the messages in the queue that
      come from members still there; each member sends its own, in order. */
  lemma {:induction false} ResentExact(ms: seq<Member>, version: nat, told: seq<Told>, q: seq<Queued>)
    requires ToldAll(ms, told) && OneQueue(told, q) && forall k :: 0 <= k < |told| ==> Fit(told[k].before, version)
    ensures Resending(told, q)
    ensures multiset(AllResent(told)) == multiset(FromMembers(Fresh(Sort(ms)), q))
  {
    hide Fit, After, Of, Resends, FromMembers, AllResent, Sort, Consistent, Position;
    SortElements(ms);
    DistinctMultiset(ms, Sort(ms));
    forall k | 0 <= k < |told|
      ensures Resends(After(told[k]).1) == Of(q, told[k].before.self)
    {
      MemberThere(ms, told, k);
      OneResent(told[k], ms, version);
      OfNone(told[k].before.self);
    }
    forall x
      ensures multiset(AllResent(told))[x] == multiset(FromMembers(Fresh(Sort(ms)), q))[x]
    {
      ResentCount(told, q, x);
      MembersCount(Fresh(Sort(ms)), q, x);
      FreshMembers(Sort(ms), x.from);
      if x.from in Sort(ms) {
        var k :| 0 <= k < |Sort(ms)| && Sort(ms)[k] == x.from;
        assert told[k].before.self == x.from;
      }
      assert forall k :: 0 <= k < |told| ==> told[k].before.self in Sort(ms);
    }
  }

  lemma {:induction false} FreshMembers(ms: seq<Member>, m: Member)
    ensures Position(Fresh(ms), m).Some? <==> m in ms
  {
    if m in ms {
      var k :| 0 <= k < |ms| && ms[k] == m;
      assert Fresh(ms)[k].member == m;
    }
  }

  /** What a change drops from the sync queue of an updating member is applied at the synced ones. */
  lemma {:induction false} DroppedApplied(r: Round, i: nat, j: nat, p: Phase)
    requires Valid(r) && i < |r.ms| && j < |r.ms| && p.Updating? && !InSync(r, i) && InSync(r, j)
    ensures forall x :: x in View(r, i, p).syncQueue ==> x in AppliedBy(r, j, p)
  {
    hide Valid, InSync, FromSynced, FromUnsynced, InsertAll, StateOf, LeaderOf, DcdbCallbacks, Marked;
    forall x | x in FirstPart(r, p.ns)
      ensures x in p.ns
    {
      var k :| 0 <= k < |FirstPart(r, p.ns)| && FirstPart(r, p.ns)[k] == x;
      var l := SyncedElement(Marked(r, false), p.ns, k);
    }
  }
}
