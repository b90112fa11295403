/** One synchronisation round, seen by all members: they start with the same queue and process
    the same deliveries. The state of each member is given in closed form. */
module Agreement {
  import opened MemTree
  import opened VmConfig
  import opened MemDb
  import opened TreeIndex
  import opened Leader
  import opened Delta
  import Ops = Operations
  import opened Dcdb
  import opened Dfsm
  import Epochs
  import opened Queues

  /** The members with their states before the round. */
  datatype Round = Round(ms: seq<Member>, version: nat, epoch: Epoch, queue: seq<Queued>, start: seq<Node>)

  /** The member has seen the configuration change and waits for the synchronisation to start. */
  ghost predicate Ready(r: Round, i: nat)
    requires i < |r.ms| == |r.start|
  {
    var n := r.start[i];
    && n.self == r.ms[i] && n.version == r.version && n.mode == StartSync && n.known
    && ClearStates(n.infos) == Fresh(r.ms) && n.msgQueue == r.queue && n.syncQueue == [] && n.data == None
    && Inv(n.db) && Exchangeable(n.db.tree)
  }

  ghost predicate Valid(r: Round) {
    && r.ms != [] && |r.start| == |r.ms| && Distinct(r.ms)
    && forall i :: 0 <= i < |r.ms| ==> Ready(r, i)
  }

  // ---------------------------------------------------------------------------------------
  // What the round decides
  // ---------------------------------------------------------------------------------------

  function DbOf(r: Round, i: nat): Db
    requires i < |r.start|
  {
    r.start[i].db
  }

  lemma {:induction false} RootThere(r: Round, i: nat)
    requires Valid(r) && i < |r.ms|
    ensures 0 in DbOf(r, i).tree.index
  {
    hide Inv;
    assert Ready(r, i);
    RootOf64(DbOf(r, i).tree);
  }

  /** The state that member `i` announces. */
  ghost function StateOf(r: Round, i: nat): Index
    requires Valid(r) && i < |r.ms|
  {
    RootThere(r, i);
    Encode(DbOf(r, i).tree)
  }

  ghost function States(r: Round): (s: seq<Index>)
    requires Valid(r)
    ensures |s| == |r.ms| && forall k :: 0 <= k < |s| ==> s[k] == StateOf(r, k)
  {
    seq(|r.ms|, k requires 0 <= k < |r.ms| => StateOf(r, k))
  }

  ghost function LeaderOf(r: Round): (l: nat)
    requires Valid(r)
    ensures l < |r.ms|
  {
    SelectLeader(States(r))
  }

  ghost predicate InSync(r: Round, i: nat)
    requires Valid(r) && i < |r.ms|
  {
    StateOf(r, i) == StateOf(r, LeaderOf(r))
  }

  /** The member table while states arrive; `got` are the members whose state is there. */
  ghost function Got(r: Round, got: set<nat>): (infos: seq<Info>)
    requires Valid(r)
    ensures |infos| == |r.ms|
    ensures forall k :: 0 <= k < |infos| ==> infos[k] == Info(r.ms[k], if k in got then Some(StateOf(r, k)) else None, false)
  {
    seq(|r.ms|, k requires 0 <= k < |r.ms| => Info(r.ms[k], if k in got then Some(StateOf(r, k)) else None, false))
  }

  /** The member table after the decision, with or without the states. */
  ghost function Marked(r: Round, states: bool): (infos: seq<Info>)
    requires Valid(r)
    ensures |infos| == |r.ms|
    ensures forall k :: 0 <= k < |infos| ==> infos[k] == Info(r.ms[k], if states then Some(StateOf(r, k)) else None, InSync(r, k))
  {
    seq(|r.ms|, k requires 0 <= k < |r.ms| => Info(r.ms[k], if states then Some(StateOf(r, k)) else None, InSync(r, k)))
  }

  lemma {:induction false} StartFacts(r: Round, i: nat)
    requires Valid(r) && i < |r.ms|
    ensures |r.start| == |r.ms| && Distinct(r.ms)
    ensures var n := r.start[i];
            && n.self == r.ms[i] && n.version == r.version && n.mode == StartSync && n.known
            && ClearStates(n.infos) == Fresh(r.ms) && n.msgQueue == r.queue && n.syncQueue == [] && n.data == None
  {
    hide Inv, Exchangeable;
    assert Ready(r, i);
  }

  lemma {:induction false} ReceiveStateIs(cb: Callbacks, n: Node, from: Member, st: Index)
    requires n.mode == StartSync && n.known
    ensures Receive(cb, n, from, Packet(n.version, State(n.epoch, st))) == ReceiveState(cb, n, from, st)
  {
    hide ReceiveState;
  }

  lemma {:induction false} PositionIs(infos: seq<Info>, ms: seq<Member>, k: nat)
    requires Distinct(ms) && |infos| == |ms| && k < |ms| && forall j :: 0 <= j < |ms| ==> infos[j].member == ms[j]
    ensures Position(infos, ms[k]) == Some(k)
  {
    var p := Position(infos, ms[k]);
    assert infos[k].member == ms[k];
    assert p.Some?;
    assert ms[p.value] == ms[k];
  }

  // ---------------------------------------------------------------------------------------
  // While states arrive
  // ---------------------------------------------------------------------------------------

  /** Member `i` when the states of `got` have arrived and its queue is `q`. */
  ghost function Waiting(r: Round, i: nat, got: set<nat>, q: seq<Queued>): Node
    requires Valid(r) && i < |r.ms|
  {
    r.start[i].(epoch := r.epoch, infos := Got(r, got), msgQueue := q)
  }

  /** The synchronisation request. */
  lemma {:induction false} StartStep(cb: Callbacks, r: Round, i: nat, from: Member)
    requires Valid(r) && i < |r.ms|
    ensures Receive(cb, r.start[i], from, Packet(r.version, SyncStart(r.epoch))) ==
            (Waiting(r, i, {}, r.queue), [Send(State(r.epoch, StateOf(r, i)))])
  {
    hide Valid, Receive, ClearStates, Fresh, Got, StateOf;
    StartFacts(r, i);
    RootThere(r, i);
    StateIs(r, i);
    FreshGot(r);
    Epochs.RequestStep(cb, r.start[i], from, r.epoch);
  }

  lemma {:induction false} StateIs(r: Round, i: nat)
    requires Valid(r) && i < |r.ms| && i < |r.start| && 0 in r.start[i].db.tree.index
    ensures StateOf(r, i) == Encode(r.start[i].db.tree)
  {
    hide Valid, Encode;
  }

  lemma {:induction false} FreshClear(ms: seq<Member>)
    ensures ClearStates(Fresh(ms)) == Fresh(ms)
  {
  }

  lemma {:induction false} FreshGot(r: Round)
    requires Valid(r)
    ensures Fresh(r.ms) == Got(r, {})
  {
    hide Valid, StateOf;
    assert forall k :: 0 <= k < |r.ms| ==> Fresh(r.ms)[k] == Got(r, {})[k];
  }

  /** A normal message is queued. */
  lemma {:induction false} WaitingNormal(cb: Callbacks, r: Round, i: nat, got: set<nat>, q: seq<Queued>, k: nat, count: nat, body: AppMsg)
    requires Valid(r) && i < |r.ms| && k < |r.ms|
    ensures Receive(cb, Waiting(r, i, got, q), r.ms[k], Packet(r.version, Normal(count, body))) ==
            (Waiting(r, i, got, InsertSorted(q, Queued(r.ms[k], count, body))), [])
  {
    hide Encode, Inv, Exchangeable, LeaveGroup, Position, InsertSorted;
    assert Ready(r, i);
    PositionIs(Got(r, got), r.ms, k);
  }

  /** A message of another epoch is ignored in every mode of a round. */
  lemma {:induction false} StaleStep(cb: Callbacks, n: Node, from: Member, msg: Msg)
    requires !Failed(n.mode) && n.known && !msg.Truncated? && !msg.Normal? && !msg.SyncStart? && msg.epoch != n.epoch
    ensures Receive(cb, n, from, Packet(n.version, msg)) == (n, [])
  {
  }

  /** A state that is not the last one. */
  lemma {:induction false} WaitingState(cb: Callbacks, r: Round, i: nat, got: set<nat>, q: seq<Queued>, k: nat)
    requires Valid(r) && i < |r.ms| && k < |r.ms| && k !in got && exists j :: 0 <= j < |r.ms| && j != k && j !in got
    ensures Receive(cb, Waiting(r, i, got, q), r.ms[k], Packet(r.version, State(r.epoch, StateOf(r, k)))) ==
            (Waiting(r, i, got + {k}, q), [])
  {
    hide Valid, Receive, LeaveGroup, Position, StateOf, Decide;
    StartFacts(r, i);
    PositionIs(Got(r, got), r.ms, k);
    var n := Waiting(r, i, got, q);
    ReceiveStateIs(cb, n, r.ms[k], StateOf(r, k));
    assert n.infos[k := n.infos[k].(state := Some(StateOf(r, k)))] == Got(r, got + {k});
    var j :| 0 <= j < |r.ms| && j != k && j !in got;
    assert !AllStates(Got(r, got + {k})) by { assert Got(r, got + {k})[j].state.None?; }
  }

  // ---------------------------------------------------------------------------------------
  // Between the last state and the completion
  // ---------------------------------------------------------------------------------------

  function InsertAll(queue: seq<Queued>, qs: seq<Queued>): seq<Queued> {
    if qs == [] then queue else InsertSorted(InsertAll(queue, qs[..|qs| - 1]), qs[|qs| - 1])
  }

  /** The queue `q` at the last state, split by the decision. */
  ghost function FirstPart(r: Round, q: seq<Queued>): seq<Queued>
    requires Valid(r)
  {
    FromSynced(Marked(r, false), q)
  }

  ghost function LastPart(r: Round, q: seq<Queued>): seq<Queued>
    requires Valid(r)
  {
    FromUnsynced(Marked(r, false), q)
  }

  /** What a synced member has applied after the further messages `ns`. */
  ghost function AppliedThen(r: Round, q: seq<Queued>, ns: seq<Queued>): seq<Queued>
    requires Valid(r)
  {
    FirstPart(r, q) + ns
  }

  ghost function SyncedView(cb: Callbacks, r: Round, i: nat, q: seq<Queued>, ns: seq<Queued>): Node
    requires Valid(r) && i < |r.ms|
  {
    var n, done := r.start[i], AppliedThen(r, q, ns);
    n.(epoch := r.epoch, mode := Synced, infos := Marked(r, false), msgQueue := LastPart(r, q),
       db := Applies(cb, n.db, done), applied := n.applied + done)
  }

  ghost function UpdatingView(r: Round, i: nat, q: seq<Queued>, ns: seq<Queued>, us: seq<Entry>): Node
    requires Valid(r) && i < |r.ms|
  {
    var n := r.start[i];
    n.(epoch := r.epoch, mode := Update, infos := Marked(r, true),
       msgQueue := InsertAll(LastPart(r, q), LastPart(r, ns)),
       syncQueue := FirstPart(r, q) + FirstPart(r, ns),
       data := Some(SyncData(StateOf(r, LeaderOf(r)), StateOf(r, i), us)))
  }

  /** Member `i` between the last state and the completion: `q` was its queue at the last state,
      `ns` are the normal messages and `us` the updates since then. */
  ghost function Between(cb: Callbacks, r: Round, i: nat, q: seq<Queued>, ns: seq<Queued>, us: seq<Entry>): Node
    requires Valid(r) && i < |r.ms|
  {
    if InSync(r, i) then SyncedView(cb, r, i, q, ns) else UpdatingView(r, i, q, ns, us)
  }

  predicate SameFlags(a: seq<Info>, b: seq<Info>) {
    SameMembers(a, b) && forall k :: 0 <= k < |a| ==> a[k].synced == b[k].synced
  }

  lemma {:induction false} FilterSame(a: seq<Info>, b: seq<Info>, qs: seq<Queued>)
    requires SameFlags(a, b)
    ensures FromSynced(a, qs) == FromSynced(b, qs) && FromUnsynced(a, qs) == FromUnsynced(b, qs)
  {
    hide Position;
    if qs != [] {
      PositionSame(a, b, qs[0].from);
      FilterSame(a, b, qs[1..]);
    }
  }

  /** The decision marks exactly the members whose tree is the leader's. */
  lemma {:induction false} MarkingIs(r: Round, all: set<nat>)
    requires Valid(r) && forall k :: 0 <= k < |r.ms| ==> k in all
    ensures AllStates(Got(r, all)) && IndexesOf(Got(r, all)) == States(r)
    ensures MarkSynced(Got(r, all), LeaderOf(r)) == Marked(r, true)
    ensures ClearStates(Marked(r, true)) == Marked(r, false)
  {
    hide Valid, StateOf, LeaderOf;
    var infos := Got(r, all);
    assert forall k :: 0 <= k < |infos| ==> infos[k].state == Some(StateOf(r, k));
    assert IndexesOf(infos) == States(r);
    assert MarkSynced(infos, LeaderOf(r)) == Marked(r, true);
    assert ClearStates(Marked(r, true)) == Marked(r, false);
  }

  /** The leader finds all the inodes it has to send. */
  lemma {:induction false} LeaderHasUpdates(r: Round)
    requires Valid(r)
    ensures Updates(DbOf(r, LeaderOf(r)).tree, States(r), LeaderOf(r)).Some?
  {
    hide Encode, MarkOf, TreeInv, ContentInv, Inv;
    var l := LeaderOf(r);
    assert Ready(r, l);
    var t, idx := DbOf(r, l).tree, States(r);
    assert idx[l] == StateOf(r, l);
    EncodeMarks(t);
    forall i | i in NeededInodes(idx, l)
      ensures i in t.index
    {
      var m :| m in idx[l].marks && Needed(idx, l, m) && m.inode == i;
      assert IsMark(t, m);
    }
  }

  /** The member when its own queue is about to be looked at. */
  lemma {:induction false} DecidedIs(r: Round, i: nat, all: set<nat>, q: seq<Queued>)
    requires Valid(r) && i < |r.ms| && forall k :: 0 <= k < |r.ms| ==> k in all
    ensures AllStates(Waiting(r, i, all, q).infos)
    ensures var d := Decided(Waiting(r, i, all, q), i);
            if InSync(r, i) then d == Waiting(r, i, all, q).(mode := Synced, infos := Marked(r, false), data := None)
            else d == Waiting(r, i, all, q).(mode := Update, infos := Marked(r, true), data := Some(SyncData(StateOf(r, LeaderOf(r)), StateOf(r, i), [])))
  {
    hide Valid, StateOf, IndexesOf, MarkSynced, ClearStates;
    StartFacts(r, i);
    MarkingIs(r, all);
    assert States(r)[i] == StateOf(r, i) && States(r)[LeaderOf(r)] == StateOf(r, LeaderOf(r));
  }

  ghost function UpdatesOut(r: Round, i: nat): seq<Out>
    requires Valid(r) && i < |r.ms|
  {
    var us := Updates(DbOf(r, i).tree, States(r), LeaderOf(r));
    if i == LeaderOf(r) && us.Some? then [SendUpdates(us.value)] else []
  }

  lemma {:induction false} DrainedSynced(cb: Callbacks, r: Round, i: nat, n: Node, q: seq<Queued>)
    requires Valid(r) && i < |r.ms| && Clean(cb, DbOf(r, i), FirstPart(r, q))
    requires n == r.start[i].(epoch := r.epoch, mode := Synced, infos := Marked(r, false), msgQueue := q)
    ensures Drain(cb, n, q, []) == (SyncedView(cb, r, i, q, []), true)
  {
    hide Valid, Drain, Clean, Applies, FromSynced, FromUnsynced;
    DrainSynced(cb, n, q, []);
    var sel := FirstPart(r, q);
    assert sel + [] == sel && [] + LastPart(r, q) == LastPart(r, q);
  }

  lemma {:induction false} DrainedUpdating(cb: Callbacks, r: Round, i: nat, n: Node, q: seq<Queued>)
    requires Valid(r) && i < |r.ms| && n.syncQueue == []
    requires n == r.start[i].(epoch := r.epoch, mode := Update, infos := Marked(r, true), msgQueue := q, data := Some(SyncData(StateOf(r, LeaderOf(r)), StateOf(r, i), [])))
    ensures Drain(cb, n, q, []) == (UpdatingView(r, i, q, [], []), true)
  {
    hide Valid, Drain, FromSynced, FromUnsynced, StateOf, LeaderOf;
    DrainUpdating(cb, n, q, []);
    FilterSame(Marked(r, true), Marked(r, false), q);
    EmptyParts(r);
    var sel := FirstPart(r, q);
    assert sel + [] == sel && [] + sel == sel && [] + LastPart(r, q) == LastPart(r, q);
  }

  lemma {:induction false} DrainedIs(cb: Callbacks, r: Round, i: nat, all: set<nat>, q: seq<Queued>)
    requires Valid(r) && i < |r.ms| && forall k :: 0 <= k < |r.ms| ==> k in all
    requires InSync(r, i) ==> Clean(cb, DbOf(r, i), FirstPart(r, q))
    ensures AllStates(Waiting(r, i, all, q).infos)
    ensures DeliverQueue(cb, Decided(Waiting(r, i, all, q), i)) == (Between(cb, r, i, q, [], []), true)
  {
    hide Valid, StateOf, Drain, Clean, Decided, InSync, SyncedView, UpdatingView, Marked, FirstPart;
    StartFacts(r, i);
    DecidedIs(r, i, all, q);
    var d := Decided(Waiting(r, i, all, q), i);
    if InSync(r, i) {
      DrainedSynced(cb, r, i, d, q);
    } else {
      DrainedUpdating(cb, r, i, d, q);
    }
  }

  lemma {:induction false} DecideStep(cb: Callbacks, r: Round, i: nat, all: set<nat>, q: seq<Queued>)
    requires Valid(r) && i < |r.ms| && forall k :: 0 <= k < |r.ms| ==> k in all
    requires InSync(r, i) ==> Clean(cb, DbOf(r, i), FirstPart(r, q))
    ensures AllStates(Waiting(r, i, all, q).infos)
    ensures Decide(cb, Waiting(r, i, all, q), i) == (Between(cb, r, i, q, [], []), UpdatesOut(r, i))
  {
    hide Valid, StateOf, IndexesOf, Decide, Decided, DeliverQueue, Between, InSync, Clean, FirstPart, Updates;
    MarkingIs(r, all);
    LeaderHasUpdates(r);
    DrainedIs(cb, r, i, all, q);
    DecideOut(cb, Waiting(r, i, all, q), i);
  }

  lemma {:induction false} EmptyParts(r: Round)
    requires Valid(r)
    ensures FirstPart(r, []) == [] && LastPart(r, []) == []
  {
    hide Valid;
  }

  /** A decision by its parts. */
  lemma {:induction false} DecideOut(cb: Callbacks, n: Node, me: nat)
    requires AllStates(n.infos) && me < |n.infos|
    ensures var idx := IndexesOf(n.infos); var leader := SelectLeader(idx);
            var us := Updates(n.db.tree, idx, leader); var (s, ok) := DeliverQueue(cb, Decided(n, me));
            (leader == me ==> us.Some?) && ok ==>
              Decide(cb, n, me) == (s, if leader == me then [SendUpdates(us.value)] else [])
  {
    hide Drain, LeaveGroup, IndexesOf, SelectLeader, Updates, MarkSynced, ClearStates;
  }

  /** The last state: the member decides. */
  lemma {:induction false} LastState(cb: Callbacks, r: Round, i: nat, got: set<nat>, q: seq<Queued>, k: nat)
    requires Valid(r) && i < |r.ms| && k < |r.ms| && k !in got && forall j :: 0 <= j < |r.ms| ==> j in got || j == k
    requires InSync(r, i) ==> Clean(cb, DbOf(r, i), FirstPart(r, q))
    ensures Receive(cb, Waiting(r, i, got, q), r.ms[k], Packet(r.version, State(r.epoch, StateOf(r, k)))) ==
            (Between(cb, r, i, q, [], []), UpdatesOut(r, i))
  {
    hide Valid, Receive, LeaveGroup, Position, StateOf, Decide, Between, UpdatesOut, InSync, Clean, FirstPart;
    StartFacts(r, i);
    PositionIs(Got(r, got), r.ms, k);
    PositionIs(Got(r, got), r.ms, i);
    var n := Waiting(r, i, got, q);
    ReceiveStateIs(cb, n, r.ms[k], StateOf(r, k));
    assert n.infos[k := n.infos[k].(state := Some(StateOf(r, k)))] == Got(r, got + {k});
    DecideStep(cb, r, i, got + {k}, q);
  }

  lemma {:induction false} PartsAppend(r: Round, a: seq<Queued>, b: seq<Queued>)
    requires Valid(r)
    ensures FirstPart(r, a + b) == FirstPart(r, a) + FirstPart(r, b) && LastPart(r, a + b) == LastPart(r, a) + LastPart(r, b)
  {
    hide Valid;
    FilterAppend(Marked(r, false), a, b);
  }

  lemma {:induction false} PartsOne(r: Round, k: nat, x: Queued)
    requires Valid(r) && k < |r.ms| && x.from == r.ms[k]
    ensures FirstPart(r, [x]) == if InSync(r, k) then [x] else []
    ensures LastPart(r, [x]) == if InSync(r, k) then [] else [x]
    ensures Position(Marked(r, true), x.from) == Some(k)
  {
    hide Valid, InSync, Position, FromSynced, FromUnsynced;
    StartFacts(r, k);
    PositionIs(Marked(r, false), r.ms, k);
    PositionIs(Marked(r, true), r.ms, k);
    FilterOne(Marked(r, false), x);
  }

  lemma {:induction false} FilterOne(infos: seq<Info>, x: Queued)
    ensures FromSynced(infos, [x]) == if SyncedMember(infos, x.from) then [x] else []
    ensures FromUnsynced(infos, [x]) == if Unsynced(infos, x.from) then [x] else []
  {
    hide SyncedMember, Unsynced;
    assert [x][1..] == [];
  }

  lemma {:induction false} InsertAllMore(queue: seq<Queued>, qs: seq<Queued>, x: Queued)
    ensures InsertAll(queue, qs + [x]) == InsertSorted(InsertAll(queue, qs), x)
  {
    hide InsertSorted;
    assert (qs + [x])[..|qs|] == qs;
  }

  /** A normal message before the completion. */
  lemma {:induction false} BetweenNormal(cb: Callbacks, r: Round, i: nat, q: seq<Queued>, ns: seq<Queued>, us: seq<Entry>, k: nat, x: Queued)
    requires Valid(r) && i < |r.ms| && k < |r.ms| && x.from == r.ms[k]
    requires InSync(r, i) ==> Clean(cb, DbOf(r, i), AppliedThen(r, q, ns + [x]))
    ensures ReceiveNormal(cb, Between(cb, r, i, q, ns, us), x) == Between(cb, r, i, q, ns + [x], us)
  {
    hide Valid, StateOf, Clean, Applies, FromSynced, FromUnsynced, LeaveGroup, Position, InsertSorted, InsertAll, FirstPart, LastPart, InSync;
    StartFacts(r, i);
    if InSync(r, i) {
      SyncedNormal(cb, r, i, q, ns, x);
    } else {
      PartsAppend(r, ns, [x]);
      PartsOne(r, k, x);
      InsertAllMore(LastPart(r, q), LastPart(r, ns), x);
      assert FirstPart(r, q) + FirstPart(r, ns) + [x] == FirstPart(r, q) + (FirstPart(r, ns) + [x]);
      assert FirstPart(r, ns) + [] == FirstPart(r, ns) && LastPart(r, ns) + [] == LastPart(r, ns);
    }
  }

  lemma {:induction false} SyncedNormal(cb: Callbacks, r: Round, i: nat, q: seq<Queued>, ns: seq<Queued>, x: Queued)
    requires Valid(r) && i < |r.ms| && Clean(cb, DbOf(r, i), AppliedThen(r, q, ns + [x]))
    ensures ReceiveNormal(cb, SyncedView(cb, r, i, q, ns), x) == SyncedView(cb, r, i, q, ns + [x])
  {
    hide Valid, LeaveGroup, FirstPart, LastPart, Marked;
    StartFacts(r, i);
    var done, db := AppliedThen(r, q, ns), DbOf(r, i);
    assert AppliedThen(r, q, ns + [x]) == done + [x];
    AppliesAppend(cb, db, done, [x]);
    hide Clean, Applies, AppliedThen;
    OneApplied(cb, Applies(cb, db, done), x);
    assert r.start[i].applied + (done + [x]) == (r.start[i].applied + done) + [x];
  }

  lemma {:induction false} OneApplied(cb: Callbacks, db: Db, x: Queued)
    ensures Applies(cb, db, [x]) == cb.deliver(db, x.from, x.body)
    ensures Clean(cb, db, [x]) <==> !cb.deliver(db, x.from, x.body).errors
  {
  }

  /** An update of the leader. */
  lemma {:induction false} BetweenUpdate(cb: Callbacks, r: Round, i: nat, q: seq<Queued>, ns: seq<Queued>, us: seq<Entry>, from: Member, e: Entry)
    requires Valid(r) && i < |r.ms|
    ensures Receive(cb, Between(cb, r, i, q, ns, us), from, Packet(r.version, UpdateEntry(r.epoch, Some(e)))) ==
            (Between(cb, r, i, q, ns, us + [e]), [])
  {
    hide Valid, StateOf, Applies, LeaveGroup, InsertAll, FirstPart, LastPart, InSync, Marked;
    StartFacts(r, i);
  }

  // ---------------------------------------------------------------------------------------
  // After the completion
  // ---------------------------------------------------------------------------------------

  /** All members are synced, and no states are left. */
  function AllMarked(ms: seq<Member>): (infos: seq<Info>)
    ensures |infos| == |ms|
  {
    seq(|ms|, k requires 0 <= k < |ms| => Info(ms[k], None, true))
  }

  /** Everything member `i` applies in the round, in order. */
  ghost function Sequence(r: Round, i: nat, q: seq<Queued>, ns: seq<Queued>): seq<Queued>
    requires Valid(r) && i < |r.ms|
  {
    if InSync(r, i) then AppliedThen(r, q, ns) + LastPart(r, q)
    else FirstPart(r, q) + FirstPart(r, ns) + InsertAll(LastPart(r, q), LastPart(r, ns))
  }

  /** What member `i` commits. */
  ghost function DataOf(r: Round, i: nat, us: seq<Entry>): SyncData
    requires Valid(r) && i < |r.ms|
  {
    SyncData(StateOf(r, LeaderOf(r)), StateOf(r, i), us)
  }

  /** The database to which the sequence is applied, and whether there is one. */
  ghost function Base(cb: Callbacks, r: Round, i: nat, us: seq<Entry>): (Db, bool)
    requires Valid(r) && i < |r.ms|
  {
    if InSync(r, i) then (DbOf(r, i), true) else cb.commit(DbOf(r, i), DataOf(r, i, us))
  }

  ghost predicate Completes(cb: Callbacks, r: Round, i: nat, q: seq<Queued>, ns: seq<Queued>, us: seq<Entry>)
    requires Valid(r) && i < |r.ms|
  {
    var (db, ok) := Base(cb, r, i, us);
    ok && Clean(cb, db, Sequence(r, i, q, ns))
  }

  ghost function Finished(cb: Callbacks, r: Round, i: nat, q: seq<Queued>, ns: seq<Queued>, us: seq<Entry>): Node
    requires Valid(r) && i < |r.ms|
  {
    var n, s := r.start[i], Sequence(r, i, q, ns);
    n.(epoch := r.epoch, mode := Synced, infos := AllMarked(r.ms), msgQueue := [],
       db := Applies(cb, Base(cb, r, i, us).0, s), applied := n.applied + s)
  }

  /** The completion, at a member that was synced before. */
  lemma {:induction false} CompleteSynced(cb: Callbacks, r: Round, i: nat, q: seq<Queued>, ns: seq<Queued>, us: seq<Entry>)
    requires Valid(r) && i < |r.ms| && InSync(r, i) && Completes(cb, r, i, q, ns, us)
    ensures AllSynced(cb, SyncedView(cb, r, i, q, ns)) == Finished(cb, r, i, q, ns, us)
  {
    hide Valid, Drain, Clean, Applies, FromSynced, FromUnsynced, FromMembers, FromOthers, LeaveGroup, Position, InSync, AllMembers;
    StartFacts(r, i);
    var n := SyncedView(cb, r, i, q, ns);
    var m := n.(infos := MarkAll(n.infos));
    assert m.infos == AllMarked(r.ms);
    DrainSynced(cb, m, m.msgQueue, []);
    UnsyncedMembers(Marked(r, false), q);
    MembersSame(Marked(r, false), m.infos, n.msgQueue);
    OnlyMembers(m.infos, n.msgQueue);
    EverybodySynced(m.infos, n.msgQueue);
    var done, last := AppliedThen(r, q, ns), LastPart(r, q);
    AppliesAppend(cb, DbOf(r, i), done, last);
    assert r.start[i].applied + (done + last) == (r.start[i].applied + done) + last;
    assert [] + FromUnsynced(m.infos, n.msgQueue) == [];
  }

  lemma {:induction false} InsertAllMembers(infos: seq<Info>, queue: seq<Queued>, qs: seq<Queued>)
    requires AllMembers(infos, queue) && AllMembers(infos, qs)
    ensures AllMembers(infos, InsertAll(queue, qs))
  {
    hide Position, InsertSorted;
    if qs != [] {
      var n := |qs| - 1;
      InsertAllMembers(infos, queue, qs[..n]);
      InsertMembers(infos, InsertAll(queue, qs[..n]), qs[n]);
    }
  }

  /** The completion, at a member that was updating. */
  lemma {:induction false} CompleteUpdating(cb: Callbacks, r: Round, i: nat, q: seq<Queued>, ns: seq<Queued>, us: seq<Entry>)
    requires Valid(r) && i < |r.ms| && !InSync(r, i) && Completes(cb, r, i, q, ns, us)
    ensures FinishUpdate(cb, UpdatingView(r, i, q, ns, us)) == Finished(cb, r, i, q, ns, us)
  {
    hide Valid, FinishUpdate, Clean, Applies, FromSynced, FromUnsynced, FromMembers, FromOthers, LeaveGroup, Position, InSync, AllMembers, InsertAll, StateOf;
    StartFacts(r, i);
    var n := UpdatingView(r, i, q, ns, us);
    UnsyncedMembers(Marked(r, false), q);
    UnsyncedMembers(Marked(r, false), ns);
    InsertAllMembers(Marked(r, false), LastPart(r, q), LastPart(r, ns));
    MembersSame(Marked(r, false), n.infos, n.msgQueue);
    OnlyMembers(n.infos, n.msgQueue);
    FinishClosed(cb, n);
    assert ClearStates(MarkAll(n.infos)) == AllMarked(r.ms);
    assert n.data.value == DataOf(r, i, us);
    assert n.syncQueue + n.msgQueue == Sequence(r, i, q, ns);
  }

  lemma {:induction false} CompleteStep(cb: Callbacks, r: Round, i: nat, q: seq<Queued>, ns: seq<Queued>, us: seq<Entry>, from: Member)
    requires Valid(r) && i < |r.ms| && Completes(cb, r, i, q, ns, us)
    ensures Receive(cb, Between(cb, r, i, q, ns, us), from, Packet(r.version, UpdateComplete(r.epoch))) ==
            (Finished(cb, r, i, q, ns, us), [])
  {
    hide Valid, FinishUpdate, AllSynced, Completes, Applies, LeaveGroup, InSync, AllMembers, InsertAll, StateOf, Finished, FirstPart, LastPart, Marked;
    StartFacts(r, i);
    if InSync(r, i) {
      CompleteSynced(cb, r, i, q, ns, us);
    } else {
      CompleteUpdating(cb, r, i, q, ns, us);
    }
  }

  // ---------------------------------------------------------------------------------------
  // Agreement of the databases
  // ---------------------------------------------------------------------------------------

  /** The callbacks of the configuration database. */
  ghost function DcdbCallbacks(): Callbacks {
    Callbacks((db: Db, from: Member, m: AppMsg) => Deliver(db, from, m),
              (db: Db, sd: SyncData) => if 0 in db.tree.index then Commit(db, sd.master, sd.own, sd.updates) else (db, false))
  }

  lemma {:induction false} AppliesCore(a: Db, b: Db, qs: seq<Queued>)
    requires CoreOf(a) == CoreOf(b)
    ensures var cb := DcdbCallbacks();
            CoreOf(Applies(cb, a, qs)) == CoreOf(Applies(cb, b, qs)) && (Clean(cb, a, qs) <==> Clean(cb, b, qs))
    decreases |qs|
  {
    hide Deliver, Commit;
    if qs != [] {
      var x := qs[0];
      DeliverCore(a, b, x.from, x.body);
      AppliesCore(Deliver(a, x.from, x.body), Deliver(b, x.from, x.body), qs[1..]);
    }
  }

  /** The updates in the log are those the leader has collected. */
  ghost predicate UpdatesSent(r: Round, us: seq<Entry>)
    requires Valid(r)
  {
    var l := LeaderOf(r);
    var u := Updates(DbOf(r, l).tree, States(r), l);
    u.Some? && ListsUpdates(u.value, us)
  }

  /** What the commit of a follower needs to give the leader's database: a tree without misplaced
      files and, without a directory `nodes`, no VM listed before. */
  ghost predicate Committable(r: Round)
    requires Valid(r)
  {
    var t := DbOf(r, LeaderOf(r)).tree;
    && Scannable(t)
    && forall i :: 0 <= i < |r.ms| && !InSync(r, i) ==> IsDirAt(t, [NODES]) || DbOf(r, i).vmlist == map[]
  }

  lemma {:induction false} DbFacts(r: Round, i: nat)
    requires Valid(r) && i < |r.ms|
    ensures Inv(DbOf(r, i)) && Exchangeable(DbOf(r, i).tree)
  {
    hide Inv, Exchangeable;
    assert Ready(r, i);
  }

  /** A member marked synced has the leader's database. */
  lemma {:induction false} SyncedCore(r: Round, i: nat)
    requires Valid(r) && i < |r.ms|
    ensures InSync(r, i) <==> DbOf(r, i).tree == DbOf(r, LeaderOf(r)).tree
    ensures InSync(r, i) ==> CoreOf(DbOf(r, i)) == CoreOf(DbOf(r, LeaderOf(r)))
  {
    hide Valid, TreeInv, ContentInv, Mirror, VmInv, Encode, LeaderOf, Exchangeable;
    var l := LeaderOf(r);
    StartFacts(r, i);
    DbFacts(r, i);
    DbFacts(r, l);
    RootThere(r, i);
    RootThere(r, l);
    EncodeInjective(DbOf(r, i).tree, DbOf(r, l).tree);
    if InSync(r, i) {
      VmListUnique(DbOf(r, l).tree, DbOf(r, i).vmlist, DbOf(r, l).vmlist);
    }
  }

  /** An updating member commits the leader's database. */
  lemma {:induction false} CommitCore(r: Round, i: nat, us: seq<Entry>)
    requires Valid(r) && i < |r.ms| && !InSync(r, i) && UpdatesSent(r, us) && Committable(r)
    ensures var (db, ok) := Base(DcdbCallbacks(), r, i, us); ok && Inv(db) && CoreOf(db) == CoreOf(DbOf(r, LeaderOf(r)))
  {
    hide Valid, Inv, Encode, LeaderOf, Exchangeable, Commit, Scannable, IsDirAt, Updates, ListsUpdates, Transfers, TreeInv;
    var l := LeaderOf(r);
    StartFacts(r, i);
    DbFacts(r, i);
    DbFacts(r, l);
    RootThere(r, i);
    RootThere(r, l);
    var leader, db := DbOf(r, l), DbOf(r, i);
    assert i != l;
    assert States(r)[l] == Encode(leader.tree) && States(r)[i] == Encode(db.tree);
    ExchangeableTree(leader.tree);
    UpdatesTransfer(leader.tree, States(r), l, us, i);
    DeltaExact(leader, db, us);
    InvClean(leader);
    InvClean(Commit(db, Encode(leader.tree), Encode(db.tree), us).0);
  }

  lemma {:induction false} ExchangeableTree(t: Tree)
    requires Exchangeable(t)
    ensures TreeInv(t)
  {
  }

  lemma {:induction false} InvClean(db: Db)
    ensures Inv(db) ==> !db.errors
  {
  }

  lemma {:induction false} BaseCore(r: Round, i: nat, us: seq<Entry>)
    requires Valid(r) && i < |r.ms| && UpdatesSent(r, us) && Committable(r)
    ensures var (db, ok) := Base(DcdbCallbacks(), r, i, us); ok && Inv(db) && CoreOf(db) == CoreOf(DbOf(r, LeaderOf(r)))
  {
    hide Valid, InSync, DcdbCallbacks, UpdatesSent, Committable, Inv;
    if InSync(r, i) {
      SyncedCore(r, i);
      DbFacts(r, i);
    } else {
      CommitCore(r, i, us);
    }
  }

  /** No member that is not yet synced has a message delivered between the last state and the
      completion. */
  ghost predicate Proviso(r: Round, ns: seq<Queued>)
    requires Valid(r)
  {
    LastPart(r, ns) == []
  }

  lemma {:induction false} LeaderInSync(r: Round)
    requires Valid(r)
    ensures InSync(r, LeaderOf(r))
  {
    hide Valid;
  }

  lemma {:induction false} ProvisoSequence(r: Round, i: nat, q: seq<Queued>, ns: seq<Queued>)
    requires Valid(r) && i < |r.ms| && Proviso(r, ns) && AllMembers(Fresh(r.ms), ns)
    ensures Sequence(r, i, q, ns) == FirstPart(r, q) + ns + LastPart(r, q)
  {
    hide Valid, FromSynced, FromUnsynced, InSync, AllMembers;
    MembersSame(Fresh(r.ms), Marked(r, false), ns);
    OnlySynced(Marked(r, false), ns);
    assert InsertAll(LastPart(r, q), []) == LastPart(r, q);
  }

  lemma {:induction false} OnlySynced(infos: seq<Info>, qs: seq<Queued>)
    requires AllMembers(infos, qs) && FromUnsynced(infos, qs) == []
    ensures FromSynced(infos, qs) == qs
  {
    hide Position, SyncedMember;
    if qs != [] {
      assert Position(infos, qs[0].from).Some?;
      FilterHead(infos, qs);
      OnlySynced(infos, qs[1..]);
      assert qs == [qs[0]] + qs[1..];
    }
  }

  /** Sync-round agreement: every member completes the round, with the same database: the
      leader's, with the same sequence of messages applied. */
  lemma {:induction false} RoundAgreement(r: Round, q: seq<Queued>, ns: seq<Queued>, us: seq<Entry>, i: nat)
    requires Valid(r) && i < |r.ms| && UpdatesSent(r, us) && Committable(r) && Proviso(r, ns) && AllMembers(Fresh(r.ms), ns)
    requires Clean(DcdbCallbacks(), DbOf(r, LeaderOf(r)), FirstPart(r, q) + ns + LastPart(r, q))
    ensures var cb, s := DcdbCallbacks(), FirstPart(r, q) + ns + LastPart(r, q);
            && Completes(cb, r, i, q, ns, us)
            && Finished(cb, r, i, q, ns, us).applied == r.start[i].applied + s
            && CoreOf(Finished(cb, r, i, q, ns, us).db) == CoreOf(Applies(cb, DbOf(r, LeaderOf(r)), s))
  {
    hide Valid, FirstPart, LastPart, Base, Clean, Applies, DcdbCallbacks, UpdatesSent, Committable, Sequence, Proviso, AllMembers;
    StartFacts(r, i);
    ProvisoSequence(r, i, q, ns);
    BaseCore(r, i, us);
    AppliesCore(Base(DcdbCallbacks(), r, i, us).0, DbOf(r, LeaderOf(r)), Sequence(r, i, q, ns));
  }

  // ---------------------------------------------------------------------------------------
  // When all members apply the same sequence
  // ---------------------------------------------------------------------------------------

  /** Each message compares no greater than the next. */
  predicate NotFalling(qs: seq<Queued>) {
    forall k :: 0 < k < |qs| ==> CountCompare(qs[k - 1].count, qs[k].count) <= 0
  }

  /** Every message of `a` compares greater than every one of `b`. */
  predicate AllGreater(a: seq<Queued>, b: seq<Queued>) {
    forall k, l :: 0 <= k < |a| && 0 <= l < |b| ==> CountCompare(a[k].count, b[l].count) > 0
  }

  /** Late messages of members not yet synced come after those of synced ones, with counts that do
      not fall, and all that are queued have greater counts. */
  ghost predicate SameOrder(r: Round, q: seq<Queued>, ns: seq<Queued>)
    requires Valid(r)
  {
    && ns == FirstPart(r, ns) + LastPart(r, ns)
    && NotFalling(LastPart(r, ns)) && AllGreater(LastPart(r, q), LastPart(r, ns))
  }

  predicate AllDifferent(qs: seq<Queued>) {
    forall k, l :: 0 <= k < l < |qs| ==> qs[k] != qs[l]
  }

  /** Where a message is inserted. */
  function Place(queue: seq<Queued>, q: Queued): (k: nat)
    ensures k <= |queue|
  {
    if queue == [] then 0
    else if CountCompare(queue[|queue| - 1].count, q.count) <= 0 then |queue|
    else Place(queue[..|queue| - 1], q)
  }

  lemma {:induction false} PlaceIs(queue: seq<Queued>, q: Queued)
    ensures var k := Place(queue, q);
            && InsertSorted(queue, q) == queue[..k] + [q] + queue[k..]
            && (k > 0 ==> CountCompare(queue[k - 1].count, q.count) <= 0)
            && forall j :: k <= j < |queue| ==> CountCompare(queue[j].count, q.count) > 0
  {
    hide CountCompare;
    if queue != [] {
      var n := |queue| - 1;
      if CountCompare(queue[n].count, q.count) > 0 {
        PlaceIs(queue[..n], q);
        var k := Place(queue[..n], q);
        assert queue[..n][..k] == queue[..k] && queue[..n][k..] + [queue[n]] == queue[k..];
      }
    }
  }

  lemma {:induction false} PlaceUnique(queue: seq<Queued>, q: Queued, k: nat)
    requires k <= |queue| && (k > 0 ==> CountCompare(queue[k - 1].count, q.count) <= 0)
    requires forall j :: k <= j < |queue| ==> CountCompare(queue[j].count, q.count) > 0
    ensures Place(queue, q) == k
  {
    hide CountCompare;
    PlaceIs(queue, q);
  }

  /** The one place where a sequence without repetitions has this message. */
  lemma {:induction false} SplitUnique(a: seq<Queued>, b: seq<Queued>, c: seq<Queued>, d: seq<Queued>, x: Queued)
    requires a + [x] + b == c + [x] + d && AllDifferent(a + [x] + b)
    ensures a == c && b == d
  {
    var s := a + [x] + b;
    assert s[|a|] == x && s[|c|] == x;
    assert |a| == |c|;
    assert a == s[..|a|] && c == s[..|c|] && b == s[|a| + 1..] && d == s[|c| + 1..];
  }

  lemma {:induction false} Snoc(u: seq<Queued>, w: seq<Queued>)
    requires u != []
    ensures u + w == u[..|u| - 1] + [u[|u| - 1]] + w
  {
  }

  lemma {:induction false} NotFallingMore(u: seq<Queued>, w: seq<Queued>)
    requires u != []
    ensures var n := |u| - 1;
            NotFalling(u) && AllGreater(w, u) <==>
              && NotFalling(u[..n]) && AllGreater(w, u[..n])
              && (n > 0 ==> CountCompare(u[n - 1].count, u[n].count) <= 0)
              && forall j :: 0 <= j < |w| ==> CountCompare(w[j].count, u[n].count) > 0
  {
    hide CountCompare;
  }

  lemma {:induction false} DifferentLess(u: seq<Queued>, w: seq<Queued>)
    requires AllDifferent(u + w) && u != []
    ensures AllDifferent(u[..|u| - 1] + w)
  {
    var n := |u| - 1;
    var s, t := u[..n] + w, u + w;
    forall k, l | 0 <= k < l < |s|
      ensures s[k] != s[l]
    {
      var k', l' := if k < n then k else k + 1, if l < n then l else l + 1;
      assert t[k'] == s[k] && t[l'] == s[l];
    }
  }

  lemma {:induction false} PlaceFront(u: seq<Queued>, w: seq<Queued>, x: Queued)
    ensures Place(u + w, x) == |u| <==>
              && (|u| > 0 ==> CountCompare(u[|u| - 1].count, x.count) <= 0)
              && forall j :: 0 <= j < |w| ==> CountCompare(w[j].count, x.count) > 0
  {
    hide CountCompare;
    var s, n := u + w, |u|;
    assert forall j :: 0 <= j < |w| ==> w[j] == s[n + j];
    assert n > 0 ==> s[n - 1] == u[n - 1];
    PlaceIs(s, x);
    if (n > 0 ==> CountCompare(u[n - 1].count, x.count) <= 0) && forall j :: 0 <= j < |w| ==> CountCompare(w[j].count, x.count) > 0 {
      forall j | n <= j < |s|
        ensures CountCompare(s[j].count, x.count) > 0
      {
        assert s[j] == w[j - n];
      }
      PlaceUnique(s, x, n);
    }
  }

  lemma {:induction false} InsertedAt(queue: seq<Queued>, x: Queued, u: seq<Queued>, w: seq<Queued>)
    requires AllDifferent(u + [x] + w)
    ensures InsertSorted(queue, x) == u + [x] + w <==> queue == u + w && Place(queue, x) == |u|
  {
    hide InsertSorted, Place;
    PlaceIs(queue, x);
    var k := Place(queue, x);
    if InsertSorted(queue, x) == u + [x] + w {
      SplitUnique(queue[..k], queue[k..], u, w, x);
      assert queue == queue[..k] + queue[k..];
    }
  }

  /** Inserting the messages one by one puts them all in front, in order, exactly if their counts do
      not fall and are less than those queued. */
  lemma {:induction false} AllInFront(w: seq<Queued>, u: seq<Queued>)
    requires AllDifferent(u + w)
    ensures InsertAll(w, u) == u + w <==> NotFalling(u) && AllGreater(w, u)
    decreases |u|
  {
    hide InsertSorted, Place, CountCompare;
    if u == [] {
      assert u + w == w;
    } else {
      var n := |u| - 1;
      var v, x := u[..n], u[n];
      DifferentLess(u, w);
      AllInFront(w, v);
      Snoc(u, w);
      InsertedAt(InsertAll(w, v), x, v, w);
      PlaceFront(v, w, x);
      NotFallingMore(u, w);
    }
  }

  lemma {:induction false} InsertAllElements(queue: seq<Queued>, qs: seq<Queued>)
    ensures multiset(InsertAll(queue, qs)) == multiset(queue) + multiset(qs)
  {
    hide InsertSorted;
    if qs != [] {
      var n := |qs| - 1;
      assert qs == qs[..n] + [qs[n]];
      InsertAllElements(queue, qs[..n]);
      Queues.InsertElements(InsertAll(queue, qs[..n]), qs[n]);
    }
  }

  lemma {:induction false} InsertAllLength(queue: seq<Queued>, qs: seq<Queued>)
    ensures |InsertAll(queue, qs)| == |queue| + |qs|
  {
    hide InsertAll;
    InsertAllElements(queue, qs);
    var r := InsertAll(queue, qs);
    assert |multiset(r)| == |r| && |multiset(queue)| == |queue| && |multiset(qs)| == |qs|;
  }

  lemma {:induction false} FilterLength(infos: seq<Info>, qs: seq<Queued>)
    requires AllMembers(infos, qs)
    ensures |qs| == |FromSynced(infos, qs)| + |FromUnsynced(infos, qs)|
  {
    hide FromSynced, FromUnsynced, AllMembers;
    FilterSplits(infos, qs);
    var s, u := FromSynced(infos, qs), FromUnsynced(infos, qs);
    assert |multiset(qs)| == |qs| && |multiset(s)| == |s| && |multiset(u)| == |u|;
  }

  lemma {:induction false} FilterTwice(infos: seq<Info>, qs: seq<Queued>)
    ensures FromSynced(infos, FromSynced(infos, qs)) == FromSynced(infos, qs) && FromUnsynced(infos, FromSynced(infos, qs)) == []
  {
    hide SyncedMember;
    if qs != [] {
      var q, rest := qs[0], qs[1..];
      FilterTwice(infos, rest);
      if SyncedMember(infos, q.from) {
        FilterAppend(infos, [q], FromSynced(infos, rest));
        FilterOne(infos, q);
      } else {
        assert FromSynced(infos, qs) == FromSynced(infos, rest);
      }
    }
  }

  /** A sequence that begins with all its synced messages ends with the others. */
  lemma {:induction false} SyncedFirst(infos: seq<Info>, ns: seq<Queued>, rest: seq<Queued>)
    requires AllMembers(infos, ns) && ns == FromSynced(infos, ns) + rest
    ensures rest == FromUnsynced(infos, ns)
  {
    hide FromSynced, FromUnsynced;
    var s := FromSynced(infos, ns);
    FilterAppend(infos, s, rest);
    FilterTwice(infos, ns);
    assert |FromSynced(infos, rest)| == 0;
    assert AllMembers(infos, rest) by {
      forall k | 0 <= k < |rest|
        ensures Position(infos, rest[k].from).Some?
      {
        assert ns[|s| + k] == rest[k];
      }
    }
    OnlyUnsynced(infos, rest);
    assert [] + rest == rest;
  }

  lemma {:induction false} OnlyUnsynced(infos: seq<Info>, qs: seq<Queued>)
    requires AllMembers(infos, qs) && FromSynced(infos, qs) == []
    ensures FromUnsynced(infos, qs) == qs
  {
    hide Position, SyncedMember;
    if qs != [] {
      assert Position(infos, qs[0].from).Some?;
      FilterHead(infos, qs);
      OnlyUnsynced(infos, qs[1..]);
      assert qs == [qs[0]] + qs[1..];
    }
  }

  /** An updating member applies what the leader applies exactly under `SameOrder`. */
  lemma {:induction false} SequencesAgree(r: Round, i: nat, q: seq<Queued>, ns: seq<Queued>)
    requires Valid(r) && i < |r.ms| && !InSync(r, i) && AllMembers(Fresh(r.ms), ns) && AllDifferent(LastPart(r, ns) + LastPart(r, q))
    ensures Sequence(r, i, q, ns) == Sequence(r, LeaderOf(r), q, ns) <==> SameOrder(r, q, ns)
  {
    hide Valid, InSync, FromSynced, FromUnsynced, AllMembers, InsertAll, LeaderOf, NotFalling, AllGreater, AllDifferent;
    LeaderInSync(r);
    MembersSame(Fresh(r.ms), Marked(r, false), ns);
    var p, fs, u, w := FirstPart(r, q), FirstPart(r, ns), LastPart(r, ns), LastPart(r, q);
    var ins := InsertAll(w, u);
    assert Sequence(r, i, q, ns) == p + (fs + ins) by { assert p + fs + ins == p + (fs + ins); }
    assert Sequence(r, LeaderOf(r), q, ns) == p + (ns + w) by { assert p + ns + w == p + (ns + w); }
    FilterLength(Marked(r, false), ns);
    InsertAllLength(w, u);
    AllInFront(w, u);
    if Sequence(r, i, q, ns) == Sequence(r, LeaderOf(r), q, ns) {
      SamePrefix(p, fs + ins, ns + w);
      var rest := ns[|fs|..];
      assert ns == (ns + w)[..|ns|];
      assert fs == (fs + ins)[..|fs|] == ns[..|fs|];
      assert ns == fs + rest;
      SyncedFirst(Marked(r, false), ns, rest);
      assert ins == (fs + ins)[|fs|..] == (ns + w)[|fs|..] == u + w;
    } else {
      assert SameOrder(r, q, ns) ==> fs + ins == ns + w by {
        assert fs + (u + w) == (fs + u) + w;
      }
    }
  }

  lemma {:induction false} SamePrefix(p: seq<Queued>, a: seq<Queued>, b: seq<Queued>)
    requires p + a == p + b
    ensures a == b
  {
    assert a == (p + a)[|p|..] && b == (p + b)[|p|..];
  }

  // ---------------------------------------------------------------------------------------
  // What all members apply
  // ---------------------------------------------------------------------------------------

  /** With or without the proviso, every member applies the same messages: of those queued the
      messages of members, and all that came since. */
  lemma {:induction false} SameMessages(r: Round, i: nat, q: seq<Queued>, ns: seq<Queued>)
    requires Valid(r) && i < |r.ms| && AllMembers(Fresh(r.ms), ns)
    ensures multiset(Sequence(r, i, q, ns)) == multiset(FromMembers(Fresh(r.ms), q)) + multiset(ns)
  {
    hide Valid, InSync, FromSynced, FromUnsynced, AllMembers, InsertAll, FromMembers;
    MembersSplit(Marked(r, false), q);
    MembersAgree(Fresh(r.ms), Marked(r, false), q);
    MembersSame(Fresh(r.ms), Marked(r, false), ns);
    FilterSplits(Marked(r, false), ns);
    InsertAllElements(LastPart(r, q), LastPart(r, ns));
  }

  // ---------------------------------------------------------------------------------------
  // The proviso is needed
  // ---------------------------------------------------------------------------------------

  function MkdirMessage(m: Member, count: nat, path: Path, time: u32): Queued {
    Queued(m, count, Fs(Ops.MkdirOp(path), time))
  }

  /** Two members create the same directory: the one applied first owns it. */
  lemma {:induction false} FirstOneWins(db: Db, a: Queued, b: Queued, path: Path)
    requires Inv(db) && CanMkdir(db.tree, path)
    requires a.body.Fs? && b.body.Fs? && a.body.op == Ops.MkdirOp(path) && b.body.op == Ops.MkdirOp(path)
    ensures var cb := DcdbCallbacks(); var d := Applies(cb, db, [a, b]);
            Clean(cb, db, [a, b]) && Get(d.tree, path).Some? && Get(d.tree, path).value.writer == a.from.nodeid
  {
    hide Inv, Get, IsDirAt, Mkdir, Commit, Changed, RootAfter, Sound;
    Ops.RootStored(db);
    MkdirCorrect(db, path, a.from.nodeid, a.body.time);
    InvSound(db);
    var d1 := Mkdir(db, path, a.from.nodeid, a.body.time).0;
    assert d1 == Deliver(db, a.from, a.body);
    CreatedThere(db.tree, d1.tree, path, a.from.nodeid, a.body.time);
    MkdirCorrect(d1, path, b.from.nodeid, b.body.time);
    InvSound(d1);
    assert d1 == Deliver(d1, b.from, b.body);
    InvClean(d1);
    hide Deliver, DcdbCallbacks;
    assert [a, b][1..] == [b];
    TwoApplied(db, d1, a, b);
  }

  lemma {:induction false} CreatedThere(t: Tree, u: Tree, path: Path, w: u32, m: u32)
    requires 0 in t.index && CanMkdir(t, path) && Changed(t, u, path, Some(NewEntry(t, path, w, m, Dir, [])))
    ensures Get(u, path).Some? && Get(u, path).value.writer == w
  {
    hide Get;
  }

  lemma {:induction false} TwoApplied(db: Db, d: Db, a: Queued, b: Queued)
    requires d == Deliver(db, a.from, a.body) && d == Deliver(d, b.from, b.body) && !d.errors
    ensures var cb := DcdbCallbacks(); Applies(cb, db, [a, b]) == d && Clean(cb, db, [a, b])
  {
    hide Deliver, Commit;
    var cb := DcdbCallbacks();
    assert [a, b][1..] == [b] && [b][1..] == [];
    assert Applies(cb, d, [b]) == d && Clean(cb, d, [b]);
  }

  /** In every round with a member to be updated: if a message of that member and then one of the
      leader arrive between the last state and the completion, both creating the same directory,
      the two members end with different databases. */
  lemma {:induction false} ProvisoNeeded(r: Round, k: nat, us: seq<Entry>, path: Path, c: nat, d: nat, time: u32)
    requires Valid(r) && k < |r.ms| && !InSync(r, k) && UpdatesSent(r, us) && Committable(r)
    requires CanMkdir(DbOf(r, LeaderOf(r)).tree, path) && r.ms[k].nodeid != r.ms[LeaderOf(r)].nodeid
    ensures var cb, l := DcdbCallbacks(), LeaderOf(r);
            var ns := [MkdirMessage(r.ms[k], c, path, time), MkdirMessage(r.ms[l], d, path, time)];
            && Completes(cb, r, k, [], ns, us) && Completes(cb, r, l, [], ns, us)
            && CoreOf(Finished(cb, r, k, [], ns, us).db) != CoreOf(Finished(cb, r, l, [], ns, us).db)
  {
    hide Valid, InSync, Applies, Clean, DcdbCallbacks, Base, UpdatesSent, Committable, CanMkdir, Inv, LeaderOf, FirstPart, LastPart, Get;
    var cb, l := DcdbCallbacks(), LeaderOf(r);
    StartFacts(r, k);
    DbFacts(r, l);
    LeaderInSync(r);
    var x, y := MkdirMessage(r.ms[k], c, path, time), MkdirMessage(r.ms[l], d, path, time);
    LateSequences(r, k, x, y);
    BaseCore(r, k, us);
    BaseCore(r, l, us);
    FirstOneWins(DbOf(r, l), x, y, path);
    FirstOneWins(DbOf(r, l), y, x, path);
    AppliesCore(Base(cb, r, k, us).0, DbOf(r, l), [y, x]);
    AppliesCore(Base(cb, r, l, us).0, DbOf(r, l), [x, y]);
  }

  /** The leader applies the two messages as they come, the updating member the other way round. */
  lemma {:induction false} LateSequences(r: Round, k: nat, x: Queued, y: Queued)
    requires Valid(r) && k < |r.ms| && !InSync(r, k) && x.from == r.ms[k] && y.from == r.ms[LeaderOf(r)]
    ensures Sequence(r, LeaderOf(r), [], [x, y]) == [x, y] && Sequence(r, k, [], [x, y]) == [y, x]
  {
    hide Valid, InSync, LeaderOf, FirstPart, LastPart, InsertAll;
    LeaderInSync(r);
    EmptyParts(r);
    LateParts(r, k, x, y);
    InsertIntoEmpty(x);
    assert [] + [x, y] + [] == [x, y] && [] + [y] + [x] == [y, x];
  }

  lemma {:induction false} LateParts(r: Round, k: nat, x: Queued, y: Queued)
    requires Valid(r) && k < |r.ms| && !InSync(r, k) && x.from == r.ms[k] && y.from == r.ms[LeaderOf(r)]
    ensures FirstPart(r, [x, y]) == [y] && LastPart(r, [x, y]) == [x]
  {
    hide Valid, InSync, LeaderOf, FirstPart, LastPart, Position;
    LeaderInSync(r);
    assert [x, y] == [x] + [y];
    PartsAppend(r, [x], [y]);
    PartsOne(r, k, x);
    PartsOne(r, LeaderOf(r), y);
  }

  lemma {:induction false} InsertIntoEmpty(x: Queued)
    ensures InsertAll([], [x]) == [x]
  {
    assert [x][..0] == [];
  }
}
