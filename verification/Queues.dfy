/** What becomes of normal messages: those of members are applied, in the sync queue or in the
    message queue, and an updating member applies the messages of every sender in the order of
    their counts. */
module Queues {
  import opened MemTree
  import opened MemDb
  import opened TreeIndex
  import opened Leader
  import opened Delta
  import opened Dfsm
  import opened DfsmRuns

  // ---------------------------------------------------------------------------------------
  // Draining the queues in closed form
  // ---------------------------------------------------------------------------------------

  /** The database after a sequence of messages. */
  function Applies(cb: Callbacks, db: Db, qs: seq<Queued>): Db
    decreases |qs|
  {
    if qs == [] then db else Applies(cb, cb.deliver(db, qs[0].from, qs[0].body), qs[1..])
  }

  /** None of the messages leaves the database with errors. */
  predicate Clean(cb: Callbacks, db: Db, qs: seq<Queued>)
    decreases |qs|
  {
    qs == [] ||
    var d := cb.deliver(db, qs[0].from, qs[0].body);
    !d.errors && Clean(cb, d, qs[1..])
  }

  function FromSynced(infos: seq<Info>, qs: seq<Queued>): seq<Queued> {
    if qs == [] then []
    else (if SyncedMember(infos, qs[0].from) then [qs[0]] else []) + FromSynced(infos, qs[1..])
  }

  predicate Unsynced(infos: seq<Info>, m: Member) {
    Position(infos, m).Some? && !SyncedMember(infos, m)
  }

  function FromUnsynced(infos: seq<Info>, qs: seq<Queued>): seq<Queued> {
    if qs == [] then []
    else (if Unsynced(infos, qs[0].from) then [qs[0]] else []) + FromUnsynced(infos, qs[1..])
  }

  lemma {:induction false} CleanHead(cb: Callbacks, db: Db, q: Queued, s: seq<Queued>)
    ensures var d := cb.deliver(db, q.from, q.body);
            && (Clean(cb, db, [q] + s) <==> !d.errors && Clean(cb, d, s))
            && Applies(cb, db, [q] + s) == Applies(cb, d, s)
  {
    assert ([q] + s)[0] == q && ([q] + s)[1..] == s;
  }

  lemma {:induction false} FilterStep(infos: seq<Info>, q: Queued, rest: seq<Queued>)
    ensures var qs := [q] + rest; var s, u := FromSynced(infos, rest), FromUnsynced(infos, rest);
            if SyncedMember(infos, q.from) then FromSynced(infos, qs) == [q] + s && FromUnsynced(infos, qs) == u
            else if Unsynced(infos, q.from) then FromSynced(infos, qs) == s && FromUnsynced(infos, qs) == [q] + u
            else FromSynced(infos, qs) == s && FromUnsynced(infos, qs) == u
  {
    hide SyncedMember;
    var qs := [q] + rest;
    assert qs[0] == q && qs[1..] == rest;
  }

  /** What the drained member should be. */
  function DrainedTo(cb: Callbacks, n: Node, sel: seq<Queued>, kept: seq<Queued>): Node {
    n.(db := Applies(cb, n.db, sel), applied := n.applied + sel, msgQueue := kept)
  }

  lemma {:induction false} DrainSynced(cb: Callbacks, n: Node, todo: seq<Queued>, kept: seq<Queued>)
    requires n.mode == Synced
    ensures var sel := FromSynced(n.infos, todo);
            if Clean(cb, n.db, sel) then Drain(cb, n, todo, kept) == (DrainedTo(cb, n, sel, kept + FromUnsynced(n.infos, todo)), true)
            else Failed(Drain(cb, n, todo, kept).0.mode)
    decreases |todo|
  {
    if todo == [] {
      assert kept + [] == kept && n.applied + [] == n.applied;
    } else {
      hide Position, SyncedMember, LeaveGroup, FromSynced, FromUnsynced, Clean, Applies, Failed, Drain, ApplyOne;
      var q, rest := todo[0], todo[1..];
      assert todo == [q] + rest;
      var sel, u := FromSynced(n.infos, rest), FromUnsynced(n.infos, rest);
      FilterStep(n.infos, q, rest);
      if SyncedMember(n.infos, q.from) {
        CleanHead(cb, n.db, q, sel);
        DrainApply(cb, n, q, rest, kept);
        if !cb.deliver(n.db, q.from, q.body).errors {
          DrainSynced(cb, ApplyOne(cb, n, q), rest, kept);
          Regroup(n.applied, q, sel);
        }
      } else if Unsynced(n.infos, q.from) {
        DrainSkip(cb, n, q, rest, kept);
        DrainSynced(cb, n, rest, kept + [q]);
        Regroup(kept, q, u);
      } else {
        DrainSkip(cb, n, q, rest, kept);
        DrainSynced(cb, n, rest, kept);
      }
    }
  }

  lemma {:induction false} Regroup(a: seq<Queued>, q: Queued, s: seq<Queued>)
    ensures (a + [q]) + s == a + ([q] + s)
  {
  }

  lemma {:induction false} DrainSkip(cb: Callbacks, n: Node, q: Queued, rest: seq<Queued>, kept: seq<Queued>)
    requires (n.mode == Synced || n.mode == Update) && !SyncedMember(n.infos, q.from)
    ensures Drain(cb, n, [q] + rest, kept) == Drain(cb, n, rest, if Unsynced(n.infos, q.from) then kept + [q] else kept)
  {
    hide ApplyOne, SyncedMember;
    assert ([q] + rest)[0] == q && ([q] + rest)[1..] == rest;
  }

  /** One message of a synced member is applied. */
  lemma {:induction false} DrainApply(cb: Callbacks, n: Node, q: Queued, rest: seq<Queued>, kept: seq<Queued>)
    requires n.mode == Synced && SyncedMember(n.infos, q.from)
    ensures Drain(cb, n, [q] + rest, kept) == Drain(cb, ApplyOne(cb, n, q), rest, kept)
    ensures var d := cb.deliver(n.db, q.from, q.body);
            if d.errors then Failed(Drain(cb, ApplyOne(cb, n, q), rest, kept).0.mode)
            else ApplyOne(cb, n, q) == n.(db := d, applied := n.applied + [q])
  {
    hide LeaveGroup;
    assert ([q] + rest)[0] == q && ([q] + rest)[1..] == rest;
    var d := cb.deliver(n.db, q.from, q.body);
    if d.errors {
      LeaveMode(n.(db := d, applied := n.applied + [q], mode := SetMode(n.mode, Error)));
      DrainMode(cb, ApplyOne(cb, n, q), rest, kept);
    }
  }

  lemma {:induction false} LeaveMode(n: Node)
    ensures Failed(LeaveGroup(n).mode) && LeaveGroup(n).db == n.db
  {
    hide ClearStates;
  }

  lemma {:induction false} DrainUpdating(cb: Callbacks, n: Node, todo: seq<Queued>, kept: seq<Queued>)
    requires n.mode == Update
    ensures Drain(cb, n, todo, kept) ==
      (n.(syncQueue := n.syncQueue + FromSynced(n.infos, todo), msgQueue := kept + FromUnsynced(n.infos, todo)), true)
    decreases |todo|
  {
    hide Position, LeaveGroup;
    if todo == [] {
      assert kept + [] == kept && n.syncQueue + [] == n.syncQueue;
    } else {
      var q, rest := todo[0], todo[1..];
      if !SyncedMember(n.infos, q.from) {
        var kept' := if Unsynced(n.infos, q.from) then kept + [q] else kept;
        DrainUpdating(cb, n, rest, kept');
        assert FromSynced(n.infos, todo) == FromSynced(n.infos, rest);
        assert kept + FromUnsynced(n.infos, todo) == kept' + FromUnsynced(n.infos, rest);
      } else {
        var m := n.(syncQueue := n.syncQueue + [q]);
        DrainUpdating(cb, m, rest, kept);
        var sel := FromSynced(n.infos, todo);
        assert sel[0] == q && sel[1..] == FromSynced(n.infos, rest);
        assert FromUnsynced(n.infos, todo) == FromUnsynced(n.infos, rest);
        assert n.syncQueue + sel == (n.syncQueue + [q]) + sel[1..];
      }
    }
  }

  lemma {:induction false} DrainSyncClosed(cb: Callbacks, n: Node, todo: seq<Queued>)
    requires n.mode == Synced
    ensures Clean(cb, n.db, todo) ==>
      DrainSync(cb, n, todo, true) == (n.(db := Applies(cb, n.db, todo), applied := n.applied + todo, syncQueue := []), true)
    ensures !Clean(cb, n.db, todo) ==> Failed(DrainSync(cb, n, todo, true).0.mode)
    decreases |todo|
  {
    hide Position, LeaveGroup;
    if todo == [] {
      assert n.applied + [] == n.applied;
    } else {
      var q, rest := todo[0], todo[1..];
      var m := ApplyOne(cb, n, q);
      var d := cb.deliver(n.db, q.from, q.body);
      if d.errors {
        LeaveMode(n.(db := d, applied := n.applied + [q], mode := SetMode(n.mode, Error)));
        DrainSyncMode(cb, m, rest, true);
      } else {
        DrainSyncClosed(cb, m, rest);
        assert n.applied + todo == (n.applied + [q]) + rest;
      }
    }
  }

  // ---------------------------------------------------------------------------------------
  // Sequences of messages
  // ---------------------------------------------------------------------------------------

  lemma {:induction false} AppliesAppend(cb: Callbacks, db: Db, a: seq<Queued>, b: seq<Queued>)
    ensures Applies(cb, db, a + b) == Applies(cb, Applies(cb, db, a), b)
    ensures Clean(cb, db, a + b) <==> Clean(cb, db, a) && Clean(cb, Applies(cb, db, a), b)
    decreases |a|
  {
    if a == [] {
      assert a + b == b;
    } else {
      assert (a + b)[0] == a[0] && (a + b)[1..] == a[1..] + b;
      AppliesAppend(cb, cb.deliver(db, a[0].from, a[0].body), a[1..], b);
    }
  }

  lemma {:induction false} FilterAppend(infos: seq<Info>, a: seq<Queued>, b: seq<Queued>)
    ensures FromSynced(infos, a + b) == FromSynced(infos, a) + FromSynced(infos, b)
    ensures FromUnsynced(infos, a + b) == FromUnsynced(infos, a) + FromUnsynced(infos, b)
    decreases |a|
  {
    if a == [] {
      assert a + b == b;
    } else {
      hide SyncedMember, Unsynced, FromSynced, FromUnsynced;
      var q, rest := a[0], a[1..];
      assert a == [q] + rest && a + b == [q] + (rest + b);
      FilterAppend(infos, rest, b);
      FilterStep(infos, q, rest);
      FilterStep(infos, q, rest + b);
      Prepend(q, FromSynced(infos, rest), FromSynced(infos, b));
      Prepend(q, FromUnsynced(infos, rest), FromUnsynced(infos, b));
    }
  }

  lemma {:induction false} Prepend(q: Queued, s: seq<Queued>, t: seq<Queued>)
    ensures ([q] + s) + t == [q] + (s + t)
  {
  }

  predicate AllMembers(infos: seq<Info>, qs: seq<Queued>) {
    forall k :: 0 <= k < |qs| ==> Position(infos, qs[k].from).Some?
  }

  /** The messages of members, and those of processes that have left the group. */
  function FromMembers(infos: seq<Info>, qs: seq<Queued>): seq<Queued> {
    if qs == [] then []
    else (if Position(infos, qs[0].from).Some? then [qs[0]] else []) + FromMembers(infos, qs[1..])
  }

  function FromOthers(infos: seq<Info>, qs: seq<Queued>): seq<Queued> {
    if qs == [] then []
    else (if Position(infos, qs[0].from).None? then [qs[0]] else []) + FromOthers(infos, qs[1..])
  }

  lemma {:induction false} MembersCount(infos: seq<Info>, qs: seq<Queued>, x: Queued)
    ensures multiset(FromMembers(infos, qs))[x] == if Position(infos, x.from).Some? then multiset(qs)[x] else 0
    ensures multiset(FromOthers(infos, qs))[x] == if Position(infos, x.from).Some? then 0 else multiset(qs)[x]
  {
    hide Position;
    if qs != [] {
      var q, rest := qs[0], qs[1..];
      assert qs == [q] + rest;
      MembersCount(infos, rest, x);
      var m, o := FromMembers(infos, rest), FromOthers(infos, rest);
      assert multiset([q] + m) == multiset{q} + multiset(m) && multiset([q] + o) == multiset{q} + multiset(o);
    }
  }

  /** A queue with the same elements has the same messages of members. */
  lemma {:induction false} MembersPermuted(infos: seq<Info>, a: seq<Queued>, b: seq<Queued>, more: seq<Queued>)
    requires multiset(a) == multiset(b) + multiset(more) && AllMembers(infos, more)
    ensures multiset(FromMembers(infos, a)) == multiset(FromMembers(infos, b)) + multiset(more)
    ensures multiset(FromOthers(infos, a)) == multiset(FromOthers(infos, b))
  {
    hide FromMembers, FromOthers, Position;
    forall x
      ensures multiset(FromMembers(infos, a))[x] == multiset(FromMembers(infos, b))[x] + multiset(more)[x]
      ensures multiset(FromOthers(infos, a))[x] == multiset(FromOthers(infos, b))[x]
    {
      MembersCount(infos, a, x);
      MembersCount(infos, b, x);
      if x in multiset(more) {
        assert x in more;
      }
    }
  }

  lemma {:induction false} MembersSplit(infos: seq<Info>, qs: seq<Queued>)
    ensures multiset(FromMembers(infos, qs)) == multiset(FromSynced(infos, qs)) + multiset(FromUnsynced(infos, qs))
  {
    hide Position, SyncedMember;
    if qs != [] {
      var q, rest := qs[0], qs[1..];
      assert qs == [q] + rest;
      MembersSplit(infos, rest);
      SyncedIsMember(infos, q.from);
      FilterStep(infos, q, rest);
      var f := FromMembers(infos, rest);
      assert FromMembers(infos, qs) == (if Position(infos, q.from).Some? then [q] else []) + f;
      hide FromSynced, FromUnsynced, FromMembers;
      var s, u := FromSynced(infos, rest), FromUnsynced(infos, rest);
      assert multiset([q] + s) == multiset{q} + multiset(s) && multiset([q] + u) == multiset{q} + multiset(u) && multiset([q] + f) == multiset{q} + multiset(f);
    }
  }

  lemma {:induction false} SyncedIsMember(infos: seq<Info>, m: Member)
    ensures SyncedMember(infos, m) ==> Position(infos, m).Some?
  {
  }

  lemma {:induction false} OnlyMembers(infos: seq<Info>, qs: seq<Queued>)
    requires AllMembers(infos, qs)
    ensures FromMembers(infos, qs) == qs && FromOthers(infos, qs) == []
  {
    hide Position;
    if qs != [] {
      assert Position(infos, qs[0].from).Some?;
      OnlyMembers(infos, qs[1..]);
      assert qs == [qs[0]] + qs[1..];
    }
  }

  lemma {:induction false} MembersAgree(a: seq<Info>, b: seq<Info>, qs: seq<Queued>)
    requires SameMembers(a, b)
    ensures FromMembers(a, qs) == FromMembers(b, qs) && FromOthers(a, qs) == FromOthers(b, qs)
  {
    hide Position;
    if qs != [] {
      PositionSame(a, b, qs[0].from);
      MembersAgree(a, b, qs[1..]);
    }
  }

  lemma {:induction false} FilterSplits(infos: seq<Info>, qs: seq<Queued>)
    requires AllMembers(infos, qs)
    ensures multiset(qs) == multiset(FromSynced(infos, qs)) + multiset(FromUnsynced(infos, qs))
  {
    hide Position, SyncedMember;
    if qs != [] {
      var q, rest := qs[0], qs[1..];
      assert qs == [q] + rest;
      FilterSplits(infos, rest);
      assert Position(infos, q.from).Some?;
      FilterHead(infos, qs);
      hide FromSynced, FromUnsynced, AllMembers;
      var s, u := FromSynced(infos, rest), FromUnsynced(infos, rest);
      assert multiset([q] + s) == multiset{q} + multiset(s) && multiset([q] + u) == multiset{q} + multiset(u);
    }
  }

  lemma {:induction false} FilterHead(infos: seq<Info>, qs: seq<Queued>)
    requires qs != [] && Position(infos, qs[0].from).Some?
    ensures FromSynced(infos, qs) == (if SyncedMember(infos, qs[0].from) then [qs[0]] else []) + FromSynced(infos, qs[1..])
    ensures FromUnsynced(infos, qs) == (if SyncedMember(infos, qs[0].from) then [] else [qs[0]]) + FromUnsynced(infos, qs[1..])
  {
    hide Position, SyncedMember;
  }

  lemma {:induction false} UnsyncedMembers(infos: seq<Info>, qs: seq<Queued>)
    ensures AllMembers(infos, FromUnsynced(infos, qs))
  {
    hide Position, SyncedMember;
    if qs != [] {
      UnsyncedMembers(infos, qs[1..]);
    }
  }

  lemma {:induction false} InsertElements(queue: seq<Queued>, q: Queued)
    ensures multiset(InsertSorted(queue, q)) == multiset(queue) + multiset{q}
  {
    hide CountCompare;
    if queue != [] {
      var n := |queue| - 1;
      assert queue == queue[..n] + [queue[n]];
      InsertElements(queue[..n], q);
    }
  }

  // ---------------------------------------------------------------------------------------
  // Conservation
  // ---------------------------------------------------------------------------------------

  /** What is still to be applied when an update completes. */
  function Late(n: Node): seq<Queued> {
    n.syncQueue + FromMembers(n.infos, n.msgQueue)
  }

  /** What was applied and what is still to be applied. */
  function Held(n: Node): seq<Queued> {
    n.applied + Late(n)
  }

  function Arrived(version: nat, from: Member, p: Packet): multiset<Queued> {
    if p.Packet? && p.version == version && p.msg.Normal? then multiset{Queued(from, p.msg.count, p.msg.body)} else multiset{}
  }

  predicate SameMembers(a: seq<Info>, b: seq<Info>) {
    |a| == |b| && forall k :: 0 <= k < |a| ==> a[k].member == b[k].member
  }

  lemma {:induction false} PositionSame(a: seq<Info>, b: seq<Info>, m: Member)
    requires SameMembers(a, b)
    ensures Position(a, m) == Position(b, m)
  {
    if a != [] {
      var n := |a| - 1;
      PositionSame(a[..n], b[..n], m);
    }
  }

  lemma {:induction false} MembersSame(a: seq<Info>, b: seq<Info>, qs: seq<Queued>)
    requires SameMembers(a, b) && AllMembers(a, qs)
    ensures AllMembers(b, qs)
  {
    hide Position;
    forall k | 0 <= k < |qs|
      ensures Position(b, qs[k].from).Some?
    {
      PositionSame(a, b, qs[k].from);
    }
  }

  /** No message of a member is lost or doubled; those of other processes stay queued or are all
      dropped. */
  predicate Keeps(n: Node, r: Node, more: multiset<Queued>) {
    && SameMembers(n.infos, r.infos)
    && multiset(Held(r)) == multiset(Held(n)) + more
    && (multiset(FromOthers(r.infos, r.msgQueue)) == multiset(FromOthers(n.infos, n.msgQueue)) || FromOthers(r.infos, r.msgQueue) == [])
  }

  lemma {:induction false} HeldParts(n: Node)
    ensures multiset(Held(n)) == multiset(n.applied) + multiset(n.syncQueue) + multiset(FromMembers(n.infos, n.msgQueue))
  {
    hide FromMembers;
  }

  lemma {:induction false} KeepsNormal(cb: Callbacks, n: Node, q: Queued)
    requires !Failed(n.mode)
    ensures var r := ReceiveNormal(cb, n, q); !Failed(r.mode) ==> Keeps(n, r, multiset{q})
  {
    hide Position, LeaveGroup, InsertSorted, Held, FromMembers, FromOthers;
    var r := ReceiveNormal(cb, n, q);
    HeldParts(n);
    HeldParts(r);
    if n.mode == Synced {
      LeaveMode(n.(db := cb.deliver(n.db, q.from, q.body), applied := n.applied + [q], mode := SetMode(n.mode, Error)));
    } else if Position(n.infos, q.from).None? {
      LeaveMode(n);
    } else if !(n.mode == Update && SyncedMember(n.infos, q.from)) {
      InsertElements(n.msgQueue, q);
      assert multiset([q]) == multiset{q};
      MembersPermuted(n.infos, r.msgQueue, n.msgQueue, [q]);
    }
  }

  lemma {:induction false} InsertMembers(infos: seq<Info>, queue: seq<Queued>, q: Queued)
    requires AllMembers(infos, queue) && Position(infos, q.from).Some?
    ensures AllMembers(infos, InsertSorted(queue, q))
  {
    hide Position, CountCompare;
    if queue != [] {
      InsertMembers(infos, queue[..|queue| - 1], q);
    }
  }

  /** Draining in a normal mode: exactly the messages of members stay. */
  lemma {:induction false} KeepsDrain(cb: Callbacks, n: Node)
    requires n.mode == Synced || n.mode == Update
    ensures var (r, ok) := DeliverQueue(cb, n);
            !Failed(r.mode) ==> ok && Keeps(n, r, multiset{}) && r.infos == n.infos && r.mode == n.mode && AllMembers(r.infos, r.msgQueue)
  {
    hide Position, Drain, FromSynced, FromUnsynced, Held, AllMembers, Clean, Applies, FromMembers, FromOthers;
    var r := DeliverQueue(cb, n).0;
    MembersSplit(n.infos, n.msgQueue);
    UnsyncedMembers(n.infos, n.msgQueue);
    OnlyMembers(n.infos, FromUnsynced(n.infos, n.msgQueue));
    HeldParts(n);
    HeldParts(r);
    var u := FromUnsynced(n.infos, n.msgQueue);
    assert [] + u == u;
    if n.mode == Synced {
      DrainSynced(cb, n, n.msgQueue, []);
    } else {
      DrainUpdating(cb, n, n.msgQueue, []);
    }
  }

  /** After everybody has been marked synced, a drained queue is empty. */
  lemma {:induction false} EverybodySynced(infos: seq<Info>, qs: seq<Queued>)
    requires forall k :: 0 <= k < |infos| ==> infos[k].synced
    ensures FromUnsynced(infos, qs) == [] && FromSynced(infos, qs) == FromMembers(infos, qs)
  {
    hide Position;
    if qs != [] {
      EverybodySynced(infos, qs[1..]);
    }
  }

  /** The commit succeeds and no queued message leaves errors. */
  predicate CanFinish(cb: Callbacks, n: Node) {
    && n.data.Some?
    && var (db, ok) := cb.commit(n.db, n.data.value);
       ok && Clean(cb, db, Late(n))
  }

  // ---------------------------------------------------------------------------------------
  // A member left alone
  // ---------------------------------------------------------------------------------------

  lemma {:induction false} OfSingle(infos: seq<Info>, m: Member, qs: seq<Queued>)
    requires |infos| == 1 && infos[0].member == m
    ensures FromMembers(infos, qs) == Of(qs, m)
  {
    if qs != [] {
      OfSingle(infos, m, qs[1..]);
    }
  }

  lemma {:induction false} OneMember(m: Member)
    ensures Sort([m]) == [m] && Lowest([m]) == m.nodeid
  {
    assert [m][..0] == [];
    assert Sort([]) == [] && Lowest([]) == 0;
  }

  /** A member that is the only one left is synced at once: what it had queued itself is applied in
      the order of the queue, what others had sent is dropped, and the queues are empty. A message
      that leaves errors puts it into `Error`. */
  lemma {:induction false} AloneExact(cb: Callbacks, n: Node, joined: bool, time: nat)
    requires !Failed(n.mode)
    ensures var (r, out) := ConfChange(cb, n, [n.self], joined, time);
            var own := Of(n.msgQueue, n.self);
            && out == []
            && (if Clean(cb, n.db, own) then
                  r == n.(mode := Synced, known := true, infos := [Info(n.self, None, true)], data := None,
                          counter := (n.counter + 1) % 0x1_0000_0000,
                          epoch := Epoch((n.counter + 1) % 0x1_0000_0000, time, n.self.nodeid, n.self.pid),
                          lowest := n.self.nodeid, msgQueue := [], syncQueue := [],
                          db := Applies(cb, n.db, own), applied := n.applied + own)
                else r.mode == Error)
  {
    hide Clean, Applies, Of, FromMembers, FromSynced, FromUnsynced, Drain, Sort, Lowest;
    var k := NewEpoch(n, time).(lowest := Lowest([n.self]), known := true, infos := Fresh(Sort([n.self])), data := None);
    var m := k.(mode := Synced, infos := MarkAll(k.infos));
    OneMember(n.self);
    assert m.infos == [Info(n.self, None, true)] && m.lowest == n.self.nodeid;
    DrainSynced(cb, m, m.msgQueue, []);
    DrainMode(cb, m, m.msgQueue, []);
    EverybodySynced(m.infos, m.msgQueue);
    OfSingle(m.infos, n.self, m.msgQueue);
  }

  /** A restart drops what was queued: a member that starts again and is alone has the database it
      had, and nothing more is applied to it. */
  lemma {:induction false} RestartFresh(cb: Callbacks, n: Node, joined: bool, time: nat)
    requires n.mode != Error && n.mode != VersionError
    ensures var s := StartAgain(n);
            && s.mode == Start && s.msgQueue == [] && s.self == n.self
            && var r := ConfChange(cb, s, [n.self], joined, time).0;
            && r.mode == Synced && r.db == n.db && r.applied == n.applied
  {
    hide ConfChange;
    AloneExact(cb, StartAgain(n), joined, time);
    assert n.applied + [] == n.applied;
  }

  /** The end of an update in closed form: what members had queued is applied, sync queue first. */
  lemma {:induction false} FinishClosed(cb: Callbacks, n: Node)
    requires n.mode == Update
    ensures var r := FinishUpdate(cb, n);
            if CanFinish(cb, n) then
              r == n.(mode := Synced, data := None, infos := ClearStates(MarkAll(n.infos)), syncQueue := [], msgQueue := [],
                      db := Applies(cb, cb.commit(n.db, n.data.value).0, Late(n)), applied := n.applied + Late(n))
            else Failed(r.mode)
  {
    hide Position, Drain, DrainSync, FromSynced, FromUnsynced, FromMembers, Clean, Applies, LeaveGroup, ClearStates;
    LeaveMode(n);
    if n.data.Some? {
      var (db, ok) := cb.commit(n.db, n.data.value);
      LeaveMode(n.(db := db));
      var m := n.(db := db, infos := MarkAll(n.infos), mode := SetMode(n.mode, Synced));
      DrainSyncClosed(cb, m, m.syncQueue);
      var r := DrainSync(cb, m, m.syncQueue, true).0;
      LeaveMode(r);
      var mine := FromMembers(n.infos, n.msgQueue);
      AppliesAppend(cb, db, n.syncQueue, mine);
      MembersAgree(n.infos, m.infos, n.msgQueue);
      EverybodySynced(m.infos, n.msgQueue);
      if Clean(cb, db, n.syncQueue) {
        DrainSynced(cb, r, r.msgQueue, []);
        LeaveMode(Drain(cb, r, r.msgQueue, []).0);
        assert (n.applied + n.syncQueue) + mine == n.applied + (n.syncQueue + mine);
      } else {
        DrainMode(cb, r, r.msgQueue, []);
        LeaveMode(Drain(cb, r, r.msgQueue, []).0);
      }
    }
  }

  lemma {:induction false} KeepsFinish(cb: Callbacks, n: Node)
    requires n.mode == Update
    ensures var r := FinishUpdate(cb, n); !Failed(r.mode) ==> Keeps(n, r, multiset{}) && r.msgQueue == [] && r.syncQueue == []
  {
    hide Position, FinishUpdate, CanFinish, Applies;
    FinishClosed(cb, n);
    var r := FinishUpdate(cb, n);
    if !Failed(r.mode) {
      assert Held(r) == Held(n);
    }
  }

  lemma {:induction false} KeepsAllSynced(cb: Callbacks, n: Node)
    requires n.mode == Synced
    ensures var r := AllSynced(cb, n); !Failed(r.mode) ==> Keeps(n, r, multiset{}) && r.msgQueue == []
  {
    hide Position, Drain, LeaveGroup, AllMembers, FromSynced, FromUnsynced, FromMembers, FromOthers, Clean, Applies;
    var m := n.(infos := MarkAll(n.infos));
    MembersAgree(n.infos, m.infos, n.msgQueue);
    KeepsDrain(cb, m);
    DrainSynced(cb, m, m.msgQueue, []);
    EverybodySynced(m.infos, m.msgQueue);
    LeaveMode(DeliverQueue(cb, m).0);
  }

  /** The member after the states have been compared, before its queue is looked at. */
  function Decided(n: Node, me: nat): Node
    requires AllStates(n.infos) && me < |n.infos|
  {
    var idx := IndexesOf(n.infos);
    var leader := SelectLeader(idx);
    var infos := MarkSynced(n.infos, leader);
    var m := n.(infos := infos, data := Some(SyncData(idx[leader], idx[me], [])));
    if infos[me].synced then Release(m.(mode := SetMode(m.mode, Synced))) else m.(mode := SetMode(m.mode, Update))
  }

  lemma {:induction false} DecideIs(cb: Callbacks, n: Node, me: nat)
    requires AllStates(n.infos) && me < |n.infos|
    ensures var r := Decide(cb, n, me).0; var (s, ok) := DeliverQueue(cb, Decided(n, me));
            Failed(r.mode) || (ok && r == s)
    ensures SameMembers(n.infos, Decided(n, me).infos)
  {
    hide Drain, LeaveGroup, IndexesOf, SelectLeader, Updates;
    var leader := SelectLeader(IndexesOf(n.infos));
    LeaveMode(DeliverQueue(cb, Decided(n, me)).0);
    LeaveMode(n.(infos := MarkSynced(n.infos, leader), data := Some(SyncData(IndexesOf(n.infos)[leader], IndexesOf(n.infos)[me], []))));
  }

  lemma {:induction false} KeepsState(cb: Callbacks, n: Node, from: Member, st: Index)
    requires n.mode == StartSync
    ensures var r := ReceiveState(cb, n, from, st).0; !Failed(r.mode) ==> Keeps(n, r, multiset{})
  {
    hide Position, Decide, Decided, LeaveGroup, AllMembers, AllStates, DeliverQueue, FromMembers, FromOthers;
    var p, me := Position(n.infos, from), Position(n.infos, n.self);
    LeaveMode(n);
    if p.Some? && n.infos[p.value].state.None? {
      var m := n.(infos := n.infos[p.value := n.infos[p.value].(state := Some(st))]);
      MembersAgree(n.infos, m.infos, n.msgQueue);
      if AllStates(m.infos) && me.Some? {
        var d := Decided(m, me.value);
        DecideIs(cb, m, me.value);
        DecidedShape(m, me.value);
        MembersAgree(m.infos, d.infos, m.msgQueue);
        KeepsDrain(cb, d);
      }
    }
  }

  lemma {:induction false} DecidedShape(n: Node, me: nat)
    requires AllStates(n.infos) && me < |n.infos| && n.mode == StartSync
    ensures var d := Decided(n, me);
            && (d.mode == Synced || d.mode == Update) && d.msgQueue == n.msgQueue && d.syncQueue == n.syncQueue && d.applied == n.applied
            && d.db == n.db && d.epoch == n.epoch && d.version == n.version && d.self == n.self && d.known == n.known
  {
    hide IndexesOf, SelectLeader, MarkSynced, ClearStates;
  }

  /** Conservation: at every delivery each normal message of a member is exactly once applied, in
      the sync queue or in the message queue, and what is dropped are exactly the messages of other
      processes; a completed update leaves both queues empty. */
  lemma {:induction false} Conserved(cb: Callbacks, n: Node, from: Member, p: Packet)
    requires !Failed(n.mode) && n.known
    ensures var r := Receive(cb, n, from, p).0;
            !Failed(r.mode) ==>
              && Keeps(n, r, Arrived(n.version, from, p))
              && (p == Packet(n.version, UpdateComplete(n.epoch)) && (n.mode == Update || n.mode == Synced) ==>
                    r.msgQueue == [] && (n.mode == Update || n.syncQueue == [] ==> r.syncQueue == []))
  {
    hide Position, LeaveGroup, ReceiveState, FinishUpdate, AllSynced, ReceiveNormal, InsertSorted, Release, Encode, Keeps, SameMembers;
    LeaveMode(n);
    if p.Packet? && p.msg.Normal? {
      KeepsNormal(cb, n, Queued(from, p.msg.count, p.msg.body));
    } else if n.mode == Synced {
      KeepsAllSynced(cb, n);
      if n.syncQueue == [] {
        AllSyncedQueue(cb, n);
      }
    } else if n.mode == Update {
      KeepsFinish(cb, n);
      if p.Packet? && p.msg.UpdateEntry? {
        KeepsUpdate(n, p.msg.entry);
      }
    } else if n.mode == StartSync && p.Packet? {
      if p.msg.State? {
        KeepsState(cb, n, from, p.msg.state);
      } else if p.msg.SyncStart? {
        StartedShape(n, p.msg.epoch);
        KeepsSame(n, SyncStarted(n, p.msg.epoch).0);
      }
    }
    MembersSelf(n.infos);
    KeepsSame(n, n);
    KeepsSame(n, n.(mode := SetMode(n.mode, VersionError)));
  }

  lemma {:induction false} KeepsUpdate(n: Node, e: Option<Entry>)
    ensures var r := ReceiveUpdate(n, e); !Failed(r.mode) ==> Keeps(n, r, multiset{})
  {
    hide LeaveGroup, Keeps;
    LeaveMode(n);
    MembersSelf(n.infos);
    KeepsSame(n, ReceiveUpdate(n, e));
  }

  lemma {:induction false} MembersSelf(infos: seq<Info>)
    ensures SameMembers(infos, infos)
  {
  }

  lemma {:induction false} KeepsSame(n: Node, r: Node)
    ensures r.applied == n.applied && r.syncQueue == n.syncQueue && r.msgQueue == n.msgQueue && SameMembers(n.infos, r.infos) ==>
              Keeps(n, r, multiset{})
  {
    hide FromMembers, FromOthers;
    if SameMembers(n.infos, r.infos) {
      MembersAgree(n.infos, r.infos, n.msgQueue);
    }
  }

  lemma {:induction false} KeepsTwice(n: Node, m: Node, r: Node, a: multiset<Queued>, b: multiset<Queued>)
    requires Keeps(n, m, a) && Keeps(m, r, b)
    ensures Keeps(n, r, a + b)
  {
    hide FromMembers, FromOthers, Held;
    if FromOthers(m.infos, m.msgQueue) == [] {
      assert multiset(FromOthers(m.infos, m.msgQueue)) == multiset{};
      var o := FromOthers(r.infos, r.msgQueue);
      assert |multiset(o)| == |o|;
    }
  }

  lemma {:induction false} StartedShape(n: Node, epoch: Epoch)
    ensures var r := SyncStarted(n, epoch).0;
            && SameMembers(n.infos, r.infos) && r.applied == n.applied && r.syncQueue == n.syncQueue && r.msgQueue == n.msgQueue
  {
    hide Encode;
  }

  lemma {:induction false} AllSyncedQueue(cb: Callbacks, n: Node)
    requires n.mode == Synced && n.syncQueue == []
    ensures var r := AllSynced(cb, n); !Failed(r.mode) ==> r.syncQueue == []
  {
    hide Position, Drain, LeaveGroup, FromSynced, FromUnsynced, Clean, Applies;
    var m := n.(infos := MarkAll(n.infos));
    DrainSynced(cb, m, m.msgQueue, []);
    LeaveMode(DeliverQueue(cb, m).0);
  }

  /** The normal messages among some deliveries. */
  function AllArrived(version: nat, evs: seq<Event>): multiset<Queued> {
    if evs == [] then multiset{}
    else
      var ev := evs[|evs| - 1];
      AllArrived(version, evs[..|evs| - 1]) + if ev.Delivery? then Arrived(version, ev.from, ev.packet) else multiset{}
  }

  ghost predicate Deliveries(evs: seq<Event>) {
    forall k :: 0 <= k < |evs| ==> evs[k].Delivery?
  }

  /** Over any run of deliveries that does not fail, no message of a member is lost or doubled, and
      those of other processes stay queued or are all dropped. */
  lemma {:induction false} RunConserved(cb: Callbacks, n: Node, evs: seq<Event>)
    requires Deliveries(evs) && !Failed(n.mode) && n.known
    ensures var r := Run(cb, n, evs);
            !Failed(r.mode) ==> r.known && r.version == n.version && Keeps(n, r, AllArrived(n.version, evs))
  {
    hide Receive, Failed, Keeps;
    if evs == [] {
      MembersSelf(n.infos);
      KeepsSame(n, n);
    } else {
      var k := |evs| - 1;
      RunConserved(cb, n, evs[..k]);
      var m := Run(cb, n, evs[..k]);
      var ev := evs[k];
      if Failed(m.mode) {
        FailedStep(cb, m, ev);
      } else {
        Conserved(cb, m, ev.from, ev.packet);
        ReceiveConstant(cb, m, ev.from, ev.packet);
        if !Failed(Run(cb, n, evs).mode) {
          KeepsTwice(n, m, Run(cb, n, evs), AllArrived(n.version, evs[..k]), Arrived(n.version, ev.from, ev.packet));
        }
      }
    }
  }

  lemma {:induction false} ReceiveConstant(cb: Callbacks, n: Node, from: Member, p: Packet)
    ensures var r := Receive(cb, n, from, p).0; r.version == n.version && r.self == n.self && r.known == n.known
  {
    hide ReceiveState, FinishUpdate, AllSynced, ReceiveNormal, Encode, ClearStates;
    ConstantParts(cb, n, from, p);
  }

  predicate Constant(n: Node, r: Node) {
    r.version == n.version && r.self == n.self && r.known == n.known
  }

  lemma {:induction false} DrainConstant(cb: Callbacks, n: Node, todo: seq<Queued>, kept: seq<Queued>)
    ensures Constant(n, Drain(cb, n, todo, kept).0)
    decreases |todo|
  {
    hide Position, ClearStates;
    if todo != [] {
      var q := todo[0];
      DrainConstant(cb, n, todo[1..], kept);
      DrainConstant(cb, n, todo[1..], kept + [q]);
      DrainConstant(cb, ApplyOne(cb, n, q), todo[1..], kept);
      DrainConstant(cb, n.(syncQueue := n.syncQueue + [q]), todo[1..], kept);
    }
  }

  lemma {:induction false} DrainSyncConstant(cb: Callbacks, n: Node, todo: seq<Queued>, ok: bool)
    ensures Constant(n, DrainSync(cb, n, todo, ok).0)
    decreases |todo|
  {
    hide ClearStates;
    if todo != [] {
      DrainSyncConstant(cb, ApplyOne(cb, n, todo[0]), todo[1..], true);
      DrainSyncConstant(cb, n, todo[1..], false);
    }
  }

  lemma {:induction false} DecideConstant(cb: Callbacks, n: Node, me: nat)
    requires AllStates(n.infos) && me < |n.infos|
    ensures Constant(n, Decide(cb, n, me).0)
  {
    hide Drain, IndexesOf, SelectLeader, Updates, MarkSynced, ClearStates;
    var idx := IndexesOf(n.infos);
    var leader := SelectLeader(idx);
    var m := n.(infos := MarkSynced(n.infos, leader), data := Some(SyncData(idx[leader], idx[me], [])));
    var m' := if m.infos[me].synced then Release(m.(mode := SetMode(m.mode, Synced))) else m.(mode := SetMode(m.mode, Update));
    DrainConstant(cb, m', m'.msgQueue, []);
  }

  lemma {:induction false} FinishConstant(cb: Callbacks, n: Node)
    ensures Constant(n, FinishUpdate(cb, n))
  {
    hide Drain, DrainSync, ClearStates, MarkAll;
    if n.data.Some? {
      var (db, ok) := cb.commit(n.db, n.data.value);
      var m := n.(db := db, infos := MarkAll(n.infos), mode := SetMode(n.mode, Synced));
      DrainSyncConstant(cb, m, m.syncQueue, true);
      var r := DrainSync(cb, m, m.syncQueue, true).0;
      DrainConstant(cb, r, r.msgQueue, []);
    }
  }

  lemma {:induction false} ConstantParts(cb: Callbacks, n: Node, from: Member, p: Packet)
    ensures Constant(n, FinishUpdate(cb, n)) && Constant(n, AllSynced(cb, n))
    ensures p.Packet? && p.msg.Normal? ==> Constant(n, ReceiveNormal(cb, n, Queued(from, p.msg.count, p.msg.body)))
    ensures p.Packet? && p.msg.State? ==> Constant(n, ReceiveState(cb, n, from, p.msg.state).0)
  {
    hide Position, Drain, FinishUpdate, Decide, ClearStates, InsertSorted, AllStates, MarkAll;
    FinishConstant(cb, n);
    var m := n.(infos := MarkAll(n.infos));
    DrainConstant(cb, m, m.msgQueue, []);
    if p.Packet? && p.msg.State? {
      var at, me := Position(n.infos, from), Position(n.infos, n.self);
      if at.Some? && me.Some? {
        var k := n.(infos := n.infos[at.value := n.infos[at.value].(state := Some(p.msg.state))]);
        if AllStates(k.infos) {
          DecideConstant(cb, k, me.value);
        }
      }
    }
  }

  // ---------------------------------------------------------------------------------------
  // Order
  // ---------------------------------------------------------------------------------------

  /** The messages of one sender. */
  function Of(qs: seq<Queued>, m: Member): seq<Queued> {
    if qs == [] then [] else (if qs[0].from == m then [qs[0]] else []) + Of(qs[1..], m)
  }

  ghost predicate SortedCounts(qs: seq<Queued>) {
    forall k, l :: 0 <= k < l < |qs| ==> qs[k].count <= qs[l].count
  }

  /** Counts close enough for the narrowed comparison. */
  ghost predicate Comparable(queue: seq<Queued>, q: Queued) {
    forall k :: 0 <= k < |queue| ==> -HALF <= queue[k].count - q.count < HALF
  }

  lemma {:induction false} OfAppend(a: seq<Queued>, b: seq<Queued>, m: Member)
    ensures Of(a + b, m) == Of(a, m) + Of(b, m)
    decreases |a|
  {
    if a == [] {
      assert a + b == b;
    } else {
      assert (a + b)[0] == a[0] && (a + b)[1..] == a[1..] + b;
      OfAppend(a[1..], b, m);
    }
  }

  lemma {:induction false} InsertOrdered(queue: seq<Queued>, q: Queued)
    requires SortedCounts(queue) && Comparable(queue, q)
    ensures SortedCounts(InsertSorted(queue, q))
    ensures forall k :: 0 <= k < |InsertSorted(queue, q)| ==> InsertSorted(queue, q)[k] == q || InsertSorted(queue, q)[k] in queue
  {
    if queue != [] {
      var n := |queue| - 1;
      assert CountCompare(queue[n].count, q.count) <= 0 <==> queue[n].count <= q.count by { NarrowWide(queue[n].count - q.count); }
      hide CountCompare;
      if queue[n].count > q.count {
        InsertOrdered(queue[..n], q);
      }
    }
  }

  /** Counts are compared modulo 2^32: one of them is taken for the later if it is ahead by less than
      half of that. */
  lemma {:induction false} CountExact(a: nat, b: nat)
    ensures CountCompare(a, b) == 0 <==> (a - b) % 0x1_0000_0000 == 0
    ensures CountCompare(a, b) > 0 <==> 0 < (a - b) % 0x1_0000_0000 < 0x8000_0000
  {
  }

  lemma {:induction false} NarrowWide(d: int)
    requires -HALF <= d < HALF
    ensures (Narrow(d) <= 0 <==> d <= 0)
  {
    NarrowSign(d);
  }

  lemma {:induction false} OfElements(qs: seq<Queued>, m: Member)
    ensures forall k :: 0 <= k < |Of(qs, m)| ==> Of(qs, m)[k] in qs && Of(qs, m)[k].from == m
  {
    if qs != [] {
      OfElements(qs[1..], m);
    }
  }

  lemma {:induction false} OfComparable(qs: seq<Queued>, q: Queued, m: Member)
    requires Comparable(qs, q)
    ensures Comparable(Of(qs, m), q)
  {
    hide Of;
    OfElements(qs, m);
  }

  lemma {:induction false} AllBelow(qs: seq<Queued>, q: Queued)
    requires Comparable(qs, q) && forall k :: 0 <= k < |qs| ==> qs[k].count <= q.count
    ensures InsertSorted(qs, q) == qs + [q]
  {
    if qs != [] {
      NarrowWide(qs[|qs| - 1].count - q.count);
    }
  }

  /** Sorted insertion inserts into the messages of the sender, whatever has arrived before, and
      leaves every other sender's messages alone. */
  lemma {:induction false} InsertOf(queue: seq<Queued>, q: Queued, m: Member)
    requires SortedCounts(queue) && Comparable(queue, q)
    ensures Of(InsertSorted(queue, q), m) == if m == q.from then InsertSorted(Of(queue, m), q) else Of(queue, m)
  {
    hide CountCompare, Of, InsertSorted;
    OfOne(q, m);
    OfComparable(queue, q, m);
    if queue == [] {
      OfNone(m);
      InsertNone(q);
    } else {
      var n := |queue| - 1;
      var last, rest := queue[n], queue[..n];
      assert queue == rest + [last];
      OfAppend(rest, [last], m);
      OfOne(last, m);
      InsertStep(queue, q);
      if last.count <= q.count {
        OfAppend(queue, [q], m);
        OfBelow(queue, q, m);
        AllBelow(Of(queue, m), q);
      } else {
        InsertOf(rest, q, m);
        OfAppend(InsertSorted(rest, q), [last], m);
        if last.from != m {
          assert Of(InsertSorted(rest, q), m) + [] == Of(InsertSorted(rest, q), m) && Of(rest, m) + [] == Of(rest, m);
        } else if m == q.from {
          InsertLast(Of(rest, m), last, q);
        }
      }
    }
  }

  lemma {:induction false} OfBelow(queue: seq<Queued>, q: Queued, m: Member)
    requires SortedCounts(queue) && queue != [] && queue[|queue| - 1].count <= q.count
    ensures forall k :: 0 <= k < |Of(queue, m)| ==> Of(queue, m)[k].count <= q.count
  {
    hide Of;
    OfElements(queue, m);
    forall x | x in queue
      ensures x.count <= q.count
    {
      var k :| 0 <= k < |queue| && queue[k] == x;
    }
  }

  lemma {:induction false} InsertNone(q: Queued)
    ensures InsertSorted([], q) == [q]
  {
  }

  lemma {:induction false} InsertLast(queue: seq<Queued>, last: Queued, q: Queued)
    requires Comparable(queue + [last], q) && last.count > q.count
    ensures InsertSorted(queue + [last], q) == InsertSorted(queue, q) + [last]
  {
    var all := queue + [last];
    assert all[|queue|] == last && all[..|queue|] == queue;
    NarrowWide(last.count - q.count);
  }

  lemma {:induction false} OfNone(m: Member)
    ensures Of([], m) == []
  {
  }

  lemma {:induction false} InsertStep(queue: seq<Queued>, q: Queued)
    requires queue != [] && Comparable(queue, q)
    ensures var n := |queue| - 1;
            InsertSorted(queue, q) == if queue[n].count <= q.count then queue + [q] else InsertSorted(queue[..n], q) + [queue[n]]
  {
    NarrowWide(queue[|queue| - 1].count - q.count);
  }

  lemma {:induction false} OfOne(q: Queued, m: Member)
    ensures Of([q], m) == if q.from == m then [q] else []
  {
  }

  // ---------------------------------------------------------------------------------------
  // A member that is not synced
  // ---------------------------------------------------------------------------------------

  /** Its queue is sorted, in whatever order messages arrive; while it updates, the sync queue holds
      messages of synced members and the message queue none of them. */
  ghost predicate QueueInv(n: Node) {
    && (n.mode == StartSync || n.mode == Update) && SortedCounts(n.msgQueue)
    && (n.mode == StartSync ==> n.syncQueue == [])
    && (n.mode == Update ==> NoneSynced(n.infos, n.msgQueue) && FromSyncedOnly(n.infos, n.syncQueue))
  }

  predicate NoneSynced(infos: seq<Info>, qs: seq<Queued>) {
    forall k :: 0 <= k < |qs| ==> !SyncedMember(infos, qs[k].from)
  }

  predicate FromSyncedOnly(infos: seq<Info>, qs: seq<Queued>) {
    forall k :: 0 <= k < |qs| ==> SyncedMember(infos, qs[k].from)
  }

  /** Every sender's messages have counts that do not fall. */
  ghost predicate InOrderOf(qs: seq<Queued>) {
    forall m: Member :: SortedCounts(Of(qs, m))
  }

  /** A message of a synced member that reaches an updating one is not earlier than those of its
      sender in the sync queue. */
  ghost predicate InTurn(n: Node, from: Member, p: Packet) {
    n.mode == Update && p.Packet? && p.version == n.version && p.msg.Normal? && SyncedMember(n.infos, from) ==>
      forall k :: 0 <= k < |n.syncQueue| && n.syncQueue[k].from == from ==> n.syncQueue[k].count <= p.msg.count
  }

  /** No count is too far from those queued to be compared. */
  ghost predicate NearArrival(n: Node, from: Member, p: Packet) {
    p.Packet? && p.msg.Normal? ==> Comparable(n.msgQueue, Queued(from, p.msg.count, p.msg.body))
  }

  lemma {:induction false} OfIn(qs: seq<Queued>, m: Member, k: nat) returns (j: nat)
    requires k < |qs| && qs[k].from == m
    ensures j < |Of(qs, m)| && Of(qs, m)[j] == qs[k]
  {
    if k == 0 {
      j := 0;
    } else {
      var i := OfIn(qs[1..], m, k - 1);
      j := if qs[0].from == m then i + 1 else i;
    }
  }

  /** One more message at the end keeps the order exactly if it is not earlier than those of its
      sender. */
  lemma {:induction false} OrderMore(qs: seq<Queued>, q: Queued)
    ensures InOrderOf(qs + [q]) <==> InOrderOf(qs) && forall k :: 0 <= k < |qs| && qs[k].from == q.from ==> qs[k].count <= q.count
  {
    hide Of;
    forall m: Member
      ensures Of(qs + [q], m) == Of(qs, m) + if q.from == m then [q] else []
    {
      OfAppend(qs, [q], m);
      OfOne(q, m);
    }
    var mine := Of(qs, q.from);
    OfElements(qs, q.from);
    if InOrderOf(qs + [q]) {
      assert SortedCounts(mine + [q]);
      forall k | 0 <= k < |qs| && qs[k].from == q.from
        ensures qs[k].count <= q.count
      {
        var j := OfIn(qs, q.from, k);
        assert (mine + [q])[j] == qs[k] && (mine + [q])[|mine|] == q;
      }
      forall m: Member
        ensures SortedCounts(Of(qs, m))
      {
        assert SortedCounts(Of(qs + [q], m));
        PrefixSorted(Of(qs, m), if q.from == m then [q] else []);
      }
    }
    if InOrderOf(qs) && forall k :: 0 <= k < |qs| && qs[k].from == q.from ==> qs[k].count <= q.count {
      forall m: Member
        ensures SortedCounts(Of(qs + [q], m))
      {
        assert SortedCounts(Of(qs, m));
      }
    }
  }

  lemma {:induction false} PrefixSorted(a: seq<Queued>, b: seq<Queued>)
    requires SortedCounts(a + b)
    ensures SortedCounts(a)
  {
    forall k, l | 0 <= k < l < |a|
      ensures a[k].count <= a[l].count
    {
      assert (a + b)[k] == a[k] && (a + b)[l] == a[l];
    }
  }

  lemma {:induction false} OfSorted(qs: seq<Queued>, m: Member)
    requires SortedCounts(qs)
    ensures SortedCounts(Of(qs, m))
  {
    if qs != [] {
      OfSorted(qs[1..], m);
      OfElements(qs[1..], m);
      var rest := Of(qs[1..], m);
      forall k | 0 <= k < |rest|
        ensures qs[0].count <= rest[k].count
      {
        assert rest[k] in qs[1..];
      }
    }
  }

  lemma {:induction false} SortedInOrder(qs: seq<Queued>)
    requires SortedCounts(qs)
    ensures InOrderOf(qs)
  {
    hide Of;
    forall m: Member
      ensures SortedCounts(Of(qs, m))
    {
      OfSorted(qs, m);
    }
  }

  /** A normal message at a member that is not synced. */
  lemma {:induction false} OrderNormal(cb: Callbacks, n: Node, q: Queued)
    requires QueueInv(n) && Comparable(n.msgQueue, q) && Position(n.infos, q.from).Some?
    ensures var r := ReceiveNormal(cb, n, q);
            && QueueInv(r)
            && (InOrderOf(r.syncQueue) <==>
                  InOrderOf(n.syncQueue) && InTurn(n, q.from, Packet(n.version, Normal(q.count, q.body))))
  {
    hide Position, InsertSorted, Of, SyncedMember, InOrderOf;
    if n.mode == Update && SyncedMember(n.infos, q.from) {
      OrderMore(n.syncQueue, q);
    } else {
      InsertOrdered(n.msgQueue, q);
      if n.mode == Update {
        InsertNoneSynced(n.infos, n.msgQueue, q);
      }
    }
  }

  lemma {:induction false} InsertNoneSynced(infos: seq<Info>, queue: seq<Queued>, q: Queued)
    requires NoneSynced(infos, queue) && !SyncedMember(infos, q.from)
    ensures NoneSynced(infos, InsertSorted(queue, q))
  {
    hide SyncedMember, CountCompare;
    if queue != [] {
      InsertNoneSynced(infos, queue[..|queue| - 1], q);
    }
  }

  lemma {:induction false} UnsyncedElement(infos: seq<Info>, qs: seq<Queued>, k: nat) returns (j: nat)
    requires k < |FromUnsynced(infos, qs)|
    ensures j < |qs| && qs[j] == FromUnsynced(infos, qs)[k] && !SyncedMember(infos, qs[j].from)
  {
    hide Position, SyncedMember;
    if Unsynced(infos, qs[0].from) {
      if k == 0 {
        j := 0;
      } else {
        j := UnsyncedElement(infos, qs[1..], k - 1);
        j := j + 1;
      }
    } else {
      j := UnsyncedElement(infos, qs[1..], k);
      j := j + 1;
    }
  }

  lemma {:induction false} UnsyncedSorted(infos: seq<Info>, qs: seq<Queued>)
    requires SortedCounts(qs)
    ensures SortedCounts(FromUnsynced(infos, qs)) && NoneSynced(infos, FromUnsynced(infos, qs))
  {
    hide Position, SyncedMember;
    if qs != [] {
      var q, rest := qs[0], qs[1..];
      UnsyncedSorted(infos, rest);
      var u := FromUnsynced(infos, rest);
      assert FromUnsynced(infos, qs) == (if Unsynced(infos, q.from) then [q] else []) + u;
      hide FromUnsynced;
      forall k | 0 <= k < |u|
        ensures q.count <= u[k].count
      {
        var j := UnsyncedElement(infos, rest, k);
        assert qs[j + 1] == u[k];
      }
    }
  }

  lemma {:induction false} SyncedElement(infos: seq<Info>, qs: seq<Queued>, k: nat) returns (j: nat)
    requires k < |FromSynced(infos, qs)|
    ensures j < |qs| && qs[j] == FromSynced(infos, qs)[k]
  {
    hide SyncedMember;
    if SyncedMember(infos, qs[0].from) {
      if k == 0 {
        j := 0;
      } else {
        j := SyncedElement(infos, qs[1..], k - 1);
        j := j + 1;
      }
    } else {
      j := SyncedElement(infos, qs[1..], k);
      j := j + 1;
    }
  }

  lemma {:induction false} SyncedSorted(infos: seq<Info>, qs: seq<Queued>)
    requires SortedCounts(qs)
    ensures SortedCounts(FromSynced(infos, qs)) && FromSyncedOnly(infos, FromSynced(infos, qs))
  {
    hide SyncedMember;
    if qs != [] {
      var q, rest := qs[0], qs[1..];
      SyncedSorted(infos, rest);
      var u := FromSynced(infos, rest);
      assert FromSynced(infos, qs) == (if SyncedMember(infos, q.from) then [q] else []) + u;
      hide FromSynced;
      forall k | 0 <= k < |u|
        ensures q.count <= u[k].count
      {
        var j := SyncedElement(infos, rest, k);
        assert qs[j + 1] == u[k];
      }
    }
  }

  /** Sorting the queue into the two queues. */
  lemma {:induction false} OrderDrain(cb: Callbacks, n: Node)
    requires n.mode == Update && SortedCounts(n.msgQueue) && n.syncQueue == []
    ensures var r := DeliverQueue(cb, n).0; QueueInv(r) && r.mode == Update && InOrderOf(r.syncQueue)
  {
    hide Position, Drain, FromSynced, FromUnsynced, SyncedMember, InOrderOf;
    DrainUpdating(cb, n, n.msgQueue, []);
    assert [] + FromSynced(n.infos, n.msgQueue) == FromSynced(n.infos, n.msgQueue);
    assert [] + FromUnsynced(n.infos, n.msgQueue) == FromUnsynced(n.infos, n.msgQueue);
    UnsyncedSorted(n.infos, n.msgQueue);
    SyncedSorted(n.infos, n.msgQueue);
    SortedInOrder(FromSynced(n.infos, n.msgQueue));
  }

  /** What a member has applied since `n`, in the order of the counts. */
  ghost predicate AppliesSorted(n: Node, r: Node) {
    n.applied <= r.applied && SortedCounts(r.applied[|n.applied|..]) && SortedCounts(r.msgQueue)
  }

  /** A member that is in sync applies the messages of synced members. */
  lemma {:induction false} OrderSynced(cb: Callbacks, n: Node)
    requires n.mode == Synced && SortedCounts(n.msgQueue)
    ensures var r := DeliverQueue(cb, n).0; Failed(r.mode) || (r.mode == Synced && AppliesSorted(n, r))
  {
    hide Position, Drain, FromSynced, FromUnsynced, SyncedMember, Clean, Applies;
    DrainSynced(cb, n, n.msgQueue, []);
    UnsyncedSorted(n.infos, n.msgQueue);
    SyncedSorted(n.infos, n.msgQueue);
    var sel, u := FromSynced(n.infos, n.msgQueue), FromUnsynced(n.infos, n.msgQueue);
    assert [] + u == u && (n.applied + sel)[|n.applied|..] == sel;
  }

  lemma {:induction false} OrderState(cb: Callbacks, n: Node, from: Member, st: Index)
    requires QueueInv(n) && n.mode == StartSync
    ensures var r := ReceiveState(cb, n, from, st).0;
            Failed(r.mode) || (r.mode == Synced && AppliesSorted(n, r)) || (QueueInv(r) && InOrderOf(r.syncQueue))
  {
    hide Position, Decide, Decided, LeaveGroup, AllStates, DeliverQueue, Of, SortedCounts, NoneSynced, FromSyncedOnly;
    var p, me := Position(n.infos, from), Position(n.infos, n.self);
    LeaveMode(n);
    NothingInOrder();
    if p.Some? && n.infos[p.value].state.None? {
      var m := n.(infos := n.infos[p.value := n.infos[p.value].(state := Some(st))]);
      if AllStates(m.infos) && me.Some? {
        var d := Decided(m, me.value);
        DecideIs(cb, m, me.value);
        DecidedShape(m, me.value);
        if d.mode == Update {
          OrderDrain(cb, d);
        } else {
          OrderSynced(cb, d);
        }
      }
    }
  }

  lemma {:induction false} NothingInOrder()
    ensures InOrderOf([])
  {
    forall m: Member
      ensures SortedCounts(Of([], m))
    {
      OfNone(m);
    }
  }

  lemma {:induction false} OfNoneSynced(infos: seq<Info>, qs: seq<Queued>, m: Member)
    ensures NoneSynced(infos, qs) && SyncedMember(infos, m) ==> Of(qs, m) == []
    ensures FromSyncedOnly(infos, qs) && !SyncedMember(infos, m) ==> Of(qs, m) == []
  {
    hide SyncedMember;
    if qs != [] {
      OfNoneSynced(infos, qs[1..], m);
      if NoneSynced(infos, qs) {
        assert !SyncedMember(infos, qs[0].from);
      }
      if FromSyncedOnly(infos, qs) {
        assert SyncedMember(infos, qs[0].from);
      }
    }
  }

  lemma {:induction false} OfMembersOnly(infos: seq<Info>, qs: seq<Queued>, m: Member)
    ensures Of(FromMembers(infos, qs), m) == if Position(infos, m).Some? then Of(qs, m) else []
  {
    hide Position, Of;
    OfNone(m);
    if qs != [] {
      var q, rest := qs[0], qs[1..];
      OfMembersOnly(infos, rest, m);
      assert qs == [q] + rest;
      OfAppend([q], rest, m);
      OfOne(q, m);
      OfAppend(if Position(infos, q.from).Some? then [q] else [], FromMembers(infos, rest), m);
    }
  }

  /** What an updating member will apply is in order, sender by sender, exactly if the sync queue
      is. */
  lemma {:induction false} LateOrder(n: Node)
    requires QueueInv(n) && n.mode == Update
    ensures InOrderOf(Late(n)) <==> InOrderOf(n.syncQueue)
  {
    hide Position, SyncedMember, Of, FromMembers, NoneSynced, FromSyncedOnly;
    forall m: Member
      ensures SortedCounts(Of(Late(n), m)) <==> SortedCounts(Of(n.syncQueue, m))
    {
      var mine := FromMembers(n.infos, n.msgQueue);
      OfAppend(n.syncQueue, mine, m);
      OfMembersOnly(n.infos, n.msgQueue, m);
      OfNoneSynced(n.infos, n.syncQueue, m);
      OfNoneSynced(n.infos, n.msgQueue, m);
      SyncedIsMember(n.infos, m);
      OfSorted(n.msgQueue, m);
      var a, b := Of(n.syncQueue, m), Of(mine, m);
      assert a + [] == a && [] + b == b;
    }
    if InOrderOf(Late(n)) {
      forall m: Member
        ensures SortedCounts(Of(n.syncQueue, m))
      {
        assert SortedCounts(Of(Late(n), m));
      }
    }
    if InOrderOf(n.syncQueue) {
      forall m: Member
        ensures SortedCounts(Of(Late(n), m))
      {
        assert SortedCounts(Of(n.syncQueue, m));
      }
    }
  }

  /** Counts that do not fall rise where they differ. */
  lemma {:induction false} RisesIfDistinct(qs: seq<Queued>, m: Member, k: nat, l: nat)
    requires InOrderOf(qs) && k < l < |Of(qs, m)| && Of(qs, m)[k].count != Of(qs, m)[l].count
    ensures Of(qs, m)[k].count < Of(qs, m)[l].count
  {
    hide Of;
    assert SortedCounts(Of(qs, m));
  }

  /** An update completes: everything late is applied, and each sender's messages in the order of
      their counts exactly if the sync queue was in order. */
  ghost predicate UpdateEnds(n: Node, r: Node) {
    && n.mode == Update && r.mode == Synced && r.applied == n.applied + Late(n) && r.syncQueue == [] && r.msgQueue == []
    && (InOrderOf(Late(n)) <==> InOrderOf(n.syncQueue))
  }

  /** Order at a member that is not synced, whatever arrives in whatever order. */
  lemma {:induction false} OrderStep(cb: Callbacks, n: Node, from: Member, p: Packet)
    requires QueueInv(n) && n.known && NearArrival(n, from, p)
    ensures var r := Receive(cb, n, from, p).0;
            || Failed(r.mode)
            || (QueueInv(r) && (InOrderOf(r.syncQueue) <==> InOrderOf(n.syncQueue) && InTurn(n, from, p)))
            || (n.mode == StartSync && r.mode == Synced && AppliesSorted(n, r))
            || (UpdateEnds(n, r) && InTurn(n, from, p))
  {
    hide Position, LeaveGroup, ReceiveState, FinishUpdate, AllSynced, ReceiveNormal, InsertSorted, Release, Encode, QueueInv, InOrderOf, Late;
    assert n.mode == StartSync || n.mode == Update by { OrderModes(n); }
    LeaveMode(n);
    OrderSame(n, n);
    if p.Packet? && p.msg.Normal? {
      var q := Queued(from, p.msg.count, p.msg.body);
      if Position(n.infos, from).Some? {
        OrderNormal(cb, n, q);
      } else {
        StrangerLeaves(cb, n, q);
      }
    } else if n.mode == Update {
      OrderFinish(cb, n);
      if p.Packet? && p.msg.UpdateEntry? {
        OrderSame(n, ReceiveUpdate(n, p.msg.entry));
      }
    } else if p.Packet? {
      NothingWaits(n);
      if p.msg.State? {
        OrderState(cb, n, from, p.msg.state);
      } else if p.msg.SyncStart? {
        StartedShape(n, p.msg.epoch);
        StartedMode(n, p.msg.epoch);
        OrderStarted(n, SyncStarted(n, p.msg.epoch).0);
      }
    }
  }

  lemma {:induction false} OrderModes(n: Node)
    requires QueueInv(n)
    ensures n.mode == StartSync || n.mode == Update
  {
  }

  lemma {:induction false} NothingWaits(n: Node)
    requires QueueInv(n) && n.mode == StartSync
    ensures n.syncQueue == [] && InOrderOf(n.syncQueue)
  {
    NothingInOrder();
  }

  lemma {:induction false} OrderFinish(cb: Callbacks, n: Node)
    requires QueueInv(n) && n.mode == Update
    ensures var r := FinishUpdate(cb, n); Failed(r.mode) || UpdateEnds(n, r)
  {
    hide Position, FinishUpdate, CanFinish, Applies, ClearStates, MarkAll, InOrderOf, Late;
    FinishClosed(cb, n);
    LateOrder(n);
  }

  lemma {:induction false} StrangerLeaves(cb: Callbacks, n: Node, q: Queued)
    requires n.mode != Synced && Position(n.infos, q.from).None?
    ensures Failed(ReceiveNormal(cb, n, q).mode)
  {
    hide Position, LeaveGroup;
    LeaveMode(n);
  }

  lemma {:induction false} OrderSame(n: Node, r: Node)
    requires QueueInv(n)
    ensures r.mode == n.mode && r.infos == n.infos && r.syncQueue == n.syncQueue && r.msgQueue == n.msgQueue ==> QueueInv(r)
  {
    hide SyncedMember;
  }

  lemma {:induction false} StartedMode(n: Node, epoch: Epoch)
    requires n.mode == StartSync
    ensures var r := SyncStarted(n, epoch).0; r.mode == StartSync || Failed(r.mode)
  {
    hide Encode;
  }

  lemma {:induction false} OrderStarted(n: Node, r: Node)
    requires QueueInv(n) && n.mode == StartSync && r.syncQueue == n.syncQueue && r.msgQueue == n.msgQueue
    ensures r.mode == StartSync ==> QueueInv(r)
  {
  }

  /** All messages of synced members have reached the updating member in turn. */
  ghost predicate AllInTurn(cb: Callbacks, n: Node, evs: seq<Event>) {
    forall k :: 0 <= k < |evs| && evs[k].Delivery? ==> InTurn(Run(cb, n, evs[..k]), evs[k].from, evs[k].packet)
  }

  lemma {:induction false} InTurnMore(cb: Callbacks, n: Node, evs: seq<Event>)
    requires evs != [] && Deliveries(evs)
    ensures var k := |evs| - 1;
            AllInTurn(cb, n, evs) <==> AllInTurn(cb, n, evs[..k]) && InTurn(Run(cb, n, evs[..k]), evs[k].from, evs[k].packet)
  {
    hide Step, InTurn;
    var k := |evs| - 1;
    assert forall j :: 0 <= j <= k ==> evs[..k][..j] == evs[..j];
    assert forall j :: 0 <= j < k ==> evs[..k][j] == evs[j];
  }

  /** The member stays unsynced before the last of these deliveries, and all counts are near. */
  ghost predicate NearRun(cb: Callbacks, n: Node, evs: seq<Event>) {
    Deliveries(evs) &&
    forall k :: 0 <= k < |evs| ==>
      var m := Run(cb, n, evs[..k]); !Failed(m.mode) && m.mode != Synced && NearArrival(m, evs[k].from, evs[k].packet)
  }

  lemma {:induction false} NearLess(cb: Callbacks, n: Node, evs: seq<Event>)
    requires NearRun(cb, n, evs) && evs != []
    ensures NearRun(cb, n, evs[..|evs| - 1])
    ensures var m := Run(cb, n, evs[..|evs| - 1]); !Failed(m.mode) && m.mode != Synced && NearArrival(m, evs[|evs| - 1].from, evs[|evs| - 1].packet)
  {
    hide Step, NearArrival;
    var k := |evs| - 1;
    assert forall j :: 0 <= j <= k ==> evs[..k][..j] == evs[..j];
    assert forall j :: 0 <= j < k ==> evs[..k][j] == evs[j];
  }

  /** Over a run of deliveries at a member that is not synced before the end: when it completes an
      update, it has applied all that was late, and each sender's messages in the order of their
      counts exactly if those of synced members have come in turn. */
  lemma {:induction false} OrderRun(cb: Callbacks, n: Node, evs: seq<Event>)
    requires QueueInv(n) && InOrderOf(n.syncQueue) && n.known && NearRun(cb, n, evs)
    ensures var r := Run(cb, n, evs);
            || Failed(r.mode)
            || (QueueInv(r) && (InOrderOf(r.syncQueue) <==> AllInTurn(cb, n, evs)))
            || (evs != [] && r.mode == Synced &&
                var m := Run(cb, n, evs[..|evs| - 1]);
                || (m.mode == StartSync && AppliesSorted(m, r))
                || (m.mode == Update && r.applied == m.applied + Late(m) && r.syncQueue == [] && r.msgQueue == []
                    && (InOrderOf(Late(m)) <==> AllInTurn(cb, n, evs))))
  {
    hide Receive, QueueInv, InOrderOf, NearArrival, Failed, NearRun, AllInTurn, InTurn, Late, AppliesSorted;
    if evs == [] {
      NothingYetInTurn(cb, n);
    } else {
      var k := |evs| - 1;
      NearLess(cb, n, evs);
      OrderRun(cb, n, evs[..k]);
      var m := Run(cb, n, evs[..k]);
      AreDeliveries(cb, n, evs);
      RunKnown(cb, n, evs[..k]);
      InTurnMore(cb, n, evs);
      OrderStep(cb, m, evs[k].from, evs[k].packet);
    }
  }

  lemma {:induction false} NothingYetInTurn(cb: Callbacks, n: Node)
    ensures AllInTurn(cb, n, [])
  {
  }

  lemma {:induction false} AreDeliveries(cb: Callbacks, n: Node, evs: seq<Event>)
    requires NearRun(cb, n, evs)
    ensures Deliveries(evs)
  {
    hide Run;
  }

  lemma {:induction false} RunKnown(cb: Callbacks, n: Node, evs: seq<Event>)
    requires Deliveries(evs)
    ensures Constant(n, Run(cb, n, evs))
  {
    hide Receive;
    if evs != [] {
      var k := |evs| - 1;
      RunKnown(cb, n, evs[..k]);
      ReceiveConstant(cb, Run(cb, n, evs[..k]), evs[k].from, evs[k].packet);
    }
  }
}
