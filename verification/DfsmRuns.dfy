/** Properties of one member over every run: terminal modes, quiescence while states are
    exchanged, and states of the current epoch only. */
module DfsmRuns {
  import opened MemTree
  import opened TreeIndex
  import opened Leader
  import opened Delta
  import opened Dfsm

  // ---------------------------------------------------------------------------------------
  // Terminal modes
  // ---------------------------------------------------------------------------------------

  /** A failed member stays in its mode; only a restart takes it out of `Leave`. */
  lemma {:induction false} FailedStep(cb: Callbacks, n: Node, ev: Event)
    requires Failed(n.mode) && !(ev.Restarting? && n.mode == Leave)
    ensures Step(cb, n, ev).mode == n.mode
  {
    hide ClearStates, Sort, Fresh, Lowest;
  }

  lemma {:induction false} RunSplit(cb: Callbacks, n: Node, a: seq<Event>, b: seq<Event>)
    ensures Run(cb, n, a + b) == Run(cb, Run(cb, n, a), b)
    decreases |b|
  {
    hide Step;
    if b == [] {
      assert a + b == a;
    } else {
      var k := |b| - 1;
      RunSplit(cb, n, a, b[..k]);
      assert (a + b)[..|a + b| - 1] == a + b[..k];
    }
  }

  lemma {:induction false} FailedFromNow(cb: Callbacks, n: Node, evs: seq<Event>)
    requires Failed(n.mode) && (n.mode == Leave ==> forall k :: 0 <= k < |evs| ==> !evs[k].Restarting?)
    ensures Run(cb, n, evs).mode == n.mode
  {
    hide Step;
    if evs != [] {
      var k := |evs| - 1;
      FailedFromNow(cb, n, evs[..k]);
      FailedStep(cb, Run(cb, n, evs[..k]), evs[k]);
    }
  }

  /** `Error` and `VersionError` are final, whatever is delivered, however the group changes and
      however often the service is started again; `Leave` is left by a restart only. */
  lemma {:induction false} TerminalModes(cb: Callbacks, n: Node, evs: seq<Event>, more: seq<Event>)
    requires Failed(Run(cb, n, evs).mode)
    ensures Run(cb, n, evs).mode != Leave ==> Run(cb, n, evs + more).mode == Run(cb, n, evs).mode
    ensures Run(cb, n, evs).mode == Leave && Run(cb, n, evs + more).mode != Leave ==> exists k :: 0 <= k < |more| && more[k].Restarting?
  {
    RunSplit(cb, n, evs, more);
    if Run(cb, n, evs).mode != Leave || forall k :: 0 <= k < |more| ==> !more[k].Restarting? {
      FailedFromNow(cb, Run(cb, n, evs), more);
    }
  }

  /** The error modes, and the order in which one replaces another: the worst stays until a normal
      mode is set. */
  lemma {:induction false} ModeOrder(mode: Mode, to: Mode)
    ensures Failed(mode) <==> mode == Leave || mode == VersionError || mode == Error
    ensures SetMode(mode, to) ==
            if to == Leave && (mode == VersionError || mode == Error) then mode
            else if to == VersionError && mode == Error then mode
            else to
  {
  }

  /** A member that is not in the new configuration leaves, unless it has not joined yet; one that
      has failed takes no notice. Only the epoch is new, and what waits for the end of an update is
      dropped. */
  lemma {:induction false} AbsentExact(cb: Callbacks, n: Node, ms: seq<Member>, joined: bool, time: nat)
    requires Failed(n.mode) || n.self !in ms
    ensures var (r, out) := ConfChange(cb, n, ms, joined, time);
            && out == [] && r.mode == (if Failed(n.mode) || n.mode == Start then n.mode else Leave)
            && r.db == n.db && r.applied == n.applied && r.msgQueue == n.msgQueue && r.syncQueue == []
            && r.counter == (n.counter + 1) % 0x1_0000_0000
            && r.epoch == Epoch(r.counter, time, n.self.nodeid, n.self.pid)
  {
    hide Sort, Lowest, Fresh;
  }

  // ---------------------------------------------------------------------------------------
  // Modes that follow each other
  // ---------------------------------------------------------------------------------------

  lemma {:induction false} DrainMode(cb: Callbacks, n: Node, todo: seq<Queued>, kept: seq<Queued>)
    ensures var r := Drain(cb, n, todo, kept).0; r.mode == n.mode || r.mode == Error
    decreases |todo|
  {
    hide ClearStates, InsertSorted;
    if todo != [] {
      var q := todo[0];
      if Position(n.infos, q.from).None? {
        DrainMode(cb, n, todo[1..], kept);
      } else if n.mode == Synced || n.mode == Update {
        if !SyncedMember(n.infos, q.from) {
          DrainMode(cb, n, todo[1..], kept + [q]);
        } else if n.mode == Synced {
          DrainMode(cb, ApplyOne(cb, n, q), todo[1..], kept);
        } else {
          DrainMode(cb, n.(syncQueue := n.syncQueue + [q]), todo[1..], kept);
        }
      }
    }
  }

  lemma {:induction false} DrainSyncMode(cb: Callbacks, n: Node, todo: seq<Queued>, ok: bool)
    ensures var r := DrainSync(cb, n, todo, ok).0; r.mode == n.mode || r.mode == Error
    decreases |todo|
  {
    hide ClearStates, InsertSorted;
    if todo != [] {
      if ok && n.mode == Synced {
        DrainSyncMode(cb, ApplyOne(cb, n, todo[0]), todo[1..], true);
      } else {
        DrainSyncMode(cb, n, todo[1..], false);
      }
    }
  }

  // ---------------------------------------------------------------------------------------
  // Quiescence
  // ---------------------------------------------------------------------------------------

  /** While a member exchanges states nothing is applied to its database. */
  lemma {:induction false} QuietStep(cb: Callbacks, n: Node, ev: Event)
    requires Step(cb, n, ev).mode == StartSync
    ensures Step(cb, n, ev).db == n.db && Step(cb, n, ev).applied == n.applied
  {
    hide ClearStates, InsertSorted, Sort, Fresh, Lowest, Drain, DrainSync, OwnMessages, MarkAll, MarkSynced, SelectLeader, Updates, Encode, IndexesOf;
    match ev
    case Delivery(from, packet) => QuietReceive(cb, n, from, packet);
    case Configuration(ms, joined, time) =>
      var k := NewEpoch(n, time).(lowest := Lowest(ms), known := true, infos := Fresh(Sort(ms)), data := None);
      var m := k.(mode := SetMode(k.mode, Synced), infos := MarkAll(k.infos));
      DrainMode(cb, m, m.msgQueue, []);
    case Restarting =>
  }

  lemma {:induction false} QuietReceive(cb: Callbacks, n: Node, from: Member, p: Packet)
    requires Receive(cb, n, from, p).0.mode == StartSync
    ensures var r := Receive(cb, n, from, p).0; n.mode == StartSync && r.db == n.db && r.applied == n.applied
  {
    hide ClearStates, InsertSorted, Drain, DrainSync, MarkAll, MarkSynced, SelectLeader, Updates, Encode, IndexesOf, Position;
    if n.mode == Synced {
      var m := n.(infos := MarkAll(n.infos));
      DrainMode(cb, m, m.msgQueue, []);
    } else if n.mode == Update {
      if p.Packet? && p.msg.UpdateComplete? {
        FinishMode(cb, n);
      }
    } else if n.mode == StartSync {
      if p.Packet? && p.msg.State? {
        StateMode(cb, n, from, p.msg.state);
      }
    }
  }

  lemma {:induction false} FinishMode(cb: Callbacks, n: Node)
    requires n.mode == Update
    ensures var m := FinishUpdate(cb, n).mode; m == Synced || m == Leave || m == Error
  {
    hide ClearStates, MarkAll, Drain, DrainSync;
    if n.data.Some? {
      var (db, ok) := cb.commit(n.db, n.data.value);
      var m := n.(db := db, infos := MarkAll(n.infos), mode := SetMode(n.mode, Synced));
      DrainSyncMode(cb, m, m.syncQueue, true);
      var r := DrainSync(cb, m, m.syncQueue, true).0;
      DrainMode(cb, r, r.msgQueue, []);
    }
  }

  lemma {:induction false} StateMode(cb: Callbacks, n: Node, from: Member, state: Index)
    requires n.mode == StartSync
    ensures var r := ReceiveState(cb, n, from, state).0; r.mode == StartSync ==> r.db == n.db && r.applied == n.applied
  {
    hide ClearStates, Drain, MarkSynced, SelectLeader, Updates, IndexesOf, Position;
    var p, me := Position(n.infos, from), Position(n.infos, n.self);
    if p.Some? && n.infos[p.value].state.None? && me.Some? {
      var m := n.(infos := n.infos[p.value := n.infos[p.value].(state := Some(state))]);
      if AllStates(m.infos) {
        DecideMode(cb, m, me.value);
      }
    }
  }

  lemma {:induction false} DecideMode(cb: Callbacks, n: Node, me: nat)
    requires AllStates(n.infos) && me < |n.infos| && n.mode == StartSync
    ensures var r := Decide(cb, n, me).0; r.mode == Synced || r.mode == Update || r.mode == Leave || r.mode == Error
  {
    hide ClearStates, Drain, MarkSynced, SelectLeader, Updates, IndexesOf, Position;
    var idx := IndexesOf(n.infos);
    var leader := SelectLeader(idx);
    var infos := MarkSynced(n.infos, leader);
    var m := n.(infos := infos, data := Some(SyncData(idx[leader], idx[me], [])));
    var m' := if infos[me].synced then Release(m.(mode := SetMode(m.mode, Synced))) else m.(mode := SetMode(m.mode, Update));
    DrainMode(cb, m', m'.msgQueue, []);
  }

  /** The modes a delivery leads to: a synchronisation goes from `StartSync` to `Update` or
      `Synced` and from `Update` to `Synced`, never back; anything may fail. */
  lemma {:induction false} ReceiveModes(cb: Callbacks, n: Node, from: Member, p: Packet)
    requires p.Packet? ==> p.version <= n.version
    ensures var m := Receive(cb, n, from, p).0.mode;
            || m == n.mode || m == Leave || m == Error
            || (n.mode == StartSync && m == Update) || (n.mode == StartSync && m == Synced) || (n.mode == Update && m == Synced)
  {
    hide ClearStates, InsertSorted, Drain, DrainSync, MarkAll, MarkSynced, SelectLeader, Updates, Encode, IndexesOf, Position;
    if n.mode == Synced {
      var m := n.(infos := MarkAll(n.infos));
      DrainMode(cb, m, m.msgQueue, []);
    } else if n.mode == Update {
      if p.Packet? && p.msg.UpdateComplete? {
        FinishMode(cb, n);
      }
    } else if n.mode == StartSync {
      var me := Position(n.infos, n.self);
      if p.Packet? && p.msg.State? && me.Some? {
        ReceiveStateModes(cb, n, from, p.msg.state);
      }
    }
  }

  lemma {:induction false} ReceiveStateModes(cb: Callbacks, n: Node, from: Member, state: Index)
    requires n.mode == StartSync
    ensures var m := ReceiveState(cb, n, from, state).0.mode; m == StartSync || m == Update || m == Synced || m == Leave || m == Error
  {
    hide ClearStates, Drain, MarkSynced, SelectLeader, Updates, IndexesOf, Position, Decide;
    var p, me := Position(n.infos, from), Position(n.infos, n.self);
    if p.Some? && n.infos[p.value].state.None? && me.Some? {
      var m := n.(infos := n.infos[p.value := n.infos[p.value].(state := Some(state))]);
      if AllStates(m.infos) {
        DecideMode(cb, m, me.value);
      }
    }
  }

  /** A packet of a newer protocol, and nothing else, puts a member into `VersionError`, for good
      and with everything else left as it is; one of an older protocol is ignored. */
  lemma {:induction false} VersionExact(cb: Callbacks, n: Node, from: Member, p: Packet)
    requires n.mode != VersionError
    ensures var newer := !Failed(n.mode) && n.known && p.Packet? && p.version > n.version;
            && (Receive(cb, n, from, p).0.mode == VersionError <==> newer)
            && (newer ==> Receive(cb, n, from, p) == (n.(mode := VersionError), []))
    ensures !Failed(n.mode) && n.known && p.Packet? && p.version < n.version ==> Receive(cb, n, from, p) == (n, [])
  {
    hide ReceiveNormal, ReceiveSynced, ReceiveStartSync, ReceiveUpdating, ClearStates;
    if p.Packet? ==> p.version <= n.version {
      ReceiveModes(cb, n, from, p);
    }
  }

  /** A packet that is too short, one before any configuration, and in an update an entry that
      cannot be parsed make a member leave; database and queues stay, and nothing is sent. */
  lemma {:induction false} MalformedLeaves(cb: Callbacks, n: Node, from: Member, p: Packet)
    requires !Failed(n.mode)
    requires || !n.known || p.Short?
             || (p.version == n.version && p.msg.Truncated?)
             || (p.version == n.version && n.mode == Update && p.msg.UpdateEntry? && p.msg.epoch == n.epoch && (p.msg.entry.None? || n.data.None?))
    ensures var (r, out) := Receive(cb, n, from, p);
            && r.mode == Leave && out == [] && r.data == None && r.db == n.db && r.applied == n.applied
            && r.msgQueue == n.msgQueue && r.syncQueue == n.syncQueue
  {
    hide ClearStates, ReceiveNormal;
  }

  /** In an update an entry is put behind those that have come before. */
  lemma {:induction false} UpdateCollected(cb: Callbacks, n: Node, from: Member, e: Entry)
    requires n.mode == Update && n.known && n.data.Some?
    ensures var data := n.data.value.(updates := n.data.value.updates + [e]);
            Receive(cb, n, from, Packet(n.version, UpdateEntry(n.epoch, Some(e)))) == (n.(data := Some(data)), [])
  {
  }

  /** As long as a member exchanges states, its database and what was applied to it stay. */
  lemma {:induction false} QuietRun(cb: Callbacks, n: Node, evs: seq<Event>)
    requires forall k :: 0 < k <= |evs| ==> Run(cb, n, evs[..k]).mode == StartSync
    ensures Run(cb, n, evs).db == n.db && Run(cb, n, evs).applied == n.applied
  {
    hide Step;
    if evs != [] {
      var k := |evs| - 1;
      forall j | 0 < j <= k
        ensures Run(cb, n, evs[..k][..j]).mode == StartSync
      {
        assert evs[..k][..j] == evs[..j];
      }
      QuietRun(cb, n, evs[..k]);
      assert evs[..k + 1] == evs;
      QuietStep(cb, Run(cb, n, evs[..k]), evs[k]);
    }
  }

  // ---------------------------------------------------------------------------------------
  // States of the current epoch
  // ---------------------------------------------------------------------------------------

  predicate NoStates(infos: seq<Info>) {
    forall k :: 0 <= k < |infos| ==> infos[k].state.None?
  }

  /** The same members, with no state that was not there before; who was marked stays marked. */
  predicate Fewer(after: seq<Info>, before: seq<Info>) {
    && |after| == |before|
    && forall k :: 0 <= k < |after| ==>
         && after[k].member == before[k].member && (before[k].synced ==> after[k].synced)
         && (after[k].state.None? || after[k].state == before[k].state)
  }

  /** A callback that brings no state in; one that fails drops them all. */
  predicate Settles(n: Node, r: Node) {
    && r.epoch == n.epoch && r.version == n.version && Fewer(r.infos, n.infos)
    && (Failed(r.mode) && !Failed(n.mode) ==> NoStates(r.infos))
  }

  lemma {:induction false} LeaveSettles(n: Node)
    ensures Settles(n, LeaveGroup(n)) && NoStates(LeaveGroup(n).infos)
  {
  }

  lemma {:induction false} ApplySettles(cb: Callbacks, n: Node, q: Queued)
    ensures Settles(n, ApplyOne(cb, n, q))
  {
    hide ClearStates;
    var m := n.(db := cb.deliver(n.db, q.from, q.body), applied := n.applied + [q]);
    LeaveSettles(m.(mode := SetMode(m.mode, Error)));
  }

  lemma {:induction false} DrainSettles(cb: Callbacks, n: Node, todo: seq<Queued>, kept: seq<Queued>)
    ensures Settles(n, Drain(cb, n, todo, kept).0)
    decreases |todo|
  {
    hide ApplyOne, Position, Settles;
    assert Settles(n, n) by { SettlesSelf(n, n); }
    if todo == [] {
      SettlesSelf(n, n.(msgQueue := kept));
    } else {
      var q := todo[0];
      if Position(n.infos, q.from).None? {
        DrainSettles(cb, n, todo[1..], kept);
      } else if n.mode != Synced && n.mode != Update {
        SettlesSelf(n, n.(msgQueue := kept + todo));
      } else if !SyncedMember(n.infos, q.from) {
        DrainSettles(cb, n, todo[1..], kept + [q]);
      } else if n.mode == Synced {
        ApplySettles(cb, n, q);
        DrainSettles(cb, ApplyOne(cb, n, q), todo[1..], kept);
        SettlesTrans(n, ApplyOne(cb, n, q), Drain(cb, n, todo, kept).0);
      } else {
        var m := n.(syncQueue := n.syncQueue + [q]);
        DrainSettles(cb, m, todo[1..], kept);
        SettlesSelf(n, m);
        SettlesTrans(n, m, Drain(cb, n, todo, kept).0);
      }
    }
  }

  lemma {:induction false} DrainSyncSettles(cb: Callbacks, n: Node, todo: seq<Queued>, ok: bool)
    ensures Settles(n, DrainSync(cb, n, todo, ok).0)
    decreases |todo|
  {
    hide ApplyOne, Settles;
    if todo == [] {
      SettlesSelf(n, n.(syncQueue := []));
    } else if ok && n.mode == Synced {
      ApplySettles(cb, n, todo[0]);
      DrainSyncSettles(cb, ApplyOne(cb, n, todo[0]), todo[1..], true);
      SettlesTrans(n, ApplyOne(cb, n, todo[0]), DrainSync(cb, n, todo, ok).0);
    } else {
      DrainSyncSettles(cb, n, todo[1..], false);
    }
  }

  lemma {:induction false} SettlesSelf(n: Node, r: Node)
    requires r.epoch == n.epoch && r.version == n.version && r.infos == n.infos && r.mode == n.mode
    ensures Settles(n, r)
  {
  }

  lemma {:induction false} SettlesTrans(n: Node, r: Node, s: Node)
    requires Settles(n, r) && Settles(r, s)
    ensures Settles(n, s)
  {
  }

  /** Marking members and changing to a normal mode. */
  lemma {:induction false} SettlesNormal(n: Node, r: Node)
    requires r.epoch == n.epoch && r.version == n.version && !Failed(r.mode) && Fewer(r.infos, n.infos)
    ensures Settles(n, r)
  {
  }

  lemma {:induction false} FinishSettles(cb: Callbacks, n: Node)
    requires n.mode == Update
    ensures Settles(n, FinishUpdate(cb, n))
  {
    hide Settles, Drain, DrainSync, LeaveGroup, Release;
    LeaveSettles(n);
    if n.data.Some? {
      var (db, ok) := cb.commit(n.db, n.data.value);
      var m := n.(db := db);
      SettlesSelf(n, m);
      LeaveSettles(m);
      SettlesTrans(n, m, LeaveGroup(m));
      var m1 := m.(infos := MarkAll(m.infos), mode := SetMode(m.mode, Synced));
      SettlesNormal(n, m1);
      DrainSyncSettles(cb, m1, m1.syncQueue, true);
      var r := DrainSync(cb, m1, m1.syncQueue, true).0;
      SettlesTrans(n, m1, r);
      LeaveSettles(r);
      SettlesTrans(n, r, LeaveGroup(r));
      DrainSettles(cb, r, r.msgQueue, []);
      var s := Drain(cb, r, r.msgQueue, []).0;
      SettlesTrans(n, r, s);
      LeaveSettles(s);
      SettlesTrans(n, s, LeaveGroup(s));
      ReleaseSettles(s);
      SettlesTrans(n, s, Release(s));
    }
  }

  lemma {:induction false} ReleaseSettles(n: Node)
    ensures Settles(n, Release(n)) && NoStates(Release(n).infos)
  {
  }

  lemma {:induction false} AllSyncedSettles(cb: Callbacks, n: Node)
    requires n.mode == Synced
    ensures Settles(n, AllSynced(cb, n))
  {
    hide Settles, Drain, LeaveGroup;
    var m := n.(infos := MarkAll(n.infos));
    SettlesNormal(n, m);
    DrainSettles(cb, m, m.msgQueue, []);
    var r := Drain(cb, m, m.msgQueue, []).0;
    SettlesTrans(n, m, r);
    LeaveSettles(r);
    SettlesTrans(n, r, LeaveGroup(r));
  }

  lemma {:induction false} DecideSettles(cb: Callbacks, n: Node, me: nat)
    requires AllStates(n.infos) && me < |n.infos| && n.mode == StartSync
    ensures Settles(n, Decide(cb, n, me).0)
  {
    hide Settles, Drain, LeaveGroup, Updates, SelectLeader, IndexesOf;
    var idx := IndexesOf(n.infos);
    var leader := SelectLeader(idx);
    var infos := MarkSynced(n.infos, leader);
    var m := n.(infos := infos, data := Some(SyncData(idx[leader], idx[me], [])));
    SettlesNormal(n, m);
    LeaveSettles(m);
    SettlesTrans(n, m, LeaveGroup(m));
    var m' := if infos[me].synced then Release(m.(mode := SetMode(m.mode, Synced))) else m.(mode := SetMode(m.mode, Update));
    SettlesNormal(n, m');
    DrainSettles(cb, m', m'.msgQueue, []);
    var r := Drain(cb, m', m'.msgQueue, []).0;
    SettlesTrans(n, m', r);
    LeaveSettles(r);
    SettlesTrans(n, r, LeaveGroup(r));
  }

  /** The members that were marked as synced. */
  predicate MarksStay(n: Node, r: Node) {
    && |r.infos| == |n.infos|
    && forall k :: 0 <= k < |n.infos| ==> r.infos[k].member == n.infos[k].member && (n.infos[k].synced ==> r.infos[k].synced)
  }

  /** No delivery unmarks a member: who is synced is synced until the group changes. */
  lemma {:induction false} SyncedStays(cb: Callbacks, n: Node, from: Member, p: Packet)
    ensures MarksStay(n, Receive(cb, n, from, p).0)
  {
    hide LeaveGroup, ApplyOne, AllSynced, FinishUpdate, ReceiveState, Position, InsertSorted, Encode, ReceiveNormal, ReceiveUpdate;
    LeaveSettles(n);
    if p.Packet? && !Failed(n.mode) {
      if p.msg.Normal? {
        NormalSettles(cb, n, Queued(from, p.msg.count, p.msg.body));
      } else if n.mode == Synced {
        AllSyncedSettles(cb, n);
      } else if n.mode == StartSync {
        if p.msg.State? {
          StateMarks(cb, n, from, p.msg.state);
        } else if p.msg.SyncStart? {
          LeaveSettles(Release(n.(epoch := p.msg.epoch)));
        }
      } else if n.mode == Update {
        FinishSettles(cb, n);
        if p.msg.UpdateEntry? {
          UpdateSettles(n, p.msg.entry);
        }
      }
    }
  }

  lemma {:induction false} StateMarks(cb: Callbacks, n: Node, from: Member, st: Index)
    requires n.mode == StartSync
    ensures MarksStay(n, ReceiveState(cb, n, from, st).0)
  {
    hide Decide, LeaveGroup, Position;
    var p, me := Position(n.infos, from), Position(n.infos, n.self);
    LeaveSettles(n);
    if p.Some? && n.infos[p.value].state.None? && me.Some? {
      var m := n.(infos := n.infos[p.value := n.infos[p.value].(state := Some(st))]);
      if AllStates(m.infos) {
        DecideSettles(cb, m, me.value);
      }
    }
  }

  /** State `st` of member `m` was delivered under this epoch. */
  ghost predicate Delivered(evs: seq<Event>, version: nat, epoch: Epoch, m: Member, st: Index) {
    exists j :: 0 <= j < |evs| && evs[j] == Delivery(m, Packet(version, State(epoch, st)))
  }

  ghost predicate StatesCurrent(n: Node, evs: seq<Event>) {
    forall k :: 0 <= k < |n.infos| && n.infos[k].state.Some? ==>
      Delivered(evs, n.version, n.epoch, n.infos[k].member, n.infos[k].state.value)
  }

  ghost predicate EpochInv(n: Node, evs: seq<Event>) {
    n.mode != VersionError ==> StatesCurrent(n, evs) && (Failed(n.mode) ==> NoStates(n.infos))
  }

  lemma {:induction false} DeliveredLater(evs: seq<Event>, ev: Event, version: nat, epoch: Epoch, m: Member, st: Index)
    requires Delivered(evs, version, epoch, m, st)
    ensures Delivered(evs + [ev], version, epoch, m, st)
  {
    var j :| 0 <= j < |evs| && evs[j] == Delivery(m, Packet(version, State(epoch, st)));
    assert (evs + [ev])[j] == evs[j];
  }

  lemma {:induction false} SettlesInv(n: Node, r: Node, evs: seq<Event>, ev: Event)
    requires EpochInv(n, evs) && n.mode != VersionError && Settles(n, r)
    ensures EpochInv(r, evs + [ev])
  {
    forall k | 0 <= k < |r.infos| && r.infos[k].state.Some?
      ensures Delivered(evs + [ev], r.version, r.epoch, r.infos[k].member, r.infos[k].state.value)
    {
      DeliveredLater(evs, ev, n.version, n.epoch, n.infos[k].member, n.infos[k].state.value);
    }
  }

  lemma {:induction false} EmptyInv(r: Node, evs: seq<Event>)
    requires NoStates(r.infos)
    ensures EpochInv(r, evs)
  {
  }

  lemma {:induction false} StateInv(cb: Callbacks, n: Node, from: Member, st: Index, evs: seq<Event>)
    requires EpochInv(n, evs) && n.mode == StartSync
    ensures EpochInv(ReceiveState(cb, n, from, st).0, evs + [Delivery(from, Packet(n.version, State(n.epoch, st)))])
  {
    hide Settles, Decide, LeaveGroup, Position, Delivered;
    var ev := Delivery(from, Packet(n.version, State(n.epoch, st)));
    var p, me := Position(n.infos, from), Position(n.infos, n.self);
    if p.None? || n.infos[p.value].state.Some? {
      LeaveSettles(n);
      EmptyInv(LeaveGroup(n), evs + [ev]);
    } else {
      var m := n.(infos := n.infos[p.value := n.infos[p.value].(state := Some(st))]);
      assert EpochInv(m, evs + [ev]) by {
        forall k | 0 <= k < |m.infos| && m.infos[k].state.Some?
          ensures Delivered(evs + [ev], m.version, m.epoch, m.infos[k].member, m.infos[k].state.value)
        {
          if k == p.value {
            JustDelivered(evs, n.version, n.epoch, from, st);
          } else {
            DeliveredLater(evs, ev, n.version, n.epoch, n.infos[k].member, n.infos[k].state.value);
          }
        }
      }
      if AllStates(m.infos) && me.Some? {
        DecideSettles(cb, m, me.value);
        var r := Decide(cb, m, me.value).0;
        SettlesKeeps(m, r, evs + [ev]);
      }
    }
  }

  lemma {:induction false} JustDelivered(evs: seq<Event>, version: nat, epoch: Epoch, m: Member, st: Index)
    ensures Delivered(evs + [Delivery(m, Packet(version, State(epoch, st)))], version, epoch, m, st)
  {
    var all := evs + [Delivery(m, Packet(version, State(epoch, st)))];
    assert all[|evs|] == Delivery(m, Packet(version, State(epoch, st)));
  }

  lemma {:induction false} SettlesKeeps(n: Node, r: Node, evs: seq<Event>)
    requires EpochInv(n, evs) && n.mode != VersionError && Settles(n, r)
    ensures EpochInv(r, evs)
  {
  }

  lemma {:induction false} ReceiveInv(cb: Callbacks, n: Node, from: Member, p: Packet, evs: seq<Event>)
    requires EpochInv(n, evs)
    ensures EpochInv(Receive(cb, n, from, p).0, evs + [Delivery(from, p)])
  {
    hide EpochInv, Settles, LeaveGroup, ApplyOne, AllSynced, FinishUpdate, ReceiveState, Position, InsertSorted, Release, Encode, ReceiveNormal, ReceiveUpdate;
    var ev, r := Delivery(from, p), Receive(cb, n, from, p).0;
    LeaveSettles(n);
    EmptyInv(LeaveGroup(n), evs + [ev]);
    if n.mode == VersionError {
      assert r == LeaveGroup(n);
    } else {
      SettlesSelf(n, n);
      SettlesInv(n, n, evs, ev);
      VersionInv(n.(mode := SetMode(n.mode, VersionError)), evs + [ev]);
      if p.Packet? && p.msg.Normal? {
        NormalSettles(cb, n, Queued(from, p.msg.count, p.msg.body));
        SettlesInv(n, ReceiveNormal(cb, n, Queued(from, p.msg.count, p.msg.body)), evs, ev);
      }
      if n.mode == Synced {
        AllSyncedSettles(cb, n);
        SettlesInv(n, AllSynced(cb, n), evs, ev);
      } else if n.mode == StartSync {
        if p.Packet? && p.msg.State? && p.msg.epoch == n.epoch && p.version == n.version {
          StateInv(cb, n, from, p.msg.state, evs);
        } else if p.Packet? && p.msg.SyncStart? {
          StartedNoStates(n, p.msg.epoch);
          EmptyInv(SyncStarted(n, p.msg.epoch).0, evs + [ev]);
        }
      } else if n.mode == Update {
        FinishSettles(cb, n);
        SettlesInv(n, FinishUpdate(cb, n), evs, ev);
        if p.Packet? && p.msg.UpdateEntry? {
          UpdateSettles(n, p.msg.entry);
          SettlesInv(n, ReceiveUpdate(n, p.msg.entry), evs, ev);
        }
      }
    }
  }

  lemma {:induction false} VersionInv(n: Node, evs: seq<Event>)
    requires n.mode == VersionError || NoStates(n.infos)
    ensures EpochInv(n, evs)
  {
  }

  lemma {:induction false} NormalSettles(cb: Callbacks, n: Node, q: Queued)
    ensures Settles(n, ReceiveNormal(cb, n, q))
  {
    hide LeaveGroup, ApplyOne, Position, InsertSorted;
    ApplySettles(cb, n, q);
    LeaveSettles(n);
  }

  lemma {:induction false} UpdateSettles(n: Node, e: Option<Entry>)
    ensures Settles(n, ReceiveUpdate(n, e))
  {
    hide LeaveGroup;
    LeaveSettles(n);
  }

  lemma {:induction false} StartedNoStates(n: Node, epoch: Epoch)
    ensures NoStates(SyncStarted(n, epoch).0.infos)
  {
    hide Encode;
  }

  lemma {:induction false} ConfInv(cb: Callbacks, n: Node, ms: seq<Member>, joined: bool, time: nat, evs: seq<Event>)
    requires EpochInv(n, evs)
    ensures EpochInv(ConfChange(cb, n, ms, joined, time).0, evs + [Configuration(ms, joined, time)])
  {
    hide Sort, Lowest, Drain, OwnMessages, Delivered;
    var m := NewEpoch(n, time);
    if !Failed(m.mode) {
      var k := m.(lowest := Lowest(ms), known := true, infos := Fresh(Sort(ms)), data := None);
      var a := k.(mode := SetMode(k.mode, Synced), infos := MarkAll(k.infos));
      DrainSettles(cb, a, a.msgQueue, []);
    }
  }

  /** Epoch isolation: in every run of a member from its start, each state it has stored was
      delivered under the epoch that is current now. */
  lemma {:induction false} EpochIsolation(cb: Callbacks, n: Node, evs: seq<Event>)
    requires n.infos == []
    ensures EpochInv(Run(cb, n, evs), evs)
  {
    hide Receive, ConfChange, EpochInv;
    if evs == [] {
      EmptyInv(n, []);
    } else {
      var k := |evs| - 1;
      EpochIsolation(cb, n, evs[..k]);
      var m := Run(cb, n, evs[..k]);
      assert evs == evs[..k] + [evs[k]];
      match evs[k]
      case Delivery(from, p) => ReceiveInv(cb, m, from, p, evs[..k]);
      case Configuration(ms, joined, time) => ConfInv(cb, m, ms, joined, time, evs[..k]);
      case Restarting => RestartInv(m, evs[..k]);
    }
  }

  lemma {:induction false} RestartInv(n: Node, evs: seq<Event>)
    requires EpochInv(n, evs)
    ensures EpochInv(StartAgain(n), evs + [Restarting])
  {
    hide Delivered;
    forall k | 0 <= k < |n.infos| && n.infos[k].state.Some? && n.mode != VersionError
      ensures Delivered(evs + [Restarting], n.version, n.epoch, n.infos[k].member, n.infos[k].state.value)
    {
      DeliveredLater(evs, Restarting, n.version, n.epoch, n.infos[k].member, n.infos[k].state.value);
    }
  }
}
