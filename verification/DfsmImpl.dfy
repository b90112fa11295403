/** `dfsm_t` as an object: the callbacks of `dfsm.c` with their loops, in the order in which the
    source changes its fields. Each method is proved to compute the function of module `Dfsm`. */
module DfsmImpl {
  import opened MemTree
  import opened MemDb
  import opened TreeIndex
  import opened Leader
  import Delta
  import D = Dfsm
  import DfsmRuns

  class Machine {
    const cb: D.Callbacks
    const self: Member
    const version: nat
    var mode: D.Mode
    var known: bool
    var infos: seq<D.Info>
    var epoch: D.Epoch
    var counter: nat
    var lowest: nat
    var msgQueue: seq<D.Queued>
    var syncQueue: seq<D.Queued>
    var data: Option<D.SyncData>
    var db: Db
    var sent: seq<D.Out>
    ghost var applied: seq<D.Queued>

    ghost function State(): D.Node
      reads this
    {
      D.Node(self, version, mode, known, infos, epoch, counter, lowest, msgQueue, syncQueue, data, db, applied)
    }

    constructor (cb: D.Callbacks, self: Member, version: nat, db: Db)
      ensures this.cb == cb && sent == []
      ensures State() == D.Node(self, version, D.Start, false, [], D.Epoch(0, 0, 0, 0), 0, 0, [], [], None, db, [])
    {
      this.cb, this.self, this.version := cb, self, version;
      mode, known, infos := D.Start, false, [];
      epoch, counter, lowest := D.Epoch(0, 0, 0, 0), 0, 0;
      msgQueue, syncQueue, data, this.db, sent, applied := [], [], None, db, [], [];
    }

    method SetMode(to: D.Mode)
      modifies this`mode
      ensures mode == D.SetMode(old(mode), to)
    {
      if mode != to {
        if !D.Failed(to) || (!D.Failed(mode) || D.Number(to) >= D.Number(mode)) {
          mode := to;
        }
      }
    }

    /** `dfsm_node_info_lookup` */
    method Find(m: Member) returns (r: Option<nat>)
      ensures r == D.Position(infos, m)
    {
      var k := |infos|;
      assert infos[..k] == infos;
      while k > 0 && infos[k - 1].member != m
        invariant 0 <= k <= |infos|
        invariant D.Position(infos, m) == D.Position(infos[..k], m)
      {
        assert infos[..k][..k - 1] == infos[..k - 1];
        k := k - 1;
      }
      r := if k == 0 then None else Some(k - 1);
    }

    /** `dfsm_release_sync_resources` without a member list. */
    method Release()
      modifies this`data, this`infos
      ensures State() == D.Release(old(State()))
    {
      data := None;
      ghost var before := infos;
      var k := 0;
      while k < |infos|
        invariant 0 <= k <= |infos| == |before|
        invariant forall j :: 0 <= j < |before| ==> infos[j] == if j < k then before[j].(state := None) else before[j]
        modifies this`infos
      {
        infos := infos[k := infos[k].(state := None)];
        k := k + 1;
      }
      assert infos == D.ClearStates(before);
    }

    method LeaveGroup()
      modifies this`mode, this`data, this`infos
      ensures State() == D.LeaveGroup(old(State()))
    {
      SetMode(D.Leave);
      Release();
    }

    method MarkAll()
      modifies this`infos
      ensures State() == old(State()).(infos := D.MarkAll(old(infos)))
    {
      ghost var before := infos;
      var k := 0;
      while k < |infos|
        invariant 0 <= k <= |infos| == |before|
        invariant forall j :: 0 <= j < |before| ==> infos[j] == if j < k then before[j].(synced := true) else before[j]
        modifies this`infos
      {
        infos := infos[k := infos[k].(synced := true)];
        k := k + 1;
      }
      assert infos == D.MarkAll(before);
    }

    /** Insert behind the entries that do not compare greater. */
    method Enqueue(q: D.Queued)
      modifies this`msgQueue
      ensures State() == old(State()).(msgQueue := D.InsertSorted(old(msgQueue), q))
    {
      ghost var queue := msgQueue;
      var k := |msgQueue|;
      assert queue[..k] == queue && queue[k..] == [];
      while k > 0 && D.CountCompare(msgQueue[k - 1].count, q.count) > 0
        invariant 0 <= k <= |msgQueue| && msgQueue == queue
        invariant D.InsertSorted(queue, q) == D.InsertSorted(queue[..k], q) + queue[k..]
      {
        hide D.CountCompare;
        InsertBefore(queue, k, q);
        k := k - 1;
      }
      InsertHere(queue, k, q);
      msgQueue := msgQueue[..k] + [q] + msgQueue[k..];
    }

    /** Give a message to the database. */
    method ApplyOne(q: D.Queued)
      modifies this`db, this`applied, this`mode, this`data, this`infos
      ensures State() == D.ApplyOne(cb, old(State()), q)
    {
      db := cb.deliver(db, q.from, q.body);
      applied := applied + [q];
      if db.errors {
        SetMode(D.Error);
        LeaveGroup();
      }
    }

    /** The part of the delivery callback for normal messages. */
    method ReceiveNormal(q: D.Queued)
      modifies this
      ensures State() == D.ReceiveNormal(cb, old(State()), q) && sent == old(sent)
    {
      if mode == D.Synced {
        ApplyOne(q);
      } else {
        var p := Find(q.from);
        if p.None? {
          LeaveGroup();
        } else if mode == D.Update && infos[p.value].synced {
          syncQueue := syncQueue + [q];
        } else {
          Enqueue(q);
        }
      }
    }

    /** `dfsm_deliver_queue` */
    method DeliverQueue() returns (ok: bool)
      modifies this
      ensures (State(), ok) == D.DeliverQueue(cb, old(State())) && sent == old(sent)
    {
      hide D.ApplyOne, D.Position;
      ghost var before := State();
      var todo, kept, k := msgQueue, [], 0;
      assert todo[0..] == todo;
      ok := true;
      while k < |todo|
        invariant 0 <= k <= |todo| && sent == old(sent)
        invariant D.Drain(cb, before, todo, []) == D.Drain(cb, State(), todo[k..], kept)
      {
        ghost var n := State();
        var q := todo[k];
        assert todo[k..][0] == q && todo[k..][1..] == todo[k + 1..];
        var p := Find(q.from);
        if p.Some? {
          if mode == D.Synced {
            if infos[p.value].synced {
              ApplyOne(q);
            } else {
              kept := kept + [q];
            }
          } else if mode == D.Update {
            if infos[p.value].synced {
              syncQueue := syncQueue + [q];
            } else {
              kept := kept + [q];
            }
          } else {
            ok := false;
            msgQueue := kept + todo[k..];
            return;
          }
        }
        k := k + 1;
      }
      msgQueue := kept;
    }

    /** `dfsm_deliver_sync_queue` */
    method DeliverSyncQueue() returns (ok: bool)
      modifies this
      ensures (State(), ok) == D.DeliverSyncQueue(cb, old(State())) && sent == old(sent)
    {
      hide D.ApplyOne;
      ghost var before := State();
      var todo, k := syncQueue, 0;
      assert todo[0..] == todo;
      ok := true;
      while k < |todo|
        invariant 0 <= k <= |todo| && sent == old(sent)
        invariant D.DrainSync(cb, before, todo, true) == D.DrainSync(cb, State(), todo[k..], ok)
      {
        assert todo[k..][0] == todo[k] && todo[k..][1..] == todo[k + 1..];
        if ok && mode == D.Synced {
          ApplyOne(todo[k]);
        } else {
          ok := false;
        }
        k := k + 1;
      }
      syncQueue := [];
    }

    /** The request to synchronise: new epoch, and the state is sent. */
    method SyncStarted(e: D.Epoch)
      modifies this
      ensures State() == D.SyncStarted(old(State()), e).0 && sent == old(sent) + D.SyncStarted(old(State()), e).1
    {
      hide Encode, D.ClearStates;
      epoch := e;
      Release();
      if 0 in db.tree.index {
        SortedIs(db.tree.index.Keys);
        var idx := EncodeIndex(db.tree, Sorted(db.tree.index.Keys));
        sent := sent + [D.Send(D.State(e, idx))];
      } else {
        LeaveGroup();
      }
    }

    method ReceivedAll() returns (all: bool)
      ensures all == D.AllStates(infos)
    {
      var k := 0;
      while k < |infos|
        invariant 0 <= k <= |infos|
        invariant forall j :: 0 <= j < k ==> infos[j].state.Some?
      {
        if infos[k].state.None? {
          return false;
        }
        k := k + 1;
      }
      return true;
    }

    /** The states as an array. */
    method CollectIndexes() returns (idx: seq<Index>)
      requires D.AllStates(infos)
      ensures idx == D.IndexesOf(infos)
    {
      idx := [];
      var k := 0;
      while k < |infos|
        invariant 0 <= k <= |infos| && |idx| == k
        invariant forall j :: 0 <= j < k ==> idx[j] == infos[j].state.value
      {
        idx := idx + [infos[k].state.value];
        k := k + 1;
      }
    }

    method MarkSynced(leader: nat)
      requires D.AllStates(infos) && leader < |infos|
      modifies this`infos
      ensures State() == old(State()).(infos := D.MarkSynced(old(infos), leader))
    {
      ghost var before := infos;
      var master := infos[leader].state;
      var k := 0;
      while k < |infos|
        invariant 0 <= k <= |infos| == |before|
        invariant forall j :: 0 <= j < |before| ==>
          infos[j] == if j < k then before[j].(synced := before[j].synced || j == leader || before[j].state == master) else before[j]
        modifies this`infos
      {
        if k == leader || infos[k].state == master {
          infos := infos[k := infos[k].(synced := true)];
        }
        k := k + 1;
      }
      assert infos == D.MarkSynced(before, leader);
    }

    /** `dcdb_process_state_update`, the new mode, and the queue. */
    method Decide(me: nat)
      requires D.AllStates(infos) && me < |infos| && StatesSorted(infos)
      modifies this
      ensures State() == D.Decide(cb, old(State()), me).0 && sent == old(sent) + D.Decide(cb, old(State()), me).1
    {
      hide D.Drain, D.Release, D.LeaveGroup, D.MarkSynced, D.IndexesOf, Delta.Updates, SelectLeader, D.SetMode;
      ghost var before := State();
      var idx := CollectIndexes();
      IndexesSorted(infos);
      var leader := ChooseLeader(idx);
      MarkSynced(leader);
      data := Some(D.SyncData(idx[leader], idx[me], []));
      var out: seq<D.Out> := [];
      if leader == me {
        var us := Delta.CollectUpdates(db.tree, idx, leader);
        if us.None? {
          LeaveGroup();
          return;
        }
        out := [D.SendUpdates(us.value)];
      }
      sent := sent + out;
      EnterMode(me);
      var ok := DeliverQueue();
      if !ok {
        LeaveGroup();
      }
    }

    /** Synced, or waiting for updates. */
    method EnterMode(me: nat)
      requires me < |infos|
      modifies this`mode, this`data, this`infos
      ensures var n := old(State());
              State() == if old(infos[me].synced) then D.Release(n.(mode := D.SetMode(n.mode, D.Synced))) else n.(mode := D.SetMode(n.mode, D.Update))
    {
      hide D.ClearStates;
      if infos[me].synced {
        SetMode(D.Synced);
        Release();
      } else {
        SetMode(D.Update);
      }
    }

    method ReceiveState(from: Member, state: Index)
      requires StatesSorted(infos) && SortedMarks(state.marks)
      modifies this
      ensures State() == D.ReceiveState(cb, old(State()), from, state).0 && sent == old(sent) + D.ReceiveState(cb, old(State()), from, state).1
    {
      hide D.Position, D.Decide, D.LeaveGroup;
      var p := Find(from);
      if p.None? || infos[p.value].state.Some? {
        LeaveGroup();
        return;
      }
      PositionState(infos, p.value, Some(state), self);
      infos := infos[p.value := infos[p.value].(state := Some(state))];
      var all := ReceivedAll();
      var me := Find(self);
      if all && me.Some? {
        Decide(me.value);
      }
    }

    method ReceiveUpdate(entry: Option<Entry>)
      modifies this
      ensures State() == D.ReceiveUpdate(old(State()), entry) && sent == old(sent)
    {
      if entry.None? || data.None? {
        LeaveGroup();
      } else {
        data := Some(data.value.(updates := data.value.updates + [entry.value]));
      }
    }

    method FinishUpdate()
      modifies this
      ensures State() == D.FinishUpdate(cb, old(State())) && sent == old(sent)
    {
      hide D.Drain, D.DrainSync, D.ClearStates, D.MarkAll;
      if data.None? {
        LeaveGroup();
        return;
      }
      var (newDb, ok) := cb.commit(db, data.value);
      db := newDb;
      if !ok {
        LeaveGroup();
        return;
      }
      MarkAll();
      SetMode(D.Synced);
      ok := DeliverSyncQueue();
      if !ok {
        LeaveGroup();
        return;
      }
      ok := DeliverQueue();
      if !ok {
        LeaveGroup();
        return;
      }
      Release();
    }

    method AllSynced()
      modifies this
      ensures State() == D.AllSynced(cb, old(State())) && sent == old(sent)
    {
      hide D.Drain, D.ClearStates, D.MarkAll;
      MarkAll();
      var ok := DeliverQueue();
      if !ok {
        LeaveGroup();
      }
    }

    /** `dfsm_cpg_deliver_callback` */
    method Receive(from: Member, p: D.Packet)
      requires mode == D.StartSync ==> StatesSorted(infos)
      requires p.Packet? && p.msg.State? ==> SortedMarks(p.msg.state.marks)
      modifies this
      ensures State() == D.Receive(cb, old(State()), from, p).0 && sent == old(sent) + D.Receive(cb, old(State()), from, p).1
    {
      hide D.LeaveGroup, D.ReceiveNormal, D.AllSynced, D.SyncStarted, D.ReceiveState, D.ReceiveUpdate, D.FinishUpdate;
      if D.Failed(mode) || !known || p.Short? {
        LeaveGroup();
        return;
      }
      if p.version > version {
        SetMode(D.VersionError);
        return;
      } else if p.version < version {
        return;
      }
      var msg := p.msg;
      if msg.Truncated? {
        LeaveGroup();
      } else if msg.Normal? {
        ReceiveNormal(D.Queued(from, msg.count, msg.body));
      } else if !msg.SyncStart? && msg.epoch != epoch {
        return;
      } else if mode == D.Synced {
        if msg.UpdateComplete? {
          AllSynced();
        } else if msg.Verify? && msg.bad {
          LeaveGroup();
        }
      } else if mode == D.StartSync && msg.SyncStart? {
        SyncStarted(msg.epoch);
      } else if mode == D.StartSync && msg.State? {
        ReceiveState(from, msg.state);
      } else if mode == D.Update && msg.UpdateEntry? {
        ReceiveUpdate(msg.entry);
      } else if mode == D.Update && msg.UpdateComplete? {
        FinishUpdate();
      } else {
        LeaveGroup();
      }
    }

    /** The messages of this member, sent once more. */
    method ResendQueue()
      modifies this`sent, this`msgQueue
      ensures sent == old(sent) + D.OwnMessages(old(msgQueue), self) && msgQueue == []
    {
      var k := 0;
      while k < |msgQueue|
        invariant 0 <= k <= |msgQueue| && msgQueue == old(msgQueue)
        invariant sent == old(sent) + D.OwnMessages(msgQueue[..k], self)
        modifies this`sent
      {
        assert msgQueue[..k + 1][..k] == msgQueue[..k];
        if msgQueue[k].from == self {
          sent := sent + [D.Resend(msgQueue[k])];
        }
        k := k + 1;
      }
      assert msgQueue[..k] == msgQueue;
      msgQueue := [];
    }

    /** More than one member. */
    method BeginSync(joined: bool)
      modifies this`msgQueue, this`mode, this`sent
      ensures State() == D.BeginSync(old(State()), joined).0 && sent == old(sent) + D.BeginSync(old(State()), joined).1
    {
      hide D.OwnMessages;
      if joined && msgQueue != [] {
        ResendQueue();
      }
      SetMode(D.StartSync);
      if lowest == self.nodeid {
        sent := sent + [D.Send(D.SyncStart(epoch))];
      }
    }

    method AloneNow()
      modifies this
      ensures State() == D.AloneNow(cb, old(State())) && sent == old(sent)
    {
      hide D.Drain, D.MarkAll;
      SetMode(D.Synced);
      MarkAll();
      var ok := DeliverQueue();
      if !ok {
        SetMode(D.Leave);
      }
    }

    /** `dfsm_cpg_confchg_callback` */
    method ConfChange(ms: seq<Member>, joined: bool, time: nat)
      modifies this
      ensures State() == D.ConfChange(cb, old(State()), ms, joined, time).0
      ensures sent == old(sent) + D.ConfChange(cb, old(State()), ms, joined, time).1
    {
      hide D.AloneNow, D.BeginSync, D.Lowest, Sort, D.Fresh, D.SetMode, D.NewEpoch;
      NewEpoch(time);
      if D.Failed(mode) {
        return;
      }
      var member;
      lowest, member := Scan(ms);
      known, infos, data := true, D.Fresh(Sort(ms)), None;
      if !member {
        if mode != D.Start {
          SetMode(D.Leave);
        }
      } else if |ms| > 1 {
        BeginSync(joined);
      } else {
        AloneNow();
      }
    }

    method NewEpoch(time: nat)
      modifies this`counter, this`epoch, this`syncQueue
      ensures State() == D.NewEpoch(old(State()), time)
    {
      counter := (counter + 1) % 0x1_0000_0000;
      epoch := D.Epoch(counter, time, self.nodeid, self.pid);
      syncQueue := [];
    }

    /** The lowest node, and whether this member is in the list. */
    method Scan(ms: seq<Member>) returns (low: nat, member: bool)
      ensures low == D.Lowest(ms) && (member <==> self in ms)
    {
      low, member := 0, false;
      var k := 0;
      while k < |ms|
        invariant 0 <= k <= |ms|
        invariant low == D.Lowest(ms[..k]) && (member <==> self in ms[..k])
      {
        assert ms[..k + 1][..k] == ms[..k] && ms[..k + 1] == ms[..k] + [ms[k]];
        if low == 0 || low > ms[k].nodeid {
          low := ms[k].nodeid;
        }
        if ms[k] == self {
          member := true;
        }
        k := k + 1;
      }
      assert ms[..k] == ms;
    }

    /** `service_dfsm_initialize` */
    method StartAgain()
      modifies this`msgQueue, this`mode
      ensures State() == D.StartAgain(old(State()))
    {
      if mode == D.Error || mode == D.VersionError {
        return;
      }
      msgQueue := [];
      SetMode(D.Start);
    }
  }

  ghost predicate StatesSorted(infos: seq<D.Info>) {
    forall k :: 0 <= k < |infos| && infos[k].state.Some? ==> SortedMarks(infos[k].state.value.marks)
  }

  lemma {:induction false} IndexesSorted(infos: seq<D.Info>)
    requires D.AllStates(infos) && StatesSorted(infos)
    ensures forall k :: 0 <= k < |infos| ==> SortedMarks(D.IndexesOf(infos)[k].marks)
  {
  }

  /** A stored state does not move a member. */
  lemma {:induction false} PositionState(infos: seq<D.Info>, p: nat, state: Option<Index>, m: Member)
    requires p < |infos|
    ensures D.Position(infos[p := infos[p].(state := state)], m) == D.Position(infos, m)
  {
    var after := infos[p := infos[p].(state := state)];
    var n := |infos| - 1;
    if p == n {
      assert after[..n] == infos[..n];
    } else {
      assert after[..n] == infos[..n][p := infos[..n][p].(state := state)];
      PositionState(infos[..n], p, state, m);
    }
  }

  lemma {:induction false} InsertBefore(queue: seq<D.Queued>, k: nat, q: D.Queued)
    requires 0 < k <= |queue| && D.CountCompare(queue[k - 1].count, q.count) > 0
    ensures D.InsertSorted(queue[..k], q) + queue[k..] == D.InsertSorted(queue[..k - 1], q) + queue[k - 1..]
  {
    hide D.CountCompare;
    var a := queue[..k];
    assert a[..k - 1] == queue[..k - 1] && a[k - 1] == queue[k - 1];
    assert queue[k - 1..] == [queue[k - 1]] + queue[k..];
  }

  lemma {:induction false} InsertHere(queue: seq<D.Queued>, k: nat, q: D.Queued)
    requires 0 <= k <= |queue| && (k > 0 ==> D.CountCompare(queue[k - 1].count, q.count) <= 0)
    ensures D.InsertSorted(queue[..k], q) == queue[..k] + [q]
  {
    hide D.CountCompare;
  }

  /** What `Receive` asks of the stored states holds in every run in which the states that arrive
      are encoded indexes. */
  lemma {:induction false} StoredStatesSorted(cb: D.Callbacks, n: D.Node, evs: seq<D.Event>)
    requires n.infos == []
    requires forall k :: 0 <= k < |evs| && evs[k].Delivery? && evs[k].packet.Packet? && evs[k].packet.msg.State? ==>
      SortedMarks(evs[k].packet.msg.state.marks)
    ensures var m := D.Run(cb, n, evs); m.mode == D.StartSync ==> StatesSorted(m.infos)
  {
    hide D.Run, SortedMarks;
    DfsmRuns.EpochIsolation(cb, n, evs);
    var m := D.Run(cb, n, evs);
    if m.mode == D.StartSync {
      forall k | 0 <= k < |m.infos| && m.infos[k].state.Some?
        ensures SortedMarks(m.infos[k].state.value.marks)
      {
        var st := m.infos[k].state.value;
        assert DfsmRuns.Delivered(evs, m.version, m.epoch, m.infos[k].member, st);
        var j :| 0 <= j < |evs| && evs[j] == D.Delivery(m.infos[k].member, D.Packet(m.version, D.State(m.epoch, st)));
        assert evs[j].Delivery? && evs[j].packet.Packet? && evs[j].packet.msg.State?;
      }
    }
  }
}
