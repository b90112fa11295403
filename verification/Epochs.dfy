/** Requests to synchronise and verify messages: what they do to a member in each mode, whoever
    sends them, and what epoch a member is in after a sequence of deliveries. */
module Epochs {
  import opened MemTree
  import opened TreeIndex
  import opened Leader
  import Delta
  import opened Dfsm
  import opened DfsmRuns

  /** A verify message of the epoch makes a member leave exactly if the member is not synced or
      the message is bad; otherwise nothing happens. */
  lemma {:induction false} VerifyExact(cb: Callbacks, n: Node, from: Member, bad: bool)
    requires !Failed(n.mode) && n.known
    ensures var (r, outs) := Receive(cb, n, from, Packet(n.version, Verify(n.epoch, bad)));
            && (Failed(r.mode) <==> n.mode != Synced || bad)
            && (!Failed(r.mode) ==> r == n) && outs == []
  {
  }

  /** A request is obeyed by a member that waits for one, be its sender the lowest member or not;
      a synced member ignores it, and in every other mode it makes the member leave. */
  lemma {:induction false} RequestStep(cb: Callbacks, n: Node, from: Member, epoch: Epoch)
    requires !Failed(n.mode) && n.known
    ensures var (r, outs) := Receive(cb, n, from, Packet(n.version, SyncStart(epoch)));
            && (n.mode == StartSync && 0 in n.db.tree.index ==>
                  && r == n.(epoch := epoch, infos := ClearStates(n.infos), data := None)
                  && outs == [Send(State(epoch, Encode(n.db.tree)))])
            && (n.mode == Synced ==> r == n && outs == [])
            && (n.mode != StartSync && n.mode != Synced ==> Failed(r.mode))
  {
    hide Encode;
  }

  // ---------------------------------------------------------------------------------------
  // The epoch after a sequence of deliveries
  // ---------------------------------------------------------------------------------------

  predicate Request(ev: Event, version: nat) {
    ev.Delivery? && ev.packet.Packet? && ev.packet.version == version && ev.packet.msg.SyncStart?
  }

  /** The epoch of the last request. */
  function LastRequest(epoch: Epoch, version: nat, evs: seq<Event>): Epoch {
    if evs == [] then epoch
    else
      var k := |evs| - 1;
      if Request(evs[k], version) then evs[k].packet.msg.epoch else LastRequest(epoch, version, evs[..k])
  }

  ghost predicate Collects(cb: Callbacks, n: Node, evs: seq<Event>) {
    && n.known && (forall k :: 0 <= k < |evs| ==> evs[k].Delivery?)
    && forall k :: 0 <= k <= |evs| ==> Run(cb, n, evs[..k]).mode == StartSync
  }

  lemma {:induction false} CollectsLess(cb: Callbacks, n: Node, evs: seq<Event>)
    requires Collects(cb, n, evs) && evs != []
    ensures Collects(cb, n, evs[..|evs| - 1]) && Run(cb, n, evs).mode == StartSync
  {
    hide Step;
    var k := |evs| - 1;
    assert evs[..|evs|] == evs;
    forall j | 0 <= j <= k
      ensures Run(cb, n, evs[..k][..j]).mode == StartSync
    {
      assert evs[..k][..j] == evs[..j];
    }
  }

  lemma {:induction false} CollectStepEpoch(cb: Callbacks, n: Node, ev: Event)
    requires n.mode == StartSync && n.known && ev.Delivery? && Step(cb, n, ev).mode == StartSync
    ensures var r := Step(cb, n, ev);
            r.known && r.version == n.version && r.self == n.self && r.epoch == if Request(ev, n.version) then ev.packet.msg.epoch else n.epoch
  {
    hide ClearStates, InsertSorted, Position, Encode, Decide;
    if ev.packet.Packet? && ev.packet.msg.State? {
      StateEpoch(cb, n, ev.from, ev.packet.msg.state);
    }
  }

  lemma {:induction false} StateEpoch(cb: Callbacks, n: Node, from: Member, state: Index)
    requires n.mode == StartSync
    ensures var r := ReceiveState(cb, n, from, state).0;
            r.mode == StartSync ==> r.known == n.known && r.version == n.version && r.self == n.self && r.epoch == n.epoch
  {
    hide ClearStates, Position, Decide;
    var p, me := Position(n.infos, from), Position(n.infos, n.self);
    if p.Some? && n.infos[p.value].state.None? && me.Some? {
      var m := n.(infos := n.infos[p.value := n.infos[p.value].(state := Some(state))]);
      if AllStates(m.infos) {
        DecideMode(cb, m, me.value);
      }
    }
  }

  /** As long as a member exchanges states, its epoch is that of the last request it has
      delivered, whoever has sent it. */
  lemma {:induction false} EpochOfLog(cb: Callbacks, n: Node, evs: seq<Event>)
    requires Collects(cb, n, evs)
    ensures var r := Run(cb, n, evs);
            r.epoch == LastRequest(n.epoch, n.version, evs) && r.version == n.version && r.known && r.self == n.self
    decreases |evs|
  {
    hide Step, Collects, Request;
    LastMode(cb, n, evs);
    if evs != [] {
      var k := |evs| - 1;
      CollectsLess(cb, n, evs);
      EpochOfLog(cb, n, evs[..k]);
      LastMode(cb, n, evs[..k]);
      IsDelivery(cb, n, evs, k);
      CollectStepEpoch(cb, Run(cb, n, evs[..k]), evs[k]);
    }
  }

  lemma {:induction false} LastMode(cb: Callbacks, n: Node, evs: seq<Event>)
    requires Collects(cb, n, evs)
    ensures Run(cb, n, evs).mode == StartSync && n.known
  {
    hide Step;
    assert evs[..|evs|] == evs;
  }

  lemma {:induction false} IsDelivery(cb: Callbacks, n: Node, evs: seq<Event>, k: nat)
    requires Collects(cb, n, evs) && k < |evs|
    ensures evs[k].Delivery?
  {
    hide Run;
  }

  ghost predicate Requested(version: nat, evs: seq<Event>) {
    exists k :: 0 <= k < |evs| && Request(evs[k], version)
  }

  lemma {:induction false} LastRequestIs(a: Epoch, b: Epoch, version: nat, evs: seq<Event>)
    ensures Requested(version, evs) ==> LastRequest(a, version, evs) == LastRequest(b, version, evs)
    ensures !Requested(version, evs) ==> LastRequest(a, version, evs) == a
  {
    hide Request;
    if evs != [] {
      var k := |evs| - 1;
      if !Request(evs[k], version) {
        LastRequestIs(a, b, version, evs[..k]);
        assert Requested(version, evs) ==> Requested(version, evs[..k]) by {
          if j :| 0 <= j < |evs| && Request(evs[j], version) {
            assert evs[..k][j] == evs[j];
          }
        }
      }
    }
  }

  /** Members that begin in epochs of their own and deliver the same messages, exchanging states
      all the while, are in one epoch exactly if a request is among the messages. */
  lemma {:induction false} OneEpochExact(cb: Callbacks, n: Node, m: Node, evs: seq<Event>)
    requires Collects(cb, n, evs) && Collects(cb, m, evs) && n.version == m.version && n.epoch != m.epoch
    ensures Run(cb, n, evs).epoch == Run(cb, m, evs).epoch <==> Requested(n.version, evs)
  {
    hide Collects, Run, LastRequest;
    EpochOfLog(cb, n, evs);
    EpochOfLog(cb, m, evs);
    LastRequestIs(n.epoch, m.epoch, n.version, evs);
    LastRequestIs(m.epoch, n.epoch, n.version, evs);
  }

  // ---------------------------------------------------------------------------------------
  // The own state
  // ---------------------------------------------------------------------------------------

  /** Event `k` made the member send this state. */
  ghost predicate SentAt(cb: Callbacks, n: Node, evs: seq<Event>, k: nat, epoch: Epoch, st: Index)
    requires k < |evs|
  {
    evs[k].Delivery? && Send(State(epoch, st)) in Receive(cb, Run(cb, n, evs[..k]), evs[k].from, evs[k].packet).1
  }

  /** The states of its own and of its epoch that a member delivers are states it has sent. */
  ghost predicate OwnSent(cb: Callbacks, n: Node, evs: seq<Event>) {
    forall j, st :: 0 <= j < |evs| && evs[j] == Delivery(n.self, Packet(n.version, State(Run(cb, n, evs[..j]).epoch, st))) ==>
      exists k :: 0 <= k < j && SentAt(cb, n, evs, k, Run(cb, n, evs[..j]).epoch, st)
  }

  lemma {:induction false} SentState(cb: Callbacks, n: Node, from: Member, p: Packet, epoch: Epoch, st: Index)
    requires n.mode == StartSync && Send(State(epoch, st)) in Receive(cb, n, from, p).1
    ensures 0 in n.db.tree.index && st == Encode(n.db.tree)
  {
    hide ClearStates, InsertSorted, Position, Encode, Drain, MarkSynced, SelectLeader, Delta.Updates, IndexesOf, ReceiveNormal;
  }

  ghost predicate OwnStateIs(n: Node, st: Index) {
    forall k :: 0 <= k < |n.infos| && n.infos[k].member == n.self && n.infos[k].state.Some? ==> n.infos[k].state == Some(st)
  }

  lemma {:induction false} OwnStep(cb: Callbacks, n: Node, ev: Event, st: Index)
    requires n.mode == StartSync && n.known && ev.Delivery? && Step(cb, n, ev).mode == StartSync && OwnStateIs(n, st)
    requires forall x :: ev == Delivery(n.self, Packet(n.version, State(n.epoch, x))) ==> x == st
    ensures OwnStateIs(Step(cb, n, ev), st)
  {
    hide InsertSorted, Encode, Decide, Position;
    if ev.packet.Packet? && ev.packet.version == n.version && ev.packet.msg.State? && ev.packet.msg.epoch == n.epoch {
      assert ev == Delivery(ev.from, Packet(n.version, State(n.epoch, ev.packet.msg.state)));
      OwnReceive(cb, n, ev.from, ev.packet.msg.state, st);
    }
  }

  lemma {:induction false} OwnReceive(cb: Callbacks, n: Node, from: Member, x: Index, st: Index)
    requires n.mode == StartSync && ReceiveState(cb, n, from, x).0.mode == StartSync && OwnStateIs(n, st)
    requires from == n.self ==> x == st
    ensures OwnStateIs(ReceiveState(cb, n, from, x).0, st)
  {
    hide ClearStates, Position, Decide;
    var p, me := Position(n.infos, from), Position(n.infos, n.self);
    if p.Some? && n.infos[p.value].state.None? && me.Some? {
      var m := n.(infos := n.infos[p.value := n.infos[p.value].(state := Some(x))]);
      if AllStates(m.infos) {
        DecideMode(cb, m, me.value);
      }
    }
  }

  lemma {:induction false} OwnSentLess(cb: Callbacks, n: Node, evs: seq<Event>, i: nat)
    requires OwnSent(cb, n, evs) && i <= |evs|
    ensures OwnSent(cb, n, evs[..i])
  {
    hide Run, Receive;
    forall j, st | 0 <= j < i && evs[..i][j] == Delivery(n.self, Packet(n.version, State(Run(cb, n, evs[..i][..j]).epoch, st)))
      ensures exists k :: 0 <= k < j && SentAt(cb, n, evs[..i], k, Run(cb, n, evs[..i][..j]).epoch, st)
    {
      assert evs[..i][..j] == evs[..j];
      var k :| 0 <= k < j && SentAt(cb, n, evs, k, Run(cb, n, evs[..j]).epoch, st);
      assert evs[..i][..k] == evs[..k];
      assert SentAt(cb, n, evs[..i], k, Run(cb, n, evs[..i][..j]).epoch, st);
    }
  }

  /** What a member has sent while it exchanges states is the index of its database. */
  lemma {:induction false} SentIsIndex(cb: Callbacks, n: Node, evs: seq<Event>, k: nat, epoch: Epoch, st: Index)
    requires Collects(cb, n, evs) && k < |evs| && SentAt(cb, n, evs, k, epoch, st)
    ensures 0 in n.db.tree.index && st == Encode(n.db.tree)
  {
    hide Step, Receive, Encode;
    forall j | 0 < j <= k
      ensures Run(cb, n, evs[..k][..j]).mode == StartSync
    {
      assert evs[..k][..j] == evs[..j];
    }
    QuietRun(cb, n, evs[..k]);
    SentState(cb, Run(cb, n, evs[..k]), evs[k].from, evs[k].packet, epoch, st);
  }

  /** As long as a member exchanges states, the state stored for itself is the index of its
      database. */
  lemma {:induction false} OwnState(cb: Callbacks, n: Node, evs: seq<Event>)
    requires Collects(cb, n, evs) && OwnSent(cb, n, evs) && 0 in n.db.tree.index && OwnStateIs(n, Encode(n.db.tree))
    ensures var r := Run(cb, n, evs); r.db == n.db && OwnStateIs(r, Encode(r.db.tree))
    decreases |evs|
  {
    hide Step, Collects, OwnSent, OwnStateIs, Encode;
    if evs != [] {
      var k := |evs| - 1;
      var m, st := Run(cb, n, evs[..k]), Encode(n.db.tree);
      CollectsLess(cb, n, evs);
      OwnSentLess(cb, n, evs, k);
      OwnState(cb, n, evs[..k]);
      EpochOfLog(cb, n, evs[..k]);
      LastMode(cb, n, evs[..k]);
      IsDelivery(cb, n, evs, k);
      forall x | evs[k] == Delivery(m.self, Packet(m.version, State(m.epoch, x)))
        ensures x == st
      {
        var j := Origin(cb, n, evs, k, x);
        SentIsIndex(cb, n, evs, j, m.epoch, x);
      }
      OwnStep(cb, m, evs[k], st);
      QuietStep(cb, m, evs[k]);
    }
  }

  lemma {:induction false} Origin(cb: Callbacks, n: Node, evs: seq<Event>, j: nat, st: Index) returns (k: nat)
    requires OwnSent(cb, n, evs) && j < |evs| && evs[j] == Delivery(n.self, Packet(n.version, State(Run(cb, n, evs[..j]).epoch, st)))
    ensures k < j && SentAt(cb, n, evs, k, Run(cb, n, evs[..j]).epoch, st)
  {
    hide Run, Receive;
    k :| 0 <= k < j && SentAt(cb, n, evs, k, Run(cb, n, evs[..j]).epoch, st);
  }
}
