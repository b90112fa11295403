/** The distributed finite state machine of `dfsm.c`: one member of the group as a value, with
    the delivery and configuration-change callbacks as functions. The database callbacks that the
    machine is given are the fields of `Callbacks`. */
module Dfsm {
  import opened MemTree
  import opened MemDb
  import opened TreeIndex
  import opened Leader
  import opened Delta
  import opened Dcdb

  datatype Mode = Start | StartSync | Synced | Update | Leave | VersionError | Error

  function Number(m: Mode): nat {
    match m
    case Start => 0
    case StartSync => 1
    case Synced => 2
    case Update => 3
    case Leave => 253
    case VersionError => 254
    case Error => 255
  }

  /** Modes from here on are error modes. */
  const ERROR_MODES: nat := 128

  predicate Failed(m: Mode) {
    Number(m) >= ERROR_MODES
  }

  /** `dfsm_set_mode`: an error mode gives way only to a normal mode or to a worse error. */
  function SetMode(mode: Mode, to: Mode): Mode {
    if !Failed(to) || !Failed(mode) || Number(to) >= Number(mode) then to else mode
  }

  datatype Epoch = Epoch(epoch: nat, time: nat, nodeid: u32, pid: u32)

  /** `Truncated`: shorter than the header of its kind. A verify message is `bad` if it has the
      wrong length or a wrong checksum. An update that cannot be parsed carries no entry. */
  datatype Msg =
    | Truncated
    | Normal(count: nat, body: AppMsg)
    | SyncStart(epoch: Epoch)
    | State(epoch: Epoch, state: Index)
    | UpdateEntry(epoch: Epoch, entry: Option<Entry>)
    | UpdateComplete(epoch: Epoch)
    | Verify(epoch: Epoch, bad: bool)
    | Unknown(epoch: Epoch)

  datatype Packet = Short | Packet(version: nat, msg: Msg)

  datatype Info = Info(member: Member, state: Option<Index>, synced: bool)
  datatype Queued = Queued(from: Member, count: nat, body: AppMsg)
  datatype SyncData = SyncData(master: Index, own: Index, updates: seq<Entry>)

  /** `deliver` is `dcdb_deliver`, which fails if it leaves the database with errors; `commit` is
      `dcdb_commit`. */
  datatype Callbacks = Callbacks(deliver: (Db, Member, AppMsg) -> Db, commit: (Db, SyncData) -> (Db, bool))

  /** `applied` is the history of the messages given to `deliver`. */
  datatype Node = Node(self: Member, version: nat, mode: Mode, known: bool, infos: seq<Info>, epoch: Epoch, counter: nat,
                       lowest: nat, msgQueue: seq<Queued>, syncQueue: seq<Queued>, data: Option<SyncData>,
                       db: Db, applied: seq<Queued>)

  /** What a callback sends; updates go out in any order, followed by the completion. */
  datatype Out = Send(msg: Msg) | SendUpdates(updates: map<nat, Entry>) | Resend(q: Queued)

  // ---------------------------------------------------------------------------------------
  // Members
  // ---------------------------------------------------------------------------------------

  /** `dfsm_node_info_lookup` */
  function Position(infos: seq<Info>, m: Member): (r: Option<nat>)
    ensures r.Some? ==> r.value < |infos| && infos[r.value].member == m
    ensures r.None? ==> forall k :: 0 <= k < |infos| ==> infos[k].member != m
  {
    if infos == [] then None
    else if infos[|infos| - 1].member == m then Some(|infos| - 1)
    else Position(infos[..|infos| - 1], m)
  }

  predicate SyncedMember(infos: seq<Info>, m: Member) {
    var p := Position(infos, m);
    p.Some? && infos[p.value].synced
  }

  function Fresh(ms: seq<Member>): (r: seq<Info>)
    ensures |r| == |ms|
  {
    seq(|ms|, k requires 0 <= k < |ms| => Info(ms[k], None, false))
  }

  function ClearStates(infos: seq<Info>): (r: seq<Info>)
    ensures |r| == |infos|
  {
    seq(|infos|, k requires 0 <= k < |infos| => infos[k].(state := None))
  }

  function MarkAll(infos: seq<Info>): (r: seq<Info>)
    ensures |r| == |infos|
  {
    seq(|infos|, k requires 0 <= k < |infos| => infos[k].(synced := true))
  }

  /** `dfsm_release_sync_resources` without a member list. */
  function Release(n: Node): Node {
    n.(data := None, infos := ClearStates(n.infos))
  }

  /** The label `leave`. */
  function LeaveGroup(n: Node): Node {
    Release(n.(mode := SetMode(n.mode, Leave)))
  }

  // ---------------------------------------------------------------------------------------
  // The queues
  // ---------------------------------------------------------------------------------------

  /** `message_queue_sort_fn`: a 64-bit difference returned as a 32-bit integer. */
  function CountCompare(a: nat, b: nat): int {
    Narrow(a - b)
  }

  /** A sorted queue with `q` behind the entries that do not compare greater. */
  function InsertSorted(queue: seq<Queued>, q: Queued): seq<Queued> {
    if queue == [] then [q]
    else
      var n := |queue| - 1;
      if CountCompare(queue[n].count, q.count) <= 0 then queue + [q]
      else InsertSorted(queue[..n], q) + [queue[n]]
  }

  /** Give a message to the database. */
  function ApplyOne(cb: Callbacks, n: Node, q: Queued): Node {
    var db := cb.deliver(n.db, q.from, q.body);
    var m := n.(db := db, applied := n.applied + [q]);
    if db.errors then LeaveGroup(m.(mode := SetMode(m.mode, Error))) else m
  }

  /** A normal message: deliver it, or queue it while not synced. */
  function ReceiveNormal(cb: Callbacks, n: Node, q: Queued): Node {
    if n.mode == Synced then ApplyOne(cb, n, q)
    else if Position(n.infos, q.from).None? then LeaveGroup(n)
    else if n.mode == Update && SyncedMember(n.infos, q.from) then n.(syncQueue := n.syncQueue + [q])
    else n.(msgQueue := InsertSorted(n.msgQueue, q))
  }

  /** The loop of `dfsm_deliver_queue`: `todo` is still to be looked at, `kept` stays queued. */
  function Drain(cb: Callbacks, n: Node, todo: seq<Queued>, kept: seq<Queued>): (Node, bool)
    decreases |todo|
  {
    if todo == [] then (n.(msgQueue := kept), true)
    else
      var q := todo[0];
      if Position(n.infos, q.from).None? then Drain(cb, n, todo[1..], kept)
      else if n.mode != Synced && n.mode != Update then (n.(msgQueue := kept + todo), false)
      else if !SyncedMember(n.infos, q.from) then Drain(cb, n, todo[1..], kept + [q])
      else if n.mode == Synced then Drain(cb, ApplyOne(cb, n, q), todo[1..], kept)
      else Drain(cb, n.(syncQueue := n.syncQueue + [q]), todo[1..], kept)
  }

  function DeliverQueue(cb: Callbacks, n: Node): (Node, bool) {
    Drain(cb, n, n.msgQueue, [])
  }

  /** The loop of `dfsm_deliver_sync_queue`. */
  function DrainSync(cb: Callbacks, n: Node, todo: seq<Queued>, ok: bool): (Node, bool)
    decreases |todo|
  {
    if todo == [] then (n.(syncQueue := []), ok)
    else if ok && n.mode == Synced then DrainSync(cb, ApplyOne(cb, n, todo[0]), todo[1..], true)
    else DrainSync(cb, n, todo[1..], false)
  }

  function DeliverSyncQueue(cb: Callbacks, n: Node): (Node, bool) {
    DrainSync(cb, n, n.syncQueue, true)
  }

  // ---------------------------------------------------------------------------------------
  // State messages
  // ---------------------------------------------------------------------------------------

  predicate AllStates(infos: seq<Info>) {
    forall k :: 0 <= k < |infos| ==> infos[k].state.Some?
  }

  function IndexesOf(infos: seq<Info>): (r: seq<Index>)
    requires AllStates(infos)
    ensures |r| == |infos|
  {
    seq(|infos|, k requires 0 <= k < |infos| => infos[k].state.value)
  }

  /** The flags set by `dcdb_process_state_update`. */
  function MarkSynced(infos: seq<Info>, leader: nat): (r: seq<Info>)
    requires AllStates(infos) && leader < |infos|
    ensures |r| == |infos|
  {
    seq(|infos|, k requires 0 <= k < |infos| =>
      infos[k].(synced := infos[k].synced || k == leader || infos[k].state == infos[leader].state))
  }

  function SyncStarted(n: Node, epoch: Epoch): (Node, seq<Out>) {
    var m := Release(n.(epoch := epoch));
    if 0 in m.db.tree.index then (m, [Send(State(epoch, Encode(m.db.tree)))])
    else (LeaveGroup(m), [])
  }

  /** After all states have arrived. */
  function Decide(cb: Callbacks, n: Node, me: nat): (Node, seq<Out>)
    requires AllStates(n.infos) && me < |n.infos|
  {
    var idx := IndexesOf(n.infos);
    var leader := SelectLeader(idx);
    var infos := MarkSynced(n.infos, leader);
    var m := n.(infos := infos, data := Some(SyncData(idx[leader], idx[me], [])));
    var updates := if leader == me then Updates(n.db.tree, idx, leader) else Some(map[]);
    if updates.None? then (LeaveGroup(m), [])
    else
      var m' := if infos[me].synced then Release(m.(mode := SetMode(m.mode, Synced))) else m.(mode := SetMode(m.mode, Update));
      var (r, ok) := DeliverQueue(cb, m');
      (if ok then r else LeaveGroup(r), if leader == me then [SendUpdates(updates.value)] else [])
  }

  function ReceiveState(cb: Callbacks, n: Node, from: Member, state: Index): (Node, seq<Out>) {
    var p, me := Position(n.infos, from), Position(n.infos, n.self);
    if p.None? || n.infos[p.value].state.Some? then (LeaveGroup(n), [])
    else
      var m := n.(infos := n.infos[p.value := n.infos[p.value].(state := Some(state))]);
      if !AllStates(m.infos) || me.None? then (m, []) else Decide(cb, m, me.value)
  }

  function ReceiveUpdate(n: Node, entry: Option<Entry>): Node {
    if entry.None? || n.data.None? then LeaveGroup(n)
    else n.(data := Some(n.data.value.(updates := n.data.value.updates + [entry.value])))
  }

  /** The end of an update: commit, then the queues. */
  function FinishUpdate(cb: Callbacks, n: Node): Node {
    if n.data.None? then LeaveGroup(n) else
      var (db, ok) := cb.commit(n.db, n.data.value);
      var m := n.(db := db);
      if !ok then LeaveGroup(m) else
        var (r, ok1) := DeliverSyncQueue(cb, m.(infos := MarkAll(m.infos), mode := SetMode(m.mode, Synced)));
        if !ok1 then LeaveGroup(r) else
          var (s, ok2) := DeliverQueue(cb, r);
          if !ok2 then LeaveGroup(s) else Release(s)
  }

  /** An update is complete and this member was synced before. */
  function AllSynced(cb: Callbacks, n: Node): Node {
    var (r, ok) := DeliverQueue(cb, n.(infos := MarkAll(n.infos)));
    if ok then r else LeaveGroup(r)
  }

  function ReceiveSynced(cb: Callbacks, n: Node, msg: Msg): Node {
    if msg.UpdateComplete? then AllSynced(cb, n)
    else if msg.Verify? && msg.bad then LeaveGroup(n)
    else n
  }

  function ReceiveStartSync(cb: Callbacks, n: Node, from: Member, msg: Msg): (Node, seq<Out>) {
    if msg.SyncStart? then SyncStarted(n, msg.epoch)
    else if msg.State? then ReceiveState(cb, n, from, msg.state)
    else (LeaveGroup(n), [])
  }

  function ReceiveUpdating(cb: Callbacks, n: Node, msg: Msg): Node {
    if msg.UpdateEntry? then ReceiveUpdate(n, msg.entry)
    else if msg.UpdateComplete? then FinishUpdate(cb, n)
    else LeaveGroup(n)
  }

  /** `dfsm_cpg_deliver_callback` */
  function Receive(cb: Callbacks, n: Node, from: Member, p: Packet): (Node, seq<Out>) {
    if Failed(n.mode) || !n.known || p.Short? then (LeaveGroup(n), [])
    else if p.version > n.version then (n.(mode := SetMode(n.mode, VersionError)), [])
    else if p.version < n.version then (n, [])
    else if p.msg.Truncated? then (LeaveGroup(n), [])
    else if p.msg.Normal? then (ReceiveNormal(cb, n, Queued(from, p.msg.count, p.msg.body)), [])
    else if !p.msg.SyncStart? && p.msg.epoch != n.epoch then (n, [])
    else if n.mode == Synced then (ReceiveSynced(cb, n, p.msg), [])
    else if n.mode == StartSync then ReceiveStartSync(cb, n, from, p.msg)
    else if n.mode == Update then (ReceiveUpdating(cb, n, p.msg), [])
    else (LeaveGroup(n), [])
  }

  // ---------------------------------------------------------------------------------------
  // Configuration changes
  // ---------------------------------------------------------------------------------------

  function Lowest(ms: seq<Member>): nat {
    if ms == [] then 0
    else
      var n := |ms| - 1;
      var l := Lowest(ms[..n]);
      if l == 0 || l > ms[n].nodeid then ms[n].nodeid else l
  }

  function OwnMessages(queue: seq<Queued>, self: Member): seq<Out> {
    if queue == [] then []
    else
      var n := |queue| - 1;
      OwnMessages(queue[..n], self) + if queue[n].from == self then [Resend(queue[n])] else []
  }

  function NewEpoch(n: Node, time: nat): Node {
    var c := (n.counter + 1) % 0x1_0000_0000;
    n.(counter := c, epoch := Epoch(c, time, n.self.nodeid, n.self.pid), syncQueue := [])
  }

  /** More than one member: resend if somebody joined, then synchronise. */
  function BeginSync(n: Node, joined: bool): (Node, seq<Out>) {
    var resend := joined && n.msgQueue != [];
    var m := n.(msgQueue := if resend then [] else n.msgQueue, mode := SetMode(n.mode, StartSync));
    (m, (if resend then OwnMessages(n.msgQueue, n.self) else []) + (if m.lowest == m.self.nodeid then [Send(SyncStart(m.epoch))] else []))
  }

  function AloneNow(cb: Callbacks, n: Node): Node {
    var (r, ok) := DeliverQueue(cb, n.(mode := SetMode(n.mode, Synced), infos := MarkAll(n.infos)));
    if ok then r else r.(mode := SetMode(r.mode, Leave))
  }

  /** `dfsm_cpg_confchg_callback` */
  function ConfChange(cb: Callbacks, n: Node, ms: seq<Member>, joined: bool, time: nat): (Node, seq<Out>) {
    var m := NewEpoch(n, time);
    if Failed(m.mode) then (m, [])
    else
      var k := m.(lowest := Lowest(ms), known := true, infos := Fresh(Sort(ms)), data := None);
      if k.self !in ms then (if k.mode == Start then k else k.(mode := SetMode(k.mode, Leave)), [])
      else if |ms| > 1 then BeginSync(k, joined)
      else (AloneNow(cb, k), [])
  }

  /** `service_dfsm_initialize`: a member in error is not started again. */
  function StartAgain(n: Node): Node {
    if n.mode == Error || n.mode == VersionError then n
    else n.(msgQueue := [], mode := SetMode(n.mode, Start))
  }

  // ---------------------------------------------------------------------------------------
  // Runs of one member
  // ---------------------------------------------------------------------------------------

  datatype Event =
    | Delivery(from: Member, packet: Packet)
    | Configuration(members: seq<Member>, joined: bool, time: nat)
    | Restarting

  function Step(cb: Callbacks, n: Node, ev: Event): Node {
    match ev
    case Delivery(from, packet) => Receive(cb, n, from, packet).0
    case Configuration(ms, joined, time) => ConfChange(cb, n, ms, joined, time).0
    case Restarting => StartAgain(n)
  }

  function Run(cb: Callbacks, n: Node, evs: seq<Event>): Node {
    if evs == [] then n else Step(cb, Run(cb, n, evs[..|evs| - 1]), evs[|evs| - 1])
  }
}
