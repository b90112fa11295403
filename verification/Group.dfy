/** The group as a whole: members deliver one common log, each at its own pace, and what they
    multicast enters the log at some later point. Every run of a synchronisation round. */
module Group {
  import opened MemTree
  import opened Leader
  import opened Delta
  import opened Dcdb
  import opened Dfsm
  import opened Queues
  import opened Agreement

  datatype Sent = Sent(from: nat, msg: Msg)

  // ---------------------------------------------------------------------------------------
  // What a log means
  // ---------------------------------------------------------------------------------------

  /** How far a log has come. `Broken`: something in it does not belong to the round. */
  datatype Phase =
    | Before
    | Collecting(got: set<nat>, q: seq<Queued>)
    | Updating(q: seq<Queued>, ns: seq<Queued>, us: seq<Entry>)
    | Done(q: seq<Queued>, ns: seq<Queued>, us: seq<Entry>, after: seq<Queued>)
    | Broken

  /** The last state is in the log. */
  predicate Settled(p: Phase) {
    p.Updating? || p.Done?
  }

  predicate Stale(r: Round, msg: Msg) {
    !msg.Truncated? && !msg.Normal? && !msg.SyncStart? && msg.epoch != r.epoch
  }

  function QueuedFrom(r: Round, s: Sent): Queued
    requires s.from < |r.ms| && s.msg.Normal?
  {
    Queued(r.ms[s.from], s.msg.count, s.msg.body)
  }

  ghost function CollectStep(r: Round, got: set<nat>, q: seq<Queued>, s: Sent): Phase
    requires Valid(r) && s.from < |r.ms|
  {
    if s.msg.Normal? then Collecting(got, InsertSorted(q, QueuedFrom(r, s)))
    else if s.msg == State(r.epoch, StateOf(r, s.from)) && s.from !in got then
      if forall j :: 0 <= j < |r.ms| ==> j in got || j == s.from then Updating(q, [], [])
      else Collecting(got + {s.from}, q)
    else Broken
  }

  function UpdateStep(r: Round, q: seq<Queued>, ns: seq<Queued>, us: seq<Entry>, s: Sent): Phase
    requires s.from < |r.ms|
  {
    if s.msg.Normal? then Updating(q, ns + [QueuedFrom(r, s)], us)
    else if s.msg.UpdateEntry? && s.msg.entry.Some? then Updating(q, ns, us + [s.msg.entry.value])
    else if s.msg.UpdateComplete? then Done(q, ns, us, [])
    else Broken
  }

  ghost function PhaseStep(r: Round, p: Phase, s: Sent): Phase
    requires Valid(r) && s.from < |r.ms|
  {
    if p.Before? then (if s.msg == SyncStart(r.epoch) then Collecting({}, r.queue) else Broken)
    else if p.Broken? then Broken
    else if Stale(r, s.msg) then p
    else if s.msg.Verify? then (if Settled(p) then p else Broken)
    else
      match p
      case Collecting(got, q) => CollectStep(r, got, q, s)
      case Updating(q, ns, us) => UpdateStep(r, q, ns, us, s)
      case Done(q, ns, us, after) => if s.msg.Normal? then Done(q, ns, us, after + [QueuedFrom(r, s)]) else Broken
  }

  /** The senders are members. */
  predicate Senders(r: Round, log: seq<Sent>) {
    forall k :: 0 <= k < |log| ==> log[k].from < |r.ms|
  }

  ghost function PhaseOf(r: Round, log: seq<Sent>): Phase
    requires Valid(r) && Senders(r, log)
  {
    if log == [] then Before else PhaseStep(r, PhaseOf(r, log[..|log| - 1]), log[|log| - 1])
  }

  // ---------------------------------------------------------------------------------------
  // What a member is after a log
  // ---------------------------------------------------------------------------------------

  ghost function View(r: Round, i: nat, p: Phase): Node
    requires Valid(r) && i < |r.ms|
  {
    var cb := DcdbCallbacks();
    match p
    case Before => r.start[i]
    case Collecting(got, q) => Waiting(r, i, got, q)
    case Updating(q, ns, us) => Between(cb, r, i, q, ns, us)
    case Done(q, ns, us, after) =>
      var n := Finished(cb, r, i, q, ns, us);
      n.(db := Applies(cb, n.db, after), applied := n.applied + after)
    case Broken => r.start[i]
  }

  /** Member `i` stays in the group: a verify message reaches it only when it is synced, and is good. */
  ghost predicate Survives(r: Round, i: nat, p: Phase, msg: Msg)
    requires Valid(r) && i < |r.ms|
  {
    msg.Verify? && msg.epoch == r.epoch ==> !msg.bad && (p.Done? || (p.Updating? && InSync(r, i)))
  }

  ghost predicate Gone(r: Round, i: nat, log: seq<Sent>)
    requires Valid(r) && i < |r.ms| && Senders(r, log)
  {
    log != [] &&
    var n := |log| - 1;
    Gone(r, i, log[..n]) || !Survives(r, i, PhaseOf(r, log[..n]), log[n].msg)
  }

  ghost function OutOf(r: Round, i: nat, p: Phase, p': Phase): seq<Out>
    requires Valid(r) && i < |r.ms|
  {
    if p.Before? && p'.Collecting? then [Send(State(r.epoch, StateOf(r, i)))]
    else if p.Collecting? && p'.Updating? then UpdatesOut(r, i)
    else []
  }

  /** What member `i` has applied in a phase. */
  ghost function AppliedBy(r: Round, i: nat, p: Phase): seq<Queued>
    requires Valid(r) && i < |r.ms|
  {
    match p
    case Updating(q, ns, us) => if InSync(r, i) then FirstPart(r, q) + ns else []
    case Done(q, ns, us, after) => Sequence(r, i, q, ns) + after
    case _ => []
  }

  /** What is assumed of a log: what each member applies leaves no errors. */
  ghost predicate Harmless(r: Round, p: Phase)
    requires Valid(r)
  {
    forall i :: 0 <= i < |r.ms| ==> Clean(DcdbCallbacks(), DbOf(r, LeaderOf(r)), AppliedBy(r, i, p))
  }

  /** The messages since the last state come from members, no message leaves errors, and a
      completed update was complete. */
  ghost predicate Good(r: Round, p: Phase)
    requires Valid(r)
  {
    && !p.Broken?
    && (p.Updating? || p.Done? ==> AllMembers(Fresh(r.ms), p.ns))
    && (p.Done? ==> UpdatesSent(r, p.us) && Committable(r))
    && Harmless(r, p)
  }

  lemma {:induction false} HarmlessAt(r: Round, i: nat, p: Phase)
    requires Valid(r) && i < |r.ms| && Good(r, p)
    ensures Clean(DcdbCallbacks(), DbOf(r, LeaderOf(r)), AppliedBy(r, i, p))
  {
    hide Valid, Clean, DcdbCallbacks, AllMembers, UpdatesSent, Committable, LeaderOf, AppliedBy;
  }

  // ---------------------------------------------------------------------------------------
  // One more delivery
  // ---------------------------------------------------------------------------------------

  lemma {:induction false} ViewShape(r: Round, i: nat, p: Phase)
    requires Valid(r) && i < |r.ms|
    ensures var n := View(r, i, p);
            && n.version == r.version && n.known && n.self == r.ms[i] && !Failed(n.mode)
            && (!p.Before? && !p.Broken? ==> n.epoch == r.epoch)
            && (p.Updating? ==> n.mode == if InSync(r, i) then Synced else Update)
            && (p.Done? ==> n.mode == Synced && n.syncQueue == [] && n.msgQueue == [] && n.infos == AllMarked(r.ms))
  {
    hide Valid, InSync, Applies, FirstPart, LastPart, Marked, Sequence, Base, DcdbCallbacks, InsertAll, Got, StateOf, LeaderOf, AllMarked;
    StartFacts(r, i);
  }

  lemma {:induction false} ReceiveNormalIs(cb: Callbacks, n: Node, x: Queued)
    requires !Failed(n.mode) && n.known
    ensures Receive(cb, n, x.from, Packet(n.version, Normal(x.count, x.body))) == (ReceiveNormal(cb, n, x), [])
  {
    hide ReceiveNormal;
  }

  /** Cleanness at the leader is cleanness at every synced member. */
  lemma {:induction false} CleanHere(r: Round, i: nat, qs: seq<Queued>)
    requires Valid(r) && i < |r.ms| && InSync(r, i) && Clean(DcdbCallbacks(), DbOf(r, LeaderOf(r)), qs)
    ensures Clean(DcdbCallbacks(), DbOf(r, i), qs)
  {
    hide Valid, InSync, Clean, DcdbCallbacks, LeaderOf;
    StartFacts(r, i);
    SyncedCore(r, i);
    AppliesCore(DbOf(r, i), DbOf(r, LeaderOf(r)), qs);
  }

  lemma {:induction false} CollectView(r: Round, i: nat, p: Phase, s: Sent)
    requires Valid(r) && i < |r.ms| && s.from < |r.ms| && p.Collecting?
    requires var p' := CollectStep(r, p.got, p.q, s); Good(r, p')
    ensures var p' := CollectStep(r, p.got, p.q, s);
            Receive(DcdbCallbacks(), View(r, i, p), r.ms[s.from], Packet(r.version, s.msg)) == (View(r, i, p'), OutOf(r, i, p, p'))
  {
    hide Valid, InSync, Clean, DcdbCallbacks, StateOf, Waiting, Between, Receive, FirstPart, LastPart, InsertSorted, UpdatesOut, Good, LeaderOf;
    var cb := DcdbCallbacks();
    GoodNotBroken(r, CollectStep(r, p.got, p.q, s));
    if s.msg.Normal? {
      WaitingNormal(cb, r, i, p.got, p.q, s.from, s.msg.count, s.msg.body);
    } else if forall j :: 0 <= j < |r.ms| ==> j in p.got || j == s.from {
      StartFacts(r, i);
      if InSync(r, i) {
        HarmlessAt(r, i, Updating(p.q, [], []));
        assert AppliedBy(r, i, Updating(p.q, [], [])) == FirstPart(r, p.q) by { assert FirstPart(r, p.q) + [] == FirstPart(r, p.q); }
        CleanHere(r, i, FirstPart(r, p.q));
      }
      LastState(cb, r, i, p.got, p.q, s.from);
    } else {
      WaitingState(cb, r, i, p.got, p.q, s.from);
    }
  }

  /** A member whose sequence leaves no errors completes the round. */
  lemma {:induction false} CompletesIs(r: Round, i: nat, p: Phase)
    requires Valid(r) && i < |r.ms| && p.Done? && Good(r, p)
    ensures Completes(DcdbCallbacks(), r, i, p.q, p.ns, p.us)
    ensures CoreOf(Finished(DcdbCallbacks(), r, i, p.q, p.ns, p.us).db) == CoreOf(Applies(DcdbCallbacks(), DbOf(r, LeaderOf(r)), Sequence(r, i, p.q, p.ns)))
  {
    hide Valid, Clean, DcdbCallbacks, AllMembers, Applies, UpdatesSent, Committable, LeaderOf, Sequence, Base, Harmless;
    StartFacts(r, i);
    var cb, l, s := DcdbCallbacks(), DbOf(r, LeaderOf(r)), Sequence(r, i, p.q, p.ns);
    HarmlessAt(r, i, p);
    AppliesAppend(cb, l, s, p.after);
    BaseCore(r, i, p.us);
    AppliesCore(Base(cb, r, i, p.us).0, l, s);
  }

  lemma {:induction false} UpdateView(r: Round, i: nat, p: Phase, s: Sent)
    requires Valid(r) && i < |r.ms| && s.from < |r.ms| && p.Updating? && !Stale(r, s.msg) && Good(r, p)
    requires var p' := UpdateStep(r, p.q, p.ns, p.us, s); Good(r, p')
    ensures var p' := UpdateStep(r, p.q, p.ns, p.us, s);
            Receive(DcdbCallbacks(), View(r, i, p), r.ms[s.from], Packet(r.version, s.msg)) == (View(r, i, p'), [])
  {
    hide Valid, InSync, Clean, DcdbCallbacks, StateOf, Between, Receive, FirstPart, LastPart, Finished, Applies, Completes, LeaderOf, Good;
    var cb, p' := DcdbCallbacks(), UpdateStep(r, p.q, p.ns, p.us, s);
    StartFacts(r, i);
    ViewShape(r, i, p);
    GoodNotBroken(r, p');
    if s.msg.Normal? {
      var x := QueuedFrom(r, s);
      if InSync(r, i) {
        HarmlessAt(r, i, p');
        CleanHere(r, i, AppliedThen(r, p.q, p.ns + [x]));
      }
      ReceiveNormalIs(cb, View(r, i, p), x);
      BetweenNormal(cb, r, i, p.q, p.ns, p.us, s.from, x);
    } else if s.msg.UpdateEntry? {
      BetweenUpdate(cb, r, i, p.q, p.ns, p.us, r.ms[s.from], s.msg.entry.value);
    } else {
      CompletesIs(r, i, p');
      CompleteStep(cb, r, i, p.q, p.ns, p.us, r.ms[s.from]);
      NothingAfter(Finished(cb, r, i, p.q, p.ns, p.us));
    }
  }

  lemma {:induction false} NothingAfter(n: Node)
    ensures n.(db := Applies(DcdbCallbacks(), n.db, []), applied := n.applied + []) == n
  {
    hide DcdbCallbacks;
  }

  /** The database of a member that has completed the round. */
  lemma {:induction false} DoneCore(r: Round, i: nat, p: Phase)
    requires Valid(r) && i < |r.ms| && p.Done? && Good(r, p)
    ensures CoreOf(View(r, i, p).db) == CoreOf(Applies(DcdbCallbacks(), DbOf(r, LeaderOf(r)), AppliedBy(r, i, p)))
  {
    hide Valid, Good, DcdbCallbacks, Applies, Completes, LeaderOf, Finished, Sequence;
    var cb, s, l := DcdbCallbacks(), Sequence(r, i, p.q, p.ns), LeaderOf(r);
    StartFacts(r, i);
    AppliesAppend(cb, DbOf(r, l), s, p.after);
    CompletesIs(r, i, p);
    AppliesCore(Finished(cb, r, i, p.q, p.ns, p.us).db, Applies(cb, DbOf(r, l), s), p.after);
  }

  lemma {:induction false} AppliedMore(r: Round, i: nat, p: Phase, x: Queued)
    requires Valid(r) && i < |r.ms| && p.Done?
    ensures AppliedBy(r, i, Done(p.q, p.ns, p.us, p.after + [x])) == AppliedBy(r, i, p) + [x]
  {
    hide Valid, Sequence;
    var all := Sequence(r, i, p.q, p.ns);
    assert all + (p.after + [x]) == (all + p.after) + [x];
  }

  lemma {:induction false} DoneClean(r: Round, i: nat, p: Phase, x: Queued)
    requires Valid(r) && i < |r.ms| && p.Done? && Good(r, p) && Good(r, Done(p.q, p.ns, p.us, p.after + [x]))
    ensures !DcdbCallbacks().deliver(View(r, i, p).db, x.from, x.body).errors
  {
    hide Valid, Clean, DcdbCallbacks, Applies, LeaderOf, View, AppliedBy, Good;
    var cb, l, a := DcdbCallbacks(), LeaderOf(r), AppliedBy(r, i, p);
    StartFacts(r, i);
    AppliedMore(r, i, p, x);
    HarmlessAt(r, i, Done(p.q, p.ns, p.us, p.after + [x]));
    AppliesAppend(cb, DbOf(r, l), a, [x]);
    DoneCore(r, i, p);
    AppliesCore(View(r, i, p).db, Applies(cb, DbOf(r, l), a), [x]);
    OneApplied(cb, View(r, i, p).db, x);
  }

  /** A completed round: every member goes on applying the same messages. */
  lemma {:induction false} DoneView(r: Round, i: nat, p: Phase, x: Queued)
    requires Valid(r) && i < |r.ms| && p.Done? && Good(r, p) && Good(r, Done(p.q, p.ns, p.us, p.after + [x]))
    ensures ReceiveNormal(DcdbCallbacks(), View(r, i, p), x) == View(r, i, Done(p.q, p.ns, p.us, p.after + [x]))
  {
    hide Valid, Good, DcdbCallbacks, Applies, LeaveGroup, Finished;
    var cb := DcdbCallbacks();
    var n, m := Finished(cb, r, i, p.q, p.ns, p.us), View(r, i, p);
    ViewShape(r, i, p);
    DoneClean(r, i, p, x);
    OneApplied(cb, m.db, x);
    AppliesAppend(cb, n.db, p.after, [x]);
    assert n.applied + (p.after + [x]) == (n.applied + p.after) + [x];
  }

  /** A verify message of the epoch: a good one passes a synced member by, everything else makes
      the member leave. */
  lemma {:induction false} VerifyStep(r: Round, i: nat, p: Phase, from: Member, bad: bool)
    requires Valid(r) && i < |r.ms| && Settled(p)
    ensures var m := Verify(r.epoch, bad); var (n, outs) := Receive(DcdbCallbacks(), View(r, i, p), from, Packet(r.version, m));
            outs == [] && if Survives(r, i, p, m) then n == View(r, i, p) else Failed(n.mode)
  {
    hide Valid, DcdbCallbacks, View, InSync;
    ViewShape(r, i, p);
  }

  /** A member that is what the phase says stays so over one delivery that it survives. */
  lemma {:induction false} ViewStep(r: Round, i: nat, p: Phase, s: Sent)
    requires Valid(r) && i < |r.ms| && s.from < |r.ms| && Good(r, p) && Good(r, PhaseStep(r, p, s)) && Survives(r, i, p, s.msg)
    ensures Receive(DcdbCallbacks(), View(r, i, p), r.ms[s.from], Packet(r.version, s.msg)) ==
            (View(r, i, PhaseStep(r, p, s)), OutOf(r, i, p, PhaseStep(r, p, s)))
  {
    hide Valid, Good, DcdbCallbacks, View, Receive, CollectStep, UpdateStep, StateOf, UpdatesOut, InSync;
    var cb := DcdbCallbacks();
    GoodNotBroken(r, p);
    GoodNotBroken(r, PhaseStep(r, p, s));
    ViewShape(r, i, p);
    if p.Before? {
      StartStep(cb, r, i, r.ms[s.from]);
      FirstViews(r, i);
    } else if Stale(r, s.msg) {
      StaleStep(cb, View(r, i, p), r.ms[s.from], s.msg);
    } else if s.msg.Verify? {
      VerifyStep(r, i, p, r.ms[s.from], s.msg.bad);
    } else if p.Collecting? {
      CollectView(r, i, p, s);
    } else if p.Updating? {
      UpdateView(r, i, p, s);
      UpdateKind(r, p, s);
    } else {
      ReceiveNormalIs(cb, View(r, i, p), QueuedFrom(r, s));
      DoneView(r, i, p, QueuedFrom(r, s));
    }
  }

  lemma {:induction false} GoodNotBroken(r: Round, p: Phase)
    requires Valid(r) && Good(r, p)
    ensures !p.Broken?
  {
    hide Valid;
  }

  lemma {:induction false} FirstViews(r: Round, i: nat)
    requires Valid(r) && i < |r.ms|
    ensures View(r, i, Before) == r.start[i] && View(r, i, Collecting({}, r.queue)) == Waiting(r, i, {}, r.queue)
  {
    hide Valid;
  }

  lemma {:induction false} UpdateKind(r: Round, p: Phase, s: Sent)
    requires s.from < |r.ms| && p.Updating?
    ensures !UpdateStep(r, p.q, p.ns, p.us, s).Collecting?
  {
  }

  // ---------------------------------------------------------------------------------------
  // The group
  // ---------------------------------------------------------------------------------------

  /** `pos` is how much of the log each member has delivered; `outbox` is what each member has
      multicast and is not yet in the log; `us` is the order in which the leader sends updates. */
  datatype Cluster = Cluster(nodes: seq<Node>, pos: seq<nat>, log: seq<Sent>, outbox: seq<seq<Msg>>, us: seq<Entry>)

  ghost predicate Shaped(r: Round, c: Cluster) {
    && |c.nodes| == |c.pos| == |c.outbox| == |r.ms| && Senders(r, c.log)
    && forall i :: 0 <= i < |c.pos| ==> c.pos[i] <= |c.log|
  }

  function Entries(r: Round, us: seq<Entry>): (ms: seq<Msg>)
    ensures |ms| == |us|
  {
    seq(|us|, k requires 0 <= k < |us| => UpdateEntry(r.epoch, Some(us[k])))
  }

  /** The messages a callback has sent. */
  function Messages(r: Round, outs: seq<Out>, us: seq<Entry>): seq<Msg> {
    if outs == [] then []
    else
      (match outs[0]
       case Send(m) => [m]
       case SendUpdates(_) => Entries(r, us) + [UpdateComplete(r.epoch)]
       case Resend(q) => [Normal(q.count, q.body)]) + Messages(r, outs[1..], us)
  }

  /** The updates are sent in some order; it is fixed when they are sent. */
  ghost predicate Ordering(outs: seq<Out>, us: seq<Entry>, us': seq<Entry>) {
    if |outs| > 0 && outs[0].SendUpdates? then ListsUpdates(outs[0].updates, us') else us' == us
  }

  /** `Checking`: a synced member of the lowest node asks for a verification or answers its own
      request. */
  datatype Action =
    | Multicast(i: nat, count: nat, body: AppMsg)
    | Checking(i: nat, bad: bool)
    | Transmit(i: nat)
    | Noise(i: nat, msg: Msg)
    | DeliverTo(i: nat)

  /** The guard of `dfsm_verify_request`. */
  predicate MayCheck(n: Node) {
    n.lowest != 0 && n.lowest == n.self.nodeid && n.mode == Synced
  }

  ghost predicate Next(r: Round, c: Cluster, a: Action, c': Cluster)
    requires Shaped(r, c)
  {
    && a.i < |r.ms|
    && match a
       case Multicast(i, count, body) => c' == c.(outbox := c.outbox[i := c.outbox[i] + [Normal(count, body)]])
       case Checking(i, bad) =>
         && MayCheck(c.nodes[i])
         && c' == c.(outbox := c.outbox[i := c.outbox[i] + [Verify(c.nodes[i].epoch, bad)]])
       case Transmit(i) =>
         && c.outbox[i] != []
         && c' == c.(log := c.log + [Sent(i, c.outbox[i][0])], outbox := c.outbox[i := c.outbox[i][1..]])
       case Noise(i, msg) => Stale(r, msg) && c' == c.(log := c.log + [Sent(i, msg)])
       case DeliverTo(i) => c.pos[i] < |c.log| && Delivers(r, c, i, c')
  }

  ghost predicate Delivers(r: Round, c: Cluster, i: nat, c': Cluster)
    requires Shaped(r, c) && i < |r.ms| && c.pos[i] < |c.log|
  {
    var s := c.log[c.pos[i]];
    var (n, outs) := Receive(DcdbCallbacks(), c.nodes[i], r.ms[s.from], Packet(r.version, s.msg));
    && Ordering(outs, c.us, c'.us)
    && c' == c.(nodes := c.nodes[i := n], pos := c.pos[i := c.pos[i] + 1],
                outbox := c.outbox[i := c.outbox[i] + Messages(r, outs, c'.us)], us := c'.us)
  }

  /** The request to synchronise is the first message of the round. */
  ghost predicate Initial(r: Round, c: Cluster) {
    && Shaped(r, c) && c.nodes == r.start && |c.log| == 1 && c.log[0].msg == SyncStart(r.epoch)
    && forall i :: 0 <= i < |r.ms| ==> c.pos[i] == 0 && c.outbox[i] == []
  }

  ghost predicate IsRun(r: Round, cs: seq<Cluster>, acts: seq<Action>) {
    && |cs| == |acts| + 1 && Initial(r, cs[0])
    && forall k :: 0 <= k < |acts| ==> Shaped(r, cs[k]) && Next(r, cs[k], acts[k], cs[k + 1])
  }

  // ---------------------------------------------------------------------------------------
  // The invariant
  // ---------------------------------------------------------------------------------------

  ghost predicate HarmlessLog(r: Round, log: seq<Sent>)
    requires Valid(r) && Senders(r, log)
  {
    forall k :: 0 <= k <= |log| ==> Harmless(r, PhaseOf(r, log[..k]))
  }

  /** What the log brings about by itself. */
  ghost predicate Fine(r: Round, p: Phase)
    requires Valid(r)
  {
    && !p.Broken?
    && (p.Updating? || p.Done? ==> AllMembers(Fresh(r.ms), p.ns))
    && (p.Done? ==> UpdatesSent(r, p.us))
  }

  ghost function Here(r: Round, c: Cluster, i: nat): Phase
    requires Valid(r) && Shaped(r, c) && i < |r.ms|
  {
    PhaseOf(r, c.log[..c.pos[i]])
  }

  /** The state of member `i` is in the log. */
  predicate Announced(p: Phase, i: nat) {
    (p.Collecting? && i in p.got) || p.Updating? || p.Done?
  }

  /** What the leader still has to send when the log is in phase `now`. */
  function Remaining(r: Round, now: Phase, us: seq<Entry>): seq<Msg> {
    if now.Updating? && |now.us| <= |us| then Entries(r, us[|now.us|..]) + [UpdateComplete(r.epoch)] else []
  }

  /** The messages the round waits for that a member has sent and that are not in the log. */
  ghost function Expected(r: Round, i: nat, here: Phase, now: Phase, us: seq<Entry>): seq<Msg>
    requires Valid(r) && i < |r.ms|
  {
    if here.Collecting? && !Announced(now, i) then [State(r.epoch, StateOf(r, i))]
    else if i == LeaderOf(r) && Settled(here) then Remaining(r, now, us)
    else []
  }

  predicate Extra(m: Msg) {
    m.Normal? || m.Verify?
  }

  /** The messages that the round waits for. */
  function Awaited(ms: seq<Msg>): seq<Msg> {
    if ms == [] then [] else (if Extra(ms[0]) then [] else [ms[0]]) + Awaited(ms[1..])
  }

  /** Verify messages are of the epoch, and are sent after the last state. */
  predicate Checked(r: Round, ms: seq<Msg>, now: Phase) {
    forall k :: 0 <= k < |ms| && ms[k].Verify? ==> ms[k].epoch == r.epoch && Settled(now)
  }

  /** The log and the leader's updates. */
  ghost predicate UpdatesFit(r: Round, here: Phase, now: Phase, us: seq<Entry>)
    requires Valid(r)
  {
    if Settled(here) then
      UpdatesSent(r, us) && Settled(now) && (now.Updating? ==> now.us <= us)
    else !now.Done? && (now.Updating? ==> now.us == [])
  }

  /** The member after a log: gone, or what the log says. */
  ghost predicate NodeIs(r: Round, i: nat, log: seq<Sent>, n: Node)
    requires Valid(r) && i < |r.ms| && Senders(r, log)
  {
    if Gone(r, i, log) then Failed(n.mode) else n == View(r, i, PhaseOf(r, log))
  }

  ghost predicate MemberInv(r: Round, c: Cluster, i: nat)
    requires Valid(r) && Shaped(r, c) && i < |r.ms|
  {
    var here, now := Here(r, c, i), PhaseOf(r, c.log);
    && NodeIs(r, i, c.log[..c.pos[i]], c.nodes[i])
    && Awaited(c.outbox[i]) == Expected(r, i, here, now, c.us) && Checked(r, c.outbox[i], now)
    && (here.Before? ==> !Announced(now, i))
    && (Settled(here) ==> Settled(now))
  }

  ghost predicate AllFine(r: Round, log: seq<Sent>)
    requires Valid(r) && Senders(r, log)
  {
    forall k :: 0 <= k <= |log| ==> Fine(r, PhaseOf(r, log[..k]))
  }

  ghost predicate GroupInv(r: Round, c: Cluster)
    requires Valid(r)
  {
    && Shaped(r, c) && c.log != [] && c.log[0].msg == SyncStart(r.epoch)
    && AllFine(r, c.log)
    && UpdatesFit(r, Here(r, c, LeaderOf(r)), PhaseOf(r, c.log), c.us)
    && forall i :: 0 <= i < |r.ms| ==> MemberInv(r, c, i)
  }

  // ---------------------------------------------------------------------------------------
  // The log grows
  // ---------------------------------------------------------------------------------------

  /** Nothing that members wait for has changed. */
  predicate SameProgress(p: Phase, p': Phase) {
    && !p.Before? && !p'.Before? && !p.Broken? && !p'.Broken?
    && (p.Collecting? <==> p'.Collecting?) && (p.Updating? <==> p'.Updating?) && (p.Done? <==> p'.Done?)
    && (p.Collecting? ==> p'.got == p.got) && (p.Updating? ==> p'.us == p.us)
  }

  /** Messages that do not bring the round forward. */
  predicate Passing(r: Round, p: Phase, msg: Msg) {
    msg.Normal? || Stale(r, msg) || (msg.Verify? && Settled(p))
  }

  lemma {:induction false} NormalProgress(r: Round, p: Phase, s: Sent)
    requires Valid(r) && s.from < |r.ms| && Fine(r, p) && !p.Before? && Passing(r, p, s.msg)
    ensures SameProgress(p, PhaseStep(r, p, s)) && Fine(r, PhaseStep(r, p, s))
  {
    hide Valid, UpdatesSent, Position, InsertSorted, StateOf;
    StartFacts(r, s.from);
    if s.msg.Normal? {
      var x := QueuedFrom(r, s);
      PositionIs(Fresh(r.ms), r.ms, s.from);
    }
  }

  lemma {:induction false} SameExpected(r: Round, i: nat, here: Phase, now: Phase, now': Phase, us: seq<Entry>)
    requires Valid(r) && i < |r.ms| && SameProgress(now, now')
    ensures Expected(r, i, here, now', us) == Expected(r, i, here, now, us)
    ensures Announced(now', i) <==> Announced(now, i)
    ensures Settled(now') <==> Settled(now)
    ensures UpdatesFit(r, here, now, us) ==> UpdatesFit(r, here, now', us)
  {
    hide Valid, UpdatesSent, StateOf, LeaderOf;
  }

  /** The state of member `i` enters the log. */
  lemma {:induction false} StateProgress(r: Round, i: nat, now: Phase)
    requires Valid(r) && i < |r.ms| && Fine(r, now) && now.Collecting? && i !in now.got
    ensures var now' := PhaseStep(r, now, Sent(i, State(r.epoch, StateOf(r, i))));
            && Fine(r, now') && Announced(now', i) && (now'.Updating? ==> now'.us == []) && !now'.Done? && !now'.Before?
            && forall j :: 0 <= j < |r.ms| && j != i ==> (Announced(now', j) <==> Announced(now, j))
  {
    hide Valid, UpdatesSent, StateOf, Position;
    EmptyMembers(r.ms);
  }

  lemma {:induction false} EmptyMembers(ms: seq<Member>)
    ensures AllMembers(Fresh(ms), [])
  {
  }

  /** An update or the completion enters the log. */
  lemma {:induction false} UpdateProgress(r: Round, now: Phase, us: seq<Entry>)
    requires Valid(r) && Fine(r, now) && now.Updating? && now.us <= us && UpdatesSent(r, us)
    ensures var m := Remaining(r, now, us)[0]; var now' := PhaseStep(r, now, Sent(LeaderOf(r), m));
            && Fine(r, now') && Settled(now') && (now'.Updating? ==> now'.us <= us)
            && Remaining(r, now', us) == Remaining(r, now, us)[1..] && !Extra(m)
  {
    hide Valid, UpdatesSent, LeaderOf, AllMembers;
    var k := |now.us|;
    var rest := us[k..];
    if k < |us| {
      assert Entries(r, rest)[1..] == Entries(r, us[k + 1..]);
      assert Remaining(r, now, us)[0] == UpdateEntry(r.epoch, Some(us[k]));
      assert us[..k + 1] == us[..k] + [us[k]];
      assert Remaining(r, now, us)[1..] == Entries(r, us[k + 1..]) + [UpdateComplete(r.epoch)];
    } else {
      assert now.us == us;
      assert Entries(r, rest) == [];
      assert Remaining(r, now, us) == [UpdateComplete(r.epoch)];
    }
  }

  lemma {:induction false} PhaseMore(r: Round, log: seq<Sent>, s: Sent)
    requires Valid(r) && Senders(r, log) && s.from < |r.ms|
    ensures Senders(r, log + [s]) && PhaseOf(r, log + [s]) == PhaseStep(r, PhaseOf(r, log), s)
  {
    hide Valid, PhaseStep;
    assert (log + [s])[..|log + [s]| - 1] == log;
  }

  /** Nothing was added to the outbox. */
  predicate Shrunk(c: Cluster, c': Cluster, i: nat)
    requires i < |c.outbox| == |c'.outbox|
  {
    c'.outbox[i] == c.outbox[i] || (c.outbox[i] != [] && c'.outbox[i] == c.outbox[i][1..])
  }

  lemma {:induction false} ShrunkChecked(r: Round, c: Cluster, c': Cluster, i: nat, now: Phase, now': Phase)
    requires i < |c.outbox| == |c'.outbox| && Shrunk(c, c', i) && Checked(r, c.outbox[i], now) && (Settled(now) ==> Settled(now'))
    ensures Checked(r, c'.outbox[i], now')
  {
    hide Settled;
  }

  /** What has to be checked of each member when the log has grown. */
  ghost predicate Follows(r: Round, c: Cluster, c': Cluster, now': Phase, i: nat)
    requires Valid(r) && Shaped(r, c) && i < |r.ms| == |c'.outbox|
  {
    var here := Here(r, c, i);
    && Awaited(c'.outbox[i]) == Expected(r, i, here, now', c.us) && Shrunk(c, c', i)
    && (Settled(PhaseOf(r, c.log)) ==> Settled(now'))
    && (here.Before? ==> !Announced(now', i)) && (Settled(here) ==> Settled(now'))
  }

  lemma {:induction false} GrowInv(r: Round, c: Cluster, c': Cluster, s: Sent)
    requires Valid(r) && GroupInv(r, c) && s.from < |r.ms| && |c'.outbox| == |r.ms|
    requires c' == c.(log := c.log + [s], outbox := c'.outbox)
    requires var now' := PhaseStep(r, PhaseOf(r, c.log), s);
             && Fine(r, now') && UpdatesFit(r, Here(r, c, LeaderOf(r)), now', c.us)
             && forall i :: 0 <= i < |r.ms| ==> Follows(r, c, c', now', i)
    ensures GroupInv(r, c')
  {
    hide Valid, PhaseStep, PhaseOf, Fine, Expected, UpdatesFit, View, Announced, Settled, LeaderOf, Awaited, Gone, Checked, Shrunk;
    var now' := PhaseStep(r, PhaseOf(r, c.log), s);
    PhaseMore(r, c.log, s);
    forall k | 0 <= k <= |c'.log|
      ensures Fine(r, PhaseOf(r, c'.log[..k]))
    {
      if k <= |c.log| {
        assert c'.log[..k] == c.log[..k];
      } else {
        assert c'.log[..k] == c'.log;
      }
    }
    forall i | 0 <= i < |r.ms|
      ensures Here(r, c', i) == Here(r, c, i) && MemberInv(r, c', i)
    {
      assert c'.log[..c.pos[i]] == c.log[..c.pos[i]];
      assert MemberInv(r, c, i) && Follows(r, c, c', now', i);
      ShrunkChecked(r, c, c', i, PhaseOf(r, c.log), now');
    }
  }

  lemma {:induction false} NowKnown(r: Round, c: Cluster)
    requires Valid(r) && GroupInv(r, c)
    ensures Fine(r, PhaseOf(r, c.log)) && !PhaseOf(r, c.log).Before? && !PhaseOf(r, c.log).Broken?
  {
    hide Valid, MemberInv, UpdatesFit, LeaderOf;
    assert c.log[..|c.log|] == c.log;
    assert Fine(r, PhaseOf(r, c.log));
    NotBefore(r, c.log);
  }

  lemma {:induction false} NotBefore(r: Round, log: seq<Sent>)
    requires Valid(r) && Senders(r, log) && log != []
    ensures !PhaseOf(r, log).Before?
  {
    hide Valid, StateOf, PhaseOf, CollectStep, UpdateStep;
    var n := |log| - 1;
    assert log == log[..n] + [log[n]];
    PhaseMore(r, log[..n], log[n]);
    StepNotBefore(r, PhaseOf(r, log[..n]), log[n]);
  }

  lemma {:induction false} StepNotBefore(r: Round, p: Phase, s: Sent)
    requires Valid(r) && s.from < |r.ms|
    ensures !PhaseStep(r, p, s).Before?
  {
    hide Valid, StateOf;
  }

  /** A normal message or noise enters the log. */
  lemma {:induction false} QuietGrowth(r: Round, c: Cluster, c': Cluster, s: Sent)
    requires Valid(r) && GroupInv(r, c) && s.from < |r.ms| && |c'.outbox| == |r.ms| && Passing(r, PhaseOf(r, c.log), s.msg)
    requires c' == c.(log := c.log + [s], outbox := c'.outbox)
    requires forall i :: 0 <= i < |r.ms| ==> Awaited(c'.outbox[i]) == Awaited(c.outbox[i]) && Shrunk(c, c', i)
    ensures GroupInv(r, c')
  {
    hide Valid, PhaseStep, PhaseOf, Fine, Expected, UpdatesFit, View, Announced, Settled, LeaderOf, Awaited, Stale, Gone, Checked, Shrunk, Passing;
    NowKnown(r, c);
    var now := PhaseOf(r, c.log);
    var now' := PhaseStep(r, now, s);
    NormalProgress(r, now, s);
    forall i | 0 <= i < |r.ms|
      ensures Follows(r, c, c', now', i)
    {
      assert MemberInv(r, c, i);
      SameExpected(r, i, Here(r, c, i), now, now', c.us);
    }
    SameExpected(r, LeaderOf(r), Here(r, c, LeaderOf(r)), now, now', c.us);
    GrowInv(r, c, c', s);
  }

  lemma {:induction false} AwaitedAppend(a: seq<Msg>, b: seq<Msg>)
    ensures Awaited(a + b) == Awaited(a) + Awaited(b)
    decreases |a|
  {
    if a == [] {
      assert a + b == b;
    } else {
      assert (a + b)[0] == a[0] && (a + b)[1..] == a[1..] + b;
      AwaitedAppend(a[1..], b);
    }
  }

  /** A state enters the log. */
  lemma {:induction false} StateGrowth(r: Round, c: Cluster, c': Cluster, i: nat)
    requires Valid(r) && GroupInv(r, c) && i < |r.ms| && |c'.outbox| == |r.ms|
    requires Here(r, c, i).Collecting? && !Announced(PhaseOf(r, c.log), i)
    requires c' == c.(log := c.log + [Sent(i, State(r.epoch, StateOf(r, i)))], outbox := c'.outbox)
    requires Awaited(c'.outbox[i]) == [] && Shrunk(c, c', i) && forall j :: 0 <= j < |r.ms| && j != i ==> c'.outbox[j] == c.outbox[j]
    ensures GroupInv(r, c')
  {
    hide Valid, PhaseStep, PhaseOf, View, LeaderOf, Awaited, StateOf, UpdatesSent, AllMembers, Gone, Checked;
    NowKnown(r, c);
    var now, s := PhaseOf(r, c.log), Sent(i, State(r.epoch, StateOf(r, i)));
    var now' := PhaseStep(r, now, s);
    StateProgress(r, i, now);
    forall j | 0 <= j < |r.ms|
      ensures Follows(r, c, c', now', j)
    {
      assert MemberInv(r, c, j) && MemberInv(r, c, i);
    }
    assert MemberInv(r, c, LeaderOf(r));
    GrowInv(r, c, c', s);
  }

  /** An update or the completion enters the log. */
  lemma {:induction false} UpdateGrowth(r: Round, c: Cluster, c': Cluster)
    requires Valid(r) && GroupInv(r, c) && |c'.outbox| == |r.ms| && Settled(Here(r, c, LeaderOf(r))) && PhaseOf(r, c.log).Updating?
    requires Remaining(r, PhaseOf(r, c.log), c.us) != []
    requires c' == c.(log := c.log + [Sent(LeaderOf(r), Remaining(r, PhaseOf(r, c.log), c.us)[0])], outbox := c'.outbox)
    requires Awaited(c'.outbox[LeaderOf(r)]) == Remaining(r, PhaseOf(r, c.log), c.us)[1..] && Shrunk(c, c', LeaderOf(r))
    requires forall j :: 0 <= j < |r.ms| && j != LeaderOf(r) ==> c'.outbox[j] == c.outbox[j]
    ensures GroupInv(r, c')
  {
    hide Valid, PhaseStep, PhaseOf, View, LeaderOf, Awaited, StateOf, UpdatesSent, AllMembers, Remaining, Gone, Checked;
    NowKnown(r, c);
    var l, now := LeaderOf(r), PhaseOf(r, c.log);
    var s := Sent(l, Remaining(r, now, c.us)[0]);
    var now' := PhaseStep(r, now, s);
    UpdateProgress(r, now, c.us);
    forall j | 0 <= j < |r.ms|
      ensures Follows(r, c, c', now', j)
    {
      assert MemberInv(r, c, j);
    }
    GrowInv(r, c, c', s);
  }

  lemma {:induction false} TransmitInv(r: Round, c: Cluster, c': Cluster, i: nat)
    requires Valid(r) && GroupInv(r, c) && i < |r.ms| && c.outbox[i] != []
    requires c' == c.(log := c.log + [Sent(i, c.outbox[i][0])], outbox := c.outbox[i := c.outbox[i][1..]])
    ensures GroupInv(r, c')
  {
    hide Valid, PhaseOf, View, LeaderOf, Awaited, StateOf, UpdatesFit, Fine, Here, Gone;
    var m, rest := c.outbox[i][0], c.outbox[i][1..];
    var here, now := Here(r, c, i), PhaseOf(r, c.log);
    assert MemberInv(r, c, i);
    AwaitedHead(c.outbox[i]);
    if Extra(m) {
      QuietGrowth(r, c, c', Sent(i, m));
    } else {
      var e := Expected(r, i, here, now, c.us);
      assert e[0] == m && e[1..] == Awaited(rest);
      if here.Collecting? && !Announced(now, i) {
        StateGrowth(r, c, c', i);
      } else {
        UpdateGrowth(r, c, c');
      }
    }
  }

  lemma {:induction false} AwaitedHead(ms: seq<Msg>)
    requires ms != []
    ensures Awaited(ms) == (if Extra(ms[0]) then [] else [ms[0]]) + Awaited(ms[1..])
  {
  }

  // ---------------------------------------------------------------------------------------
  // A member delivers
  // ---------------------------------------------------------------------------------------

  lemma {:induction false} StepMonotone(r: Round, p: Phase, s: Sent)
    requires Valid(r) && s.from < |r.ms| && !PhaseStep(r, p, s).Broken?
    ensures Settled(p) ==> Settled(PhaseStep(r, p, s))
    ensures PhaseStep(r, p, s).Collecting? ==> p.Before? || p.Collecting?
    ensures p.Before? ==> PhaseStep(r, p, s).Collecting?
    ensures p.Collecting? && Settled(PhaseStep(r, p, s)) ==> PhaseStep(r, p, s).Updating?
  {
    hide Valid, StateOf, InsertSorted;
  }

  lemma {:induction false} Monotone(r: Round, log: seq<Sent>, k: nat)
    requires Valid(r) && Senders(r, log) && k <= |log| && forall j :: 0 <= j <= |log| ==> Fine(r, PhaseOf(r, log[..j]))
    ensures Settled(PhaseOf(r, log[..k])) ==> Settled(PhaseOf(r, log))
    decreases |log| - k
  {
    hide Valid, PhaseStep, PhaseOf, Settled;
    if k == |log| {
      assert log[..k] == log;
    } else {
      assert log[..k + 1] == log[..k] + [log[k]];
      PhaseMore(r, log[..k], log[k]);
      assert Fine(r, PhaseOf(r, log[..k + 1]));
      StepMonotone(r, PhaseOf(r, log[..k]), log[k]);
      Monotone(r, log, k + 1);
    }
  }

  lemma {:induction false} GoodIs(r: Round, p: Phase)
    requires Valid(r) && Fine(r, p) && Harmless(r, p) && Committable(r)
    ensures Good(r, p)
  {
    hide Valid, Harmless, AllMembers, UpdatesSent, Committable;
  }

  /** What enters the outbox when member `i` goes from phase `p` to `p'`. */
  lemma {:induction false} SendsExpected(r: Round, i: nat, p: Phase, p': Phase, now: Phase, us: seq<Entry>, us': seq<Entry>)
    requires Valid(r) && i < |r.ms| && Ordering(OutOf(r, i, p, p'), us, us')
    requires (p.Before? && p'.Collecting?) || (p.Collecting? && p'.Collecting?) || (p.Collecting? && p'.Updating?) || (Settled(p) && Settled(p'))
    requires (p.Before? ==> !Announced(now, i)) && (Settled(p') ==> Settled(now))
    requires i == LeaderOf(r) ==> UpdatesFit(r, p, now, us)
    ensures Expected(r, i, p, now, us) + Awaited(Messages(r, OutOf(r, i, p, p'), us')) == Expected(r, i, p', now, us')
    ensures i == LeaderOf(r) ==> UpdatesFit(r, p', now, us')
    ensures i != LeaderOf(r) ==> us' == us
  {
    hide Valid, StateOf, LeaderOf, Updates, Awaited, Messages, UpdatesSent;
    NoMessages(r, us');
    if p.Before? {
      var m := State(r.epoch, StateOf(r, i));
      OneMessage(r, m, us');
    } else if p.Collecting? && p'.Updating? {
      if i == LeaderOf(r) {
        LeaderSends(r, us');
        assert us'[0..] == us';
        assert Remaining(r, now, us') == Entries(r, us') + [UpdateComplete(r.epoch)];
      }
    }
  }

  lemma {:induction false} NoMessages(r: Round, us: seq<Entry>)
    ensures Awaited(Messages(r, [], us)) == []
  {
  }

  lemma {:induction false} OneMessage(r: Round, m: Msg, us: seq<Entry>)
    requires !Extra(m)
    ensures Awaited(Messages(r, [Send(m)], us)) == [m]
  {
    hide Entries;
    assert Messages(r, [Send(m)], us) == [m];
  }

  lemma {:induction false} EntriesAwaited(r: Round, us: seq<Entry>)
    ensures Awaited(Entries(r, us)) == Entries(r, us)
    decreases |us|
  {
    hide Entries, Awaited;
    EntriesHead(r, us);
    if us == [] {
      NothingAwaited();
    } else {
      EntriesAwaited(r, us[1..]);
      AwaitedHead(Entries(r, us));
      assert Entries(r, us)[1..] == Entries(r, us[1..]);
    }
  }

  lemma {:induction false} EntriesHead(r: Round, us: seq<Entry>)
    ensures Entries(r, us) == if us == [] then [] else [UpdateEntry(r.epoch, Some(us[0]))] + Entries(r, us[1..])
  {
  }

  lemma {:induction false} NothingAwaited()
    ensures Awaited([]) == []
  {
  }

  lemma {:induction false} UpdateMessages(r: Round, updates: map<nat, Entry>, us: seq<Entry>)
    ensures Awaited(Messages(r, [SendUpdates(updates)], us)) == Entries(r, us) + [UpdateComplete(r.epoch)]
  {
    hide Entries;
    var e, m := Entries(r, us), UpdateComplete(r.epoch);
    assert Messages(r, [SendUpdates(updates)], us) == e + [m];
    EntriesAwaited(r, us);
    AwaitedAppend(e, [m]);
    assert Awaited([m]) == [m];
  }

  lemma {:induction false} LeaderSends(r: Round, us: seq<Entry>)
    requires Valid(r) && Ordering(UpdatesOut(r, LeaderOf(r)), us, us)
    ensures UpdatesSent(r, us)
    ensures Awaited(Messages(r, UpdatesOut(r, LeaderOf(r)), us)) == Entries(r, us) + [UpdateComplete(r.epoch)]
  {
    hide Valid, LeaderOf, Updates, Awaited, Messages, Entries, ListsUpdates, Agreement.States;
    var l := LeaderOf(r);
    StartFacts(r, l);
    LeaderHasUpdates(r);
    UpdateMessages(r, Updates(DbOf(r, l).tree, Agreement.States(r), l).value, us);
  }

  lemma {:induction false} FinePrefix(r: Round, log: seq<Sent>, k: nat)
    requires Valid(r) && Senders(r, log) && AllFine(r, log) && k <= |log|
    ensures AllFine(r, log[..k])
  {
    hide Valid, Fine, PhaseOf;
    forall j | 0 <= j <= k
      ensures Fine(r, PhaseOf(r, log[..k][..j]))
    {
      assert log[..k][..j] == log[..j];
    }
  }

  lemma {:induction false} GoneMore(r: Round, i: nat, log: seq<Sent>, s: Sent)
    requires Valid(r) && i < |r.ms| && Senders(r, log) && s.from < |r.ms|
    ensures Senders(r, log + [s])
    ensures Gone(r, i, log + [s]) <==> Gone(r, i, log) || !Survives(r, i, PhaseOf(r, log), s.msg)
  {
    hide Valid, PhaseOf, Survives;
    assert (log + [s])[..|log + [s]| - 1] == log;
  }

  lemma {:induction false} LastFine(r: Round, log: seq<Sent>)
    requires Valid(r) && Senders(r, log) && AllFine(r, log)
    ensures !PhaseOf(r, log).Broken?
  {
    hide Valid, PhaseOf, AllMembers, UpdatesSent;
    assert log[..|log|] == log;
    assert Fine(r, PhaseOf(r, log[..|log|]));
  }

  lemma {:induction false} VerifyLate(r: Round, p: Phase, s: Sent)
    requires Valid(r) && s.from < |r.ms| && s.msg.Verify? && s.msg.epoch == r.epoch && !PhaseStep(r, p, s).Broken?
    ensures Settled(p) && PhaseStep(r, p, s) == p
  {
    hide Valid, StateOf;
  }

  /** A member leaves only after the last state. */
  lemma {:induction false} GoneSettled(r: Round, i: nat, log: seq<Sent>)
    requires Valid(r) && i < |r.ms| && Senders(r, log) && AllFine(r, log) && Gone(r, i, log)
    ensures Settled(PhaseOf(r, log))
    decreases |log|
  {
    hide Valid, PhaseOf, PhaseStep, AllFine, Settled, InSync;
    var n := |log| - 1;
    assert log == log[..n] + [log[n]];
    LastFine(r, log);
    PhaseMore(r, log[..n], log[n]);
    StepMonotone(r, PhaseOf(r, log[..n]), log[n]);
    if Gone(r, i, log[..n]) {
      FinePrefix(r, log, n);
      GoneSettled(r, i, log[..n]);
    } else {
      VerifyLate(r, PhaseOf(r, log[..n]), log[n]);
    }
  }

  lemma {:induction false} StaysFailed(cb: Callbacks, n: Node, from: Member, p: Packet)
    requires Failed(n.mode)
    ensures Failed(Receive(cb, n, from, p).0.mode) && Receive(cb, n, from, p).1 == []
  {
  }

  lemma {:induction false} NoOuts(r: Round, i: nat, p: Phase, p': Phase)
    requires Valid(r) && i < |r.ms| && Settled(p)
    ensures OutOf(r, i, p, p') == []
  {
    hide Valid, StateOf, UpdatesOut;
  }

  /** A delivery, at a member in the group or gone. */
  lemma {:induction false} NodeStep(r: Round, i: nat, log: seq<Sent>, s: Sent, n: Node)
    requires Valid(r) && i < |r.ms| && Senders(r, log) && s.from < |r.ms| && NodeIs(r, i, log, n) && AllFine(r, log)
    requires Good(r, PhaseOf(r, log)) && Good(r, PhaseStep(r, PhaseOf(r, log), s))
    ensures Senders(r, log + [s])
    ensures var (n', outs) := Receive(DcdbCallbacks(), n, r.ms[s.from], Packet(r.version, s.msg));
            NodeIs(r, i, log + [s], n') && outs == OutOf(r, i, PhaseOf(r, log), PhaseStep(r, PhaseOf(r, log), s))
  {
    hide Valid, PhaseOf, PhaseStep, View, Receive, DcdbCallbacks, Good, AllFine, OutOf, Gone, InSync, Settled;
    var p, p' := PhaseOf(r, log), PhaseStep(r, PhaseOf(r, log), s);
    PhaseMore(r, log, s);
    GoneMore(r, i, log, s);
    if Gone(r, i, log) {
      StaysFailed(DcdbCallbacks(), n, r.ms[s.from], Packet(r.version, s.msg));
      GoneSettled(r, i, log);
      NoOuts(r, i, p, p');
    } else if Survives(r, i, p, s.msg) {
      ViewStep(r, i, p, s);
    } else {
      GoodNotBroken(r, p');
      VerifyLate(r, p, s);
      VerifyStep(r, i, p, r.ms[s.from], s.msg.bad);
      NoOuts(r, i, p, p');
    }
  }

  lemma {:induction false} OutsUnchecked(r: Round, i: nat, p: Phase, p': Phase, us: seq<Entry>, now: Phase)
    requires Valid(r) && i < |r.ms|
    ensures Checked(r, Messages(r, OutOf(r, i, p, p'), us), now)
  {
    hide Valid, LeaderOf, StateOf, Updates, Agreement.States;
  }

  lemma {:induction false} DeliverOne(r: Round, c: Cluster, c': Cluster, i: nat)
    requires Valid(r) && GroupInv(r, c) && HarmlessLog(r, c.log) && Committable(r)
    requires i < |r.ms| && c.pos[i] < |c.log| && Delivers(r, c, i, c')
    ensures Shaped(r, c') && MemberInv(r, c', i)
    ensures i == LeaderOf(r) ==> UpdatesFit(r, Here(r, c', i), PhaseOf(r, c.log), c'.us)
    ensures i != LeaderOf(r) ==> c'.us == c.us
  {
    hide Valid, PhaseStep, PhaseOf, View, LeaderOf, Awaited, UpdatesFit, Expected, Receive, DcdbCallbacks, Good, Fine, Harmless, Committable, Announced, OutOf, Messages, Ordering, Gone, Checked;
    var k := c.pos[i];
    var s, now := c.log[k], PhaseOf(r, c.log);
    var p, p' := PhaseOf(r, c.log[..k]), PhaseOf(r, c.log[..k + 1]);
    assert MemberInv(r, c, i);
    assert c.log[..k + 1] == c.log[..k] + [s];
    PhaseMore(r, c.log[..k], s);
    GoodIs(r, p);
    GoodIs(r, p');
    FinePrefix(r, c.log, k);
    NodeStep(r, i, c.log[..k], s, c.nodes[i]);
    GoodNotBroken(r, p);
    GoodNotBroken(r, p');
    StepMonotone(r, p, s);
    Monotone(r, c.log, k + 1);
    StepNotBefore(r, p, s);
    SendsExpected(r, i, p, p', now, c.us, c'.us);
    AwaitedAppend(c.outbox[i], Messages(r, OutOf(r, i, p, p'), c'.us));
    OutsUnchecked(r, i, p, p', c'.us, now);
    CheckedAppend(r, c.outbox[i], Messages(r, OutOf(r, i, p, p'), c'.us), now);
    assert c'.log[..c'.pos[i]] == c.log[..k + 1];
  }

  lemma {:induction false} DeliverInv(r: Round, c: Cluster, c': Cluster, i: nat)
    requires Valid(r) && GroupInv(r, c) && HarmlessLog(r, c.log) && Committable(r)
    requires i < |r.ms| && c.pos[i] < |c.log| && Delivers(r, c, i, c')
    ensures GroupInv(r, c')
  {
    hide Valid, PhaseOf, View, LeaderOf, Awaited, UpdatesFit, Receive, DcdbCallbacks, Fine, HarmlessLog, Committable, Announced, Messages, Ordering, StateOf, Remaining, Gone, Checked;
    DeliverOne(r, c, c', i);
    forall j | 0 <= j < |r.ms| && j != i
      ensures MemberInv(r, c', j) && Here(r, c', j) == Here(r, c, j)
    {
      assert MemberInv(r, c, j);
      assert c'.log[..c'.pos[j]] == c.log[..c.pos[j]];
    }
  }

  // ---------------------------------------------------------------------------------------
  // Every run
  // ---------------------------------------------------------------------------------------

  lemma {:induction false} FirstPhases(r: Round, log: seq<Sent>)
    requires Valid(r) && Senders(r, log) && |log| == 1 && log[0].msg == SyncStart(r.epoch)
    ensures PhaseOf(r, []) == Before && PhaseOf(r, log) == Collecting({}, r.queue)
    ensures Fine(r, Before) && Fine(r, Collecting({}, r.queue))
  {
    hide Valid, AllMembers, StateOf, Position, UpdatesSent;
    assert log == [] + [log[0]];
    PhaseMore(r, [], log[0]);
  }

  lemma {:induction false} FirstMember(r: Round, i: nat, us: seq<Entry>)
    requires Valid(r) && i < |r.ms|
    ensures var now := Collecting({}, r.queue);
            && Expected(r, i, Before, now, us) == [] && !Announced(now, i) && !Settled(Before) && UpdatesFit(r, Before, now, us)
    ensures Awaited([]) == []
  {
    hide Valid, StateOf, LeaderOf, UpdatesSent;
  }

  lemma {:induction false} InitInv(r: Round, c: Cluster)
    requires Valid(r) && Initial(r, c)
    ensures GroupInv(r, c)
  {
    hide Valid, PhaseOf, View, LeaderOf, Fine, Expected, Announced, UpdatesFit, Awaited, Settled;
    FirstPhases(r, c.log);
    forall k | 0 <= k <= |c.log|
      ensures Fine(r, PhaseOf(r, c.log[..k]))
    {
      assert c.log[..0] == [] && c.log[..1] == c.log;
    }
    forall i | 0 <= i < |r.ms|
      ensures MemberInv(r, c, i) && Here(r, c, i) == Before
    {
      FirstViews(r, i);
      FirstMember(r, i, c.us);
      assert c.log[..c.pos[i]] == [];
    }
    FirstMember(r, LeaderOf(r), c.us);
  }

  lemma {:induction false} CheckedAppend(r: Round, a: seq<Msg>, b: seq<Msg>, now: Phase)
    ensures Checked(r, a + b, now) <==> Checked(r, a, now) && Checked(r, b, now)
  {
    hide Settled;
    assert forall k :: 0 <= k < |a| ==> (a + b)[k] == a[k];
    assert forall k :: 0 <= k < |b| ==> b[k] == (a + b)[|a| + k];
  }

  /** A member multicasts something the round does not wait for. */
  lemma {:induction false} AppendInv(r: Round, c: Cluster, c': Cluster, i: nat, m: Msg)
    requires Valid(r) && GroupInv(r, c) && i < |r.ms| && Extra(m) && c' == c.(outbox := c.outbox[i := c.outbox[i] + [m]])
    requires Checked(r, [m], PhaseOf(r, c.log))
    ensures GroupInv(r, c')
  {
    hide Valid, PhaseOf, View, LeaderOf, Awaited, UpdatesFit, Fine, Announced, StateOf, Remaining, Gone, Checked;
    AwaitedAppend(c.outbox[i], [m]);
    CheckedAppend(r, c.outbox[i], [m], PhaseOf(r, c.log));
    assert Awaited([m]) == [] by { ExtraOnly(m); }
    forall j | 0 <= j < |r.ms|
      ensures MemberInv(r, c', j) && Here(r, c', j) == Here(r, c, j)
    {
      assert MemberInv(r, c, j);
    }
  }

  lemma {:induction false} ExtraOnly(m: Msg)
    requires Extra(m)
    ensures Awaited([m]) == []
  {
  }

  /** Who may send a verify message has the last state. */
  lemma {:induction false} CheckingLate(r: Round, c: Cluster, i: nat)
    requires Valid(r) && GroupInv(r, c) && i < |r.ms| && c.nodes[i].mode == Synced
    ensures Settled(Here(r, c, i)) && Settled(PhaseOf(r, c.log)) && c.nodes[i] == View(r, i, Here(r, c, i)) && c.nodes[i].epoch == r.epoch
  {
    hide Valid, PhaseOf, LeaderOf, Awaited, Announced, Expected, Checked, Gone, UpdatesFit, Fine, Between, Finished, Applies, StateOf, Got;
    assert MemberInv(r, c, i);
    StartFacts(r, i);
    ViewShape(r, i, Here(r, c, i));
  }

  lemma {:induction false} NextInv(r: Round, c: Cluster, a: Action, c': Cluster)
    requires Valid(r) && GroupInv(r, c) && HarmlessLog(r, c.log) && Committable(r) && Next(r, c, a, c')
    ensures GroupInv(r, c')
  {
    hide Valid, MemberInv, UpdatesFit, Fine, PhaseOf, LeaderOf, HarmlessLog, Committable, Delivers, Stale, View, Settled;
    match a
    case Multicast(i, count, body) => AppendInv(r, c, c', i, Normal(count, body));
    case Checking(i, bad) =>
      CheckingLate(r, c, i);
      AppendInv(r, c, c', i, Verify(r.epoch, bad));
    case Transmit(i) => TransmitInv(r, c, c', i);
    case Noise(i, msg) => QuietGrowth(r, c, c', Sent(i, msg));
    case DeliverTo(i) => DeliverInv(r, c, c', i);
  }

  lemma {:induction false} HarmlessPrefix(r: Round, log: seq<Sent>, s: Sent)
    requires Valid(r) && Senders(r, log) && Senders(r, log + [s]) && HarmlessLog(r, log + [s])
    ensures HarmlessLog(r, log)
  {
    hide Valid, Harmless, PhaseOf;
    forall k | 0 <= k <= |log|
      ensures Harmless(r, PhaseOf(r, log[..k]))
    {
      assert (log + [s])[..k] == log[..k];
    }
  }

  lemma {:induction false} LogBefore(r: Round, c: Cluster, a: Action, c': Cluster)
    requires Valid(r) && Shaped(r, c) && Shaped(r, c') && Next(r, c, a, c') && HarmlessLog(r, c'.log)
    ensures HarmlessLog(r, c.log)
  {
    hide Valid, HarmlessLog, Receive, Messages, DcdbCallbacks, Ordering, Stale;
    if a.Transmit? {
      HarmlessPrefix(r, c.log, Sent(a.i, c.outbox[a.i][0]));
    } else if a.Noise? {
      HarmlessPrefix(r, c.log, Sent(a.i, a.msg));
    }
  }

  lemma {:induction false} RunInv(r: Round, cs: seq<Cluster>, acts: seq<Action>, k: nat)
    requires Valid(r) && IsRun(r, cs, acts) && Committable(r) && k <= |acts|
    requires Shaped(r, cs[k]) && HarmlessLog(r, cs[k].log)
    ensures GroupInv(r, cs[k])
  {
    hide Valid, GroupInv, HarmlessLog, Committable, Next, Shaped, Initial;
    if k == 0 {
      InitInv(r, cs[0]);
    } else {
      LogBefore(r, cs[k - 1], acts[k - 1], cs[k]);
      RunInv(r, cs, acts, k - 1);
      NextInv(r, cs[k - 1], acts[k - 1], cs[k]);
    }
  }

  /** The update is complete in this log. */
  ghost predicate Completed(r: Round, log: seq<Sent>) {
    exists k :: 0 <= k < |log| && log[k].msg == UpdateComplete(r.epoch)
  }

  /** In a log of the round, the update is complete in the last phase and in no other. */
  lemma {:induction false} CompletedDone(r: Round, log: seq<Sent>)
    requires Valid(r) && Senders(r, log) && AllFine(r, log)
    ensures Completed(r, log) <==> PhaseOf(r, log).Done?
    decreases |log|
  {
    hide Valid, PhaseOf, StateOf, InsertSorted, AllMembers, UpdatesSent, AllFine;
    if log == [] {
      Nothing(r);
    } else {
      var n := |log| - 1;
      assert log == log[..n] + [log[n]];
      PhaseMore(r, log[..n], log[n]);
      LastFine(r, log);
      FinePrefix(r, log, n);
      LastFine(r, log[..n]);
      CompletedDone(r, log[..n]);
      CompletedMore(r, log[..n], log[n]);
    }
  }

  lemma {:induction false} Nothing(r: Round)
    requires Valid(r)
    ensures PhaseOf(r, []) == Before
  {
    hide Valid, PhaseStep;
  }

  lemma {:induction false} CompletedMore(r: Round, log: seq<Sent>, s: Sent)
    ensures Completed(r, log + [s]) <==> Completed(r, log) || s.msg == UpdateComplete(r.epoch)
  {
    if Completed(r, log) {
      var k :| 0 <= k < |log| && log[k].msg == UpdateComplete(r.epoch);
      assert (log + [s])[k] == log[k];
    }
    if s.msg == UpdateComplete(r.epoch) {
      assert (log + [s])[|log|] == s;
    }
    if Completed(r, log + [s]) && s.msg != UpdateComplete(r.epoch) {
      var k :| 0 <= k < |log + [s]| && (log + [s])[k].msg == UpdateComplete(r.epoch);
      assert log[k].msg == UpdateComplete(r.epoch);
    }
  }

  /** A verify message of the epoch at place `k` of the log makes member `i` leave: it is bad, or
      the member is one to be updated and the completion does not come before it. */
  ghost predicate Expels(r: Round, i: nat, log: seq<Sent>, k: nat)
    requires Valid(r) && i < |r.ms| && k < |log|
  {
    && log[k].msg.Verify? && log[k].msg.epoch == r.epoch
    && (log[k].msg.bad || (!InSync(r, i) && !Completed(r, log[..k])))
  }

  ghost predicate Expelled(r: Round, i: nat, log: seq<Sent>)
    requires Valid(r) && i < |r.ms|
  {
    exists k :: 0 <= k < |log| && Expels(r, i, log, k)
  }

  lemma {:induction false} ExpelledMore(r: Round, i: nat, log: seq<Sent>, s: Sent)
    requires Valid(r) && i < |r.ms|
    ensures Expelled(r, i, log + [s]) <==> Expelled(r, i, log) || Expels(r, i, log + [s], |log|)
  {
    hide Valid, InSync, Completed;
    forall k | 0 <= k < |log|
      ensures Expels(r, i, log + [s], k) <==> Expels(r, i, log, k)
    {
      assert (log + [s])[..k] == log[..k];
    }
  }

  /** Whether a member is gone can be read off the log. */
  lemma {:induction false} GoneExpelled(r: Round, i: nat, log: seq<Sent>)
    requires Valid(r) && i < |r.ms| && Senders(r, log) && AllFine(r, log)
    ensures Gone(r, i, log) <==> Expelled(r, i, log)
    decreases |log|
  {
    hide Valid, PhaseOf, PhaseStep, AllFine, InSync, Expelled, Completed, Gone;
    if log == [] {
      NobodyGone(r, i);
    } else {
      var n := |log| - 1;
      var s, p := log[n], PhaseOf(r, log[..n]);
      assert log == log[..n] + [s];
      assert (log[..n] + [s])[..n] == log[..n];
      FinePrefix(r, log, n);
      GoneExpelled(r, i, log[..n]);
      ExpelledMore(r, i, log[..n], s);
      GoneMore(r, i, log[..n], s);
      CompletedDone(r, log[..n]);
      if s.msg.Verify? && s.msg.epoch == r.epoch {
        PhaseMore(r, log[..n], s);
        LastFine(r, log);
        VerifyLate(r, p, s);
      }
    }
  }

  lemma {:induction false} NobodyGone(r: Round, i: nat)
    requires Valid(r) && i < |r.ms|
    ensures !Gone(r, i, []) && !Expelled(r, i, [])
  {
    hide Valid;
  }

  lemma {:induction false} DoneApplied(r: Round, i: nat, p: Phase)
    requires Valid(r) && i < |r.ms| && p.Done?
    ensures i < |r.start| && View(r, i, p).applied == r.start[i].applied + AppliedBy(r, i, p)
  {
    hide Valid, DcdbCallbacks, Applies, Sequence, Base, AllMarked;
    StartFacts(r, i);
    var s := Sequence(r, i, p.q, p.ns);
    assert (r.start[i].applied + s) + p.after == r.start[i].applied + (s + p.after);
  }

  /** A member leaves exactly when a verify message expels it. */
  lemma {:induction false} LeavesExactly(r: Round, cs: seq<Cluster>, acts: seq<Action>, k: nat, i: nat)
    requires Valid(r) && IsRun(r, cs, acts) && Committable(r) && k <= |acts|
    requires Shaped(r, cs[k]) && HarmlessLog(r, cs[k].log) && i < |r.ms|
    ensures var c := cs[k]; Failed(c.nodes[i].mode) <==> Expelled(r, i, c.log[..c.pos[i]])
  {
    hide Valid, View, LeaderOf, Awaited, UpdatesFit, Expected, Fine, HarmlessLog, Committable, Announced, Next, Initial, PhaseOf, Expelled, Gone, Checked, Settled;
    var c := cs[k];
    RunInv(r, cs, acts, k);
    assert MemberInv(r, c, i);
    FinePrefix(r, c.log, c.pos[i]);
    GoneExpelled(r, i, c.log[..c.pos[i]]);
    ViewShape(r, i, PhaseOf(r, c.log[..c.pos[i]]));
  }

  /** In every run, a member that has delivered a log with the completion in it, and that no verify
      message in it expels, is synced and has empty queues, and its database is the leader's with
      its own sequence of messages applied. */
  lemma {:induction false} GroupOutcome(r: Round, cs: seq<Cluster>, acts: seq<Action>, k: nat, i: nat)
    requires Valid(r) && IsRun(r, cs, acts) && Committable(r) && k <= |acts|
    requires Shaped(r, cs[k]) && HarmlessLog(r, cs[k].log) && i < |r.ms| == |r.start|
    requires var log := cs[k].log[..cs[k].pos[i]]; Completed(r, log) && !Expelled(r, i, log)
    ensures var c := cs[k]; var p := PhaseOf(r, c.log[..c.pos[i]]);
            && c.nodes[i].mode == Synced && c.nodes[i].msgQueue == [] && c.nodes[i].syncQueue == []
            && p.Done? && AllMembers(Fresh(r.ms), p.ns)
            && c.nodes[i].applied == r.start[i].applied + AppliedBy(r, i, p)
            && CoreOf(c.nodes[i].db) == CoreOf(Applies(DcdbCallbacks(), DbOf(r, LeaderOf(r)), AppliedBy(r, i, p)))
  {
    hide Valid, View, LeaderOf, Awaited, UpdatesFit, Expected, DcdbCallbacks, Harmless, Committable, Announced, Settled, Next, Initial, PhaseOf, Applies, AppliedBy, AllMarked, Completed, Expelled, Gone, Checked, UpdatesSent, AllMembers;
    var c := cs[k];
    RunInv(r, cs, acts, k);
    assert MemberInv(r, c, i);
    var log := c.log[..c.pos[i]];
    var p := PhaseOf(r, log);
    FinePrefix(r, c.log, c.pos[i]);
    GoneExpelled(r, i, log);
    ViewShape(r, i, p);
    CompletedDone(r, log);
    GoodIs(r, p);
    DoneCore(r, i, p);
    DoneApplied(r, i, p);
  }

  /** Nothing of a member not yet synced is in the log between the last state and the completion. */
  ghost predicate ProvisoIn(r: Round, log: seq<Sent>)
    requires Valid(r) && Senders(r, log)
  {
    var p := PhaseOf(r, log);
    p.Updating? || p.Done? ==> Proviso(r, p.ns)
  }

  /** Sync-round agreement over all runs of the group: members that have delivered the same part
      of a log with the completion in it, which keeps the proviso, and that no verify message in it
      expels, are synced, have empty queues, have applied the same messages in the same order and
      have equal databases. */
  lemma {:induction false} GroupAgreement(r: Round, cs: seq<Cluster>, acts: seq<Action>, k: nat, i: nat, j: nat)
    requires Valid(r) && IsRun(r, cs, acts) && Committable(r) && k <= |acts|
    requires Shaped(r, cs[k]) && HarmlessLog(r, cs[k].log) && i < |r.ms| && j < |r.ms|
    ensures var c := cs[k]; var log := c.log[..c.pos[i]];
            c.pos[i] == c.pos[j] && Completed(r, log) && ProvisoIn(r, log) && !Expelled(r, i, log) && !Expelled(r, j, log) ==>
              && CoreOf(c.nodes[i].db) == CoreOf(c.nodes[j].db) && c.nodes[i].mode == Synced
              && c.nodes[i].msgQueue == [] && c.nodes[i].syncQueue == []
              && exists s :: c.nodes[i].applied == r.start[i].applied + s && c.nodes[j].applied == r.start[j].applied + s
  {
    hide Valid, LeaderOf, DcdbCallbacks, Committable, Next, Initial, PhaseOf, Applies, Completed, Expelled, HarmlessLog, Sequence, Proviso, AllMembers;
    var c := cs[k];
    var log := c.log[..c.pos[i]];
    var p := PhaseOf(r, log);
    if c.pos[i] == c.pos[j] && Completed(r, log) && ProvisoIn(r, log) && !Expelled(r, i, log) && !Expelled(r, j, log) {
      StartFacts(r, i);
      GroupOutcome(r, cs, acts, k, i);
      GroupOutcome(r, cs, acts, k, j);
      ProvisoSequence(r, i, p.q, p.ns);
      ProvisoSequence(r, j, p.q, p.ns);
    }
  }
}
