/** A synchronisation round does not get stuck: what has been sent can always be delivered, each
    step of the protocol brings the group closer to the end, and the only end is completion. */
module Progress {
  import opened MemTree
  import opened VmConfig
  import opened MemDb
  import opened TreeIndex
  import opened Leader
  import opened Delta
  import opened Dfsm
  import opened Queues
  import opened Agreement
  import opened Group

  // ---------------------------------------------------------------------------------------
  // No deadlock
  // ---------------------------------------------------------------------------------------

  /** Some state is missing as long as states are collected. */
  ghost predicate Open(r: Round, p: Phase) {
    p.Collecting? ==> exists j :: 0 <= j < |r.ms| && j !in p.got
  }

  lemma {:induction false} StepOpen(r: Round, p: Phase, s: Group.Sent)
    requires Valid(r) && s.from < |r.ms| && Open(r, p)
    ensures Open(r, PhaseStep(r, p, s))
  {
    hide Valid, StateOf, InsertSorted;
    var p' := PhaseStep(r, p, s);
    if p.Before? && p'.Collecting? {
      assert 0 !in p'.got;
    } else if p.Collecting? && p'.Collecting? && p'.got != p.got {
      var j :| 0 <= j < |r.ms| && !(j in p.got || j == s.from);
      assert j !in p'.got;
    }
  }

  lemma {:induction false} AlwaysOpen(r: Round, log: seq<Group.Sent>)
    requires Valid(r) && Senders(r, log)
    ensures Open(r, PhaseOf(r, log))
    decreases |log|
  {
    hide Valid, PhaseStep, PhaseOf, Open;
    if log == [] {
      assert PhaseOf(r, log) == Before by { Nothing(r); }
      NotCollecting(r);
    } else {
      var n := |log| - 1;
      assert log == log[..n] + [log[n]];
      AlwaysOpen(r, log[..n]);
      PhaseMore(r, log[..n], log[n]);
      StepOpen(r, PhaseOf(r, log[..n]), log[n]);
    }
  }

  lemma {:induction false} NotCollecting(r: Round)
    ensures Open(r, Before)
  {
  }

  /** All members have delivered the whole log, and no message of the protocol is on its way. */
  ghost predicate Quiet(r: Round, c: Cluster)
    requires Shaped(r, c)
  {
    forall i :: 0 <= i < |r.ms| ==> c.pos[i] == |c.log| && Awaited(c.outbox[i]) == []
  }

  lemma {:induction false} QuietDone(r: Round, c: Cluster)
    requires Valid(r) && GroupInv(r, c) && Quiet(r, c)
    ensures PhaseOf(r, c.log).Done?
  {
    hide Valid, PhaseOf, View, LeaderOf, Awaited, Fine, StateOf, UpdatesSent;
    var now := PhaseOf(r, c.log);
    NowKnown(r, c);
    AlwaysOpen(r, c.log);
    assert c.log[..|c.log|] == c.log;
    assert MemberInv(r, c, LeaderOf(r));
    forall j | 0 <= j < |r.ms|
      ensures now.Collecting? ==> j in now.got
    {
      assert MemberInv(r, c, j);
    }
  }

  /** No run gets stuck before the update is complete: where nothing of the protocol is left to
      transmit or to deliver, all members that no verify message has expelled are synced. */
  lemma {:induction false} NoDeadlock(r: Round, cs: seq<Cluster>, acts: seq<Action>, k: nat)
    requires Valid(r) && IsRun(r, cs, acts) && Committable(r) && k <= |acts|
    requires Shaped(r, cs[k]) && HarmlessLog(r, cs[k].log) && Quiet(r, cs[k])
    ensures Completed(r, cs[k].log) && forall i :: 0 <= i < |r.ms| && !Expelled(r, i, cs[k].log) ==> cs[k].nodes[i].mode == Synced
  {
    hide Valid, MemberInv, PhaseOf, HarmlessLog, Committable, Next, Initial, Completed, Awaited, AllFine, UpdatesFit, LeaderOf, Expelled;
    var c := cs[k];
    RunInv(r, cs, acts, k);
    QuietDone(r, c);
    CompletedDone(r, c.log);
    assert c.log[..|c.log|] == c.log;
    forall i | 0 <= i < |r.ms| && !Expelled(r, i, c.log)
      ensures c.nodes[i].mode == Synced
    {
      StartFacts(r, i);
      GroupOutcome(r, cs, acts, k, i);
    }
  }

  // ---------------------------------------------------------------------------------------
  // Something can always be done
  // ---------------------------------------------------------------------------------------

  /** The phases between which one delivery leads. */
  predicate Advances(p: Phase, p': Phase) {
    (p.Before? && p'.Collecting?) || (p.Collecting? && p'.Collecting?) || (p.Collecting? && p'.Updating?) || (Group.Settled(p) && Group.Settled(p'))
  }

  ghost predicate InRound(r: Round, c: Cluster) {
    Valid(r) && GroupInv(r, c) && HarmlessLog(r, c.log) && Committable(r)
  }

  /** The member's phase after its next delivery. */
  ghost function After(r: Round, c: Cluster, i: nat): Phase
    requires Valid(r) && Shaped(r, c) && i < |r.ms| && c.pos[i] < |c.log|
  {
    PhaseOf(r, c.log[..c.pos[i] + 1])
  }

  /** What the next delivery of member `i` sends. */
  lemma {:induction false} NextOuts(r: Round, c: Cluster, i: nat)
    requires InRound(r, c) && i < |r.ms| && c.pos[i] < |c.log|
    ensures Advances(Here(r, c, i), After(r, c, i))
    ensures var s := c.log[c.pos[i]];
            Receive(DcdbCallbacks(), c.nodes[i], r.ms[s.from], Packet(r.version, s.msg)).1 == OutOf(r, i, Here(r, c, i), After(r, c, i))
  {
    hide Valid, PhaseStep, PhaseOf, LeaderOf, Awaited, UpdatesFit, Expected, Receive, DcdbCallbacks, Good, Fine, Harmless, Committable, Announced, OutOf, NodeIs, Checked;
    var k := c.pos[i];
    var s := c.log[k];
    var p, p' := PhaseOf(r, c.log[..k]), PhaseOf(r, c.log[..k + 1]);
    assert MemberInv(r, c, i);
    assert c.log[..k + 1] == c.log[..k] + [s];
    PhaseMore(r, c.log[..k], s);
    GoodIs(r, p);
    GoodIs(r, p');
    FinePrefix(r, c.log, k);
    NodeStep(r, i, c.log[..k], s, c.nodes[i]);
    GoodNotBroken(r, p);
    GoodNotBroken(r, p');
    StepMonotone(r, p, s);
    StepNotBefore(r, p, s);
  }

  lemma {:induction false} ListEntries(updates: map<nat, Entry>, todo: set<nat>) returns (us: seq<Entry>)
    requires todo <= updates.Keys && forall x :: x in updates ==> updates[x].inode == x
    ensures forall k :: 0 <= k < |us| ==> us[k].inode in updates && us[k] == updates[us[k].inode]
    ensures forall i :: i in todo ==> Delta.Sent(us, i)
    decreases todo
  {
    if todo == {} {
      us := [];
    } else {
      var x :| x in todo;
      var rest := ListEntries(updates, todo - {x});
      us := rest + [updates[x]];
      forall i | i in todo
        ensures Delta.Sent(us, i)
      {
        if i == x {
          assert us[|rest|].inode == i;
        } else {
          assert Delta.Sent(rest, i);
          var k :| 0 <= k < |rest| && rest[k].inode == i;
          assert us[k].inode == i;
        }
      }
    }
  }

  /** The leader's updates can be put in an order. */
  lemma {:induction false} SomeOrder(r: Round, i: nat, p: Phase, p': Phase, us: seq<Entry>) returns (us': seq<Entry>)
    requires Valid(r) && i < |r.ms|
    ensures Ordering(OutOf(r, i, p, p'), us, us')
  {
    hide Valid, LeaderOf, StateOf, NeededInodes, Agreement.States, TreeInv, ContentInv;
    us' := us;
    if p.Collecting? && p'.Updating? && UpdatesOut(r, i) != [] {
      StartFacts(r, i);
      DbFacts(r, i);
      var t := DbOf(r, i).tree;
      var updates := Updates(t, Agreement.States(r), LeaderOf(r)).value;
      InodesMatch(t);
      us' := ListEntries(updates, updates.Keys);
    }
  }

  lemma {:induction false} InodesMatch(t: Tree)
    requires Exchangeable(t)
    ensures forall x :: x in t.index ==> t.index[x].inode == x
  {
    forall x | x in t.index
      ensures t.index[x].inode == x
    {
      assert EntryOk(t, x);
    }
  }

  /** A member that has not delivered the whole log can deliver the next message. */
  lemma {:induction false} CanDeliver(r: Round, c: Cluster, i: nat) returns (c': Cluster)
    requires InRound(r, c) && i < |r.ms| && c.pos[i] < |c.log|
    ensures Next(r, c, DeliverTo(i), c')
  {
    hide Valid, GroupInv, HarmlessLog, Committable, Receive, Ordering, Messages, DcdbCallbacks, OutOf, PhaseOf;
    assert Shaped(r, c) by { ShapedThere(r, c); }
    NextOuts(r, c, i);
    var us' := SomeOrder(r, i, Here(r, c, i), After(r, c, i), c.us);
    var s := c.log[c.pos[i]];
    var (n, outs) := Receive(DcdbCallbacks(), c.nodes[i], r.ms[s.from], Packet(r.version, s.msg));
    c' := c.(nodes := c.nodes[i := n], pos := c.pos[i := c.pos[i] + 1],
             outbox := c.outbox[i := c.outbox[i] + Messages(r, outs, us')], us := us');
  }

  lemma {:induction false} ShapedThere(r: Round, c: Cluster)
    requires Valid(r) && GroupInv(r, c)
    ensures Shaped(r, c)
  {
    hide Valid, MemberInv, Fine, UpdatesFit, LeaderOf;
  }

  // ---------------------------------------------------------------------------------------
  // Every step of the protocol brings the end closer
  // ---------------------------------------------------------------------------------------

  function Total(loads: seq<nat>): nat {
    if loads == [] then 0 else loads[0] + Total(loads[1..])
  }

  lemma {:induction false} TotalUpdate(loads: seq<nat>, i: nat, x: nat)
    requires i < |loads|
    ensures Total(loads[i := x]) + loads[i] == Total(loads) + x
    decreases i
  {
    if i == 0 {
      assert loads[0 := x][1..] == loads[1..];
    } else {
      assert loads[i := x][1..] == loads[1..][i - 1 := x];
      TotalUpdate(loads[1..], i - 1, x);
    }
  }

  lemma {:induction false} TotalMore(a: seq<nat>, b: seq<nat>)
    requires |a| == |b| && forall j :: 0 <= j < |a| ==> b[j] == a[j] + 1
    ensures Total(b) == Total(a) + |a|
    decreases |a|
  {
    if a != [] {
      TotalMore(a[1..], b[1..]);
    }
  }

  function Cost(messages: nat, members: nat): nat {
    messages * (members + 1)
  }

  /** A message costs its transmission and a delivery at each member; a state not yet sent counts
      like one in the outbox. */
  ghost function Load(r: Round, c: Cluster, i: nat): nat
    requires Valid(r) && Shaped(r, c) && i < |r.ms|
  {
    |c.log| - c.pos[i] + Cost(|c.outbox[i]| + if Here(r, c, i).Before? then 1 else 0, |r.ms|)
  }

  ghost function Loads(r: Round, c: Cluster): (loads: seq<nat>)
    requires Valid(r) && Shaped(r, c)
    ensures |loads| == |r.ms| && forall i :: 0 <= i < |loads| ==> loads[i] == Load(r, c, i)
  {
    seq(|r.ms|, i requires 0 <= i < |r.ms| => Load(r, c, i))
  }

  /** The leader still has to send the updates. */
  ghost function Owed(r: Round, c: Cluster): nat
    requires Valid(r) && Shaped(r, c)
  {
    if Group.Settled(Here(r, c, LeaderOf(r))) then 0 else 1
  }

  /** `d` is closer to the end of the round than `c`. */
  ghost predicate Closer(r: Round, c: Cluster, d: Cluster)
    requires Valid(r) && Shaped(r, c) && Shaped(r, d)
  {
    Owed(r, d) < Owed(r, c) || (Owed(r, d) == Owed(r, c) && Total(Loads(r, d)) < Total(Loads(r, c)))
  }

  lemma {:induction false} OneLoad(r: Round, c: Cluster, d: Cluster, i: nat)
    requires Valid(r) && Shaped(r, c) && Shaped(r, d) && i < |r.ms| && Load(r, d, i) < Load(r, c, i)
    requires forall j :: 0 <= j < |r.ms| && j != i ==> Load(r, d, j) == Load(r, c, j)
    ensures Total(Loads(r, d)) < Total(Loads(r, c))
  {
    hide Valid, Load, Shaped, Total;
    assert Loads(r, d) == Loads(r, c)[i := Load(r, d, i)];
    TotalUpdate(Loads(r, c), i, Load(r, d, i));
  }

  lemma {:induction false} MessageCount(r: Round, i: nat, p: Phase, p': Phase, us: seq<Entry>)
    requires Valid(r) && i < |r.ms| && Advances(p, p') && (i == LeaderOf(r) ==> !(p.Collecting? && p'.Updating?))
    ensures |Messages(r, OutOf(r, i, p, p'), us)| == if p.Before? then 1 else 0
  {
    hide Valid, LeaderOf, StateOf, Updates, Agreement.States, Entries;
  }

  lemma {:induction false} DeliverCloser(r: Round, c: Cluster, i: nat, c': Cluster)
    requires InRound(r, c) && i < |r.ms| && Next(r, c, DeliverTo(i), c')
    ensures Shaped(r, c') && Closer(r, c, c')
  {
    hide Valid, GroupInv, HarmlessLog, Committable, Receive, Ordering, Messages, DcdbCallbacks, OutOf, PhaseOf, LeaderOf, Total, Loads;
    ShapedThere(r, c);
    NextOuts(r, c, i);
    var p, p' := Here(r, c, i), After(r, c, i);
    assert Here(r, c', i) == p';
    forall j | 0 <= j < |r.ms| && j != i
      ensures Here(r, c', j) == Here(r, c, j) && Load(r, c', j) == Load(r, c, j)
    {
    }
    if !(i == LeaderOf(r) && p.Collecting? && p'.Updating?) {
      MessageCount(r, i, p, p', c'.us);
      OneLoad(r, c, c', i);
    }
  }

  lemma {:induction false} TransmitLoad(r: Round, c: Cluster, i: nat, c': Cluster, j: nat)
    requires Valid(r) && Shaped(r, c) && i < |r.ms| && j < |r.ms| && c.outbox[i] != []
    requires c' == c.(log := c.log + [Group.Sent(i, c.outbox[i][0])], outbox := c.outbox[i := c.outbox[i][1..]])
    ensures Shaped(r, c') && Here(r, c', j) == Here(r, c, j)
    ensures Load(r, c', j) == if j == i then Load(r, c, j) - |r.ms| else Load(r, c, j) + 1
  {
    hide Valid, PhaseOf;
    assert c'.log[..c'.pos[j]] == c.log[..c.pos[j]];
  }

  lemma {:induction false} TransmitCloser(r: Round, c: Cluster, i: nat, c': Cluster)
    requires InRound(r, c) && i < |r.ms| && Next(r, c, Transmit(i), c')
    ensures Shaped(r, c') && Closer(r, c, c')
  {
    hide Valid, GroupInv, HarmlessLog, Committable, PhaseOf, LeaderOf, Total, Loads, Load;
    ShapedThere(r, c);
    var more := seq(|r.ms|, j requires 0 <= j < |r.ms| => Load(r, c, j) + 1);
    forall j | 0 <= j < |r.ms|
      ensures Here(r, c', j) == Here(r, c, j)
      ensures j != i ==> Load(r, c', j) == Load(r, c, j) + 1
      ensures j == i ==> Load(r, c', j) + |r.ms| == Load(r, c, j)
    {
      TransmitLoad(r, c, i, c', j);
    }
    TotalMore(Loads(r, c), more);
    assert Loads(r, c') == more[i := Load(r, c', i)];
    TotalUpdate(more, i, Load(r, c', i));
  }

  // ---------------------------------------------------------------------------------------
  // Every round can be completed
  // ---------------------------------------------------------------------------------------

  predicate NoneExtra(ms: seq<Msg>) {
    forall k :: 0 <= k < |ms| ==> !Extra(ms[k])
  }

  /** Nothing was multicast since the round began. */
  predicate Plain(c: Cluster) {
    && (forall k :: 0 <= k < |c.log| ==> !Extra(c.log[k].msg))
    && (forall i :: 0 <= i < |c.outbox| ==> NoneExtra(c.outbox[i]))
  }

  /** The messages queued at the start leave no errors. */
  ghost predicate CleanQueue(r: Round)
    requires Valid(r)
  {
    Clean(DcdbCallbacks(), DbOf(r, LeaderOf(r)), FirstPart(r, r.queue) + LastPart(r, r.queue))
  }

  /** Phases of a log without further messages. */
  predicate PlainPhase(r: Round, p: Phase) {
    && (p.Collecting? || p.Updating? || p.Done? ==> p.q == r.queue)
    && (p.Updating? || p.Done? ==> p.ns == [])
    && (p.Done? ==> p.after == [])
  }

  predicate NoNormal(log: seq<Group.Sent>) {
    forall k :: 0 <= k < |log| ==> !log[k].msg.Normal?
  }

  lemma {:induction false} PlainLog(r: Round, log: seq<Group.Sent>)
    requires Valid(r) && Senders(r, log) && NoNormal(log)
    ensures PlainPhase(r, PhaseOf(r, log))
    decreases |log|
  {
    hide Valid, PhaseOf, StateOf;
    if log == [] {
      Nothing(r);
    } else {
      var n := |log| - 1;
      assert log == log[..n] + [log[n]];
      PlainLog(r, log[..n]);
      PhaseMore(r, log[..n], log[n]);
    }
  }

  lemma {:induction false} PlainHarmless(r: Round, p: Phase)
    requires Valid(r) && CleanQueue(r) && PlainPhase(r, p)
    ensures Harmless(r, p)
  {
    hide Valid, LeaderOf, Clean, DcdbCallbacks, Applies, FirstPart, LastPart, AppliedBy;
    StartFacts(r, LeaderOf(r));
    var cb, db, a, b := DcdbCallbacks(), DbOf(r, LeaderOf(r)), FirstPart(r, r.queue), LastPart(r, r.queue);
    AppliesAppend(cb, db, a, b);
    NothingClean(cb, db);
    forall i | 0 <= i < |r.ms|
      ensures Clean(cb, db, AppliedBy(r, i, p))
    {
      PlainApplied(r, i, p);
    }
  }

  lemma {:induction false} PlainApplied(r: Round, i: nat, p: Phase)
    requires Valid(r) && i < |r.ms| && PlainPhase(r, p)
    ensures var a := AppliedBy(r, i, p); a == [] || a == FirstPart(r, r.queue) || a == FirstPart(r, r.queue) + LastPart(r, r.queue)
  {
    hide Valid, FirstPart, LastPart, Sequence, InSync;
    if p.Updating? {
      assert FirstPart(r, r.queue) + [] == FirstPart(r, r.queue);
    } else if p.Done? {
      EmptyParts(r);
      EmptyMembers(r.ms);
      NoLate(r);
      ProvisoSequence(r, i, r.queue, []);
      var a, b := FirstPart(r, r.queue), LastPart(r, r.queue);
      assert a + [] + b + [] == a + b;
    }
  }

  lemma {:induction false} NoLate(r: Round)
    requires Valid(r)
    ensures Proviso(r, [])
  {
    hide Valid;
    EmptyParts(r);
  }

  lemma {:induction false} NothingClean(cb: Callbacks, db: Db)
    ensures Clean(cb, db, [])
  {
  }

  lemma {:induction false} PlainHarmlessLog(r: Round, log: seq<Group.Sent>)
    requires Valid(r) && Senders(r, log) && CleanQueue(r) && NoNormal(log)
    ensures HarmlessLog(r, log)
  {
    hide Valid, CleanQueue, Harmless, PhaseOf, PlainPhase;
    forall k | 0 <= k <= |log|
      ensures Harmless(r, PhaseOf(r, log[..k]))
    {
      PlainLog(r, log[..k]);
      PlainHarmless(r, PhaseOf(r, log[..k]));
    }
  }

  lemma {:induction false} PlainNoNormal(c: Cluster)
    requires Plain(c)
    ensures NoNormal(c.log)
  {
  }

  lemma {:induction false} OutsPlain(r: Round, i: nat, p: Phase, p': Phase, us: seq<Entry>)
    requires Valid(r) && i < |r.ms|
    ensures NoneExtra(Messages(r, OutOf(r, i, p, p'), us))
  {
    hide Valid, LeaderOf, StateOf, Updates, Agreement.States;
  }

  lemma {:induction false} StepPlain(r: Round, c: Cluster, a: Action, c': Cluster)
    requires InRound(r, c) && Plain(c) && (a.DeliverTo? || a.Transmit?) && Next(r, c, a, c')
    ensures Plain(c')
  {
    hide Valid, GroupInv, HarmlessLog, Committable, Receive, Ordering, Messages, DcdbCallbacks, OutOf, PhaseOf;
    ShapedThere(r, c);
    if a.DeliverTo? {
      NextOuts(r, c, a.i);
      OutsPlain(r, a.i, Here(r, c, a.i), After(r, c, a.i), c'.us);
    }
  }

  lemma {:induction false} SomeNotNormal(ms: seq<Msg>)
    ensures Awaited(ms) != [] ==> ms != []
  {
  }

  /** One more step of the protocol, unless the group is quiet. */
  lemma {:induction false} OneStep(r: Round, c: Cluster) returns (a: Action, c': Cluster)
    requires InRound(r, c) && !Quiet(r, c)
    ensures (a.DeliverTo? || a.Transmit?) && Next(r, c, a, c') && Shaped(r, c') && Closer(r, c, c')
  {
    hide Valid, GroupInv, HarmlessLog, Committable, Awaited, Closer, Delivers;
    ShapedThere(r, c);
    var i :| 0 <= i < |r.ms| && !(c.pos[i] == |c.log| && Awaited(c.outbox[i]) == []);
    if c.pos[i] < |c.log| {
      a := DeliverTo(i);
      c' := CanDeliver(r, c, i);
      DeliverCloser(r, c, i, c');
    } else {
      SomeNotNormal(c.outbox[i]);
      a, c' := Transmit(i), c.(log := c.log + [Group.Sent(i, c.outbox[i][0])], outbox := c.outbox[i := c.outbox[i][1..]]);
      TransmitCloser(r, c, i, c');
    }
  }

  ghost predicate Steps(r: Round, cs: seq<Cluster>, acts: seq<Action>) {
    && |cs| == |acts| + 1
    && forall k :: 0 <= k < |acts| ==> Shaped(r, cs[k]) && Next(r, cs[k], acts[k], cs[k + 1])
  }

  lemma {:induction false} Finish(r: Round, c: Cluster) returns (cs: seq<Cluster>, acts: seq<Action>)
    requires Valid(r) && Shaped(r, c) && InRound(r, c) && Plain(c) && CleanQueue(r)
    ensures Steps(r, cs, acts) && cs[0] == c
    ensures var d := cs[|acts|]; InRound(r, d) && Shaped(r, d) && Quiet(r, d) && Plain(d)
    decreases Owed(r, c), Total(Loads(r, c))
  {
    hide Valid, GroupInv, HarmlessLog, Committable, Quiet, Next, Plain, CleanQueue, Owed, Total, Loads, NoNormal;
    if Quiet(r, c) {
      cs, acts := [c], [];
    } else {
      var a, c' := OneStep(r, c);
      StepPlain(r, c, a, c');
      PlainNoNormal(c');
      PlainHarmlessLog(r, c'.log);
      NextInv(r, c, a, c');
      var cs', acts' := Finish(r, c');
      cs, acts := [c] + cs', [a] + acts';
      forall k | 0 <= k < |acts|
        ensures Shaped(r, cs[k]) && Next(r, cs[k], acts[k], cs[k + 1])
      {
        if k > 0 {
          assert cs[k] == cs'[k - 1] && acts[k] == acts'[k - 1] && cs[k + 1] == cs'[k];
        }
      }
    }
  }

  /** The group when the request to synchronise is all there is. */
  ghost function Opening(r: Round): Cluster
    requires Valid(r)
  {
    Cluster(r.start, seq(|r.ms|, i => 0), [Group.Sent(LeaderOf(r), SyncStart(r.epoch))], seq(|r.ms|, i => []), [])
  }

  lemma {:induction false} OpeningIs(r: Round)
    requires Valid(r)
    ensures Initial(r, Opening(r)) && Shaped(r, Opening(r)) && Plain(Opening(r))
  {
    hide Valid, LeaderOf;
    StartFacts(r, LeaderOf(r));
  }

  lemma {:induction false} OpeningInRound(r: Round)
    requires Valid(r) && Committable(r) && CleanQueue(r)
    ensures InRound(r, Opening(r))
  {
    hide Valid, GroupInv, HarmlessLog, Committable, CleanQueue, Initial, Plain, Opening, NoNormal;
    OpeningIs(r);
    PlainNoNormal(Opening(r));
    PlainHarmlessLog(r, Opening(r).log);
    InitInv(r, Opening(r));
  }

  lemma {:induction false} QuietDelivered(r: Round, c: Cluster)
    requires Shaped(r, c) && Quiet(r, c)
    ensures forall i :: 0 <= i < |r.ms| ==> c.pos[i] == |c.log|
  {
    hide Awaited;
  }

  lemma {:induction false} PlainStays(r: Round, c: Cluster)
    requires Valid(r) && Plain(c)
    ensures forall i :: 0 <= i < |r.ms| ==> !Expelled(r, i, c.log)
  {
    hide Valid, InSync, Completed;
  }

  /** From every start of a round there is a run that completes it: all members are synced and
      have delivered the same log. */
  lemma {:induction false} RoundCompletes(r: Round) returns (cs: seq<Cluster>, acts: seq<Action>)
    requires Valid(r) && Committable(r) && CleanQueue(r)
    ensures IsRun(r, cs, acts) && Shaped(r, cs[|acts|]) && HarmlessLog(r, cs[|acts|].log)
    ensures var c := cs[|acts|]; Completed(r, c.log) && forall i :: 0 <= i < |r.ms| ==> c.pos[i] == |c.log| && c.nodes[i].mode == Synced
  {
    hide Valid, GroupInv, HarmlessLog, Committable, Next, CleanQueue, Completed, Initial, Quiet, Plain, Opening, Expelled;
    OpeningIs(r);
    OpeningInRound(r);
    cs, acts := Finish(r, Opening(r));
    NoDeadlock(r, cs, acts, |acts|);
    QuietDelivered(r, cs[|acts|]);
    PlainStays(r, cs[|acts|]);
  }

  // ---------------------------------------------------------------------------------------
  // There are rounds
  // ---------------------------------------------------------------------------------------

  /** A database with nothing in it, at some version. */
  function EmptyDb(version: nat): Db {
    Db(Tree(map[0 := Entry(0, 0, version, 0, 0, Dir, 0, [], [])], map[0 := map[]]), map[0 := VersionRow(version, 0, 0)], map[], false)
  }

  lemma {:induction false} EmptyTree(version: nat)
    requires 0 < version && Fits64(version)
    ensures var t := EmptyDb(version).tree; Exchangeable(t) && !IsDirAt(t, [NODES])
  {
    var t := EmptyDb(version).tree;
    assert Lookup(t, []) == Some(0);
    assert Reachable(t, 0);
    assert [NODES][..0] == [];
  }

  lemma {:induction false} EmptyInv(version: nat)
    requires 0 < version && Fits64(version)
    ensures Inv(EmptyDb(version))
  {
    hide TreeInv, VmInv, IsDirAt;
    EmptyTree(version);
    NoNodesNoVms(EmptyDb(version).tree, map[]);
  }

  function Waits(ms: seq<Member>, self: Member, db: Db): Node {
    Node(self, 1, StartSync, true, Fresh(ms), Epoch(1, 0, self.nodeid, self.pid), 1, 0, [], [], None, db, [])
  }

  lemma {:induction false} SmallVersions()
    ensures Fits64(1) && Fits64(2)
  {
  }

  /** Any two members can be in a round in which the second needs an update: what is proved of
      such rounds is about something. */
  lemma {:induction false} RoundExists(a: Member, b: Member) returns (r: Round)
    requires a != b
    ensures Valid(r) && r.ms == [a, b] && Committable(r) && CleanQueue(r)
    ensures LeaderOf(r) == 0 && !InSync(r, 1)
  {
    hide Inv, Exchangeable, Fits64, IsDirAt, Clean, DcdbCallbacks, Encode, FirstPart, LastPart;
    SmallVersions();
    var ms := [a, b];
    r := Round(ms, 1, Epoch(1, 0, a.nodeid, a.pid), [], [Waits(ms, a, EmptyDb(2)), Waits(ms, b, EmptyDb(1))]);
    EmptyTree(1);
    EmptyTree(2);
    EmptyInv(1);
    EmptyInv(2);
    assert Ready(r, 0) && Ready(r, 1);
    assert Valid(r);
    EncodeVersion(EmptyDb(1).tree);
    EncodeVersion(EmptyDb(2).tree);
    assert Newer(Agreement.States(r)[0], Agreement.States(r)[1]);
    EmptyParts(r);
    NothingClean(DcdbCallbacks(), DbOf(r, 0));
    assert FirstPart(r, []) + LastPart(r, []) == [];
  }

  lemma {:induction false} EncodeVersion(t: Tree)
    requires 0 in t.index
    ensures Encode(t).version == Version(t)
  {
    hide Sorted, Marks, LastInode;
  }
}
