/** Verification of checksums. A member that is not synced leaves the group on a verify message of
    the epoch, so it matters who sends them, and when. */
module Checks {
  import opened MemTree
  import opened MemDb
  import opened TreeIndex
  import opened Leader
  import opened Dfsm
  import opened Agreement
  import opened Group
  import opened Progress

  /** A synced member of the lowest node that is not the leader: its verify messages can overtake
      the leader's completion. */
  ghost predicate Clash(r: Round)
    requires Valid(r)
  {
    exists i :: 0 <= i < |r.ms| && Rushes(r, i)
  }

  ghost predicate Rushes(r: Round, i: nat)
    requires Valid(r) && i < |r.ms| == |r.start|
  {
    i != LeaderOf(r) && InSync(r, i) && r.start[i].lowest != 0 && r.start[i].lowest == r.ms[i].nodeid
  }

  // ---------------------------------------------------------------------------------------
  // Without a clash
  // ---------------------------------------------------------------------------------------

  predicate CompleteFirst(r: Round, ms: seq<Msg>) {
    forall k :: 0 <= k < |ms| && ms[k].Verify? ==> UpdateComplete(r.epoch) in ms[..k]
  }

  /** Verify messages of the epoch come after the completion. */
  ghost predicate ChecksLast(r: Round, log: seq<Group.Sent>) {
    forall k :: 0 <= k < |log| && log[k].msg.Verify? && log[k].msg.epoch == r.epoch ==> Completed(r, log[..k])
  }

  ghost predicate CheckInv(r: Round, c: Cluster) {
    ChecksLast(r, c.log) && (Completed(r, c.log) || forall i :: 0 <= i < |c.outbox| ==> CompleteFirst(r, c.outbox[i]))
  }

  lemma {:induction false} FirstAppend(r: Round, a: seq<Msg>, b: seq<Msg>)
    requires CompleteFirst(r, a) && forall k :: 0 <= k < |b| && b[k].Verify? ==> UpdateComplete(r.epoch) in a
    ensures CompleteFirst(r, a + b)
  {
    forall k | 0 <= k < |a + b| && (a + b)[k].Verify?
      ensures UpdateComplete(r.epoch) in (a + b)[..k]
    {
      if k < |a| {
        assert (a + b)[..k] == a[..k];
      } else {
        assert (a + b)[k] == b[k - |a|];
        assert a == (a + b)[..k][..|a|];
      }
    }
  }

  lemma {:induction false} FirstTail(r: Round, ms: seq<Msg>)
    requires ms != [] && CompleteFirst(r, ms) && ms[0] != UpdateComplete(r.epoch)
    ensures !ms[0].Verify? && CompleteFirst(r, ms[1..])
  {
    assert ms[..0] == [];
    forall k | 0 <= k < |ms[1..]| && ms[1..][k].Verify?
      ensures UpdateComplete(r.epoch) in ms[1..][..k]
    {
      assert ms[k + 1].Verify?;
      assert ms[..k + 1] == [ms[0]] + ms[1..][..k];
    }
  }

  lemma {:induction false} AwaitedIn(ms: seq<Msg>, m: Msg)
    requires m in Awaited(ms)
    ensures m in ms
    decreases |ms|
  {
    hide Extra;
    AwaitedHead(ms);
    if m != ms[0] {
      AwaitedIn(ms[1..], m);
    }
  }

  lemma {:induction false} ChecksLastMore(r: Round, log: seq<Group.Sent>, s: Group.Sent)
    requires ChecksLast(r, log) && (s.msg.Verify? && s.msg.epoch == r.epoch ==> Completed(r, log))
    ensures ChecksLast(r, log + [s])
  {
    hide Completed;
    forall k | 0 <= k < |log + [s]| && (log + [s])[k].msg.Verify? && (log + [s])[k].msg.epoch == r.epoch
      ensures Completed(r, (log + [s])[..k])
    {
      assert (log + [s])[..k] == log[..k];
      assert log[..|log|] == log;
    }
  }

  lemma {:induction false} CompletedPrefix(r: Round, log: seq<Group.Sent>, k: nat)
    requires k <= |log| && Completed(r, log[..k])
    ensures Completed(r, log)
  {
    var j :| 0 <= j < k && log[..k][j].msg == UpdateComplete(r.epoch);
    assert log[j].msg == UpdateComplete(r.epoch);
  }

  /** Before the completion only the leader sends verify messages, and it has sent the completion. */
  lemma {:induction false} CheckerIsLeader(r: Round, c: Cluster, i: nat)
    requires Valid(r) && GroupInv(r, c) && !Clash(r) && i < |r.ms| && MayCheck(c.nodes[i]) && !Completed(r, c.log)
    ensures UpdateComplete(r.epoch) in c.outbox[i]
  {
    hide Valid, PhaseOf, Awaited, Announced, Checked, Gone, Fine, AllFine, LeaderOf, InSync, Completed, StateOf, UpdatesSent, Entries;
    CheckingLate(r, c, i);
    var here, now, l := Here(r, c, i), PhaseOf(r, c.log), LeaderOf(r);
    assert MemberInv(r, c, i);
    FinePrefix(r, c.log, c.pos[i]);
    CompletedDone(r, c.log[..c.pos[i]]);
    CompletedDone(r, c.log);
    if here.Done? {
      CompletedPrefix(r, c.log, c.pos[i]);
    }
    StartFacts(r, i);
    ViewShape(r, i, here);
    ViewLowest(r, i, here);
    assert InSync(r, i);
    assert i == l by { assert !Rushes(r, i); }
    var e := Remaining(r, now, c.us);
    assert e[|e| - 1] == UpdateComplete(r.epoch);
    AwaitedIn(c.outbox[i], UpdateComplete(r.epoch));
  }

  lemma {:induction false} ViewLowest(r: Round, i: nat, p: Phase)
    requires Valid(r) && i < |r.ms| == |r.start|
    ensures View(r, i, p).lowest == r.start[i].lowest && View(r, i, p).self == r.start[i].self
  {
    hide Valid, InSync, Got, Marked, Queues.Applies, FirstPart, LastPart, Sequence, Base, InsertAll, StateOf, LeaderOf, AllMarked, DcdbCallbacks;
  }

  lemma {:induction false} NoVerifies(r: Round, i: nat, p: Phase, p': Phase, us: seq<Entry>)
    requires Valid(r) && i < |r.ms|
    ensures forall k :: 0 <= k < |Messages(r, OutOf(r, i, p, p'), us)| ==> !Messages(r, OutOf(r, i, p, p'), us)[k].Verify?
  {
    hide Valid, Messages, OutOf;
    OutsPlain(r, i, p, p', us);
  }

  lemma {:induction false} GrownCheck(r: Round, c: Cluster, i: nat, more: seq<Msg>)
    requires CheckInv(r, c) && i < |c.outbox| && (Completed(r, c.log) || forall k :: 0 <= k < |more| && more[k].Verify? ==> UpdateComplete(r.epoch) in c.outbox[i])
    ensures CheckInv(r, c.(outbox := c.outbox[i := c.outbox[i] + more]))
  {
    hide ChecksLast, Completed, CompleteFirst;
    if !Completed(r, c.log) {
      FirstAppend(r, c.outbox[i], more);
    }
  }

  lemma {:induction false} TransmitCheck(r: Round, c: Cluster, i: nat, c': Cluster)
    requires CheckInv(r, c) && i < |c.outbox| && c.outbox[i] != []
    requires c' == c.(log := c.log + [Group.Sent(i, c.outbox[i][0])], outbox := c.outbox[i := c.outbox[i][1..]])
    ensures CheckInv(r, c')
  {
    hide ChecksLast, Completed, CompleteFirst;
    var m := c.outbox[i][0];
    CompletedMore(r, c.log, Group.Sent(i, m));
    if !Completed(r, c.log) && m != UpdateComplete(r.epoch) {
      FirstTail(r, c.outbox[i]);
    }
    ChecksLastMore(r, c.log, Group.Sent(i, m));
  }

  lemma {:induction false} NextCheck(r: Round, c: Cluster, a: Action, c': Cluster)
    requires InRound(r, c) && !Clash(r) && CheckInv(r, c) && Next(r, c, a, c')
    ensures CheckInv(r, c')
  {
    hide Valid, GroupInv, HarmlessLog, Committable, Receive, Ordering, Messages, DcdbCallbacks, OutOf, PhaseOf, CheckInv, Clash, Completed, MayCheck;
    ShapedThere(r, c);
    if a.Multicast? {
      GrownCheck(r, c, a.i, [Normal(a.count, a.body)]);
    } else if a.Checking? {
      CheckingGrows(r, c, a.i, Verify(c.nodes[a.i].epoch, a.bad));
    } else if a.Transmit? {
      TransmitCheck(r, c, a.i, c');
    } else if a.Noise? {
      NoiseCheck(r, c, Group.Sent(a.i, a.msg));
    } else {
      NextOuts(r, c, a.i);
      var p, p' := Here(r, c, a.i), After(r, c, a.i);
      NoVerifies(r, a.i, p, p', c'.us);
      GrownCheck(r, c, a.i, Messages(r, OutOf(r, a.i, p, p'), c'.us));
      SameCheck(r, c.(outbox := c'.outbox), c');
    }
  }

  lemma {:induction false} CheckingGrows(r: Round, c: Cluster, i: nat, m: Msg)
    requires Valid(r) && GroupInv(r, c) && !Clash(r) && CheckInv(r, c) && i < |r.ms| && MayCheck(c.nodes[i])
    ensures CheckInv(r, c.(outbox := c.outbox[i := c.outbox[i] + [m]]))
  {
    hide Valid, GroupInv, Clash, Completed, CheckInv, MayCheck;
    ShapedThere(r, c);
    if !Completed(r, c.log) {
      CheckerIsLeader(r, c, i);
    }
    GrownCheck(r, c, i, [m]);
  }

  lemma {:induction false} NoiseCheck(r: Round, c: Cluster, s: Group.Sent)
    requires CheckInv(r, c) && Stale(r, s.msg)
    ensures CheckInv(r, c.(log := c.log + [s]))
  {
    hide ChecksLast, Completed, CompleteFirst;
    ChecksLastMore(r, c.log, s);
    CompletedMore(r, c.log, s);
  }

  lemma {:induction false} SameCheck(r: Round, c: Cluster, d: Cluster)
    requires CheckInv(r, c) && d.log == c.log && d.outbox == c.outbox
    ensures CheckInv(r, d)
  {
    hide ChecksLast, Completed, CompleteFirst;
  }

  lemma {:induction false} FirstCheck(r: Round, c: Cluster)
    requires Initial(r, c)
    ensures CheckInv(r, c)
  {
    hide Completed;
  }

  /** Unless there is a clash, in every run all verify messages of the epoch enter the log after
      the completion. */
  lemma {:induction false} ChecksComeLast(r: Round, cs: seq<Cluster>, acts: seq<Action>, k: nat)
    requires Valid(r) && IsRun(r, cs, acts) && Committable(r) && !Clash(r) && k <= |acts|
    requires Shaped(r, cs[k]) && HarmlessLog(r, cs[k].log)
    ensures CheckInv(r, cs[k])
  {
    hide Valid, GroupInv, HarmlessLog, Committable, Next, Shaped, Initial, CheckInv, Clash;
    if k == 0 {
      FirstCheck(r, cs[0]);
    } else {
      LogBefore(r, cs[k - 1], acts[k - 1], cs[k]);
      RunInv(r, cs, acts, k - 1);
      ChecksComeLast(r, cs, acts, k - 1);
      NextCheck(r, cs[k - 1], acts[k - 1], cs[k]);
    }
  }

  predicate GoodChecks(log: seq<Group.Sent>) {
    forall k :: 0 <= k < |log| && log[k].msg.Verify? ==> !log[k].msg.bad
  }

  lemma {:induction false} LastSpares(r: Round, i: nat, log: seq<Group.Sent>, k: nat)
    requires Valid(r) && i < |r.ms| && ChecksLast(r, log) && GoodChecks(log) && k <= |log|
    ensures !Expelled(r, i, log[..k])
  {
    hide Valid, InSync, Completed;
    forall j | 0 <= j < k
      ensures !Expels(r, i, log[..k], j)
    {
      assert log[..k][..j] == log[..j];
    }
  }

  /** Unless there is a clash, no member leaves in any run without bad checksums. */
  lemma {:induction false} NobodyLeaves(r: Round, cs: seq<Cluster>, acts: seq<Action>, k: nat, i: nat)
    requires Valid(r) && IsRun(r, cs, acts) && Committable(r) && !Clash(r) && k <= |acts| && i < |r.ms|
    requires Shaped(r, cs[k]) && HarmlessLog(r, cs[k].log) && GoodChecks(cs[k].log)
    ensures !Failed(cs[k].nodes[i].mode)
  {
    hide Valid, HarmlessLog, Committable, Next, Initial, Clash, Expelled, GoodChecks, ChecksLast;
    ChecksComeLast(r, cs, acts, k);
    LastSpares(r, i, cs[k].log, cs[k].pos[i]);
    LeavesExactly(r, cs, acts, k, i);
  }

  // ---------------------------------------------------------------------------------------
  // With a clash
  // ---------------------------------------------------------------------------------------

  ghost predicate RunTo(r: Round, cs: seq<Cluster>, acts: seq<Action>, c: Cluster) {
    IsRun(r, cs, acts) && Shaped(r, c) && cs[|acts|] == c
  }

  /** Some run of the round leads to this state. */
  ghost predicate Reached(r: Round, c: Cluster) {
    exists cs, acts :: RunTo(r, cs, acts, c)
  }

  lemma {:induction false} ReachedNext(r: Round, c: Cluster, a: Action, d: Cluster)
    requires Reached(r, c) && Shaped(r, c) && Next(r, c, a, d) && Shaped(r, d)
    ensures Reached(r, d)
  {
    hide Next, Shaped, Initial;
    var cs, acts :| RunTo(r, cs, acts, c);
    var cs', acts' := cs + [d], acts + [a];
    forall k | 0 <= k < |acts'|
      ensures Shaped(r, cs'[k]) && Next(r, cs'[k], acts'[k], cs'[k + 1])
    {
      if k < |acts| {
        assert cs'[k] == cs[k] && acts'[k] == acts[k] && cs'[k + 1] == cs[k + 1];
      } else {
        assert cs'[k] == c && acts'[k] == a && cs'[k + 1] == d;
      }
    }
    assert RunTo(r, cs', acts', d);
  }

  ghost predicate Underway(r: Round, c: Cluster) {
    InRound(r, c) && Shaped(r, c) && Reached(r, c) && CleanQueue(r) && NoNormal(c.log)
  }

  /** One step of a member or of the medium, with nothing but verify messages added. */
  lemma {:induction false} StepUnderway(r: Round, c: Cluster, a: Action, d: Cluster)
    requires Underway(r, c) && Next(r, c, a, d) && Shaped(r, d) && NoNormal(d.log)
    ensures Underway(r, d)
  {
    hide Valid, GroupInv, HarmlessLog, Committable, CleanQueue, Reached, NoNormal, Next;
    PlainHarmlessLog(r, d.log);
    NextInv(r, c, a, d);
    ReachedNext(r, c, a, d);
  }

  lemma {:induction false} OpeningUnderway(r: Round)
    requires Valid(r) && Committable(r) && CleanQueue(r)
    ensures Underway(r, Opening(r)) && Plain(Opening(r)) && PhaseOf(r, Opening(r).log) == Collecting({}, r.queue)
  {
    hide Valid, GroupInv, HarmlessLog, Committable, CleanQueue, Initial, Shaped, Opening, PhaseOf, InRound, NoNormal, Plain;
    var c := Opening(r);
    OpeningIs(r);
    OpeningInRound(r);
    PlainNoNormal(c);
    InitialLog(r, c);
    FirstPhases(r, c.log);
    assert RunTo(r, [c], [], c);
  }

  lemma {:induction false} InitialLog(r: Round, c: Cluster)
    requires Initial(r, c)
    ensures |c.log| == 1 && c.log[0].msg == SyncStart(r.epoch) && Senders(r, c.log)
  {
  }

  /** The last state has just entered the log. */
  ghost predicate AllStatesIn(r: Round, c: Cluster)
    requires Valid(r) && Shaped(r, c)
  {
    PhaseOf(r, c.log).Updating? && Plain(c) && !Settled(Here(r, c, LeaderOf(r)))
  }

  lemma {:induction false} LeaderBehind(r: Round, c: Cluster)
    requires Valid(r) && GroupInv(r, c) && PhaseOf(r, c.log).Collecting?
    ensures !Settled(Here(r, c, LeaderOf(r))) && !Quiet(r, c)
  {
    hide Valid, PhaseOf, LeaderOf, Awaited, Expected, UpdatesFit, NodeIs, Announced, AllFine, Checked, Quiet;
    assert MemberInv(r, c, LeaderOf(r));
    if Quiet(r, c) {
      QuietDone(r, c);
    }
  }

  /** The phase of the log after one step. */
  lemma {:induction false} LogStep(r: Round, c: Cluster, a: Action, d: Cluster)
    requires Valid(r) && GroupInv(r, c) && GroupInv(r, d) && (a.DeliverTo? || a.Transmit?) && Next(r, c, a, d) && PhaseOf(r, c.log).Collecting?
    ensures PhaseOf(r, d.log).Collecting? || PhaseOf(r, d.log).Updating?
    ensures PhaseOf(r, d.log).Updating? ==> Here(r, d, LeaderOf(r)) == Here(r, c, LeaderOf(r))
  {
    hide Valid, PhaseOf, PhaseStep, LeaderOf, MemberInv, UpdatesFit, AllFine, Receive, Messages, DcdbCallbacks, Ordering;
    NowKnown(r, d);
    if a.Transmit? {
      var s := Group.Sent(a.i, c.outbox[a.i][0]);
      PhaseMore(r, c.log, s);
      StepMonotone(r, PhaseOf(r, c.log), s);
      var l := LeaderOf(r);
      assert d.log[..d.pos[l]] == c.log[..c.pos[l]];
      PhaseKinds(r, PhaseOf(r, c.log), s);
    }
  }

  lemma {:induction false} PhaseKinds(r: Round, p: Phase, s: Group.Sent)
    requires Valid(r) && s.from < |r.ms| && p.Collecting? && !PhaseStep(r, p, s).Broken?
    ensures PhaseStep(r, p, s).Collecting? || PhaseStep(r, p, s).Updating?
  {
    hide Valid, StateOf, InsertSorted;
  }

  lemma {:induction false} Collect(r: Round, c: Cluster) returns (d: Cluster)
    requires Valid(r) && Shaped(r, c) && Underway(r, c) && Plain(c) && PhaseOf(r, c.log).Collecting?
    ensures Underway(r, d) && AllStatesIn(r, d)
    decreases Owed(r, c), Progress.Total(Loads(r, c))
  {
    hide Valid, GroupInv, HarmlessLog, Committable, Quiet, Next, Plain, CleanQueue, Owed, Progress.Total, Loads, NoNormal, PhaseOf, LeaderOf, Settled, Reached;
    LeaderBehind(r, c);
    var a, c' := OneStep(r, c);
    StepPlain(r, c, a, c');
    PlainNoNormal(c');
    StepUnderway(r, c, a, c');
    LogStep(r, c, a, c');
    if PhaseOf(r, c'.log).Collecting? {
      d := Collect(r, c');
    } else {
      d := c';
    }
  }

  /** Member `i` delivers all that is in the log. */
  lemma {:induction false} CatchUp(r: Round, c: Cluster, i: nat) returns (d: Cluster)
    requires Underway(r, c) && i < |r.ms| == |c.pos| == |c.outbox|
    ensures Underway(r, d) && |d.pos| == |d.outbox| == |r.ms| && d.log == c.log && d.pos[i] == |d.log|
    ensures forall j :: 0 <= j < |r.ms| && j != i ==> d.pos[j] == c.pos[j] && d.outbox[j] == c.outbox[j]
    ensures Plain(c) ==> Plain(d)
    decreases if Shaped(r, c) then |c.log| - c.pos[i] else 0
  {
    hide Valid, GroupInv, HarmlessLog, Committable, CleanQueue, NoNormal, Reached, Receive, Messages, Ordering, DcdbCallbacks, Plain;
    if c.pos[i] == |c.log| {
      d := c;
    } else {
      var c' := CanDeliver(r, c, i);
      if Plain(c) {
        StepPlain(r, c, DeliverTo(i), c');
      }
      StepUnderway(r, c, DeliverTo(i), c');
      d := CatchUp(r, c', i);
    }
  }

  /** A synced member other than the leader has nothing left to send. */
  lemma {:induction false} NothingToSend(r: Round, c: Cluster, i: nat)
    requires Valid(r) && GroupInv(r, c) && Plain(c) && i < |r.ms| && i != LeaderOf(r) && c.pos[i] == |c.log| && PhaseOf(r, c.log).Updating? && InSync(r, i)
    ensures c.outbox[i] == [] && c.nodes[i] == View(r, i, PhaseOf(r, c.log)) && c.nodes[i].mode == Synced && c.nodes[i].epoch == r.epoch
  {
    hide Valid, PhaseOf, LeaderOf, View, UpdatesFit, AllFine, Checked, StateOf, Remaining, InSync, Gone, Expelled;
    assert MemberInv(r, c, i);
    assert c.log[..|c.log|] == c.log;
    GoneExpelled(r, i, c.log);
    PlainStays(r, c);
    ViewShape(r, i, PhaseOf(r, c.log));
    PlainOutbox(c.outbox[i]);
  }

  lemma {:induction false} PlainOutbox(ms: seq<Msg>)
    requires NoneExtra(ms) && Awaited(ms) == []
    ensures ms == []
  {
    hide Extra;
  }

  /** Member `i` sends a verify message, and it enters the log. */
  lemma {:induction false} SendCheck(r: Round, c: Cluster, i: nat) returns (d: Cluster)
    requires Valid(r) && Underway(r, c) && i < |r.ms| == |c.nodes| == |c.outbox| && MayCheck(c.nodes[i]) && c.outbox[i] == [] && c.nodes[i].epoch == r.epoch
    ensures Underway(r, d) && d.log == c.log + [Group.Sent(i, Verify(r.epoch, false))] && d.pos == c.pos && |d.outbox| == |r.ms|
  {
    hide Valid, GroupInv, HarmlessLog, Committable, CleanQueue, Reached;
    var v := Verify(r.epoch, false);
    var e := c.(outbox := c.outbox[i := [v]]);
    assert c.outbox[i] + [v] == [v];
    StepUnderway(r, c, Checking(i, false), e);
    d := e.(log := e.log + [Group.Sent(i, v)], outbox := e.outbox[i := []]);
    assert [v][1..] == [];
    StepUnderway(r, e, Transmit(i), d);
  }

  ghost predicate Orderly(r: Round, c: Cluster)
    requires Valid(r)
  {
    Shaped(r, c) && HarmlessLog(r, c.log) && GoodChecks(c.log)
  }

  lemma {:induction false} PlainChecks(c: Cluster)
    requires Plain(c)
    ensures GoodChecks(c.log)
  {
  }

  /** In every round with a clash, every member to be updated leaves in some run. */
  lemma {:induction false} SomebodyLeaves(r: Round, i: nat, k: nat) returns (c: Cluster)
    requires Valid(r) && Committable(r) && CleanQueue(r) && i < |r.ms| == |r.start| && Rushes(r, i) && k < |r.ms| && !InSync(r, k)
    ensures Reached(r, c) && Orderly(r, c) && Failed(c.nodes[k].mode)
  {
    hide Valid, GroupInv, HarmlessLog, Committable, CleanQueue, NoNormal, Reached, Plain, PhaseOf, LeaderOf, InSync, View, Settled, GoodChecks, Expelled;
    OpeningUnderway(r);
    var a := Collect(r, Opening(r));
    var b := CatchUp(r, a, i);
    NothingToSend(r, b, i);
    StartFacts(r, i);
    ViewLowest(r, i, PhaseOf(r, b.log));
    var d := SendCheck(r, b, i);
    c := CatchUp(r, d, k);
    PlainChecks(b);
    ExpelledNow(r, b, c, i, k);
    assert c.log[..|c.log|] == c.log;
    ReachedLeaves(r, c, k);
  }

  lemma {:induction false} ReachedLeaves(r: Round, c: Cluster, k: nat)
    requires Valid(r) && Reached(r, c) && Shaped(r, c) && Committable(r) && HarmlessLog(r, c.log) && k < |r.ms|
    ensures Failed(c.nodes[k].mode) <==> Expelled(r, k, c.log[..c.pos[k]])
  {
    hide Valid, HarmlessLog, Committable, Expelled, Next, Initial;
    var cs, acts :| RunTo(r, cs, acts, c);
    LeavesExactly(r, cs, acts, |acts|, k);
  }

  lemma {:induction false} ExpelledNow(r: Round, b: Cluster, c: Cluster, i: nat, k: nat)
    requires Valid(r) && GroupInv(r, b) && PhaseOf(r, b.log).Updating? && k < |r.ms| && !InSync(r, k) && GoodChecks(b.log)
    requires c.log == b.log + [Group.Sent(i, Verify(r.epoch, false))]
    ensures Expelled(r, k, c.log) && GoodChecks(c.log)
  {
    hide Valid, PhaseOf, InSync, MemberInv, UpdatesFit, LeaderOf, AllFine, Completed;
    CompletedDone(r, b.log);
    assert c.log[..|b.log|] == b.log;
    assert Expels(r, k, c.log, |b.log|);
  }

  ghost predicate Leaves(r: Round, k: nat, c: Cluster)
    requires Valid(r) && k < |r.ms|
  {
    Reached(r, c) && Orderly(r, c) && Failed(c.nodes[k].mode)
  }

  /** A member to be updated can be made to leave by good verify messages exactly if there is a
      clash. */
  lemma {:induction false} ClashExact(r: Round, k: nat)
    requires Valid(r) && Committable(r) && CleanQueue(r) && k < |r.ms| && !InSync(r, k)
    ensures (exists c :: Leaves(r, k, c)) <==> Clash(r)
  {
    hide Valid, Committable, CleanQueue, InSync, HarmlessLog, GoodChecks, Rushes, Shaped;
    if Clash(r) {
      StartFacts(r, k);
      var i :| 0 <= i < |r.ms| && Rushes(r, i);
      var c := SomebodyLeaves(r, i, k);
      assert Leaves(r, k, c);
    } else {
      forall c
        ensures !Leaves(r, k, c)
      {
        if Leaves(r, k, c) {
          var cs, acts :| RunTo(r, cs, acts, c);
          NobodyLeaves(r, cs, acts, |acts|, k);
        }
      }
    }
  }

  /** Two processes on the lowest node and a member on another: there are rounds with a clash and a
      member to be updated. */
  lemma {:induction false} ClashExists(a: Member, b: Member, c: Member) returns (r: Round)
    requires a.nodeid == b.nodeid && 0 < a.nodeid < c.nodeid && a != b
    ensures Valid(r) && r.ms == [a, b, c] && Committable(r) && CleanQueue(r) && Clash(r) && !InSync(r, 2)
  {
    hide Inv, Exchangeable, Fits64, IsDirAt, Queues.Clean, DcdbCallbacks, Encode, FirstPart, LastPart;
    SmallVersions();
    var ms, low := [a, b, c], a.nodeid;
    var first, second, third := Waits(ms, a, EmptyDb(2)), Waits(ms, b, EmptyDb(2)), Waits(ms, c, EmptyDb(1));
    r := Round(ms, 1, Epoch(1, 0, a.nodeid, a.pid), [], [first.(lowest := low), second.(lowest := low), third.(lowest := low)]);
    EmptyTree(1);
    EmptyTree(2);
    EmptyInv(1);
    EmptyInv(2);
    FreshClear(ms);
    assert Ready(r, 0) && Ready(r, 1) && Ready(r, 2);
    assert Valid(r);
    EncodeVersion(EmptyDb(1).tree);
    EncodeVersion(EmptyDb(2).tree);
    assert Newer(Agreement.States(r)[0], Agreement.States(r)[2]) && Agreement.States(r)[0] == Agreement.States(r)[1];
    EmptyParts(r);
    NothingClean(DcdbCallbacks(), DbOf(r, 0));
    assert FirstPart(r, []) + LastPart(r, []) == [];
    assert Rushes(r, 1);
  }

  // ---------------------------------------------------------------------------------------
  // One process per node
  // ---------------------------------------------------------------------------------------

  /** Node identifiers ascend, and nobody takes a greater one than the least for the lowest. */
  ghost predicate OnePerNode(r: Round) {
    && (forall i, j :: 0 <= i < j < |r.ms| ==> r.ms[i].nodeid < r.ms[j].nodeid)
    && (forall i, j :: 0 <= i < |r.start| && 0 <= j < |r.ms| ==> r.start[i].lowest <= r.ms[j].nodeid)
  }

  /** With one process per node there is no clash: the lowest node, if synced, is the leader. */
  lemma {:induction false} NoClash(r: Round)
    requires Valid(r) && OnePerNode(r)
    ensures !Clash(r)
  {
    hide Valid, StateOf;
    StartFacts(r, LeaderOf(r));
    forall i | 0 <= i < |r.ms|
      ensures !Rushes(r, i)
    {
      if i > 0 {
        assert r.ms[0].nodeid < r.ms[i].nodeid;
      } else if LeaderOf(r) > 0 {
        assert Newer(Agreement.States(r)[LeaderOf(r)], Agreement.States(r)[0]);
      }
    }
  }

  /** `Lowest` is the least node identifier, unless 0 is one. */
  lemma {:induction false} LowestLeast(ms: seq<Member>)
    requires forall k :: 0 <= k < |ms| ==> ms[k].nodeid != 0
    ensures forall k :: 0 <= k < |ms| ==> 0 < Lowest(ms) <= ms[k].nodeid
    ensures ms != [] ==> exists k :: 0 <= k < |ms| && ms[k].nodeid == Lowest(ms)
    decreases |ms|
  {
    if ms != [] {
      var n := |ms| - 1;
      LowestLeast(ms[..n]);
      if n > 0 {
        var k :| 0 <= k < n && ms[..n][k].nodeid == Lowest(ms[..n]);
        assert ms[k].nodeid == Lowest(ms[..n]);
        assert 0 < Lowest(ms[..n]) by { assert ms[..n][0].nodeid != 0; }
      }
      forall k | 0 <= k < |ms|
        ensures 0 < Lowest(ms) <= ms[k].nodeid
      {
        assert k < n ==> ms[..n][k] == ms[k];
      }
    }
  }
}
