/** The members of the group, their order, and the choice of the leader
    (`dfsm_sync_info_compare`, `dcdb_select_leader`). */
module Leader {
  import opened MemTree
  import opened TreeIndex

  datatype Member = Member(nodeid: u32, pid: u32)

  // ---------------------------------------------------------------------------------------
  // The order of the members
  // ---------------------------------------------------------------------------------------

  const HALF: int := 0x8000_0000

  /** An unsigned difference stored in a 32-bit signed integer. */
  function Narrow(d: int): int {
    var r := d % 0x1_0000_0000;
    if r < HALF then r else r - 0x1_0000_0000
  }

  function Compare(a: Member, b: Member): int {
    if a.nodeid != b.nodeid then Narrow(a.nodeid - b.nodeid) else Narrow(a.pid - b.pid)
  }

  /** The narrowed difference has the right sign exactly up to half the range. */
  lemma {:induction false} NarrowSign(d: int)
    requires -0x1_0000_0000 < d < 0x1_0000_0000
    ensures (d > 0 <==> Narrow(d) > 0) && (d < 0 <==> Narrow(d) < 0) <==> -HALF <= d < HALF
  {
    if d >= 0 {
      assert d % 0x1_0000_0000 == d;
    } else {
      assert d % 0x1_0000_0000 == d + 0x1_0000_0000;
    }
  }

  predicate Before(a: Member, b: Member) {
    a.nodeid < b.nodeid || (a.nodeid == b.nodeid && a.pid < b.pid)
  }

  /** What `Compare` subtracts lies within half the range. */
  predicate Close(a: Member, b: Member) {
    if a.nodeid != b.nodeid then -HALF <= a.nodeid - b.nodeid < HALF else -HALF <= a.pid - b.pid < HALF
  }

  /** The comparison is the numeric one exactly within half the range. */
  lemma {:induction false} CompareExact(a: Member, b: Member)
    ensures (Compare(a, b) < 0 <==> Before(a, b)) && (Compare(a, b) > 0 <==> Before(b, a)) <==> Close(a, b)
  {
    NarrowSign(a.nodeid - b.nodeid);
    NarrowSign(a.pid - b.pid);
  }

  predicate Precedes(a: Member, b: Member) {
    Compare(a, b) < 0
  }

  lemma {:induction false} NarrowBoth(d: int)
    requires -0x1_0000_0000 < d < 0x1_0000_0000 && d != 0
    ensures Narrow(d) != 0 && (Narrow(d) < 0 || Narrow(-d) < 0)
  {
    if d > 0 {
      assert d % 0x1_0000_0000 == d && (-d) % 0x1_0000_0000 == 0x1_0000_0000 - d;
    } else {
      assert d % 0x1_0000_0000 == d + 0x1_0000_0000 && (-d) % 0x1_0000_0000 == -d;
    }
  }

  /** Of two members one precedes the other; at a distance of exactly half the range each does. */
  lemma {:induction false} OnePrecedes(a: Member, b: Member)
    requires a != b
    ensures Compare(a, b) != 0 && (Precedes(a, b) || Precedes(b, a))
  {
    hide Narrow;
    if a.nodeid != b.nodeid {
      NarrowBoth(a.nodeid - b.nodeid);
      assert -(a.nodeid - b.nodeid) == b.nodeid - a.nodeid;
    } else {
      NarrowBoth(a.pid - b.pid);
      assert -(a.pid - b.pid) == b.pid - a.pid;
    }
  }

  predicate Asymmetric(a: Member, b: Member) {
    !(Precedes(a, b) && Precedes(b, a))
  }

  predicate Chained(a: Member, b: Member, c: Member) {
    Precedes(a, b) && Precedes(b, c) ==> Precedes(a, c)
  }

  /** The comparison orders these members. */
  ghost predicate Consistent(ms: seq<Member>) {
    && (forall a, b :: a in ms && b in ms ==> Asymmetric(a, b))
    && (forall a, b, c :: a in ms && b in ms && c in ms ==> Chained(a, b, c))
  }

  /** Numeric order is an order. */
  lemma {:induction false} CloseConsistent(ms: seq<Member>)
    requires forall a, b :: a in ms && b in ms ==> Close(a, b)
    ensures Consistent(ms)
  {
    hide Compare, Close;
    forall a, b | a in ms && b in ms
      ensures Precedes(a, b) <==> Before(a, b)
    {
      CompareExact(a, b);
    }
  }

  function Insert(ms: seq<Member>, m: Member): seq<Member> {
    if ms == [] then [m]
    else if Compare(ms[|ms| - 1], m) <= 0 then ms + [m]
    else Insert(ms[..|ms| - 1], m) + [ms[|ms| - 1]]
  }

  /** The sorted member list. */
  function Sort(ms: seq<Member>): seq<Member> {
    if ms == [] then [] else Insert(Sort(ms[..|ms| - 1]), ms[|ms| - 1])
  }

  ghost predicate InOrder(ms: seq<Member>) {
    forall k, l :: 0 <= k < l < |ms| ==> Precedes(ms[k], ms[l])
  }

  lemma {:induction false} InsertElements(ms: seq<Member>, m: Member)
    ensures multiset(Insert(ms, m)) == multiset(ms) + multiset{m}
  {
    hide Compare;
    if ms != [] {
      var n := |ms| - 1;
      assert ms == ms[..n] + [ms[n]];
      InsertElements(ms[..n], m);
    }
  }

  /** Sorting rearranges the members, whatever the comparison does. */
  lemma {:induction false} SortElements(ms: seq<Member>)
    ensures multiset(Sort(ms)) == multiset(ms) && |Sort(ms)| == |ms|
    ensures forall m :: m in Sort(ms) <==> m in ms
  {
    hide Insert;
    if ms != [] {
      var n := |ms| - 1;
      assert ms == ms[..n] + [ms[n]];
      SortElements(ms[..n]);
      InsertElements(Sort(ms[..n]), ms[n]);
    }
    assert |multiset(Sort(ms))| == |Sort(ms)| && |multiset(ms)| == |ms|;
    forall m
      ensures m in Sort(ms) <==> m in ms
    {
      assert m in Sort(ms) <==> m in multiset(Sort(ms));
    }
  }

  lemma {:induction false} InsertInOrder(ms: seq<Member>, m: Member)
    requires InOrder(ms) && Consistent(ms + [m]) && m !in ms
    ensures InOrder(Insert(ms, m))
  {
    hide Compare, Consistent;
    if ms != [] {
      var n := |ms| - 1;
      OnePrecedes(ms[n], m);
      if Compare(ms[n], m) > 0 {
        SubConsistent(ms + [m], ms[..n] + [m]);
        InsertInOrder(ms[..n], m);
        InsertElements(ms[..n], m);
        var r := Insert(ms[..n], m);
        forall k | 0 <= k < |r|
          ensures Precedes(r[k], ms[n])
        {
          assert r[k] in multiset(r);
          assert r[k] == m || r[k] in ms[..n];
        }
        OneMoreInOrder(r, ms[n]);
      } else {
        forall k | 0 <= k < |ms|
          ensures Precedes(ms[k], m)
        {
          assert k < n ==> Precedes(ms[k], ms[n]);
          AreChained(ms + [m], ms[k], ms[n], m);
        }
        OneMoreInOrder(ms, m);
      }
    }
  }

  lemma {:induction false} OneMoreInOrder(ms: seq<Member>, m: Member)
    requires InOrder(ms) && forall k :: 0 <= k < |ms| ==> Precedes(ms[k], m)
    ensures InOrder(ms + [m])
  {
    hide Precedes;
  }

  lemma {:induction false} AreChained(ms: seq<Member>, a: Member, b: Member, c: Member)
    requires Consistent(ms) && a in ms && b in ms && c in ms
    ensures Chained(a, b, c) && Asymmetric(a, b)
  {
    hide Chained, Asymmetric;
  }

  lemma {:induction false} SubConsistent(ms: seq<Member>, part: seq<Member>)
    requires Consistent(ms) && forall m :: m in part ==> m in ms
    ensures Consistent(part)
  {
    hide Chained, Asymmetric;
  }

  ghost predicate Distinct(ms: seq<Member>) {
    forall k, l :: 0 <= k < l < |ms| ==> ms[k] != ms[l]
  }

  lemma {:induction false} SortIs(ms: seq<Member>)
    requires Consistent(ms) && Distinct(ms)
    ensures multiset(Sort(ms)) == multiset(ms) && InOrder(Sort(ms))
  {
    hide Insert, Consistent;
    SortElements(ms);
    if ms != [] {
      var n := |ms| - 1;
      SubConsistent(ms, ms[..n]);
      SortIs(ms[..n]);
      var r := Sort(ms[..n]);
      SortElements(ms[..n]);
      assert ms == ms[..n] + [ms[n]];
      assert ms[n] !in ms[..n];
      SubConsistent(ms, r + [ms[n]]);
      InsertInOrder(r, ms[n]);
    }
  }

  lemma {:induction false} AllButLast(a: seq<Member>, x: Member)
    requires a != [] && InOrder(a) && Consistent(a)
    ensures x in a[..|a| - 1] <==> x in a && x != a[|a| - 1]
  {
    hide Precedes;
    var n := |a| - 1;
    assert a == a[..n] + [a[n]];
    forall k | 0 <= k < n
      ensures a[k] != a[n]
    {
      assert Precedes(a[k], a[n]);
      AreChained(a, a[k], a[n], a[n]);
    }
  }

  lemma {:induction false} LastSame(a: seq<Member>, b: seq<Member>)
    requires a != [] && b != [] && InOrder(a) && InOrder(b) && Consistent(a) && forall x :: x in a <==> x in b
    ensures a[|a| - 1] == b[|b| - 1]
  {
    hide Precedes;
    var n, k := |a| - 1, |b| - 1;
    assert a[n] in a && b[k] in b;
    var i :| 0 <= i < |b| && b[i] == a[n];
    var j :| 0 <= j < |a| && a[j] == b[k];
    assert i < k ==> Precedes(b[i], b[k]);
    assert j < n ==> Precedes(a[j], a[n]);
    AreChained(a, a[n], a[j], a[n]);
  }

  lemma {:induction false} OrderUnique(a: seq<Member>, b: seq<Member>)
    requires InOrder(a) && InOrder(b) && Consistent(a) && |a| == |b| && forall x :: x in a <==> x in b
    ensures a == b
  {
    hide Precedes, Consistent;
    if a != [] {
      var n := |a| - 1;
      LastSame(a, b);
      SubConsistent(a, b);
      forall x
        ensures x in a[..n] <==> x in b[..n]
      {
        AllButLast(a, x);
        AllButLast(b, x);
      }
      SubConsistent(a, a[..n]);
      OrderUnique(a[..n], b[..n]);
      assert a == a[..n] + [a[n]] && b == b[..n] + [b[n]];
    }
  }

  lemma {:induction false} DistinctMultiset(ms: seq<Member>, perm: seq<Member>)
    requires Distinct(ms) && multiset(ms) == multiset(perm)
    ensures Distinct(perm) && |perm| == |ms| && forall m :: m in perm <==> m in ms
  {
    assert |multiset(ms)| == |ms| && |multiset(perm)| == |perm|;
    forall m
      ensures m in perm <==> m in ms
    {
      assert m in perm <==> m in multiset(perm);
    }
    forall k, l | 0 <= k < l < |perm|
      ensures perm[k] != perm[l]
    {
      CountOnce(ms, perm[k]);
      if perm[k] == perm[l] {
        CountTwice(perm, k, l);
      }
    }
  }

  lemma {:induction false} CountOnce(ms: seq<Member>, m: Member)
    requires Distinct(ms)
    ensures multiset(ms)[m] <= 1
  {
    if ms != [] {
      var n := |ms| - 1;
      assert ms == ms[..n] + [ms[n]];
      CountOnce(ms[..n], m);
      assert ms[n] !in ms[..n];
    }
  }

  lemma {:induction false} CountTwice(ms: seq<Member>, k: nat, l: nat)
    requires k < l < |ms| && ms[k] == ms[l]
    ensures multiset(ms)[ms[k]] >= 2
  {
    assert ms == ms[..l] + ms[l..];
    assert ms[..l][k] == ms[k] && ms[l..][0] == ms[l];
    assert multiset(ms) == multiset(ms[..l]) + multiset(ms[l..]);
  }

  /** Whatever order the member list arrives in, every member sorts it the same way. */
  lemma {:induction false} SortOrderIndependent(ms: seq<Member>, perm: seq<Member>)
    requires Consistent(ms) && Distinct(ms) && multiset(ms) == multiset(perm)
    ensures Sort(ms) == Sort(perm)
  {
    hide Sort, Consistent, Distinct, InOrder;
    DistinctMultiset(ms, perm);
    SubConsistent(ms, perm);
    SortIs(ms);
    SortIs(perm);
    SortElements(ms);
    SortElements(perm);
    SubConsistent(ms, Sort(ms));
    OrderUnique(Sort(ms), Sort(perm));
  }

  // ---------------------------------------------------------------------------------------
  // The leader
  // ---------------------------------------------------------------------------------------

  /** Index `a` is newer than `b`: a higher version, or the same version written later. */
  predicate Newer(a: Index, b: Index) {
    a.version > b.version || (a.version == b.version && a.mtime > b.mtime)
  }

  function SelectLeader(idx: seq<Index>): (l: nat)
    requires idx != []
    ensures l < |idx|
    ensures forall i :: 0 <= i < |idx| ==> !Newer(idx[i], idx[l])
    ensures forall i :: 0 <= i < l ==> Newer(idx[l], idx[i])
  {
    var n := |idx| - 1;
    if n == 0 then 0
    else
      var l := SelectLeader(idx[..n]);
      if Newer(idx[n], idx[l]) then n else l
  }

  /** The chosen one has the greatest version, of those the greatest time, and of those comes first. */
  lemma {:induction false} LeaderNewest(idx: seq<Index>, i: nat)
    requires i < |idx|
    ensures var l := SelectLeader(idx);
            && idx[i].version <= idx[l].version
            && (idx[i].version == idx[l].version ==> idx[i].mtime <= idx[l].mtime)
            && (idx[i].version == idx[l].version && idx[i].mtime == idx[l].mtime ==> l <= i)
  {
    hide SelectLeader;
    assert !Newer(idx[i], idx[SelectLeader(idx)]);
  }

  method ChooseLeader(idx: seq<Index>) returns (leader: int)
    ensures idx == [] ==> leader == -1
    ensures idx != [] ==> leader == SelectLeader(idx)
  {
    leader := -1;
    var i := 0;
    while i < |idx|
      invariant 0 <= i <= |idx|
      invariant i == 0 ==> leader == -1
      invariant i > 0 ==> leader == SelectLeader(idx[..i])
    {
      ghost var upto := idx[..i + 1];
      assert upto[..i] == idx[..i];
      if leader < 0 {
        leader := i;
      } else {
        var best := idx[leader];
        if idx[i].version == best.version && idx[i].mtime > best.mtime {
          leader := i;
        } else if idx[i].version > best.version {
          leader := i;
        }
      }
      i := i + 1;
    }
    assert idx[..i] == idx;
  }

  /** The choice is the only one with these properties: a newest index, at the lowest place. */
  lemma {:induction false} LeaderUnique(idx: seq<Index>, l: nat)
    requires l < |idx|
    requires forall i :: 0 <= i < |idx| ==> !Newer(idx[i], idx[l])
    requires forall i :: 0 <= i < l ==> Newer(idx[l], idx[i])
    ensures l == SelectLeader(idx)
  {
    var k := SelectLeader(idx);
    assert !Newer(idx[k], idx[l]) && !Newer(idx[l], idx[k]);
  }

  function States(ms: seq<Member>, state: map<Member, Index>): (r: seq<Index>)
    requires forall k :: 0 <= k < |ms| ==> ms[k] in state
    ensures |r| == |ms|
  {
    seq(|ms|, k requires 0 <= k < |ms| => state[ms[k]])
  }

  ghost predicate Assigns(ms: seq<Member>, state: map<Member, Index>) {
    forall m :: m in ms ==> m in state
  }

  /** The leader, for a member list as it arrives. */
  ghost function LeaderBy(ms: seq<Member>, state: map<Member, Index>): (m: Member)
    requires ms != [] && Assigns(ms, state)
    ensures m in ms
  {
    SortElements(ms);
    assert forall k :: 0 <= k < |Sort(ms)| ==> Sort(ms)[k] in Sort(ms);
    Sort(ms)[SelectLeader(States(Sort(ms), state))]
  }

  /** No index is newer than the leader's, and those ahead of the leader are older. */
  lemma {:induction false} LeaderIs(ms: seq<Member>, state: map<Member, Index>, m: Member)
    requires ms != [] && Assigns(ms, state) && m in ms
    ensures var l := LeaderBy(ms, state); !Newer(state[m], state[l]) && (Ahead(Sort(ms), m, l) && Distinct(ms) ==> Newer(state[l], state[m]))
  {
    hide Newer, Sort;
    SortElements(ms);
    var s := Sort(ms);
    assert forall k :: 0 <= k < |s| ==> s[k] in s;
    var idx := States(s, state);
    var l := SelectLeader(idx);
    var k :| 0 <= k < |s| && s[k] == m;
    assert idx[k] == state[m] && idx[l] == state[s[l]];
    if Ahead(s, m, s[l]) && Distinct(ms) {
      DistinctMultiset(ms, s);
      var i, j :| 0 <= i < j < |s| && s[i] == m && s[j] == s[l];
      assert j == l && i == k;
    }
  }

  /** All members choose the same leader, whatever order the member list arrives in: the newest
      index, and among equals the first in the order of the members. */
  lemma {:induction false} SameLeader(ms: seq<Member>, perm: seq<Member>, state: map<Member, Index>)
    requires Consistent(ms) && Distinct(ms) && multiset(ms) == multiset(perm) && ms != [] && Assigns(ms, state)
    ensures perm != [] && Assigns(perm, state) && LeaderBy(ms, state) == LeaderBy(perm, state)
    ensures var leader := LeaderBy(ms, state);
            forall m :: m in ms ==> !Newer(state[m], state[leader]) && (m != leader && !Newer(state[leader], state[m]) ==> Precedes(leader, m))
  {
    hide Sort, Newer, Precedes, Consistent;
    SortOrderIndependent(ms, perm);
    DistinctMultiset(ms, perm);
    SortIs(ms);
    SortElements(ms);
    var leader := LeaderBy(ms, state);
    forall m | m in ms
      ensures !Newer(state[m], state[leader]) && (m != leader && !Newer(state[leader], state[m]) ==> Precedes(leader, m))
    {
      LeaderIs(ms, state, m);
      if m != leader && !Newer(state[leader], state[m]) {
        OneAhead(Sort(ms), m, leader);
      }
    }
  }

  /** Among newest indexes that are equal, with identifiers within half the range: the lowest node
      and process. */
  lemma {:induction false} LowestOfNewest(ms: seq<Member>, state: map<Member, Index>, m: Member)
    requires (forall a, b :: a in ms && b in ms ==> Close(a, b)) && Distinct(ms) && m in ms && Assigns(ms, state)
    ensures var leader := LeaderBy(ms, state); m != leader && !Newer(state[leader], state[m]) ==> Before(leader, m)
  {
    hide Close, Newer, Consistent;
    CloseConsistent(ms);
    SameLeader(ms, ms, state);
    CompareExact(LeaderBy(ms, state), m);
  }

  // ---------------------------------------------------------------------------------------
  // The order is needed
  // ---------------------------------------------------------------------------------------

  ghost predicate Ahead(ms: seq<Member>, x: Member, y: Member) {
    exists i, j :: 0 <= i < j < |ms| && ms[i] == x && ms[j] == y
  }

  lemma {:induction false} OneAhead(ms: seq<Member>, x: Member, y: Member)
    requires x in ms && y in ms && x != y && InOrder(ms)
    ensures Ahead(ms, x, y) || Precedes(y, x)
  {
    hide Precedes;
    var i :| 0 <= i < |ms| && ms[i] == x;
    var j :| 0 <= j < |ms| && ms[j] == y;
  }

  lemma {:induction false} AheadMore(ms: seq<Member>, m: Member, x: Member, y: Member)
    requires Ahead(ms, x, y) || (x in ms && y == m)
    ensures Ahead(ms + [m], x, y)
  {
    var r := ms + [m];
    if Ahead(ms, x, y) {
      var i, j :| 0 <= i < j < |ms| && ms[i] == x && ms[j] == y;
      assert r[i] == x && r[j] == y;
    } else {
      var i :| 0 <= i < |ms| && ms[i] == x;
      assert r[i] == x && r[|ms|] == y;
    }
  }

  lemma {:induction false} AheadLess(ms: seq<Member>, x: Member, y: Member)
    requires Ahead(ms, x, y)
    ensures var n := |ms| - 1; n >= 0 && (Ahead(ms[..n], x, y) || (x in ms[..n] && y == ms[n]))
  {
    var i, j :| 0 <= i < j < |ms| && ms[i] == x && ms[j] == y;
    var n := |ms| - 1;
    assert ms[..n][i] == x && (j < n ==> ms[..n][j] == y);
  }

  lemma {:induction false} InsertKeeps(ms: seq<Member>, m: Member, x: Member)
    requires x in ms
    ensures x in Insert(ms, m)
  {
    hide Insert;
    InsertElements(ms, m);
    assert x in multiset(ms);
    assert x in multiset(Insert(ms, m));
  }

  lemma {:induction false} InsertAhead(ms: seq<Member>, m: Member, x: Member, y: Member)
    requires Ahead(ms, x, y)
    ensures Ahead(Insert(ms, m), x, y)
  {
    hide Compare, Ahead;
    AheadLess(ms, x, y);
    var n := |ms| - 1;
    if Compare(ms[n], m) <= 0 {
      AheadMore(ms, m, x, y);
    } else {
      if Ahead(ms[..n], x, y) {
        InsertAhead(ms[..n], m, x, y);
      } else {
        InsertKeeps(ms[..n], m, x);
      }
      AheadMore(Insert(ms[..n], m), ms[n], x, y);
    }
  }

  /** What comes later does not change the order of what is sorted. */
  lemma {:induction false} SortAhead(a: seq<Member>, b: seq<Member>, x: Member, y: Member)
    requires Ahead(Sort(a), x, y)
    ensures Ahead(Sort(a + b), x, y)
    decreases |b|
  {
    hide Insert, Ahead;
    if b == [] {
      assert a + b == a;
    } else {
      var n := |b| - 1;
      assert (a + b)[..|a + b| - 1] == a + b[..n];
      SortAhead(a, b[..n], x, y);
      InsertAhead(Sort(a + b[..n]), b[n], x, y);
    }
  }

  lemma {:induction false} SortTwo(a: Member, b: Member)
    requires Precedes(a, b)
    ensures Sort([a, b]) == [a, b]
  {
    hide Compare;
    assert [a, b][..1] == [a] && [a][..0] == [];
    assert Sort([a]) == [a];
  }

  lemma {:induction false} SortThree(a: Member, b: Member, c: Member)
    requires Precedes(a, b) && Precedes(b, c)
    ensures Sort([a, b, c]) == [a, b, c]
  {
    hide Compare;
    SortTwo(a, b);
    assert [a, b, c][..2] == [a, b];
  }

  function Without(ms: seq<Member>, m: Member): seq<Member> {
    if ms == [] then []
    else if ms[0] == m then ms[1..]
    else [ms[0]] + Without(ms[1..], m)
  }

  lemma {:induction false} WithoutIs(ms: seq<Member>, m: Member)
    requires m in ms
    ensures multiset(ms) == multiset(Without(ms, m)) + multiset{m}
    ensures forall x :: x in ms && x != m ==> x in Without(ms, m)
  {
    assert ms == [ms[0]] + ms[1..];
    if ms[0] != m {
      WithoutIs(ms[1..], m);
    }
  }

  /** `top` for the members given, `low` for the others. */
  function Raised(ms: seq<Member>, few: seq<Member>, top: Index, low: Index): map<Member, Index> {
    map m | m in ms :: if m in few then top else low
  }

  const TOP: Index := Index(2, 0, 0, 0, [])
  const LOW: Index := Index(1, 0, 0, 0, [])

  /** If a member of `few` is ahead of the others of `few`, it is the leader. */
  lemma {:induction false} FirstLeads(ms: seq<Member>, all: seq<Member>, few: seq<Member>, x: Member)
    requires Distinct(ms) && ms != [] && (forall m :: m in ms <==> m in all) && x in few && x in ms
    requires forall m :: m in few && m in ms && m != x ==> Ahead(Sort(ms), x, m)
    ensures Assigns(ms, Raised(all, few, TOP, LOW)) && LeaderBy(ms, Raised(all, few, TOP, LOW)) == x
  {
    hide Sort, Ahead;
    var state := Raised(all, few, TOP, LOW);
    var l := LeaderBy(ms, state);
    LeaderIs(ms, state, x);
    assert l in few;
  }

  /** Two arrangements of the same members that begin differently. */
  lemma {:induction false} LeadersDiffer(ms: seq<Member>, few: seq<Member>, rest: seq<Member>, p: seq<Member>, q: seq<Member>)
    requires Distinct(ms) && multiset(ms) == multiset(few) + multiset(rest)
    requires |few| > 0 && multiset(p) == multiset(few) == multiset(q) && p != [] && q != [] && Sort(p) == p && Sort(q) == q && p[0] != q[0]
    ensures var a, b, state := p + rest, q + rest, Raised(ms, few, TOP, LOW);
            && multiset(a) == multiset(ms) == multiset(b) && Assigns(ms, state) && Assigns(a, state) && Assigns(b, state)
            && LeaderBy(a, state) != LeaderBy(b, state)
  {
    hide Sort, Ahead;
    ArrangementLeads(ms, few, rest, p);
    ArrangementLeads(ms, few, rest, q);
  }

  lemma {:induction false} ArrangementLeads(ms: seq<Member>, few: seq<Member>, rest: seq<Member>, p: seq<Member>)
    requires Distinct(ms) && multiset(ms) == multiset(few) + multiset(rest)
    requires multiset(p) == multiset(few) && p != [] && Sort(p) == p
    ensures var a, state := p + rest, Raised(ms, few, TOP, LOW);
            multiset(a) == multiset(ms) && Assigns(a, state) && LeaderBy(a, state) == p[0]
  {
    hide Sort;
    var a := p + rest;
    DistinctMultiset(ms, a);
    assert a[0] == p[0];
    forall m | m in few && m in a && m != p[0]
      ensures Ahead(Sort(a), p[0], m)
    {
      assert m in multiset(p);
      var k :| 0 <= k < |p| && p[k] == m;
      assert Ahead(Sort(p), p[0], m);
      SortAhead(p, rest, p[0], m);
    }
    assert p[0] in multiset(p);
    assert p[0] in few;
    FirstLeads(a, ms, few, p[0]);
  }

  /** Every order of the member list, for all the indexes members may have, gives one leader. */
  ghost predicate OneLeader(ms: seq<Member>) {
    forall a, b, state :: Agrees(ms, a, b, state)
  }

  ghost predicate Agrees(ms: seq<Member>, a: seq<Member>, b: seq<Member>, state: map<Member, Index>) {
    multiset(a) == multiset(ms) == multiset(b) && a != [] && b != [] && Assigns(a, state) && Assigns(b, state) ==>
      LeaderBy(a, state) == LeaderBy(b, state)
  }

  lemma {:induction false} TwoDiffer(ms: seq<Member>, x: Member, y: Member)
    requires Distinct(ms) && x in ms && y in ms && x != y && Precedes(x, y) && Precedes(y, x)
    ensures !OneLeader(ms)
  {
    hide Sort, Precedes, LeaderBy, Without;
    WithoutIs(ms, x);
    WithoutIs(Without(ms, x), y);
    var rest := Without(Without(ms, x), y);
    SortTwo(x, y);
    SortTwo(y, x);
    LeadersDiffer(ms, [x, y], rest, [x, y], [y, x]);
    assert !Agrees(ms, [x, y] + rest, [y, x] + rest, Raised(ms, [x, y], TOP, LOW));
  }

  lemma {:induction false} ThreeDiffer(ms: seq<Member>, x: Member, y: Member, z: Member)
    requires Distinct(ms) && x in ms && y in ms && z in ms && x != y && y != z && z != x
    requires Precedes(x, y) && Precedes(y, z) && Precedes(z, x)
    ensures !OneLeader(ms)
  {
    hide Sort, Precedes, LeaderBy, Without;
    WithoutIs(ms, x);
    WithoutIs(Without(ms, x), y);
    WithoutIs(Without(Without(ms, x), y), z);
    var rest := Without(Without(Without(ms, x), y), z);
    SortThree(x, y, z);
    SortThree(y, z, x);
    LeadersDiffer(ms, [x, y, z], rest, [x, y, z], [y, z, x]);
    assert !Agrees(ms, [x, y, z] + rest, [y, z, x] + rest, Raised(ms, [x, y, z], TOP, LOW));
  }

  /** The members choose one leader, in whatever orders their lists arrive and whatever their
      indexes are, exactly if the comparison orders them. */
  lemma {:induction false} LeaderExact(ms: seq<Member>)
    requires Distinct(ms)
    ensures OneLeader(ms) <==> Consistent(ms)
  {
    hide Compare, LeaderBy, Distinct;
    if Consistent(ms) {
      forall a, b, state
        ensures Agrees(ms, a, b, state)
      {
        ConsistentAgrees(ms, a, b, state);
      }
    } else if a, b :| a in ms && b in ms && !Asymmetric(a, b) {
      NotSelf(a);
      TwoDiffer(ms, a, b);
    } else {
      var a, b, c :| a in ms && b in ms && c in ms && !Chained(a, b, c);
      assert Asymmetric(a, b) && Asymmetric(b, c);
      NotSelf(a);
      NotSelf(b);
      OnePrecedes(a, c);
      ThreeDiffer(ms, a, b, c);
    }
  }

  lemma {:induction false} ConsistentAgrees(ms: seq<Member>, a: seq<Member>, b: seq<Member>, state: map<Member, Index>)
    requires Distinct(ms) && Consistent(ms)
    ensures Agrees(ms, a, b, state)
  {
    hide LeaderBy, Distinct, Consistent;
    if multiset(a) == multiset(ms) == multiset(b) && a != [] && b != [] && Assigns(a, state) && Assigns(b, state) {
      DistinctMultiset(ms, a);
      SubConsistent(ms, a);
      SameLeader(a, b, state);
    }
  }

  lemma {:induction false} NotSelf(a: Member)
    ensures !Precedes(a, a)
  {
    assert Narrow(0) == 0;
  }

  /** Three members beyond half the range, in a circle: each precedes the next, the list sorts as
      it arrives, and there is no one leader. */
  lemma {:induction false} CompareCycle()
    ensures var a, b, c := Member(0, 0), Member(0x6000_0000, 0), Member(0xC000_0000, 0);
            && Precedes(a, b) && Precedes(b, c) && Precedes(c, a)
            && Sort([a, b, c]) == [a, b, c] && Sort([b, c, a]) == [b, c, a] && !OneLeader([a, b, c])
  {
    var a, b, c := Member(0, 0), Member(0x6000_0000, 0), Member(0xC000_0000, 0);
    assert (0 - 0x6000_0000) % 0x1_0000_0000 == 0xA000_0000;
    hide Narrow, OneLeader, Sort;
    SortThree(a, b, c);
    SortThree(b, c, a);
    ThreeDiffer([a, b, c], a, b, c);
  }
}
