/** The cluster log of `logger.c`: entries of varying size in a byte buffer, each linked to the
    one before it by its offset; when the end is reached allocation starts over at the front.

    The proofs describe the buffer by two laps: `cur`, the entries written since allocation last
    started over, and `prior`, those of the lap before, the first of which are overwritten. */
module ClusterLog {
  import opened Bytes

  const BASE_SIZE: nat := 8
  const ENTRY_HEADER: nat := 48
  const MAX_ENTRY_SIZE: nat := 4096
  const DEFAULT_SIZE: nat := 131072

  /** The bytes of an entry after its `prev` and `next` fields. */
  type Body = seq<byte>

  /** The size an entry declares through its four length fields. */
  function EntrySize(b: Body): nat
    requires |b| >= 36
  {
    ENTRY_HEADER + b[29] as nat + b[30] as nat + b[31] as nat + FromLE32(b[32..36])
  }

  function EntryTime(b: Body): nat
    requires |b| >= 36
  {
    FromLE32(b[4..8])
  }

  /** A body that is as long as it declares. */
  predicate WholeBody(b: Body) {
    |b| >= 36 && 8 + |b| == EntrySize(b)
  }

  predicate Storable(b: Body) {
    WholeBody(b) && ENTRY_HEADER < 8 + |b| <= MAX_ENTRY_SIZE
  }

  function RealSize(size: nat): (r: nat)
    ensures size <= r < size + 8 && r % 8 == 0
  {
    (size + 7) / 8 * 8
  }

  function Room(b: Body): (r: nat)
    ensures 8 + |b| <= r < 16 + |b| && r % 8 == 0
    ensures 8 + |b| <= MAX_ENTRY_SIZE ==> r <= MAX_ENTRY_SIZE
  {
    RealSize(8 + |b|)
  }

  function ReadU32(m: seq<byte>, p: nat): nat
    requires p + 4 <= |m|
  {
    FromLE32(m[p..p + 4])
  }

  /** The entries a log takes: the lengths of the three strings at 37, 38 and 39 and that of the
      text at 40, counted from the start of the entry, add up to what follows its 48 bytes of
      header, and that is something and no more than 4096 bytes in all. */
  lemma {:induction false} StorableExact(b: Body)
    ensures Storable(b) <==>
            && |b| >= 36 && 48 < 8 + |b| <= 4096
            && 8 + |b| == 48 + b[29] as nat + b[30] as nat + b[31] as nat
                          + b[32] as nat + 0x100 * b[33] as nat + 0x1_0000 * b[34] as nat + 0x100_0000 * b[35] as nat
    ensures |b| >= 36 ==> EntryTime(b) == b[4] as nat + 0x100 * b[5] as nat + 0x1_0000 * b[6] as nat + 0x100_0000 * b[7] as nat
  {
  }

  // ---------------------------------------------------------------------------------------
  // Laps
  // ---------------------------------------------------------------------------------------

  datatype Slot = Slot(pos: nat, body: Body) {
    function End(): nat {
      pos + Room(body)
    }
  }

  function EndOf(lap: seq<Slot>): nat {
    if lap == [] then BASE_SIZE else lap[|lap| - 1].End()
  }

  predicate InPlace(lap: seq<Slot>, i: nat)
    requires i < |lap|
  {
    Storable(lap[i].body) && lap[i].pos == if i == 0 then BASE_SIZE else lap[i - 1].End()
  }

  /** Entries side by side from the front of a buffer of `size` bytes. */
  ghost predicate Lap(lap: seq<Slot>, size: nat) {
    (forall i :: 0 <= i < |lap| ==> InPlace(lap, i)) && EndOf(lap) < size
  }

  ghost predicate Stored(m: seq<byte>, s: Slot, prev: nat) {
    && s.End() <= |m|
    && m[s.pos..s.pos + 4] == LE32(prev)
    && m[s.pos + 4..s.pos + 8] == LE32(s.End())
    && m[s.pos + 8..s.pos + 8 + |s.body|] == s.body
  }

  function PrevOf(prior: seq<Slot>, cur: seq<Slot>, i: nat): nat
    requires i < |cur|
  {
    if i > 0 then cur[i - 1].pos else if prior == [] then 0 else prior[|prior| - 1].pos
  }

  ghost predicate CurrentStored(m: seq<byte>, prior: seq<Slot>, cur: seq<Slot>, i: nat)
    requires i < |cur|
  {
    Stored(m, cur[i], PrevOf(prior, cur, i))
  }

  ghost predicate PriorStored(m: seq<byte>, prior: seq<Slot>, i: nat)
    requires 0 < i < |prior|
  {
    Stored(m, prior[i], prior[i - 1].pos)
  }

  /** The buffer `m` with current position `cpos` holds lap `cur` in full and of lap `prior` what
      `cur` has not overwritten. */
  ghost predicate Rep(size: nat, cpos: nat, m: seq<byte>, prior: seq<Slot>, cur: seq<Slot>) {
    && 10 * MAX_ENTRY_SIZE <= size && size + MAX_ENTRY_SIZE < 0x1_0000_0000 && |m| == size
    && Lap(prior, size) && Lap(cur, size)
    && (cur == [] ==> prior == [] && cpos == 0)
    && (cur != [] ==> cpos == cur[|cur| - 1].pos)
    && (prior != [] ==> EndOf(prior) + Room(cur[0].body) >= size)
    && (forall i :: 0 <= i < |cur| ==> CurrentStored(m, prior, cur, i))
    && (forall i :: 0 < i < |prior| && prior[i].pos >= EndOf(cur) ==> PriorStored(m, prior, i))
  }

  /** Entries of a lap follow each other. */
  lemma {:induction false} LapOrder(lap: seq<Slot>, size: nat, i: nat, j: nat)
    requires Lap(lap, size) && i <= j < |lap|
    ensures BASE_SIZE <= lap[i].pos <= lap[j].pos
    ensures i < j ==> lap[i].End() <= lap[j].pos
    decreases j
  {
    hide Room, Storable;
    assert InPlace(lap, j);
    if 0 < j {
      LapOrder(lap, size, if i < j then i else j - 1, j - 1);
    }
  }

  lemma {:induction false} LapBound(lap: seq<Slot>, size: nat, i: nat)
    requires Lap(lap, size) && i < |lap|
    ensures BASE_SIZE <= lap[i].pos && lap[i].End() <= EndOf(lap) < size
  {
    LapOrder(lap, size, i, |lap| - 1);
  }

  // ---------------------------------------------------------------------------------------
  // Insertion
  // ---------------------------------------------------------------------------------------

  /** Where `clog_alloc_entry` puts an entry of `room` bytes. */
  function AllocPos(size: nat, cpos: nat, m: seq<byte>, room: nat): nat
    requires cpos + 8 <= |m|
  {
    if cpos == 0 then BASE_SIZE else
      var next := ReadU32(m, cpos + 4);
      if next + room >= size then BASE_SIZE else next
  }

  /** The buffer after `clog_copy` wrote header and body. */
  function Put(m: seq<byte>, pos: nat, prev: nat, body: Body): (r: seq<byte>)
    requires pos + 8 + |body| <= |m|
    ensures |r| == |m|
  {
    m[..pos] + LE32(prev) + LE32(pos + Room(body)) + body + m[pos + 8 + |body|..]
  }

  lemma {:induction false} PutStores(m: seq<byte>, s: Slot, prev: nat)
    requires s.End() <= |m|
    ensures Stored(Put(m, s.pos, prev, s.body), s, prev)
  {
    hide LE32, Room;
    var r := Put(m, s.pos, prev, s.body);
    assert r[s.pos..s.pos + 4] == LE32(prev);
    assert r[s.pos + 4..s.pos + 8] == LE32(s.End());
    assert r[s.pos + 8..s.pos + 8 + |s.body|] == s.body;
  }

  /** An entry outside the bytes written keeps its contents. */
  lemma {:induction false} PutKeeps(m: seq<byte>, pos: nat, prev: nat, body: Body, s: Slot, prevS: nat)
    requires pos + Room(body) <= |m| && Stored(m, s, prevS)
    requires s.End() <= pos || pos + Room(body) <= s.pos
    ensures Stored(Put(m, pos, prev, body), s, prevS)
  {
    hide LE32, Room;
    var r := Put(m, pos, prev, body);
    assert forall x :: s.pos <= x < s.End() ==> r[x] == m[x];
    assert r[s.pos..s.pos + 4] == m[s.pos..s.pos + 4];
    assert r[s.pos + 4..s.pos + 8] == m[s.pos + 4..s.pos + 8];
    assert r[s.pos + 8..s.pos + 8 + |s.body|] == m[s.pos + 8..s.pos + 8 + |s.body|];
  }

  /** The `next` field of the current entry is the end of the current lap. */
  lemma {:induction false} NextIsEnd(size: nat, cpos: nat, m: seq<byte>, prior: seq<Slot>, cur: seq<Slot>)
    requires Rep(size, cpos, m, prior, cur)
    ensures cpos + 8 <= |m|
    ensures cur != [] ==> cpos >= BASE_SIZE && ReadU32(m, cpos + 4) == EndOf(cur)
  {
    hide LE32, FromLE32;
    if cur != [] {
      var i := |cur| - 1;
      LapOrder(cur, size, i, i);
      assert CurrentStored(m, prior, cur, i);
      LE32RoundTrip(EndOf(cur));
      assert m[cpos + 4..cpos + 4 + 4] == LE32(EndOf(cur));
    }
  }

  /** The laps after an insertion: the entry extends the current lap or opens a new one. */
  function Laps(size: nat, prior: seq<Slot>, cur: seq<Slot>, b: Body): (r: (seq<Slot>, seq<Slot>)) {
    if cur == [] || EndOf(cur) + Room(b) < size then
      (prior, cur + [Slot(EndOf(cur), b)])
    else
      (cur, [Slot(BASE_SIZE, b)])
  }

  lemma {:induction false} InsertExtends(size: nat, cpos: nat, m: seq<byte>, prior: seq<Slot>, cur: seq<Slot>, b: Body)
    requires Rep(size, cpos, m, prior, cur) && Storable(b)
    requires cur == [] || EndOf(cur) + Room(b) < size
    ensures cpos + 8 <= |m| && AllocPos(size, cpos, m, Room(b)) == EndOf(cur)
    ensures EndOf(cur) + Room(b) < size
    ensures Rep(size, EndOf(cur), Put(m, EndOf(cur), cpos, b), prior, cur + [Slot(EndOf(cur), b)])
  {
    hide LE32, WholeBody, ReadU32, Put, Stored;
    NextIsEnd(size, cpos, m, prior, cur);
    var s := Slot(EndOf(cur), b);
    var cur' := cur + [s];
    var m' := Put(m, s.pos, cpos, b);
    PutStores(m, s, cpos);
    forall i | 0 <= i < |cur'|
      ensures CurrentStored(m', prior, cur', i) && InPlace(cur', i)
    {
      if i < |cur| {
        assert InPlace(cur, i) && CurrentStored(m, prior, cur, i);
        LapBound(cur, size, i);
        PutKeeps(m, s.pos, cpos, b, cur[i], PrevOf(prior, cur, i));
      }
    }
    forall i | 0 < i < |prior| && prior[i].pos >= EndOf(cur')
      ensures PriorStored(m', prior, i)
    {
      assert PriorStored(m, prior, i);
      PutKeeps(m, s.pos, cpos, b, prior[i], prior[i - 1].pos);
    }
  }

  lemma {:induction false} InsertWraps(size: nat, cpos: nat, m: seq<byte>, prior: seq<Slot>, cur: seq<Slot>, b: Body)
    requires Rep(size, cpos, m, prior, cur) && Storable(b)
    requires cur != [] && EndOf(cur) + Room(b) >= size
    ensures cpos + 8 <= |m| && AllocPos(size, cpos, m, Room(b)) == BASE_SIZE
    ensures Rep(size, BASE_SIZE, Put(m, BASE_SIZE, cpos, b), cur, [Slot(BASE_SIZE, b)])
  {
    hide LE32, ReadU32, WholeBody, Put, Stored;
    NextIsEnd(size, cpos, m, prior, cur);
    var s := Slot(BASE_SIZE, b);
    var m' := Put(m, BASE_SIZE, cpos, b);
    PutStores(m, s, cpos);
    forall i | 0 < i < |cur| && cur[i].pos >= EndOf([s])
      ensures PriorStored(m', cur, i)
    {
      assert CurrentStored(m, prior, cur, i);
      PutKeeps(m, BASE_SIZE, cpos, b, cur[i], cur[i - 1].pos);
    }
  }

  // ---------------------------------------------------------------------------------------
  // The backward walk
  // ---------------------------------------------------------------------------------------

  /** The loop condition of every walk. */
  predicate InWalk(cpos: nat, p: nat) {
    p != 0 && (p <= cpos || p > cpos + MAX_ENTRY_SIZE)
  }

  /** The exit after visiting `p`: the link leads into bytes the current lap has reused. */
  predicate LandsInReused(cpos: nat, p: nat, prev: nat) {
    p < prev && prev <= cpos
  }

  /** Number of entries at the start of a lap that lie at or before `limit`. */
  function Passed(lap: seq<Slot>, limit: nat): (k: nat)
    ensures k <= |lap|
    ensures k > 0 ==> lap[k - 1].pos <= limit
    ensures forall i :: k <= i < |lap| ==> lap[i].pos > limit
  {
    if lap == [] then 0
    else if lap[|lap| - 1].pos <= limit then |lap|
    else Passed(lap[..|lap| - 1], limit)
  }

  /** How many entries of `prior + cur` the walk does not reach. */
  function Lost(cpos: nat, prior: seq<Slot>, cur: seq<Slot>): (k: nat)
    ensures k <= |prior|
  {
    Passed(prior, cpos + MAX_ENTRY_SIZE)
  }

  function Linked(all: seq<Slot>, g: nat): nat
    requires 0 < g <= |all|
  {
    if g == 1 then 0 else all[g - 2].pos
  }

  /** A lap that was abandoned is nearly full, so its last entry is far from the front. */
  lemma {:induction false} PriorIsLong(size: nat, cpos: nat, m: seq<byte>, prior: seq<Slot>, cur: seq<Slot>)
    requires Rep(size, cpos, m, prior, cur) && prior != []
    ensures |prior| > 1 && prior[|prior| - 1].pos > BASE_SIZE
  {
    hide Stored, WholeBody;
    assert InPlace(prior, |prior| - 1) && InPlace(cur, 0);
  }

  /** One turn of the walk, counted from the oldest entry: entry `g - 1` is intact, and the walk
      goes on from it exactly when the entry before it is still reached. */
  ghost predicate Turn(cpos: nat, m: seq<byte>, s: Slot, q: nat, more: bool) {
    && Stored(m, s, q) && Storable(s.body) && InWalk(cpos, s.pos)
    && (more <==> InWalk(cpos, q) && !LandsInReused(cpos, s.pos, q))
  }

  lemma {:induction false} TurnInCurrent(size: nat, cpos: nat, m: seq<byte>, prior: seq<Slot>, cur: seq<Slot>, j: nat)
    requires Rep(size, cpos, m, prior, cur) && j < |cur|
    ensures Turn(cpos, m, cur[j], PrevOf(prior, cur, j), j > 0 || Lost(cpos, prior, cur) < |prior|)
  {
    hide Stored, WholeBody, Passed, Room;
    assert InPlace(cur, j) && CurrentStored(m, prior, cur, j);
    LapOrder(cur, size, j, |cur| - 1);
    if j > 0 {
      LapOrder(cur, size, j - 1, j);
    } else if prior != [] {
      PriorIsLong(size, cpos, m, prior, cur);
    }
  }

  lemma {:induction false} TurnInPrior(size: nat, cpos: nat, m: seq<byte>, prior: seq<Slot>, cur: seq<Slot>, j: nat)
    requires Rep(size, cpos, m, prior, cur)
    requires Lost(cpos, prior, cur) <= j < |prior|
    ensures j > 0 && Turn(cpos, m, prior[j], prior[j - 1].pos, j > Lost(cpos, prior, cur))
  {
    hide Stored, WholeBody, Passed;
    assert InPlace(cur, |cur| - 1) && InPlace(prior, j);
    LapOrder(cur, size, 0, |cur| - 1);
    assert InPlace(prior, j - 1) && PriorStored(m, prior, j);
    LapOrder(prior, size, j - 1, j);
  }

  lemma {:induction false} WalkTurn(size: nat, cpos: nat, m: seq<byte>, prior: seq<Slot>, cur: seq<Slot>, g: nat)
    requires Rep(size, cpos, m, prior, cur)
    requires Lost(cpos, prior, cur) < g <= |prior + cur|
    ensures Turn(cpos, m, (prior + cur)[g - 1], Linked(prior + cur, g), g - 1 > Lost(cpos, prior, cur))
  {
    hide Turn, Passed, Rep;
    if g > |prior| {
      TurnInCurrent(size, cpos, m, prior, cur, g - 1 - |prior|);
    } else {
      TurnInPrior(size, cpos, m, prior, cur, g - 1);
    }
  }

  // ---------------------------------------------------------------------------------------
  // Sizes
  // ---------------------------------------------------------------------------------------

  function Bodies(ss: seq<Slot>): (bs: seq<Body>)
    ensures |bs| == |ss|
    ensures forall i :: 0 <= i < |ss| ==> bs[i] == ss[i].body
  {
    seq(|ss|, i requires 0 <= i < |ss| => ss[i].body)
  }

  /** Bytes that the entries `bs` take in a buffer. */
  function Total(bs: seq<Body>): nat {
    if bs == [] then 0 else Total(bs[..|bs| - 1]) + Room(bs[|bs| - 1])
  }

  lemma {:induction false} TotalAppend(a: seq<Body>, b: seq<Body>)
    ensures Total(a + b) == Total(a) + Total(b)
  {
    hide Room;
    if b == [] {
      assert a + b == a;
    } else {
      var n := |b| - 1;
      TotalAppend(a, b[..n]);
      assert (a + b)[..|a + b| - 1] == a + b[..n];
    }
  }

  /** Entries side by side take the distance from the first to the end. */
  lemma {:induction false} LapTotal(lap: seq<Slot>, size: nat, i: nat)
    requires Lap(lap, size) && i < |lap|
    ensures lap[i].pos + Total(Bodies(lap[i..])) == EndOf(lap)
    decreases |lap| - i
  {
    hide Room, Storable;
    var bs := Bodies(lap[i..]);
    assert bs == [lap[i].body] + Bodies(lap[i + 1..]);
    TotalAppend([lap[i].body], Bodies(lap[i + 1..]));
    assert [lap[i].body][..0] == [];
    if i + 1 < |lap| {
      assert InPlace(lap, i + 1);
      LapTotal(lap, size, i + 1);
    }
  }

  /** What a walk visits. */
  function Visited(cpos: nat, prior: seq<Slot>, cur: seq<Slot>): seq<Body> {
    Bodies((prior + cur)[Lost(cpos, prior, cur)..])
  }

  /** The room from entry `k` of a lap to its end. */
  function TailRoom(lap: seq<Slot>, k: nat): int {
    if k < |lap| then EndOf(lap) - lap[k].pos else 0
  }

  lemma {:induction false} VisitedTotal(size: nat, cpos: nat, prior: seq<Slot>, cur: seq<Slot>)
    requires Lap(prior, size) && Lap(cur, size) && cur != []
    ensures Total(Visited(cpos, prior, cur)) == EndOf(cur) - BASE_SIZE + TailRoom(prior, Lost(cpos, prior, cur))
  {
    hide Storable, Total, Room, Lap;
    var k := Lost(cpos, prior, cur);
    assert Visited(cpos, prior, cur) == Bodies(prior[k..]) + Bodies(cur);
    TotalAppend(Bodies(prior[k..]), Bodies(cur));
    assert cur[0..] == cur;
    LapTotal(cur, size, 0);
    LapSlot(cur, size, 0);
    if k < |prior| {
      LapTotal(prior, size, k);
    } else {
      assert Bodies(prior[k..]) == [];
      TotalAppend([], []);
    }
  }

  /** Where the entries of a lap are, and that each fits the maximal size. */
  lemma {:induction false} LapSlot(lap: seq<Slot>, size: nat, i: nat)
    requires Lap(lap, size) && i < |lap|
    ensures lap[i].pos == if i == 0 then BASE_SIZE else lap[i - 1].End()
    ensures lap[i].pos < lap[i].End() <= lap[i].pos + MAX_ENTRY_SIZE
    ensures EndOf(lap) < size
  {
    assert InPlace(lap, i);
  }

  /** The visited entries fit into an empty buffer of the same size without starting over. */
  lemma {:induction false} VisitedFits(size: nat, cpos: nat, m: seq<byte>, prior: seq<Slot>, cur: seq<Slot>)
    requires Rep(size, cpos, m, prior, cur)
    ensures BASE_SIZE + Total(Visited(cpos, prior, cur)) < size
  {
    hide Lap, CurrentStored, PriorStored, Room, Total, Visited;
    var k := Lost(cpos, prior, cur);
    if cur == [] {
      NothingVisited(cpos);
    } else {
      VisitedTotal(size, cpos, prior, cur);
      LapSlot(cur, size, |cur| - 1);
      if k < |prior| {
        LapSlot(prior, size, |prior| - 1);
      }
    }
  }

  lemma {:induction false} NothingVisited(cpos: nat)
    ensures Total(Visited(cpos, [], [])) == 0
  {
  }

  /** A selection of entries, in any order, takes no more room than all of them. */
  lemma {:induction false} TotalSelection(sel: seq<Body>, all: seq<Body>)
    requires multiset(sel) <= multiset(all)
    ensures Total(sel) <= Total(all)
    decreases |sel|
  {
    hide Room;
    if sel != [] {
      var n := |sel| - 1;
      var x := sel[n];
      assert sel == sel[..n] + [x];
      assert x in multiset(sel);
      assert x in all;
      var j :| 0 <= j < |all| && all[j] == x;
      var rest := all[..j] + all[j + 1..];
      assert all == all[..j] + [x] + all[j + 1..];
      assert multiset(rest) == multiset(all) - multiset{x};
      TotalSelection(sel[..n], rest);
      TotalAppend(all[..j], [x]);
      TotalAppend(all[..j] + [x], all[j + 1..]);
      TotalAppend(all[..j], all[j + 1..]);
      assert [x][..0] == [];
    }
  }

  /** Once allocation has started over, a walk still reaches entries that fill the buffer up to
      the room of three entries of maximal size. */
  lemma {:induction false} VisitedRetains(size: nat, cpos: nat, m: seq<byte>, prior: seq<Slot>, cur: seq<Slot>)
    requires Rep(size, cpos, m, prior, cur) && prior != []
    ensures Total(Visited(cpos, prior, cur)) + BASE_SIZE + 3 * MAX_ENTRY_SIZE >= size
  {
    hide Lap, CurrentStored, PriorStored, Room, Total, Visited;
    var k := Lost(cpos, prior, cur);
    VisitedTotal(size, cpos, prior, cur);
    LapSlot(cur, size, 0);
    LapSlot(cur, size, |cur| - 1);
    assert Room(cur[0].body) == cur[0].End() - cur[0].pos;
    LapSlot(prior, size, |prior| - 1);
    if k < |prior| {
      LapSlot(prior, size, k);
    }
    if k > 0 {
      LapSlot(prior, size, k - 1);
    }
  }

  /** The declared size read through the length fields in the buffer. */
  function EntrySizeAt(m: seq<byte>, p: nat): nat
    requires p + 44 <= |m|
  {
    ENTRY_HEADER + m[p + 37] as nat + m[p + 38] as nat + m[p + 39] as nat + FromLE32(m[p + 40..p + 44])
  }

  lemma {:induction false} StoredReads(m: seq<byte>, s: Slot, prev: nat)
    requires Stored(m, s, prev) && Storable(s.body) && prev < 0x1_0000_0000
    ensures s.pos + 44 <= |m| && EntrySizeAt(m, s.pos) == 8 + |s.body|
    ensures s.pos + 8 + |s.body| <= |m| && m[s.pos + 8..s.pos + 8 + |s.body|] == s.body
    ensures ReadU32(m, s.pos) == prev
    ensures s.End() < 0x1_0000_0000 ==> ReadU32(m, s.pos + 4) == s.End()
  {
    hide LE32, FromLE32;
    var p, b := s.pos, s.body;
    assert m[p + 4..p + 4 + 4] == LE32(s.End());
    if s.End() < 0x1_0000_0000 {
      LE32RoundTrip(s.End());
    }
    assert m[p + 8 + 29] == b[29] && m[p + 8 + 30] == b[30] && m[p + 8 + 31] == b[31];
    assert forall i :: 0 <= i < |b| ==> b[i] == m[p + 8..p + 8 + |b|][i] == m[p + 8 + i];
    assert m[p + 40..p + 44] == b[32..36];
    LE32RoundTrip(prev);
  }
}
