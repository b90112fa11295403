/** `clog_base_t` as an object over its byte buffer, with the operations of `logger.c`. */
module ClusterLogImpl {
  import opened Bytes
  import opened ClusterLog

  ghost predicate IsSuffix<T>(a: seq<T>, b: seq<T>) {
    |a| <= |b| && b[|b| - |a|..] == a
  }

  /** `out` lists `vis` from its end. */
  ghost predicate NewestFirst(out: seq<Body>, vis: seq<Body>) {
    |out| == |vis| && forall i :: 0 <= i < |out| ==> out[i] == vis[|vis| - 1 - i]
  }

  class Clog {
    const size: nat
    var cpos: nat
    const mem: array<byte>
    /** All bodies ever inserted, and the two laps the buffer consists of. */
    ghost var history: seq<Body>
    ghost var prior: seq<Slot>
    ghost var cur: seq<Slot>

    ghost predicate Valid()
      reads this, mem
    {
      && Rep(size, cpos, mem[..], prior, cur)
      && IsSuffix(Bodies(prior + cur), history)
    }

    /** `clog_new`: size 0 asks for the default. */
    constructor (n: nat)
      requires n == 0 || (10 * MAX_ENTRY_SIZE <= n && n + MAX_ENTRY_SIZE < 0x1_0000_0000)
      ensures Valid() && fresh(mem) && size == (if n == 0 then 131072 else n)
      ensures history == [] && prior == [] && cur == []
    {
      var len := if n == 0 then DEFAULT_SIZE else n;
      size := len;
      cpos := 0;
      mem := new byte[len](_ => 0);
      history, prior, cur := [], [], [];
    }

    method StoreU32(p: nat, v: nat)
      requires p + 4 <= mem.Length
      modifies mem
      ensures mem[..] == old(mem[..p]) + LE32(v) + old(mem[p + 4..])
    {
      var w := LE32(v);
      mem[p], mem[p + 1], mem[p + 2], mem[p + 3] := w[0], w[1], w[2], w[3];
    }

    method LoadU32(p: nat) returns (v: nat)
      requires p + 4 <= mem.Length
      ensures v == ReadU32(mem[..], p)
    {
      v := FromLE32(mem[p..p + 4]);
      assert mem[..][p..p + 4] == mem[p..p + 4];
    }

    /** `clog_alloc_entry`: choose the place, link the entry, make it the current one. */
    method AllocEntry(esize: nat) returns (pos: nat)
      requires Valid() && ENTRY_HEADER < esize <= MAX_ENTRY_SIZE
      modifies this`cpos, mem
      ensures old(cpos) + 8 <= |old(mem[..])|
      ensures pos == AllocPos(size, old(cpos), old(mem[..]), RealSize(esize)) == cpos
      ensures pos + RealSize(esize) < size
      ensures mem[..] == old(mem[..])[..pos] + LE32(old(cpos)) + LE32(pos + RealSize(esize)) + old(mem[..])[pos + 8..]
    {
      hide LE32, Stored, ReadU32;
      var realsize := RealSize(esize);
      NextIsEnd(size, cpos, mem[..], prior, cur);
      if cpos == 0 {
        pos := BASE_SIZE;
      } else {
        pos := LoadU32(cpos + 4);
        if pos + realsize >= size {
          pos := BASE_SIZE;
        }
      }
      StoreU32(pos, cpos);
      cpos := pos;
      StoreU32(pos + 4, pos + realsize);
    }

    /** `clog_copy`: an entry whose size is out of range is dropped. */
    method Insert(b: Body)
      requires Valid() && WholeBody(b)
      modifies this, mem
      ensures Valid()
      ensures !Storable(b) ==> unchanged(this) && unchanged(mem)
      ensures Storable(b) ==> history == old(history) + [b]
      ensures Storable(b) ==> (prior, cur) == Laps(size, old(prior), old(cur), b)
    {
      hide LE32, Rep, ReadU32, Bodies, IsSuffix, Put;
      var esize := EntrySize(b);
      if ENTRY_HEADER < esize <= MAX_ENTRY_SIZE {
        ghost var m, c := mem[..], cpos;
        RepSize(size, cpos, m, prior, cur);
        if cur == [] || EndOf(cur) + Room(b) < size {
          InsertExtends(size, cpos, m, prior, cur, b);
        } else {
          InsertWraps(size, cpos, m, prior, cur, b);
        }
        var pos := AllocEntry(esize);
        CopyBody(pos, b, m, c);
        SuffixAfter(size, prior, cur, b, history);
        var laps := Laps(size, prior, cur, b);
        history, prior, cur := history + [b], laps.0, laps.1;
      }
    }

    /** The `memcpy` of the body behind the freshly written header. */
    method CopyBody(pos: nat, b: Body, ghost m: seq<byte>, ghost prev: nat)
      requires |m| == mem.Length && pos + Room(b) <= |m|
      requires mem[..] == m[..pos] + LE32(prev) + LE32(pos + Room(b)) + m[pos + 8..]
      modifies mem
      ensures mem[..] == Put(m, pos, prev, b)
    {
      hide LE32, Put, Room;
      ghost var start := mem[..];
      var k := 0;
      while k < |b|
        invariant 0 <= k <= |b|
        invariant forall i :: 0 <= i < mem.Length ==> mem[i] == if pos + 8 <= i < pos + 8 + k then b[i - pos - 8] else start[i]
      {
        mem[pos + 8 + k] := b[k];
        k := k + 1;
      }
      CopiedIs(m, pos, prev, b, start, mem[..]);
    }

    /** The entry that starts at `p`. */
    method EntryAt(p: nat, ghost s: Slot, ghost prev: nat) returns (b: Body, q: nat)
      requires p == s.pos && Stored(mem[..], s, prev) && Storable(s.body) && prev < 0x1_0000_0000
      ensures b == s.body && q == prev
    {
      hide LE32, Stored, ReadU32;
      StoredReads(mem[..], s, prev);
      assert mem[..][p + 40..p + 44] == mem[p + 40..p + 44];
      var esize := ENTRY_HEADER + mem[p + 37] as nat + mem[p + 38] as nat + mem[p + 39] as nat
        + FromLE32(mem[p + 40..p + 44]);
      b := mem[p + 8..p + esize];
      assert b == mem[..][p + 8..p + esize];
      q := LoadU32(p);
    }

    /** The walk of `clog_dump` and `clog_sort`: from the current entry along the links. It ends,
        and it visits, newest first, the last entries inserted, each with the bytes it had. */
    method Walk() returns (out: seq<Body>)
      requires Valid()
      ensures NewestFirst(out, Visited(cpos, prior, cur))
      ensures IsSuffix(Visited(cpos, prior, cur), history)
    {
      hide Stored, Passed, Storable, Rep, Bodies, IsSuffix, NewestFirst;
      ghost var m, all, k := mem[..], prior + cur, Lost(cpos, prior, cur);
      ghost var g := |all|;
      out := [];
      var p := cpos;
      WalkStart(size, cpos, m, prior, cur);
      while InWalk(cpos, p)
        invariant k <= g <= |all| && |out| == |all| - g
        invariant g > k ==> p == all[g - 1].pos
        invariant g > k <==> InWalk(cpos, p)
        invariant forall i :: 0 <= i < |out| ==> out[i] == all[|all| - 1 - i].body
        decreases g
      {
        WalkTurn(size, cpos, m, prior, cur, g);
        LinkBound(size, cpos, m, prior, cur, g);
        var b, q := EntryAt(p, all[g - 1], Linked(all, g));
        out := out + [b];
        g := g - 1;
        if LandsInReused(cpos, p, q) {
          break;
        }
        p := q;
      }
      WalkDone(all, k, out, history);
    }
  }

  /** Filling a new log with entries that fit: allocation never starts over, so the log holds all
      of them, and a walk of it returns them last first. */
  method Refill(sel: seq<Body>, n: nat) returns (res: Clog)
    requires 10 * MAX_ENTRY_SIZE <= n && n + MAX_ENTRY_SIZE < 0x1_0000_0000
    requires forall i :: 0 <= i < |sel| ==> Storable(sel[i])
    requires BASE_SIZE + Total(sel) < n
    ensures fresh(res) && fresh(res.mem) && res.Valid() && res.size == n
    ensures Visited(res.cpos, res.prior, res.cur) == sel && res.history == sel
  {
    hide Rep, Storable, Room, Total, Visited, Bodies, EndOf, Laps;
    res := new Clog(n);
    var i := 0;
    NoRoom();
    while i < |sel|
      invariant 0 <= i <= |sel|
      invariant fresh(res) && fresh(res.mem) && res.Valid() && res.size == n
      invariant res.prior == [] && Bodies(res.cur) == sel[..i] == res.history
      invariant EndOf(res.cur) == BASE_SIZE + Total(sel[..i])
    {
      TotalStep(sel, i);
      assert WholeBody(sel[i]) by { StorableIsWhole(sel[i]); }
      ghost var cur := res.cur;
      res.Insert(sel[i]);
      Extended(n, cur, sel[i]);
      assert sel[..i + 1] == sel[..i] + [sel[i]];
      i := i + 1;
    }
    assert sel[..i] == sel;
    NothingLost(res.cpos, res.cur);
  }

  lemma {:induction false} Extended(size: nat, cur: seq<Slot>, b: Body)
    requires EndOf(cur) + Room(b) < size
    ensures Laps(size, [], cur, b) == ([], cur + [Slot(EndOf(cur), b)])
    ensures Bodies(cur + [Slot(EndOf(cur), b)]) == Bodies(cur) + [b] && EndOf(cur + [Slot(EndOf(cur), b)]) == EndOf(cur) + Room(b)
  {
    hide Room;
  }

  lemma {:induction false} NothingLost(cpos: nat, cur: seq<Slot>)
    ensures Visited(cpos, [], cur) == Bodies(cur)
  {
    assert [] + cur == cur && cur[0..] == cur;
  }

  lemma {:induction false} NoRoom()
    ensures Total([]) == 0 && Bodies([]) == [] && EndOf([]) == BASE_SIZE
  {
  }

  lemma {:induction false} StorableIsWhole(b: Body)
    requires Storable(b)
    ensures WholeBody(b)
  {
  }

  lemma {:induction false} TotalStep(sel: seq<Body>, i: nat)
    requires i < |sel|
    ensures Total(sel[..i + 1]) == Total(sel[..i]) + Room(sel[i]) <= Total(sel)
  {
    hide Room;
    assert sel[..i + 1] == sel[..i] + [sel[i]] && [sel[i]][..0] == [];
    TotalAppend(sel[..i], [sel[i]]);
    assert sel == sel[..i + 1] + sel[i + 1..];
    TotalAppend(sel[..i + 1], sel[i + 1..]);
  }

  /** `clog_sort`: the entries of a walk go into a tree whose traversal is copied to a new log.
      `sel` is that traversal; all that is needed of the tree is that it invents no entry. */
  method Sort(log: Clog, sel: seq<Body>) returns (res: Clog)
    requires log.Valid() && log.cpos != 0
    requires multiset(sel) <= multiset(Visited(log.cpos, log.prior, log.cur))
    ensures fresh(res) && res.Valid() && res.size == log.size
    ensures Visited(res.cpos, res.prior, res.cur) == sel
  {
    hide Storable;
    var vis := log.Walk();
    VisitedFits(log.size, log.cpos, log.mem[..], log.prior, log.cur);
    TotalSelection(sel, Visited(log.cpos, log.prior, log.cur));
    SelectionStorable(log.size, log.cpos, log.mem[..], log.prior, log.cur, sel);
    res := Refill(sel, log.size);
  }

  lemma {:induction false} SelectionStorable(size: nat, cpos: nat, m: seq<byte>, prior: seq<Slot>, cur: seq<Slot>, sel: seq<Body>)
    requires Rep(size, cpos, m, prior, cur)
    requires multiset(sel) <= multiset(Visited(cpos, prior, cur))
    ensures forall i :: 0 <= i < |sel| ==> Storable(sel[i])
  {
    hide Rep, Storable, Passed;
    var vis, k := Visited(cpos, prior, cur), Lost(cpos, prior, cur);
    forall i | 0 <= i < |sel|
      ensures Storable(sel[i])
    {
      assert sel[i] in multiset(sel);
      var j :| 0 <= j < |vis| && vis[j] == sel[i];
      WalkTurn(size, cpos, m, prior, cur, k + j + 1);
    }
  }

  lemma {:induction false} WalkDone(all: seq<Slot>, k: nat, out: seq<Body>, history: seq<Body>)
    requires k <= |all| && |out| == |all| - k && IsSuffix(Bodies(all), history)
    requires forall i :: 0 <= i < |out| ==> out[i] == all[|all| - 1 - i].body
    ensures NewestFirst(out, Bodies(all[k..])) && IsSuffix(Bodies(all[k..]), history)
  {
    assert Bodies(all[k..]) == Bodies(all)[k..];
  }

  lemma {:induction false} CopiedIs(m: seq<byte>, pos: nat, prev: nat, b: Body, start: seq<byte>, after: seq<byte>)
    requires pos + Room(b) <= |m| == |after| && start == m[..pos] + LE32(prev) + LE32(pos + Room(b)) + m[pos + 8..]
    requires forall i :: 0 <= i < |after| ==> after[i] == if pos + 8 <= i < pos + 8 + |b| then b[i - pos - 8] else start[i]
    ensures after == Put(m, pos, prev, b)
  {
    hide LE32, Room;
    assert after == start[..pos + 8] + b + start[pos + 8 + |b|..];
  }

  lemma {:induction false} RepSize(size: nat, cpos: nat, m: seq<byte>, prior: seq<Slot>, cur: seq<Slot>)
    requires Rep(size, cpos, m, prior, cur)
    ensures |m| == size >= 10 * MAX_ENTRY_SIZE
  {
  }

  lemma {:induction false} SuffixAppend(a: seq<Body>, history: seq<Body>, b: Body)
    requires IsSuffix(a, history)
    ensures IsSuffix(a + [b], history + [b])
  {
    var k := |history| - |a|;
    assert (history + [b])[k..] == history[k..] + [b];
  }

  lemma {:induction false} SuffixDrop(a: seq<Body>, c: seq<Body>, history: seq<Body>)
    requires IsSuffix(a + c, history)
    ensures IsSuffix(c, history)
  {
    var k := |history| - |a + c|;
    assert history[k + |a|..] == history[k..][|a|..] == (a + c)[|a|..] == c;
  }

  lemma {:induction false} SuffixAfter(size: nat, prior: seq<Slot>, cur: seq<Slot>, b: Body, history: seq<Body>)
    requires IsSuffix(Bodies(prior + cur), history)
    ensures var laps := Laps(size, prior, cur, b); IsSuffix(Bodies(laps.0 + laps.1), history + [b])
  {
    hide IsSuffix, Room;
    if cur == [] || EndOf(cur) + Room(b) < size {
      SuffixAppend(Bodies(prior + cur), history, b);
      assert Bodies(prior + (cur + [Slot(EndOf(cur), b)])) == Bodies(prior + cur) + [b];
    } else {
      assert Bodies(prior + cur) == Bodies(prior) + Bodies(cur);
      SuffixDrop(Bodies(prior), Bodies(cur), history);
      SuffixAppend(Bodies(cur), history, b);
      assert Bodies(cur + [Slot(BASE_SIZE, b)]) == Bodies(cur) + [b];
    }
  }

  lemma {:induction false} WalkStart(size: nat, cpos: nat, m: seq<byte>, prior: seq<Slot>, cur: seq<Slot>)
    requires Rep(size, cpos, m, prior, cur)
    ensures var all, k := prior + cur, Lost(cpos, prior, cur);
            && (|all| > k <==> InWalk(cpos, cpos))
            && (|all| > k ==> cpos == all[|all| - 1].pos)
  {
    hide Stored, Passed, Storable;
    if cur != [] {
      LapBound(cur, size, |cur| - 1);
    }
  }

  lemma {:induction false} LinkBound(size: nat, cpos: nat, m: seq<byte>, prior: seq<Slot>, cur: seq<Slot>, g: nat)
    requires Rep(size, cpos, m, prior, cur) && 0 < g <= |prior + cur|
    ensures Linked(prior + cur, g) < 0x1_0000_0000
  {
    hide Stored, Storable;
    if g > 1 {
      if g - 2 < |prior| {
        LapBound(prior, size, g - 2);
      } else {
        LapBound(cur, size, g - 2 - |prior|);
      }
    }
  }

  // ---------------------------------------------------------------------------------------
  // Merging
  // ---------------------------------------------------------------------------------------

  /** `c` is a cursor of a walk over `log` that has `g` entries of its two laps ahead of it; 0 when
      the walk is over. */
  ghost predicate Cursor(log: Clog, c: nat, g: nat)
    reads log, log.mem
  {
    && log.Valid()
    && var all, k := log.prior + log.cur, Lost(log.cpos, log.prior, log.cur);
    && k <= g <= |all|
    && (g > k ==> c == all[g - 1].pos && c != 0)
    && (g == k ==> c == 0)
  }

  /** Entry `b` was put into the tree, or the tree already had one it takes for the same. */
  ghost predicate Offered(b: Body, picked: seq<Body>, known: (seq<Body>, Body) -> bool) {
    b in picked || exists n :: 0 <= n <= |picked| && known(picked[..n], b)
  }

  function Sum(g: seq<nat>): nat {
    if g == [] then 0 else Sum(g[..|g| - 1]) + g[|g| - 1]
  }

  lemma {:induction false} SumDecrease(g: seq<nat>, i: nat)
    requires i < |g| && g[i] > 0
    ensures Sum(g[i := g[i] - 1]) == Sum(g) - 1
  {
    var n := |g| - 1;
    var h := g[i := g[i] - 1];
    if i < n {
      assert h[..n] == g[..n][i := g[i] - 1];
      SumDecrease(g[..n], i);
    } else {
      assert h[..n] == g[..n];
    }
  }

  lemma {:induction false} OfferedStays(b: Body, picked: seq<Body>, x: Body, known: (seq<Body>, Body) -> bool)
    requires Offered(b, picked, known)
    ensures Offered(b, picked + [x], known)
  {
    if b !in picked {
      var n :| 0 <= n <= |picked| && known(picked[..n], b);
      assert (picked + [x])[..n] == picked[..n];
    }
  }

  ghost function Head(log: Clog, g: nat): (b: Body)
    requires 0 < g <= |log.prior + log.cur|
    reads log
  {
    (log.prior + log.cur)[g - 1].body
  }

  /** Read the entry under a cursor and advance the cursor along its link. */
  method Advance(log: Clog, c: nat, ghost g: nat) returns (b: Body, room: nat, c': nat)
    requires Cursor(log, c, g) && c != 0
    ensures 0 < g <= |log.prior + log.cur|
    ensures b == Head(log, g) && Storable(b) && room == Room(b)
    ensures Cursor(log, c', g - 1)
  {
    hide Stored, Passed, Storable, Rep, IsSuffix, Bodies, ReadU32;
    ghost var m, all := log.mem[..], log.prior + log.cur;
    WalkTurn(log.size, log.cpos, m, log.prior, log.cur, g);
    LinkBound(log.size, log.cpos, m, log.prior, log.cur, g);
    EndBound(log.size, log.cpos, m, log.prior, log.cur, g);
    var q;
    b, q := log.EntryAt(c, all[g - 1], Linked(all, g));
    StoredReads(m, all[g - 1], Linked(all, g));
    var next := log.LoadU32(c + 4);
    room := next - c;
    if q == 0 || LandsInReused(log.cpos, c, q) {
      c' := 0;
    } else {
      c' := q;
      if !(c' <= log.cpos || c' > log.cpos + MAX_ENTRY_SIZE) {
        c' := 0;
      }
    }
  }

  lemma {:induction false} EndBound(size: nat, cpos: nat, m: seq<byte>, prior: seq<Slot>, cur: seq<Slot>, g: nat)
    requires Rep(size, cpos, m, prior, cur) && 0 < g <= |prior + cur|
    ensures (prior + cur)[g - 1].End() < 0x1_0000_0000
  {
    hide Stored, Storable;
    if g - 1 < |prior| {
      LapBound(prior, size, g - 1);
    } else {
      LapBound(cur, size, g - 1 - |prior|);
    }
  }

  ghost predicate Cursors(logs: seq<Clog>, c: seq<nat>, g: seq<nat>)
    reads logs, set l | l in logs :: l.mem
  {
    && |c| == |g| == |logs|
    && forall i :: 0 <= i < |logs| ==> Cursor(logs[i], c[i], g[i])
  }

  /** The time of the entry under a cursor, 0 at the end of a walk. */
  ghost function TimeAt(log: Clog, c: nat, g: nat): nat
    reads log
  {
    if c == 0 || !(0 < g <= |log.prior + log.cur|) || |Head(log, g)| < 36 then 0 else EntryTime(Head(log, g))
  }

  /** The cursor at an entry with the latest time; times of 0 do not count. */
  method Latest(logs: seq<Clog>, c: seq<nat>, ghost g: seq<nat>) returns (found: int)
    requires Cursors(logs, c, g)
    ensures -1 <= found < |logs|
    ensures found < 0 ==> forall i :: 0 <= i < |logs| ==> TimeAt(logs[i], c[i], g[i]) == 0
    ensures found >= 0 ==> c[found] != 0
    ensures found >= 0 ==>
              forall i :: 0 <= i < |logs| ==> TimeAt(logs[i], c[i], g[i]) <= TimeAt(logs[found], c[found], g[found])
    ensures forall i :: 0 <= i < found ==> TimeAt(logs[i], c[i], g[i]) < TimeAt(logs[found], c[found], g[found])
  {
    hide Cursor;
    found := -1;
    var last := 0;
    var i := 0;
    while i < |logs|
      invariant 0 <= i <= |logs| && -1 <= found < i
      invariant found < 0 ==> last == 0
      invariant found >= 0 ==> c[found] != 0 && last == TimeAt(logs[found], c[found], g[found])
      invariant forall j :: 0 <= j < i ==> TimeAt(logs[j], c[j], g[j]) <= last
      invariant forall j :: 0 <= j < found ==> TimeAt(logs[j], c[j], g[j]) < last
    {
      assert Cursor(logs[i], c[i], g[i]);
      if c[i] != 0 {
        var b, _, _ := Advance(logs[i], c[i], g[i]);
        var time := EntryTime(b);
        if time > last {
          last := time;
          found := i;
        }
      }
      i := i + 1;
    }
  }

  /** Every cursor at the current entry of its log. */
  method StartCursors(logs: seq<Clog>) returns (c: seq<nat>, ghost g: seq<nat>)
    requires forall i :: 0 <= i < |logs| ==> logs[i].Valid()
    ensures Cursors(logs, c, g)
    ensures forall i :: 0 <= i < |logs| ==> g[i] == |logs[i].prior + logs[i].cur|
  {
    hide Rep, Passed, IsSuffix;
    c, g := [], [];
    var i := 0;
    while i < |logs|
      invariant 0 <= i <= |logs| && |c| == |g| == i
      invariant forall j :: 0 <= j < i ==> Cursor(logs[j], c[j], g[j]) && g[j] == |logs[j].prior + logs[j].cur|
    {
      var log := logs[i];
      WalkStart(log.size, log.cpos, log.mem[..], log.prior, log.cur);
      c, g := c + [log.cpos], g + [|log.prior + log.cur|];
      i := i + 1;
    }
  }

  /** Every entry behind a cursor has been offered to the tree. */
  ghost predicate BehindOffered(log: Clog, g: nat, picked: seq<Body>, known: (seq<Body>, Body) -> bool)
    reads log
  {
    forall j :: g <= j < |log.prior + log.cur| ==> Offered((log.prior + log.cur)[j].body, picked, known)
  }

  ghost predicate AllOffered(logs: seq<Clog>, g: seq<nat>, picked: seq<Body>, known: (seq<Body>, Body) -> bool)
    reads logs
  {
    |g| == |logs| && forall i :: 0 <= i < |logs| ==> BehindOffered(logs[i], g[i], picked, known)
  }

  /** Taking one entry, or recognising it, moves one cursor past it. */
  lemma {:induction false} OfferNext(logs: seq<Clog>, g: seq<nat>, f: nat, picked: seq<Body>, picked': seq<Body>, known: (seq<Body>, Body) -> bool)
    requires AllOffered(logs, g, picked, known)
    requires f < |logs| && 0 < g[f] <= |logs[f].prior + logs[f].cur|
    requires if known(picked, Head(logs[f], g[f])) then picked' == picked else picked' == picked + [Head(logs[f], g[f])]
    ensures AllOffered(logs, g[f := g[f] - 1], picked', known)
  {
    hide Offered;
    var b, h := Head(logs[f], g[f]), g[f := g[f] - 1];
    assert picked[..|picked|] == picked;
    assert Offered(b, picked', known) by { JustOffered(b, picked, picked', known); }
    forall i | 0 <= i < |logs|
      ensures BehindOffered(logs[i], h[i], picked', known)
    {
      var all := logs[i].prior + logs[i].cur;
      forall j | h[i] <= j < |all|
        ensures Offered(all[j].body, picked', known)
      {
        if i != f || j >= g[f] {
          assert BehindOffered(logs[i], g[i], picked, known);
          if picked' != picked {
            OfferedStays(all[j].body, picked, b, known);
          }
        }
      }
    }
  }

  lemma {:induction false} JustOffered(b: Body, picked: seq<Body>, picked': seq<Body>, known: (seq<Body>, Body) -> bool)
    requires if known(picked, b) then picked' == picked else picked' == picked + [b]
    ensures Offered(b, picked', known)
  {
    assert picked[..|picked|] == picked;
  }

  /** One turn of the merge loop: offer the entry under cursor `f` and move that cursor. */
  method Take(logs: seq<Clog>, c: seq<nat>, ghost g: seq<nat>, f: nat, picked: seq<Body>, known: (seq<Body>, Body) -> bool)
    returns (picked': seq<Body>, added: nat, c': seq<nat>, ghost g': seq<nat>)
    requires Cursors(logs, c, g) && AllOffered(logs, g, picked, known)
    requires f < |logs| && c[f] != 0
    requires forall i :: 0 <= i < |picked| ==> Storable(picked[i])
    ensures Cursors(logs, c', g') && AllOffered(logs, g', picked', known)
    ensures forall i :: 0 <= i < |picked'| ==> Storable(picked'[i])
    ensures Total(picked') == Total(picked) + added && added <= MAX_ENTRY_SIZE
    ensures Sum(g') < Sum(g)
  {
    hide Cursor, Storable, Total, AllOffered, Head, Room, Offered;
    assert Cursor(logs[f], c[f], g[f]);
    var b, room, cf := Advance(logs[f], c[f], g[f]);
    if known(picked, b) {
      picked', added := picked, 0;
    } else {
      PickOne(picked, b);
      picked', added := picked + [b], room;
    }
    OfferNext(logs, g, f, picked, picked', known);
    SumDecrease(g, f);
    c', g' := c[f := cf], g[f := g[f] - 1];
  }

  /** The selection loop of `clusterlog_merge`. `known` is the answer of the tree to a lookup. The
      loop ends; the selected entries fit into the new log without starting over; and unless the
      new log is full, the only entries not offered to the tree lie behind one with time 0. */
  method MergeSelect(logs: seq<Clog>, known: (seq<Body>, Body) -> bool)
    returns (picked: seq<Body>, full: bool, c: seq<nat>, ghost g: seq<nat>)
    requires forall i :: 0 <= i < |logs| ==> logs[i].Valid()
    ensures forall i :: 0 <= i < |picked| ==> Storable(picked[i])
    ensures 8 + Total(picked) < 131072
    ensures full <==> 8 + Total(picked) + 4096 >= 131072
    ensures Cursors(logs, c, g) && AllOffered(logs, g, picked, known)
    ensures !full ==> forall i :: 0 <= i < |logs| ==> TimeAt(logs[i], c[i], g[i]) == 0
  {
    hide Cursor, Storable, AllOffered, TimeAt, Room, Offered;
    var maxsize := DEFAULT_SIZE - BASE_SIZE - MAX_ENTRY_SIZE;
    var logsize := 0;
    picked, full := [], false;
    c, g := StartCursors(logs);
    NothingBehind(logs, g, known);
    var found := Latest(logs, c, g);
    while found >= 0 && !full
      invariant -1 <= found < |logs|
      invariant Cursors(logs, c, g) && AllOffered(logs, g, picked, known)
      invariant forall i :: 0 <= i < |picked| ==> Storable(picked[i])
      invariant logsize == Total(picked) < maxsize + MAX_ENTRY_SIZE
      invariant full <==> logsize >= maxsize
      invariant found >= 0 && !full ==> c[found] != 0
      invariant found < 0 ==> forall i :: 0 <= i < |logs| ==> TimeAt(logs[i], c[i], g[i]) == 0
      decreases Sum(g)
    {
      var added;
      picked, added, c, g := Take(logs, c, g, found, picked, known);
      logsize := logsize + added;
      full := logsize >= maxsize;
      if !full {
        found := Latest(logs, c, g);
      }
    }
  }

  lemma {:induction false} NothingBehind(logs: seq<Clog>, g: seq<nat>, known: (seq<Body>, Body) -> bool)
    requires |g| == |logs|
    requires forall i :: 0 <= i < |logs| ==> g[i] == |logs[i].prior + logs[i].cur|
    ensures AllOffered(logs, g, [], known)
  {
  }

  lemma {:induction false} PickOne(picked: seq<Body>, b: Body)
    requires Storable(b)
    ensures Total(picked + [b]) == Total(picked) + Room(b) <= Total(picked) + MAX_ENTRY_SIZE
  {
    hide WholeBody;
    TotalAppend(picked, [b]);
    assert [b][..0] == [];
  }

  /** `clusterlog_merge` after its loop: whatever order the tree yields the selected entries in,
      the new log holds them all. */
  method MergeFill(picked: seq<Body>, order: seq<Body>) returns (res: Clog)
    requires forall i :: 0 <= i < |picked| ==> Storable(picked[i])
    requires BASE_SIZE + Total(picked) < DEFAULT_SIZE
    requires multiset(order) <= multiset(picked)
    ensures fresh(res) && res.Valid() && res.size == DEFAULT_SIZE
    ensures Visited(res.cpos, res.prior, res.cur) == order
  {
    hide Storable;
    TotalSelection(order, picked);
    forall i | 0 <= i < |order|
      ensures Storable(order[i])
    {
      assert order[i] in multiset(order);
      assert order[i] in picked;
    }
    res := Refill(order, DEFAULT_SIZE);
  }
}
