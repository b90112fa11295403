/** The single-producer single-consumer ring of `ringbuffer.rs`.

    Writer and reader are two programs over one byte memory; every load and store that the
    other side can observe is a step of its own, and a run interleaves the steps in any order
    (sequential consistency). The unbounded positions used in the proofs are functions of the
    message history: the ring has `4 * words` cells and position `p` lives in cell `p % n`. */
module RingBuffer {
  import opened Bytes

  type Message = seq<byte>

  const CHUNK_HEADER_WORDS: nat := 2
  const CHUNK_MAGIC: nat := 0xA1A1A1A1
  const CHUNK_MAGIC_DEAD: nat := 0xD0D0D0D0
  const CHUNK_MAGIC_ALLOC: nat := 0xA110CED0
  const CHUNK_MARGIN: nat := 12

  // ---------------------------------------------------------------------------------------
  // Pure pointer arithmetic; `Cell(words, x)` is `x % words`
  // ---------------------------------------------------------------------------------------

  function DivCeil4(n: nat): nat {
    (n + 3) / 4
  }

  function ChunkStep(words: nat, pt: nat, bytes: nat): nat
    requires words > 0
  {
    Cell(words, pt + CHUNK_HEADER_WORDS + DivCeil4(bytes))
  }

  function SpaceFreeWords(words: nat, wp: nat, rp: nat): nat
    requires wp < words && rp < words
  {
    if wp >= rp then
      if wp == rp then words else rp + words - wp - 1
    else
      rp - wp - 1
  }

  predicate ChunkFits(words: nat, wp: nat, rp: nat, bytes: nat)
    requires wp < words && rp < words
  {
    SpaceFreeWords(words, wp, rp) * 4 >= bytes + CHUNK_MARGIN
  }

  /** Memory index of payload byte `k` of a chunk of `bytes` bytes whose header is at word `pt`:
      one copy up to the end of the buffer, a second one from its start. */
  function PayloadCell(words: nat, pt: nat, bytes: nat, k: nat): (c: nat)
    requires k < bytes <= 4 * words
    ensures c < 4 * words
  {
    var off := Cell(words, pt + CHUNK_HEADER_WORDS);
    var remaining := (words - off) * 4;
    if bytes <= remaining || k < remaining then 4 * off + k else k - remaining
  }

  function ReadWord(mem: seq<byte>, i: nat): nat
    requires 4 * i + 4 <= |mem|
  {
    FromLE32(mem[4 * i..4 * i + 4])
  }

  function WriteWord(mem: seq<byte>, i: nat, v: nat): (r: seq<byte>)
    requires 4 * i + 4 <= |mem|
    ensures |r| == |mem|
  {
    mem[..4 * i] + LE32(v) + mem[4 * i + 4..]
  }

  /** The lengths a reader accepts; a writer accepts others as well. */
  predicate Receivable(words: nat, bytes: nat) {
    0 < bytes && bytes + 72 <= 4 * words
  }

  // ---------------------------------------------------------------------------------------
  // The two programs
  // ---------------------------------------------------------------------------------------

  /** The writer's next store. */
  datatype WriterPc = ClearSize | MarkAlloc | Copy | StoreSize | Advance | Publish | Post

  /** `pt` is the write pointer loaded at the start, `k` the number of payload bytes copied. */
  datatype Writer = Idle | Sending(pc: WriterPc, pt: nat, msg: Message, k: nat)

  /** The reader's next access. A read that passed the semaphore can go wrong in two ways: the
      buffer is empty (`Spurious`), or the size or magic word is bad. In the second case the
      receive returns an error, and the reader may receive again. */
  datatype ReaderPc =
    LoadRead | LoadWrite | LoadMagic | LoadSize | Fetch | Erase | Kill | Reclaim | Spurious

  datatype Reader = Waiting | Receiving(pc: ReaderPc, pt: nat, magic: nat, size: nat, buf: Message)

  /** `sent` and `received` record the messages whose chunk was committed or reclaimed; `lost`
      counts the receives that have failed. */
  datatype State = State(words: nat, mem: seq<byte>, wp: nat, rp: nat, sem: nat,
                         writer: Writer, reader: Reader,
                         sent: seq<Message>, received: seq<Message>, lost: nat)

  predicate ValidSize(words: nat) {
    1024 <= words && 4 * words <= 0x1_0000_0000
  }

  predicate WellFormed(s: State) {
    && ValidSize(s.words) && |s.mem| == 4 * s.words
    && s.wp < s.words && s.rp < s.words
    && (s.writer.Sending? ==> s.writer.pt < s.words && s.writer.k <= |s.writer.msg| <= 4 * s.words)
    && (s.reader.Receiving? ==> s.reader.pt < s.words && |s.reader.buf| <= s.reader.size <= 4 * s.words)
  }

  /** The sentinel stored one word past the end lands on word 0 of the circular mapping. */
  function Init(words: nat): (s: State)
    requires ValidSize(words)
    ensures WellFormed(s)
  {
    State(words, WriteWord(seq(4 * words, i => 0), 0, 5), 0, 0, 0, Idle, Waiting, [], [], 0)
  }

  function TrySend(s: State, msg: Message): (r: State)
    requires WellFormed(s) && s.writer.Idle?
    ensures WellFormed(r)
  {
    if ChunkFits(s.words, s.wp, s.rp, |msg|) then
      s.(writer := Sending(ClearSize, s.wp, msg, 0))
    else
      s
  }

  function WriterStep(s: State): (r: State)
    requires WellFormed(s) && s.writer.Sending?
    ensures WellFormed(r)
  {
    var Sending(pc, pt, m, k) := s.writer;
    var tag := Cell(s.words, pt + 1);
    match pc
    case ClearSize =>
      s.(mem := WriteWord(s.mem, pt, 0), writer := s.writer.(pc := MarkAlloc))
    case MarkAlloc =>
      s.(mem := WriteWord(s.mem, tag, CHUNK_MAGIC_ALLOC), writer := s.writer.(pc := Copy))
    case Copy =>
      if k == |m| then
        s.(writer := s.writer.(pc := StoreSize))
      else
        s.(mem := s.mem[PayloadCell(s.words, pt, |m|, k) := m[k]], writer := s.writer.(k := k + 1))
    case StoreSize =>
      s.(mem := WriteWord(s.mem, pt, |m|), writer := s.writer.(pc := Advance))
    case Advance =>
      s.(wp := ChunkStep(s.words, pt, |m|), writer := s.writer.(pc := Publish), sent := s.sent + [m])
    case Publish =>
      s.(mem := WriteWord(s.mem, tag, CHUNK_MAGIC), writer := s.writer.(pc := Post))
    case Post =>
      s.(sem := s.sem + 1, writer := Idle)
  }

  predicate ReaderEnabled(s: State) {
    if s.reader.Waiting? then s.sem > 0 else !s.reader.pc.Spurious?
  }

  function ReaderStep(s: State): (r: State)
    requires WellFormed(s) && ReaderEnabled(s)
    ensures WellFormed(r)
  {
    if s.reader.Waiting? then
      s.(sem := s.sem - 1, reader := Receiving(LoadRead, 0, 0, 0, []))
    else
      var Receiving(pc, pt, magic, size, buf) := s.reader;
      var tag := Cell(s.words, pt + 1);
      match pc
      case LoadRead => s.(reader := s.reader.(pc := LoadWrite, pt := s.rp))
      case LoadWrite => s.(reader := s.reader.(pc := if pt == s.wp then Spurious else LoadMagic))
      case LoadMagic => s.(reader := s.reader.(pc := LoadSize, magic := ReadWord(s.mem, tag)))
      case LoadSize =>
        var n := ReadWord(s.mem, pt);
        if n == 0 || n > 4 * s.words - 72 || magic != CHUNK_MAGIC then
          s.(reader := Waiting, lost := s.lost + 1)
        else
          s.(reader := Receiving(Fetch, pt, magic, n, []))
      case Fetch =>
        if |buf| == size then
          s.(reader := s.reader.(pc := Erase))
        else
          s.(reader := s.reader.(buf := buf + [s.mem[PayloadCell(s.words, pt, size, |buf|)]]))
      case Erase => s.(mem := WriteWord(s.mem, pt, 0), reader := s.reader.(pc := Kill))
      case Kill => s.(mem := WriteWord(s.mem, tag, CHUNK_MAGIC_DEAD), reader := s.reader.(pc := Reclaim))
      case Reclaim => s.(rp := ChunkStep(s.words, pt, size), reader := Waiting, received := s.received + [buf])
      case Spurious => s
  }

  /** One step of either side. */
  ghost predicate Next(s: State, t: State)
    requires WellFormed(s)
  {
    || (s.writer.Idle? && exists msg :: t == TrySend(s, msg))
    || (s.writer.Sending? && t == WriterStep(s))
    || (ReaderEnabled(s) && t == ReaderStep(s))
  }

  ghost predicate IsRun(run: seq<State>) {
    && |run| > 0
    && (forall i :: 0 <= i < |run| ==> WellFormed(run[i]))
    && ValidSize(run[0].words) && run[0] == Init(run[0].words)
    && forall i :: 0 <= i < |run| - 1 ==> Next(run[i], run[i + 1])
  }

  // ---------------------------------------------------------------------------------------
  // Positions and memory contents
  // ---------------------------------------------------------------------------------------

  function Words(m: Message): nat {
    CHUNK_HEADER_WORDS + DivCeil4(|m|)
  }

  /** Unbounded word position after the chunks of all messages of `ms`. */
  function Pos(ms: seq<Message>): nat {
    if ms == [] then 0 else Pos(ms[..|ms| - 1]) + Words(ms[|ms| - 1])
  }

  /** The bytes of a published chunk. */
  function Image(m: Message): (s: seq<byte>)
    ensures |s| == 8 + |m|
  {
    LE32(|m|) + LE32(CHUNK_MAGIC) + m
  }

  /** `t` is stored from position `p` on, wrapping at the end of the memory. */
  ghost predicate At(mem: seq<byte>, p: nat, t: seq<byte>) {
    |mem| > 0 && forall k :: 0 <= k < |t| ==> mem[Cell(|mem|, p + k)] == t[k]
  }

  /** The rest of the lap, after `len` cells from position `p` on, is unchanged. */
  ghost predicate OnlyAt(mem: seq<byte>, mem': seq<byte>, p: nat, len: nat) {
    && |mem'| == |mem| > 0
    && forall x :: p + len <= x < p + |mem| ==> mem'[Cell(|mem|, x)] == mem[Cell(|mem|, x)]
  }

  lemma {:induction false} PosSplit(ms: seq<Message>, i: nat)
    requires i < |ms|
    ensures Pos(ms[..i + 1]) == Pos(ms[..i]) + Words(ms[i])
  {
    assert ms[..i + 1][..i] == ms[..i];
  }

  lemma {:induction false} PosMonotone(ms: seq<Message>, i: nat, j: nat)
    requires i <= j <= |ms|
    ensures Pos(ms[..i]) + 2 * (j - i) <= Pos(ms[..j])
    decreases j
  {
    if i < j {
      PosMonotone(ms, i, j - 1);
      PosSplit(ms, j - 1);
    }
  }

  /** Cells less than a lap away from a store keep what they hold. */
  lemma {:induction false} AtFrame(mem: seq<byte>, mem': seq<byte>, p: nat, len: nat, q: nat, t: seq<byte>)
    requires OnlyAt(mem, mem', p, len) && At(mem, q, t)
    requires p + len <= q || q + |t| <= p
    requires q + |t| <= p + |mem| && p + len <= q + |mem|
    ensures At(mem', q, t)
  {
    var n := |mem|;
    forall k | 0 <= k < |t|
      ensures mem'[Cell(n, q + k)] == t[k]
    {
      if q + |t| <= p {
        assert Cell(n, q + k) == Cell(n, q + k + n);
      }
    }
  }

  lemma {:induction false} AtSplit(mem: seq<byte>, p: nat, a: seq<byte>, b: seq<byte>)
    ensures At(mem, p, a + b) <==> At(mem, p, a) && At(mem, p + |a|, b)
  {
    if At(mem, p, a + b) {
      forall k | 0 <= k < |a|
        ensures mem[Cell(|mem|, p + k)] == a[k]
      {
        assert (a + b)[k] == a[k];
      }
      forall k | 0 <= k < |b|
        ensures mem[Cell(|mem|, p + |a| + k)] == b[k]
      {
        assert (a + b)[|a| + k] == b[k];
      }
    }
  }

  /** The four cells of a word. */
  lemma {:induction false} WordCells(words: nat, w: nat)
    requires words > 0
    ensures forall x :: 4 * w <= x < 4 * w + 4 ==> Cell(4 * words, x) == 4 * Cell(words, w) + (x - 4 * w)
  {
    CellScale(words, w);
    forall x | 4 * w <= x < 4 * w + 4
      ensures Cell(4 * words, x) == 4 * Cell(words, w) + (x - 4 * w)
    {
      CellStep(4 * words, 4 * w, x - 4 * w);
    }
  }

  /** A word store at word position `w` (unbounded) is a store of four bytes at `4 * w`. */
  lemma {:induction false} WriteWordAt(mem: seq<byte>, words: nat, w: nat, v: nat)
    requires words > 0 && |mem| == 4 * words
    ensures At(WriteWord(mem, Cell(words, w), v), 4 * w, LE32(v))
    ensures OnlyAt(mem, WriteWord(mem, Cell(words, w), v), 4 * w, 4)
  {
    var i := Cell(words, w);
    var mem' := WriteWord(mem, i, v);
    WordCells(words, w);
    forall x | 4 * w + 4 <= x < 4 * w + |mem|
      ensures mem'[Cell(|mem|, x)] == mem[Cell(|mem|, x)]
    {
      forall y | 4 * w <= y < 4 * w + 4
        ensures Cell(|mem|, x) != Cell(|mem|, y)
      {
        CellDistinct(|mem|, y, x);
      }
      var c := Cell(|mem|, x);
      assert c != Cell(|mem|, 4 * w) && c != Cell(|mem|, 4 * w + 1);
      assert c != Cell(|mem|, 4 * w + 2) && c != Cell(|mem|, 4 * w + 3);
    }
  }

  lemma {:induction false} ReadWordAt(mem: seq<byte>, words: nat, w: nat, v: nat)
    requires words > 0 && |mem| == 4 * words
    requires At(mem, 4 * w, LE32(v)) && v < 0x1_0000_0000
    ensures ReadWord(mem, Cell(words, w)) == v
  {
    var i := Cell(words, w);
    WordCells(words, w);
    assert mem[4 * i..4 * i + 4] == LE32(v);
    LE32RoundTrip(v);
  }

  /** The two-part copy addresses consecutive positions. */
  lemma {:induction false} PayloadCellAt(words: nat, w: nat, bytes: nat, k: nat)
    requires k < bytes <= 4 * words && 2 <= words
    ensures PayloadCell(words, Cell(words, w), bytes, k) == Cell(4 * words, 4 * w + 8 + k)
  {
    HeaderCells(words, w);
    CellScale(words, w + 2);
    CellStep(4 * words, 4 * (w + 2), k);
  }

  /** The wrapped word indices of the code: magic word and first payload word. */
  lemma {:induction false} HeaderCells(words: nat, w: nat)
    requires words >= 2
    ensures Cell(words, Cell(words, w) + 1) == Cell(words, w + 1)
    ensures Cell(words, Cell(words, w) + CHUNK_HEADER_WORDS) == Cell(words, w + 2)
  {
    CellStep(words, w, 1);
    CellStep(words, w, 2);
  }

  lemma {:induction false} ChunkStepAt(words: nat, w: nat, m: Message)
    requires Words(m) <= words
    ensures ChunkStep(words, Cell(words, w), |m|) == Cell(words, w + Words(m))
  {
    CellStep(words, w, Words(m));
  }

  lemma {:induction false} PutByteAt(mem: seq<byte>, p: nat, b: byte)
    requires |mem| > 0
    ensures At(mem[Cell(|mem|, p) := b], p, [b])
    ensures OnlyAt(mem, mem[Cell(|mem|, p) := b], p, 1)
  {
    forall x | p + 1 <= x < p + |mem|
      ensures Cell(|mem|, x) != Cell(|mem|, p)
    {
      CellDistinct(|mem|, p, x);
    }
  }

  // ---------------------------------------------------------------------------------------
  // The invariant of every interleaving
  // ---------------------------------------------------------------------------------------

  /** Committed but not yet announced through the semaphore. */
  predicate Owing(w: Writer) {
    w.Sending? && (w.pc.Publish? || w.pc.Post?)
  }

  ghost predicate ChunkAt(mem: seq<byte>, ms: seq<Message>, i: nat)
    requires i < |ms|
  {
    At(mem, 4 * Pos(ms[..i]), Image(ms[i]))
  }

  predicate Unpublished(s: State, i: nat) {
    i + 1 == |s.sent| && s.writer.Sending? && s.writer.pc.Publish?
  }

  predicate Erased(s: State, i: nat) {
    i == |s.received| && s.reader.Receiving? && (s.reader.pc.Kill? || s.reader.pc.Reclaim?)
  }

  /** Every committed, unreclaimed chunk is readable, but for the two being worked on. */
  ghost predicate Published(s: State) {
    forall i :: |s.received| <= i < |s.sent| && !Unpublished(s, i) && !Erased(s, i) ==> ChunkAt(s.mem, s.sent, i)
  }

  ghost predicate Counted(s: State)
    requires WellFormed(s)
  {
    && s.received <= s.sent
    && s.wp == Cell(s.words, Pos(s.sent))
    && s.rp == Cell(s.words, Pos(s.received))
    && Pos(s.sent) < Pos(s.received) + s.words
    && s.sem + (if s.reader.Receiving? then 1 else 0) + (if Owing(s.writer) then 1 else 0) + s.lost
       == |s.sent| - |s.received|
    && (s.lost > 0 ==> !Receivable(s.words, |s.sent[|s.received|]|))
    && forall i :: 0 <= i < |s.sent| ==> |s.sent[i]| + CHUNK_MARGIN <= 4 * s.words
  }

  /** Word position of the chunk the writer works on. */
  function Base(s: State): nat
    requires Owing(s.writer) ==> s.sent != []
  {
    if Owing(s.writer) then Pos(s.sent[..|s.sent| - 1]) else Pos(s.sent)
  }

  ghost predicate WriterInv(s: State)
    requires WellFormed(s)
  {
    s.writer.Sending? ==>
      var Sending(pc, pt, m, k) := s.writer;
      && |m| + CHUNK_MARGIN <= 4 * s.words
      && (Owing(s.writer) ==> s.sent != [] && s.sent[|s.sent| - 1] == m)
      && (!Owing(s.writer) ==> Pos(s.sent) + Words(m) < Pos(s.received) + s.words)
      && pt == Cell(s.words, Base(s))
      && (pc.ClearSize? || pc.MarkAlloc? ==> k == 0)
      && (pc.Copy? ==> At(s.mem, 4 * Base(s) + 8, m[..k]))
      && (pc.StoreSize? || pc.Advance? || pc.Publish? ==> At(s.mem, 4 * Base(s) + 8, m))
      && (pc.Advance? || pc.Publish? ==> At(s.mem, 4 * Base(s), LE32(|m|)))
  }

  ghost predicate ReaderInv(s: State)
    requires WellFormed(s)
  {
    s.reader.Receiving? ==>
      var Receiving(pc, pt, magic, size, buf) := s.reader;
      && |s.received| < |s.sent|
      && var head := s.sent[|s.received|];
      && !pc.Spurious?
      && (!pc.LoadRead? ==> pt == s.rp)
      && (pc.LoadSize? ==> magic == CHUNK_MAGIC)
      && (pc.Fetch? || pc.Erase? || pc.Kill? || pc.Reclaim? ==>
            size == |head| && Receivable(s.words, size) && buf <= head)
      && (pc.Erase? || pc.Kill? || pc.Reclaim? ==> buf == head)
  }

  ghost predicate Inv(s: State) {
    WellFormed(s) && Counted(s) && Published(s) && WriterInv(s) && ReaderInv(s)
  }

  lemma {:induction false} InitInv(words: nat)
    requires ValidSize(words)
    ensures Inv(Init(words))
  {
  }

  /** A fresh ring is all zero but for the sentinel, which is stored one word past the end. */
  lemma {:induction false} InitMemory(words: nat, i: nat)
    requires ValidSize(words) && i < 4 * words
    ensures Init(words).mem[i] == if i == 0 then 5 else 0
  {
    assert LE32(5) == [5, 0, 0, 0];
  }

  /** Where chunk `i` lies: after the first `r` chunks, before the end of all of them. */
  lemma {:induction false} ChunkBounds(ms: seq<Message>, r: nat, i: nat)
    requires r <= i < |ms|
    ensures Pos(ms[..r]) <= Pos(ms[..i])
    ensures Pos(ms[..i]) + Words(ms[i]) <= Pos(ms)
    ensures r < i ==> Pos(ms[..r]) + Words(ms[r]) <= Pos(ms[..i])
    ensures i + 1 < |ms| ==> Pos(ms[..i]) + Words(ms[i]) <= Pos(ms[..|ms| - 1])
  {
    hide Pos, Words;
    assert ms[..|ms|] == ms;
    PosMonotone(ms, r, i);
    PosSplit(ms, i);
    PosMonotone(ms, i + 1, |ms|);
    PosSplit(ms, r);
    if r < i {
      PosMonotone(ms, r + 1, i);
    }
    if i + 1 < |ms| {
      PosMonotone(ms, i + 1, |ms| - 1);
    }
  }

  /** A store into free space leaves every committed chunk alone. */
  lemma {:induction false} FreeStore(s: State, mem': seq<byte>, p: nat, len: nat, i: nat)
    requires Inv(s) && |s.received| <= i < |s.sent| && ChunkAt(s.mem, s.sent, i)
    requires OnlyAt(s.mem, mem', p, len)
    requires 4 * Pos(s.sent) <= p && p + len <= 4 * (Pos(s.received) + s.words)
    ensures ChunkAt(mem', s.sent, i)
  {
    assert s.received == s.sent[..|s.received|];
    ChunkBounds(s.sent, |s.received|, i);
    AtFrame(s.mem, mem', p, len, 4 * Pos(s.sent[..i]), Image(s.sent[i]));
  }

  /** A writer store between `Pos(sent)` and the reader's position, lap-adjusted. */
  lemma {:induction false} FreeStores(s: State, t: State, p: nat, len: nat)
    requires Inv(s) && t.sent == s.sent && t.received == s.received && t.reader == s.reader
    requires s.writer.Sending? && !Owing(s.writer)
    requires OnlyAt(s.mem, t.mem, p, len)
    requires 4 * Pos(s.sent) <= p && p + len <= 4 * (Pos(s.received) + s.words)
    ensures Published(t)
  {
    forall i | |t.received| <= i < |t.sent| && !Unpublished(t, i) && !Erased(t, i)
      ensures ChunkAt(t.mem, t.sent, i)
    {
      FreeStore(s, t.mem, p, len, i);
    }
  }

  /** The free space computed from the wrapped pointers, in terms of the words in use. */
  lemma {:induction false} FreeWords(s: State)
    requires Inv(s)
    ensures Pos(s.received) <= Pos(s.sent)
    ensures var used := Pos(s.sent) - Pos(s.received);
            SpaceFreeWords(s.words, s.wp, s.rp) == if used == 0 then s.words else s.words - 1 - used
  {
    hide At, LE32;
    var P, Q := Pos(s.sent), Pos(s.received);
    assert s.received == s.sent[..|s.received|] && s.sent == s.sent[..|s.sent|];
    PosMonotone(s.sent, |s.received|, |s.sent|);
    CellStep(s.words, Q, P - Q);
  }

  /** A chunk takes the fewest words that hold its eight bytes of header and the message. */
  lemma {:induction false} FewestWords(m: Message)
    ensures 4 * (Words(m) - 1) < 8 + |m| <= 4 * Words(m)
    ensures forall ms :: Pos(ms + [m]) == Pos(ms) + Words(m)
  {
    forall ms: seq<Message>
      ensures Pos(ms + [m]) == Pos(ms) + Words(m)
    {
      assert (ms + [m])[..|ms|] == ms;
    }
  }

  /** What fits, by the messages sent and received: with nothing in the buffer a message and 12
      bytes may fill it to the last cell; otherwise one word must stay free. */
  lemma {:induction false} FitsExact(s: State, msg: Message)
    requires Inv(s) && s.writer.Idle?
    ensures Pos(s.received) <= Pos(s.sent)
    ensures var used := Pos(s.sent) - Pos(s.received);
            var fits := if used == 0 then |msg| + 12 <= 4 * s.words else |msg| + 12 <= 4 * (s.words - 1 - used);
            TrySend(s, msg) == if fits then s.(writer := Sending(ClearSize, s.wp, msg, 0)) else s
  {
    hide Counted, Published, WriterInv, ReaderInv, SpaceFreeWords, Pos;
    FreeWords(s);
  }

  /** What is in memory for every message sent and not received, but for the one chunk of each side
      that is being worked on: four bytes of length, four bytes 0xA1, the message, around the end. */
  lemma {:induction false} ChunkBytes(s: State, i: nat)
    requires Inv(s) && |s.received| <= i < |s.sent| && !Unpublished(s, i) && !Erased(s, i)
    ensures At(s.mem, 4 * Pos(s.sent[..i]), LE32(|s.sent[i]|) + [0xA1, 0xA1, 0xA1, 0xA1] + s.sent[i])
  {
    hide At, Counted, WriterInv, ReaderInv;
    assert ChunkAt(s.mem, s.sent, i);
    assert LE32(CHUNK_MAGIC) == [0xA1, 0xA1, 0xA1, 0xA1];
  }

  lemma {:induction false} TrySendInv(s: State, msg: Message)
    requires Inv(s) && s.writer.Idle?
    ensures Inv(TrySend(s, msg))
  {
    hide At, Cell, LE32, SpaceFreeWords;
    FreeWords(s);
    assert Published(TrySend(s, msg));
  }

  lemma {:induction false} ClearSizeInv(s: State)
    requires Inv(s) && s.writer.Sending? && s.writer.pc.ClearSize?
    ensures Inv(WriterStep(s))
  {
    hide At, OnlyAt, WriteWord, Cell, LE32;
    var t := WriterStep(s);
    WriteWordAt(s.mem, s.words, Base(s), 0);
    FreeStores(s, t, 4 * Base(s), 4);
  }

  lemma {:induction false} MarkAllocInv(s: State)
    requires Inv(s) && s.writer.Sending? && s.writer.pc.MarkAlloc?
    ensures Inv(WriterStep(s))
  {
    hide OnlyAt, WriteWord, Cell, LE32;
    var t := WriterStep(s);
    HeaderCells(s.words, Base(s));
    WriteWordAt(s.mem, s.words, Base(s) + 1, CHUNK_MAGIC_ALLOC);
    FreeStores(s, t, 4 * (Base(s) + 1), 4);
  }

  lemma {:induction false} CopyInv(s: State)
    requires Inv(s) && s.writer.Sending? && s.writer.pc.Copy?
    ensures Inv(WriterStep(s))
  {
    hide At, OnlyAt, WriteWord, Cell, LE32, Pos, PayloadCell, Image;
    var t := WriterStep(s);
    var Sending(_, _, m, k) := s.writer;
    var p := 4 * Base(s) + 8;
    if k == |m| {
      assert m[..k] == m;
      assert Published(t);
    } else {
      PayloadCellAt(s.words, Base(s), |m|, k);
      PutByteAt(s.mem, p + k, m[k]);
      FreeStores(s, t, p + k, 1);
      AtFrame(s.mem, t.mem, p + k, 1, p, m[..k]);
      AtSplit(t.mem, p, m[..k], [m[k]]);
      assert m[..k] + [m[k]] == m[..k + 1];
    }
  }

  lemma {:induction false} StoreSizeInv(s: State)
    requires Inv(s) && s.writer.Sending? && s.writer.pc.StoreSize?
    ensures Inv(WriterStep(s))
  {
    hide At, OnlyAt, WriteWord, Cell, LE32, Pos, Image;
    var t := WriterStep(s);
    var m := s.writer.msg;
    WriteWordAt(s.mem, s.words, Base(s), |m|);
    FreeStores(s, t, 4 * Base(s), 4);
    AtFrame(s.mem, t.mem, 4 * Base(s), 4, 4 * Base(s) + 8, m);
  }

  lemma {:induction false} AdvanceInv(s: State)
    requires Inv(s) && s.writer.Sending? && s.writer.pc.Advance?
    ensures Inv(WriterStep(s))
  {
    hide At, Cell, LE32;
    var t := WriterStep(s);
    var m := s.writer.msg;
    assert t.sent[..|t.sent| - 1] == s.sent;
    ChunkStepAt(s.words, Pos(s.sent), m);
    forall i | |t.received| <= i < |t.sent| && !Unpublished(t, i) && !Erased(t, i)
      ensures ChunkAt(t.mem, t.sent, i)
    {
      assert t.sent[..i] == s.sent[..i];
      assert ChunkAt(s.mem, s.sent, i);
    }
  }

  /** Setting the magic word completes the image of a chunk. */
  lemma {:induction false} MagicCompletes(mem: seq<byte>, words: nat, b: nat, m: Message)
    requires |mem| == 4 * words && |m| + CHUNK_MARGIN <= 4 * words
    requires At(mem, 4 * b, LE32(|m|)) && At(mem, 4 * b + 8, m)
    ensures At(WriteWord(mem, Cell(words, b + 1), CHUNK_MAGIC), 4 * b, Image(m))
  {
    hide At, OnlyAt, WriteWord, Cell, LE32;
    var mem' := WriteWord(mem, Cell(words, b + 1), CHUNK_MAGIC);
    var p, tag := 4 * b + 4, LE32(CHUNK_MAGIC);
    WriteWordAt(mem, words, b + 1, CHUNK_MAGIC);
    AtFrame(mem, mem', p, 4, 4 * b, LE32(|m|));
    AtFrame(mem, mem', p, 4, 4 * b + 8, m);
    AtSplit(mem', 4 * b, LE32(|m|), tag);
    AtSplit(mem', 4 * b, LE32(|m|) + tag, m);
  }

  lemma {:induction false} PublishInv(s: State)
    requires Inv(s) && s.writer.Sending? && s.writer.pc.Publish?
    ensures Inv(WriterStep(s))
  {
    hide At, OnlyAt, WriteWord, Cell, LE32, Pos, Image;
    var t := WriterStep(s);
    var b, last := Base(s), |s.sent| - 1;
    HeaderCells(s.words, b);
    WriteWordAt(s.mem, s.words, b + 1, CHUNK_MAGIC);
    assert s.received == s.sent[..|s.received|];
    ChunkBounds(s.sent, |s.received|, last);
    forall i | |t.received| <= i < |t.sent| && !Unpublished(t, i) && !Erased(t, i)
      ensures ChunkAt(t.mem, t.sent, i)
    {
      if i == last {
        MagicCompletes(s.mem, s.words, b, s.writer.msg);
      } else {
        assert !Unpublished(s, i) && !Erased(s, i);
        ChunkBounds(s.sent, |s.received|, i);
        AtFrame(s.mem, t.mem, 4 * (b + 1), 4, 4 * Pos(s.sent[..i]), Image(s.sent[i]));
      }
    }
  }

  lemma {:induction false} WriterStepInv(s: State)
    requires Inv(s) && s.writer.Sending?
    ensures Inv(WriterStep(s))
  {
    match s.writer.pc
    case ClearSize => ClearSizeInv(s);
    case MarkAlloc => MarkAllocInv(s);
    case Copy => CopyInv(s);
    case StoreSize => StoreSizeInv(s);
    case Advance => AdvanceInv(s);
    case Publish => PublishInv(s);
    case Post => assert Published(WriterStep(s));
  }

  /** A reader store into the header of the head chunk leaves the other chunks alone. */
  lemma {:induction false} HeadStores(s: State, t: State, p: nat)
    requires Inv(s) && s.reader.Receiving?
    requires t.sent == s.sent && t.received == s.received && t.writer == s.writer
    requires t.reader.Receiving? && (t.reader.pc.Kill? || t.reader.pc.Reclaim?)
    requires OnlyAt(s.mem, t.mem, p, 4)
    requires 4 * Pos(s.received) <= p && p + 4 <= 4 * Pos(s.received) + 8
    ensures Published(t)
  {
    hide At, OnlyAt, Cell, Pos;
    var r := |s.received|;
    assert s.received == s.sent[..r];
    forall i | r <= i < |t.sent| && !Unpublished(t, i) && !Erased(t, i)
      ensures ChunkAt(t.mem, t.sent, i)
    {
      assert !Unpublished(s, i) && !Erased(s, i);
      ChunkBounds(s.sent, r, i);
      AtFrame(s.mem, t.mem, p, 4, 4 * Pos(s.sent[..i]), Image(s.sent[i]));
    }
  }

  /** ... and so does the chunk the writer is filling. */
  lemma {:induction false} HeadStoresWriter(s: State, t: State, p: nat)
    requires Inv(s) && s.reader.Receiving? && WellFormed(t)
    requires t == s.(mem := t.mem, reader := t.reader)
    requires OnlyAt(s.mem, t.mem, p, 4)
    requires 4 * Pos(s.received) <= p && p + 4 <= 4 * Pos(s.received) + 8
    ensures WriterInv(t)
  {
    hide At, OnlyAt, Cell, LE32, Pos, Image;
    if s.writer.Sending? && !s.writer.pc.Post? {
      var b, m, r := Base(s), s.writer.msg, |s.received|;
      assert s.received == s.sent[..r];
      ChunkBounds(s.sent, r, |s.sent| - 1);
      ChunkBounds(s.sent, r, r);
      if s.writer.pc.Copy? {
        AtFrame(s.mem, t.mem, p, 4, 4 * b + 8, m[..s.writer.k]);
      }
      if s.writer.pc.StoreSize? || s.writer.pc.Advance? || s.writer.pc.Publish? {
        AtFrame(s.mem, t.mem, p, 4, 4 * b + 8, m);
      }
      if s.writer.pc.Advance? || s.writer.pc.Publish? {
        AtFrame(s.mem, t.mem, p, 4, 4 * b, LE32(|m|));
      }
    }
  }

  /** The chunk at the head is published whenever the reader is past the semaphore. */
  lemma {:induction false} HeadPublished(s: State)
    requires Inv(s) && s.reader.Receiving? && !s.reader.pc.Kill? && !s.reader.pc.Reclaim?
    ensures At(s.mem, 4 * Pos(s.received), LE32(|s.sent[|s.received|]|))
    ensures At(s.mem, 4 * (Pos(s.received) + 1), LE32(CHUNK_MAGIC))
    ensures At(s.mem, 4 * Pos(s.received) + 8, s.sent[|s.received|])
  {
    hide At, Cell, LE32;
    var r, p := |s.received|, 4 * Pos(s.received);
    var m := s.sent[r];
    assert s.received == s.sent[..r];
    assert !Unpublished(s, r) && !Erased(s, r);
    assert ChunkAt(s.mem, s.sent, r);
    AtSplit(s.mem, p, LE32(|m|) + LE32(CHUNK_MAGIC), m);
    AtSplit(s.mem, p, LE32(|m|), LE32(CHUNK_MAGIC));
  }

  lemma {:induction false} WaitInv(s: State)
    requires Inv(s) && s.reader.Waiting? && s.sem > 0
    ensures Inv(ReaderStep(s))
  {
    hide At, Cell, LE32, Pos;
    assert Published(ReaderStep(s));
  }

  lemma {:induction false} LoadPointersInv(s: State)
    requires Inv(s) && s.reader.Receiving? && (s.reader.pc.LoadRead? || s.reader.pc.LoadWrite?)
    ensures Inv(ReaderStep(s))
  {
    hide At, Cell, LE32, Pos;
    var r, P, Q := |s.received|, Pos(s.sent), Pos(s.received);
    assert s.received == s.sent[..r];
    ChunkBounds(s.sent, r, r);
    CellDistinct(s.words, Q, P);
    assert Published(ReaderStep(s));
  }

  lemma {:induction false} LoadHeaderInv(s: State)
    requires Inv(s) && s.reader.Receiving? && (s.reader.pc.LoadMagic? || s.reader.pc.LoadSize?)
    ensures Inv(ReaderStep(s))
  {
    hide At, Cell, LE32, ReadWord, Pos, Words, Image;
    var Q := Pos(s.received);
    HeadPublished(s);
    HeaderCells(s.words, Q);
    ReadWordAt(s.mem, s.words, Q + 1, CHUNK_MAGIC);
    ReadWordAt(s.mem, s.words, Q, |s.sent[|s.received|]|);
    assert Published(ReaderStep(s));
  }

  lemma {:induction false} FetchInv(s: State)
    requires Inv(s) && s.reader.Receiving? && s.reader.pc.Fetch?
    ensures Inv(ReaderStep(s))
  {
    hide Cell, LE32, PayloadCell;
    var t := ReaderStep(s);
    var m, Q, k := s.sent[|s.received|], Pos(s.received), |s.reader.buf|;
    HeadPublished(s);
    if k < |m| {
      PayloadCellAt(s.words, Q, |m|, k);
      assert s.mem[Cell(|s.mem|, 4 * Q + 8 + k)] == m[k];
    }
    assert Published(t);
  }

  lemma {:induction false} EraseInv(s: State)
    requires Inv(s) && s.reader.Receiving? && (s.reader.pc.Erase? || s.reader.pc.Kill?)
    ensures Inv(ReaderStep(s))
  {
    hide At, OnlyAt, Cell, LE32, WriteWord;
    var t := ReaderStep(s);
    var w := if s.reader.pc.Erase? then Pos(s.received) else Pos(s.received) + 1;
    HeaderCells(s.words, Pos(s.received));
    WriteWordAt(s.mem, s.words, w, if s.reader.pc.Erase? then 0 else CHUNK_MAGIC_DEAD);
    HeadStores(s, t, 4 * w);
    HeadStoresWriter(s, t, 4 * w);
  }

  lemma {:induction false} ReclaimInv(s: State)
    requires Inv(s) && s.reader.Receiving? && s.reader.pc.Reclaim?
    ensures Inv(ReaderStep(s))
  {
    hide At, Cell, LE32, Pos, Words, Image;
    var t := ReaderStep(s);
    var r := |s.received|;
    assert s.received == s.sent[..r] && t.received == s.sent[..r + 1];
    ChunkBounds(s.sent, r, r);
    PosSplit(s.sent, r);
    ChunkStepAt(s.words, Pos(s.received), s.sent[r]);
    forall i | |t.received| <= i < |t.sent| && !Unpublished(t, i) && !Erased(t, i)
      ensures ChunkAt(t.mem, t.sent, i)
    {
      assert !Unpublished(s, i) && !Erased(s, i);
    }
  }

  lemma {:induction false} ReaderStepInv(s: State)
    requires Inv(s) && ReaderEnabled(s)
    ensures Inv(ReaderStep(s))
  {
    if s.reader.Waiting? {
      WaitInv(s);
    } else {
      match s.reader.pc
      case LoadRead => LoadPointersInv(s);
      case LoadWrite => LoadPointersInv(s);
      case LoadMagic => LoadHeaderInv(s);
      case LoadSize => LoadHeaderInv(s);
      case Fetch => FetchInv(s);
      case Erase => EraseInv(s);
      case Kill => EraseInv(s);
      case Reclaim => ReclaimInv(s);
    }
  }

  // ---------------------------------------------------------------------------------------
  // Main results
  // ---------------------------------------------------------------------------------------

  lemma {:induction false} NextInv(s: State, t: State)
    requires Inv(s) && Next(s, t)
    ensures Inv(t)
  {
    hide Counted, Published, WriterInv, ReaderInv;
    if s.writer.Sending? && t == WriterStep(s) {
      WriterStepInv(s);
    } else if ReaderEnabled(s) && t == ReaderStep(s) {
      ReaderStepInv(s);
    } else {
      var msg :| t == TrySend(s, msg);
      TrySendInv(s, msg);
    }
  }

  lemma {:induction false} RunInv(run: seq<State>, i: nat)
    requires IsRun(run) && i < |run|
    ensures Inv(run[i])
  {
    if i == 0 {
      InitInv(run[0].words);
    } else {
      RunInv(run, i - 1);
      NextInv(run[i - 1], run[i]);
    }
  }

  /** In every interleaving the messages come out unchanged and in the order sent, a reader past
      the semaphore never finds the buffer empty, and receives have failed only if the length of
      the message at the head is one no reader accepts. */
  lemma {:induction false} FifoInEveryRun(run: seq<State>, i: nat)
    requires IsRun(run) && i < |run|
    ensures run[i].received <= run[i].sent
    ensures run[i].reader.Receiving? ==> !run[i].reader.pc.Spurious?
    ensures run[i].lost > 0 ==>
              |run[i].received| < |run[i].sent|
              && !Receivable(run[i].words, |run[i].sent[|run[i].received|]|)
  {
    RunInv(run, i);
  }

  /** Runs that only send receivable messages never fail. */
  lemma {:induction false} NoFailure(run: seq<State>, i: nat)
    requires IsRun(run) && i < |run|
    requires forall j :: 0 <= j < |run[i].sent| ==> Receivable(run[i].words, |run[i].sent[j]|)
    ensures run[i].lost == 0 && (run[i].reader.Receiving? ==> !run[i].reader.pc.Spurious?)
  {
    FifoInEveryRun(run, i);
  }

  /** A receive that has failed leaves its message in front of all others: no later receive
      succeeds. */
  lemma {:induction false} Blocked(run: seq<State>, i: nat, j: nat)
    requires IsRun(run) && i <= j < |run| && run[i].lost > 0
    ensures run[j].lost >= run[i].lost && run[j].received == run[i].received
    decreases j
  {
    hide Inv, IsRun;
    if i < j {
      Blocked(run, i, j - 1);
      RunInv(run, j - 1);
      RunNext(run, j - 1);
      BlockedStep(run[j - 1], run[j]);
    }
  }

  lemma {:induction false} RunNext(run: seq<State>, i: nat)
    requires IsRun(run) && i + 1 < |run|
    ensures WellFormed(run[i]) && Next(run[i], run[i + 1])
  {
    hide Next, WellFormed;
  }

  lemma {:induction false} BlockedStep(s: State, t: State)
    requires Inv(s) && Next(s, t) && s.lost > 0
    ensures t.lost >= s.lost && t.received == s.received
  {
    hide Cell, WriteWord, PayloadCell, ReadWord, Published, ChunkStep, Pos, WriterInv;
  }

  /** A chunk that is being written has size 0 until the size is stored, and from the second store to
      the last one the mark of an allocated chunk in place of the magic word. */
  ghost predicate Hidden(s: State)
    requires Inv(s)
  {
    s.writer.Sending? ==>
      var pc := s.writer.pc;
      && (pc.MarkAlloc? || pc.Copy? || pc.StoreSize? ==> At(s.mem, 4 * Base(s), LE32(0)))
      && (pc.Copy? || pc.StoreSize? || pc.Advance? || pc.Publish? ==> At(s.mem, 4 * (Base(s) + 1), LE32(0xA110CED0)))
  }

  lemma {:induction false} HiddenWriter(s: State)
    requires Inv(s) && s.writer.Sending? && Hidden(s) && Inv(WriterStep(s))
    ensures Hidden(WriterStep(s))
  {
    hide At, OnlyAt, WriteWord, Cell, LE32, Pos, PayloadCell, Counted, Published, ReaderInv;
    var t, b := WriterStep(s), Base(s);
    var Sending(pc, _, m, k) := s.writer;
    HeaderCells(s.words, b);
    match pc
    case ClearSize => WriteWordAt(s.mem, s.words, b, 0);
    case MarkAlloc =>
      WriteWordAt(s.mem, s.words, b + 1, CHUNK_MAGIC_ALLOC);
      AtFrame(s.mem, t.mem, 4 * (b + 1), 4, 4 * b, LE32(0));
    case Copy =>
      if k < |m| {
        PayloadCellAt(s.words, b, |m|, k);
        PutByteAt(s.mem, 4 * b + 8 + k, m[k]);
        AtFrame(s.mem, t.mem, 4 * b + 8 + k, 1, 4 * b, LE32(0));
        AtFrame(s.mem, t.mem, 4 * b + 8 + k, 1, 4 * (b + 1), LE32(0xA110CED0));
      }
    case StoreSize =>
      WriteWordAt(s.mem, s.words, b, |m|);
      AtFrame(s.mem, t.mem, 4 * b, 4, 4 * (b + 1), LE32(0xA110CED0));
    case Advance => assert t.sent[..|t.sent| - 1] == s.sent;
    case _ =>
  }

  /** The header of the chunk at the head lies before that of the writer's chunk, within a lap. */
  lemma {:induction false} HeadBelowWriter(s: State)
    requires Inv(s) && s.reader.Receiving? && s.writer.Sending? && !s.writer.pc.Post?
    ensures Pos(s.received) + 2 <= Base(s) && Base(s) + 2 <= Pos(s.received) + s.words
  {
    hide At, Cell, LE32, Pos, Image, Published;
    var r := |s.received|;
    assert s.received == s.sent[..r];
    ChunkBounds(s.sent, r, |s.sent| - 1);
    ChunkBounds(s.sent, r, r);
  }

  lemma {:induction false} HiddenReader(s: State)
    requires Inv(s) && ReaderEnabled(s) && Hidden(s) && Inv(ReaderStep(s))
    ensures Hidden(ReaderStep(s))
  {
    hide At, OnlyAt, WriteWord, Cell, LE32, Pos, ReadWord, Published, Receivable;
    var t := ReaderStep(s);
    if s.reader.Receiving? && (s.reader.pc.Erase? || s.reader.pc.Kill?) && s.writer.Sending? && !s.writer.pc.Post? {
      var w := if s.reader.pc.Erase? then Pos(s.received) else Pos(s.received) + 1;
      HeaderCells(s.words, Pos(s.received));
      WriteWordAt(s.mem, s.words, w, if s.reader.pc.Erase? then 0 else CHUNK_MAGIC_DEAD);
      HeadBelowWriter(s);
      HiddenFrame(s, t, 4 * w);
    }
  }

  lemma {:induction false} HiddenFrame(s: State, t: State, p: nat)
    requires Inv(s) && Inv(t) && Hidden(s) && s.writer.Sending? && t.writer == s.writer && t.sent == s.sent && OnlyAt(s.mem, t.mem, p, 4)
    requires p + 4 <= 4 * Base(s) && 4 * Base(s) + 8 <= p + |s.mem|
    ensures Hidden(t)
  {
    hide At, OnlyAt, LE32, Pos, Counted, Published, ReaderInv;
    var b, pc := Base(s), s.writer.pc;
    if pc.MarkAlloc? || pc.Copy? || pc.StoreSize? {
      AtFrame(s.mem, t.mem, p, 4, 4 * b, LE32(0));
    }
    if pc.Copy? || pc.StoreSize? || pc.Advance? || pc.Publish? {
      AtFrame(s.mem, t.mem, p, 4, 4 * (b + 1), LE32(0xA110CED0));
    }
  }

  lemma {:induction false} HiddenInRun(run: seq<State>, i: nat)
    requires IsRun(run) && i < |run|
    ensures Inv(run[i]) && Hidden(run[i])
  {
    hide Counted, Published, WriterInv, ReaderInv, WriterStep, ReaderStep, Inv;
    RunInv(run, i);
    if i == 0 {
      assert run[0] == Init(run[0].words);
    } else {
      HiddenInRun(run, i - 1);
      var s, t := run[i - 1], run[i];
      assert Next(s, t);
      if s.writer.Sending? && t == WriterStep(s) {
        HiddenWriter(s);
      } else if ReaderEnabled(s) && t == ReaderStep(s) {
        HiddenReader(s);
      }
    }
  }

  /** In no interleaving can a chunk pass for a message before it is complete: while the message is
      copied its size reads 0, and until the last store its magic word reads 0xA110CED0. */
  lemma {:induction false} HalfWritten(run: seq<State>, i: nat)
    requires IsRun(run) && i < |run| && run[i].writer.Sending?
    ensures Inv(run[i])
    ensures var s := run[i];
            && (s.writer.pc.MarkAlloc? || s.writer.pc.Copy? || s.writer.pc.StoreSize? ==> ReadWord(s.mem, s.writer.pt) == 0)
            && (s.writer.pc.Copy? || s.writer.pc.StoreSize? || s.writer.pc.Advance? || s.writer.pc.Publish? ==>
                  ReadWord(s.mem, Cell(s.words, s.writer.pt + 1)) == 0xA110CED0)
  {
    hide At, LE32, ReadWord, Cell, Pos, Counted, Published, ReaderInv;
    HiddenInRun(run, i);
    var s := run[i];
    HeaderCells(s.words, Base(s));
    if s.writer.pc.MarkAlloc? || s.writer.pc.Copy? || s.writer.pc.StoreSize? {
      ReadWordAt(s.mem, s.words, Base(s), 0);
    }
    if s.writer.pc.Copy? || s.writer.pc.StoreSize? || s.writer.pc.Advance? || s.writer.pc.Publish? {
      ReadWordAt(s.mem, s.words, Base(s) + 1, 0xA110CED0);
    }
  }

  /** The header check rejects the head chunk exactly when its message is empty or leaves fewer than
      72 bytes of the ring. */
  lemma {:induction false} HeaderCheckExact(s: State)
    requires Inv(s) && s.reader.Receiving? && s.reader.pc.LoadSize?
    ensures var n := |s.sent[|s.received|]|; ReaderStep(s).lost == s.lost + (if n == 0 || n + 72 > 4 * s.words then 1 else 0)
  {
    hide At, Cell, LE32, ReadWord;
    HeadPublished(s);
    ReadWordAt(s.mem, s.words, Pos(s.received), |s.sent[|s.received|]|);
  }

  /** What the two sides implement: the queue of messages sent and not yet received. */
  function Queue(s: State): seq<Message>
    requires |s.received| <= |s.sent|
  {
    s.sent[|s.received|..]
  }

  ghost predicate QueueStep(s: State, t: State, appended: seq<Message>) {
    && |s.received| <= |s.sent| && |t.received| <= |t.sent|
    && if t.received == s.received then
         Queue(t) == Queue(s) + appended
       else
         Queue(s) != [] && t.received == s.received + [Queue(s)[0]] && Queue(t) == Queue(s)[1..]
  }

  /** Every writer step keeps the queue or, at the pointer store, appends the message. */
  lemma {:induction false} WriterRefinesQueue(s: State)
    requires Inv(s) && s.writer.Sending?
    ensures QueueStep(s, WriterStep(s), if s.writer.pc.Advance? then [s.writer.msg] else [])
    ensures WriterStep(s).received == s.received
  {
    hide Cell, WriteWord, PayloadCell, Published, ChunkStep, Pos, WriterInv, ReaderInv;
  }

  /** Every reader step keeps the queue or, at the last store, hands its head to the receiver. */
  lemma {:induction false} ReaderRefinesQueue(s: State)
    requires Inv(s) && ReaderEnabled(s)
    ensures QueueStep(s, ReaderStep(s), [])
    ensures ReaderStep(s).received != s.received <==> s.reader.Receiving? && s.reader.pc.Reclaim?
  {
    hide Cell, WriteWord, PayloadCell, ReadWord, Published, ChunkStep, Pos, WriterInv;
  }
}
