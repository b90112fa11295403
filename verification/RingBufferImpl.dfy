/** `RingBuffer` of `ringbuffer.rs` as an object over a byte array.

    Each method performs the stores and loads of the source in order, and its contract says that
    they are exactly the steps of the corresponding program of module `RingBuffer`, taken without
    interruption; what holds of every interleaving therefore holds of these methods. */
module RingBufferImpl {
  import opened Bytes
  import R = RingBuffer

  datatype Header = Good(pt: nat, size: nat) | NoData | Corrupt

  datatype Received = Message(bytes: seq<byte>) | Nothing | Failure

  /** `n` writer steps in a row. */
  ghost function WriterSolo(s: R.State, n: nat): (t: R.State)
    requires R.Inv(s)
    ensures R.Inv(t)
  {
    if n == 0 then s else
      var p := WriterSolo(s, n - 1);
      if p.writer.Idle? then p else (R.WriterStepInv(p); R.WriterStep(p))
  }

  /** `n` reader steps in a row. */
  ghost function ReaderSolo(s: R.State, n: nat): (t: R.State)
    requires R.Inv(s)
    ensures R.Inv(t)
  {
    if n == 0 then s else
      var p := ReaderSolo(s, n - 1);
      if !R.ReaderEnabled(p) then p else (R.ReaderStepInv(p); R.ReaderStep(p))
  }

  ghost function StartSend(s: R.State, msg: R.Message): (t: R.State)
    requires R.Inv(s) && s.writer.Idle?
    ensures R.Inv(t) && t == R.TrySend(s, msg)
  {
    R.TrySendInv(s, msg);
    R.TrySend(s, msg)
  }

  lemma {:induction false} SoloStart(s: R.State)
    requires R.Inv(s)
    ensures WriterSolo(s, 0) == s && ReaderSolo(s, 0) == s
  {
  }

  lemma {:induction false} SoloWrite(s: R.State, n: nat)
    requires R.Inv(s) && WriterSolo(s, n).writer.Sending?
    ensures WriterSolo(s, n + 1) == R.WriterStep(WriterSolo(s, n))
  {
  }

  lemma {:induction false} SoloRead(s: R.State, n: nat)
    requires R.Inv(s) && R.ReaderEnabled(ReaderSolo(s, n))
    ensures ReaderSolo(s, n + 1) == R.ReaderStep(ReaderSolo(s, n))
  {
  }

  lemma {:induction false} EmptyMessageSent(words: nat)
    requires R.ValidSize(words)
    ensures R.ChunkFits(words, 0, 0, 0) && R.Inv(R.Init(words))
    ensures var s := WriterSolo(StartSend(R.Init(words), []), 7);
            s.words == words && s.writer.Idle? && s.reader.Waiting? && s.sem == 1 && s.sent == [[]] && s.received == [] && s.lost == 0
  {
    hide R.Counted, R.Published, R.WriterInv, R.ReaderInv, R.WriteWord, R.ChunkStep, Cell, WriterSolo;
    R.InitInv(words);
    var s := StartSend(R.Init(words), []);
    SoloStart(s);
    SoloWrite(s, 0);
    SoloWrite(s, 1);
    SoloWrite(s, 2);
    SoloWrite(s, 3);
    SoloWrite(s, 4);
    SoloWrite(s, 5);
    SoloWrite(s, 6);
  }

  /** A message no reader accepts is still accepted for sending, and then blocks the ring: the
      empty message, sent into a fresh ring, makes the first receive fail. */
  lemma {:induction false} EmptyMessageFails(words: nat)
    requires R.ValidSize(words)
    ensures R.ChunkFits(words, 0, 0, 0) && R.Inv(R.Init(words))
    ensures var s := ReaderSolo(WriterSolo(StartSend(R.Init(words), []), 7), 5);
            s.reader.Waiting? && s.lost == 1 && s.sent == [[]] && s.received == []
  {
    hide R.Counted, R.Published, R.WriterInv, R.ReadWord, Cell, WriterSolo, ReaderSolo;
    EmptyMessageSent(words);
    var t := WriterSolo(StartSend(R.Init(words), []), 7);
    SoloStart(t);
    SoloRead(t, 0);
    SoloRead(t, 1);
    SoloRead(t, 2);
    SoloRead(t, 3);
    SoloRead(t, 4);
    R.HeaderCheckExact(ReaderSolo(t, 4));
  }

  class RingBuffer {
    const words: nat
    const mem: array<byte>
    var writePt: nat
    var readPt: nat
    var sem: nat
    ghost var sent: seq<R.Message>
    ghost var received: seq<R.Message>
    ghost var lost: nat

    /** The shared state, with the control states of the two sides. */
    ghost function Snapshot(w: R.Writer, r: R.Reader): R.State
      reads this, mem
    {
      R.State(words, mem[..], writePt, readPt, sem, w, r, sent, received, lost)
    }

    constructor (size: nat)
      requires R.ValidSize(size)
      ensures words == size && fresh(mem)
      ensures Snapshot(R.Idle, R.Waiting) == R.Init(size)
    {
      words := size;
      mem := new byte[4 * size](_ => 0);
      writePt, readPt, sem := 0, 0, 0;
      sent, received, lost := [], [], 0;
      new;
      assert mem[..] == seq(4 * size, i => 0 as byte);
      StoreWord(0, 5);
    }

    method StoreWord(i: nat, v: nat)
      requires 4 * i + 4 <= mem.Length
      modifies mem
      ensures mem[..] == R.WriteWord(old(mem[..]), i, v)
    {
      var w := LE32(v);
      mem[4 * i], mem[4 * i + 1], mem[4 * i + 2], mem[4 * i + 3] := w[0], w[1], w[2], w[3];
    }

    method LoadWord(i: nat) returns (v: nat)
      requires 4 * i + 4 <= mem.Length
      ensures v == R.ReadWord(mem[..], i)
    {
      v := FromLE32(mem[4 * i..4 * i + 4]);
      assert mem[..][4 * i..4 * i + 4] == mem[4 * i..4 * i + 4];
    }

    /** The payload copy of `write_chunk`; `s` is the state in which the send started. */
    method CopyIn(pt: nat, msg: R.Message, ghost r: R.Reader, ghost s: R.State)
      requires R.Inv(s) && Snapshot(R.Sending(R.Copy, pt, msg, 0), r) == WriterSolo(s, 2)
      modifies mem
      ensures Snapshot(R.Sending(R.StoreSize, pt, msg, |msg|), r) == WriterSolo(s, |msg| + 3)
    {
      hide R.Counted, R.Published, R.WriterInv, R.ReaderInv;
      hide WriterSolo, R.WriteWord, R.PayloadCell, R.ChunkStep, Cell, LE32;
      var k := 0;
      while k < |msg|
        invariant 0 <= k <= |msg|
        invariant Snapshot(R.Sending(R.Copy, pt, msg, k), r) == WriterSolo(s, k + 2)
      {
        SoloWrite(s, k + 2);
        mem[R.PayloadCell(words, pt, |msg|, k)] := msg[k];
        k := k + 1;
      }
      SoloWrite(s, |msg| + 2);
    }

    /** The commit of `write_chunk`: size, write pointer, magic, semaphore. */
    method Commit(pt: nat, msg: R.Message, ghost r: R.Reader, ghost s: R.State)
      requires R.Inv(s) && Snapshot(R.Sending(R.StoreSize, pt, msg, |msg|), r) == WriterSolo(s, |msg| + 3)
      modifies this, mem
      ensures Snapshot(R.Idle, r) == WriterSolo(s, |msg| + 7)
      ensures sent == old(sent) + [msg] && received == old(received)
    {
      hide R.Counted, R.Published, R.WriterInv, R.ReaderInv;
      hide WriterSolo, R.WriteWord, R.PayloadCell, R.ChunkStep, Cell, LE32;
      SoloWrite(s, |msg| + 3);
      StoreWord(pt, |msg|);
      SoloWrite(s, |msg| + 4);
      writePt, sent := R.ChunkStep(words, pt, |msg|), sent + [msg];
      SoloWrite(s, |msg| + 5);
      StoreWord(Cell(words, pt + 1), R.CHUNK_MAGIC);
      SoloWrite(s, |msg| + 6);
      sem := sem + 1;
    }

    /** `try_send` with `write_chunk`, whatever the reader is in the middle of. */
    method TrySend(msg: R.Message, ghost r: R.Reader) returns (ok: bool)
      requires R.Inv(Snapshot(R.Idle, r))
      modifies this, mem
      ensures ok == R.ChunkFits(words, old(writePt), old(readPt), |msg|) && R.Pos(old(received)) <= R.Pos(old(sent))
      ensures var used := R.Pos(old(sent)) - R.Pos(old(received));
              ok <==> if used == 0 then |msg| + 12 <= 4 * words else |msg| + 12 <= 4 * (words - 1 - used)
      ensures ok ==> Snapshot(R.Idle, r) == WriterSolo(StartSend(old(Snapshot(R.Idle, r)), msg), |msg| + 7)
      ensures ok ==> sent == old(sent) + [msg]
      ensures !ok ==> Snapshot(R.Idle, r) == old(Snapshot(R.Idle, r))
      ensures received == old(received)
    {
      hide R.Counted, R.Published, R.WriterInv, R.ReaderInv;
      hide WriterSolo, R.WriteWord, R.PayloadCell, R.ChunkStep, Cell, LE32;
      ok := R.ChunkFits(words, writePt, readPt, |msg|);
      R.FitsExact(Snapshot(R.Idle, r), msg);
      if ok {
        var pt := writePt;
        ghost var s := StartSend(Snapshot(R.Idle, r), msg);
        SoloStart(s);
        SoloWrite(s, 0);
        StoreWord(pt, 0);
        SoloWrite(s, 1);
        StoreWord(Cell(words, pt + 1), R.CHUNK_MAGIC_ALLOC);
        CopyIn(pt, msg, r, s);
        Commit(pt, msg, r, s);
      }
    }

    /** The payload copy of `read_chunk`; `s` is the state in which the receive started. */
    method CopyOut(pt: nat, size: nat, ghost w: R.Writer, ghost s: R.State) returns (buf: R.Message)
      requires R.Inv(s) && Snapshot(w, R.Receiving(R.Fetch, pt, R.CHUNK_MAGIC, size, [])) == ReaderSolo(s, 5)
      ensures Snapshot(w, R.Receiving(R.Erase, pt, R.CHUNK_MAGIC, size, buf)) == ReaderSolo(s, size + 6)
    {
      hide R.Counted, R.Published, R.WriterInv, R.ReaderInv;
      hide ReaderSolo, R.WriteWord, R.PayloadCell, R.ChunkStep, R.ReadWord, Cell;
      buf := [];
      while |buf| < size
        invariant |buf| <= size
        invariant Snapshot(w, R.Receiving(R.Fetch, pt, R.CHUNK_MAGIC, size, buf)) == ReaderSolo(s, |buf| + 5)
      {
        SoloRead(s, |buf| + 5);
        buf := buf + [mem[R.PayloadCell(words, pt, size, |buf|)]];
      }
      SoloRead(s, size + 5);
    }

    /** Reclaiming the chunk: clear the size, kill the magic, move the read pointer. */
    method ReclaimChunk(pt: nat, size: nat, buf: R.Message, ghost w: R.Writer, ghost s: R.State)
      requires R.Inv(s)
      requires Snapshot(w, R.Receiving(R.Erase, pt, R.CHUNK_MAGIC, size, buf)) == ReaderSolo(s, size + 6)
      modifies this, mem
      ensures Snapshot(w, R.Waiting) == ReaderSolo(s, size + 9)
      ensures received == old(received) + [buf] && sent == old(sent)
    {
      hide R.Inv, R.Receivable;
      hide ReaderSolo, R.WriteWord, R.PayloadCell, R.ChunkStep, R.ReadWord, Cell, LE32;
      SoloRead(s, size + 6);
      StoreWord(pt, 0);
      SoloRead(s, size + 7);
      StoreWord(Cell(words, pt + 1), R.CHUNK_MAGIC_DEAD);
      SoloRead(s, size + 8);
      readPt, received := R.ChunkStep(words, pt, size), received + [buf];
    }

    /** The first half of `read_chunk`: the emptiness test and the header check. They find the
        buffer empty never, and the header bad exactly when no reader accepts the length. */
    method CheckHeader(ghost w: R.Writer, ghost s: R.State) returns (h: Header)
      requires R.Inv(s) && Snapshot(w, R.Receiving(R.LoadRead, 0, 0, 0, [])) == ReaderSolo(s, 1)
      ensures |received| < |sent|
      ensures h == if R.Receivable(words, |sent[|received|]|) then Good(readPt, |sent[|received|]|) else Corrupt
      ensures h.Good? ==>
                Snapshot(w, R.Receiving(R.Fetch, h.pt, R.CHUNK_MAGIC, h.size, [])) == ReaderSolo(s, 5)
      ensures h.Corrupt? ==> Snapshot(w, R.Waiting).(lost := lost + 1) == ReaderSolo(s, 5)
    {
      hide R.Published, R.WriterInv, R.Counted;
      hide ReaderSolo, R.WriteWord, R.PayloadCell, R.ChunkStep, R.ReadWord, Cell;
      SoloRead(s, 1);
      var pt := readPt;
      SoloRead(s, 2);
      if pt == writePt {
        return NoData;
      }
      SoloRead(s, 3);
      var magic := LoadWord(Cell(words, pt + 1));
      SoloRead(s, 4);
      R.HeaderCheckExact(ReaderSolo(s, 4));
      var size := LoadWord(pt);
      if size == 0 || size > 4 * words - 72 || magic != R.CHUNK_MAGIC {
        return Corrupt;
      }
      return Good(pt, size);
    }

    /** `recv` once its wait on the semaphore succeeds, whatever the writer is in the middle of. */
    method Recv(ghost w: R.Writer) returns (res: Received)
      requires R.Inv(Snapshot(w, R.Waiting)) && sem > 0
      modifies this, mem
      ensures sent == old(sent) && |old(received)| < |old(sent)|
      ensures var head := old(sent)[|old(received)|];
              if R.Receivable(words, |head|) then
                && res == Message(head) && received == old(received) + [head]
                && Snapshot(w, R.Waiting) == ReaderSolo(old(Snapshot(w, R.Waiting)), |head| + 9)
              else
                && res == Failure && received == old(received)
                && Snapshot(w, R.Waiting) == ReaderSolo(old(Snapshot(w, R.Waiting)), 5)
    {
      hide R.Published, R.WriterInv, R.Counted;
      hide ReaderSolo, R.WriteWord, R.PayloadCell, R.ChunkStep, R.ReadWord, Cell;
      ghost var s := Snapshot(w, R.Waiting);
      SoloStart(s);
      SoloRead(s, 0);
      sem := sem - 1;
      var h := CheckHeader(w, s);
      match h
      case NoData => res := Nothing;
      case Corrupt =>
        lost := lost + 1;
        res := Failure;
      case Good(pt, size) =>
        var buf := CopyOut(pt, size, w, s);
        ReclaimChunk(pt, size, buf, w, s);
        res := Message(buf);
    }
  }
}
