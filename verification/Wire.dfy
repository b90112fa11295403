/** Which bytes the three parsers accept and what they make of them, for every input, said of the
    bytes at their places and without the parsers' own helpers. */
module Wire {
  import opened Bytes
  import opened MemTree
  import opened Codec

  /** The 32-bit number at a place. */
  function Little(d: seq<byte>, at: nat): (n: nat)
    requires at + 4 <= |d|
    ensures n < 0x1_0000_0000
  {
    d[at] as nat + 0x100 * d[at + 1] as nat + 0x1_0000 * d[at + 2] as nat + 0x100_0000 * d[at + 3] as nat
  }

  /** The 64-bit number at a place. */
  function Long(d: seq<byte>, at: nat): nat
    requires at + 8 <= |d|
  {
    Little(d, at) + 0x1_0000_0000 * Little(d, at + 4)
  }

  lemma {:induction false} FieldIs(d: seq<byte>, at: nat)
    requires at + 4 <= |d|
    ensures Field(d, at) == Little(d, at)
  {
  }

  /** In the `len` bytes at `at` stands the string `s`, ended by the first NUL. */
  predicate StringAt(d: seq<byte>, at: nat, len: nat, s: seq<byte>) {
    && at + len <= |d| && |s| < len && d[at..at + |s|] == s && d[at + |s|] == 0
    && forall k :: 0 <= k < |s| ==> s[k] != 0
  }

  lemma {:induction false} UntilNulIs(d: seq<byte>, at: nat, len: nat, s: seq<byte>)
    requires at + len <= |d|
    ensures UntilNul(d[at..at + len]) == Some(s) <==> StringAt(d, at, len, s)
  {
    hide UntilNul;
    var part := d[at..at + len];
    var r := UntilNul(part);
    assert forall k :: 0 <= k < len ==> part[k] == d[at + k];
    if r.Some? {
      assert part[..|r.value|] == d[at..at + |r.value|];
    }
    if StringAt(d, at, len, s) {
      assert part[..|s|] == s && part[|s|] == 0;
    }
  }

  lemma {:induction false} ParseStringIs(utf8: seq<byte> -> bool, d: seq<byte>, at: nat, len: nat, s: seq<byte>)
    ensures ParseString(utf8, d, at, len) == Ok(s) <==> StringAt(d, at, len, s) && utf8(s)
  {
    hide UntilNul;
    if at + len <= |d| {
      UntilNulIs(d, at, len, s);
    }
  }

  // ---------------------------------------------------------------------------------------
  // The Rust parser
  // ---------------------------------------------------------------------------------------

  /** The parser of `wire_format.rs`: the five numbers at 0, 4, 8, 12 and 16, path and target behind
      each other from 20 on, each in the length given for it and UTF-8 up to its first NUL, then the
      data; at most 16 MiB; more bytes may follow. */
  lemma {:induction false} ParseExact(utf8: seq<byte> -> bool, d: seq<byte>, c: CMessage)
    ensures Parse(utf8, d) == Ok(c) <==>
            && |d| >= 20 && c.size == Little(d, 0) && c.offset == Little(d, 4) && c.flags == Little(d, 16)
            && var p, t := Little(d, 8), Little(d, 12);
            && p + t + c.size <= 16777216
            && (if p == 0 then c.path == [] else StringAt(d, 20, p, c.path) && utf8(c.path))
            && (if t == 0 then c.to == None else c.to.Some? && StringAt(d, 20 + p, t, c.to.value) && utf8(c.to.value))
            && (if c.size == 0 then c.data == [] else 20 + p + t + c.size <= |d| && c.data == d[20 + p + t..20 + p + t + c.size])
  {
    hide Field, Little, ParseString, StringAt;
    if |d| >= 20 {
      FieldIs(d, 0);
      FieldIs(d, 4);
      FieldIs(d, 8);
      FieldIs(d, 12);
      FieldIs(d, 16);
      ParseStringIs(utf8, d, 20, Little(d, 8), c.path);
      if c.to.Some? {
        ParseStringIs(utf8, d, 20 + Little(d, 8), Little(d, 12), c.to.value);
      }
    }
  }

  /** The errors that are found in the header. */
  lemma {:induction false} HeaderErrors(utf8: seq<byte> -> bool, d: seq<byte>)
    ensures |d| < 20 <==> Parse(utf8, d) == Err(TooShort)
    ensures |d| >= 20 ==>
              var sum := Little(d, 0) + Little(d, 8) + Little(d, 12);
              && (Parse(utf8, d) == Err(Overflow) <==> sum >= 0x1_0000_0000)
              && (Parse(utf8, d) == Err(TooLarge) <==> 16777216 < sum < 0x1_0000_0000)
  {
    hide Field, Little, UntilNul;
    if |d| >= 20 {
      FieldIs(d, 0);
      FieldIs(d, 8);
      FieldIs(d, 12);
    }
  }

  // ---------------------------------------------------------------------------------------
  // The C parser
  // ---------------------------------------------------------------------------------------

  lemma {:induction false} CStringIs(d: seq<byte>, at: nat, len: nat, s: seq<byte>)
    requires at + len <= |d|
    ensures CString(d, at, len) == Some(s) <==> len > 0 && d[at + len - 1] == 0 && StringAt(d, at, len, s)
    ensures len > 0 && d[at + len - 1] == 0 ==> CString(d, at, len).Some?
    ensures len == 0 ==> CString(d, at, len).None?
  {
    hide UntilNul, StringAt;
    UntilNulIs(d, at, len, s);
    if len > 0 && d[at + len - 1] == 0 {
      assert d[at..at + len][len - 1] == 0;
    }
  }

  /** `dcdb_parse_fuse_message`: the same places, but the lengths must account for every byte and
      the last byte of a string field must be the NUL; there is no limit and no look at UTF-8. */
  lemma {:induction false} CParseExact(d: seq<byte>, path: Option<seq<byte>>, to: Option<seq<byte>>, buf: Option<seq<byte>>,
                                       size: u32, offset: u32, flags: u32)
    ensures CParse(d) == Accepted(path, to, buf, size, offset, flags) <==>
            && |d| >= 20 && size == Little(d, 0) && offset == Little(d, 4) && flags == Little(d, 16)
            && var p, t := Little(d, 8), Little(d, 12);
            && |d| == 20 + p + t + size < 20 + 0x1_0000_0000
            && (if p == 0 then path == None else d[20 + p - 1] == 0 && path.Some? && StringAt(d, 20, p, path.value))
            && (if t == 0 then to == None else d[20 + p + t - 1] == 0 && to.Some? && StringAt(d, 20 + p, t, to.value))
            && (if size == 0 then buf == None else buf == Some(d[20 + p + t..]))
  {
    hide Field, Little, StringAt, CString;
    if |d| >= 20 {
      FieldIs(d, 0);
      FieldIs(d, 4);
      FieldIs(d, 8);
      FieldIs(d, 12);
      FieldIs(d, 16);
      var p, t := Little(d, 8), Little(d, 12);
      if 20 + p + t <= |d| {
        CStringIs(d, 20, p, if path.Some? then path.value else []);
        CStringIs(d, 20 + p, t, if to.Some? then to.value else []);
      }
    }
  }

  // ---------------------------------------------------------------------------------------
  // Message types
  // ---------------------------------------------------------------------------------------

  /** The message types of `dcdb.h`. */
  datatype CfsType = CfsWrite | CfsMkdir | CfsDelete | CfsRename | CfsCreate | CfsMtime | CfsUnlockRequest | CfsUnlock

  function CfsNumber(t: CfsType): nat {
    match t
    case CfsWrite => 1
    case CfsMkdir => 2
    case CfsDelete => 3
    case CfsRename => 4
    case CfsCreate => 5
    case CfsMtime => 6
    case CfsUnlockRequest => 7
    case CfsUnlock => 8
  }

  /** The type C means by what a Rust message is called. */
  function Meant(m: FuseMessage): CfsType {
    match m
    case Write(_, _, _) => CfsWrite
    case Mkdir(_) => CfsMkdir
    case Delete(_) => CfsDelete
    case Rename(_, _) => CfsRename
    case Create(_) => CfsCreate
    case Mtime(_, _) => CfsMtime
    case UnlockRequest(_) => CfsUnlockRequest
    case Unlock(_) => CfsUnlock
  }

  /** Both sides use the same numbers, in both directions, and no others. */
  lemma {:induction false} SameNumbers(m: FuseMessage, typ: nat, c: CMessage)
    ensures MessageType(m) == CfsNumber(Meant(m))
    ensures FromCMessage(typ, c).Ok? <==> 1 <= typ <= 8
    ensures FromCMessage(typ, c).Ok? ==> CfsNumber(Meant(FromCMessage(typ, c).value)) == typ
  {
  }

  // ---------------------------------------------------------------------------------------
  // Updates of inodes
  // ---------------------------------------------------------------------------------------

  lemma {:induction false} FromLE4Is(d: seq<byte>, at: nat)
    requires at + 4 <= |d|
    ensures FromLE4(d[at..at + 4]) == Little(d, at)
  {
    var s := d[at..at + 4];
    assert s[1..][1..] == s[2..] && s[2..][1..] == s[3..] && s[3..][1..] == [];
    assert FromLE(s) == s[0] as nat + 256 * FromLE(s[1..]);
    assert FromLE(s[1..]) == s[1] as nat + 256 * FromLE(s[2..]);
    assert FromLE(s[2..]) == s[2] as nat + 256 * FromLE(s[3..]);
  }

  lemma {:induction false} FromLE8Is(d: seq<byte>, at: nat)
    requires at + 8 <= |d|
    ensures FromLE(d[at..at + 8]) == Long(d, at)
  {
    var s := d[at..at + 8];
    assert s[1..][1..] == s[2..] && s[2..][1..] == s[3..] && s[3..][1..] == s[4..];
    assert s[4..] == d[at + 4..at + 8];
    FromLE4Is(d, at + 4);
    assert FromLE(s) == s[0] as nat + 256 * FromLE(s[1..]);
    assert FromLE(s[1..]) == s[1] as nat + 256 * FromLE(s[2..]);
    assert FromLE(s[2..]) == s[2] as nat + 256 * FromLE(s[3..]);
    assert FromLE(s[3..]) == s[3] as nat + 256 * FromLE(s[4..]);
  }

  /** `dcdb_parse_update_inode`: parent, inode, version, writer, time, size, length of the name and
      type at 0, 8, 16, 24, 28, 32, 36 and 40, then the name with its NUL, then the data; nothing
      else, and only files and directories. */
  lemma {:induction false} UpdateExact(d: seq<byte>, e: Entry)
    ensures ParseUpdate(d) == Some(e) <==>
            && |d| >= 41 && (d[40] == 4 || d[40] == 8)
            && e.parent == Long(d, 0) && e.inode == Long(d, 8) && e.version == Long(d, 16)
            && e.writer == Little(d, 24) && e.mtime == Little(d, 28) && e.size == Little(d, 32)
            && e.kind == (if d[40] == 4 then Dir else Reg)
            && var n := Little(d, 36);
            && |d| == 41 + n + e.size && StringAt(d, 41, n, e.name) && d[41 + n - 1] == 0
            && e.data == if d[40] == 8 then d[41 + n..] else []
  {
    hide FromLE, FromLE4, Little, Long, UntilNul, StringAt;
    if |d| >= 41 {
      FromLE8Is(d, 0);
      FromLE8Is(d, 8);
      FromLE8Is(d, 16);
      FromLE4Is(d, 24);
      FromLE4Is(d, 28);
      FromLE4Is(d, 32);
      FromLE4Is(d, 36);
      assert d[..8] == d[0..8];
      var n := Little(d, 36);
      if 41 + n <= |d| {
        UntilNulIs(d, 41, n, e.name);
      }
      if StringAt(d, 41, n, e.name) {
        LongerThanName(d, 41, n, e.name);
      }
      if |d| == 41 + n + Little(d, 32) {
        assert d[41 + n..41 + n + Little(d, 32)] == d[41 + n..];
      }
    }
  }

  lemma {:induction false} LongerThanName(d: seq<byte>, at: nat, len: nat, s: seq<byte>)
    requires StringAt(d, at, len, s)
    ensures at + len <= |d| && len > 0
  {
  }
}
