/** File system messages on the wire: the serializer and parser written in Rust
    (`wire_format.rs`, `fuse_message.rs`) and the sender and parser written in C (`dcdb.c`). */
module Codec {
  import opened Bytes
  import opened MemTree

  datatype CodecError = TooShort | Overflow | TooLarge | BadLength | NotTerminated | NotUtf8 | BadType
  datatype Result<+T> = Ok(value: T) | Err(error: CodecError)

  const HEADER: nat := 20
  const MAX_MESSAGE_SIZE: nat := 16 * 1024 * 1024
  const WIDTH: nat := 0x1_0000_0000

  /** `CFuseMessage` */
  datatype CMessage = CMessage(size: u32, offset: u32, flags: u32, path: seq<byte>, to: Option<seq<byte>>, data: seq<byte>)

  // ---------------------------------------------------------------------------------------
  // Rust
  // ---------------------------------------------------------------------------------------

  /** The length field of a string: with its terminator, or 0 for the empty string. */
  function StringLength(s: seq<byte>): u32 {
    if s == [] then 0 else (|s| + 1) % WIDTH
  }

  /** A string with its terminator if the length field is not 0. */
  function StringBytes(s: seq<byte>): seq<byte> {
    if StringLength(s) > 0 then s + [0] else []
  }

  function ToBytes(m: CMessage): seq<byte> {
    if m.to.Some? then m.to.value else []
  }

  function Header(size: u32, offset: u32, pathlen: u32, tolen: u32, flags: u32): (h: seq<byte>)
    ensures |h| == HEADER
  {
    LE32(size) + LE32(offset) + LE32(pathlen) + LE32(tolen) + LE32(flags)
  }

  /** `CFuseMessage::serialize` */
  function Serialize(m: CMessage): seq<byte> {
    Header(m.size, m.offset, StringLength(m.path), StringLength(ToBytes(m)), m.flags)
    + StringBytes(m.path) + StringBytes(ToBytes(m)) + (if m.size > 0 then m.data else [])
  }

  /** The bytes before the first NUL, if there is one. */
  function UntilNul(s: seq<byte>): (r: Option<seq<byte>>)
    ensures r.Some? ==> |r.value| < |s| && r.value == s[..|r.value|] && s[|r.value|] == 0
    ensures r.Some? ==> forall k :: 0 <= k < |r.value| ==> s[k] != 0
    ensures r.None? ==> forall k :: 0 <= k < |s| ==> s[k] != 0
  {
    if s == [] then None
    else if s[0] == 0 then Some([])
    else
      match UntilNul(s[1..])
      case None => None
      case Some(t) => Some([s[0]] + t)
  }

  /** A string field of `len` bytes at `at`. */
  function ParseString(utf8: seq<byte> -> bool, data: seq<byte>, at: nat, len: nat): Result<seq<byte>> {
    if at + len > |data| then Err(BadLength)
    else
      match UntilNul(data[at..at + len])
      case None => Err(NotTerminated)
      case Some(s) => if utf8(s) then Ok(s) else Err(NotUtf8)
  }

  /** The length fields add up to no more than the maximum, without overflow. */
  function CheckLengths(size: nat, pathlen: nat, tolen: nat): Option<CodecError> {
    if pathlen + tolen >= WIDTH || pathlen + tolen + size >= WIDTH then Some(Overflow)
    else if pathlen + tolen + size > MAX_MESSAGE_SIZE then Some(TooLarge)
    else None
  }

  function Field(data: seq<byte>, at: nat): u32
    requires at + 4 <= |data|
  {
    FromLE32(data[at..at + 4])
  }

  /** The fields behind the header, once their lengths are known to be in order. */
  function ParseBody(utf8: seq<byte> -> bool, data: seq<byte>, size: u32, offset: u32, pathlen: u32, tolen: u32, flags: u32): Result<CMessage> {
    var path := if pathlen > 0 then ParseString(utf8, data, HEADER, pathlen) else Ok([]);
    if path.Err? then Err(path.error)
    else
      var to: Result<Option<seq<byte>>> :=
        if tolen > 0 then
          var t := ParseString(utf8, data, HEADER + pathlen, tolen);
          if t.Ok? then Ok(Some(t.value)) else Err(t.error)
        else Ok(None);
      if to.Err? then Err(to.error)
      else
        var at := HEADER + pathlen + tolen;
        if size > 0 && at + size > |data| then Err(BadLength)
        else Ok(CMessage(size, offset, flags, path.value, to.value, if size > 0 then data[at..at + size] else []))
  }

  /** `CFuseMessage::parse` */
  function Parse(utf8: seq<byte> -> bool, data: seq<byte>): Result<CMessage> {
    if |data| < HEADER then Err(TooShort)
    else
      var size, offset, pathlen, tolen, flags := Field(data, 0), Field(data, 4), Field(data, 8), Field(data, 12), Field(data, 16);
      var bad := CheckLengths(size, pathlen, tolen);
      if bad.Some? then Err(bad.value) else ParseBody(utf8, data, size, offset, pathlen, tolen, flags)
  }

  /** `FuseMessage`; the unlock messages are not yet in use. */
  datatype FuseMessage =
    | Create(path: seq<byte>)
    | Mkdir(path: seq<byte>)
    | Write(path: seq<byte>, offset: nat, data: seq<byte>)
    | Delete(path: seq<byte>)
    | Rename(path: seq<byte>, to: seq<byte>)
    | Mtime(path: seq<byte>, mtime: u32)
    | UnlockRequest(path: seq<byte>)
    | Unlock(path: seq<byte>)

  function MessageType(m: FuseMessage): nat {
    match m
    case Write(_, _, _) => 1
    case Mkdir(_) => 2
    case Delete(_) => 3
    case Rename(_, _) => 4
    case Create(_) => 5
    case Mtime(_, _) => 6
    case UnlockRequest(_) => 7
    case Unlock(_) => 8
  }

  function ToCMessage(m: FuseMessage): CMessage {
    match m
    case Write(path, offset, data) => CMessage(|data| % WIDTH, offset % WIDTH, 0, path, None, data)
    case Rename(from, to) => CMessage(0, 0, 0, from, Some(to), [])
    case Mtime(path, mtime) => CMessage(0, mtime, 0, path, None, [])
    case _ => CMessage(0, 0, 0, m.path, None, [])
  }

  function FromCMessage(typ: nat, c: CMessage): Result<FuseMessage> {
    if typ == 1 then Ok(Write(c.path, c.offset, c.data))
    else if typ == 2 then Ok(Mkdir(c.path))
    else if typ == 3 then Ok(Delete(c.path))
    else if typ == 4 then Ok(Rename(c.path, if c.to.Some? then c.to.value else []))
    else if typ == 5 then Ok(Create(c.path))
    else if typ == 6 then Ok(Mtime(c.path, c.offset))
    else if typ == 7 then Ok(UnlockRequest(c.path))
    else if typ == 8 then Ok(Unlock(c.path))
    else Err(BadType)
  }

  function SerializeFuse(m: FuseMessage): seq<byte> {
    Serialize(ToCMessage(m))
  }

  function DeserializeFuse(utf8: seq<byte> -> bool, typ: nat, data: seq<byte>): Result<FuseMessage> {
    var c := Parse(utf8, data);
    if c.Err? then Err(c.error) else FromCMessage(typ, c.value)
  }

  // ---------------------------------------------------------------------------------------
  // Round trip in Rust
  // ---------------------------------------------------------------------------------------

  predicate NulFree(s: seq<byte>) {
    forall k :: 0 <= k < |s| ==> s[k] != 0
  }

  /** What a string is read back as. */
  function Cut(s: seq<byte>): (r: seq<byte>)
    ensures r == s <==> NulFree(s)
    ensures |r| <= |s|
  {
    var t := s + [0];
    assert t[|s|] == 0;
    var r := UntilNul(t).value;
    assert r == t[..|r|] && t[|r|] == 0;
    assert |r| < |s| ==> s[|r|] == 0;
    assert forall k :: 0 <= k < |r| ==> r[k] == t[k];
    assert |r| == |s| ==> r == s;
    r
  }

  /** Lengths below 4 GiB, and the size field says how much data there is. */
  predicate Sized(c: CMessage) {
    |c.path| + 1 < WIDTH && |ToBytes(c)| + 1 < WIDTH && c.size == |c.data|
  }

  function Total(c: CMessage): nat {
    StringLength(c.path) + StringLength(ToBytes(c)) + c.size
  }

  lemma {:induction false} FieldOf(n: u32)
    ensures FromLE32(LE32(n)) == n
  {
    LE32RoundTrip(n);
  }

  lemma {:induction false} HeaderFields(h: seq<byte>, rest: seq<byte>, size: u32, offset: u32, pathlen: u32, tolen: u32, flags: u32)
    requires h == Header(size, offset, pathlen, tolen, flags)
    ensures var d := h + rest;
            Field(d, 0) == size && Field(d, 4) == offset && Field(d, 8) == pathlen && Field(d, 12) == tolen && Field(d, 16) == flags
  {
    hide LE32, FromLE32;
    var d := h + rest;
    assert d[0..4] == LE32(size) && d[4..8] == LE32(offset) && d[8..12] == LE32(pathlen) && d[12..16] == LE32(tolen) && d[16..20] == LE32(flags);
    FieldOf(size);
    FieldOf(offset);
    FieldOf(pathlen);
    FieldOf(tolen);
    FieldOf(flags);
  }

  lemma {:induction false} StringsSized(s: seq<byte>)
    requires |s| + 1 < WIDTH
    ensures |StringBytes(s)| == StringLength(s) && (StringLength(s) == 0 <==> s == [])
    ensures s != [] ==> StringBytes(s) == s + [0]
  {
  }

  /** Where the parts of a serialized message are. */
  lemma {:induction false} Layout(c: CMessage)
    requires Sized(c)
    ensures var d, p, t := Serialize(c), StringLength(c.path), StringLength(ToBytes(c));
            && |d| == HEADER + p + t + c.size
            && Field(d, 0) == c.size && Field(d, 4) == c.offset && Field(d, 8) == p && Field(d, 12) == t && Field(d, 16) == c.flags
            && d[HEADER..HEADER + p] == StringBytes(c.path) && d[HEADER + p..HEADER + p + t] == StringBytes(ToBytes(c))
            && d[HEADER + p + t..HEADER + p + t + c.size] == c.data
  {
    hide StringBytes, StringLength, Header, Field;
    var a, b, e := StringBytes(c.path), StringBytes(ToBytes(c)), if c.size > 0 then c.data else [];
    var h := Header(c.size, c.offset, StringLength(c.path), StringLength(ToBytes(c)), c.flags);
    StringsSized(c.path);
    StringsSized(ToBytes(c));
    assert Serialize(c) == h + (a + b + e);
    HeaderFields(h, a + b + e, c.size, c.offset, StringLength(c.path), StringLength(ToBytes(c)), c.flags);
    Slices(h, a, b, e);
  }

  lemma {:induction false} Slices(h: seq<byte>, a: seq<byte>, b: seq<byte>, e: seq<byte>)
    ensures var d := h + (a + b + e);
            && d[|h|..|h| + |a|] == a && d[|h| + |a|..|h| + |a| + |b|] == b && d[|h| + |a| + |b|..|h| + |a| + |b| + |e|] == e
  {
  }

  /** A string field that was serialized is read back cut at its first NUL. */
  lemma {:induction false} StringBack(utf8: seq<byte> -> bool, data: seq<byte>, at: nat, s: seq<byte>)
    requires s != [] && |s| + 1 < WIDTH && at + StringLength(s) <= |data| && data[at..at + StringLength(s)] == StringBytes(s)
    ensures ParseString(utf8, data, at, StringLength(s)) == if utf8(Cut(s)) then Ok(Cut(s)) else Err(NotUtf8)
  {
    hide UntilNul;
    StringsSized(s);
    CutIs(s);
  }

  lemma {:induction false} CutIs(s: seq<byte>)
    ensures UntilNul(s + [0]) == Some(Cut(s))
  {
    assert (s + [0])[|s|] == 0;
  }

  /** What a serialized message should be read back as; `r` is what the parser says. */
  predicate ReadBack(utf8: seq<byte> -> bool, c: CMessage, r: Result<CMessage>) {
    var t := ToBytes(c);
    && ((c.path != [] ==> utf8(Cut(c.path))) && (t != [] ==> utf8(Cut(t))) ==>
          r == Ok(c.(path := Cut(c.path), to := if t == [] then None else Some(Cut(t)))))
    && (r.Ok? ==> r.value.path == Cut(c.path) && ToBytes(r.value) == Cut(t))
  }

  lemma {:induction false} BodySerialized(utf8: seq<byte> -> bool, c: CMessage)
    requires Sized(c)
    ensures ReadBack(utf8, c, ParseBody(utf8, Serialize(c), c.size, c.offset, StringLength(c.path), StringLength(ToBytes(c)), c.flags))
  {
    hide Serialize, Field, UntilNul, Cut, StringLength, StringBytes, ParseString;
    var d, p, t := Serialize(c), StringLength(c.path), ToBytes(c);
    Layout(c);
    StringsSized(c.path);
    StringsSized(t);
    CutEmpty();
    if c.path != [] {
      StringBack(utf8, d, HEADER, c.path);
    }
    if t != [] {
      StringBack(utf8, d, HEADER + p, t);
    }
  }

  /** Parsing what was serialized. */
  lemma {:induction false} ParseSerialized(utf8: seq<byte> -> bool, c: CMessage)
    requires Sized(c)
    ensures var r := Parse(utf8, Serialize(c));
            if Total(c) > MAX_MESSAGE_SIZE then r.Err? else ReadBack(utf8, c, r)
  {
    hide Serialize, Field, StringLength, ParseBody, ReadBack;
    Layout(c);
    BodySerialized(utf8, c);
  }

  lemma {:induction false} CutEmpty()
    ensures Cut([]) == []
  {
  }

  /** Strings and data below 4 GiB; strings are UTF-8, as the type `String` makes sure. */
  predicate Encodable(utf8: seq<byte> -> bool, m: FuseMessage) {
    && |m.path| + 1 < WIDTH && utf8(m.path)
    && (m.Rename? ==> |m.to| + 1 < WIDTH && utf8(m.to))
    && (m.Write? ==> |m.data| < WIDTH)
  }

  /** No NUL in a path, an offset of 32 bits, and no more than 16 MiB. */
  predicate Transportable(m: FuseMessage) {
    && NulFree(m.path) && (m.Rename? ==> NulFree(m.to)) && (m.Write? ==> m.offset < WIDTH)
    && Total(ToCMessage(m)) <= MAX_MESSAGE_SIZE
  }

  /** A message is read back unchanged exactly if it is transportable. */
  lemma {:induction false} FuseRoundTrip(utf8: seq<byte> -> bool, m: FuseMessage)
    requires Encodable(utf8, m)
    ensures DeserializeFuse(utf8, MessageType(m), SerializeFuse(m)) == Ok(m) <==> Transportable(m)
  {
    hide Serialize, Parse, Cut, NulFree, Total;
    var c := ToCMessage(m);
    assert Sized(c);
    ParseSerialized(utf8, c);
    CutNulFree(c.path);
    CutNulFree(ToBytes(c));
    CutEmpty();
  }

  lemma {:induction false} CutNulFree(s: seq<byte>)
    ensures Cut(s) == s <==> NulFree(s)
  {
  }

  // ---------------------------------------------------------------------------------------
  // C
  // ---------------------------------------------------------------------------------------

  /** What `dcdb_parse_fuse_message` hands out; a null pointer is `None`. `Outside`: the 32-bit sum
      of the lengths has wrapped around, and what lies behind the message is not modelled. */
  datatype CParsed =
    | Rejected
    | Accepted(path: Option<seq<byte>>, to: Option<seq<byte>>, buf: Option<seq<byte>>, size: u32, offset: u32, flags: u32)
    | Outside

  /** A C string of `len` bytes that end with a NUL. */
  function CString(d: seq<byte>, at: nat, len: nat): Option<seq<byte>>
    requires at + len <= |d|
  {
    if len == 0 || d[at + len - 1] != 0 then None else UntilNul(d[at..at + len])
  }

  function CParse(d: seq<byte>): CParsed {
    if |d| < HEADER then Rejected
    else
      var size, offset, pathlen, tolen, flags := Field(d, 0), Field(d, 4), Field(d, 8), Field(d, 12), Field(d, 16);
      if |d| - HEADER != (size + pathlen + tolen) % WIDTH then Rejected
      else if |d| - HEADER != size + pathlen + tolen then Outside
      else
        var path, to := CString(d, HEADER, pathlen), CString(d, HEADER + pathlen, tolen);
        if (pathlen > 0 && path.None?) || (tolen > 0 && to.None?) then Rejected
        else Accepted(path, to, if size > 0 then Some(d[HEADER + pathlen + tolen..]) else None, size, offset, flags)
  }

  /** `dcdb_send_fuse_message`; the length fields are 32 bits wide. */
  function CSend(path: Option<seq<byte>>, to: Option<seq<byte>>, buf: seq<byte>, offset: u32, flags: u32): seq<byte> {
    var p, t := CBytes(path), CBytes(to);
    Header(|buf| % WIDTH, offset, |p| % WIDTH, |t| % WIDTH, flags) + p + t + buf
  }

  function CBytes(s: Option<seq<byte>>): seq<byte> {
    if s.Some? then s.value + [0] else []
  }

  lemma {:induction false} CStringBack(d: seq<byte>, at: nat, s: seq<byte>)
    requires NulFree(s) && at + |s| + 1 <= |d| && d[at..at + |s| + 1] == s + [0]
    ensures CString(d, at, |s| + 1) == Some(s)
  {
    hide UntilNul;
    assert d[at + |s|] == d[at..at + |s| + 1][|s|];
    CutIs(s);
    CutNulFree(s);
  }

  lemma {:induction false} CParseSerialized(c: CMessage)
    requires Sized(c) && Total(c) < WIDTH && c.path != [] && NulFree(c.path) && (c.to.Some? ==> c.to.value != [] && NulFree(c.to.value))
    ensures CParse(Serialize(c)) == Accepted(Some(c.path), c.to, if c.data == [] then None else Some(c.data), c.size, c.offset, c.flags)
  {
    hide Serialize, Field, CString, StringLength, StringBytes, NulFree;
    var d, p, t := Serialize(c), StringLength(c.path), ToBytes(c);
    Layout(c);
    StringsSized(c.path);
    StringsSized(t);
    CStringBack(d, HEADER, c.path);
    if c.to.Some? {
      CStringBack(d, HEADER + p, t);
    } else {
      NoCString(d, HEADER + p);
    }
    assert d[HEADER + p + StringLength(t)..] == c.data;
  }

  /** A message that the Rust serializer writes is accepted by the C parser with the same fields. */
  lemma {:induction false} CReadsRust(m: FuseMessage)
    requires Transportable(m) && m.path != [] && (m.Rename? ==> m.to != []) && (m.Write? ==> |m.data| < WIDTH)
    requires |m.path| + 1 < WIDTH && (m.Rename? ==> |m.to| + 1 < WIDTH)
    ensures var c := ToCMessage(m);
            CParse(SerializeFuse(m)) == Accepted(Some(m.path), c.to, if c.data == [] then None else Some(c.data), c.size, c.offset, 0)
  {
    hide Serialize, CParse, NulFree, StringLength;
    CParseSerialized(ToCMessage(m));
  }

  lemma {:induction false} NoCString(d: seq<byte>, at: nat)
    requires at <= |d|
    ensures CString(d, at, 0) == None
  {
  }

  lemma {:induction false} BodyOfC(utf8: seq<byte> -> bool, d: seq<byte>, path: seq<byte>, to: Option<seq<byte>>, buf: seq<byte>, offset: u32, flags: u32)
    requires NulFree(path) && utf8(path) && (to.Some? ==> NulFree(to.value) && utf8(to.value))
    requires var p, t := |path| + 1, |CBytes(to)|;
             && p + t + |buf| <= MAX_MESSAGE_SIZE && |d| == HEADER + p + t + |buf|
             && d[HEADER..HEADER + p] == path + [0] && d[HEADER + p..HEADER + p + t] == CBytes(to) && d[HEADER + p + t..HEADER + p + t + |buf|] == buf
    ensures ParseBody(utf8, d, |buf|, offset, |path| + 1, |CBytes(to)|, flags) == Ok(CMessage(|buf|, offset, flags, path, to, buf))
  {
    hide ParseString, NulFree;
    ParsedString(utf8, d, HEADER, path);
    if to.Some? {
      ParsedString(utf8, d, HEADER + |path| + 1, to.value);
    }
  }

  /** A message that C sends is read by the Rust parser with the same fields. */
  lemma {:induction false} RustReadsC(utf8: seq<byte> -> bool, path: seq<byte>, to: Option<seq<byte>>, buf: seq<byte>, offset: u32, flags: u32)
    requires NulFree(path) && utf8(path) && (to.Some? ==> NulFree(to.value) && utf8(to.value))
    requires |path| + 1 + |CBytes(to)| + |buf| <= MAX_MESSAGE_SIZE
    ensures Parse(utf8, CSend(Some(path), to, buf, offset, flags)) == Ok(CMessage(|buf|, offset, flags, path, to, buf))
  {
    hide Field, NulFree, Header, ParseBody, CBytes;
    var p, t := path + [0], CBytes(to);
    var h := Header(|buf|, offset, |p|, |t|, flags);
    var d := h + (p + t + buf);
    SentIs(path, to, buf, offset, flags);
    HeaderFields(h, p + t + buf, |buf|, offset, |p|, |t|, flags);
    Slices(h, p, t, buf);
    BodyOfC(utf8, d, path, to, buf, offset, flags);
  }

  lemma {:induction false} SentIs(path: seq<byte>, to: Option<seq<byte>>, buf: seq<byte>, offset: u32, flags: u32)
    requires |path| + 1 + |CBytes(to)| + |buf| <= MAX_MESSAGE_SIZE
    ensures CSend(Some(path), to, buf, offset, flags) ==
            Header(|buf|, offset, |path| + 1, |CBytes(to)|, flags) + ((path + [0]) + CBytes(to) + buf)
  {
    hide Header;
    var h, p, t := Header(|buf|, offset, |path| + 1, |CBytes(to)|, flags), path + [0], CBytes(to);
    assert h + p + t + buf == h + (p + t + buf);
  }

  lemma {:induction false} ParsedString(utf8: seq<byte> -> bool, d: seq<byte>, at: nat, s: seq<byte>)
    requires NulFree(s) && utf8(s) && at + |s| + 1 <= |d| && d[at..at + |s| + 1] == s + [0]
    ensures ParseString(utf8, d, at, |s| + 1) == Ok(s)
  {
    hide UntilNul;
    CutIs(s);
    CutNulFree(s);
  }

  // ---------------------------------------------------------------------------------------
  // The Rust code step by step
  // ---------------------------------------------------------------------------------------

  /** `CFuseMessage::serialize` */
  method SerializeMessage(m: CMessage) returns (result: seq<byte>)
    ensures result == Serialize(m)
  {
    hide Header;
    var pathlen := if m.path == [] then 0 else (|m.path| + 1) % WIDTH;
    var to := if m.to.Some? then m.to.value else [];
    var tolen := if to == [] then 0 else (|to| + 1) % WIDTH;
    result := Header(m.size, m.offset, pathlen, tolen, m.flags);
    ghost var h := result;
    if pathlen > 0 {
      result := result + m.path;
      result := result + [0];
    }
    assert result == h + StringBytes(m.path);
    if tolen > 0 {
      result := result + to;
      result := result + [0];
    }
    assert result == h + StringBytes(m.path) + StringBytes(to);
    if m.size > 0 {
      result := result + m.data;
    }
  }

  /** `CStr::from_bytes_until_nul` */
  method FindNul(s: seq<byte>) returns (r: Option<seq<byte>>)
    ensures r == UntilNul(s)
  {
    var k := 0;
    while k < |s| && s[k] != 0
      invariant 0 <= k <= |s|
      invariant forall j :: 0 <= j < k ==> s[j] != 0
    {
      k := k + 1;
    }
    if k == |s| {
      return None;
    }
    FirstNul(s, k);
    return Some(s[..k]);
  }

  lemma {:induction false} FirstNul(s: seq<byte>, k: nat)
    requires k < |s| && s[k] == 0 && forall j :: 0 <= j < k ==> s[j] != 0
    ensures UntilNul(s) == Some(s[..k])
  {
    var r := UntilNul(s);
    assert r.Some?;
    assert |r.value| == k;
  }

  /** One string field. */
  method ReadString(utf8: seq<byte> -> bool, data: seq<byte>, offset: nat, len: nat) returns (r: Result<seq<byte>>)
    ensures r == ParseString(utf8, data, offset, len)
  {
    hide UntilNul;
    var end := offset + len;
    if end > |data| {
      return Err(BadLength);
    }
    var s := FindNul(data[offset..end]);
    if s.None? {
      return Err(NotTerminated);
    }
    if !utf8(s.value) {
      return Err(NotUtf8);
    }
    return Ok(s.value);
  }

  /** `CFuseMessage::parse` */
  method ParseMessage(utf8: seq<byte> -> bool, data: seq<byte>) returns (r: Result<CMessage>)
    ensures r == Parse(utf8, data)
  {
    hide Field, ParseString;
    if |data| < HEADER {
      return Err(TooShort);
    }
    var size, msgOffset, pathlen, tolen, flags := Field(data, 0), Field(data, 4), Field(data, 8), Field(data, 12), Field(data, 16);
    var bad := CheckLengths(size, pathlen, tolen);
    if bad.Some? {
      return Err(bad.value);
    }
    var offset := HEADER;
    var path := [];
    if pathlen > 0 {
      var s := ReadString(utf8, data, offset, pathlen);
      if s.Err? {
        return Err(s.error);
      }
      path, offset := s.value, offset + pathlen;
    }
    var to: Option<seq<byte>> := None;
    if tolen > 0 {
      var s := ReadString(utf8, data, offset, tolen);
      if s.Err? {
        return Err(s.error);
      }
      to, offset := Some(s.value), offset + tolen;
    }
    var buf := [];
    if size > 0 {
      var end := offset + size;
      if end > |data| {
        return Err(BadLength);
      }
      buf := data[offset..end];
    }
    return Ok(CMessage(size, msgOffset, flags, path, to, buf));
  }

  // ---------------------------------------------------------------------------------------
  // The entries of an update
  // ---------------------------------------------------------------------------------------

  const UPDATE_HEADER: nat := 41

  function KindByte(k: Kind): byte {
    if k.Dir? then 4 else 8
  }

  /** The fixed part of an update message. */
  function UpdateHeader(e: Entry): (h: seq<byte>)
    ensures |h| == UPDATE_HEADER
  {
    LE(e.parent, 8) + LE(e.inode, 8) + LE(e.version, 8) + LE(e.writer, 4) + LE(e.mtime, 4) + LE(e.size, 4)
    + LE(|e.name| + 1, 4) + [KindByte(e.kind)]
  }

  /** `dcdb_send_update_inode` */
  function SendUpdate(e: Entry): seq<byte> {
    UpdateHeader(e) + (e.name + [0]) + (if e.kind.Reg? && e.size > 0 then e.data else [])
  }

  function FromLE4(d: seq<byte>): u32
    requires |d| == 4
  {
    assert d == [d[0]] + d[1..] && d[1..] == [d[1]] + d[2..] && d[2..] == [d[2]] + d[3..];
    FourBytes(d);
    FromLE(d)
  }

  lemma {:induction false} FourBytes(d: seq<byte>)
    requires |d| == 4
    ensures FromLE(d) < WIDTH
  {
    assert d[1..][1..] == d[2..] && d[2..][1..] == d[3..] && d[3..][1..] == [];
    assert FromLE(d[3..]) == d[3] as nat;
    assert FromLE(d[2..]) == d[2] as nat + 256 * FromLE(d[3..]);
    assert FromLE(d[1..]) == d[1] as nat + 256 * FromLE(d[2..]);
  }

  /** `dcdb_parse_update_inode`. A message of 40 bytes has no type byte and is refused; length
      fields whose 32-bit sum wraps around are refused too. */
  function ParseUpdate(d: seq<byte>): Option<Entry> {
    if |d| < UPDATE_HEADER then None
    else
      var size, namelen := FromLE4(d[32..36]), FromLE4(d[36..40]);
      var typ := d[40];
      if typ != 4 && typ != 8 then None
      else if |d| - UPDATE_HEADER != size + namelen || namelen == 0 then None
      else
        var at := UPDATE_HEADER + namelen;
        if d[at - 1] != 0 then None
        else
          var name := UntilNul(d[UPDATE_HEADER..at]);
          if name.None? then None
          else Some(Entry(FromLE(d[8..16]), FromLE(d[..8]), FromLE(d[16..24]), FromLE4(d[24..28]), FromLE4(d[28..32]),
                          if typ == 4 then Dir else Reg, size, name.value, if typ == 8 && size > 0 then d[at..at + size] else []))
  }

  lemma {:induction false} UpdateFields(e: Entry, rest: seq<byte>)
    ensures var d := UpdateHeader(e) + rest;
            && d[..8] == LE(e.parent, 8) && d[8..16] == LE(e.inode, 8) && d[16..24] == LE(e.version, 8) && d[24..28] == LE(e.writer, 4)
            && d[28..32] == LE(e.mtime, 4) && d[32..36] == LE(e.size, 4) && d[36..40] == LE(|e.name| + 1, 4) && d[40] == KindByte(e.kind)
  {
    hide LE;
  }

  /** An entry that a follower can store. */
  predicate Sendable(e: Entry) {
    && NulFree(e.name) && e.size == |e.data| && (e.kind.Dir? ==> e.data == [])
    && e.parent < Pow256(8) && e.inode < Pow256(8) && e.version < Pow256(8) && |e.name| + 1 + e.size < WIDTH
  }

  /** The numbers of an entry, read back from the fixed part. */
  lemma {:induction false} UpdateNumbers(e: Entry, d: seq<byte>)
    requires Sendable(e) && |d| >= UPDATE_HEADER && d[..UPDATE_HEADER] == UpdateHeader(e)
    ensures FromLE(d[..8]) == e.parent && FromLE(d[8..16]) == e.inode && FromLE(d[16..24]) == e.version
    ensures FromLE4(d[24..28]) == e.writer && FromLE4(d[28..32]) == e.mtime && FromLE4(d[32..36]) == e.size
    ensures FromLE4(d[36..40]) == |e.name| + 1 && d[40] == KindByte(e.kind)
  {
    hide LE, FromLE, Pow256, NulFree, UpdateHeader;
    Pow256Values();
    assert d == UpdateHeader(e) + d[UPDATE_HEADER..];
    UpdateFields(e, d[UPDATE_HEADER..]);
    LERoundTrip(e.parent, 8);
    LERoundTrip(e.inode, 8);
    LERoundTrip(e.version, 8);
    LERoundTrip(e.writer, 4);
    LERoundTrip(e.mtime, 4);
    LERoundTrip(e.size, 4);
    LERoundTrip(|e.name| + 1, 4);
  }

  /** A follower parses exactly the entry the leader sent. */
  lemma {:induction false} UpdateRoundTrip(e: Entry)
    requires Sendable(e)
    ensures ParseUpdate(SendUpdate(e)) == Some(e)
  {
    hide LE, FromLE, FromLE4, Pow256, UntilNul, NulFree, UpdateHeader;
    var h, name, data := UpdateHeader(e), e.name + [0], if e.kind.Reg? && e.size > 0 then e.data else [];
    var d := h + (name + data);
    assert SendUpdate(e) == d;
    assert d[..UPDATE_HEADER] == h;
    UpdateNumbers(e, d);
    UpdateTail(h, name, data);
    CutIs(e.name);
    CutNulFree(e.name);
  }

  lemma {:induction false} UpdateTail(h: seq<byte>, name: seq<byte>, data: seq<byte>)
    requires name != []
    ensures var d := h + (name + data); var at := |h| + |name|;
            d[|h|..at] == name && d[at..at + |data|] == data && d[at - 1] == name[|name| - 1] && |d| - |h| == |name| + |data|
  {
  }
}
