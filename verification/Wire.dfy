/** Frame payloads: what the protocol_send_* functions build and protocol_recv_message takes apart. */
module Wire {
  import opened Basics
  import opened Bytes

  const MSG_LOGIN: byte := 0x01
  const MSG_COMMAND: byte := 0x02
  const MSG_FILE_META: byte := 0x03
  const MSG_FILE_CHUNK: byte := 0x04
  const MSG_FILE_DONE: byte := 0x05
  const MSG_ACK: byte := 0x06
  const MSG_ERROR: byte := 0x7F

  const MAX_PAYLOAD: int := 1024 * 1024
  const MAX_DEVICE_ID: int := 255
  const MAX_TOKEN: int := 1024
  const MAX_SESSION: int := 128
  const MAX_FILENAME: int := 512
  const MAX_MESSAGE: int := 4096

  /** A Go string handed to C: it may hold NUL bytes, which C.CString and strlen cut off. */
  type GoString = seq<byte>

  /** The arguments of one protocol_send_* call. */
  datatype Message =
    | Login(device: GoString, token: GoString)
    | Command(json: seq<byte>)
    | FileMeta(name: GoString, size: u64)
    | FileChunk(session: GoString, token: GoString, offset: u32, data: seq<byte>)
    | FileDone(session: GoString, token: GoString)
    | Ack(code: u16, text: GoString)

  function Kind(m: Message): byte {
    match m
    case Login(_, _) => MSG_LOGIN
    case Command(_) => MSG_COMMAND
    case FileMeta(_, _) => MSG_FILE_META
    case FileChunk(_, _, _, _) => MSG_FILE_CHUNK
    case FileDone(_, _) => MSG_FILE_DONE
    case Ack(_, _) => MSG_ACK
  }

  /** The message with every text argument cut at its first NUL. */
  function Cut(m: Message): Message {
    match m
    case Login(d, t) => Login(CStr(d), CStr(t))
    case Command(_) => m
    case FileMeta(n, size) => FileMeta(CStr(n), size)
    case FileChunk(s, t, offset, data) => FileChunk(CStr(s), CStr(t), offset, data)
    case FileDone(s, t) => FileDone(CStr(s), CStr(t))
    case Ack(code, text) => Ack(code, CStr(text))
  }

  /** The fields a receiver should decode from a message whose token fits. */
  function ExpectedFields(m: Message): Fields {
    match Cut(m)
    case Login(d, t) => BLANK.(device := d, token := t)
    case Command(_) => BLANK
    case FileMeta(n, size) => BLANK.(fileSize := size, fileName := n)
    case FileChunk(s, t, offset, data) =>
      BLANK.(session := s, token := t, chunkOffset := offset, chunkLen := |data|)
    case FileDone(s, t) => BLANK.(session := s, token := t)
    case Ack(code, text) => BLANK.(status := code, statusText := text)
  }

  predicate TextsNulFree(m: Message) {
    match m
    case Login(d, t) => NulFree(d) && NulFree(t)
    case Command(_) => true
    case FileMeta(n, _) => NulFree(n)
    case FileChunk(s, t, _, _) => NulFree(s) && NulFree(t)
    case FileDone(s, t) => NulFree(s) && NulFree(t)
    case Ack(_, text) => NulFree(text)
  }

  /** Chunk and done frames have one byte for the token length. */
  predicate TokenFits(m: Message) {
    match m
    case FileChunk(_, t, _, _) => |CStr(t)| <= 255
    case FileDone(_, t) => |CStr(t)| <= 255
    case _ => true
  }

  /** The payload layout, with the (uint8_t) casts of the two one-byte lengths. */
  function Payload(m: Message): seq<byte> {
    match Cut(m)
    case Login(d, t) => [|d| % 256] + BE(|t|, 2) + d + t
    case Command(json) => json
    case FileMeta(n, size) => BE(|n|, 2) + BE(size, 8) + n
    case FileChunk(s, t, offset, data) =>
      [|s| % 256, |t| % 256] + s + t + BE(offset, 4) + BE(|data|, 4) + data
    case FileDone(s, t) => [|s| % 256, |t| % 256] + s + t
    case Ack(code, text) => BE(code, 2) + BE(|text|, 2) + text
  }

  /** The calls that do not return -1 before anything is written. */
  predicate Sendable(m: Message) {
    match Cut(m)
    case Login(d, t) => 1 <= |d| <= MAX_DEVICE_ID && 1 <= |t| <= MAX_TOKEN
    case Command(json) => 1 <= |json| <= MAX_PAYLOAD
    case FileMeta(n, _) => 1 <= |n| <= MAX_FILENAME
    case FileChunk(s, t, _, data) =>
      && 1 <= |data|
      && |s| <= MAX_SESSION && |t| <= MAX_TOKEN
      && 10 + |s| + |t| + |data| <= MAX_PAYLOAD
    case FileDone(s, t) => |s| <= MAX_SESSION && |t| <= MAX_TOKEN
    case Ack(_, text) => |text| <= MAX_MESSAGE
  }

  lemma SendablePayloadFits(m: Message)
    requires Sendable(m)
    ensures |Payload(m)| <= MAX_PAYLOAD
  {
  }

  // ---- Building a payload in a malloc'd buffer -------------------------------------------

  method Memcpy(dst: array<byte>, pos: nat, src: seq<byte>)
    requires pos + |src| <= dst.Length
    modifies dst
    ensures dst[..pos + |src|] == old(dst[..pos]) + src
  {
    for k := 0 to |src|
      invariant dst[..pos] == old(dst[..pos])
      invariant forall j :: 0 <= j < k ==> dst[pos + j] == src[j]
    {
      dst[pos + k] := src[k];
    }
  }

  method BuildLogin(device: GoString, token: GoString) returns (ok: bool, payload: seq<byte>)
    ensures ok <==> Sendable(Login(device, token))
    ensures ok ==> payload == Payload(Login(device, token))
  {
    payload := [];
    var d, t := CStr(device), CStr(token);
    if |d| == 0 || |d| > MAX_DEVICE_ID { return false, payload; }
    if |t| == 0 || |t| > MAX_TOKEN { return false, payload; }
    var buf := new byte[1 + 2 + |d| + |t|];
    buf[0] := |d| % 256;
    ghost var first := buf[..1];
    Memcpy(buf, 1, BE(|t|, 2));
    assert buf[..3] == first + BE(|t|, 2);
    Memcpy(buf, 1 + 2, d);
    Memcpy(buf, 1 + 2 + |d|, t);
    assert buf[..3 + |d| + |t|] == first + BE(|t|, 2) + d + t;
    ok, payload := true, buf[..3 + |d| + |t|];
  }

  /** The memory image of `htonll_u64(size)` on a little-endian host. */
  method SizeInMemory(size: u64) returns (image: seq<byte>)
    ensures image == BE(size, 8)
  {
    HtonllIsNetworkOrder(size);
    image := LE(Htonll(size), 8);
  }

  method BuildFileMeta(name: GoString, size: u64) returns (ok: bool, payload: seq<byte>)
    ensures ok <==> Sendable(FileMeta(name, size))
    ensures ok ==> payload == Payload(FileMeta(name, size))
  {
    payload := [];
    var n := CStr(name);
    if |n| == 0 || |n| > MAX_FILENAME { return false, payload; }
    var buf := new byte[2 + 8 + |n|];
    Memcpy(buf, 0, BE(|n|, 2));
    var image := SizeInMemory(size);
    Memcpy(buf, 2, image);
    assert buf[..10] == BE(|n|, 2) + image;
    Memcpy(buf, 2 + 8, n);
    ok, payload := true, buf[..10 + |n|];
  }

  /** The two length bytes, the session id and the token at the start of a chunk or done payload. */
  method PutSession(buf: array<byte>, s: seq<byte>, t: seq<byte>) returns (pos: nat)
    requires 2 + |s| + |t| <= buf.Length
    modifies buf
    ensures pos == 2 + |s| + |t| && buf[..pos] == [|s| % 256, |t| % 256] + s + t
  {
    buf[0], buf[1] := |s| % 256, |t| % 256;
    pos := 2;
    assert buf[..pos] == [|s| % 256, |t| % 256];
    if |s| > 0 {
      Memcpy(buf, pos, s);
      pos := pos + |s|;
    }
    assert buf[..pos] == [|s| % 256, |t| % 256] + s;
    if |t| > 0 {
      Memcpy(buf, pos, t);
      pos := pos + |t|;
    }
  }

  method BuildFileChunk(session: GoString, token: GoString, offset: u32, data: seq<byte>)
    returns (ok: bool, payload: seq<byte>)
    ensures ok <==> Sendable(FileChunk(session, token, offset, data))
    ensures ok ==> payload == Payload(FileChunk(session, token, offset, data))
  {
    payload := [];
    if |data| == 0 || |data| > MAX_PAYLOAD { return false, payload; }
    var s, t := CStr(session), CStr(token);
    if |s| > MAX_SESSION || |t| > MAX_TOKEN { return false, payload; }
    var buf := new byte[1 + 1 + |s| + |t| + 4 + 4 + |data|];
    var pos := PutSession(buf, s, t);
    Memcpy(buf, pos, BE(offset, 4));
    pos := pos + 4;
    Memcpy(buf, pos, BE(|data|, 4));
    pos := pos + 4;
    Memcpy(buf, pos, data);
    payload := buf[..pos + |data|];
    // protocol_send_frame refuses a payload over the limit
    ok := |payload| <= MAX_PAYLOAD;
  }

  method BuildFileDone(session: GoString, token: GoString) returns (ok: bool, payload: seq<byte>)
    ensures ok <==> Sendable(FileDone(session, token))
    ensures ok ==> payload == Payload(FileDone(session, token))
  {
    payload := [];
    var s, t := CStr(session), CStr(token);
    if |s| > MAX_SESSION || |t| > MAX_TOKEN { return false, payload; }
    var buf := new byte[1 + 1 + |s| + |t|];
    var pos := PutSession(buf, s, t);
    ok, payload := true, buf[..pos];
  }

  method BuildAck(code: u16, text: GoString) returns (ok: bool, payload: seq<byte>)
    ensures ok <==> Sendable(Ack(code, text))
    ensures ok ==> payload == Payload(Ack(code, text))
  {
    payload := [];
    var m := CStr(text);
    if |m| > MAX_MESSAGE { return false, payload; }
    var buf := new byte[2 + 2 + |m|];
    Memcpy(buf, 0, BE(code, 2));
    Memcpy(buf, 2, BE(|m|, 2));
    if |m| > 0 {
      Memcpy(buf, 4, m);
    }
    ok, payload := true, buf[..];
    assert payload == buf[..4 + |m|];
  }

  method Build(m: Message) returns (ok: bool, payload: seq<byte>)
    ensures ok <==> Sendable(m)
    ensures ok ==> payload == Payload(m)
  {
    match m
    case Login(d, t) => ok, payload := BuildLogin(d, t);
    case Command(json) => ok, payload := 1 <= |json| <= MAX_PAYLOAD, json;
    case FileMeta(n, size) => ok, payload := BuildFileMeta(n, size);
    case FileChunk(s, t, offset, data) => ok, payload := BuildFileChunk(s, t, offset, data);
    case FileDone(s, t) => ok, payload := BuildFileDone(s, t);
    case Ack(code, text) => ok, payload := BuildAck(code, text);
  }

  // ---- Taking a payload apart -------------------------------------------------------------

  /** What the Go side sees of a received frame: the raw payload and the decoded fields. */
  datatype Received = Received(kind: byte, raw: seq<byte>, fields: Fields)

  datatype Fields = Fields(device: GoString, token: GoString, session: GoString, fileName: GoString,
                           fileSize: nat, chunkOffset: nat, chunkLen: nat, status: nat, statusText: GoString)

  const BLANK := Fields([], [], [], [], 0, 0, 0, 0, [])

  function ParseLogin(p: seq<byte>): Fields {
    if |p| < 3 then BLANK else
    var d, t := p[0], FromBE(p[1..3]);
    if |p| < 3 + d + t || t > MAX_TOKEN then BLANK else
    BLANK.(device := CStr(p[3..3 + d]), token := CStr(p[3 + d..3 + d + t]))
  }

  function ParseFileMeta(p: seq<byte>): Fields {
    if |p| < 10 then BLANK else
    var n := FromBE(p[..2]);
    if n > MAX_FILENAME || |p| < 10 + n then BLANK else
    BLANK.(fileSize := FromBE(p[2..10]), fileName := CStr(p[10..10 + n]))
  }

  /** The session and token part that chunk and done frames share; `extra` bytes must follow it. */
  predicate HasSession(p: seq<byte>, extra: nat) {
    |p| >= 2 && p[0] <= MAX_SESSION && SessionEnd(p) + extra <= |p|
  }

  /** Where the session id and token end, by their two length bytes. */
  function SessionEnd(p: seq<byte>): nat
    requires |p| >= 2
  {
    2 + p[0] as int + p[1] as int
  }

  function ParseFileChunk(p: seq<byte>): Fields {
    if !HasSession(p, 8) then BLANK else
    var pos := SessionEnd(p);
    BLANK.(session := CStr(p[2..2 + p[0]]), token := CStr(p[2 + p[0]..pos]),
           chunkOffset := FromBE(p[pos..pos + 4]), chunkLen := FromBE(p[pos + 4..pos + 8]))
  }

  function ParseFileDone(p: seq<byte>): Fields {
    if !HasSession(p, 0) then BLANK else
    BLANK.(session := CStr(p[2..2 + p[0]]), token := CStr(p[2 + p[0]..2 + p[0] + p[1]]))
  }

  function ParseStatus(p: seq<byte>): Fields {
    if |p| < 4 then BLANK else
    var code, n := FromBE(p[..2]), FromBE(p[2..4]);
    // the status code is stored before the text length is checked
    if n > MAX_MESSAGE || |p| < 4 + n then BLANK.(status := code) else
    BLANK.(status := code, statusText := CStr(p[4..4 + n]))
  }

  function Parse(kind: byte, p: seq<byte>): Received {
    Received(kind, p,
      if kind == MSG_LOGIN then ParseLogin(p)
      else if kind == MSG_FILE_META then ParseFileMeta(p)
      else if kind == MSG_FILE_CHUNK then ParseFileChunk(p)
      else if kind == MSG_FILE_DONE then ParseFileDone(p)
      else if kind == MSG_ACK || kind == MSG_ERROR then ParseStatus(p)
      else BLANK)
  }

  /** The chunk data the Go conversion slices off, from the two raw length bytes alone. */
  function ChunkData(r: Received): Option<seq<byte>> {
    if r.kind != MSG_FILE_CHUNK || |r.raw| < 2 then None
    else if SessionEnd(r.raw) + 8 <= |r.raw| then Some(r.raw[SessionEnd(r.raw) + 8..])
    else None
  }

  /** The message a receiver rebuilds from a received frame, by its kind. */
  function Recover(r: Received): Option<Message> {
    var f := r.fields;
    if r.kind == MSG_LOGIN then Some(Login(f.device, f.token))
    else if r.kind == MSG_COMMAND then Some(Command(r.raw))
    else if r.kind == MSG_FILE_META then
      if f.fileSize < 0x1_0000_0000_0000_0000 then Some(FileMeta(f.fileName, f.fileSize)) else None
    else if r.kind == MSG_FILE_CHUNK then
      if f.chunkOffset < TWO_TO_THE_32 && ChunkData(r).Some? then
        Some(FileChunk(f.session, f.token, f.chunkOffset, ChunkData(r).value))
      else None
    else if r.kind == MSG_FILE_DONE then Some(FileDone(f.session, f.token))
    else if r.kind == MSG_ACK then
      if f.status < 0x1_0000 then Some(Ack(f.status, f.statusText)) else None
    else None
  }

  // ---- Round trip ---------------------------------------------------------------------------

  // The layouts, with the big-endian fields as byte strings of known value.

  lemma LoginLayout(dl: byte, tl: seq<byte>, d: GoString, t: GoString)
    requires NulFree(d) && NulFree(t) && dl == |d| && |tl| == 2 && FromBE(tl) == |t| <= MAX_TOKEN
    ensures ParseLogin([dl] + tl + d + t) == BLANK.(device := d, token := t)
  {
    var p := [dl] + tl + d + t;
    assert p[1..3] == tl;
    assert p[3..3 + |d|] == d;
    assert p[3 + |d|..3 + |d| + |t|] == t;
    CStrFixedPoint(d);
    CStrFixedPoint(t);
  }

  lemma FileMetaLayout(nl: seq<byte>, size: seq<byte>, n: GoString)
    requires NulFree(n) && |nl| == 2 && |size| == 8 && FromBE(nl) == |n| <= MAX_FILENAME
    ensures ParseFileMeta(nl + size + n) == BLANK.(fileSize := FromBE(size), fileName := n)
  {
    var p := nl + size + n;
    assert p[..2] == nl;
    assert p[2..10] == size;
    assert p[10..10 + |n|] == n;
    CStrFixedPoint(n);
  }

  lemma SessionSlices(p: seq<byte>, s: seq<byte>, t: seq<byte>, rest: seq<byte>)
    requires |s| <= 255 && |t| <= 255 && p == [|s|, |t|] + s + t + rest
    ensures |p| == 2 + |s| + |t| + |rest| && p[0] == |s| && p[1] == |t|
    ensures p[2..2 + |s|] == s && p[2 + |s|..2 + |s| + |t|] == t && p[2 + |s| + |t|..] == rest
  {
  }

  lemma TailSlices(p: seq<byte>, pos: nat, offset: seq<byte>, len: seq<byte>, data: seq<byte>)
    requires pos <= |p| && p[pos..] == offset + len + data && |offset| == 4 && |len| == 4
    ensures |p| == pos + 8 + |data|
    ensures p[pos..pos + 4] == offset && p[pos + 4..pos + 8] == len && p[pos + 8..] == data
  {
    var rest := p[pos..];
    assert p[pos..pos + 4] == rest[..4];
    assert p[pos + 4..pos + 8] == rest[4..8];
    assert p[pos + 8..] == rest[8..];
  }

  lemma ChunkSlices(p: seq<byte>, s: seq<byte>, t: seq<byte>, offset: seq<byte>, len: seq<byte>, data: seq<byte>)
    requires |s| <= MAX_SESSION && |t| <= 255 && |offset| == 4 && |len| == 4
    requires p == [|s|, |t|] + s + t + (offset + len + data)
    ensures HasSession(p, 8)
    ensures var pos := SessionEnd(p);
            && p[2..2 + p[0]] == s && p[2 + p[0]..pos] == t
            && p[pos..pos + 4] == offset && p[pos + 4..pos + 8] == len && p[pos + 8..] == data
  {
    SessionSlices(p, s, t, offset + len + data);
    TailSlices(p, SessionEnd(p), offset, len, data);
  }

  lemma FileChunkLayout(p: seq<byte>, s: seq<byte>, t: seq<byte>, offset: seq<byte>, len: seq<byte>, data: seq<byte>)
    requires |s| <= MAX_SESSION && |t| <= 255 && |offset| == 4 && |len| == 4
    requires p == [|s|, |t|] + s + t + (offset + len + data)
    ensures HasSession(p, 8)
    ensures ParseFileChunk(p) ==
            BLANK.(session := CStr(s), token := CStr(t), chunkOffset := FromBE(offset), chunkLen := FromBE(len))
    ensures ChunkData(Parse(MSG_FILE_CHUNK, p)) == Some(data)
  {
    ChunkSlices(p, s, t, offset, len, data);
  }

  lemma FileDoneLayout(s: GoString, t: GoString)
    requires NulFree(s) && NulFree(t) && |s| <= MAX_SESSION && |t| <= 255
    ensures ParseFileDone([|s| % 256, |t| % 256] + s + t) == BLANK.(session := s, token := t)
  {
    assert [|s| % 256, |t| % 256] + s + t == [|s|, |t|] + s + t + [];
    SessionSlices([|s| % 256, |t| % 256] + s + t, s, t, []);
    CStrFixedPoint(s);
    CStrFixedPoint(t);
  }

  lemma StatusLayout(code: seq<byte>, ml: seq<byte>, text: GoString)
    requires NulFree(text) && |code| == 2 && |ml| == 2 && FromBE(ml) == |text| <= MAX_MESSAGE
    ensures ParseStatus(code + ml + text) == BLANK.(status := FromBE(code), statusText := text)
  {
    var p := code + ml + text;
    assert p[..2] == code;
    assert p[2..4] == ml;
    assert p[4..4 + |text|] == text;
    CStrFixedPoint(text);
  }

  lemma CutFixedPoint(m: Message)
    ensures Cut(m) == m <==> TextsNulFree(m)
  {
    match m
    case Login(d, t) => CStrFixedPoint(d); CStrFixedPoint(t);
    case Command(_) =>
    case FileMeta(n, _) => CStrFixedPoint(n);
    case FileChunk(s, t, _, _) => CStrFixedPoint(s); CStrFixedPoint(t);
    case FileDone(s, t) => CStrFixedPoint(s); CStrFixedPoint(t);
    case Ack(_, text) => CStrFixedPoint(text);
  }

  /** Whatever the token length byte says, a decoded chunk or done token has at most 255 bytes. */
  lemma DecodedTokenIsShort(p: seq<byte>)
    ensures |ParseFileChunk(p).token| <= 255 && |ParseFileDone(p).token| <= 255
  {
  }

  lemma LoginParses(d: GoString, t: GoString)
    requires Sendable(Login(d, t))
    ensures ParseLogin(Payload(Login(d, t))) == ExpectedFields(Login(d, t))
  {
    Capacities();
    FromBEInvertsBE(|CStr(t)|, 2);
    var dev, tok := CStr(d), CStr(t);
    assert |dev| % 256 == |dev|;
    LoginLayout(|dev| % 256, BE(|tok|, 2), dev, tok);
  }

  lemma FileMetaParses(n: GoString, size: u64)
    requires Sendable(FileMeta(n, size))
    ensures ParseFileMeta(Payload(FileMeta(n, size))) == ExpectedFields(FileMeta(n, size))
  {
    Capacities();
    FromBEInvertsBE(|CStr(n)|, 2);
    FromBEInvertsBE(size, 8);
    FileMetaLayout(BE(|CStr(n)|, 2), BE(size, 8), CStr(n));
  }

  lemma FileChunkParses(s: GoString, t: GoString, offset: u32, data: seq<byte>)
    requires Sendable(FileChunk(s, t, offset, data)) && |CStr(t)| <= 255
    ensures ParseFileChunk(Payload(FileChunk(s, t, offset, data))) == ExpectedFields(FileChunk(s, t, offset, data))
    ensures ChunkData(Parse(MSG_FILE_CHUNK, Payload(FileChunk(s, t, offset, data)))) == Some(data)
  {
    var sid, tok := CStr(s), CStr(t);
    assert |sid| % 256 == |sid| && |tok| % 256 == |tok|;
    ChunkMessageParses(sid, tok, offset, data);
  }

  lemma FileDoneParses(s: GoString, t: GoString)
    requires Sendable(FileDone(s, t)) && |CStr(t)| <= 255
    ensures ParseFileDone(Payload(FileDone(s, t))) == ExpectedFields(FileDone(s, t))
  {
    var sid, tok := CStr(s), CStr(t);
    assert |sid| % 256 == |sid| && |tok| % 256 == |tok|;
    FileDoneLayout(sid, tok);
  }

  lemma AckParses(code: u16, text: GoString)
    requires Sendable(Ack(code, text))
    ensures ParseStatus(Payload(Ack(code, text))) == ExpectedFields(Ack(code, text))
  {
    Capacities();
    FromBEInvertsBE(code, 2);
    FromBEInvertsBE(|CStr(text)|, 2);
    StatusLayout(BE(code, 2), BE(|CStr(text)|, 2), CStr(text));
  }

  lemma FittingMessageParses(m: Message)
    requires Sendable(m) && TokenFits(m)
    ensures Parse(Kind(m), Payload(m)).fields == ExpectedFields(m)
    ensures m.FileChunk? ==> ChunkData(Parse(Kind(m), Payload(m))) == Some(m.data)
  {
    match m
    case Login(d, t) => LoginParses(d, t);
    case Command(_) =>
    case FileMeta(n, size) => FileMetaParses(n, size);
    case FileChunk(s, t, offset, data) => FileChunkParses(s, t, offset, data);
    case FileDone(s, t) => FileDoneParses(s, t);
    case Ack(code, text) => AckParses(code, text);
  }

  lemma ChunkMessageParses(s: GoString, t: GoString, offset: u32, data: seq<byte>)
    requires NulFree(s) && NulFree(t) && |s| <= MAX_SESSION && |t| <= 255 && |data| <= MAX_PAYLOAD
    ensures var p := [|s| % 256, |t| % 256] + s + t + BE(offset, 4) + BE(|data|, 4) + data;
            && ParseFileChunk(p) == BLANK.(session := s, token := t, chunkOffset := offset, chunkLen := |data|)
            && ChunkData(Parse(MSG_FILE_CHUNK, p)) == Some(data)
  {
    var o, l := BE(offset, 4), BE(|data|, 4);
    var p := [|s| % 256, |t| % 256] + s + t + o + l + data;
    assert p == [|s|, |t|] + s + t + (o + l + data);
    FileChunkLayout(p, s, t, o, l, data);
    Capacities();
    FromBEInvertsBE(offset, 4);
    FromBEInvertsBE(|data|, 4);
    CStrFixedPoint(s);
    CStrFixedPoint(t);
  }

  lemma ExpectedRecovers(m: Message)
    requires Parse(Kind(m), Payload(m)).fields == ExpectedFields(m)
    requires m.FileChunk? ==> ChunkData(Parse(Kind(m), Payload(m))) == Some(m.data)
    ensures Recover(Parse(Kind(m), Payload(m))) == Some(Cut(m))
  {
  }

  /** Every accepted message whose token fits comes back, cut at NULs; a longer token never does. */
  lemma CutRoundTrip(m: Message)
    requires Sendable(m)
    ensures Recover(Parse(Kind(m), Payload(m))) == Some(Cut(m)) <==> TokenFits(m)
  {
    if TokenFits(m) {
      FittingMessageParses(m);
      ExpectedRecovers(m);
    } else {
      DecodedTokenIsShort(Payload(m));
    }
  }

  /** The exact condition: an accepted message is received as sent if and only if its texts
      hold no NUL and its chunk or done token has at most 255 bytes. */
  lemma RoundTripExactly(m: Message)
    requires Sendable(m)
    ensures Recover(Parse(Kind(m), Payload(m))) == Some(m) <==> TextsNulFree(m) && TokenFits(m)
  {
    CutRoundTrip(m);
    CutFixedPoint(m);
    if Recover(Parse(Kind(m), Payload(m))) == Some(m) {
      if !TokenFits(m) {
        DecodedTokenIsShort(Payload(m));
      }
      assert TokenFits(m);
    }
  }

  /** The senders do accept a token that does not survive. */
  lemma LongTokenIsLost(t: GoString)
    requires NulFree(t) && 256 <= |t| <= MAX_TOKEN
    ensures Sendable(FileDone([], t))
    ensures Recover(Parse(MSG_FILE_DONE, Payload(FileDone([], t)))) != Some(FileDone([], t))
  {
    CStrFixedPoint(t);
    RoundTripExactly(FileDone([], t));
  }

  // ---- Arbitrary payloads ---------------------------------------------------------------------

  /** Bytes that start with session, token, offset and length fields of the given values. */
  ghost predicate ChunkLayout(p: seq<byte>, s: seq<byte>, t: seq<byte>, offset: u32, len: u32, data: seq<byte>) {
    |s| <= MAX_SESSION && |t| <= 255 && p == [|s|, |t|] + s + t + BE(offset, 4) + BE(len, 4) + data
  }

  /** On any payload at all, the receiver either leaves every chunk field blank because no chunk
      layout fits, or has found the only layout that fits; the Go slice is that layout's data. */
  lemma ChunkFieldsAreTheLayout(p: seq<byte>)
    ensures HasSession(p, 8) <==>
            exists s, t, offset: u32, len: u32, data :: ChunkLayout(p, s, t, offset, len, data)
    ensures forall s, t, offset: u32, len: u32, data :: ChunkLayout(p, s, t, offset, len, data) ==>
              && ParseFileChunk(p) == BLANK.(session := CStr(s), token := CStr(t), chunkOffset := offset, chunkLen := len)
              && ChunkData(Parse(MSG_FILE_CHUNK, p)) == Some(data)
  {
    forall s, t, offset: u32, len: u32, data | ChunkLayout(p, s, t, offset, len, data)
      ensures HasSession(p, 8)
      ensures ParseFileChunk(p) == BLANK.(session := CStr(s), token := CStr(t), chunkOffset := offset, chunkLen := len)
      ensures ChunkData(Parse(MSG_FILE_CHUNK, p)) == Some(data)
    {
      ChunkLayoutParses(p, s, t, offset, len, data);
    }
    if HasSession(p, 8) {
      ChunkLayoutFound(p);
    }
  }

  lemma ChunkLayoutFound(p: seq<byte>)
    requires HasSession(p, 8)
    ensures exists s, t, offset: u32, len: u32, data :: ChunkLayout(p, s, t, offset, len, data)
  {
    var pos := SessionEnd(p);
    Capacities();
    FromBEFits(p[pos..pos + 4]);
    FromBEFits(p[pos + 4..pos + 8]);
    BEInvertsFromBE(p[pos..pos + 4]);
    BEInvertsFromBE(p[pos + 4..pos + 8]);
    var offset: u32 := FromBE(p[pos..pos + 4]);
    var len: u32 := FromBE(p[pos + 4..pos + 8]);
    assert p == [p[0], p[1]] + p[2..2 + p[0]] + p[2 + p[0]..pos] + p[pos..pos + 4] + p[pos + 4..pos + 8] + p[pos + 8..];
    assert ChunkLayout(p, p[2..2 + p[0]], p[2 + p[0]..pos], offset, len, p[pos + 8..]);
  }

  lemma ChunkLayoutParses(p: seq<byte>, s: seq<byte>, t: seq<byte>, offset: u32, len: u32, data: seq<byte>)
    requires ChunkLayout(p, s, t, offset, len, data)
    ensures HasSession(p, 8)
    ensures ParseFileChunk(p) == BLANK.(session := CStr(s), token := CStr(t), chunkOffset := offset, chunkLen := len)
    ensures ChunkData(Parse(MSG_FILE_CHUNK, p)) == Some(data)
  {
    var o, l := BE(offset, 4), BE(len, 4);
    assert [|s|, |t|] + s + t + o + l + data == [|s|, |t|] + s + t + (o + l + data);
    FileChunkLayout(p, s, t, o, l, data);
    Capacities();
    FromBEInvertsBE(offset, 4);
    FromBEInvertsBE(len, 4);
  }

  /** No payload can overflow the fixed-size fields of the message structure. */
  lemma FieldsWithinLimits(kind: byte, p: seq<byte>)
    ensures var f := Parse(kind, p).fields;
            && |f.device| <= MAX_DEVICE_ID && |f.token| <= MAX_TOKEN && |f.session| <= MAX_SESSION
            && |f.fileName| <= MAX_FILENAME && |f.statusText| <= MAX_MESSAGE
  {
  }
}
