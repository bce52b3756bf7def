/** The download: the backend's send loop and the agent's receive loop. */
module Download {
  import opened Basics
  import opened Bytes
  import opened Wire
  import opened Stream
  import opened FileContent
  import opened Chunking
  import opened AgentUpload

  /** The messages of a download, for the reads the stored file delivers from the offset on. */
  function DownloadMessages(sid: GoString, token: GoString, name: GoString, size: u64, offset: u32,
                            chunks: seq<seq<byte>>): seq<Message> {
    [FileMeta(name, size)] + ChunkMessages(sid, token, chunks, offset) + [FileDone(sid, token)]
  }

  /** What a stored file of this content delivers after seeking to `offset`. */
  function ContentFrom(content: seq<byte>, offset: nat): seq<byte> {
    if offset <= |content| then content[offset..] else []
  }

  /** The send loop of handleBackupDownloadStart. */
  method SendDownload(socket: Socket, sid: GoString, token: GoString, name: GoString, size: u64, start: u32,
                      pieces: seq<seq<byte>>) returns (ok: bool)
    modifies socket`outgoing, socket`sendPlan
    ensures ok ==> socket.outgoing == old(socket.outgoing) + StreamOf(DownloadMessages(sid, token, name, size, start, Filled(pieces)))
    ensures ok ==> AllSendable(DownloadMessages(sid, token, name, size, start, Filled(pieces)))
    ensures SmoothSends(old(socket.sendPlan)) && AllSendable(DownloadMessages(sid, token, name, size, start, Filled(pieces))) ==> ok
  {
    ghost var before := socket.outgoing;
    assert before + StreamOf([]) == before;
    DownloadParts(sid, token, name, size, start, Filled(pieces));
    ok := Say(socket, FileMeta(name, size), before, []);
    if !ok {
      return;
    }
    var offset: u32 := start;
    var i := 0;
    ghost var sent, rest := [FileMeta(name, size)], ChunkMessages(sid, token, Filled(pieces), start);
    assert [] + [FileMeta(name, size)] == sent;
    assert pieces[0..] == pieces;
    while i < |pieces|
      invariant Halfway(sid, token, pieces, start, [FileMeta(name, size)], i, offset, sent, rest)
      invariant socket.outgoing == before + StreamOf(sent)
      invariant AllSendable(sent)
      invariant SmoothSends(old(socket.sendPlan)) ==> SmoothSends(socket.sendPlan)
    {
      NextPiece(sid, token, pieces, start, [FileMeta(name, size)], i, offset, sent, rest);
      if |pieces[i]| > 0 {
        var m := FileChunk(sid, token, offset, pieces[i]);
        ok := Say(socket, m, before, sent);
        if !ok {
          return;
        }
        offset := (offset + |pieces[i]|) % TWO_TO_THE_32;
        sent, rest := sent + [m], rest[1..];
      }
      i := i + 1;
    }
    assert sent + [] == sent;
    ok := Say(socket, FileDone(sid, token), before, sent);
  }

  lemma DownloadParts(sid: GoString, token: GoString, name: GoString, size: u64, start: u32, chunks: seq<seq<byte>>)
    ensures AllSendable(DownloadMessages(sid, token, name, size, start, chunks)) <==>
            Sendable(FileMeta(name, size)) && AllSendable(ChunkMessages(sid, token, chunks, start)) && Sendable(FileDone(sid, token))
  {
    var meta, body, done := [FileMeta(name, size)], ChunkMessages(sid, token, chunks, start), [FileDone(sid, token)];
    AllSendableAppend(meta + body, done);
    AllSendableAppend(meta, body);
    AllSendableOne(FileMeta(name, size));
    AllSendableOne(FileDone(sid, token));
  }

  /** One send call of the loop. */
  method Say(socket: Socket, m: Message, ghost before: seq<byte>, ghost sent: seq<Message>) returns (ok: bool)
    requires socket.outgoing == before + StreamOf(sent) && AllSendable(sent)
    modifies socket`outgoing, socket`sendPlan
    ensures ok ==> socket.outgoing == before + StreamOf(sent + [m]) && AllSendable(sent + [m])
    ensures ok ==> Sendable(m)
    ensures SmoothSends(old(socket.sendPlan)) ==> SmoothSends(socket.sendPlan) && (ok <==> Sendable(m))
  {
    ok := socket.SendMessage(m);
    StreamGrows(before, sent, m);
    AllSendableAppend(sent, [m]);
    AllSendableOne(m);
  }

  // ---- The receiving side -------------------------------------------------------------------------

  datatype Status = Receiving | Finished | Failed

  /** The destination file, its write position, and the session's running offset. */
  datatype Sink = Sink(file: seq<byte>, position: nat, offset: nat, name: GoString, size: nat, status: Status)

  function AfterData(k: Sink, data: seq<byte>): Sink {
    k.(file := WriteAt(k.file, k.position, data), position := k.position + |data|, offset := k.offset + |data|)
  }

  function AfterFrame(r: Received, k: Sink): Sink {
    if r.kind == MSG_FILE_META then k.(position := 0, name := r.fields.fileName, size := r.fields.fileSize)
    else if r.kind == MSG_FILE_CHUNK then
      AfterData(k, if ChunkData(r).Some? then ChunkData(r).value else [])
    else if r.kind == MSG_FILE_DONE then k.(status := Finished)
    else if r.kind == MSG_ACK || r.kind == MSG_ERROR then k.(status := Failed)
    else k
  }

  function AfterFrames(rs: seq<Received>, k: Sink): Sink
    decreases |rs|
  {
    if rs == [] || k.status != Receiving then k else AfterFrames(rs[1..], AfterFrame(rs[0], k))
  }

  class Receiver {
    var file: seq<byte>
    var position: nat
    var offset: nat
    var name: GoString
    var size: nat

    constructor (file: seq<byte>, offset: nat)
      ensures View(Receiving) == Sink(file, 0, offset, [], 0, Receiving)
    {
      this.file, this.offset := file, offset;
      position, name, size := 0, [], 0;
    }

    ghost function View(status: Status): Sink
      reads this
    {
      Sink(file, position, offset, name, size, status)
    }

    /** The receive loop of DownloadFile over the frames that arrive. */
    method ReceiveFile(rs: seq<Received>) returns (status: Status)
      modifies this
      ensures View(status) == AfterFrames(rs, old(View(Receiving)))
    {
      status := Receiving;
      var i := 0;
      assert rs[0..] == rs;
      while i < |rs| && status == Receiving
        invariant 0 <= i <= |rs|
        invariant AfterFrames(rs[i..], View(status)) == AfterFrames(rs, old(View(Receiving)))
      {
        var r := rs[i];
        ghost var before := View(status);
        if r.kind == MSG_FILE_META {
          position := 0;
          name, size := r.fields.fileName, r.fields.fileSize;
        } else if r.kind == MSG_FILE_CHUNK {
          var data := if ChunkData(r).Some? then ChunkData(r).value else [];
          file := WriteAt(file, position, data);
          position := position + |data|;
          offset := offset + |data|;
        } else if r.kind == MSG_FILE_DONE {
          status := Finished;
        } else if r.kind == MSG_ACK || r.kind == MSG_ERROR {
          status := Failed;
        }
        assert View(status) == AfterFrame(r, before);
        assert rs[i..][1..] == rs[i + 1..];
        i := i + 1;
      }
    }
  }

  // ---- Any frames at all --------------------------------------------------------------------------------

  /** The frame ends the download: done, an acknowledgement or an error. */
  predicate EndsDownload(r: Received) {
    r.kind == MSG_FILE_DONE || r.kind == MSG_ACK || r.kind == MSG_ERROR
  }

  /** How much data the chunk frames hold. */
  function DataLength(rs: seq<Received>): nat {
    if rs == [] then 0 else
    (if rs[0].kind == MSG_FILE_CHUNK && ChunkData(rs[0]).Some? then |ChunkData(rs[0]).value| else 0) + DataLength(rs[1..])
  }

  /** Until a frame ends the download it goes on, and the offset grows by the data received; the position is
      that of the data since the last meta frame, if one came. */
  lemma {:induction false} ReceiveGoesOn(rs: seq<Received>, k: Sink)
    requires k.status == Receiving && forall i :: 0 <= i < |rs| ==> !EndsDownload(rs[i])
    ensures var after := AfterFrames(rs, k);
            && after.status == Receiving && after.offset == k.offset + DataLength(rs)
            && ((forall i :: 0 <= i < |rs| ==> rs[i].kind != MSG_FILE_META) ==> after.position == k.position + DataLength(rs))
            && forall m :: 0 <= m < |rs| && rs[m].kind == MSG_FILE_META && (forall i :: m < i < |rs| ==> rs[i].kind != MSG_FILE_META) ==>
                 after.position == DataLength(rs[m + 1..]) && after.name == rs[m].fields.fileName && after.size == rs[m].fields.fileSize
    decreases |rs|
  {
    if rs != [] {
      var next, rest := AfterFrame(rs[0], k), rs[1..];
      ReceiveGoesOn(rest, next);
      if forall i :: 0 <= i < |rest| ==> rest[i].kind != MSG_FILE_META {
        NamesStay(rest, next);
      }
      forall m | 0 <= m < |rs| && rs[m].kind == MSG_FILE_META && forall i :: m < i < |rs| ==> rs[i].kind != MSG_FILE_META
        ensures var after := AfterFrames(rs, k);
                after.position == DataLength(rs[m + 1..]) && after.name == rs[m].fields.fileName && after.size == rs[m].fields.fileSize
      {
        if m > 0 {
          assert rest[m - 1] == rs[m] && rest[m - 1 + 1..] == rs[m + 1..];
        }
      }
    }
  }

  lemma {:induction false} NamesStay(rs: seq<Received>, k: Sink)
    requires forall i :: 0 <= i < |rs| ==> rs[i].kind != MSG_FILE_META
    ensures AfterFrames(rs, k).name == k.name && AfterFrames(rs, k).size == k.size
    decreases |rs|
  {
    if rs != [] {
      NamesStay(rs[1..], AfterFrame(rs[0], k));
    }
  }

  /** The first frame that ends the download decides how it ends: a done frame well, an acknowledgement or an
      error badly. Nothing after it counts, and what was received before it stays. */
  lemma {:induction false} ReceiveStops(rs: seq<Received>, k: Sink, n: nat)
    requires k.status == Receiving && n < |rs| && EndsDownload(rs[n]) && forall i :: 0 <= i < n ==> !EndsDownload(rs[i])
    ensures AfterFrames(rs, k) == AfterFrames(rs[..n], k).(status := if rs[n].kind == MSG_FILE_DONE then Finished else Failed)
    decreases n
  {
    if n > 0 {
      assert rs[..n][1..] == rs[1..][..n - 1] && rs[..n][0] == rs[0];
      ReceiveStops(rs[1..], AfterFrame(rs[0], k), n - 1);
    }
  }

  /** Frames of any other kind make no difference. */
  lemma {:induction false} OtherFramesAreSkipped(rs: seq<Received>, k: Sink, i: nat)
    requires i < |rs| && rs[i].kind !in {MSG_FILE_META, MSG_FILE_CHUNK, MSG_FILE_DONE, MSG_ACK, MSG_ERROR}
    ensures AfterFrames(rs, k) == AfterFrames(rs[..i] + rs[i + 1..], k)
    decreases i
  {
    var others := rs[..i] + rs[i + 1..];
    if k.status == Receiving {
      if i == 0 {
        assert others == rs[1..];
      } else {
        assert others[0] == rs[0] && others[1..] == rs[1..][..i - 1] + rs[1..][i..];
        OtherFramesAreSkipped(rs[1..], AfterFrame(rs[0], k), i - 1);
      }
    }
  }

  // ---- What arrives where -----------------------------------------------------------------------------

  /** Names without NULs and within their limits, and reads whose chunk frames stay within 1 MiB. */
  predicate ChunksFit(sid: GoString, token: GoString, chunks: seq<seq<byte>>) {
    && NulFree(sid) && NulFree(token) && |sid| <= MAX_SESSION && |token| <= 255
    && forall i :: 0 <= i < |chunks| ==> |chunks[i]| > 0 && 10 + |sid| + |token| + |chunks[i]| <= MAX_PAYLOAD
  }

  lemma FittingMessagesAreIntact(sid: GoString, token: GoString, chunks: seq<seq<byte>>, offset: u32)
    requires ChunksFit(sid, token, chunks)
    ensures Intact(FileDone(sid, token))
    ensures chunks != [] ==> Intact(FileChunk(sid, token, offset, chunks[0])) && ChunksFit(sid, token, chunks[1..])
  {
    CStrFixedPoint(sid);
    CStrFixedPoint(token);
  }

  lemma IntactFrame(m: Message, k: Sink)
    requires Intact(m)
    ensures var after := AfterFrame(Parse(Kind(m), Payload(m)), k);
            && (m.FileMeta? ==> after == k.(position := 0, name := m.name, size := m.size))
            && (m.FileChunk? ==> after == AfterData(k, m.data))
            && (m.FileDone? ==> after == k.(status := Finished))
  {
    IntactFields(m);
  }

  lemma ParseAllFirst(m: Message, ms: seq<Message>)
    ensures ParseAll(FramesOf([m] + ms)) == [Parse(Kind(m), Payload(m))] + ParseAll(FramesOf(ms))
  {
    assert ([m] + ms)[1..] == ms;
    assert FramesOf([m] + ms)[1..] == FramesOf(ms);
  }

  lemma AfterFirstFrame(m: Message, ms: seq<Message>, k: Sink)
    requires k.status == Receiving
    ensures AfterFrames(ParseAll(FramesOf([m] + ms)), k) ==
            AfterFrames(ParseAll(FramesOf(ms)), AfterFrame(Parse(Kind(m), Payload(m)), k))
  {
    ParseAllFirst(m, ms);
    var rs := ParseAll(FramesOf([m] + ms));
    assert rs[1..] == ParseAll(FramesOf(ms));
  }

  /** The chunks and the done frame, received after `got` has been written from the start. */
  lemma {:induction false} ChunksArrive(sid: GoString, token: GoString, chunks: seq<seq<byte>>, offset: u32,
                                        was: seq<byte>, got: seq<byte>, k: Sink)
    requires ChunksFit(sid, token, chunks)
    requires k.status == Receiving && k.position == |got| && k.file == WriteAt(was, 0, got)
    ensures var all := ChunkMessages(sid, token, chunks, offset) + [FileDone(sid, token)];
            AfterFrames(ParseAll(FramesOf(all)), k) ==
            k.(file := WriteAt(was, 0, got + Concat(chunks)), position := |got| + |Concat(chunks)|,
               offset := k.offset + |Concat(chunks)|, status := Finished)
    decreases |chunks|
  {
    FittingMessagesAreIntact(sid, token, chunks, offset);
    if chunks == [] {
      ChunksFinish(sid, token, k);
      assert got + [] == got;
      assert [] + [FileDone(sid, token)] == [FileDone(sid, token)];
    } else {
      var m, next := FileChunk(sid, token, offset, chunks[0]), (offset + |chunks[0]|) % TWO_TO_THE_32;
      ChunksFirst(sid, token, chunks, offset);
      AfterFirstFrame(m, ChunkMessages(sid, token, chunks[1..], next) + [FileDone(sid, token)], k);
      IntactFrame(m, k);
      ContinuedWrite(was, got, chunks[0]);
      ChunksArrive(sid, token, chunks[1..], next, was, got + chunks[0], AfterData(k, chunks[0]));
      Associative(got, chunks[0], Concat(chunks[1..]));
    }
  }

  lemma ChunksFirst(sid: GoString, token: GoString, chunks: seq<seq<byte>>, offset: u32)
    requires chunks != []
    ensures var next := (offset + |chunks[0]|) % TWO_TO_THE_32;
            ChunkMessages(sid, token, chunks, offset) + [FileDone(sid, token)] ==
            [FileChunk(sid, token, offset, chunks[0])] + (ChunkMessages(sid, token, chunks[1..], next) + [FileDone(sid, token)])
  {
  }

  lemma ChunksFinish(sid: GoString, token: GoString, k: Sink)
    requires Intact(FileDone(sid, token)) && k.status == Receiving
    ensures AfterFrames(ParseAll(FramesOf([FileDone(sid, token)])), k) == k.(status := Finished)
  {
    var m := FileDone(sid, token);
    assert [m] + [] == [m];
    AfterFirstFrame(m, [], k);
    IntactFrame(m, k);
  }

  /** Download placement: whatever the reads, the file size and the request's offset, once the
      stream has been received the destination holds the bytes from the offset on, laid over the
      old destination from its start, and the recorded offset has grown by as many bytes. */
  lemma DownloadPlacement(content: seq<byte>, start: u32, chunks: seq<seq<byte>>, sid: GoString, token: GoString,
                          name: GoString, size: u64, destination: seq<byte>, offset: nat)
    requires Concat(chunks) == ContentFrom(content, start)
    requires ChunksFit(sid, token, chunks)
    requires NulFree(name) && 1 <= |name| <= MAX_FILENAME
    ensures var sent := ContentFrom(content, start);
            var stream := StreamOf(DownloadMessages(sid, token, name, size, start, chunks));
            var k := AfterFrames(Frames(stream), Sink(destination, 0, offset, [], 0, Receiving));
            && k.status == Finished && k.name == name && k.offset == offset + |sent|
            && k.file == sent + if |sent| < |destination| then destination[|sent|..] else []
  {
    var sent, meta := ContentFrom(content, start), FileMeta(name, size);
    var body := ChunkMessages(sid, token, chunks, start) + [FileDone(sid, token)];
    var k := Sink(destination, 0, offset, [], 0, Receiving);
    assert DownloadMessages(sid, token, name, size, start, chunks) == [meta] + body;
    CStrFixedPoint(name);
    DownloadSendable(sid, token, start, chunks);
    DownloadFrames(meta, body);
    AfterFirstFrame(meta, body, k);
    IntactFrame(meta, k);
    var placed := k.(name := name, size := size);
    assert WriteAt(destination, 0, []) == destination;
    ChunksArrive(sid, token, chunks, start, destination, [], placed);
    assert [] + Concat(chunks) == sent;
    WriteFromStart(destination, sent);
  }

  lemma DownloadFrames(meta: Message, body: seq<Message>)
    requires Sendable(meta) && AllSendable(body)
    ensures Frames(StreamOf([meta] + body)) == ParseAll(FramesOf([meta] + body))
  {
    var ms := [meta] + body;
    assert ms[1..] == body;
    AllSendableMeans(ms);
    FramesOfFit(ms);
    SelfDelimiting(FramesOf(ms), []);
    assert StreamOf(ms) + [] == StreamOf(ms);
    assert ParseAll(FramesOf(ms)) + Frames([]) == ParseAll(FramesOf(ms));
  }

  lemma {:induction false} DownloadSendable(sid: GoString, token: GoString, offset: u32, chunks: seq<seq<byte>>)
    requires ChunksFit(sid, token, chunks)
    ensures AllSendable(ChunkMessages(sid, token, chunks, offset) + [FileDone(sid, token)])
    decreases |chunks|
  {
    FittingMessagesAreIntact(sid, token, chunks, offset);
    if chunks == [] {
      AllSendableOne(FileDone(sid, token));
      assert [] + [FileDone(sid, token)] == [FileDone(sid, token)];
    } else {
      var next := (offset + |chunks[0]|) % TWO_TO_THE_32;
      DownloadSendable(sid, token, next, chunks[1..]);
      ChunksFirst(sid, token, chunks, offset);
      var m, rest := FileChunk(sid, token, offset, chunks[0]), ChunkMessages(sid, token, chunks[1..], next) + [FileDone(sid, token)];
      assert ([m] + rest)[1..] == rest;
    }
  }

  /** Exactly when a download into a new file reproduces the stored file: the request's offset is 0,
      or there is nothing to reproduce. A resumed download puts its part at the start. */
  lemma DownloadReproducesExactly(content: seq<byte>, start: u32, chunks: seq<seq<byte>>, sid: GoString, token: GoString,
                                  name: GoString, size: u64)
    requires Concat(chunks) == ContentFrom(content, start)
    requires ChunksFit(sid, token, chunks)
    requires NulFree(name) && 1 <= |name| <= MAX_FILENAME
    ensures var stream := StreamOf(DownloadMessages(sid, token, name, size, start, chunks));
            AfterFrames(Frames(stream), Sink([], 0, 0, [], 0, Receiving)).file == content <==> start == 0 || content == []
  {
    DownloadPlacement(content, start, chunks, sid, token, name, size, [], 0);
    var sent := ContentFrom(content, start);
    assert sent + [] == sent;
    assert content[0..] == content;
  }
}
