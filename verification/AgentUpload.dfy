/** The agent's upload loop: login, file meta, chunks with one retry each, done. */
module AgentUpload {
  import opened Bytes
  import opened Wire
  import opened Stream
  import opened FileContent
  import opened Chunking

  function ChunkMessages(sid: GoString, token: GoString, chunks: seq<seq<byte>>, offset: u32): seq<Message> {
    if chunks == [] then [] else
    [FileChunk(sid, token, offset, chunks[0])]
    + ChunkMessages(sid, token, chunks[1..], (offset + |chunks[0]|) % TWO_TO_THE_32)
  }

  /** The messages of a clean upload after the optional login. */
  function TransferMessages(sid: GoString, token: GoString, name: GoString, size: u64, chunks: seq<seq<byte>>): seq<Message> {
    [FileMeta(name, size)] + ChunkMessages(sid, token, chunks, 0) + [FileDone(sid, token)]
  }

  lemma StreamGrows(start: seq<byte>, sent: seq<Message>, m: Message)
    ensures start + StreamOf(sent) + MessageFrame(m) == start + StreamOf(sent + [m])
  {
    StreamOfAppend(sent, m);
  }

  /** One send call; `clean` tells whether a failure left the stream as it was. */
  method Attempt(socket: Socket, m: Message, ghost start: seq<byte>, ghost sent: seq<Message>)
    returns (ok: bool, ghost clean: bool)
    modifies socket`outgoing, socket`sendPlan
    ensures ok ==> Sendable(m)
    ensures old(socket.outgoing) == start + StreamOf(sent) ==>
              && (ok ==> socket.outgoing == start + StreamOf(sent + [m]))
              && (!ok && clean ==> socket.outgoing == start + StreamOf(sent))
    ensures clean <==> ok || socket.outgoing == old(socket.outgoing)
    ensures SmoothSends(old(socket.sendPlan)) ==> SmoothSends(socket.sendPlan) && clean && (ok <==> Sendable(m))
    ensures Failures(old(socket.sendPlan)) == Failures(socket.sendPlan) + if ok || !Sendable(m) then 0 else 1
  {
    ok := socket.SendMessage(m);
    clean := ok || socket.outgoing == old(socket.outgoing);
    StreamGrows(start, sent, m);
  }

  /** The chunk loop: every read that delivers something goes out under the running offset and is tried
      at most twice, so that one failing send does not end it. */
  method SendChunks(socket: Socket, sid: GoString, token: GoString, pieces: seq<seq<byte>>,
                    ghost start: seq<byte>, ghost before: seq<Message>)
    returns (ok: bool, ghost clean: bool)
    modifies socket`outgoing, socket`sendPlan
    ensures ok && clean && old(socket.outgoing) == start + StreamOf(before) ==>
              socket.outgoing == start + StreamOf(before + ChunkMessages(sid, token, Filled(pieces), 0))
    ensures SmoothSends(old(socket.sendPlan)) ==>
              clean && SmoothSends(socket.sendPlan) && (ok <==> AllSendable(ChunkMessages(sid, token, Filled(pieces), 0)))
    ensures AllSendable(ChunkMessages(sid, token, Filled(pieces), 0)) && Failures(old(socket.sendPlan)) <= 1 ==> ok
  {
    ok, clean := true, true;
    var offset: u32 := 0;
    var i := 0;
    ghost var sent, rest := before, ChunkMessages(sid, token, Filled(pieces), 0);
    assert pieces[0..] == pieces;
    while i < |pieces|
      invariant ok && Halfway(sid, token, pieces, 0, before, i, offset, sent, rest)
      invariant clean && old(socket.outgoing) == start + StreamOf(before) ==> socket.outgoing == start + StreamOf(sent)
      invariant SmoothSends(old(socket.sendPlan)) ==> clean && SmoothSends(socket.sendPlan)
      invariant AllSendable(rest) ==> Failures(socket.sendPlan) <= Failures(old(socket.sendPlan))
    {
      NextPiece(sid, token, pieces, 0, before, i, offset, sent, rest);
      if |pieces[i]| > 0 {
        var m := FileChunk(sid, token, offset, pieces[i]);
        ghost var tried: bool;
        ok, tried := TryTwice(socket, m, start, sent);
        clean := clean && tried;
        if !ok {
          return;
        }
        offset := (offset + |pieces[i]|) % TWO_TO_THE_32;
        sent, rest := sent + [m], rest[1..];
      }
      i := i + 1;
    }
    assert sent + [] == sent;
  }

  /** After `i` reads the loop has sent `sent` and has `rest` to send. */
  ghost predicate Halfway(sid: GoString, token: GoString, pieces: seq<seq<byte>>, start: u32, before: seq<Message>,
                          i: nat, offset: u32, sent: seq<Message>, rest: seq<Message>) {
    && i <= |pieces| && rest == ChunkMessages(sid, token, Filled(pieces[i..]), offset)
    && before + ChunkMessages(sid, token, Filled(pieces), start) == sent + rest
    && (AllSendable(ChunkMessages(sid, token, Filled(pieces), start)) <==> AllSendable(rest))
  }

  lemma NextPiece(sid: GoString, token: GoString, pieces: seq<seq<byte>>, start: u32, before: seq<Message>,
                  i: nat, offset: u32, sent: seq<Message>, rest: seq<Message>)
    requires Halfway(sid, token, pieces, start, before, i, offset, sent, rest) && i < |pieces|
    ensures pieces[i] == [] ==> Halfway(sid, token, pieces, start, before, i + 1, offset, sent, rest)
    ensures var m, next := FileChunk(sid, token, offset, pieces[i]), (offset + |pieces[i]|) % TWO_TO_THE_32;
            pieces[i] != [] ==>
              && rest != [] && rest[0] == m && (AllSendable(rest) ==> Sendable(m))
              && (Sendable(m) ==> Halfway(sid, token, pieces, start, before, i + 1, next, sent + [m], rest[1..]))
  {
    FilledMessages(sid, token, pieces, i, offset);
    if pieces[i] != [] {
      MoveHead(sent, rest[0], rest);
    }
  }

  /** The send of a chunk and its one retry. */
  method TryTwice(socket: Socket, m: Message, ghost start: seq<byte>, ghost sent: seq<Message>)
    returns (ok: bool, ghost clean: bool)
    modifies socket`outgoing, socket`sendPlan
    ensures ok ==> Sendable(m)
    ensures clean && ok && old(socket.outgoing) == start + StreamOf(sent) ==> socket.outgoing == start + StreamOf(sent + [m])
    ensures SmoothSends(old(socket.sendPlan)) ==> SmoothSends(socket.sendPlan) && clean && (ok <==> Sendable(m))
    ensures Sendable(m) ==> Failures(socket.sendPlan) <= Failures(old(socket.sendPlan))
    ensures Sendable(m) && Failures(old(socket.sendPlan)) <= 1 ==> ok
  {
    ok, clean := Attempt(socket, m, start, sent);
    if !ok {
      ghost var tried: bool;
      ok, tried := Attempt(socket, m, start, sent);
      clean := clean && tried;
    }
  }

  lemma FilledMessages(sid: GoString, token: GoString, pieces: seq<seq<byte>>, i: nat, offset: u32)
    requires i < |pieces|
    ensures var rest, next := ChunkMessages(sid, token, Filled(pieces[i..]), offset), Filled(pieces[i + 1..]);
            if pieces[i] == [] then rest == ChunkMessages(sid, token, next, offset) else
            && rest != [] && rest[0] == FileChunk(sid, token, offset, pieces[i])
            && rest[1..] == ChunkMessages(sid, token, next, (offset + |pieces[i]|) % TWO_TO_THE_32)
  {
    FilledNext(pieces, i);
    if pieces[i] == [] {
      assert [] + Filled(pieces[i + 1..]) == Filled(pieces[i + 1..]);
    } else {
      assert ([pieces[i]] + Filled(pieces[i + 1..]))[1..] == Filled(pieces[i + 1..]);
    }
  }

  lemma MoveHead(sent: seq<Message>, m: Message, rest: seq<Message>)
    requires rest != [] && rest[0] == m
    ensures sent + rest == sent + [m] + rest[1..]
  {
  }

  function LoginPart(loggedIn: bool, device: GoString, token: GoString): seq<Message> {
    if loggedIn then [Login(device, token)] else []
  }

  /** Login, if there is a device and a token, and file meta. A failed login is only logged: the
      upload goes on without it. */
  method SendHead(socket: Socket, device: GoString, token: GoString, meta: Message)
    returns (ok: bool, loggedIn: bool, ghost clean: bool)
    modifies socket`outgoing, socket`sendPlan
    ensures ok ==> Sendable(meta)
    ensures ok && clean ==>
              socket.outgoing == old(socket.outgoing) + StreamOf(LoginPart(loggedIn, device, token) + [meta])
    ensures SmoothSends(old(socket.sendPlan)) ==> clean && SmoothSends(socket.sendPlan) && (ok <==> Sendable(meta))
    ensures loggedIn ==> Sendable(Login(device, token))
    ensures SmoothSends(old(socket.sendPlan)) ==> (loggedIn <==> Sendable(Login(device, token)))
    ensures Failures(old(socket.sendPlan)) == Failures(socket.sendPlan)
              + (if Sendable(Login(device, token)) && !loggedIn then 1 else 0) + (if Sendable(meta) && !ok then 1 else 0)
  {
    ghost var start := socket.outgoing;
    assert start + StreamOf([]) == start;
    clean, loggedIn := true, false;
    if device != [] && token != [] {
      loggedIn, clean := Attempt(socket, Login(device, token), start, []);
      assert [] + [Login(device, token)] == [Login(device, token)];
    }
    ghost var tried: bool;
    ok, tried := Attempt(socket, meta, start, LoginPart(loggedIn, device, token));
    clean := clean && tried;
  }

  /** `UploadFile` from the open transfer socket on, with the reads the file delivers. If no failed
      attempt left part of a frame behind, success means that exactly the upload's messages went
      out; with refused or empty sends excluded, that is always so. */
  method UploadFile(socket: Socket, device: GoString, sid: GoString, token: GoString,
                    name: GoString, size: u64, pieces: seq<seq<byte>>)
    returns (ok: bool, loggedIn: bool, ghost clean: bool)
    modifies socket`outgoing, socket`sendPlan
    ensures ok && clean ==>
              socket.outgoing == old(socket.outgoing)
                + StreamOf(LoginPart(loggedIn, device, token) + TransferMessages(sid, token, name, size, Filled(pieces)))
    ensures SmoothSends(old(socket.sendPlan)) ==>
              clean && (ok <==> AllSendable(TransferMessages(sid, token, name, size, Filled(pieces))))
    ensures SmoothSends(old(socket.sendPlan)) ==> (loggedIn <==> Sendable(Login(device, token)))
  {
    ghost var start := socket.outgoing;
    SendableParts(sid, token, name, size, Filled(pieces));
    ghost var tried: bool;
    ok, loggedIn, clean := SendHead(socket, device, token, FileMeta(name, size));
    if !ok {
      return;
    }
    ghost var head := LoginPart(loggedIn, device, token) + [FileMeta(name, size)];
    ok, tried := SendChunks(socket, sid, token, pieces, start, head);
    clean := clean && tried;
    if !ok {
      return;
    }
    ok, tried := Attempt(socket, FileDone(sid, token), start, head + ChunkMessages(sid, token, Filled(pieces), 0));
    clean := clean && tried;
    TransferShape(LoginPart(loggedIn, device, token), sid, token, name, size, Filled(pieces));
  }

  lemma TransferShape(login: seq<Message>, sid: GoString, token: GoString, name: GoString, size: u64, chunks: seq<seq<byte>>)
    ensures login + [FileMeta(name, size)] + ChunkMessages(sid, token, chunks, 0) + [FileDone(sid, token)] ==
            login + TransferMessages(sid, token, name, size, chunks)
  {
  }

  lemma {:induction false} AllSendableAppend(a: seq<Message>, b: seq<Message>)
    ensures AllSendable(a + b) <==> AllSendable(a) && AllSendable(b)
  {
    if a == [] {
      assert a + b == b;
    } else {
      AllSendableAppend(a[1..], b);
      assert (a + b)[1..] == a[1..] + b;
    }
  }

  lemma SendableParts(sid: GoString, token: GoString, name: GoString, size: u64, chunks: seq<seq<byte>>)
    ensures AllSendable(TransferMessages(sid, token, name, size, chunks)) <==>
            && Sendable(FileMeta(name, size))
            && AllSendable(ChunkMessages(sid, token, chunks, 0))
            && Sendable(FileDone(sid, token))
  {
    AllSendableAppend([FileMeta(name, size)] + ChunkMessages(sid, token, chunks, 0), [FileDone(sid, token)]);
    AllSendableAppend([FileMeta(name, size)], ChunkMessages(sid, token, chunks, 0));
    AllSendableOne(FileMeta(name, size));
    AllSendableOne(FileDone(sid, token));
  }

  lemma AllSendableOne(m: Message)
    ensures AllSendable([m]) <==> Sendable(m)
  {
    assert [m][1..] == [];
  }

  /** The writes that chunk messages ask for are the chunk writes of the file. */
  function WritesOf(ms: seq<Message>): seq<Write> {
    if ms == [] then []
    else (if ms[0].FileChunk? then [Write(ms[0].offset, ms[0].data)] else []) + WritesOf(ms[1..])
  }

  lemma {:induction false} WritesOfAppend(a: seq<Message>, b: seq<Message>)
    ensures WritesOf(a + b) == WritesOf(a) + WritesOf(b)
  {
    if a == [] {
      assert a + b == b;
    } else {
      WritesOfAppend(a[1..], b);
      assert (a + b)[1..] == a[1..] + b;
      var first := if a[0].FileChunk? then [Write(a[0].offset, a[0].data)] else [];
      assert first + (WritesOf(a[1..]) + WritesOf(b)) == first + WritesOf(a[1..]) + WritesOf(b);
    }
  }

  lemma {:induction false} WritesOfChunkMessages(sid: GoString, token: GoString, chunks: seq<seq<byte>>, offset: u32)
    ensures WritesOf(ChunkMessages(sid, token, chunks, offset)) == ChunkWrites(chunks, offset)
  {
    if chunks != [] {
      WritesOfChunkMessages(sid, token, chunks[1..], (offset + |chunks[0]|) % TWO_TO_THE_32);
      var ms := ChunkMessages(sid, token, chunks, offset);
      assert ms[1..] == ChunkMessages(sid, token, chunks[1..], (offset + |chunks[0]|) % TWO_TO_THE_32);
    }
  }
}
