/** From the agent's reads to the stored file: the whole upload over the wire and through the backend. */
module UploadEndToEnd {
  import opened Basics
  import opened Bytes
  import opened Wire
  import opened Stream
  import opened FileContent
  import opened Chunking
  import opened AgentUpload
  import opened BackupState
  import opened BackupSafety

  // ---- From frames to backend events ------------------------------------------------------------

  function Dots(s: Text): nat {
    if s == [] then 0 else (if s[0] == DOT then 1 else 0) + Dots(s[1..])
  }

  predicate LooksLikeJWT(token: Text) {
    Dots(token) >= 2
  }

  /** A token counts as a JWT exactly when it has two dots. */
  lemma {:induction false} LooksLikeJWTExactly(token: Text)
    ensures LooksLikeJWT(token) <==> exists i, j :: 0 <= i < j < |token| && token[i] == DOT && token[j] == DOT
  {
    if |token| > 0 {
      LooksLikeJWTExactly(token[1..]);
      OneDot(token[1..]);
      if i, j :| 0 <= i < j < |token[1..]| && token[1..][i] == DOT && token[1..][j] == DOT {
        assert token[i + 1] == DOT && token[j + 1] == DOT;
      }
      if token[0] == DOT && exists j :: 0 <= j < |token[1..]| && token[1..][j] == DOT {
        var j :| 0 <= j < |token[1..]| && token[1..][j] == DOT;
        assert token[0] == DOT && token[j + 1] == DOT;
      }
      if i, j :| 0 <= i < j < |token| && token[i] == DOT && token[j] == DOT {
        assert token[1..][j - 1] == DOT;
        if i > 0 { assert token[1..][i - 1] == DOT; }
      }
    }
  }

  lemma {:induction false} OneDot(s: Text)
    ensures Dots(s) >= 1 <==> exists j :: 0 <= j < |s| && s[j] == DOT
  {
    if s != [] {
      OneDot(s[1..]);
      if j :| 0 <= j < |s[1..]| && s[1..][j] == DOT {
        assert s[j + 1] == DOT;
      }
      if j :| 0 <= j < |s| && s[j] == DOT {
        if j > 0 { assert s[1..][j - 1] == DOT; }
      }
    }
  }

  /** The device the connection handler passes on with a frame: the one from the last login. */
  function EffectiveDevice(frameDevice: Text, last: Text): Text {
    if frameDevice == [] then last else frameDevice
  }

  /** What HandleMessage does with one frame; `verified` is the verdict on a JWT for this device. File
      writes succeed here; `Hampered` lets them fail. */
  function FrameEvent(kind: byte, f: Fields, data: Option<seq<byte>>, device: Text, verified: bool): Event {
    if kind == MSG_LOGIN then
      if device != [] && f.token != [] && (LooksLikeJWT(f.token) ==> verified) then Grant(device, f.token) else Ignored
    else if kind == MSG_FILE_CHUNK then Chunk(device, f.session, f.token, f.chunkOffset, f.chunkLen, data, None)
    else if kind == MSG_FILE_DONE then Done(device, f.session, f.token)
    else Ignored
  }

  function ConnectionEvents(rs: seq<Received>, last: Text, verified: bool): seq<Event> {
    if rs == [] then [] else
    var device := EffectiveDevice(rs[0].fields.device, last);
    [FrameEvent(rs[0].kind, rs[0].fields, ChunkData(rs[0]), device, verified)]
    + ConnectionEvents(rs[1..], device, verified)
  }

  function MessageDevice(m: Message, last: Text): Text {
    if m.Login? then m.device else last
  }

  function MessageEvent(m: Message, device: Text, verified: bool): Event {
    match m
    case Login(d, t) => if t != [] && (LooksLikeJWT(t) ==> verified) then Grant(d, t) else Ignored
    case FileChunk(s, t, offset, data) => Chunk(device, s, t, offset, |data|, Some(data), None)
    case FileDone(s, t) => Done(device, s, t)
    case _ => Ignored
  }

  /** The events the messages of one connection are meant to cause. */
  function MessageEvents(ms: seq<Message>, last: Text, verified: bool): seq<Event> {
    if ms == [] then [] else
    [MessageEvent(ms[0], MessageDevice(ms[0], last), verified)]
    + MessageEvents(ms[1..], MessageDevice(ms[0], last), verified)
  }

  lemma FirstMessageEvent(m: Message, ms: seq<Message>, last: Text, verified: bool)
    ensures var device := MessageDevice(m, last);
            MessageEvents([m] + ms, last, verified) == [MessageEvent(m, device, verified)] + MessageEvents(ms, device, verified)
  {
    assert ([m] + ms)[1..] == ms;
  }

  predicate AllIntact(ms: seq<Message>) {
    forall m :: m in ms ==> Intact(m)
  }

  lemma IntactMessageArrives(m: Message, last: Text, verified: bool)
    requires Intact(m)
    ensures var r := Parse(Kind(m), Payload(m));
            && EffectiveDevice(r.fields.device, last) == MessageDevice(m, last)
            && FrameEvent(r.kind, r.fields, ChunkData(r), MessageDevice(m, last), verified)
               == MessageEvent(m, MessageDevice(m, last), verified)
  {
    IntactFields(m);
  }

  /** The backend sees intact messages as the events their sender meant. */
  lemma {:induction false} IntactMessagesArrive(ms: seq<Message>, last: Text, verified: bool)
    requires AllIntact(ms)
    ensures ConnectionEvents(ParseAll(FramesOf(ms)), last, verified) == MessageEvents(ms, last, verified)
  {
    if ms != [] {
      IntactMessageArrives(ms[0], last, verified);
      IntactMessagesArrive(ms[1..], MessageDevice(ms[0], last), verified);
      FirstFrame(ms);
    }
  }

  lemma FirstFrame(ms: seq<Message>)
    requires ms != []
    ensures var rs := ParseAll(FramesOf(ms));
            rs != [] && rs[0] == Parse(Kind(ms[0]), Payload(ms[0])) && rs[1..] == ParseAll(FramesOf(ms[1..]))
  {
    assert FramesOf(ms)[1..] == FramesOf(ms[1..]);
  }

  lemma StreamEvents(ms: seq<Message>, verified: bool)
    requires AllIntact(ms)
    ensures ConnectionEvents(Frames(StreamOf(ms)), [], verified) == MessageEvents(ms, [], verified)
  {
    FramesOfFit(ms);
    SelfDelimiting(FramesOf(ms), []);
    assert StreamOf(ms) + [] == StreamOf(ms);
    assert ParseAll(FramesOf(ms)) + Frames([]) == ParseAll(FramesOf(ms));
    IntactMessagesArrive(ms, [], verified);
  }

  // ---- One upload among other traffic ------------------------------------------------------------

  datatype Transfer = Transfer(device: Text, sid: Text, token: Text, session: Session)

  /** An event of a run, marked with whether it comes from the upload's own connection. */
  datatype Tagged = Own(event: Event) | Other(event: Event)

  function EventsOf(run: seq<Tagged>): seq<Event> {
    if run == [] then [] else [run[0].event] + EventsOf(run[1..])
  }

  function OwnEvents(run: seq<Tagged>): seq<Event> {
    if run == [] then [] else (if run[0].Own? then [run[0].event] else []) + OwnEvents(run[1..])
  }

  /** No other active upload has a file name of this one. */
  ghost predicate Alone(s: State, sid: Text, session: Session) {
    forall other :: other in s.active && other != sid ==> IsUpload(s, other) && Footprint(s.sessions[other]) !! Footprint(session)
  }

  /** The upload's session is open and its temp file holds `content`; whether the device is authorised
      at the moment is left open. */
  ghost predicate Open(s: State, u: Transfer, content: seq<byte>) {
    && Alone(s, u.sid, u.session)
    && u.session.temp == WithSuffix(u.session.final, PART)
    && u.device != [] && u.sid != [] && u.token != []
    && u.sid in s.active && s.active[u.sid] == u.token
    && u.sid in s.sessions && u.session.token == u.token && u.session.direction == Upload
    && SameUpload(s.sessions[u.sid], u.session)
    && u.session.temp in s.files && s.files[u.session.temp] == content
  }

  lemma OpenAccepts(s: State, u: Transfer, content: seq<byte>)
    requires Open(s, u, content)
    ensures Accepts(s, u.device, u.sid, u.token) <==> Authorized(s, u.device)
  {
  }

  /** Other traffic, logins and disconnects of any device included, that does not use the upload's
      session id with its token and starts no upload with an old id or with a file name of this one. */
  predicate Quiet(s: State, u: Transfer, e: Event) {
    NewIds(s, e) && (InitAccepted(s, e) ==> NewFootprint(s, e) !! Footprint(u.session))
    && ((e.Chunk? || e.Done?) ==> !(e.sid == u.sid && e.token == u.token))
  }

  predicate QuietRun(s: State, u: Transfer, run: seq<Tagged>)
    decreases |run|
  {
    run == [] || ((run[0].Other? ==> Quiet(s, u, run[0].event)) && QuietRun(Step(s, run[0].event), u, run[1..]))
  }

  /** What the upload's own connection sends before the done frame. */
  predicate OwnTraffic(u: Transfer, e: Event) {
    || e == Ignored
    || (e.Grant? && e.device == u.device && e.token != [])
    || (e.Chunk? && e.device == u.device && e.sid == u.sid && e.token == u.token
        && e.offset < TWO_TO_THE_32 && e.data.Some? && e.data.value != [] && e.chunkLen == |e.data.value|)
  }

  function EventWrites(es: seq<Event>): seq<Write> {
    if es == [] then [] else
    (if es[0].Chunk? && es[0].offset < TWO_TO_THE_32 && es[0].data.Some? 
     then [Write(es[0].offset, Landed(es[0].data.value, es[0].failed))] else [])
    + EventWrites(es[1..])
  }

  /** The writes of the own chunks that find the device authorised. */
  function Delivered(s: State, u: Transfer, run: seq<Tagged>): seq<Write>
    decreases |run|
  {
    if run == [] then [] else
    (if run[0].Own? && Authorized(s, u.device) then EventWrites([run[0].event]) else [])
    + Delivered(Step(s, run[0].event), u, run[1..])
  }

  lemma OtherStep(s: State, u: Transfer, content: seq<byte>, e: Event)
    requires Open(s, u, content) && Quiet(s, u, e)
    ensures Open(Step(s, e), u, content)
  {
    StepKeepsSession(s, e, u.sid);
    OtherStepStaysAlone(s, u, content, e);
    StepLeavesOtherFiles(s, e, u.session.temp);
  }

  lemma OtherStepStaysAlone(s: State, u: Transfer, content: seq<byte>, e: Event)
    requires Open(s, u, content) && Quiet(s, u, e)
    ensures Alone(Step(s, e), u.sid, u.session)
  {
    var next := Step(s, e);
    forall other | other in next.active && other != u.sid
      ensures IsUpload(next, other) && Footprint(next.sessions[other]) !! Footprint(u.session)
    {
      if other in s.active {
        StepKeepsSession(s, e, other);
      }
    }
  }

  lemma OneEventWrites(e: Event)
    ensures EventWrites([e]) ==
            if e.Chunk? && e.offset < TWO_TO_THE_32 && e.data.Some? then [Write(e.offset, Landed(e.data.value, e.failed))] else []
  {
    assert [e][1..] == [];
    assert EventWrites([]) == [];
  }

  /** The temp file after one event of the own connection. */
  function AfterOwn(s: State, u: Transfer, content: seq<byte>, e: Event): seq<byte>
    requires OwnTraffic(u, e)
  {
    if e.Chunk? && Authorized(s, u.device) then WriteAt(content, e.offset, Landed(e.data.value, e.failed)) else content
  }

  lemma OwnStep(s: State, u: Transfer, content: seq<byte>, e: Event)
    requires Open(s, u, content) && OwnTraffic(u, e)
    ensures Open(Step(s, e), u, AfterOwn(s, u, content, e))
  {
    OpenAccepts(s, u, content);
    StepKeepsSession(s, e, u.sid);
  }

  lemma OwnStepDelivers(s: State, u: Transfer, content: seq<byte>, run: seq<Tagged>)
    requires run != [] && run[0].Own? && OwnTraffic(u, run[0].event)
    ensures var e, rest := run[0].event, Delivered(Step(s, run[0].event), u, run[1..]);
            var now := AfterOwn(s, u, content, e);
            ApplyWrites(content, Delivered(s, u, run)) == ApplyWrites(now, rest)
  {
    var e, rest := run[0].event, Delivered(Step(s, run[0].event), u, run[1..]);
    OneEventWrites(e);
    if e.Chunk? && Authorized(s, u.device) {
      FirstWrite(content, Write(e.offset, Landed(e.data.value, e.failed)), rest);
    } else {
      assert [] + rest == rest;
    }
  }

  /** However other traffic is interleaved, disconnects of the device included, the temp file holds the
      own writes that found the device authorised, in their order. */
  lemma {:induction false} InterleavedRun(s: State, u: Transfer, content: seq<byte>, run: seq<Tagged>)
    requires Open(s, u, content) && QuietRun(s, u, run)
    requires AllOwnTraffic(u, OwnEvents(run))
    ensures Open(Run(s, EventsOf(run)), u, ApplyWrites(content, Delivered(s, u, run)))
    decreases |run|
  {
    if run != [] {
      var e, rest := run[0].event, OwnEvents(run[1..]);
      var own := OwnEvents(run);
      assert EventsOf(run)[1..] == EventsOf(run[1..]);
      if run[0].Own? {
        assert own[0] == e && own[1..] == rest;
        OwnStep(s, u, content, e);
        OwnStepDelivers(s, u, content, run);
        InterleavedRun(Step(s, e), u, AfterOwn(s, u, content, e),
                       run[1..]);
      } else {
        assert own == rest;
        OtherStep(s, u, content, e);
        assert [] + Delivered(Step(s, e), u, run[1..]) == Delivered(Step(s, e), u, run[1..]);
        InterleavedRun(Step(s, e), u, content, run[1..]);
      }
    }
  }

  /** The lengths of the own chunks that found the device authorised and were written. */
  function WrittenLength(s: State, u: Transfer, run: seq<Tagged>): nat
    decreases |run|
  {
    if run == [] then 0 else
    (if run[0].Own? && run[0].event.Chunk? && run[0].event.failed.None? && Authorized(s, u.device) then run[0].event.chunkLen else 0)
    + WrittenLength(Step(s, run[0].event), u, run[1..])
  }

  lemma OwnStepAdvances(s: State, u: Transfer, content: seq<byte>, e: Event)
    requires Open(s, u, content) && OwnTraffic(u, e)
    ensures u.sid in Step(s, e).sessions
    ensures Step(s, e).sessions[u.sid].bytesDone == s.sessions[u.sid].bytesDone
            + if e.Chunk? && e.failed.None? && Authorized(s, u.device) then e.chunkLen else 0
  {
    OpenAccepts(s, u, content);
  }

  lemma OtherStepAdvancesNot(s: State, u: Transfer, content: seq<byte>, e: Event)
    requires Open(s, u, content) && Quiet(s, u, e)
    ensures u.sid in Step(s, e).sessions && Step(s, e).sessions[u.sid].bytesDone == s.sessions[u.sid].bytesDone
  {
  }

  /** The session's byte count grows by exactly the own chunks that were written, whatever else happens. */
  lemma {:induction false} InterleavedProgress(s: State, u: Transfer, content: seq<byte>, run: seq<Tagged>)
    requires Open(s, u, content) && QuietRun(s, u, run)
    requires AllOwnTraffic(u, OwnEvents(run))
    ensures var after := Run(s, EventsOf(run));
            u.sid in after.sessions && after.sessions[u.sid].bytesDone == s.sessions[u.sid].bytesDone + WrittenLength(s, u, run)
    decreases |run|
  {
    if run != [] {
      var e, own := run[0].event, OwnEvents(run);
      assert EventsOf(run)[1..] == EventsOf(run[1..]);
      if run[0].Own? {
        assert own[0] == e && own[1..] == OwnEvents(run[1..]);
        OwnStep(s, u, content, e);
        OwnStepAdvances(s, u, content, e);
        InterleavedProgress(Step(s, e), u, AfterOwn(s, u, content, e), run[1..]);
      } else {
        assert own == OwnEvents(run[1..]);
        OtherStep(s, u, content, e);
        OtherStepAdvancesNot(s, u, content, e);
        InterleavedProgress(Step(s, e), u, content, run[1..]);
      }
    }
  }

  // ---- Disconnects -------------------------------------------------------------------------------------

  /** The upload's own login, as the backend accepts it. */
  function OwnLogin(u: Transfer): Tagged {
    Own(Grant(u.device, u.token))
  }

  /** After the own login no connection of the device closes; before it any may. */
  predicate StaysConnected(u: Transfer, run: seq<Tagged>, loggedIn: bool)
    decreases |run|
  {
    run == [] || (
      && (loggedIn && run[0].Other? ==> run[0].event != Disconnect(u.device) && run[0].event != Grant(u.device, []))
      && StaysConnected(u, run[1..], loggedIn || run[0] == OwnLogin(u)))
  }

  lemma StaysAuthorized(s: State, u: Transfer, t: Tagged)
    requires Authorized(s, u.device)
    requires if t.Own? then OwnTraffic(u, t.event) else t.event != Disconnect(u.device) && t.event != Grant(u.device, [])
    ensures Authorized(Step(s, t.event), u.device)
  {
  }

  lemma {:induction false} ConnectedDeliversAll(s: State, u: Transfer, run: seq<Tagged>, loggedIn: bool)
    requires StaysConnected(u, run, loggedIn) && u.device != [] && u.token != []
    requires AllOwnTraffic(u, OwnEvents(run))
    requires if loggedIn then Authorized(s, u.device) else OwnEvents(run) != [] && OwnEvents(run)[0] == Grant(u.device, u.token)
    ensures Delivered(s, u, run) == EventWrites(OwnEvents(run))
    ensures Authorized(Run(s, EventsOf(run)), u.device)
    decreases |run|
  {
    if run != [] {
      var e, own, rest := run[0].event, OwnEvents(run), OwnEvents(run[1..]);
      var now := loggedIn || run[0] == OwnLogin(u);
      assert EventsOf(run)[1..] == EventsOf(run[1..]);
      OneEventWrites(e);
      if run[0].Own? {
        assert own[0] == e && own[1..] == rest;
        assert EventWrites(own) == EventWrites([e]) + EventWrites(rest);
      } else {
        assert own == rest;
        assert [] + Delivered(Step(s, e), u, run[1..]) == Delivered(Step(s, e), u, run[1..]);
      }
      if loggedIn {
        StaysAuthorized(s, u, run[0]);
      }
      ConnectedDeliversAll(Step(s, e), u, run[1..], now);
    }
  }

  /** After a disconnect of the device, its chunks and done frames do nothing until the next login. */
  lemma {:induction false} DisconnectDropsFrames(s: State, u: Transfer, es: seq<Event>)
    requires forall i :: 0 <= i < |es| ==> (es[i].Chunk? || es[i].Done?) && es[i].device == u.device
    ensures Run(Step(s, Disconnect(u.device)), es) == Step(s, Disconnect(u.device))
    decreases |es|
  {
    if es != [] {
      var t := Step(s, Disconnect(u.device));
      assert !Authorized(t, u.device);
      assert Step(t, es[0]) == t;
      DisconnectDropsFrames(s, u, es[1..]);
    }
  }

  lemma {:induction false} DeliveredIsOwn(s: State, u: Transfer, run: seq<Tagged>, w: Write)
    requires w in Delivered(s, u, run)
    ensures w in EventWrites(OwnEvents(run))
    decreases |run|
  {
    var e, own, rest := run[0].event, OwnEvents(run), OwnEvents(run[1..]);
    OneEventWrites(e);
    if run[0].Own? {
      assert own[0] == e && own[1..] == rest;
      assert EventWrites(own) == EventWrites([e]) + EventWrites(rest);
    } else {
      assert own == rest;
    }
    if w in Delivered(Step(s, e), u, run[1..]) {
      DeliveredIsOwn(Step(s, e), u, run[1..], w);
    }
  }

  // ---- Beginning and end ----------------------------------------------------------------------------

  /** What the temp file of a request holds before it: nothing, unless an upload was broken off there. */
  function TempBefore(s: State, e: Event): seq<byte>
    requires e.InitUpload?
  {
    var temp := TransferOf(s, e).session.temp;
    if temp in s.files then s.files[temp] else []
  }

  /** An accepted request starts an upload on what its temp file already holds. */
  lemma InitStartsUpload(s: State, e: Event)
    requires Begins(s, e)
    ensures Open(Step(s, e), TransferOf(s, e), TempBefore(s, e))
    ensures var answered := Step(s, e).sessions[e.id].bytesDone;
            answered <= |TempBefore(s, e)| && answered <= e.request.fileSize
            && (answered == |TempBefore(s, e)| || answered == e.request.fileSize)
  {
  }

  /** The request is accepted under a new id, and no active upload has a file name of the new one. */
  ghost predicate Begins(s: State, e: Event) {
    && InitAccepted(s, e) && NewIds(s, e) && e.id != [] && e.token != []
    && Alone(s, e.id, TransferOf(s, e).session)
  }

  /** The upload that an accepted request starts. */
  function TransferOf(s: State, e: Event): Transfer
    requires e.InitUpload?
  {
    Transfer(e.device, e.id, e.token, NewUpload(s, e.device, e.request, e.now, e.token))
  }

  /** The done frame of an authorised device moves the content to the final path, ends the session and
      records one version; without authorisation it does nothing. */
  lemma DoneFinishesUpload(s: State, u: Transfer, content: seq<byte>, start: State, init: Event)
    requires Open(s, u, content) && Begins(start, init) && u == TransferOf(start, init)
    ensures var next := Step(s, Done(u.device, u.sid, u.token));
            if !Authorized(s, u.device) then next == s else
            && u.session.final in next.files && next.files[u.session.final] == content
            && u.session.temp !in next.files && u.sid !in next.active
            && next.sessions[u.sid].completed && next.sessions[u.sid].bytesDone == init.request.fileSize
            && Records(s.versions, next.versions, init)
  {
    OpenAccepts(s, u, content);
    LogicalPathIsNotEmpty(start, init);
    NewestIsLargest(s.versions, u.session.device, u.session.logicalPath);
    var n := |u.session.final.name|;
    assert |u.session.temp.name| == n + |PART|;
  }

  // ---- The own connection's messages ------------------------------------------------------------------

  /** No write is empty. */
  predicate AllData(ws: seq<Write>) {
    forall i :: 0 <= i < |ws| ==> ws[i].data != []
  }

  predicate NoLogins(ms: seq<Message>) {
    forall i :: 0 <= i < |ms| ==> !ms[i].Login?
  }

  /** Chunk messages for a list of writes. */
  function WriteMessages(sid: GoString, token: GoString, ws: seq<Write>): seq<Message> {
    if ws == [] then [] else [FileChunk(sid, token, ws[0].offset, ws[0].data)] + WriteMessages(sid, token, ws[1..])
  }

  lemma {:induction false} ChunkMessagesAreWriteMessages(sid: GoString, token: GoString, chunks: seq<seq<byte>>, offset: u32)
    ensures ChunkMessages(sid, token, chunks, offset) == WriteMessages(sid, token, ChunkWrites(chunks, offset))
  {
    if chunks != [] {
      var next := (offset + |chunks[0]|) % TWO_TO_THE_32;
      ChunkMessagesAreWriteMessages(sid, token, chunks[1..], next);
      assert ChunkWrites(chunks, offset)[1..] == ChunkWrites(chunks[1..], next);
    }
  }

  function LastDevice(ms: seq<Message>, last: Text): Text {
    if ms == [] then last else LastDevice(ms[1..], MessageDevice(ms[0], last))
  }

  lemma {:induction false} MessageEventsAppend(a: seq<Message>, b: seq<Message>, last: Text, verified: bool)
    ensures MessageEvents(a + b, last, verified) ==
            MessageEvents(a, last, verified) + MessageEvents(b, LastDevice(a, last), verified)
  {
    if a == [] {
      assert a + b == b;
    } else {
      assert (a + b)[1..] == a[1..] + b && (a + b)[0] == a[0];
      MessageEventsAppend(a[1..], b, MessageDevice(a[0], last), verified);
    }
  }

  lemma {:induction false} LastDeviceWithoutLogins(ms: seq<Message>, last: Text)
    requires NoLogins(ms)
    ensures LastDevice(ms, last) == last
  {
    if ms != [] {
      LastDeviceWithoutLogins(ms[1..], last);
    }
  }

  lemma FirstWriteEvent(u: Transfer, ws: seq<Write>, verified: bool)
    requires ws != []
    ensures MessageEvents(WriteMessages(u.sid, u.token, ws), u.device, verified) ==
            [Chunk(u.device, u.sid, u.token, ws[0].offset, |ws[0].data|, Some(ws[0].data), None)]
            + MessageEvents(WriteMessages(u.sid, u.token, ws[1..]), u.device, verified)
  {
    FirstMessageEvent(FileChunk(u.sid, u.token, ws[0].offset, ws[0].data), WriteMessages(u.sid, u.token, ws[1..]), u.device, verified);
  }

  ghost predicate AllOwnTraffic(u: Transfer, es: seq<Event>) {
    forall i :: 0 <= i < |es| ==> OwnTraffic(u, es[i])
  }

  lemma {:induction false} WriteMessageEvents(u: Transfer, ws: seq<Write>, verified: bool)
    requires AllData(ws)
    ensures var es := MessageEvents(WriteMessages(u.sid, u.token, ws), u.device, verified);
            EventWrites(es) == ws && AllOwnTraffic(u, es)
  {
    if ws != [] {
      var later := MessageEvents(WriteMessages(u.sid, u.token, ws[1..]), u.device, verified);
      FirstWriteEvent(u, ws, verified);
      WriteMessageEvents(u, ws[1..], verified);
      FirstChunkWrite(u, ws[0], later);
    }
  }

  lemma FirstChunkWrite(u: Transfer, w: Write, later: seq<Event>)
    ensures EventWrites([Chunk(u.device, u.sid, u.token, w.offset, |w.data|, Some(w.data), None)] + later) == [w] + EventWrites(later)
  {
    var es := [Chunk(u.device, u.sid, u.token, w.offset, |w.data|, Some(w.data), None)] + later;
    assert es[1..] == later;
  }

  /** What goes out before the done frame: login, meta, and the chunks with any repeats. */
  function BodyMessages(u: Transfer, size: u64, ds: seq<Write>): seq<Message> {
    [Login(u.device, u.token), FileMeta(u.session.fileName, size)] + WriteMessages(u.sid, u.token, ds)
  }

  lemma BodyEvents(u: Transfer, size: u64, ds: seq<Write>, verified: bool)
    requires u.token != []
    requires AllData(ds)
    ensures var es := MessageEvents(BodyMessages(u, size, ds), [], verified);
            && EventWrites(es) == ds
            && AllOwnTraffic(u, es)
            && (LoginAccepted(u.token, verified) ==> es != [] && es[0] == Grant(u.device, u.token))
  {
    var ws, meta := WriteMessages(u.sid, u.token, ds), FileMeta(u.session.fileName, size);
    WriteMessageEvents(u, ds, verified);
    FirstMessageEvent(meta, ws, u.device, verified);
    FirstMessageEvent(Login(u.device, u.token), [meta] + ws, [], verified);
    assert BodyMessages(u, size, ds) == [Login(u.device, u.token)] + ([meta] + ws);
    var first, rest := MessageEvent(Login(u.device, u.token), u.device, verified), MessageEvents(ws, u.device, verified);
    SkipWithoutWrites(first, [Ignored] + rest);
    SkipWithoutWrites(Ignored, rest);
  }

  lemma SkipWithoutWrites(e: Event, es: seq<Event>)
    requires !e.Chunk?
    ensures EventWrites([e] + es) == EventWrites(es)
  {
    assert ([e] + es)[1..] == es;
  }

  lemma {:induction false} StutterData(ds: seq<Write>, ws: seq<Write>)
    requires Stutters(ds, ws) && AllData(ws)
    ensures AllData(ds)
    decreases |ds|
  {
    if ds != [] {
      if Stutters(ds[1..], ws[1..]) { StutterData(ds[1..], ws[1..]); } else { StutterData(ds[1..], ws); }
    }
  }

  lemma {:induction false} ChunkWritesData(chunks: seq<seq<byte>>, offset: u32)
    requires NonEmpty(chunks)
    ensures AllData(ChunkWrites(chunks, offset))
  {
    if chunks != [] {
      var next := (offset + |chunks[0]|) % TWO_TO_THE_32;
      ChunkWritesData(chunks[1..], next);
      assert ChunkWrites(chunks, offset)[1..] == ChunkWrites(chunks[1..], next);
    }
  }

  /** The same events, where the file writes of some chunks failed. */
  predicate Hampered(es: seq<Event>, meant: seq<Event>) {
    |es| == |meant| && forall i :: 0 <= i < |es| ==> HamperedEvent(es[i], meant[i])
  }

  predicate HamperedEvent(e: Event, meant: Event) {
    e == meant || (e.Chunk? && e.(failed := None) == meant)
  }

  predicate WritesSucceed(es: seq<Event>) {
    forall i :: 0 <= i < |es| ==> es[i].Chunk? ==> es[i].failed.None?
  }

  lemma {:induction false} FramesWriteWell(rs: seq<Received>, last: Text, verified: bool)
    ensures WritesSucceed(ConnectionEvents(rs, last, verified))
  {
    if rs != [] {
      FramesWriteWell(rs[1..], EffectiveDevice(rs[0].fields.device, last), verified);
    }
  }

  lemma HamperedOwnTraffic(u: Transfer, es: seq<Event>, meant: seq<Event>)
    requires Hampered(es, meant) && AllOwnTraffic(u, meant)
    ensures AllOwnTraffic(u, es)
  {
    forall i | 0 <= i < |es| ensures OwnTraffic(u, es[i]) {
      assert HamperedEvent(es[i], meant[i]) && OwnTraffic(u, meant[i]);
    }
  }

  /** A write that failed leaves its front behind. */
  lemma {:induction false} HamperedWrites(es: seq<Event>, meant: seq<Event>, w: Write)
    requires Hampered(es, meant) && WritesSucceed(meant) && w in EventWrites(es)
    ensures FrontOfOne(w, EventWrites(meant))
    decreases |es|
  {
    assert HamperedEvent(es[0], meant[0]);
    if w in EventWrites(es[1..]) {
      HamperedWrites(es[1..], meant[1..], w);
      MoreFronts(w, EventWrites([meant[0]]), EventWrites(meant[1..]));
    } else {
      var v := Write(meant[0].offset, meant[0].data.value);
      assert w.data <= v.data && v in EventWrites(meant);
    }
  }

  lemma MoreFronts(w: Write, a: seq<Write>, b: seq<Write>)
    requires FrontOfOne(w, b)
    ensures FrontOfOne(w, a + b)
  {
    var v :| v in b && w.offset == v.offset && w.data <= v.data;
    assert v in a + b;
  }

  /** What the two upload theorems start from: an accepted request with a new id, and then a run in which
      the own connection delivers the stream of its login, meta and chunk frames - any chunk any number of
      times, and with any file writes failing - with other traffic interleaved anywhere. */
  ghost predicate UploadRun(s: State, init: Event, size: u64, chunks: seq<seq<byte>>, ds: seq<Write>,
                            run: seq<Tagged>, verified: bool) {
    && Begins(s, init) && NonEmpty(chunks) && Stutters(ds, ChunkWrites(chunks, 0))
    && var u := TransferOf(s, init);
       && QuietRun(Step(s, init), u, run)
       && AllIntact(BodyMessages(u, size, ds))
       && Hampered(OwnEvents(run), ConnectionEvents(Frames(StreamOf(BodyMessages(u, size, ds))), [], verified))
  }

  /** The backend takes the upload's token at login: as an opaque one, or as one that verifies. */
  predicate LoginAccepted(token: Text, verified: bool) {
    LooksLikeJWT(token) ==> verified
  }

  /** The state right before the done frame, and right after it. */
  function BeforeDone(s: State, init: Event, run: seq<Tagged>): State {
    Run(Step(s, init), EventsOf(run))
  }

  function AfterUpload(s: State, init: Event, run: seq<Tagged>): State
    requires init.InitUpload?
  {
    Step(BeforeDone(s, init, run), Done(init.device, init.id, init.token))
  }

  /** The done frame has stored exactly this content and recorded one version for it, as the request says. */
  ghost predicate Stored(s: State, init: Event, run: seq<Tagged>, content: seq<byte>)
    requires init.InitUpload?
  {
    var session, before, after := TransferOf(s, init).session, BeforeDone(s, init, run), AfterUpload(s, init, run);
    && session.final in after.files && after.files[session.final] == content
    && Records(before.versions, after.versions, init)
  }

  /** The row that the done frame recorded. */
  function NewRow(s: State, init: Event, run: seq<Tagged>): Version
    requires init.InitUpload? && AfterUpload(s, init, run).versions != []
  {
    var vs := AfterUpload(s, init, run).versions;
    vs[|vs| - 1]
  }

  lemma HamperedBody(u: Transfer, size: u64, ds: seq<Write>, verified: bool, es: seq<Event>)
    requires u.token != [] && AllData(ds) && AllIntact(BodyMessages(u, size, ds))
    requires Hampered(es, ConnectionEvents(Frames(StreamOf(BodyMessages(u, size, ds))), [], verified))
    ensures forall w :: w in EventWrites(es) ==> FrontOfOne(w, ds)
    ensures WritesSucceed(es) ==> EventWrites(es) == ds
    ensures AllOwnTraffic(u, es)
    ensures LoginAccepted(u.token, verified) ==> es != [] && es[0] == Grant(u.device, u.token)
  {
    var meant := ConnectionEvents(Frames(StreamOf(BodyMessages(u, size, ds))), [], verified);
    StreamEvents(BodyMessages(u, size, ds), verified);
    BodyEvents(u, size, ds, verified);
    FramesWriteWell(Frames(StreamOf(BodyMessages(u, size, ds))), [], verified);
    HamperedOwnTraffic(u, es, meant);
    forall w | w in EventWrites(es) ensures FrontOfOne(w, ds) {
      HamperedWrites(es, meant, w);
    }
    if es != [] {
      assert HamperedEvent(es[0], meant[0]);
    }
    if WritesSucceed(es) {
      SuccessIsUnhampered(es, meant);
    }
  }

  lemma SuccessIsUnhampered(es: seq<Event>, meant: seq<Event>)
    requires Hampered(es, meant) && WritesSucceed(es)
    ensures es == meant
  {
    forall i | 0 <= i < |es| ensures es[i] == meant[i] {
      assert HamperedEvent(es[i], meant[i]);
    }
  }

  lemma RunKeepsOpen(s: State, init: Event, size: u64, chunks: seq<seq<byte>>, ds: seq<Write>, run: seq<Tagged>, verified: bool)
    requires UploadRun(s, init, size, chunks, ds, run, verified)
    ensures var u := TransferOf(s, init);
            && Open(BeforeDone(s, init, run), u, ApplyWrites(TempBefore(s, init), Delivered(Step(s, init), u, run)))
            && (forall w :: w in EventWrites(OwnEvents(run)) ==> FrontOfOne(w, ds))
            && (WritesSucceed(OwnEvents(run)) ==> EventWrites(OwnEvents(run)) == ds)
            && AllOwnTraffic(u, OwnEvents(run))
            && (LoginAccepted(init.token, verified) ==> OwnEvents(run) != [] && OwnEvents(run)[0] == Grant(u.device, u.token))
  {
    var u := TransferOf(s, init);
    InitStartsUpload(s, init);
    ChunkWritesData(chunks, 0);
    StutterData(ds, ChunkWrites(chunks, 0));
    HamperedBody(u, size, ds, verified, OwnEvents(run));
    InterleavedRun(Step(s, init), u, TempBefore(s, init), run);
  }

  /** In range, or the temp file has another length than the source. (Once the offset has wrapped, chunks
      can complete a temp file of the source's length by chance.) */
  predicate LengthTells(s: State, init: Event, chunks: seq<seq<byte>>)
    requires init.InitUpload?
  {
    LastReadStartsInRange(chunks) || |TempBefore(s, init)| != |Concat(chunks)|
  }

  /** The last read starts below 2^32, and the file is not longer than the source. */
  predicate ChunksSuffice(file: seq<byte>, chunks: seq<seq<byte>>) {
    LastReadStartsInRange(chunks) && |file| <= |Concat(chunks)|
  }

  lemma StuttersKeepFronts(ds: seq<Write>, ws: seq<Write>, w: Write)
    requires Stutters(ds, ws) && FrontOfOne(w, ds)
    ensures FrontOfOne(w, ws)
  {
    var v :| v in ds && w.offset == v.offset && w.data <= v.data;
    StuttersKeepWrites(ds, ws, v);
  }

  /** The upload, exactly, whatever disconnects, logins and failing file writes happen meanwhile. The done
      frame of an authorised device stores what the chunks that found it authorised made of the temp file,
      and otherwise nothing. It stores the source and records a version for it if and only if the device is
      authorised when it arrives, the last read of the source starts below 2^32, and what was written of the
      chunks that found the device authorised restores the source from what the temp file held: it reaches
      the end, and what none of it covers is there already. */
  lemma UploadStoresSourceExactly(s: State, init: Event, size: u64, chunks: seq<seq<byte>>, ds: seq<Write>,
                                  run: seq<Tagged>, verified: bool)
    requires UploadRun(s, init, size, chunks, ds, run, verified)
    ensures forall content :: Stored(s, init, run, content) <==>
              && Authorized(BeforeDone(s, init, run), init.device)
              && content == ApplyWrites(TempBefore(s, init), Delivered(Step(s, init), TransferOf(s, init), run))
    ensures LengthTells(s, init, chunks) ==>
              (Stored(s, init, run, Concat(chunks)) <==>
               && Authorized(BeforeDone(s, init, run), init.device)
               && LastReadStartsInRange(chunks)
               && Restores(TempBefore(s, init), Delivered(Step(s, init), TransferOf(s, init), run), Concat(chunks)))
  {
    var u := TransferOf(s, init);
    var ws := Delivered(Step(s, init), u, run);
    RunKeepsOpen(s, init, size, chunks, ds, run, verified);
    DoneFinishesUpload(BeforeDone(s, init, run), u, ApplyWrites(TempBefore(s, init), ws), s, init);
    forall w | w in ws ensures FrontOfOne(w, ChunkWrites(chunks, 0)) {
      DeliveredIsOwn(Step(s, init), u, run, w);
      StuttersKeepFronts(ds, ChunkWrites(chunks, 0), w);
    }
    if LengthTells(s, init, chunks) {
      SomeChunksRebuildExactly(TempBefore(s, init), chunks, ws);
    }
  }

  /** The upload theorem. The connection of the request closes as it always does, and any others of the
      device may, until the transfer connection's login is accepted; from then on none closes, and every
      file write succeeds. The done frame then records one version of what the chunks make of the temp file:
      in range, the source and after it what the temp file had beyond it. That is the source exactly when
      its last read starts below 2^32 and the temp file was not longer. */
  lemma UploadStoresSource(s: State, init: Event, size: u64, chunks: seq<seq<byte>>, ds: seq<Write>,
                           run: seq<Tagged>, verified: bool)
    requires UploadRun(s, init, size, chunks, ds, run, verified)
    requires LoginAccepted(init.token, verified) && StaysConnected(TransferOf(s, init), run, false)
    requires WritesSucceed(OwnEvents(run))
    ensures Stored(s, init, run, ApplyWrites(TempBefore(s, init), ChunkWrites(chunks, 0)))
    ensures AllHistoriesOneToN(s.versions) ==>
              NewRow(s, init, run).version == |History(BeforeDone(s, init, run).versions, init.device, RecordedPath(init.request))| + 1
    ensures LastReadStartsInRange(chunks) ==> Stored(s, init, run, WriteAt(TempBefore(s, init), 0, Concat(chunks)))
    ensures LengthTells(s, init, chunks) ==>
              (Stored(s, init, run, Concat(chunks)) <==> ChunksSuffice(TempBefore(s, init), chunks))
  {
    var u, before := TransferOf(s, init), TempBefore(s, init);
    RunKeepsOpen(s, init, size, chunks, ds, run, verified);
    ConnectedDeliversAll(Step(s, init), u, run, false);
    DoneFinishesUpload(BeforeDone(s, init, run), u, ApplyWrites(before, ds), s, init);
    if AllHistoriesOneToN(s.versions) {
      VersionsAreNumbered(Step(s, init), EventsOf(run));
      NextNumberCounts(NewRow(s, init, run).version, BeforeDone(s, init, run).versions, init.device, RecordedPath(init.request));
    }
    StutteringWritesAreHarmless(before, ds, ChunkWrites(chunks, 0));
    ChunksOverlayExactly(before, chunks);
  }

  /** The messages of a clean upload are the body with every chunk once, and the done frame. */
  lemma CleanUploadIsBodyThenDone(u: Transfer, size: u64, chunks: seq<seq<byte>>)
    ensures LoginPart(true, u.device, u.token) + TransferMessages(u.sid, u.token, u.session.fileName, size, chunks) ==
            BodyMessages(u, size, ChunkWrites(chunks, 0)) + [FileDone(u.sid, u.token)]
    ensures Stutters(ChunkWrites(chunks, 0), ChunkWrites(chunks, 0))
  {
    ChunkMessagesAreWriteMessages(u.sid, u.token, chunks, 0);
    StuttersItself(ChunkWrites(chunks, 0));
  }

  lemma {:induction false} StuttersItself(ws: seq<Write>)
    ensures Stutters(ws, ws)
  {
    if ws != [] {
      StuttersItself(ws[1..]);
    }
  }

  // ---- An upload with nothing in between -------------------------------------------------------------------

  function AllOwn(es: seq<Event>): seq<Tagged> {
    if es == [] then [] else [Own(es[0])] + AllOwn(es[1..])
  }

  /** Other events, and then the upload's own. */
  function GapThenOwn(gap: seq<Event>, es: seq<Event>): seq<Tagged> {
    if gap == [] then AllOwn(es) else [Other(gap[0])] + GapThenOwn(gap[1..], es)
  }

  predicate QuietGap(s: State, u: Transfer, gap: seq<Event>)
    decreases |gap|
  {
    gap == [] || (Quiet(s, u, gap[0]) && QuietGap(Step(s, gap[0]), u, gap[1..]))
  }

  lemma {:induction false} AllOwnRun(s: State, u: Transfer, es: seq<Event>, loggedIn: bool)
    ensures EventsOf(AllOwn(es)) == es && OwnEvents(AllOwn(es)) == es
    ensures QuietRun(s, u, AllOwn(es)) && StaysConnected(u, AllOwn(es), loggedIn)
    decreases |es|
  {
    if es != [] {
      var run := AllOwn(es);
      assert run[0] == Own(es[0]) && run[1..] == AllOwn(es[1..]);
      AllOwnRun(Step(s, es[0]), u, es[1..], loggedIn || run[0] == OwnLogin(u));
    }
  }

  lemma {:induction false} GapRun(s: State, u: Transfer, gap: seq<Event>, es: seq<Event>)
    requires QuietGap(s, u, gap)
    ensures var run := GapThenOwn(gap, es);
            && EventsOf(run) == gap + es && OwnEvents(run) == es
            && QuietRun(s, u, run) && StaysConnected(u, run, false)
    decreases |gap|
  {
    if gap == [] {
      AllOwnRun(s, u, es, false);
      assert [] + es == es;
    } else {
      var run := GapThenOwn(gap, es);
      assert run[0] == Other(gap[0]) && run[1..] == GapThenOwn(gap[1..], es);
      GapRun(Step(s, gap[0]), u, gap[1..], es);
      assert [gap[0]] + (gap[1..] + es) == gap + es;
      assert [] + OwnEvents(run[1..]) == es;
    }
  }

  lemma WholeStreamEvents(u: Transfer, size: u64, ds: seq<Write>, verified: bool)
    requires AllIntact(BodyMessages(u, size, ds) + [FileDone(u.sid, u.token)])
    ensures AllIntact(BodyMessages(u, size, ds))
    ensures ConnectionEvents(Frames(StreamOf(BodyMessages(u, size, ds) + [FileDone(u.sid, u.token)])), [], verified) ==
            ConnectionEvents(Frames(StreamOf(BodyMessages(u, size, ds))), [], verified) + [Done(u.device, u.sid, u.token)]
  {
    BodyDevice(u, size, ds);
    AppendedMessageEvent(BodyMessages(u, size, ds), FileDone(u.sid, u.token), verified);
  }

  lemma AppendedMessageEvent(ms: seq<Message>, m: Message, verified: bool)
    requires AllIntact(ms + [m]) && !m.Login?
    ensures AllIntact(ms)
    ensures ConnectionEvents(Frames(StreamOf(ms + [m])), [], verified) ==
            ConnectionEvents(Frames(StreamOf(ms)), [], verified) + [MessageEvent(m, LastDevice(ms, []), verified)]
  {
    forall x | x in ms ensures Intact(x) {
      assert x in ms + [m];
    }
    StreamEvents(ms, verified);
    StreamEvents(ms + [m], verified);
    MessageEventsAppend(ms, [m], [], verified);
    FirstMessageEvent(m, [], LastDevice(ms, []), verified);
    assert [m] + [] == [m];
  }

  lemma BodyDevice(u: Transfer, size: u64, ds: seq<Write>)
    ensures LastDevice(BodyMessages(u, size, ds), []) == u.device
  {
    var ws, meta := WriteMessages(u.sid, u.token, ds), FileMeta(u.session.fileName, size);
    WriteMessagesAreNotLogins(u.sid, u.token, ds);
    assert BodyMessages(u, size, ds)[1..] == [meta] + ws;
    assert NoLogins([meta] + ws);
    LastDeviceWithoutLogins([meta] + ws, u.device);
  }

  lemma {:induction false} WriteMessagesAreNotLogins(sid: GoString, token: GoString, ws: seq<Write>)
    ensures NoLogins(WriteMessages(sid, token, ws))
  {
    if ws != [] {
      WriteMessagesAreNotLogins(sid, token, ws[1..]);
      assert WriteMessages(sid, token, ws)[1..] == WriteMessages(sid, token, ws[1..]);
    }
  }

  lemma GapUploadAfter(s: State, init: Event, gap: seq<Event>, es: seq<Event>)
    requires init.InitUpload? && QuietGap(Step(s, init), TransferOf(s, init), gap)
    ensures AfterUpload(s, init, GapThenOwn(gap, es)) ==
            Run(Step(s, init), gap + (es + [Done(init.device, init.id, init.token)]))
  {
    var done := Done(init.device, init.id, init.token);
    GapRun(Step(s, init), TransferOf(s, init), gap, es);
    RunAppend(Step(s, init), gap + es, done);
    assert gap + es + [done] == gap + (es + [done]);
  }

  lemma GapUploadStores(s: State, init: Event, gap: seq<Event>, size: u64, chunks: seq<seq<byte>>, verified: bool)
    requires Begins(s, init) && LoginAccepted(init.token, verified) && NonEmpty(chunks)
    requires var u := TransferOf(s, init);
             && QuietGap(Step(s, init), u, gap)
             && AllIntact(BodyMessages(u, size, ChunkWrites(chunks, 0)))
    ensures var es := ConnectionEvents(Frames(StreamOf(BodyMessages(TransferOf(s, init), size, ChunkWrites(chunks, 0)))), [], verified);
            var run := GapThenOwn(gap, es);
            && (LengthTells(s, init, chunks) ==>
                  (Stored(s, init, run, Concat(chunks)) <==> ChunksSuffice(TempBefore(s, init), chunks)))
            && Stored(s, init, run, ApplyWrites(TempBefore(s, init), ChunkWrites(chunks, 0)))
  {
    var u, ds := TransferOf(s, init), ChunkWrites(chunks, 0);
    var es := ConnectionEvents(Frames(StreamOf(BodyMessages(u, size, ds))), [], verified);
    StuttersItself(ds);
    GapRun(Step(s, init), u, gap, es);
    FramesWriteWell(Frames(StreamOf(BodyMessages(u, size, ds))), [], verified);
    UploadStoresSource(s, init, size, chunks, ds, GapThenOwn(gap, es), verified);
  }

  /** The stream that a clean `UploadFile` writes, decoded and handled after the accepted request and
      any traffic in between, such as the disconnect of the connection that made the request: the
      stored file is the source exactly when its last read starts below 2^32 and the temp file was not
      longer. */
  lemma LoneUploadStoresSource(s: State, init: Event, gap: seq<Event>, size: u64, pieces: seq<seq<byte>>, verified: bool)
    requires Begins(s, init) && LoginAccepted(init.token, verified)
    requires var u := TransferOf(s, init);
             && QuietGap(Step(s, init), u, gap)
             && AllIntact(LoginPart(true, init.device, init.token)
                          + TransferMessages(init.id, init.token, u.session.fileName, size, Filled(pieces)))
    ensures var session := TransferOf(s, init).session;
            var stream := StreamOf(LoginPart(true, init.device, init.token)
                                   + TransferMessages(init.id, init.token, session.fileName, size, Filled(pieces)));
            var after := Run(Step(s, init), gap + ConnectionEvents(Frames(stream), [], verified));
            && session.final in after.files
            && var before, stored := TempBefore(s, init), after.files[session.final];
               && stored == ApplyWrites(before, ChunkWrites(Filled(pieces), 0))
               && (LengthTells(s, init, Filled(pieces)) ==> (stored == Concat(pieces) <==> ChunksSuffice(before, Filled(pieces))))
  {
    var u, chunks := TransferOf(s, init), Filled(pieces);
    var ds := ChunkWrites(chunks, 0);
    FilledKeepsContent(pieces);
    CleanUploadIsBodyThenDone(u, size, chunks);
    WholeStreamEvents(u, size, ds, verified);
    GapUploadStores(s, init, gap, size, chunks, verified);
    GapUploadAfter(s, init, gap, ConnectionEvents(Frames(StreamOf(BodyMessages(u, size, ds))), [], verified));
  }

  /** The agent's upload as it runs: the connection of the request closes, and with it goes the device's
      authorisation, then the transfer connection logs in and sends its stream. */
  lemma AgentUploadStoresSource(s: State, init: Event, size: u64, pieces: seq<seq<byte>>, verified: bool)
    requires Begins(s, init) && LoginAccepted(init.token, verified)
    requires AllIntact(LoginPart(true, init.device, init.token)
                       + TransferMessages(init.id, init.token, TransferOf(s, init).session.fileName, size, Filled(pieces)))
    ensures var session, closed := TransferOf(s, init).session, Step(Step(s, init), Disconnect(init.device));
            var stream := StreamOf(LoginPart(true, init.device, init.token)
                                   + TransferMessages(init.id, init.token, session.fileName, size, Filled(pieces)));
            var after := Run(closed, ConnectionEvents(Frames(stream), [], verified));
            && !Authorized(closed, init.device) && session.final in after.files
            && var before, stored := TempBefore(s, init), after.files[session.final];
               && stored == ApplyWrites(before, ChunkWrites(Filled(pieces), 0))
               && (LengthTells(s, init, Filled(pieces)) ==> (stored == Concat(pieces) <==> ChunksSuffice(before, Filled(pieces))))
  {
    var gap := [Disconnect(init.device)];
    assert gap[1..] == [];
    assert QuietGap(Step(Step(s, init), gap[0]), TransferOf(s, init), []);
    LoneUploadStoresSource(s, init, gap, size, pieces, verified);
    var es := ConnectionEvents(Frames(StreamOf(LoginPart(true, init.device, init.token)
                + TransferMessages(init.id, init.token, TransferOf(s, init).session.fileName, size, Filled(pieces)))), [], verified);
    assert (gap + es)[1..] == es;
  }

  // ---- Without a login -----------------------------------------------------------------------------------

  lemma {:induction false} AnonymousTrafficIsDropped(s: State, ms: seq<Message>, verified: bool)
    requires NoLogins(ms)
    ensures Run(s, MessageEvents(ms, [], verified)) == s
  {
    if ms != [] {
      var es := MessageEvents(ms, [], verified);
      assert es[1..] == MessageEvents(ms[1..], [], verified);
      assert Step(s, es[0]) == s;
      AnonymousTrafficIsDropped(s, ms[1..], verified);
    }
  }

  lemma {:induction false} ChunkMessagesAreNotLogins(sid: GoString, token: GoString, chunks: seq<seq<byte>>, offset: u32)
    ensures NoLogins(ChunkMessages(sid, token, chunks, offset))
  {
    if chunks != [] {
      var next := (offset + |chunks[0]|) % TWO_TO_THE_32;
      ChunkMessagesAreNotLogins(sid, token, chunks[1..], next);
      assert ChunkMessages(sid, token, chunks, offset)[1..] == ChunkMessages(sid, token, chunks[1..], next);
    }
  }

  lemma TransferMessagesAreNotLogins(sid: GoString, token: GoString, name: GoString, size: u64, chunks: seq<seq<byte>>)
    ensures NoLogins(TransferMessages(sid, token, name, size, chunks))
  {
    ChunkMessagesAreNotLogins(sid, token, chunks, 0);
  }

  /** The agent goes on when its login frame cannot be sent, but then the backend stores nothing:
      a transfer without a login frame leaves the backend's state as it was. */
  lemma UploadWithoutLoginIsDropped(s: State, sid: GoString, token: GoString, name: GoString, size: u64,
                                    chunks: seq<seq<byte>>, verified: bool)
    requires AllIntact(TransferMessages(sid, token, name, size, chunks))
    ensures Run(s, ConnectionEvents(Frames(StreamOf(TransferMessages(sid, token, name, size, chunks))), [], verified)) == s
  {
    var ms := TransferMessages(sid, token, name, size, chunks);
    StreamEvents(ms, verified);
    TransferMessagesAreNotLogins(sid, token, name, size, chunks);
    AnonymousTrafficIsDropped(s, ms, verified);
  }
}
