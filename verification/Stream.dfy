/** Frames on a byte stream: sending and receiving under partial and interrupted socket calls. */
module Stream {
  import opened Basics
  import opened Bytes
  import opened Wire

  // ---- Frames and streams as byte sequences --------------------------------------------------

  function Frame(kind: byte, payload: seq<byte>): seq<byte> {
    [kind] + BE(|payload|, 4) + payload
  }

  function MessageFrame(m: Message): seq<byte> {
    Frame(Kind(m), Payload(m))
  }

  /** The length field of a stream that holds at least a header. */
  function HeaderLength(s: seq<byte>): nat
    requires |s| >= 5
  {
    FromBE(s[1..5])
  }

  /** A whole frame of allowed length stands at the front of the stream. */
  predicate FrameReady(s: seq<byte>) {
    |s| >= 5 && HeaderLength(s) <= MAX_PAYLOAD && 5 + HeaderLength(s) <= |s|
  }

  /** Everything a receiver decodes from a stream before its first failing receive. */
  function Frames(s: seq<byte>): seq<Received>
    decreases |s|
  {
    if !FrameReady(s) then [] else
    [Parse(s[0], s[5..5 + HeaderLength(s)])] + Frames(s[5 + HeaderLength(s)..])
  }

  /** The bytes in front of which the receiver fails. */
  function Leftover(s: seq<byte>): seq<byte>
    decreases |s|
  {
    if !FrameReady(s) then s else Leftover(s[5 + HeaderLength(s)..])
  }

  /** The byte stream of a list of raw frames. */
  function Flatten(fs: seq<(byte, seq<byte>)>): seq<byte> {
    if fs == [] then [] else Frame(fs[0].0, fs[0].1) + Flatten(fs[1..])
  }

  function ParseAll(fs: seq<(byte, seq<byte>)>): seq<Received> {
    if fs == [] then [] else [Parse(fs[0].0, fs[0].1)] + ParseAll(fs[1..])
  }

  function RawFrames(rs: seq<Received>): seq<(byte, seq<byte>)> {
    if rs == [] then [] else [(rs[0].kind, rs[0].raw)] + RawFrames(rs[1..])
  }

  lemma FrontFrame(kind: byte, payload: seq<byte>, rest: seq<byte>)
    requires |payload| <= MAX_PAYLOAD
    ensures var s := Frame(kind, payload) + rest;
            && FrameReady(s) && HeaderLength(s) == |payload| && s[0] == kind
            && s[5..5 + |payload|] == payload && s[5 + |payload|..] == rest
  {
    var length := BE(|payload|, 4);
    Capacities();
    FromBEInvertsBE(|payload|, 4);
    var s := [kind] + length + payload + rest;
    assert s[1..5] == length;
  }

  lemma FrontFrameDecodes(kind: byte, payload: seq<byte>, rest: seq<byte>)
    requires |payload| <= MAX_PAYLOAD
    ensures Frames(Frame(kind, payload) + rest) == [Parse(kind, payload)] + Frames(rest)
    ensures Leftover(Frame(kind, payload) + rest) == Leftover(rest)
  {
    FrontFrame(kind, payload, rest);
  }

  /** The receiver is self-delimiting: whatever the kinds and payload bytes of the frames in
      front, and whether or not their field checks fail, it decodes exactly those frames and then
      goes on at the first byte after them. */
  lemma {:induction false} SelfDelimiting(fs: seq<(byte, seq<byte>)>, tail: seq<byte>)
    requires forall f :: f in fs ==> |f.1| <= MAX_PAYLOAD
    ensures Frames(Flatten(fs) + tail) == ParseAll(fs) + Frames(tail)
    ensures Leftover(Flatten(fs) + tail) == Leftover(tail)
  {
    if fs == [] {
      assert Flatten(fs) + tail == tail;
    } else {
      FlattenFirst(fs, tail);
      FrontFrameDecodes(fs[0].0, fs[0].1, Flatten(fs[1..]) + tail);
      SelfDelimiting(fs[1..], tail);
      ParseFirst(fs, Frames(tail));
    }
  }

  lemma FlattenFirst(fs: seq<(byte, seq<byte>)>, tail: seq<byte>)
    requires fs != []
    ensures Flatten(fs) + tail == Frame(fs[0].0, fs[0].1) + (Flatten(fs[1..]) + tail)
  {
    var first, rest := Frame(fs[0].0, fs[0].1), Flatten(fs[1..]);
    assert first + rest + tail == first + (rest + tail);
  }

  lemma ParseFirst(fs: seq<(byte, seq<byte>)>, later: seq<Received>)
    requires fs != []
    ensures ParseAll(fs) + later == [Parse(fs[0].0, fs[0].1)] + (ParseAll(fs[1..]) + later)
  {
    var first, rest := [Parse(fs[0].0, fs[0].1)], ParseAll(fs[1..]);
    assert first + rest + later == first + (rest + later);
  }

  /** Conversely, every stream at all is the frames decoded from it followed by the leftover:
      each frame accounts for exactly 5 + length bytes. */
  lemma {:induction false} StreamIsItsFrames(s: seq<byte>)
    ensures s == Flatten(RawFrames(Frames(s))) + Leftover(s)
    ensures !FrameReady(Leftover(s))
    decreases |s|
  {
    if FrameReady(s) {
      var n := HeaderLength(s);
      var rest := s[5 + n..];
      StreamIsItsFrames(rest);
      FrontBytes(s);
      var first := Parse(s[0], s[5..5 + n]);
      RawFramesStep(first, Frames(rest));
    }
  }

  lemma FrontBytes(s: seq<byte>)
    requires FrameReady(s)
    ensures var n := HeaderLength(s); s == Frame(s[0], s[5..5 + n]) + s[5 + n..]
  {
    BEInvertsFromBE(s[1..5]);
  }

  lemma RawFramesStep(r: Received, rs: seq<Received>)
    ensures Flatten(RawFrames([r] + rs)) == Frame(r.kind, r.raw) + Flatten(RawFrames(rs))
  {
    assert ([r] + rs)[1..] == rs;
    var fs := RawFrames([r] + rs);
    assert fs[0] == (r.kind, r.raw) && fs[1..] == RawFrames(rs);
  }

  /** What a receiver accepts at the front of a stream, exactly: a kind, the length of a payload of at most
      1 MiB in network byte order, and that payload in full. */
  lemma FrameReadyExactly(s: seq<byte>)
    ensures FrameReady(s) <==>
            exists kind: byte, payload: seq<byte> :: |payload| <= 1048576 && [kind] + BE(|payload|, 4) + payload <= s
  {
    if FrameReady(s) {
      FrontBytes(s);
      FrameFound(s[0], s[5..5 + HeaderLength(s)], s);
    }
    if kind: byte, payload: seq<byte> :| |payload| <= 1048576 && [kind] + BE(|payload|, 4) + payload <= s {
      FrameStands(kind, payload, s);
    }
  }

  lemma FrameFound(first: byte, data: seq<byte>, s: seq<byte>)
    requires |data| <= MAX_PAYLOAD && Frame(first, data) <= s
    ensures exists kind: byte, payload: seq<byte> :: |payload| <= 1048576 && [kind] + BE(|payload|, 4) + payload <= s
  {
    assert |data| <= 1048576 && [first] + BE(|data|, 4) + data <= s;
  }

  lemma FrameStands(kind: byte, payload: seq<byte>, s: seq<byte>)
    requires |payload| <= MAX_PAYLOAD && Frame(kind, payload) <= s
    ensures FrameReady(s)
  {
    var rest := s[|Frame(kind, payload)|..];
    assert s == Frame(kind, payload) + rest;
    FrontFrame(kind, payload, rest);
  }

  // ---- Lists of messages ------------------------------------------------------------------------

  function FramesOf(ms: seq<Message>): seq<(byte, seq<byte>)> {
    if ms == [] then [] else [(Kind(ms[0]), Payload(ms[0]))] + FramesOf(ms[1..])
  }

  function StreamOf(ms: seq<Message>): seq<byte> {
    Flatten(FramesOf(ms))
  }

  function RecoverAll(rs: seq<Received>): seq<Option<Message>> {
    if rs == [] then [] else [Recover(rs[0])] + RecoverAll(rs[1..])
  }

  function Sent(ms: seq<Message>): seq<Option<Message>> {
    if ms == [] then [] else [Some(ms[0])] + Sent(ms[1..])
  }

  predicate Survives(m: Message) {
    TextsNulFree(m) && TokenFits(m)
  }

  predicate Intact(m: Message) {
    Sendable(m) && Survives(m)
  }

  lemma IntactFields(m: Message)
    requires Intact(m)
    ensures Parse(Kind(m), Payload(m)).fields == ExpectedFields(m) && Cut(m) == m
    ensures m.FileChunk? ==> ChunkData(Parse(Kind(m), Payload(m))) == Some(m.data)
  {
    FittingMessageParses(m);
    CutFixedPoint(m);
  }

  lemma {:induction false} FramesOfFit(ms: seq<Message>)
    requires forall m :: m in ms ==> Sendable(m)
    ensures forall f :: f in FramesOf(ms) ==> |f.1| <= MAX_PAYLOAD
  {
    if ms != [] {
      SendablePayloadFits(ms[0]);
      FramesOfFit(ms[1..]);
    }
  }

  lemma {:induction false} MessagesParse(ms: seq<Message>)
    requires forall m :: m in ms ==> Sendable(m)
    ensures RecoverAll(ParseAll(FramesOf(ms))) == Sent(ms) <==> forall m :: m in ms ==> Survives(m)
  {
    if ms != [] {
      RoundTripExactly(ms[0]);
      MessagesParse(ms[1..]);
      var rs := ParseAll(FramesOf(ms));
      assert rs[0] == Parse(Kind(ms[0]), Payload(ms[0])) && rs[1..] == ParseAll(FramesOf(ms[1..]));
      assert RecoverAll(rs)[0] == Recover(rs[0]) && RecoverAll(rs)[1..] == RecoverAll(rs[1..]);
      assert Sent(ms)[0] == Some(ms[0]) && Sent(ms)[1..] == Sent(ms[1..]);
      assert ms == [ms[0]] + ms[1..];
    }
  }

  /** Stream round trip. The frames of any list of accepted messages leave no bytes over, and the
      list comes back as sent if and only if every message is NUL-free with a token that fits. */
  lemma StreamRoundTrip(ms: seq<Message>)
    requires forall m :: m in ms ==> Sendable(m)
    ensures Leftover(StreamOf(ms)) == []
    ensures |Frames(StreamOf(ms))| == |ms|
    ensures RecoverAll(Frames(StreamOf(ms))) == Sent(ms) <==> forall m :: m in ms ==> Survives(m)
  {
    FramesOfFit(ms);
    SelfDelimiting(FramesOf(ms), []);
    assert StreamOf(ms) + [] == StreamOf(ms);
    assert Frames([]) == [] && ParseAll(FramesOf(ms)) + [] == ParseAll(FramesOf(ms));
    MessagesParse(ms);
    ParseAllLength(ms);
  }

  lemma {:induction false} ParseAllLength(ms: seq<Message>)
    ensures |ParseAll(FramesOf(ms))| == |ms|
  {
    if ms != [] {
      ParseAllLength(ms[1..]);
      assert FramesOf(ms)[1..] == FramesOf(ms[1..]);
    }
  }

  lemma LoneFrameLength(s: seq<byte>, r: Received)
    requires Frames(s) == [r] && Leftover(s) == []
    ensures |s| == 5 + |r.raw|
  {
    StreamIsItsFrames(s);
    assert RawFrames([r]) == [(r.kind, r.raw)];
    assert Flatten([(r.kind, r.raw)]) == Frame(r.kind, r.raw) + Flatten([]);
  }

  /** A send that failed has left a proper prefix of its frame on the stream. Sending the whole
      frame again repairs the stream if and only if that prefix is empty. */
  lemma RetryRepairsOnlyUnstartedFrame(m: Message, written: nat)
    requires Sendable(m) && written < |MessageFrame(m)|
    ensures var s := MessageFrame(m)[..written] + MessageFrame(m);
            (Frames(s) == [Parse(Kind(m), Payload(m))] && Leftover(s) == []) <==> written == 0
  {
    var frame := MessageFrame(m);
    var s := frame[..written] + frame;
    SendablePayloadFits(m);
    if written == 0 {
      FrontFrame(Kind(m), Payload(m), []);
      assert s == frame == frame + [];
      assert Frames([]) == [] && Leftover([]) == [];
    } else if Frames(s) == [Parse(Kind(m), Payload(m))] && Leftover(s) == [] {
      LoneFrameLength(s, Parse(Kind(m), Payload(m)));
      assert false;
    }
  }

  lemma {:induction false} StreamOfAppend(ms: seq<Message>, m: Message)
    ensures StreamOf(ms + [m]) == StreamOf(ms) + MessageFrame(m)
  {
    if ms == [] {
      assert ms + [m] == [m] && FramesOf([m]) == [(Kind(m), Payload(m))];
      assert Flatten(FramesOf([m])) == MessageFrame(m) + Flatten([]);
    } else {
      StreamOfAppend(ms[1..], m);
      assert (ms + [m])[1..] == ms[1..] + [m];
      assert FramesOf(ms + [m])[1..] == FramesOf(ms[1..] + [m]) && FramesOf(ms)[1..] == FramesOf(ms[1..]);
    }
  }

  // ---- Sockets ----------------------------------------------------------------------------------

  /** What one `send` call does: take some bytes, fail with EINTR, fail otherwise, or return 0. */
  datatype SendOutcome = Took(limit: nat) | Interrupted | Refused | Nothing

  /** What one `recv` call does: deliver some of the waiting bytes, or fail. */
  datatype RecvOutcome = Gave(limit: nat) | Broken

  predicate SmoothSends(plan: seq<SendOutcome>) {
    Refused !in plan && Nothing !in plan
  }

  /** How many of the next calls fail for good. */
  function Failures(plan: seq<SendOutcome>): nat {
    if plan == [] then 0 else (if plan[0].Refused? || plan[0].Nothing? then 1 else 0) + Failures(plan[1..])
  }

  /** How many of the next receives break. */
  function Breaks(plan: seq<RecvOutcome>): nat {
    if plan == [] then 0 else (if plan[0].Broken? then 1 else 0) + Breaks(plan[1..])
  }

  /** A failed call has put some bytes of the frame on the stream, but never all of them. */
  ghost predicate WroteProperPrefix(before: seq<byte>, after: seq<byte>, frame: seq<byte>) {
    exists k :: 0 <= k < |frame| && after == before + frame[..k]
  }

  const EINTR := -2

  /** One end of a connection. The plans say how the kernel answers the next calls; past the end of
      a plan every call is answered in full. */
  class Socket {
    var outgoing: seq<byte>
    var incoming: seq<byte>
    var sendPlan: seq<SendOutcome>
    var recvPlan: seq<RecvOutcome>

    constructor (incoming: seq<byte>, sendPlan: seq<SendOutcome>, recvPlan: seq<RecvOutcome>)
      ensures this.outgoing == [] && this.incoming == incoming
      ensures this.sendPlan == sendPlan && this.recvPlan == recvPlan
    {
      this.outgoing, this.incoming := [], incoming;
      this.sendPlan, this.recvPlan := sendPlan, recvPlan;
    }

    /** `send`: the number of bytes taken, or -1, or -2 for -1 with EINTR. */
    method Send(data: seq<byte>) returns (n: int)
      requires data != []
      modifies this`outgoing, this`sendPlan
      ensures -2 <= n <= |data|
      ensures outgoing == old(outgoing) + data[..if n < 0 then 0 else n]
      ensures n <= 0 ==> old(sendPlan) != [] && sendPlan == old(sendPlan)[1..]
      ensures n > 0 ==> sendPlan == if old(sendPlan) == [] then [] else old(sendPlan)[1..]
      ensures SmoothSends(old(sendPlan)) ==> SmoothSends(sendPlan) && (n > 0 || n == EINTR)
      ensures Failures(old(sendPlan)) == Failures(sendPlan) + if n == 0 || n == -1 then 1 else 0
    {
      n := |data|;
      if sendPlan != [] {
        match sendPlan[0] {
          case Took(limit) => n := if limit == 0 then 1 else if limit < |data| then limit else |data|;
          case Interrupted => n := EINTR;
          case Refused => n := -1;
          case Nothing => n := 0;
        }
        sendPlan := sendPlan[1..];
      }
      outgoing := outgoing + data[..if n < 0 then 0 else n];
    }

    /** `send_all`. A failure has written a proper prefix of the data; without refused or empty
        sends there is no failure, however the data is split and interrupted. */
    method SendAll(data: seq<byte>) returns (ok: bool)
      modifies this`outgoing, this`sendPlan
      ensures ok ==> outgoing == old(outgoing) + data
      ensures !ok ==> exists k :: 0 <= k < |data| && outgoing == old(outgoing) + data[..k]
      ensures SmoothSends(old(sendPlan)) ==> ok && SmoothSends(sendPlan)
      ensures Failures(old(sendPlan)) == Failures(sendPlan) + if ok then 0 else 1
    {
      var total := 0;
      while total < |data|
        invariant 0 <= total <= |data|
        invariant outgoing == old(outgoing) + data[..total]
        invariant SmoothSends(old(sendPlan)) ==> SmoothSends(sendPlan)
        invariant Failures(old(sendPlan)) == Failures(sendPlan)
        decreases |sendPlan| + |data| - total
      {
        var sent := Send(data[total..]);
        if sent == EINTR {
          continue;
        }
        if sent < 0 {
          return false;
        }
        if sent == 0 {
          break;
        }
        assert data[..total] + data[total..][..sent] == data[..total + sent];
        total := total + sent;
      }
      ok := total == |data|;
      assert ok ==> data[..total] == data;
    }

    /** `protocol_send_frame`: header first, then the payload if there is one. */
    method SendFrame(kind: byte, payload: seq<byte>) returns (ok: bool)
      modifies this`outgoing, this`sendPlan
      ensures ok ==> |payload| <= MAX_PAYLOAD && outgoing == old(outgoing) + Frame(kind, payload)
      ensures !ok && |payload| <= MAX_PAYLOAD ==> WroteProperPrefix(old(outgoing), outgoing, Frame(kind, payload))
      ensures |payload| > MAX_PAYLOAD ==> outgoing == old(outgoing) && sendPlan == old(sendPlan)
      ensures SmoothSends(old(sendPlan)) ==> SmoothSends(sendPlan) && (ok <==> |payload| <= MAX_PAYLOAD)
      ensures |payload| <= MAX_PAYLOAD ==> Failures(old(sendPlan)) == Failures(sendPlan) + if ok then 0 else 1
    {
      if |payload| > MAX_PAYLOAD {
        return false;
      }
      var header := [kind] + BE(|payload|, 4);
      ok := SendAll(header);
      if !ok {
        ghost var k :| 0 <= k < |header| && outgoing == old(outgoing) + header[..k];
        assert header[..k] == Frame(kind, payload)[..k];
        return;
      }
      if |payload| > 0 {
        ghost var begun := outgoing;
        ok := SendAll(payload);
        if !ok {
          ghost var k :| 0 <= k < |payload| && outgoing == begun + payload[..k];
          assert outgoing == old(outgoing) + Frame(kind, payload)[..5 + k];
          return;
        }
      }
      assert outgoing == old(outgoing) + Frame(kind, payload);
    }

    /** One protocol_send_* call. */
    method SendMessage(m: Message) returns (ok: bool)
      modifies this`outgoing, this`sendPlan
      ensures ok ==> Sendable(m) && outgoing == old(outgoing) + MessageFrame(m)
      ensures !Sendable(m) ==> outgoing == old(outgoing) && sendPlan == old(sendPlan)
      ensures !ok && Sendable(m) ==> WroteProperPrefix(old(outgoing), outgoing, MessageFrame(m))
      ensures SmoothSends(old(sendPlan)) ==> (ok <==> Sendable(m)) && SmoothSends(sendPlan)
      ensures Sendable(m) ==> Failures(old(sendPlan)) == Failures(sendPlan) + if ok then 0 else 1
    {
      var built, payload := Build(m);
      if !built {
        return false;
      }
      SendablePayloadFits(m);
      ok := SendFrame(Kind(m), payload);
    }

    /** `recv` of at most `len` bytes: empty is the end of the stream. */
    method Recv(len: nat) returns (ok: bool, data: seq<byte>)
      requires len > 0
      modifies this`incoming, this`recvPlan
      ensures |data| <= len && data <= old(incoming)
      ensures ok ==> (data == [] <==> old(incoming) == [])
      ensures incoming == if ok then old(incoming)[|data|..] else old(incoming)
      ensures Broken !in old(recvPlan) ==> ok && Broken !in recvPlan
      ensures Breaks(old(recvPlan)) == Breaks(recvPlan) + if ok then 0 else 1
    {
      var limit := len;
      data := [];
      if recvPlan != [] {
        match recvPlan[0] {
          case Gave(n) => limit := if n == 0 then 1 else if n < len then n else len;
          case Broken =>
            recvPlan := recvPlan[1..];
            return false, data;
        }
        recvPlan := recvPlan[1..];
      }
      var n := if limit < |incoming| then limit else |incoming|;
      ok, data := true, incoming[..n];
      incoming := incoming[n..];
    }

    /** `recv_all_bytes`: all the bytes, or a break or the end of the stream before they are complete. */
    method RecvAll(len: nat) returns (ok: bool, data: seq<byte>)
      modifies this`incoming, this`recvPlan
      ensures |incoming| <= |old(incoming)|
      ensures |data| <= |old(incoming)| && data == old(incoming)[..|data|] && incoming == old(incoming)[|data|..]
      ensures if ok then |data| == len else |data| < len
      ensures Broken !in old(recvPlan) ==> Broken !in recvPlan && (ok <==> |old(incoming)| >= len)
      ensures Breaks(old(recvPlan)) == Breaks(recvPlan) || (!ok && Breaks(old(recvPlan)) == Breaks(recvPlan) + 1)
      ensures !ok && Breaks(old(recvPlan)) == Breaks(recvPlan) ==> incoming == []
    {
      data := [];
      while |data| < len
        invariant |data| <= len && |data| <= |old(incoming)|
        invariant data == old(incoming)[..|data|] && incoming == old(incoming)[|data|..]
        invariant Broken !in old(recvPlan) ==> Broken !in recvPlan
        invariant Breaks(old(recvPlan)) == Breaks(recvPlan)
        decreases len - |data|
      {
        var got, more := Recv(len - |data|);
        if !got || more == [] {
          return false, data;
        }
        assert old(incoming)[..|data|] + old(incoming)[|data|..][..|more|] == old(incoming)[..|data| + |more|];
        data := data + more;
      }
      ok := true;
    }

    /** `protocol_recv_message`: decodes the frame at the front, or fails. */
    method RecvMessage() returns (ok: bool, r: Received)
      modifies this`incoming, this`recvPlan
      ensures |incoming| <= |old(incoming)|
      ensures ok ==> FrameReady(old(incoming))
      ensures ok ==> var n := HeaderLength(old(incoming));
                     && r == Parse(old(incoming)[0], old(incoming)[5..5 + n])
                     && incoming == old(incoming)[5 + n..]
      ensures Broken !in old(recvPlan) ==> Broken !in recvPlan && (ok <==> FrameReady(old(incoming)))
      ensures Breaks(old(recvPlan)) == Breaks(recvPlan) || (!ok && Breaks(old(recvPlan)) == Breaks(recvPlan) + 1)
      ensures Breaks(old(recvPlan)) == Breaks(recvPlan) ==> (ok <==> FrameReady(old(incoming)))
    {
      r := Received(MSG_ERROR, [], BLANK);
      var got, header := RecvAll(5);
      if !got {
        return false, r;
      }
      assert header[1..5] == old(incoming)[1..5];
      var n := FromBE(header[1..5]);
      if n > MAX_PAYLOAD {
        return false, r;
      }
      var payload := [];
      if n > 0 {
        got, payload := RecvAll(n);
        if !got {
          return false, r;
        }
      }
      assert old(incoming)[5..][..n] == old(incoming)[5..5 + n];
      assert old(incoming)[5..][n..] == old(incoming)[5 + n..];
      ok, r := true, Parse(header[0], payload);
    }

    /** A receiver that calls `protocol_recv_message` until it fails: it gets every frame, unless one of
        the receives breaks. */
    method RecvUntilFailure() returns (rs: seq<Received>)
      modifies this`incoming, this`recvPlan
      ensures Broken !in old(recvPlan) ==> rs == Frames(old(incoming))
      ensures Breaks(old(recvPlan)) == Breaks(recvPlan) || Breaks(old(recvPlan)) == Breaks(recvPlan) + 1
      ensures Breaks(old(recvPlan)) == Breaks(recvPlan) ==> rs == Frames(old(incoming))
      ensures exists later :: Frames(old(incoming)) == rs + later
    {
      rs := [];
      while true
        invariant Broken !in old(recvPlan) ==> Broken !in recvPlan
        invariant Breaks(old(recvPlan)) == Breaks(recvPlan)
        invariant Frames(old(incoming)) == rs + Frames(incoming)
        decreases |incoming|
      {
        ghost var waiting := incoming;
        var ok, r := RecvMessage();
        if !ok {
          NoFrame(rs, waiting);
          return;
        }
        OneFrame(rs, waiting);
        rs := rs + [r];
      }
    }
  }

  lemma NoFrame(rs: seq<Received>, s: seq<byte>)
    ensures !FrameReady(s) ==> rs + Frames(s) == rs
  {
  }

  lemma OneFrame(rs: seq<Received>, s: seq<byte>)
    requires FrameReady(s)
    ensures var n := HeaderLength(s); rs + Frames(s) == rs + [Parse(s[0], s[5..5 + n])] + Frames(s[5 + n..])
  {
    Associative(rs, [Parse(s[0], s[5..5 + HeaderLength(s)])], Frames(s[5 + HeaderLength(s)..]));
  }

  predicate AllSendable(ms: seq<Message>) {
    ms == [] || (Sendable(ms[0]) && AllSendable(ms[1..]))
  }

  lemma {:induction false} AllSendableMeans(ms: seq<Message>)
    ensures AllSendable(ms) <==> forall m :: m in ms ==> Sendable(m)
  {
    if ms != [] {
      AllSendableMeans(ms[1..]);
      assert ms == [ms[0]] + ms[1..];
    }
  }

  /** Sends a list of messages one after the other, stopping at the first failure. */
  method SendMessages(socket: Socket, ms: seq<Message>) returns (ok: bool)
    modifies socket`outgoing, socket`sendPlan
    ensures ok ==> socket.outgoing == old(socket.outgoing) + StreamOf(ms)
    ensures SmoothSends(old(socket.sendPlan)) ==> (ok <==> AllSendable(ms))
  {
    ok := true;
    if ms != [] {
      ok := socket.SendMessage(ms[0]);
      if ok {
        ok := SendMessages(socket, ms[1..]);
        StreamOfStep(ms, old(socket.outgoing));
      }
    }
  }

  lemma StreamOfStep(ms: seq<Message>, before: seq<byte>)
    requires ms != []
    ensures before + StreamOf(ms) == before + MessageFrame(ms[0]) + StreamOf(ms[1..])
  {
    assert FramesOf(ms)[1..] == FramesOf(ms[1..]);
    assert StreamOf(ms) == MessageFrame(ms[0]) + StreamOf(ms[1..]);
  }

  /** The whole way: any list of accepted messages sent under any schedule of partial and
      interrupted sends, and received under any schedule of partial receives, arrives complete
      and leaves nothing over; it arrives as sent if and only if every message survives. */
  method Transmit(ms: seq<Message>, sendPlan: seq<SendOutcome>, recvPlan: seq<RecvOutcome>)
    returns (ok: bool, rs: seq<Received>)
    requires SmoothSends(sendPlan) && Broken !in recvPlan
    ensures ok <==> forall m :: m in ms ==> Sendable(m)
    ensures ok ==> |rs| == |ms|
    ensures ok ==> (RecoverAll(rs) == Sent(ms) <==> forall m :: m in ms ==> Survives(m))
  {
    rs := [];
    AllSendableMeans(ms);
    var sender := new Socket([], sendPlan, []);
    ok := SendMessages(sender, ms);
    if ok {
      assert sender.outgoing == StreamOf(ms);
      var receiver := new Socket(sender.outgoing, [], recvPlan);
      rs := receiver.RecvUntilFailure();
      StreamRoundTrip(ms);
    }
  }
}
