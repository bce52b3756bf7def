/** Payloads against the documented layouts: what arrives, and what any bytes decode to. */
module WireLayouts {
  import opened Basics
  import opened Bytes
  import opened Wire

  // ---- What arrives ------------------------------------------------------------------------------------

  /** A text without NUL of at least and at most these lengths. */
  predicate TextWithin(s: seq<byte>, low: nat, high: nat) {
    low <= |s| <= high && forall i :: 0 <= i < |s| ==> s[i] != 0
  }

  /** The messages that the documented limits allow, with the one length byte of chunk and done tokens. */
  predicate Allowed(m: Message) {
    match m
    case Login(device, token) => TextWithin(device, 1, 255) && TextWithin(token, 1, 1024)
    case Command(json) => 1 <= |json| <= 1048576
    case FileMeta(name, _) => TextWithin(name, 1, 512)
    case FileChunk(session, token, _, data) =>
      TextWithin(session, 0, 128) && TextWithin(token, 0, 255)
      && 1 <= |data| && 10 + |session| + |token| + |data| <= 1048576
    case FileDone(session, token) => TextWithin(session, 0, 128) && TextWithin(token, 0, 255)
    case Ack(_, text) => TextWithin(text, 0, 4096)
  }

  lemma NulFreeMeans(s: seq<byte>)
    ensures NulFree(s) <==> TextWithin(s, 0, |s|)
  {
  }

  lemma AllowedExactly(m: Message)
    ensures Allowed(m) <==> Sendable(m) && TextsNulFree(m) && TokenFits(m)
  {
    CutFixedPoint(m);
    match m
    case Login(d, t) => NulFreeMeans(d); NulFreeMeans(t);
    case Command(_) =>
    case FileMeta(n, _) => NulFreeMeans(n);
    case FileChunk(s, t, _, _) => NulFreeMeans(s); NulFreeMeans(t);
    case FileDone(s, t) => NulFreeMeans(s); NulFreeMeans(t);
    case Ack(_, text) => NulFreeMeans(text);
  }

  /** A message is accepted and received as it was sent if and only if the limits allow it. */
  lemma ArrivesExactly(m: Message)
    ensures Sendable(m) && Recover(Parse(Kind(m), Payload(m))) == Some(m) <==> Allowed(m)
  {
    AllowedExactly(m);
    if Sendable(m) {
      RoundTripExactly(m);
    }
  }

  lemma CStrTwice(s: seq<byte>)
    ensures CStr(CStr(s)) == CStr(s)
  {
    CStrFixedPoint(CStr(s));
  }

  /** What follows a NUL in a text argument makes no difference to a call. */
  lemma NulsCut(m: Message)
    ensures (Sendable(m) <==> Sendable(Cut(m))) && Payload(m) == Payload(Cut(m)) && TextsNulFree(Cut(m))
  {
    match m
    case Login(d, t) => CStrTwice(d); CStrTwice(t);
    case Command(_) =>
    case FileMeta(n, _) => CStrTwice(n);
    case FileChunk(s, t, _, _) => CStrTwice(s); CStrTwice(t);
    case FileDone(s, t) => CStrTwice(s); CStrTwice(t);
    case Ack(_, text) => CStrTwice(text);
  }

  // ---- What any bytes decode to ------------------------------------------------------------------------

  /** The payload begins with device and token behind their lengths. */
  predicate BeginsWithLogin(p: seq<byte>, d: seq<byte>, t: seq<byte>) {
    |d| <= 255 && |t| <= MAX_TOKEN && [|d|] + BE(|t|, 2) + d + t <= p
  }

  lemma LoginDecodes(p: seq<byte>, d: seq<byte>, t: seq<byte>)
    requires BeginsWithLogin(p, d, t)
    ensures ParseLogin(p) == BLANK.(device := CStr(d), token := CStr(t))
  {
    var tl := BE(|t|, 2);
    var front := [|d|] + tl + d + t;
    assert p == front + p[|front|..];
    LoginSlices(p, [|d|], tl, d, t, p[|front|..]);
    Capacities();
    FromBEInvertsBE(|t|, 2);
  }

  lemma LoginSlices(p: seq<byte>, dl: seq<byte>, tl: seq<byte>, d: seq<byte>, t: seq<byte>, rest: seq<byte>)
    requires |dl| == 1 && |tl| == 2 && p == dl + tl + d + t + rest
    ensures |p| >= 3 + |d| + |t| && p[0] == dl[0] && p[1..3] == tl
    ensures p[3..3 + |d|] == d && p[3 + |d|..3 + |d| + |t|] == t
  {
  }

  lemma LoginFound(p: seq<byte>)
    requires |p| >= 3 && |p| >= 3 + p[0] as int + FromBE(p[1..3]) && FromBE(p[1..3]) <= MAX_TOKEN
    ensures exists d, t :: BeginsWithLogin(p, d, t)
  {
    var n, m := p[0] as int, FromBE(p[1..3]);
    BEInvertsFromBE(p[1..3]);
    assert [p[0]] + p[1..3] + p[3..3 + n] + p[3 + n..3 + n + m] == p[..3 + n + m];
    assert BeginsWithLogin(p, p[3..3 + n], p[3 + n..3 + n + m]);
  }

  /** Any login payload decodes to the device and token it begins with, or to nothing. */
  lemma LoginFieldsAreTheLayout(p: seq<byte>)
    ensures forall d, t :: BeginsWithLogin(p, d, t) ==> Parse(MSG_LOGIN, p).fields == BLANK.(device := CStr(d), token := CStr(t))
    ensures (forall d, t :: !BeginsWithLogin(p, d, t)) ==> Parse(MSG_LOGIN, p).fields == BLANK
  {
    forall d, t | BeginsWithLogin(p, d, t) ensures ParseLogin(p) == BLANK.(device := CStr(d), token := CStr(t)) {
      LoginDecodes(p, d, t);
    }
    if ParseLogin(p) != BLANK {
      LoginFound(p);
    }
  }

  predicate BeginsWithMeta(p: seq<byte>, size: u64, n: seq<byte>) {
    |n| <= MAX_FILENAME && BE(|n|, 2) + BE(size, 8) + n <= p
  }

  lemma MetaDecodes(p: seq<byte>, size: u64, n: seq<byte>)
    requires BeginsWithMeta(p, size, n)
    ensures ParseFileMeta(p) == BLANK.(fileSize := size, fileName := CStr(n))
  {
    var nl, sl := BE(|n|, 2), BE(size, 8);
    var front := nl + sl + n;
    assert p == front + p[|front|..];
    MetaSlices(p, nl, sl, n, p[|front|..]);
    Capacities();
    FromBEInvertsBE(|n|, 2);
    FromBEInvertsBE(size, 8);
  }

  lemma MetaSlices(p: seq<byte>, nl: seq<byte>, sl: seq<byte>, n: seq<byte>, rest: seq<byte>)
    requires |nl| == 2 && |sl| == 8 && p == nl + sl + n + rest
    ensures |p| >= 10 + |n| && p[..2] == nl && p[2..10] == sl && p[10..10 + |n|] == n
  {
  }

  lemma MetaFound(p: seq<byte>)
    requires |p| >= 10 && FromBE(p[..2]) <= MAX_FILENAME && |p| >= 10 + FromBE(p[..2])
    ensures exists size: u64, n :: BeginsWithMeta(p, size, n)
  {
    var m := FromBE(p[..2]);
    BEInvertsFromBE(p[..2]);
    BEInvertsFromBE(p[2..10]);
    FromBEFits(p[2..10]);
    Capacities();
    var size: u64 := FromBE(p[2..10]);
    assert p[..2] + p[2..10] + p[10..10 + m] == p[..10 + m];
    assert BeginsWithMeta(p, size, p[10..10 + m]);
  }

  /** Any file meta payload decodes to the size and name it begins with, or to nothing. */
  lemma MetaFieldsAreTheLayout(p: seq<byte>)
    ensures forall size: u64, n :: BeginsWithMeta(p, size, n) ==>
              Parse(MSG_FILE_META, p).fields == BLANK.(fileSize := size, fileName := CStr(n))
    ensures (forall size: u64, n :: !BeginsWithMeta(p, size, n)) ==> Parse(MSG_FILE_META, p).fields == BLANK
  {
    forall size: u64, n | BeginsWithMeta(p, size, n) ensures ParseFileMeta(p) == BLANK.(fileSize := size, fileName := CStr(n)) {
      MetaDecodes(p, size, n);
    }
    if ParseFileMeta(p) != BLANK {
      MetaFound(p);
    }
  }

  predicate BeginsWithDone(p: seq<byte>, s: seq<byte>, t: seq<byte>) {
    |s| <= MAX_SESSION && |t| <= 255 && [|s|, |t|] + s + t <= p
  }

  lemma DoneDecodes(p: seq<byte>, s: seq<byte>, t: seq<byte>)
    requires BeginsWithDone(p, s, t)
    ensures ParseFileDone(p) == BLANK.(session := CStr(s), token := CStr(t))
  {
    var front := [|s|, |t|] + s + t;
    assert p == front + p[|front|..];
    SessionSlices(p, s, t, p[|front|..]);
  }

  lemma DoneFound(p: seq<byte>)
    requires HasSession(p, 0)
    ensures exists s, t :: BeginsWithDone(p, s, t)
  {
    var n, m := p[0] as int, p[1] as int;
    assert [p[0], p[1]] + p[2..2 + n] + p[2 + n..2 + n + m] == p[..2 + n + m];
    assert BeginsWithDone(p, p[2..2 + n], p[2 + n..2 + n + m]);
  }

  /** Any done payload decodes to the session and token it begins with, or to nothing. */
  lemma DoneFieldsAreTheLayout(p: seq<byte>)
    ensures forall s, t :: BeginsWithDone(p, s, t) ==> Parse(MSG_FILE_DONE, p).fields == BLANK.(session := CStr(s), token := CStr(t))
    ensures (forall s, t :: !BeginsWithDone(p, s, t)) ==> Parse(MSG_FILE_DONE, p).fields == BLANK
  {
    forall s, t | BeginsWithDone(p, s, t) ensures ParseFileDone(p) == BLANK.(session := CStr(s), token := CStr(t)) {
      DoneDecodes(p, s, t);
    }
    if ParseFileDone(p) != BLANK {
      DoneFound(p);
    }
  }

  predicate BeginsWithStatus(p: seq<byte>, code: u16, text: seq<byte>) {
    |text| <= MAX_MESSAGE && BE(code, 2) + BE(|text|, 2) + text <= p
  }

  lemma StatusDecodes(p: seq<byte>, code: u16, text: seq<byte>)
    requires BeginsWithStatus(p, code, text)
    ensures ParseStatus(p) == BLANK.(status := code, statusText := CStr(text))
  {
    var cl, ml := BE(code, 2), BE(|text|, 2);
    var front := cl + ml + text;
    assert p == front + p[|front|..];
    StatusSlices(p, cl, ml, text, p[|front|..]);
    Capacities();
    FromBEInvertsBE(code, 2);
    FromBEInvertsBE(|text|, 2);
  }

  lemma StatusSlices(p: seq<byte>, cl: seq<byte>, ml: seq<byte>, text: seq<byte>, rest: seq<byte>)
    requires |cl| == 2 && |ml| == 2 && p == cl + ml + text + rest
    ensures |p| >= 4 + |text| && p[..2] == cl && p[2..4] == ml && p[4..4 + |text|] == text
  {
  }

  lemma StatusFound(p: seq<byte>)
    requires |p| >= 4 && FromBE(p[2..4]) <= MAX_MESSAGE && |p| >= 4 + FromBE(p[2..4])
    ensures exists code: u16, text :: BeginsWithStatus(p, code, text)
  {
    var m := FromBE(p[2..4]);
    BEInvertsFromBE(p[..2]);
    BEInvertsFromBE(p[2..4]);
    FromBEFits(p[..2]);
    Capacities();
    var code: u16 := FromBE(p[..2]);
    assert p[..2] + p[2..4] + p[4..4 + m] == p[..4 + m];
    assert BeginsWithStatus(p, code, p[4..4 + m]);
  }

  lemma CodeDecodes(p: seq<byte>, code: u16)
    requires |p| >= 4 && BE(code, 2) <= p
    ensures FromBE(p[..2]) == code
  {
    Capacities();
    FromBEInvertsBE(code, 2);
    assert p[..2] == BE(code, 2);
  }

  /** Any acknowledgement or error payload of at least four bytes decodes to the code it begins with, and to
      the text behind it, or no text; a shorter one decodes to nothing. */
  lemma StatusFieldsAreTheLayout(p: seq<byte>, kind: byte)
    requires kind == MSG_ACK || kind == MSG_ERROR
    ensures forall code: u16, text :: BeginsWithStatus(p, code, text) ==>
              Parse(kind, p).fields == BLANK.(status := code, statusText := CStr(text))
    ensures (forall code: u16, text :: !BeginsWithStatus(p, code, text)) ==>
              forall code: u16 :: BE(code, 2) <= p && |p| >= 4 ==> Parse(kind, p).fields == BLANK.(status := code)
    ensures |p| < 4 ==> Parse(kind, p).fields == BLANK
  {
    forall code: u16, text | BeginsWithStatus(p, code, text) ensures ParseStatus(p) == BLANK.(status := code, statusText := CStr(text)) {
      StatusDecodes(p, code, text);
    }
    if |p| >= 4 && FromBE(p[2..4]) <= MAX_MESSAGE && |p| >= 4 + FromBE(p[2..4]) {
      StatusFound(p);
    }
    forall code: u16 | BE(code, 2) <= p && |p| >= 4 ensures FromBE(p[..2]) == code {
      CodeDecodes(p, code);
    }
  }

  /** Commands and unknown kinds decode to no fields at all. */
  lemma OtherKindsAreBlank(kind: byte, p: seq<byte>)
    requires kind !in {0x01, 0x03, 0x04, 0x05, 0x06, 0x7F}
    ensures Parse(kind, p).fields == BLANK
  {
  }
}
