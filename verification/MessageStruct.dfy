/** protocol_message_t: the fixed-size fields that protocol_recv_message fills in place. */
module MessageStruct {
  import opened Bytes
  import opened Wire

  class ProtocolMessage {
    var kind: byte
    var data: seq<byte>
    const deviceId: array<byte>
    const token: array<byte>
    const sessionId: array<byte>
    const fileName: array<byte>
    const statusMsg: array<byte>
    var fileSize: nat
    var chunkOffset: nat
    var chunkLen: nat
    var statusCode: nat

    ghost predicate Valid()
      reads this
    {
      && deviceId.Length == MAX_DEVICE_ID + 1 && token.Length == MAX_TOKEN + 1
      && sessionId.Length == MAX_SESSION + 1 && fileName.Length == MAX_FILENAME + 1
      && statusMsg.Length == MAX_MESSAGE + 1
      && deviceId != token && deviceId != sessionId && deviceId != fileName && deviceId != statusMsg
      && token != sessionId && token != fileName && token != statusMsg
      && sessionId != fileName && sessionId != statusMsg && fileName != statusMsg
    }

    /** The fields as C.GoString reads them. */
    ghost function View(): Fields
      reads this, deviceId, token, sessionId, fileName, statusMsg
    {
      Fields(CStr(deviceId[..]), CStr(token[..]), CStr(sessionId[..]), CStr(fileName[..]),
             fileSize, chunkOffset, chunkLen, statusCode, CStr(statusMsg[..]))
    }

    constructor ()
      ensures Valid()
      ensures fresh(deviceId) && fresh(token) && fresh(sessionId) && fresh(fileName) && fresh(statusMsg)
    {
      kind, data := MSG_ERROR, [];
      deviceId := new byte[MAX_DEVICE_ID + 1];
      token := new byte[MAX_TOKEN + 1];
      sessionId := new byte[MAX_SESSION + 1];
      fileName := new byte[MAX_FILENAME + 1];
      statusMsg := new byte[MAX_MESSAGE + 1];
      fileSize, chunkOffset, chunkLen, statusCode := 0, 0, 0, 0;
    }

    /** Clears every field, as memset does. */
    method Clear()
      requires Valid()
      modifies this, deviceId, token, sessionId, fileName, statusMsg
      ensures View() == BLANK
    {
      fileSize, chunkOffset, chunkLen, statusCode := 0, 0, 0, 0;
      SetText(deviceId, []);
      SetText(token, []);
      SetText(sessionId, []);
      SetText(fileName, []);
      SetText(statusMsg, []);
    }

    /** What protocol_recv_message does once the payload has arrived: any payload is decoded within
        the fixed fields, and the result is what `Parse` says. */
    method Decode(frameKind: byte, p: seq<byte>)
      requires Valid()
      modifies this, deviceId, token, sessionId, fileName, statusMsg
      ensures Received(kind, data, View()) == Parse(frameKind, p)
    {
      Clear();
      kind, data := frameKind, p;
      if kind == MSG_LOGIN {
        DecodeLogin(p);
      } else if kind == MSG_FILE_META {
        DecodeFileMeta(p);
      } else if kind == MSG_FILE_CHUNK {
        DecodeFileChunk(p);
      } else if kind == MSG_FILE_DONE {
        DecodeFileDone(p);
      } else if kind == MSG_ACK || kind == MSG_ERROR {
        DecodeStatus(p);
      }
    }

    method DecodeLogin(p: seq<byte>)
      requires Valid() && View() == BLANK
      modifies deviceId, token
      ensures View() == ParseLogin(p)
    {
      if |p| < 3 { return; }
      var devLen, tokenLen := p[0] as nat, FromBE(p[1..3]);
      if |p| < 3 + devLen + tokenLen { return; }
      if devLen > MAX_DEVICE_ID || tokenLen > MAX_TOKEN { return; }
      SetText(deviceId, p[3..3 + devLen]);
      SetText(token, p[3 + devLen..3 + devLen + tokenLen]);
    }

    method DecodeFileMeta(p: seq<byte>)
      requires Valid() && View() == BLANK
      modifies this`fileSize, fileName
      ensures View() == ParseFileMeta(p)
    {
      if |p| < 2 + 8 { return; }
      var nameLen := FromBE(p[..2]);
      if nameLen > MAX_FILENAME { return; }
      if |p| < 2 + 8 + nameLen { return; }
      fileSize := FromBE(p[2..10]);
      SetText(fileName, p[10..10 + nameLen]);
    }

    method DecodeFileChunk(p: seq<byte>)
      requires Valid() && View() == BLANK
      modifies this`chunkOffset, this`chunkLen, sessionId, token
      ensures View() == ParseFileChunk(p)
    {
      if |p| < 2 { return; }
      var sidLen, tokLen := p[0] as nat, p[1] as nat;
      if sidLen > MAX_SESSION || tokLen > MAX_TOKEN { return; }
      var pos := 2;
      if |p| < pos + sidLen + tokLen + 8 { return; }
      SetText(sessionId, p[pos..pos + sidLen]);
      pos := pos + sidLen;
      SetText(token, p[pos..pos + tokLen]);
      pos := pos + tokLen;
      assert pos == SessionEnd(p);
      chunkOffset := FromBE(p[pos..pos + 4]);
      chunkLen := FromBE(p[pos + 4..pos + 8]);
    }

    method DecodeFileDone(p: seq<byte>)
      requires Valid() && View() == BLANK
      modifies sessionId, token
      ensures View() == ParseFileDone(p)
    {
      if |p| < 2 { return; }
      var sidLen, tokLen := p[0] as nat, p[1] as nat;
      if sidLen > MAX_SESSION || tokLen > MAX_TOKEN { return; }
      var pos := 2;
      if |p| < pos + sidLen + tokLen { return; }
      SetText(sessionId, p[pos..pos + sidLen]);
      pos := pos + sidLen;
      SetText(token, p[pos..pos + tokLen]);
    }

    method DecodeStatus(p: seq<byte>)
      requires Valid() && View() == BLANK
      modifies this`statusCode, statusMsg
      ensures View() == ParseStatus(p)
    {
      if |p| < 4 { return; }
      statusCode := FromBE(p[..2]);
      var textLen := FromBE(p[2..4]);
      if textLen > MAX_MESSAGE { return; }
      if |p| < 4 + textLen { return; }
      SetText(statusMsg, p[4..4 + textLen]);
    }
  }

  /** memcpy of a field and its terminating NUL. */
  method SetText(dst: array<byte>, src: seq<byte>)
    requires |src| < dst.Length
    modifies dst
    ensures CStr(dst[..]) == CStr(src)
  {
    Memcpy(dst, 0, src);
    assert dst[..|src|] == src;
    dst[|src|] := 0;
    assert dst[..] == src + [0] + dst[|src| + 1..];
    CStrTerminated(src, dst[|src| + 1..]);
  }
}
