/** The upload handlers of the protocol controller and the backup service, on their own fields. */
module BackupServer {
  import opened Basics
  import opened Bytes
  import opened FileContent
  import opened BackupState

  class Server {
    var deviceTokens: map<Text, Text>
    var activeUpload: map<Text, Text>
    var sessions: map<Text, Session>
    var files: map<Path, seq<byte>>
    var versions: seq<Version>

    constructor (files: map<Path, seq<byte>>, versions: seq<Version>)
      ensures View() == State(map[], map[], map[], files, versions)
    {
      deviceTokens, activeUpload, sessions := map[], map[], map[];
      this.files, this.versions := files, versions;
    }

    ghost function View(): State
      reads this
    {
      State(deviceTokens, activeUpload, sessions, files, versions)
    }

    method IsAuthorized(device: Text) returns (ok: bool)
      ensures ok <==> Authorized(View(), device)
      ensures ok <==> device != [] && device in deviceTokens && deviceTokens[device] != []
    {
      if device == [] { return false; }
      var token := if device in deviceTokens then deviceTokens[device] else [];
      ok := token != [];
    }

    method HandleBackupInitUpload(device: Text, request: InitRequest, now: nat, id: Text, token: Text)
      returns (ok: bool)
      modifies this
      ensures View() == Step(old(View()), InitUpload(device, request, now, id, token))
      ensures ok <==> Authorized(old(View()), device) && request.fileName != [] && request.fileSize > 0
    {
      var authorized := IsAuthorized(device);
      if !authorized { return false; }
      ok := PrepareUpload(device, request, now, id, token);
      if ok {
        activeUpload := activeUpload[id := token];
      }
    }

    method PrepareUpload(device: Text, request: InitRequest, now: nat, id: Text, token: Text) returns (ok: bool)
      requires device != []
      modifies this`files, this`sessions
      ensures ok <==> request.fileName != [] && request.fileSize > 0
      ensures !ok ==> files == old(files) && sessions == old(sessions)
      ensures ok ==> var session := NewUpload(old(View()), device, request, now, token);
                     && sessions == old(sessions)[id := session]
                     && files == if session.temp in old(files) then old(files) else old(files)[session.temp := []]
    {
      if request.fileName == [] || request.fileSize <= 0 { return false; }
      var safeName := Base(request.fileName);
      var logicalPath := request.logicalPath;
      if logicalPath == [] {
        logicalPath := safeName;
      }
      var finalPath := FinalPath(device, now, request.fileName);
      var tempPath := WithSuffix(finalPath, PART);
      var offset := 0;
      if tempPath in files {
        offset := |files[tempPath]|;
      } else {
        files := files[tempPath := []];
      }
      if offset > request.fileSize && request.fileSize > 0 {
        offset := request.fileSize;
      }
      sessions := sessions[id := Session(token, device, request.fileId, logicalPath, safeName, request.fileSize,
                                         Upload, false, tempPath, finalPath, offset)];
      ok := true;
    }

    method HandleBackupInitDownload(device: Text, fileName: Text, id: Text, token: Text) returns (ok: bool)
      modifies this
      ensures View() == Step(old(View()), InitDownload(device, fileName, id, token))
      ensures ok <==> Authorized(old(View()), device) && fileName != [] && Path(device, Base(fileName)) in old(files)
    {
      var authorized := IsAuthorized(device);
      if !authorized || fileName == [] { return false; }
      var finalPath := Path(device, Base(fileName));
      if finalPath !in files { return false; }
      sessions := sessions[id := Session(token, device, [], [], Base(fileName), |files[finalPath]|,
                                         Download, false, Path([], []), finalPath, 0)];
      ok := true;
    }

    /** The checks that chunk and done frames share, down to ValidateSession. */
    method FindUpload(device: Text, sid: Text, token: Text) returns (ok: bool)
      ensures ok <==> Accepts(View(), device, sid, token)
    {
      var authorized := IsAuthorized(device);
      if !authorized { return false; }
      if sid == [] || token == [] { return false; }
      if sid !in activeUpload || activeUpload[sid] != token { return false; }
      if sid !in sessions { return false; }
      if sessions[sid].token != token { return false; }
      ok := sessions[sid].direction == Upload;
    }

    method HandleFileChunk(device: Text, sid: Text, token: Text, offset: nat, chunkLen: nat, data: Option<seq<byte>>,
                           failed: Option<nat>)
      modifies this
      ensures View() == Step(old(View()), Chunk(device, sid, token, offset, chunkLen, data, failed))
    {
      var found := FindUpload(device, sid, token);
      if !found { return; }
      if data.None? || chunkLen == 0 { return; }
      var session := sessions[sid];
      if session.temp !in files { return; }
      files := files[session.temp := WriteAt(files[session.temp], offset, Landed(data.value, failed))];
      if failed.Some? { return; }
      Advance(sid, chunkLen);
    }

    method Advance(sid: Text, delta: nat)
      modifies this`sessions
      ensures sessions == if sid !in old(sessions) then old(sessions)
                          else old(sessions)[sid := old(sessions)[sid].(bytesDone := old(sessions)[sid].bytesDone + delta)]
    {
      if sid in sessions {
        sessions := sessions[sid := sessions[sid].(bytesDone := sessions[sid].bytesDone + delta)];
      }
    }

    method MarkCompleted(sid: Text)
      requires sid in sessions
      modifies this`sessions
      ensures sessions == old(sessions)[sid := old(sessions)[sid].(completed := true, bytesDone := old(sessions)[sid].fileSize)]
    {
      sessions := sessions[sid := sessions[sid].(completed := true, bytesDone := sessions[sid].fileSize)];
    }

    method HandleFileDone(device: Text, sid: Text, token: Text)
      modifies this
      ensures View() == Step(old(View()), Done(device, sid, token))
    {
      var found := FindUpload(device, sid, token);
      if !found { return; }
      MarkCompleted(sid);
      var ok := FinalizeUpload(sid);
      if ok {
        activeUpload := activeUpload - {sid};
      }
    }

    /** Renames the temp file and records the next version. */
    method FinalizeUpload(sid: Text) returns (ok: bool)
      requires sid in sessions && sessions[sid].direction == Upload
      requires sessions[sid].completed && sessions[sid].bytesDone == sessions[sid].fileSize
      modifies this`sessions, this`files, this`versions
      ensures sessions == old(sessions)
      ensures var session := sessions[sid];
              match Renamed(old(files), session.temp, session.final)
              case None => !ok && files == old(files) && versions == old(versions)
              case Some(moved) =>
                && ok && files == moved
                && versions == if session.logicalPath == [] then old(versions)
                               else old(versions) + [NextVersion(old(View()), session)]
    {
      var session := sessions[sid];
      if session.temp in files {
        files := (files - {session.temp})[session.final := files[session.temp]];
      } else {
        var alt := WithSuffix(session.final, DOT_PATH);
        if alt !in files { return false; }
        files := (files - {alt})[session.final := files[alt]];
      }
      sessions := sessions[sid := session.(completed := true, bytesDone := session.fileSize)];
      if session.logicalPath != [] {
        var max := NewestVersion(session.device, session.logicalPath);
        versions := versions + [Version(session.device, session.fileId, session.logicalPath, session.fileName,
                                        session.final.name, max + 1, session.fileSize)];
      }
      ok := true;
    }

    /** SELECT MAX(version), 0 for no rows. */
    method NewestVersion(device: Text, logicalPath: Text) returns (max: int)
      ensures max == MaxVersion(versions, device, logicalPath)
    {
      max := 0;
      for i := 0 to |versions|
        invariant max == MaxVersion(versions[..i], device, logicalPath)
      {
        var v := versions[i];
        assert versions[..i + 1][..i] == versions[..i];
        if v.device == device && v.logicalPath == logicalPath && v.version > max {
          max := v.version;
        }
      }
      assert versions[..|versions|] == versions;
    }
  }
}
