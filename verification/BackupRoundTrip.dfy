/** Upload and download put together: what an agent stored comes back. */
module BackupRoundTrip {
  import opened Bytes
  import opened Wire
  import opened Stream
  import opened FileContent
  import opened Chunking
  import opened BackupState
  import opened BackupSafety
  import opened UploadEndToEnd
  import opened Download

  // ---- Stored names are plain file names ------------------------------------------------------------

  lemma {:induction false} AfterLastSlashIsPlain(s: Text)
    ensures SLASH !in AfterLastSlash(s)
  {
    if s != [] && s[|s| - 1] != SLASH {
      AfterLastSlashIsPlain(s[..|s| - 1]);
    }
  }

  lemma {:induction false} AfterLastSlashOfPlain(s: Text)
    requires SLASH !in s
    ensures AfterLastSlash(s) == s
  {
    if s != [] {
      assert s[|s| - 1] in s;
      AfterLastSlashOfPlain(s[..|s| - 1]);
      assert s == s[..|s| - 1] + [s[|s| - 1]];
    }
  }

  lemma BaseOfPlain(s: Text)
    requires s != [] && SLASH !in s
    ensures Base(s) == s
  {
    assert s[|s| - 1] in s;
    AfterLastSlashOfPlain(s);
  }

  lemma {:induction false} AfterLastSlashBelow(dir: Text, name: Text)
    requires SLASH !in name
    ensures AfterLastSlash(dir + [SLASH] + name) == name
  {
    var path := dir + [SLASH] + name;
    if name == [] {
      assert path[|path| - 1] == SLASH;
    } else {
      var front := name[..|name| - 1];
      assert name[|name| - 1] in name;
      assert path[..|path| - 1] == dir + [SLASH] + front;
      AfterLastSlashBelow(dir, front);
      assert name == front + [name[|name| - 1]];
    }
  }

  /** The base name is the last part of a path, and slashes at its end do not matter. */
  lemma BaseIsLastPart(dir: Text, name: Text)
    requires name != [] && SLASH !in name
    ensures Base(dir + [SLASH] + name) == name && Base(dir + [SLASH] + name + [SLASH]) == name
  {
    var path := dir + [SLASH] + name;
    assert path[|path| - 1] == name[|name| - 1] && name[|name| - 1] in name;
    AfterLastSlashBelow(dir, name);
    assert (path + [SLASH])[..|path|] == path;
    assert TrimSlashes(path + [SLASH]) == path;
  }

  /** A stored name tells second and base name apart again. */
  lemma StoredNameTells(now: nat, fileName: Text)
    ensures var name, n := StoredName(now, fileName), |Digits(now)|;
            && n < |name| && name[n] == UNDERSCORE && UNDERSCORE !in name[..n]
            && DigitsValue(name[..n]) == now && name[n + 1..] == StoredBase(fileName)
  {
    DigitsDetermineNumber(now);
    var name, n := StoredName(now, fileName), |Digits(now)|;
    assert name[..n] == Digits(now);
  }

  lemma {:induction false} DigitsArePlain(n: nat)
    ensures SLASH !in Digits(n)
  {
    if n >= 10 {
      DigitsArePlain(n / 10);
    }
  }

  /** The name a file is stored under leads back to it. */
  lemma StoredNameIsPlain(now: nat, fileName: Text)
    ensures Base(StoredName(now, fileName)) == StoredName(now, fileName)
  {
    DigitsArePlain(now);
    AfterLastSlashIsPlain(TrimSlashes(fileName));
    BaseOfPlain(StoredName(now, fileName));
  }

  // ---- From the upload to the download ---------------------------------------------------------------

  /** Once the upload is finished, no active upload may touch its file. */
  lemma FinishedIsGuarded(s: State, u: Transfer, content: seq<byte>)
    requires Open(s, u, content) && Authorized(s, u.device)
    ensures Guarded(Step(s, Done(u.device, u.sid, u.token)), u.session.final)
  {
    var next := Step(s, Done(u.device, u.sid, u.token));
    OpenAccepts(s, u, content);
    forall sid | sid in next.active ensures IsUpload(next, sid) && u.session.final !in Footprint(next.sessions[sid]) {
      assert sid in s.active && sid != u.sid;
    }
  }

  lemma UploadLeavesGuarded(s: State, init: Event, size: u64, chunks: seq<seq<byte>>, ds: seq<Write>,
                            run: seq<Tagged>, verified: bool)
    requires UploadRun(s, init, size, chunks, ds, run, verified)
    requires LoginAccepted(init.token, verified) && StaysConnected(TransferOf(s, init), run, false)
    ensures Guarded(AfterUpload(s, init, run), TransferOf(s, init).session.final)
  {
    var u := TransferOf(s, init);
    RunKeepsOpen(s, init, size, chunks, ds, run, verified);
    ConnectedDeliversAll(Step(s, init), u, run, false);
    FinishedIsGuarded(BeforeDone(s, init, run), u, ApplyWrites(TempBefore(s, init), Delivered(Step(s, init), u, run)));
  }

  /** A download request for the stored name opens a session on the stored file. */
  lemma StoredNameOpens(s: State, device: Text, now: nat, fileName: Text, id: Text, token: Text)
    requires Authorized(s, device)
    requires FinalPath(device, now, fileName) in s.files
    ensures var next := Step(s, InitDownload(device, StoredName(now, fileName), id, token));
            && id in next.sessions && next.files == s.files
            && var session := next.sessions[id];
               && session.final == FinalPath(device, now, fileName) && session.fileName == StoredName(now, fileName)
               && session.fileSize == |s.files[session.final]| && session.direction == Direction.Download
               && session.token == token && session.device == device
  {
    StoredNameIsPlain(now, fileName);
  }

  /** The round trip. A source is uploaded, with whatever disconnects before the transfer connection's
      login and no failing file write; afterwards anything happens that starts no upload reaching the stored
      name; then the device asks for the recorded version by its stored name and downloads it into a new
      file. That file is what the chunks made of the temp file: the source exactly when its last read starts
      below 2^32 and the temp file was not longer. */
  lemma UploadedSourceComesBack(s: State, init: Event, size: u64, chunks: seq<seq<byte>>, ds: seq<Write>,
                                run: seq<Tagged>, verified: bool, later: seq<Event>,
                                id: Text, token: Text, length: u64, pieces: seq<seq<byte>>)
    requires UploadRun(s, init, size, chunks, ds, run, verified)
    requires LoginAccepted(init.token, verified) && StaysConnected(TransferOf(s, init), run, false) && WritesSucceed(OwnEvents(run))
    requires var stored, after := TransferOf(s, init).session.final, AfterUpload(s, init, run);
             && SparingRun(after, later, stored) && Authorized(Run(after, later), init.device)
             && NulFree(stored.name) && |stored.name| <= MAX_FILENAME
             && (stored in Run(after, later).files ==> Concat(pieces) == Run(after, later).files[stored])
    requires ChunksFit(id, token, Filled(pieces))
    ensures var versions := AfterUpload(s, init, run).versions;
            versions != [] && versions[|versions| - 1].storedName == StoredName(init.now, init.request.fileName)
    ensures var name := StoredName(init.now, init.request.fileName);
            var t := Step(Run(AfterUpload(s, init, run), later), InitDownload(init.device, name, id, token));
            && id in t.sessions
            && var stream := StreamOf(DownloadMessages(id, token, t.sessions[id].fileName, length, 0, Filled(pieces)));
               var file := AfterFrames(Frames(stream), Sink([], 0, 0, [], 0, Receiving)).file;
               && file == ApplyWrites(TempBefore(s, init), ChunkWrites(chunks, 0))
               && (LengthTells(s, init, chunks) ==> (file == Concat(chunks) <==> ChunksSuffice(TempBefore(s, init), chunks)))
  {
    var stored, after := TransferOf(s, init).session.final, AfterUpload(s, init, run);
    UploadStoresSource(s, init, size, chunks, ds, run, verified);
    UploadLeavesGuarded(s, init, size, chunks, ds, run, verified);
    SparedFileNeverChanges(after, later, stored);
    StoredNameOpens(Run(after, later), init.device, init.now, init.request.fileName, id, token);
    FilledKeepsContent(pieces);
    assert ContentFrom(Concat(pieces), 0) == Concat(pieces);
    DownloadReproducesExactly(Concat(pieces), 0, Filled(pieces), id, token, stored.name, length);
  }
}
