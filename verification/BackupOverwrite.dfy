/** When an accepted upload can change a file that is already recorded as a version. */
module BackupOverwrite {
  import opened Basics
  import opened Bytes
  import opened FileContent
  import opened BackupState
  import opened BackupSafety

  // ---- One upload of one chunk ---------------------------------------------------------------------

  /** The open session of an upload that `e` starts, and its files. */
  predicate Opened(s: State, e: Event, upload: Session) {
    && e.InitUpload? && e.id != [] && e.token != [] && Authorized(s, e.device)
    && e.id in s.active && s.active[e.id] == e.token
    && e.id in s.sessions && SameUpload(s.sessions[e.id], upload)
    && upload.token == e.token && upload.direction == Upload
    && upload.final.name + PART == upload.temp.name && upload.temp.device == upload.final.device
  }

  lemma InitOpens(s: State, e: Event)
    requires InitAccepted(s, e) && e.id != [] && e.token != []
    ensures var upload := NewUpload(s, e.device, e.request, e.now, e.token);
            Opened(Step(s, e), e, upload) && upload.temp in Step(s, e).files
            && Step(s, e).files[upload.temp] == if upload.temp in s.files then s.files[upload.temp] else []
  {
  }

  function OneChunk(e: Event, data: seq<byte>): Event
    requires e.InitUpload?
  {
    Chunk(e.device, e.id, e.token, 0, |data|, Some(data), None)
  }

  /** The same request once more, in the same second, under another id and token. */
  function Again(e: Event, id: Text, token: Text): Event
    requires e.InitUpload?
  {
    InitUpload(e.device, e.request, e.now, id, token)
  }

  function DoneFor(e: Event): Event
    requires e.InitUpload?
  {
    Done(e.device, e.id, e.token)
  }

  lemma ChunkWritesTemp(s: State, e: Event, upload: Session, data: seq<byte>)
    requires Opened(s, e, upload) && upload.temp in s.files && data != []
    ensures var next := Step(s, OneChunk(e, data));
            && Opened(next, e, upload) && next.files == s.files[upload.temp := WriteAt(s.files[upload.temp], 0, data)]
            && next.tokens == s.tokens && next.versions == s.versions
  {
  }

  lemma DoneMovesTemp(s: State, e: Event, upload: Session)
    requires Opened(s, e, upload) && upload.temp in s.files
    ensures var next := Step(s, DoneFor(e));
            && next.files == (s.files - {upload.temp})[upload.final := s.files[upload.temp]]
            && next.tokens == s.tokens && next.active == s.active - {e.id}
            && (forall sid :: sid != e.id && sid in s.sessions ==> sid in next.sessions && next.sessions[sid] == s.sessions[sid])
            && (upload.logicalPath != [] ==>
                  |next.versions| == |s.versions| + 1
                  && PathOf(next.versions[|s.versions|]) == Path(upload.device, upload.final.name))
  {
  }

  /** A long enough write changes any file. */
  lemma LongWriteChanges(file: seq<byte>, other: seq<byte>, data: seq<byte>)
    requires |data| > |other|
    ensures WriteAt(file, 0, data) != other
  {
    assert |WriteAt(file, 0, data)| >= |data|;
  }

  function Ones(n: nat): (data: seq<byte>)
    ensures |data| == n
  {
    seq(n, i => 1)
  }

  // ---- The later runs ---------------------------------------------------------------------------------

  /** New ids are new, and an upload that starts either has the given files or leaves `p` alone. */
  predicate Allowed(s: State, e: Event, p: Path, files: set<Path>) {
    NewIds(s, e) && (InitAccepted(s, e) ==> p !in NewFootprint(s, e) || NewFootprint(s, e) == files)
  }

  ghost predicate AllowedRun(s: State, es: seq<Event>, p: Path, files: set<Path>)
    decreases |es|
  {
    es == [] || (Allowed(s, es[0], p, files) && AllowedRun(Step(s, es[0]), es[1..], p, files))
  }

  lemma {:induction false} AllowedRunSpares(s: State, es: seq<Event>, p: Path, files: set<Path>)
    requires AllowedRun(s, es, p, files) && p !in files
    ensures SparingRun(s, es, p)
    decreases |es|
  {
    if es != [] {
      AllowedRunSpares(Step(s, es[0]), es[1..], p, files);
    }
  }

  lemma AllowedOne(s: State, a: Event, p: Path, files: set<Path>)
    requires Allowed(s, a, p, files)
    ensures AllowedRun(s, [a], p, files) && Run(s, [a]) == Step(s, a)
  {
    assert [a][1..] == [];
    assert Run(Step(s, a), []) == Step(s, a);
    assert AllowedRun(Step(s, a), [], p, files);
  }

  lemma AllowedFirst(s: State, a: Event, es: seq<Event>, p: Path, files: set<Path>)
    requires Allowed(s, a, p, files) && AllowedRun(Step(s, a), es, p, files)
    ensures AllowedRun(s, [a] + es, p, files) && Run(s, [a] + es) == Run(Step(s, a), es)
  {
    assert ([a] + es)[1..] == es;
  }

  /** A run that changes the file, for one of the upload's own names. */
  ghost predicate Changes(s: State, es: seq<Event>, p: Path, files: set<Path>, before: State) {
    AllowedRun(s, es, p, files) && !SameFile(before, Run(s, es), p)
  }

  lemma TempIsOverwritten(s: State, e: Event, upload: Session, p: Path, before: State) returns (es: seq<Event>)
    requires Opened(s, e, upload) && upload.temp in s.files && p == upload.temp && p in before.files
    ensures Changes(s, es, p, Footprint(upload), before)
  {
    var data := Ones(|before.files[p]| + 1);
    ChunkWritesTemp(s, e, upload, data);
    LongWriteChanges(s.files[upload.temp], before.files[p], data);
    AllowedOne(s, OneChunk(e, data), p, Footprint(upload));
    es := [OneChunk(e, data)];
  }

  lemma FinalIsOverwritten(s: State, e: Event, upload: Session, p: Path, before: State) returns (es: seq<Event>)
    requires Opened(s, e, upload) && upload.temp in s.files && p == upload.final && p in before.files
    ensures Changes(s, es, p, Footprint(upload), before)
  {
    var data := Ones(|before.files[p]| + 1);
    var next := Step(s, OneChunk(e, data));
    ChunkWritesTemp(s, e, upload, data);
    LongWriteChanges(s.files[upload.temp], before.files[p], data);
    DoneMovesTemp(next, e, upload);
    AllowedOne(next, DoneFor(e), p, Footprint(upload));
    AllowedFirst(s, OneChunk(e, data), [DoneFor(e)], p, Footprint(upload));
    es := [OneChunk(e, data)] + [DoneFor(e)];
  }

  /** A second upload with the same files finds its temp file gone and takes the fallback file. */
  lemma FallbackIsTaken(s: State, e: Event, second: Event, upload: Session)
    requires Opened(s, e, upload) && Opened(s, second, upload) && second.id != e.id
    requires upload.temp in s.files && WithSuffix(upload.final, DOT_PATH) in s.files
    ensures WithSuffix(upload.final, DOT_PATH) !in Step(Step(s, DoneFor(e)), DoneFor(second)).files
  {
    var alt := WithSuffix(upload.final, DOT_PATH);
    assert |alt.name| == |upload.final.name| + 5 && |upload.temp.name| == |upload.final.name| + 5;
    assert alt.name[|alt.name| - 1] == 104 && upload.temp.name[|upload.temp.name| - 1] == 116;
    DoneMovesTemp(s, e, upload);
  }

  lemma NewIdExists(s: State) returns (id: Text)
    ensures id !in s.sessions && id != []
  {
    var bound := LongestId(s.sessions.Keys);
    id := Ones(bound + 1);
  }

  lemma {:induction false} LongestId(ids: set<Text>) returns (n: nat)
    ensures forall id :: id in ids ==> |id| <= n
  {
    if ids == {} {
      n := 0;
    } else {
      var id :| id in ids;
      var rest := LongestId(ids - {id});
      n := Max(rest, |id|);
    }
  }

  lemma SecondOpens(s: State, e: Event, second: Event, upload: Session)
    requires Opened(s, e, upload) && InitAccepted(s, second) && second.id !in s.sessions
    requires second.id != [] && second == Again(e, second.id, e.token)
    requires SameUpload(NewUpload(s, e.device, e.request, e.now, e.token), upload)
    ensures Opened(Step(s, second), e, upload) && Opened(Step(s, second), second, upload)
    ensures forall p :: p in s.files ==> p in Step(s, second).files
  {
  }

  lemma FallbackIsOverwritten(s: State, e: Event, upload: Session, p: Path, before: State) returns (es: seq<Event>)
    requires Opened(s, e, upload) && InitAccepted(s, e) && upload.temp in s.files
    requires SameUpload(NewUpload(s, e.device, e.request, e.now, e.token), upload)
    requires p == WithSuffix(upload.final, DOT_PATH) && p in s.files && p in before.files
    ensures Changes(s, es, p, Footprint(upload), before)
  {
    var id := NewIdExists(s);
    var second := Again(e, id, e.token);
    var t := Step(s, second);
    SecondOpens(s, e, second, upload);
    FallbackIsTaken(t, e, second, upload);
    AllowedOne(Step(t, DoneFor(e)), DoneFor(second), p, Footprint(upload));
    AllowedFirst(t, DoneFor(e), [DoneFor(second)], p, Footprint(upload));
    AllowedFirst(s, second, [DoneFor(e)] + [DoneFor(second)], p, Footprint(upload));
    es := [second] + ([DoneFor(e)] + [DoneFor(second)]);
  }

  lemma ReachedFileCanChange(s: State, e: Event, p: Path) returns (es: seq<Event>)
    requires InitAccepted(s, e) && e.id != [] && e.token != [] && p in s.files && p in NewFootprint(s, e)
    ensures Changes(Step(s, e), es, p, NewFootprint(s, e), s)
  {
    var t, upload := Step(s, e), NewUpload(s, e.device, e.request, e.now, e.token);
    InitOpens(s, e);
    if p == upload.temp {
      es := TempIsOverwritten(t, e, upload, p, s);
    } else if p == upload.final {
      es := FinalIsOverwritten(t, e, upload, p, s);
    } else {
      es := FallbackIsOverwritten(t, e, upload, p, s);
    }
  }

  /** If the run after the accepted request is an allowed one, the file is what it was before it. */
  ghost predicate Survives(s: State, e: Event, es: seq<Event>, p: Path)
    requires e.InitUpload?
  {
    AllowedRun(Step(s, e), es, p, NewFootprint(s, e)) ==> SameFile(s, Run(Step(s, e), es), p)
  }

  lemma ReachedByNameExactly(s: State, p: Path, e: Event)
    requires e.InitUpload?
    ensures p in NewFootprint(s, e) <==> p.device == e.device && Reaches(p.name, StoredName(e.now, e.request.fileName))
  {
    var final := FinalPath(e.device, e.now, e.request.fileName);
    assert p in NewFootprint(s, e) <==> p == final || p == WithSuffix(final, PART) || p == WithSuffix(final, DOT_PATH);
  }

  /** A finished file under one more upload, exactly. No active upload may touch the file, as holds of every
      recorded version of a safe server, and an upload request with a new id is accepted. No later run whose
      other uploads leave the file alone, or repeat this one, changes it if and only if the file is not stored
      for the same device under the new upload's stored name, bare or with the ending of its temp or
      fallback file. */
  lemma RecordedFileSurvivesExactly(s: State, p: Path, e: Event)
    requires Guarded(s, p) && p in s.files
    requires InitAccepted(s, e) && NewIds(s, e) && e.id != [] && e.token != []
    ensures (forall es :: Survives(s, e, es, p)) <==>
            !(p.device == e.device && Reaches(p.name, StoredName(e.now, e.request.fileName)))
  {
    var files := NewFootprint(s, e);
    ReachedByNameExactly(s, p, e);
    if p in files {
      var es := ReachedFileCanChange(s, e, p);
      assert !Survives(s, e, es, p);
    } else {
      SparingStep(s, e, p);
      forall es ensures Survives(s, e, es, p) {
        if AllowedRun(Step(s, e), es, p, files) {
          AllowedRunSpares(Step(s, e), es, p, files);
          SparedFileNeverChanges(Step(s, e), es, p);
        }
      }
    }
  }

  /** The same condition in terms of the two requests: the same device, the same second, and the one
      base name is the other, bare or with such an ending. */
  lemma StoredNamesReachExactly(stored: nat, name: Text, now: nat, other: Text)
    ensures Reaches(StoredName(stored, name), StoredName(now, other)) <==>
            stored == now && Reaches(StoredBase(name), StoredBase(other))
  {
    StoredNamesEqualExactly(stored, name, now, other, []);
    StoredNamesEqualExactly(stored, name, now, other, PART);
    StoredNamesEqualExactly(stored, name, now, other, DOT_PATH);
    NothingAppended(StoredName(now, other));
    NothingAppended(StoredBase(other));
  }

  lemma StoredNamesEqualExactly(stored: nat, name: Text, now: nat, other: Text, suffix: Text)
    ensures StoredName(stored, name) == StoredName(now, other) + suffix <==>
            stored == now && StoredBase(name) == StoredBase(other) + suffix
  {
    var device: Text := [];
    PathsEqualExactly(device, stored, name, [], device, now, other, suffix);
    NoSuffix(FinalPath(device, stored, name));
    NothingAppended(StoredBase(name));
    assert WithSuffix(FinalPath(device, now, other), suffix) == Path(device, StoredName(now, other) + suffix);
  }

  lemma NothingAppended(s: Text)
    ensures s + [] == s
  {
  }

  /** A request for "/" has the temp file ".part" behind its time stamp, which is also where an upload of
      ".part" in the same second is stored. */
  lemma SlashMeetsDotPart(now: nat)
    ensures Reaches(StoredName(now, PART), StoredName(now, [SLASH]))
  {
    assert TrimSlashes([SLASH]) == [] by {
      assert [SLASH][..0] == [];
    }
    assert StoredBase([SLASH]) == [];
    PartIsItsOwnBase();
    assert [] + PART == PART;
    StoredNamesReachExactly(now, PART, now, [SLASH]);
  }

  lemma PartIsItsOwnBase()
    ensures Base(PART) == PART
  {
    assert TrimSlashes(PART) == PART;
    assert PART[..4] == [46, 112, 97, 114] && PART[..4][..3] == [46, 112, 97] && PART[..4][..3][..2] == [46, 112];
    assert [46, 112][..1] == [46] && [46][..0] == [];
    assert AfterLastSlash([]) == [] && AfterLastSlash([46]) == [46] && AfterLastSlash([46, 112]) == [46, 112];
    assert AfterLastSlash([46, 112, 97]) == [46, 112, 97] && AfterLastSlash([46, 112, 97, 114]) == [46, 112, 97, 114];
  }

  // ---- The overwrite itself --------------------------------------------------------------------------------

  function OneChunkUpload(e: Event, data: seq<byte>): seq<Event>
    requires e.InitUpload?
  {
    [e, OneChunk(e, data), DoneFor(e)]
  }

  lemma OneChunkUploadStores(s: State, e: Event, data: seq<byte>)
    requires InitAccepted(s, e) && e.id != [] && e.token != [] && data != []
    requires WithSuffix(FinalPath(e.device, e.now, e.request.fileName), PART) !in s.files
    ensures var after, final := Run(s, OneChunkUpload(e, data)), FinalPath(e.device, e.now, e.request.fileName);
            && final in after.files && after.files[final] == data && WithSuffix(final, PART) !in after.files
            && after.tokens == s.tokens
            && |after.versions| == |s.versions| + 1 && PathOf(after.versions[|s.versions|]) == final
  {
    LogicalPathIsNotEmpty(s, e);
    var upload := NewUpload(s, e.device, e.request, e.now, e.token);
    var s1 := Step(s, e);
    var s2 := Step(s1, OneChunk(e, data));
    InitOpens(s, e);
    ChunkWritesTemp(s1, e, upload, data);
    WriteFromStart([], data);
    DoneMovesTemp(s2, e, upload);
    var es := OneChunkUpload(e, data);
    assert es[1..] == [es[1], es[2]] && es[1..][1..] == [es[2]] && es[2..] == [es[2]];
    assert Run(s2, [es[2]]) == Run(Step(s2, es[2]), []);
    assert Run(s, es) == Step(s2, es[2]);
  }

  /** The overwrite: a second upload of the same name by the same device in the same second replaces the
      file that the first one left and recorded, whatever the two contain. */
  lemma SameSecondOverwrites(s: State, first: Event, data1: seq<byte>, id: Text, token: Text, data2: seq<byte>)
    requires InitAccepted(s, first) && first.id != [] && first.token != [] && data1 != []
    requires WithSuffix(FinalPath(first.device, first.now, first.request.fileName), PART) !in s.files
    requires id != [] && token != [] && data2 != []
    ensures var final := FinalPath(first.device, first.now, first.request.fileName);
            var t := Run(s, OneChunkUpload(first, data1));
            var u := Run(t, OneChunkUpload(Again(first, id, token), data2));
            && |t.versions| == |s.versions| + 1 && PathOf(t.versions[|s.versions|]) == final
            && final in t.files && final in u.files && t.files[final] == data1 && u.files[final] == data2
  {
    OneChunkUploadStores(s, first, data1);
    OneChunkUploadStores(Run(s, OneChunkUpload(first, data1)), Again(first, id, token), data2);
  }
}
