/** What holds over every run of backend events: version numbering and the safety of finished files. */
module BackupSafety {
  import opened Bytes
  import opened BackupState

  // ---- Version history ----------------------------------------------------------------------

  /** The version numbers of a device and logical path in creation order. */
  function History(vs: seq<Version>, device: Text, logicalPath: Text): seq<int> {
    if vs == [] then [] else
    var last := vs[|vs| - 1];
    History(vs[..|vs| - 1], device, logicalPath)
    + if last.device == device && last.logicalPath == logicalPath then [last.version] else []
  }

  predicate OneToN(h: seq<int>) {
    forall i :: 0 <= i < |h| ==> h[i] == i + 1
  }

  ghost predicate AllHistoriesOneToN(vs: seq<Version>) {
    forall device, logicalPath :: OneToN(History(vs, device, logicalPath))
  }

  lemma {:induction false} MaxOfOneToN(vs: seq<Version>, device: Text, logicalPath: Text)
    requires OneToN(History(vs, device, logicalPath))
    ensures MaxVersion(vs, device, logicalPath) == |History(vs, device, logicalPath)|
  {
    if vs != [] {
      var h, earlier := History(vs, device, logicalPath), History(vs[..|vs| - 1], device, logicalPath);
      assert forall i :: 0 <= i < |earlier| ==> earlier[i] == h[i];
      assert h != [] ==> h[|h| - 1] == |h|;
      MaxOfOneToN(vs[..|vs| - 1], device, logicalPath);
    }
  }

  lemma DoneExtendsHistory(s: State, e: Event, device: Text, logicalPath: Text)
    requires e.Done? && AllHistoriesOneToN(s.versions)
    ensures OneToN(History(AfterDone(s, e).versions, device, logicalPath))
  {
    var after := AfterDone(s, e).versions;
    assert OneToN(History(s.versions, device, logicalPath));
    if after != s.versions {
      var row := after[|after| - 1];
      assert after[..|after| - 1] == s.versions;
      if row.device == device && row.logicalPath == logicalPath {
        MaxOfOneToN(s.versions, device, logicalPath);
      } else {
        assert History(after, device, logicalPath) == History(s.versions, device, logicalPath);
      }
    }
  }

  /** Version history: whatever frames and requests arrive in whatever order, the versions of
      every device and logical path in creation order are 1, 2, ..., n. */
  lemma {:induction false} VersionsAreNumbered(s: State, es: seq<Event>)
    requires AllHistoriesOneToN(s.versions)
    ensures AllHistoriesOneToN(Run(s, es).versions)
    decreases |es|
  {
    if es != [] {
      var next := Step(s, es[0]);
      if es[0].Done? {
        forall device, logicalPath ensures OneToN(History(next.versions, device, logicalPath)) {
          DoneExtendsHistory(s, es[0], device, logicalPath);
        }
      }
      VersionsAreNumbered(next, es[1..]);
    }
  }

  // ---- The row a finished upload leaves -----------------------------------------------------------

  predicate SamePath(v: Version, device: Text, logicalPath: Text) {
    v.device == device && v.logicalPath == logicalPath
  }

  /** The number after all those of the device and logical path. */
  ghost predicate IsNextNumber(n: int, vs: seq<Version>, device: Text, logicalPath: Text) {
    && n >= 1
    && (forall i :: 0 <= i < |vs| && SamePath(vs[i], device, logicalPath) ==> vs[i].version < n)
    && (n > 1 ==> exists i :: 0 <= i < |vs| && SamePath(vs[i], device, logicalPath) && vs[i].version == n - 1)
  }

  lemma {:induction false} NewestIsLargest(vs: seq<Version>, device: Text, logicalPath: Text)
    ensures IsNextNumber(MaxVersion(vs, device, logicalPath) + 1, vs, device, logicalPath)
  {
    if vs != [] {
      var front, n := vs[..|vs| - 1], MaxVersion(vs, device, logicalPath);
      NewestIsLargest(front, device, logicalPath);
      if n > 0 && n == MaxVersion(front, device, logicalPath) {
        var i :| 0 <= i < |front| && SamePath(front[i], device, logicalPath) && front[i].version == n;
        assert vs[i] == front[i];
      }
    }
  }

  lemma NextNumberIsUnique(n: int, m: int, vs: seq<Version>, device: Text, logicalPath: Text)
    requires IsNextNumber(n, vs, device, logicalPath) && IsNextNumber(m, vs, device, logicalPath)
    ensures n == m
  {
  }

  /** Where histories are 1 to n, the next number is one more than their length. */
  lemma NextNumberCounts(n: int, vs: seq<Version>, device: Text, logicalPath: Text)
    requires AllHistoriesOneToN(vs) && IsNextNumber(n, vs, device, logicalPath)
    ensures n == |History(vs, device, logicalPath)| + 1
  {
    assert OneToN(History(vs, device, logicalPath));
    MaxOfOneToN(vs, device, logicalPath);
    NewestIsLargest(vs, device, logicalPath);
    NextNumberIsUnique(n, MaxVersion(vs, device, logicalPath) + 1, vs, device, logicalPath);
  }

  /** The path under which an upload is recorded: the requested one, else the base name of the file. */
  function RecordedPath(request: InitRequest): Text {
    if request.logicalPath != [] then request.logicalPath else Base(request.fileName)
  }

  /** The row says what the request asked for. */
  predicate RowOf(row: Version, e: Event)
    requires e.InitUpload?
  {
    && row.device == e.device && row.fileId == e.request.fileId && row.logicalPath == RecordedPath(e.request)
    && row.fileName == Base(e.request.fileName) && row.size == e.request.fileSize
    && row.storedName == StoredName(e.now, e.request.fileName)
  }

  /** One row was added, the request's own, under the next number of its path. */
  ghost predicate Records(before: seq<Version>, after: seq<Version>, e: Event)
    requires e.InitUpload?
  {
    && |after| == |before| + 1 && after[..|before|] == before
    && RowOf(after[|before|], e)
    && IsNextNumber(after[|before|].version, before, e.device, RecordedPath(e.request))
  }

  /** The file moves from one path to the other, and no other file changes. */
  ghost predicate Moved(before: map<Path, seq<byte>>, after: map<Path, seq<byte>>, from: Path, to: Path) {
    && from in before && to in after && after[to] == before[from] && from !in after
    && forall p :: p != from && p != to ==> (p in before <==> p in after) && (p in before ==> after[p] == before[p])
  }

  /** A done frame for an upload session: the temp file, or the fallback beside the final name if there is no
      temp file, becomes the final file and the session stops being active; with neither nothing moves. The
      session counts as completed in any case. */
  lemma DoneExactly(s: State, device: Text, sid: Text, token: Text)
    requires Accepts(s, device, sid, token)
    requires s.sessions[sid].temp == WithSuffix(s.sessions[sid].final, PART)
    ensures var next, session := Step(s, Done(device, sid, token)), s.sessions[sid];
            var fallback := WithSuffix(session.final, DOT_PATH);
            && next.sessions == s.sessions[sid := session.(completed := true, bytesDone := session.fileSize)]
            && next.tokens == s.tokens
            && (session.temp in s.files ==> Moved(s.files, next.files, session.temp, session.final))
            && (session.temp !in s.files && fallback in s.files ==> Moved(s.files, next.files, fallback, session.final))
            && if session.temp in s.files || fallback in s.files then
                 next.active == map k | k in s.active && k != sid :: s.active[k]
               else next.files == s.files && next.active == s.active && next.versions == s.versions
  {
    var session := s.sessions[sid];
    assert |session.temp.name| == |session.final.name| + |PART|;
    assert |WithSuffix(session.final, DOT_PATH).name| == |session.final.name| + |DOT_PATH|;
  }

  // ---- Every upload has a logical path ---------------------------------------------------------

  lemma {:induction false} TrimmedEndsPlain(s: Text)
    ensures var t := TrimSlashes(s); t != [] ==> t[|t| - 1] != SLASH
  {
    if s != [] && s[|s| - 1] == SLASH {
      TrimmedEndsPlain(s[..|s| - 1]);
    }
  }

  /** An accepted request leads to a session with a logical path, so a done frame records a version. */
  lemma LogicalPathIsNotEmpty(s: State, e: Event)
    requires InitAccepted(s, e)
    ensures NewUpload(s, e.device, e.request, e.now, e.token).logicalPath != []
  {
    TrimmedEndsPlain(e.request.fileName);
  }

  // ---- Footprints -----------------------------------------------------------------------------

  /** The file names an upload session may write, rename or fall back to. */
  function Footprint(session: Session): set<Path> {
    {session.temp, session.final, WithSuffix(session.final, DOT_PATH)}
  }

  predicate IsUpload(s: State, sid: Text) {
    sid in s.sessions && s.sessions[sid].direction == Upload
  }

  /** New session ids are new. */
  predicate NewIds(s: State, e: Event) {
    InitAccepted(s, e) || e.InitDownload? ==> e.id !in s.sessions
  }

  /** The file names of the upload that an accepted request starts. */
  function NewFootprint(s: State, e: Event): set<Path>
    requires e.InitUpload?
  {
    Footprint(NewUpload(s, e.device, e.request, e.now, e.token))
  }

  /** The parts of a session that no frame changes. */
  predicate SameUpload(a: Session, b: Session) {
    a.(bytesDone := 0, completed := false) == b.(bytesDone := 0, completed := false)
  }

  lemma StepKeepsSession(s: State, e: Event, sid: Text)
    requires NewIds(s, e) && sid in s.sessions
    ensures sid in Step(s, e).sessions && SameUpload(s.sessions[sid], Step(s, e).sessions[sid])
  {
  }

  /** Only an accepted request makes a session active. */
  lemma StepActivates(s: State, e: Event, sid: Text)
    requires sid in Step(s, e).active && sid !in s.active
    ensures InitAccepted(s, e) && sid == e.id
    ensures sid in Step(s, e).sessions && Step(s, e).sessions[sid] == NewUpload(s, e.device, e.request, e.now, e.token)
  {
  }

  /** The footprint an event may touch. */
  function Touched(s: State, e: Event): set<Path> {
    if InitAccepted(s, e) then NewFootprint(s, e)
    else if (e.Chunk? || e.Done?) && Accepts(s, e.device, e.sid, e.token) then Footprint(s.sessions[e.sid])
    else {}
  }

  predicate SameFile(a: State, b: State, p: Path) {
    (p in a.files <==> p in b.files) && (p in a.files ==> a.files[p] == b.files[p])
  }

  lemma StepLeavesOtherFiles(s: State, e: Event, p: Path)
    requires p !in Touched(s, e)
    ensures SameFile(s, Step(s, e), p)
  {
  }

  // ---- One file among any uploads ------------------------------------------------------------------

  /** No active upload session may touch the file. */
  ghost predicate Guarded(s: State, p: Path) {
    forall sid :: sid in s.active ==> IsUpload(s, sid) && p !in Footprint(s.sessions[sid])
  }

  /** An event that starts no upload of a file name that reaches the file. */
  predicate Spares(s: State, e: Event, p: Path) {
    NewIds(s, e) && (InitAccepted(s, e) ==> p !in NewFootprint(s, e))
  }

  ghost predicate SparingRun(s: State, es: seq<Event>, p: Path)
    decreases |es|
  {
    es == [] || (Spares(s, es[0], p) && SparingRun(Step(s, es[0]), es[1..], p))
  }

  lemma SparingStep(s: State, e: Event, p: Path)
    requires Guarded(s, p) && Spares(s, e, p)
    ensures Guarded(Step(s, e), p) && SameFile(s, Step(s, e), p)
  {
    var next := Step(s, e);
    StepLeavesOtherFiles(s, e, p);
    forall sid | sid in next.active ensures IsUpload(next, sid) && p !in Footprint(next.sessions[sid]) {
      if sid in s.active {
        StepKeepsSession(s, e, sid);
      } else {
        StepActivates(s, e, sid);
      }
    }
  }

  lemma {:induction false} SparedFileNeverChanges(s: State, es: seq<Event>, p: Path)
    requires Guarded(s, p) && SparingRun(s, es, p)
    ensures Guarded(Run(s, es), p) && SameFile(s, Run(s, es), p)
    decreases |es|
  {
    if es != [] {
      SparingStep(s, es[0], p);
      SparedFileNeverChanges(Step(s, es[0]), es[1..], p);
    }
  }

  // ---- All recorded files ----------------------------------------------------------------------------

  function PathOf(v: Version): Path {
    Path(v.device, v.storedName)
  }

  /** Active uploads keep to the directory of their device and to files of their own. */
  ghost predicate ActiveApart(s: State) {
    && (forall a :: a in s.active ==> IsUpload(s, a) && s.sessions[a].final.device == s.sessions[a].device)
    && (forall a, b :: a in s.active && b in s.active && a != b ==> Apart(s, a, b))
  }

  predicate Apart(s: State, a: Text, b: Text) {
    IsUpload(s, a) && IsUpload(s, b) ==> Footprint(s.sessions[a]) !! Footprint(s.sessions[b])
  }

  /** The file of a recorded version exists, and no active upload may touch it. */
  ghost predicate Settled(s: State, v: Version) {
    PathOf(v) in s.files && Guarded(s, PathOf(v))
  }

  /** Whether or not the sessions that made the recorded versions are still known. */
  ghost predicate Safe(s: State) {
    && ActiveApart(s)
    && (forall i :: 0 <= i < |s.versions| ==> Settled(s, s.versions[i]))
    && (forall i, j :: 0 <= i < j < |s.versions| ==> PathOf(s.versions[i]) != PathOf(s.versions[j]))
  }

  /** New ids are new, and a new upload has no file name of an active upload or a recorded version. */
  ghost predicate FreshEvent(s: State, e: Event) {
    NewIds(s, e) && (InitAccepted(s, e) ==>
      && (forall sid :: sid in s.active && sid in s.sessions ==> NewFootprint(s, e) !! Footprint(s.sessions[sid]))
      && (forall i :: 0 <= i < |s.versions| ==> PathOf(s.versions[i]) !in NewFootprint(s, e)))
  }

  ghost predicate FreshRun(s: State, es: seq<Event>)
    decreases |es|
  {
    es == [] || (FreshEvent(s, es[0]) && FreshRun(Step(s, es[0]), es[1..]))
  }

  lemma StepKeepsApart(s: State, e: Event)
    requires ActiveApart(s) && FreshEvent(s, e)
    ensures ActiveApart(Step(s, e))
  {
    var next := Step(s, e);
    forall a | a in next.active ensures IsUpload(next, a) && next.sessions[a].final.device == next.sessions[a].device {
      if a in s.active { StepKeepsSession(s, e, a); } else { StepActivates(s, e, a); }
    }
    forall a, b | a in next.active && b in next.active && a != b ensures Apart(next, a, b) {
      if a in s.active { StepKeepsSession(s, e, a); } else { StepActivates(s, e, a); }
      if b in s.active { StepKeepsSession(s, e, b); } else { StepActivates(s, e, b); }
      if a in s.active && b in s.active { assert Apart(s, a, b); }
    }
  }

  lemma StepKeepsSettled(s: State, e: Event, i: nat)
    requires Safe(s) && FreshEvent(s, e) && i < |s.versions|
    ensures Settled(Step(s, e), s.versions[i]) && SameFile(s, Step(s, e), PathOf(s.versions[i]))
  {
    assert Settled(s, s.versions[i]);
    SparingStep(s, e, PathOf(s.versions[i]));
  }

  /** A done frame adds at most one row, for a file that no earlier row has and no other upload may touch. */
  lemma NewRowIsSettled(s: State, e: Event)
    requires Safe(s) && e.Done? && Step(s, e).versions != s.versions
    ensures var vs := Step(s, e).versions;
            && vs[..|s.versions|] == s.versions && |vs| == |s.versions| + 1
            && Settled(Step(s, e), vs[|s.versions|])
            && forall i :: 0 <= i < |s.versions| ==> PathOf(s.versions[i]) != PathOf(vs[|s.versions|])
  {
    var next := Step(s, e);
    var row := next.versions[|s.versions|];
    assert e.sid in s.active && PathOf(row) == s.sessions[e.sid].final;
    forall i | 0 <= i < |s.versions| ensures PathOf(s.versions[i]) != PathOf(row) {
      assert Settled(s, s.versions[i]);
    }
    forall sid | sid in next.active ensures IsUpload(next, sid) && PathOf(row) !in Footprint(next.sessions[sid]) {
      assert sid in s.active && sid != e.sid && Apart(s, e.sid, sid);
    }
  }

  lemma StepKeepsSafe(s: State, e: Event)
    requires Safe(s) && FreshEvent(s, e)
    ensures Safe(Step(s, e))
    ensures s.versions <= Step(s, e).versions && |Step(s, e).versions| <= |s.versions| + 1
  {
    var next := Step(s, e);
    StepKeepsApart(s, e);
    if next.versions != s.versions {
      NewRowIsSettled(s, e);
    }
    forall i | 0 <= i < |next.versions| ensures Settled(next, next.versions[i]) {
      if i < |s.versions| {
        StepKeepsSettled(s, e, i);
      }
    }
  }

  /** Over every run in which new uploads get new ids and names of their own: recorded versions stay, each
      stored file is recorded once, and nothing that arrives later changes a file once it is recorded. */
  lemma {:induction false} RecordedFilesNeverChange(s: State, es: seq<Event>)
    requires Safe(s) && FreshRun(s, es)
    ensures Safe(Run(s, es)) && s.versions <= Run(s, es).versions
    ensures forall i :: 0 <= i < |s.versions| ==> SameFile(s, Run(s, es), PathOf(s.versions[i]))
    decreases |es|
  {
    if es != [] {
      var next := Step(s, es[0]);
      StepKeepsSafe(s, es[0]);
      RecordedFilesNeverChange(next, es[1..]);
      forall i | 0 <= i < |s.versions| ensures SameFile(s, Run(s, es), PathOf(s.versions[i])) {
        StepKeepsSettled(s, es[0], i);
        assert s.versions[i] == next.versions[i];
      }
    }
  }

  // ---- Server lives ------------------------------------------------------------------------------------

  /** A restart keeps files and version rows and forgets everything held in memory. */
  function Restarted(s: State): State {
    State(map[], map[], map[], s.files, s.versions)
  }

  /** A server that starts on recorded versions with distinct, existing files is safe, whatever other files
      it finds; without any versions it always is. */
  lemma StartIsSafe(s: State)
    requires s.active == map[]
    requires forall i :: 0 <= i < |s.versions| ==> PathOf(s.versions[i]) in s.files
    requires forall i, j :: 0 <= i < j < |s.versions| ==> PathOf(s.versions[i]) != PathOf(s.versions[j])
    ensures Safe(s) && (s.versions == [] ==> AllHistoriesOneToN(s.versions))
  {
  }

  /** One life of the server after another, with a restart in between. */
  function RunLives(s: State, lives: seq<seq<Event>>): State
    decreases |lives|
  {
    if lives == [] then s else RunLives(Restarted(Run(s, lives[0])), lives[1..])
  }

  ghost predicate FreshLives(s: State, lives: seq<seq<Event>>)
    decreases |lives|
  {
    lives == [] || (FreshRun(s, lives[0]) && FreshLives(Restarted(Run(s, lives[0])), lives[1..]))
  }

  /** Restarts change nothing about that: what was recorded in one life of the server is unchanged after any
      number of further lives. */
  lemma {:induction false} RecordedFilesSurviveRestarts(s: State, lives: seq<seq<Event>>)
    requires Safe(s) && FreshLives(s, lives)
    ensures Safe(RunLives(s, lives)) && s.versions <= RunLives(s, lives).versions
    ensures forall i :: 0 <= i < |s.versions| ==> SameFile(s, RunLives(s, lives), PathOf(s.versions[i]))
    decreases |lives|
  {
    if lives != [] {
      var t := Run(s, lives[0]);
      RecordedFilesNeverChange(s, lives[0]);
      RestartKeepsSafe(t);
      RecordedFilesSurviveRestarts(Restarted(t), lives[1..]);
      forall i | 0 <= i < |s.versions| ensures SameFile(s, RunLives(s, lives), PathOf(s.versions[i])) {
        assert s.versions[i] == t.versions[i];
      }
    }
  }

  lemma RestartKeepsSafe(s: State)
    requires Safe(s)
    ensures Safe(Restarted(s))
  {
    forall i | 0 <= i < |s.versions| ensures PathOf(s.versions[i]) in s.files {
      assert Settled(s, s.versions[i]);
    }
    StartIsSafe(Restarted(s));
  }

  /** Recorded versions are never taken back or changed, by any events at all. */
  lemma {:induction false} VersionsOnlyGrow(s: State, es: seq<Event>)
    ensures s.versions <= Run(s, es).versions
    decreases |es|
  {
    if es != [] {
      VersionsOnlyGrow(Step(s, es[0]), es[1..]);
    }
  }

  // ---- When names are new ------------------------------------------------------------------------

  function DigitsValue(s: seq<byte>): int {
    if s == [] then 0 else DigitsValue(s[..|s| - 1]) * 10 + s[|s| - 1] as int - 48
  }

  lemma {:induction false} DigitsDetermineNumber(n: nat)
    ensures DigitsValue(Digits(n)) == n
    ensures UNDERSCORE !in Digits(n)
  {
    var s := Digits(n);
    if n < 10 {
      assert s[..|s| - 1] == [];
    } else {
      assert s[..|s| - 1] == Digits(n / 10);
      DigitsDetermineNumber(n / 10);
    }
  }

  lemma PrefixBeforeUnderscore(a: seq<byte>, b: seq<byte>, x: seq<byte>, y: seq<byte>)
    requires UNDERSCORE !in a && UNDERSCORE !in b
    requires a + [UNDERSCORE] + x == b + [UNDERSCORE] + y
    ensures a == b
  {
    var whole := a + [UNDERSCORE] + x;
    assert whole[|a|] == UNDERSCORE && whole[|b|] == UNDERSCORE;
    assert forall i :: 0 <= i < |a| ==> whole[i] == a[i] && a[i] in a;
    assert forall i :: 0 <= i < |b| ==> whole[i] == b[i] && b[i] in b;
    assert |a| == |b|;
    assert a == whole[..|a|] && b == whole[..|b|];
  }

  lemma PathsEqualExactly(device1: Text, now1: nat, name1: Text, suffix1: Text,
                          device2: Text, now2: nat, name2: Text, suffix2: Text)
    ensures WithSuffix(FinalPath(device1, now1, name1), suffix1) == WithSuffix(FinalPath(device2, now2, name2), suffix2)
            <==> device1 == device2 && now1 == now2 && StoredBase(name1) + suffix1 == StoredBase(name2) + suffix2
  {
    DigitsDetermineNumber(now1);
    DigitsDetermineNumber(now2);
    var x, y := StoredBase(name1) + suffix1, StoredBase(name2) + suffix2;
    assert StoredName(now1, name1) + suffix1 == Digits(now1) + [UNDERSCORE] + x;
    assert StoredName(now2, name2) + suffix2 == Digits(now2) + [UNDERSCORE] + y;
    if Digits(now1) + [UNDERSCORE] + x == Digits(now2) + [UNDERSCORE] + y {
      PrefixBeforeUnderscore(Digits(now1), Digits(now2), x, y);
      assert x == (Digits(now1) + [UNDERSCORE] + x)[|Digits(now1)| + 1..];
      assert y == (Digits(now2) + [UNDERSCORE] + y)[|Digits(now2)| + 1..];
    }
  }

  lemma NoSuffix(p: Path)
    ensures WithSuffix(p, []) == p
  {
    assert p.name + [] == p.name;
  }

  /** The name is the other one, bare or with the ending of a temp or fallback file. */
  predicate Reaches(name: Text, other: Text) {
    name == other || name == other + PART || name == other + DOT_PATH
  }

  /** A stored file is one of the files of an upload exactly when it was stored for the same device in
      the same second under the upload's name, bare or with one of its endings. */
  lemma FootprintMemberExactly(device1: Text, now1: nat, name1: Text, upload: Session, now2: nat, name2: Text)
    requires upload.final == FinalPath(upload.device, now2, name2) && upload.temp == WithSuffix(upload.final, PART)
    ensures FinalPath(device1, now1, name1) in Footprint(upload) <==>
            device1 == upload.device && now1 == now2 && Reaches(StoredBase(name1), StoredBase(name2))
  {
    var p := FinalPath(device1, now1, name1);
    NoSuffix(p);
    NoSuffix(upload.final);
    assert StoredBase(name1) + [] == StoredBase(name1) && StoredBase(name2) + [] == StoredBase(name2);
    PathsEqualExactly(device1, now1, name1, [], upload.device, now2, name2, []);
    PathsEqualExactly(device1, now1, name1, [], upload.device, now2, name2, PART);
    PathsEqualExactly(device1, now1, name1, [], upload.device, now2, name2, DOT_PATH);
  }

  lemma EndingsDiffer(a: Text, b: Text)
    ensures a + PART != b + DOT_PATH
    ensures a + PART == b + PART <==> a == b
    ensures a + DOT_PATH == b + DOT_PATH <==> a == b
  {
    var x, y := a + PART, b + DOT_PATH;
    assert x[|x| - 1] == 116 && y[|y| - 1] == 104;
    assert a == (a + PART)[..|a + PART| - 5] && b == (b + PART)[..|b + PART| - 5];
    assert a == (a + DOT_PATH)[..|a + DOT_PATH| - 5] && b == (b + DOT_PATH)[..|b + DOT_PATH| - 5];
  }

  /** The endings cannot make up for different stems, save where one stem already has the ending. */
  lemma SuffixedNamesMeetExactly(a: Session, b: Session, now1: nat, name1: Text, now2: nat, name2: Text,
                                 suffix1: Text, suffix2: Text)
    requires a.final == FinalPath(a.device, now1, name1) && b.final == FinalPath(b.device, now2, name2)
    requires suffix1 in {PART, DOT_PATH} && suffix2 in {PART, DOT_PATH}
    ensures WithSuffix(a.final, suffix1) == WithSuffix(b.final, suffix2) <==>
            a.device == b.device && now1 == now2 && StoredBase(name1) == StoredBase(name2) && suffix1 == suffix2
  {
    PathsEqualExactly(a.device, now1, name1, suffix1, b.device, now2, name2, suffix2);
    EndingsDiffer(StoredBase(name1), StoredBase(name2));
    EndingsDiffer(StoredBase(name2), StoredBase(name1));
  }

  predicate Meet(a: Session, b: Session) {
    exists p :: p in Footprint(a) && p in Footprint(b)
  }

  /** Uploads share a file name, exactly: same device, same second, and one name is the other, bare or
      with the ending of a temp or fallback file. */
  lemma UploadsMeetExactly(a: Session, b: Session, now1: nat, name1: Text, now2: nat, name2: Text)
    requires a.final == FinalPath(a.device, now1, name1) && a.temp == WithSuffix(a.final, PART)
    requires b.final == FinalPath(b.device, now2, name2) && b.temp == WithSuffix(b.final, PART)
    ensures Meet(a, b) <==> a.device == b.device && now1 == now2
                            && (Reaches(StoredBase(name1), StoredBase(name2)) || Reaches(StoredBase(name2), StoredBase(name1)))
  {
    FootprintMemberExactly(a.device, now1, name1, b, now2, name2);
    FootprintMemberExactly(b.device, now2, name2, a, now1, name1);
    SuffixedNamesMeetExactly(a, b, now1, name1, now2, name2, PART, PART);
    SuffixedNamesMeetExactly(a, b, now1, name1, now2, name2, PART, DOT_PATH);
    SuffixedNamesMeetExactly(a, b, now1, name1, now2, name2, DOT_PATH, PART);
    SuffixedNamesMeetExactly(a, b, now1, name1, now2, name2, DOT_PATH, DOT_PATH);
    if a.final in Footprint(b) || b.final in Footprint(a) {
      assert Meet(a, b);
    }
  }
}
