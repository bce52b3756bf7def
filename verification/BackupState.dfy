/** The backend's upload state and what each event does to it. */
module BackupState {
  import opened Basics
  import opened Bytes
  import opened FileContent

  type Text = seq<byte>

  /** A file below the storage directory, by device directory and file name. */
  datatype Path = Path(device: Text, name: Text)

  datatype Direction = Upload | Download

  datatype Session = Session(
    token: Text, device: Text, fileId: Text, logicalPath: Text, fileName: Text, fileSize: int,
    direction: Direction, completed: bool, temp: Path, final: Path, bytesDone: int)

  datatype Version = Version(device: Text, fileId: Text, logicalPath: Text, fileName: Text,
                             storedName: Text, version: int, size: int)

  datatype State = State(
    tokens: map<Text, Text>, active: map<Text, Text>, sessions: map<Text, Session>,
    files: map<Path, seq<byte>>, versions: seq<Version>)

  datatype InitRequest = InitRequest(fileName: Text, fileSize: int, logicalPath: Text, fileId: Text)

  datatype Event =
    | Grant(device: Text, token: Text)
    | Disconnect(device: Text)
    | InitUpload(device: Text, request: InitRequest, now: nat, id: Text, token: Text)
    | InitDownload(device: Text, fileName: Text, id: Text, token: Text)
    | Chunk(device: Text, sid: Text, token: Text, offset: nat, chunkLen: nat, data: Option<seq<byte>>, failed: Option<nat>)
    | Done(device: Text, sid: Text, token: Text)
    | Ignored

  const SLASH: byte := 47
  const DOT: byte := 46
  const UNDERSCORE: byte := 95
  const PART: seq<byte> := [46, 112, 97, 114, 116]
  const DOT_PATH: seq<byte> := [46, 112, 97, 116, 104]

  function Digits(n: nat): seq<byte> {
    if n < 10 then [48 + n] else Digits(n / 10) + [48 + n % 10]
  }

  function TrimSlashes(s: Text): Text {
    if s != [] && s[|s| - 1] == SLASH then TrimSlashes(s[..|s| - 1]) else s
  }

  function AfterLastSlash(s: Text): Text {
    if s == [] || s[|s| - 1] == SLASH then [] else AfterLastSlash(s[..|s| - 1]) + [s[|s| - 1]]
  }

  /** filepath.Base. */
  function Base(s: Text): Text {
    if s == [] then [DOT]
    else if TrimSlashes(s) == [] then [SLASH]
    else AfterLastSlash(TrimSlashes(s))
  }

  /** What is left of the base name in the path: joining paths drops a slash at the end. */
  function StoredBase(fileName: Text): Text {
    if Base(fileName) == [SLASH] then [] else Base(fileName)
  }

  function StoredName(now: nat, fileName: Text): Text {
    Digits(now) + [UNDERSCORE] + StoredBase(fileName)
  }

  function FinalPath(device: Text, now: nat, fileName: Text): Path {
    Path(device, StoredName(now, fileName))
  }

  function WithSuffix(p: Path, suffix: Text): Path {
    p.(name := p.name + suffix)
  }

  // ---- What events do -------------------------------------------------------------------------

  predicate Authorized(s: State, device: Text) {
    device != [] && device in s.tokens && s.tokens[device] != []
  }

  /** PrepareUpload's answer when it accepts the request. */
  function NewUpload(s: State, device: Text, request: InitRequest, now: nat, token: Text): Session {
    var final := FinalPath(device, now, request.fileName);
    var temp := WithSuffix(final, PART);
    var size := if temp in s.files then |s.files[temp]| else 0;
    Session(token, device, request.fileId,
            if request.logicalPath == [] then Base(request.fileName) else request.logicalPath,
            Base(request.fileName), request.fileSize, Upload, false, temp, final,
            if size > request.fileSize then request.fileSize else size)
  }

  predicate InitAccepted(s: State, e: Event) {
    e.InitUpload? && Authorized(s, e.device) && e.request.fileName != [] && e.request.fileSize > 0
  }

  function AfterInit(s: State, e: Event): State
    requires e.InitUpload?
  {
    if !InitAccepted(s, e) then s else
    var session := NewUpload(s, e.device, e.request, e.now, e.token);
    s.(files := if session.temp in s.files then s.files else s.files[session.temp := []],
       sessions := s.sessions[e.id := session],
       active := s.active[e.id := e.token])
  }

  function AfterInitDownload(s: State, e: Event): State
    requires e.InitDownload?
  {
    var final := Path(e.device, Base(e.fileName));
    if !Authorized(s, e.device) || e.fileName == [] || final !in s.files then s else
    s.(sessions := s.sessions[e.id := Session(e.token, e.device, [], [], Base(e.fileName), |s.files[final]|,
                                              Download, false, Path([], []), final, 0)])
  }

  /** A chunk or done frame that names an active upload session by id and token. */
  predicate Accepts(s: State, device: Text, sid: Text, token: Text) {
    && Authorized(s, device)
    && sid != [] && token != []
    && sid in s.active && s.active[sid] == token
    && sid in s.sessions && s.sessions[sid].token == token && s.sessions[sid].direction == Upload
  }

  /** The bytes of a chunk that reach the file: all of it, or what was written before the write failed
      (nothing, when the seek or the opening failed). */
  function Landed(data: seq<byte>, failed: Option<nat>): seq<byte> {
    if failed.Some? && failed.value < |data| then data[..failed.value] else data
  }

  function AfterChunk(s: State, e: Event): State
    requires e.Chunk?
  {
    if !Accepts(s, e.device, e.sid, e.token) || e.data.None? || e.chunkLen == 0 then s else
    var session := s.sessions[e.sid];
    if session.temp !in s.files then s else
    s.(files := s.files[session.temp := WriteAt(s.files[session.temp], e.offset, Landed(e.data.value, e.failed))],
       sessions := if e.failed.Some? then s.sessions
                   else s.sessions[e.sid := session.(bytesDone := session.bytesDone + e.chunkLen)])
  }

  /** os.Rename with FinalizeUpload's fallback to a ".path" file beside the final name. */
  function Renamed(files: map<Path, seq<byte>>, temp: Path, final: Path): Option<map<Path, seq<byte>>> {
    var alt := WithSuffix(final, DOT_PATH);
    if temp in files then Some((files - {temp})[final := files[temp]])
    else if alt in files then Some((files - {alt})[final := files[alt]])
    else None
  }

  /** The largest version stored for a device and logical path, 0 if there is none. */
  function MaxVersion(vs: seq<Version>, device: Text, logicalPath: Text): int {
    if vs == [] then 0 else
    var last := vs[|vs| - 1];
    var earlier := MaxVersion(vs[..|vs| - 1], device, logicalPath);
    if last.device == device && last.logicalPath == logicalPath && last.version > earlier
    then last.version else earlier
  }

  function AfterDone(s: State, e: Event): State
    requires e.Done?
  {
    if !Accepts(s, e.device, e.sid, e.token) then s else
    var session := s.sessions[e.sid].(completed := true, bytesDone := s.sessions[e.sid].fileSize);
    var marked := s.(sessions := s.sessions[e.sid := session]);
    match Renamed(s.files, session.temp, session.final)
    case None => marked
    case Some(files) =>
      marked.(files := files, active := s.active - {e.sid},
              versions := if session.logicalPath == [] then s.versions else s.versions + [NextVersion(s, session)])
  }

  function NextVersion(s: State, session: Session): Version {
    Version(session.device, session.fileId, session.logicalPath, session.fileName, session.final.name,
            MaxVersion(s.versions, session.device, session.logicalPath) + 1, session.fileSize)
  }

  function Step(s: State, e: Event): State {
    match e
    case Grant(device, token) => s.(tokens := s.tokens[device := token])
    case Disconnect(device) => s.(tokens := s.tokens - {device})
    case InitUpload(_, _, _, _, _) => AfterInit(s, e)
    case InitDownload(_, _, _, _) => AfterInitDownload(s, e)
    case Chunk(_, _, _, _, _, _, _) => AfterChunk(s, e)
    case Done(_, _, _) => AfterDone(s, e)
    case Ignored => s
  }

  function Run(s: State, es: seq<Event>): State
    decreases |es|
  {
    if es == [] then s else Run(Step(s, es[0]), es[1..])
  }

  lemma {:induction false} RunAppend(s: State, es: seq<Event>, e: Event)
    ensures Run(s, es + [e]) == Step(Run(s, es), e)
    decreases |es|
  {
    if es == [] {
      assert es + [e] == [e];
      assert Run(Step(s, e), []) == Step(s, e);
    } else {
      assert (es + [e])[1..] == es[1..] + [e];
      RunAppend(Step(s, es[0]), es[1..], e);
    }
  }
}
