/** All connections of the backend, interleaved at the granularity of its locks. */
module Lifecycle {
  import opened Registry
  import opened RegistryHistory

  /** What a frame leaves to do, one lock at a time. */
  datatype Task = SetRegistry | GrantTokens(devices: set<string>, token: string) | JoinHub

  /** Serving frames, or on the way out: first off the registry, then off the hub, then the token. */
  datatype Phase = Serving(todo: seq<Task>) | Ending | OffRegistry | OffHub | Finished

  /** One connection; `device` is the id its frames have carried, "" before the first. */
  datatype Conn = Conn(device: string, phase: Phase)

  datatype State = State(conns: map<int, Conn>, registry: seq<Pair>, hub: map<string, int>, tokens: map<string, string>)

  datatype Event =
    | Open(fd: int)
    | LoginFrame(fd: int, deviceId: string, token: string, accepted: bool)
    | Credentials(fd: int, deviceId: string, request: string, token: string)
    | OtherFrame(fd: int, deviceId: string)
    | EndOfStream(fd: int)
    | Advance(fd: int)

  const START := State(map[], [], map[], map[])

  predicate Idle(s: State, fd: int) {
    fd in s.conns && s.conns[fd].phase == Serving([])
  }

  /** A connection carries one device id, of at most the length the wire format allows. */
  predicate Carries(c: Conn, deviceId: string) {
    (deviceId == "" || c.device == "" || deviceId == c.device) && |deviceId| <= MAX_DEVICE_ID
  }

  predicate Enabled(s: State, e: Event) {
    match e
    case Open(fd) => fd !in s.conns && fd != INVALID_SOCKET
    case LoginFrame(fd, deviceId, _, _) => Idle(s, fd) && Carries(s.conns[fd], deviceId)
    case Credentials(fd, deviceId, request, token) =>
      // A login that names no device comes with the id the backend makes up for it as its request.
      && Idle(s, fd) && Carries(s.conns[fd], deviceId) && token != ""
      && (request != "" || Device(s.conns[fd], deviceId) != "")
    case OtherFrame(fd, deviceId) => Idle(s, fd) && Carries(s.conns[fd], deviceId)
    case EndOfStream(fd) => Idle(s, fd)
    case Advance(fd) => fd in s.conns && !Idle(s, fd)
  }

  function Device(c: Conn, deviceId: string): string {
    if deviceId != "" then deviceId else c.device
  }

  /** The login branch of HandleMessage, behind the connection handler's registry_set. */
  function LoginTasks(carried: string, device: string, token: string, accepted: bool): seq<Task> {
    if device == "" then [] else
    (if carried != "" then [SetRegistry] else [])
    + (if token != "" && accepted then [GrantTokens({device}, token)] else [])
    + [JoinHub]
  }

  /** handleLogin caches the token under the requested id and under the frame's own. */
  function CredentialTasks(device: string, request: string, token: string): seq<Task> {
    var named := if request != "" then request else device;
    [GrantTokens({named} + if device != "" then {device} else {}, token)]
  }

  function Granted(tokens: map<string, string>, devices: set<string>, token: string): map<string, string> {
    tokens + map d | d in devices :: token
  }

  function Unregistered(hub: map<string, int>, device: string, fd: int): map<string, int> {
    if device in hub && hub[device] == fd then hub - {device} else hub
  }

  function WithPhase(s: State, fd: int, phase: Phase): map<int, Conn>
    requires fd in s.conns
  {
    s.conns[fd := s.conns[fd].(phase := phase)]
  }

  /** The next lock-protected step of one connection's thread. */
  function Advanced(s: State, fd: int): State
    requires fd in s.conns && !Idle(s, fd)
  {
    var c := s.conns[fd];
    match c.phase
    case Serving(todo) =>
      var s1 := s.(conns := WithPhase(s, fd, Serving(todo[1..])));
      (match todo[0]
       case SetRegistry => s1.(registry := Set(s.registry, c.device, fd))
       case GrantTokens(devices, token) => s1.(tokens := Granted(s.tokens, devices, token))
       case JoinHub => s1.(hub := s.hub[c.device := fd]))
    case Ending => s.(conns := WithPhase(s, fd, OffRegistry), registry := Remove(s.registry, fd))
    case OffRegistry =>
      if c.device == "" then s.(conns := WithPhase(s, fd, Finished)) else
      s.(conns := WithPhase(s, fd, OffHub), hub := Unregistered(s.hub, c.device, fd))
    case OffHub => s.(conns := WithPhase(s, fd, Finished), tokens := s.tokens - {c.device})
    case Finished => s.(conns := s.conns - {fd})
  }

  function Received(s: State, fd: int, deviceId: string, todo: seq<Task>): State
    requires fd in s.conns
  {
    s.(conns := s.conns[fd := Conn(Device(s.conns[fd], deviceId), Serving(todo))])
  }

  /** One event; an event that cannot happen changes nothing. */
  function Step(s: State, e: Event): State {
    if !Enabled(s, e) then s else
    match e
    case Open(fd) => s.(conns := s.conns[fd := Conn("", Serving([]))])
    case LoginFrame(fd, deviceId, token, accepted) =>
      Received(s, fd, deviceId, LoginTasks(deviceId, Device(s.conns[fd], deviceId), token, accepted))
    case Credentials(fd, deviceId, request, token) =>
      Received(s, fd, deviceId, CredentialTasks(Device(s.conns[fd], deviceId), request, token))
    case OtherFrame(fd, deviceId) => Received(s, fd, deviceId, [])
    case EndOfStream(fd) => s.(conns := WithPhase(s, fd, Ending))
    case Advance(fd) => Advanced(s, fd)
  }

  function Run(s: State, es: seq<Event>): State {
    if es == [] then s else Step(Run(s, es[..|es| - 1]), es[|es| - 1])
  }

  /** A run takes its events one after the other. */
  lemma RunTakes(s: State, es: seq<Event>, e: Event)
    ensures Run(s, []) == s && Run(s, es + [e]) == Step(Run(s, es), e)
  {
    assert (es + [e])[..|es|] == es;
  }

  // ---- Entries name connections that have not finished their own removal ---------------------------

  predicate OnRegistry(conns: map<int, Conn>, id: string, fd: int) {
    id != "" && fd in conns && conns[fd].device == id && (conns[fd].phase.Serving? || conns[fd].phase.Ending?)
  }

  predicate OnHub(conns: map<int, Conn>, id: string, fd: int) {
    id != "" && fd in conns && conns[fd].device == id
    && (conns[fd].phase.Serving? || conns[fd].phase.Ending? || conns[fd].phase.OffRegistry?)
  }

  /** A connection without a device has nothing to register. */
  predicate Modest(c: Conn) {
    |c.device| <= MAX_DEVICE_ID
    && (c.device == "" && c.phase.Serving? ==> forall i :: 0 <= i < |c.phase.todo| ==> c.phase.todo[i].GrantTokens?)
  }

  ghost predicate RegistryNamesOpen(s: State) {
    UniqueIds(s.registry) && forall e :: e in s.registry ==> OnRegistry(s.conns, e.id, e.fd)
  }

  ghost predicate HubNamesOpen(s: State) {
    forall id :: id in s.hub ==> OnHub(s.conns, id, s.hub[id])
  }

  ghost predicate AllModest(s: State) {
    forall fd :: fd in s.conns ==> fd != INVALID_SOCKET && Modest(s.conns[fd])
  }

  ghost predicate Safe(s: State) {
    RegistryNamesOpen(s) && HubNamesOpen(s) && AllModest(s)
  }

  lemma OneSocketOneEntry(s: State, fd: int)
    requires RegistryNamesOpen(s)
    ensures AtMostOne(s.registry, fd)
  {
    var es := s.registry;
    forall i, j | 0 <= i < j < |es| ensures es[i].fd != fd || es[j].fd != fd {
      assert es[i] in es && es[j] in es;
    }
  }

  lemma FramesKeepModesty(s: State, e: Event)
    requires AllModest(s)
    ensures AllModest(Step(s, e))
  {
  }

  lemma StepKeepsRegistry(s: State, e: Event)
    requires Safe(s)
    ensures RegistryNamesOpen(Step(s, e))
  {
    if e.Advance? && Enabled(s, e) {
      AdvanceKeepsRegistry(s, e.fd);
    }
  }

  lemma AdvanceKeepsRegistry(s: State, fd: int)
    requires Safe(s) && fd in s.conns && !Idle(s, fd)
    ensures RegistryNamesOpen(Advanced(s, fd))
  {
    var c := s.conns[fd];
    if c.phase.Serving? && c.phase.todo[0].SetRegistry? {
      SetKeepsUniqueIds(s.registry, c.device, fd);
      UpdatedHolds(s.registry, c.device, fd);
    } else if c.phase.Ending? {
      OneSocketOneEntry(s, fd);
      RemoveIsCompleteExactly(s.registry, fd);
      WithoutFirstKeepsUniqueIds(s.registry, fd);
    }
  }

  lemma StepKeepsHub(s: State, e: Event)
    requires Safe(s)
    ensures HubNamesOpen(Step(s, e))
  {
    if e.Advance? && Enabled(s, e) {
      AdvanceKeepsHub(s, e.fd);
    }
  }

  lemma AdvanceKeepsHub(s: State, fd: int)
    requires Safe(s) && fd in s.conns && !Idle(s, fd)
    ensures HubNamesOpen(Advanced(s, fd))
  {
  }

  /** Connection lifecycle: in every state that any interleaving of any connections reaches, each
      registry entry and each hub entry names an open connection of that device that has not yet
      finished its own removal from the registry or hub, and registry ids are unique. */
  lemma {:induction false} EntriesNameOpenConnections(es: seq<Event>)
    ensures Safe(Run(START, es))
  {
    if es != [] {
      var s := Run(START, es[..|es| - 1]);
      EntriesNameOpenConnections(es[..|es| - 1]);
      FramesKeepModesty(s, es[|es| - 1]);
      StepKeepsRegistry(s, es[|es| - 1]);
      StepKeepsHub(s, es[|es| - 1]);
    }
  }

  // ---- A disconnect takes only its own entries ---------------------------------------------------------

  /** The registry removal of one connection erases what names its socket and nothing else. */
  lemma RegistryRemovalIsItsOwn(s: State, fd: int, id: string)
    requires Safe(s) && fd in s.conns && s.conns[fd].phase.Ending?
    ensures Get(Advanced(s, fd).registry, id) == if Get(s.registry, id) == fd then INVALID_SOCKET else Get(s.registry, id)
  {
    OneSocketOneEntry(s, fd);
    if Get(s.registry, id) == fd {
      GetAfterRemoveHere(s.registry, fd, id);
    } else {
      GetAfterRemoveElsewhere(s.registry, fd, id);
    }
  }

  /** So does the hub's. */
  lemma HubRemovalIsItsOwn(s: State, fd: int, id: string)
    requires Safe(s) && fd in s.conns && s.conns[fd].phase.OffRegistry?
    ensures id in Advanced(s, fd).hub <==> id in s.hub && s.hub[id] != fd
    ensures id in Advanced(s, fd).hub ==> Advanced(s, fd).hub[id] == s.hub[id]
  {
  }

  /** The step by which a connection puts itself into the registry, or into the hub. */
  predicate Registers(s: State, e: Event, id: string) {
    e.Advance? && Enabled(s, e) && s.conns[e.fd].device == id
    && s.conns[e.fd].phase.Serving? && s.conns[e.fd].phase.todo[0].SetRegistry?
  }

  predicate Joins(s: State, e: Event, id: string) {
    e.Advance? && Enabled(s, e) && s.conns[e.fd].device == id
    && s.conns[e.fd].phase.Serving? && s.conns[e.fd].phase.todo[0].JoinHub?
  }

  /** No event makes `fd` itself leave, or another connection register as the device. */
  predicate Undisturbed(s: State, es: seq<Event>, id: string, fd: int) {
    es == [] ||
    var front, e := es[..|es| - 1], es[|es| - 1];
    Undisturbed(s, front, id, fd)
    && !Registers(Run(s, front), e, id)
    && !(e == Advance(fd) && fd in Run(s, front).conns && Run(s, front).conns[fd].phase.Ending?)
  }

  predicate UndisturbedOnHub(s: State, es: seq<Event>, id: string, fd: int) {
    es == [] ||
    var front, e := es[..|es| - 1], es[|es| - 1];
    UndisturbedOnHub(s, front, id, fd)
    && !Joins(Run(s, front), e, id)
    && !(e == Advance(fd) && fd in Run(s, front).conns && Run(s, front).conns[fd].phase.OffRegistry?)
  }

  lemma {:induction false} RunStaysSafe(s: State, es: seq<Event>)
    requires Safe(s)
    ensures Safe(Run(s, es))
  {
    if es != [] {
      var t := Run(s, es[..|es| - 1]);
      RunStaysSafe(s, es[..|es| - 1]);
      FramesKeepModesty(t, es[|es| - 1]);
      StepKeepsRegistry(t, es[|es| - 1]);
      StepKeepsHub(t, es[|es| - 1]);
    }
  }

  lemma StepLeavesOthersRegistered(s: State, e: Event, id: string, fd: int)
    requires Safe(s) && fd != INVALID_SOCKET && Get(s.registry, id) == fd && !Registers(s, e, id)
    requires !(e == Advance(fd) && fd in s.conns && s.conns[fd].phase.Ending?)
    ensures Get(Step(s, e).registry, id) == fd
  {
    if e.Advance? && Enabled(s, e) {
      var c := s.conns[e.fd];
      if c.phase.Serving? && c.phase.todo[0].SetRegistry? {
        SetChangesOnlyItsId(s.registry, c.device, e.fd, id);
      } else if c.phase.Ending? {
        RegistryRemovalIsItsOwn(s, e.fd, id);
      }
    }
  }

  /** No eviction: once a connection is the registered one of its device, it stays so through any
      interleaving of other connections' frames and disconnects, until it leaves or is replaced. */
  lemma {:induction false} OlderDisconnectsEvictNothing(s: State, es: seq<Event>, id: string, fd: int)
    requires Safe(s) && fd != INVALID_SOCKET && Get(s.registry, id) == fd && Undisturbed(s, es, id, fd)
    ensures Get(Run(s, es).registry, id) == fd
  {
    if es != [] {
      var front := es[..|es| - 1];
      OlderDisconnectsEvictNothing(s, front, id, fd);
      RunStaysSafe(s, front);
      StepLeavesOthersRegistered(Run(s, front), es[|es| - 1], id, fd);
    }
  }

  lemma StepLeavesOthersOnHub(s: State, e: Event, id: string, fd: int)
    requires Safe(s) && id in s.hub && s.hub[id] == fd && !Joins(s, e, id)
    requires !(e == Advance(fd) && fd in s.conns && s.conns[fd].phase.OffRegistry?)
    ensures id in Step(s, e).hub && Step(s, e).hub[id] == fd
  {
    if e.Advance? && Enabled(s, e) && s.conns[e.fd].phase.OffRegistry? {
      HubRemovalIsItsOwn(s, e.fd, id);
    }
  }

  lemma {:induction false} OlderDisconnectsKeepHub(s: State, es: seq<Event>, id: string, fd: int)
    requires Safe(s) && id in s.hub && s.hub[id] == fd && UndisturbedOnHub(s, es, id, fd)
    ensures id in Run(s, es).hub && Run(s, es).hub[id] == fd
  {
    if es != [] {
      var front := es[..|es| - 1];
      OlderDisconnectsKeepHub(s, front, id, fd);
      RunStaysSafe(s, front);
      StepLeavesOthersOnHub(Run(s, front), es[|es| - 1], id, fd);
    }
  }

  // ---- Registry and hub, exactly ------------------------------------------------------------------------

  /** The connection takes its socket out of the registry, or out of the hub. */
  predicate LeavesRegistry(s: State, e: Event, fd: int) {
    e == Advance(fd) && fd in s.conns && s.conns[fd].phase.Ending?
  }

  predicate LeavesHub(s: State, e: Event, fd: int) {
    e == Advance(fd) && fd in s.conns && s.conns[fd].phase.OffRegistry?
  }

  /** Step `i` registered the device on its socket, no later step registered the device again, and that
      socket has not been taken out since. */
  ghost predicate RegistrationStands(es: seq<Event>, i: int, id: string) {
    && 0 <= i < |es| && Registers(Run(START, es[..i]), es[i], id)
    && forall j :: i < j < |es| ==> !Registers(Run(START, es[..j]), es[j], id) && !LeavesRegistry(Run(START, es[..j]), es[j], es[i].fd)
  }

  ghost predicate JoinStands(es: seq<Event>, i: int, id: string) {
    && 0 <= i < |es| && Joins(Run(START, es[..i]), es[i], id)
    && forall j :: i < j < |es| ==> !Joins(Run(START, es[..j]), es[j], id) && !LeavesHub(Run(START, es[..j]), es[j], es[i].fd)
  }

  lemma RegistersValid(s: State, e: Event, id: string)
    requires Safe(s) && Registers(s, e, id)
    ensures id != "" && e.fd != INVALID_SOCKET && Key(id) == id
  {
    assert Modest(s.conns[e.fd]);
  }

  lemma StepRegisters(s: State, e: Event, id: string)
    requires Safe(s)
    ensures Get(Step(s, e).registry, id) ==
            if Registers(s, e, id) then e.fd
            else if Get(s.registry, id) != INVALID_SOCKET && LeavesRegistry(s, e, Get(s.registry, id)) then INVALID_SOCKET
            else Get(s.registry, id)
  {
    if Registers(s, e, id) {
      RegistersValid(s, e, id);
    }
    if e.Advance? && Enabled(s, e) {
      var c := s.conns[e.fd];
      if c.phase.Serving? && c.phase.todo[0].SetRegistry? {
        RegistersValid(s, e, c.device);
        SetChangesOnlyItsId(s.registry, c.device, e.fd, id);
      } else if c.phase.Ending? {
        RegistryRemovalIsItsOwn(s, e.fd, id);
      }
    }
  }

  lemma LastRegistrationStands(es: seq<Event>, i: int, id: string)
    requires es != []
    ensures var front := es[..|es| - 1];
            RegistrationStands(es, i, id) <==>
            (if i == |front| then Registers(Run(START, front), es[i], id)
             else RegistrationStands(front, i, id) && !Registers(Run(START, front), es[|front|], id)
                  && !LeavesRegistry(Run(START, front), es[|front|], front[i].fd))
  {
    var front := es[..|es| - 1];
    assert forall j :: 0 <= j <= |front| ==> es[..j] == front[..j];
    assert front[..|front|] == front;
  }

  /** The registry, exactly: over any interleaving a device is found on a socket if and only if a step
      registered it there, and since then no step registered it again or took that socket out. */
  lemma {:induction false} RegisteredExactly(es: seq<Event>, id: string, fd: int)
    requires fd != INVALID_SOCKET
    ensures Get(Run(START, es).registry, id) == fd <==> exists i :: RegistrationStands(es, i, id) && es[i].fd == fd
  {
    if es != [] {
      var front, e := es[..|es| - 1], es[|es| - 1];
      RegisteredExactly(front, id, fd);
      EntriesNameOpenConnections(front);
      StepRegisters(Run(START, front), e, id);
      RegistrationNext(es, id, fd);
    }
  }

  lemma RegistrationNext(es: seq<Event>, id: string, fd: int)
    requires es != []
    ensures var front, e := es[..|es| - 1], es[|es| - 1];
            (exists i :: RegistrationStands(es, i, id) && es[i].fd == fd) <==>
            if Registers(Run(START, front), e, id) then e.fd == fd
            else (exists i :: RegistrationStands(front, i, id) && front[i].fd == fd) && !LeavesRegistry(Run(START, front), e, fd)
  {
    var front, e := es[..|es| - 1], es[|es| - 1];
    var s := Run(START, front);
    forall i ensures RegistrationStands(es, i, id) <==>
          (if i == |front| then Registers(s, e, id)
           else RegistrationStands(front, i, id) && !Registers(s, e, id) && !LeavesRegistry(s, e, front[i].fd)) {
      LastRegistrationStands(es, i, id);
    }
    if Registers(s, e, id) {
      assert RegistrationStands(es, |front|, id);
    } else if (exists i :: RegistrationStands(front, i, id) && front[i].fd == fd) && !LeavesRegistry(s, e, fd) {
      var i :| RegistrationStands(front, i, id) && front[i].fd == fd;
      assert RegistrationStands(es, i, id) && es[i].fd == fd;
    }
  }

  lemma StepJoins(s: State, e: Event, id: string, fd: int)
    requires Safe(s)
    ensures id in Step(s, e).hub && Step(s, e).hub[id] == fd <==>
            if Joins(s, e, id) then e.fd == fd else id in s.hub && s.hub[id] == fd && !LeavesHub(s, e, fd)
  {
  }

  lemma LastJoinStands(es: seq<Event>, i: int, id: string)
    requires es != []
    ensures var front := es[..|es| - 1];
            JoinStands(es, i, id) <==>
            (if i == |front| then Joins(Run(START, front), es[i], id)
             else JoinStands(front, i, id) && !Joins(Run(START, front), es[|front|], id)
                  && !LeavesHub(Run(START, front), es[|front|], front[i].fd))
  {
    var front := es[..|es| - 1];
    assert forall j :: 0 <= j <= |front| ==> es[..j] == front[..j];
    assert front[..|front|] == front;
  }

  lemma JoinNext(es: seq<Event>, id: string, fd: int)
    requires es != []
    ensures var front, e := es[..|es| - 1], es[|es| - 1];
            (exists i :: JoinStands(es, i, id) && es[i].fd == fd) <==>
            if Joins(Run(START, front), e, id) then e.fd == fd
            else (exists i :: JoinStands(front, i, id) && front[i].fd == fd) && !LeavesHub(Run(START, front), e, fd)
  {
    var front, e := es[..|es| - 1], es[|es| - 1];
    var s := Run(START, front);
    forall i ensures JoinStands(es, i, id) <==>
          (if i == |front| then Joins(s, e, id)
           else JoinStands(front, i, id) && !Joins(s, e, id) && !LeavesHub(s, e, front[i].fd)) {
      LastJoinStands(es, i, id);
    }
    if Joins(s, e, id) {
      assert JoinStands(es, |front|, id);
    } else if (exists i :: JoinStands(front, i, id) && front[i].fd == fd) && !LeavesHub(s, e, fd) {
      var i :| JoinStands(front, i, id) && front[i].fd == fd;
      assert JoinStands(es, i, id) && es[i].fd == fd;
    }
  }

  /** The hub likewise. */
  lemma {:induction false} JoinedExactly(es: seq<Event>, id: string, fd: int)
    ensures id in Run(START, es).hub && Run(START, es).hub[id] == fd <==> exists i :: JoinStands(es, i, id) && es[i].fd == fd
  {
    if es != [] {
      var front, e := es[..|es| - 1], es[|es| - 1];
      JoinedExactly(front, id, fd);
      EntriesNameOpenConnections(front);
      StepJoins(Run(START, front), e, id, fd);
      JoinNext(es, id, fd);
    }
  }

  /** IsOnline asks the registry, then the hub. */
  predicate Online(s: State, id: string) {
    Get(s.registry, id) != INVALID_SOCKET || id in s.hub
  }

  /** A device that counts as online has an open connection. */
  lemma OnlineMeansConnected(es: seq<Event>, id: string)
    requires Online(Run(START, es), id)
    ensures exists fd :: fd in Run(START, es).conns && Run(START, es).conns[fd].device == id
  {
    var s := Run(START, es);
    EntriesNameOpenConnections(es);
    GetIsHeld(s.registry, id);
    var fd := if id in s.hub then s.hub[id] else Get(s.registry, id);
    assert fd in s.conns && s.conns[fd].device == id;
  }

  // ---- Authorisation -------------------------------------------------------------------------------------

  /** isAuthorized. */
  predicate Authorized(s: State, device: string) {
    device != "" && device in s.tokens && s.tokens[device] != ""
  }

  /** The step caches a token for the device: an accepted login frame or a credential login. */
  predicate Grants(s: State, e: Event, device: string) {
    e.Advance? && Enabled(s, e) && s.conns[e.fd].phase.Serving?
    && s.conns[e.fd].phase.todo[0].GrantTokens? && device in s.conns[e.fd].phase.todo[0].devices
  }

  /** The step drops the device's token: some connection of the device disconnects. */
  predicate Drops(s: State, e: Event, device: string) {
    e.Advance? && Enabled(s, e) && s.conns[e.fd].phase.OffHub? && s.conns[e.fd].device == device
  }

  /** Step `i` of the run granted the device a token, and no later step dropped it. */
  ghost predicate GrantStands(es: seq<Event>, i: int, device: string) {
    && 0 <= i < |es| && Grants(Run(START, es[..i]), es[i], device)
    && forall j :: i < j < |es| ==> !Drops(Run(START, es[..j]), es[j], device)
  }

  /** Tokens in waiting and in the cache are not empty. */
  ghost predicate RealTokens(s: State) {
    && (forall d :: d in s.tokens ==> s.tokens[d] != "")
    && (forall fd :: fd in s.conns && s.conns[fd].phase.Serving? ==> RealTasks(s.conns[fd].phase.todo))
  }

  ghost predicate RealTasks(todo: seq<Task>) {
    forall i :: 0 <= i < |todo| && todo[i].GrantTokens? ==> todo[i].token != ""
  }

  lemma StepKeepsTokensReal(s: State, e: Event)
    requires RealTokens(s)
    ensures RealTokens(Step(s, e))
  {
    if Enabled(s, e) {
      if e.Advance? {
        AdvanceKeepsTokensReal(s, e.fd);
      } else if e.LoginFrame? {
        assert RealTasks(LoginTasks(e.deviceId, Device(s.conns[e.fd], e.deviceId), e.token, e.accepted));
      }
    }
  }

  lemma AdvanceKeepsTokensReal(s: State, fd: int)
    requires RealTokens(s) && fd in s.conns && !Idle(s, fd)
    ensures RealTokens(Advanced(s, fd))
  {
    var c, next := s.conns[fd], Advanced(s, fd);
    if c.phase.Serving? {
      var todo := c.phase.todo;
      assert RealTasks(todo) && (todo[0].GrantTokens? ==> todo[0].token != "");
      assert RealTasks(todo[1..]);
    }
  }

  lemma {:induction false} TokensAreReal(es: seq<Event>)
    ensures RealTokens(Run(START, es))
  {
    if es != [] {
      TokensAreReal(es[..|es| - 1]);
      StepKeepsTokensReal(Run(START, es[..|es| - 1]), es[|es| - 1]);
    }
  }

  lemma StepAuthorizes(s: State, e: Event, device: string)
    requires RealTokens(s) && device != ""
    ensures Authorized(Step(s, e), device) <==> Grants(s, e, device) || (Authorized(s, device) && !Drops(s, e, device))
  {
  }

  lemma LastStepStands(es: seq<Event>, i: int, device: string)
    requires es != []
    ensures var front := es[..|es| - 1];
            GrantStands(es, i, device) <==>
            (if i == |front| then Grants(Run(START, front), es[i], device)
             else GrantStands(front, i, device) && !Drops(Run(START, front), es[|front|], device))
  {
    var front := es[..|es| - 1];
    assert forall j :: 0 <= j <= |front| ==> es[..j] == front[..j];
    assert front[..|front|] == front;
  }

  /** Authorisation history, exactly: a device is authorised if and only if its id is not empty and
      some step granted it a token that no disconnect of a connection of that device dropped since. */
  lemma {:induction false} AuthorizedExactly(es: seq<Event>, device: string)
    ensures Authorized(Run(START, es), device) <==> device != "" && exists i :: GrantStands(es, i, device)
  {
    if es != [] && device != "" {
      var front, e := es[..|es| - 1], es[|es| - 1];
      var s := Run(START, front);
      AuthorizedExactly(front, device);
      TokensAreReal(front);
      StepAuthorizes(s, e, device);
      forall i ensures GrantStands(es, i, device) <==>
            (if i == |front| then Grants(s, e, device) else GrantStands(front, i, device) && !Drops(s, e, device)) {
        LastStepStands(es, i, device);
      }
      assert !GrantStands(front, |front|, device);
      if Grants(s, e, device) {
        assert GrantStands(es, |front|, device);
      }
      if Authorized(s, device) && !Drops(s, e, device) {
        var i :| GrantStands(front, i, device);
        assert GrantStands(es, i, device);
      }
    }
  }
}
