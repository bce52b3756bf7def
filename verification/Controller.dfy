/** The hub and the token cache as the objects the backend's threads share. */
module Controller {
  import opened Registry
  import RegistryHistory
  import opened Lifecycle

  /** What the registry answers for a device id of any length: it compares as much of it as it stores. */
  function Registered(es: seq<Pair>, device: string): int {
    if device == "" then INVALID_SOCKET else Get(es, Key(device))
  }

  /** The socket that Send ends up using: the registered one, else the hub's, else none. */
  function SendTarget(registered: int, hub: map<string, int>, device: string, direct: bool, cached: bool): int {
    if registered != INVALID_SOCKET && direct then registered
    else if device in hub && hub[device] != INVALID_SOCKET && cached then hub[device]
    else INVALID_SOCKET
  }

  class Hub {
    var byID: map<string, int>

    constructor ()
      ensures byID == map[]
    {
      byID := map[];
    }

    method Register(device: string, fd: int)
      modifies this
      ensures byID == old(byID)[device := fd]
    {
      byID := byID[device := fd];
    }

    /** Deletes the entry only if it still belongs to this connection. */
    method Unregister(device: string, fd: int)
      modifies this
      ensures byID == Unregistered(old(byID), device, fd)
    {
      if device in byID && byID[device] == fd {
        byID := byID - {device};
      }
    }

    method IsOnline(registry: DeviceRegistry, device: string) returns (online: bool)
      requires registry.Valid()
      ensures online <==> (device != "" && Get(registry.contents, Key(device)) != INVALID_SOCKET) || device in byID
    {
      var fd := registry.RegistryGet(device);
      if fd != INVALID_SOCKET { return true; }
      online := device in byID;
    }

    /** `direct` and `cached` say whether the writes to the two sockets would succeed. */
    method Send(registry: DeviceRegistry, device: string, direct: bool, cached: bool) returns (to: int)
      requires registry.Valid()
      ensures to == SendTarget(Registered(registry.contents, device), byID, device, direct, cached)
      ensures var fd := if device == "" then INVALID_SOCKET else Get(registry.contents, Key(device));
              if fd != INVALID_SOCKET && direct then to == fd
              else if device in byID && cached then to == byID[device]
              else to == INVALID_SOCKET
    {
      var fd := registry.RegistryGet(device);
      if fd != INVALID_SOCKET && direct { return fd; }
      if device in byID && byID[device] != INVALID_SOCKET && cached { return byID[device]; }
      to := INVALID_SOCKET;
    }
  }

  /** Whichever way Send goes, at that moment the socket belongs to an open connection of the device, or
      of the one whose id is the part of a longer id that the registry compares. */
  lemma SendReachesTheDevice(es: seq<Event>, device: string, direct: bool, cached: bool)
    ensures var s := Run(START, es);
            var to := SendTarget(Registered(s.registry, device), s.hub, device, direct, cached);
            to != INVALID_SOCKET ==> to in s.conns && s.conns[to].device == Key(device)
  {
    EntriesNameOpenConnections(es);
    RegistryHistory.GetIsHeld(Run(START, es).registry, Key(device));
  }

  /** A send, exactly, after any interleaving: if the device is registered and the write there succeeds it goes
      to the socket of its latest registration that stands, else if the device joined the hub and the write
      there succeeds to the socket of its latest joining that stands, and otherwise nowhere. */
  lemma SendGoesExactly(es: seq<Event>, device: string, direct: bool, cached: bool)
    ensures var s := Run(START, es);
            var to := SendTarget(Registered(s.registry, device), s.hub, device, direct, cached);
            if device != "" && direct && exists i :: RegistrationStands(es, i, Key(device)) then
              exists i :: RegistrationStands(es, i, Key(device)) && to == es[i].fd
            else if cached && exists i :: JoinStands(es, i, device) then
              exists i :: JoinStands(es, i, device) && to == es[i].fd
            else to == INVALID_SOCKET
  {
    var s := Run(START, es);
    FoundExactly(es, device);
    HubFoundExactly(es, device);
    EntriesNameOpenConnections(es);
  }

  lemma FoundExactly(es: seq<Event>, device: string)
    ensures var fd := Registered(Run(START, es).registry, device);
            if device != "" && exists i :: RegistrationStands(es, i, Key(device)) then
              fd != INVALID_SOCKET && exists i :: RegistrationStands(es, i, Key(device)) && fd == es[i].fd
            else fd == INVALID_SOCKET
  {
    if device != "" {
      var fd := Get(Run(START, es).registry, Key(device));
      if fd != INVALID_SOCKET {
        RegisteredExactly(es, Key(device), fd);
      }
      if i :| RegistrationStands(es, i, Key(device)) {
        EntriesNameOpenConnections(es[..i]);
        RegistersValid(Run(START, es[..i]), es[i], Key(device));
        RegisteredExactly(es, Key(device), es[i].fd);
      }
    }
  }

  lemma HubFoundExactly(es: seq<Event>, device: string)
    ensures var hub := Run(START, es).hub;
            device in hub <==> exists i :: JoinStands(es, i, device)
    ensures var hub := Run(START, es).hub;
            device in hub ==> hub[device] != INVALID_SOCKET && exists i :: JoinStands(es, i, device) && hub[device] == es[i].fd
  {
    var hub := Run(START, es).hub;
    EntriesNameOpenConnections(es);
    if device in hub {
      JoinedExactly(es, device, hub[device]);
    }
    if i :| JoinStands(es, i, device) {
      JoinedExactly(es, device, es[i].fd);
    }
  }

  /** A device counts as online, exactly: a registration or a joining of it stands. */
  lemma OnlineExactly(es: seq<Event>, device: string)
    ensures var s := Run(START, es);
            (device != "" && Get(s.registry, Key(device)) != INVALID_SOCKET) || device in s.hub <==>
            (device != "" && exists i :: RegistrationStands(es, i, Key(device))) || exists i :: JoinStands(es, i, device)
  {
    FoundExactly(es, device);
    HubFoundExactly(es, device);
  }

  /** All the tasks a frame left, one after the other. */
  function Drained(s: State, fd: int): State
    requires fd in s.conns && s.conns[fd].phase.Serving?
    decreases |s.conns[fd].phase.todo|
  {
    if Idle(s, fd) then s else Drained(Advanced(s, fd), fd)
  }

  lemma RegistrationDrains(s: State, fd: int, device: string, tail: seq<Task>)
    requires fd in s.conns && s.conns[fd] == Conn(device, Serving([SetRegistry] + tail))
    requires device != "" && |device| <= MAX_DEVICE_ID && fd != INVALID_SOCKET
    ensures Drained(s, fd) == if tail == [] then Advanced(s, fd) else Drained(Advanced(s, fd), fd)
    ensures var t := Advanced(s, fd);
            t.conns[fd] == Conn(device, Serving(tail)) && t.hub == s.hub && t.tokens == s.tokens && Get(t.registry, device) == fd
  {
    assert ([SetRegistry] + tail)[1..] == tail;
    RegistryHistory.SetChangesOnlyItsId(s.registry, device, fd, device);
  }

  lemma GrantedOne(tokens: map<string, string>, device: string, token: string)
    ensures Granted(tokens, {device}, token) == tokens[device := token]
  {
  }

  /** A login frame of a device, taken to its end with no other step between: its connection has joined the hub,
      if the frame named the device is the registered one too, and a token that was accepted is cached. */
  lemma LoginTakesEffect(s: State, fd: int, deviceId: string, token: string, accepted: bool)
    requires Safe(s) && Enabled(s, LoginFrame(fd, deviceId, token, accepted))
    requires deviceId != "" || s.conns[fd].device != ""
    ensures var device := if deviceId != "" then deviceId else s.conns[fd].device;
            var t := Drained(Step(s, LoginFrame(fd, deviceId, token, accepted)), fd);
            && fd in t.conns && t.conns[fd] == Conn(device, Serving([]))
            && t.hub == s.hub[device := fd]
            && (deviceId != "" ==> Get(t.registry, deviceId) == fd)
            && (token != "" && accepted ==> t.tokens == s.tokens[device := token])
            && (token == "" || !accepted ==> t.tokens == s.tokens)
  {
    var device := Device(s.conns[fd], deviceId);
    var t := Step(s, LoginFrame(fd, deviceId, token, accepted));
    var tail := LoginTasks("", device, token, accepted);
    if deviceId != "" {
      assert LoginTasks(deviceId, device, token, accepted) == [SetRegistry] + tail;
      RegistrationDrains(t, fd, device, tail);
      LoginDrains(Advanced(t, fd), fd, device, token, accepted);
    } else {
      LoginDrains(t, fd, device, token, accepted);
    }
    GrantedOne(s.tokens, device, token);
  }

  /** Accepted credentials, taken to their end: the token is cached for the requested id, or the frame's own if
      none was requested, and for the frame's own id as well. */
  lemma CredentialsTakeEffect(s: State, fd: int, deviceId: string, request: string, token: string, d: string)
    requires Enabled(s, Credentials(fd, deviceId, request, token))
    ensures var own := if deviceId != "" then deviceId else s.conns[fd].device;
            var t := Drained(Step(s, Credentials(fd, deviceId, request, token)), fd);
            && fd in t.conns && t.conns[fd] == Conn(own, Serving([]))
            && (d in t.tokens <==> d in s.tokens || (d != "" && (d == request || d == own)))
            && (d in t.tokens ==> t.tokens[d] == if d != "" && (d == request || d == own) then token else s.tokens[d])
  {
    var t := Step(s, Credentials(fd, deviceId, request, token));
    assert Idle(Advanced(t, fd), fd);
  }

  /** Any other frame, and a login frame of a connection that never named a device, leaves nothing but its id. */
  lemma OtherFrameTakesEffect(s: State, fd: int, deviceId: string)
    requires Enabled(s, OtherFrame(fd, deviceId))
    ensures Step(s, OtherFrame(fd, deviceId)) ==
            s.(conns := s.conns[fd := Conn(if deviceId != "" then deviceId else s.conns[fd].device, Serving([]))])
  {
  }

  lemma JoinDrains(s: State, fd: int, device: string)
    requires fd in s.conns && s.conns[fd] == Conn(device, Serving([JoinHub]))
    ensures var t := Drained(s, fd);
            && t.hub == s.hub[device := fd] && t.tokens == s.tokens && t.registry == s.registry
            && fd in t.conns && t.conns[fd] == Conn(device, Serving([]))
  {
    assert Idle(Advanced(s, fd), fd);
  }

  lemma LoginDrains(s: State, fd: int, device: string, token: string, accepted: bool)
    requires fd in s.conns && s.conns[fd] == Conn(device, Serving(LoginTasks("", device, token, accepted))) && device != ""
    ensures Drained(s, fd).hub == s.hub[device := fd] && Drained(s, fd).registry == s.registry
    ensures fd in Drained(s, fd).conns && Drained(s, fd).conns[fd] == Conn(device, Serving([]))
    ensures Drained(s, fd).tokens == if token != "" && accepted then Granted(s.tokens, {device}, token) else s.tokens
  {
    if token != "" && accepted {
      assert LoginTasks("", device, token, accepted) == [GrantTokens({device}, token), JoinHub];
      JoinDrains(Advanced(s, fd), fd, device);
    } else {
      assert LoginTasks("", device, token, accepted) == [JoinHub];
      JoinDrains(s, fd, device);
    }
  }

  function StepsLeft(phase: Phase): nat {
    match phase case Ending => 4 case OffRegistry => 3 case OffHub => 2 case Finished => 1 case Serving(_) => 0
  }

  /** All the steps of a connection on its way out, one after the other. */
  function Closed(s: State, fd: int): State
    decreases if fd in s.conns then StepsLeft(s.conns[fd].phase) else 0
  {
    if fd !in s.conns || s.conns[fd].phase.Serving? then s else Closed(Advanced(s, fd), fd)
  }

  /** A connection that ends, taken to its end with no other step between: it is gone, nothing finds its socket
      any more, what was found on other sockets still is, and its device's token is dropped. */
  lemma ClosingTakesEffect(s: State, fd: int, id: string)
    requires Safe(s) && Idle(s, fd)
    ensures var device, t := s.conns[fd].device, Closed(Step(s, EndOfStream(fd)), fd);
            && fd !in t.conns
            && Get(t.registry, id) == (if Get(s.registry, id) == fd then INVALID_SOCKET else Get(s.registry, id))
            && (id in t.hub <==> id in s.hub && s.hub[id] != fd) && (id in t.hub ==> t.hub[id] == s.hub[id])
            && (id in t.tokens <==> id in s.tokens && (id != device || id == "")) && (id in t.tokens ==> t.tokens[id] == s.tokens[id])
  {
    var device := s.conns[fd].device;
    var s1 := Step(s, EndOfStream(fd));
    StepKeepsRegistry(s, EndOfStream(fd));
    StepKeepsHub(s, EndOfStream(fd));
    FramesKeepModesty(s, EndOfStream(fd));
    RegistryRemovalIsItsOwn(s1, fd, id);
    CloseAfterRegistry(Advanced(s1, fd), fd, id);
    assert id in s.hub && s.hub[id] == fd ==> id == device;
  }

  lemma CloseAfterRegistry(s: State, fd: int, id: string)
    requires fd in s.conns && s.conns[fd].phase == OffRegistry
    ensures var device, t := s.conns[fd].device, Closed(s, fd);
            && fd !in t.conns && t.registry == s.registry
            && t.hub == (if device == "" then s.hub else Unregistered(s.hub, device, fd))
            && t.tokens == (if device == "" then s.tokens else s.tokens - {device})
  {
    var s1 := Advanced(s, fd);
    if s.conns[fd].device == "" {
      CloseFinished(s1, fd);
    } else {
      CloseFinished(Advanced(s1, fd), fd);
    }
  }

  lemma CloseFinished(s: State, fd: int)
    requires fd in s.conns && s.conns[fd].phase == Finished
    ensures Closed(s, fd) == s.(conns := s.conns - {fd})
  {
    assert fd !in Advanced(s, fd).conns;
  }

  class ProtocolController {
    const hub: Hub
    var deviceTokens: map<string, string>

    constructor (hub: Hub)
      ensures this.hub == hub && deviceTokens == map[]
    {
      this.hub, deviceTokens := hub, map[];
    }

    ghost predicate Shows(s: State)
      reads this, hub
    {
      s.hub == hub.byID && s.tokens == deviceTokens
    }

    method IsAuthorized(ghost s: State, device: string) returns (ok: bool)
      requires Shows(s)
      ensures ok <==> Authorized(s, device)
      ensures ok <==> device != "" && device in deviceTokens && deviceTokens[device] != ""
    {
      if device == "" { return false; }
      var token := if device in deviceTokens then deviceTokens[device] else "";
      ok := token != "";
    }

    /** The login branch of HandleMessage; `accepted` is its verdict on the token. */
    method HandleLoginFrame(ghost s: State, fd: int, device: string, token: string, accepted: bool)
      requires Shows(s) && fd in s.conns && s.conns[fd] == Conn(device, Serving(LoginTasks("", device, token, accepted)))
      modifies this, hub
      ensures Shows(Drained(s, fd))
    {
      if device == "" { return; }
      LoginDrains(s, fd, device, token, accepted);
      if token != "" && accepted {
        deviceTokens := deviceTokens[device := token];
        assert Granted(s.tokens, {device}, token) == deviceTokens;
      }
      hub.Register(device, fd);
    }

    /** The token-caching step of handleLogin, after the credentials were accepted. */
    method CacheToken(ghost s: State, fd: int, device: string, request: string, token: string)
      requires Shows(s) && fd in s.conns && s.conns[fd] == Conn(device, Serving(CredentialTasks(device, request, token)))
      requires request != "" || device != ""
      modifies this
      ensures Shows(Drained(s, fd))
    {
      var named := request;
      if named == "" {
        named := device;
      }
      deviceTokens := deviceTokens[named := token];
      if device != "" && device != named {
        deviceTokens := deviceTokens[device := token];
      }
      assert deviceTokens == Granted(s.tokens, {named} + (if device != "" then {device} else {}), token);
      assert Idle(Advanced(s, fd), fd);
    }

    /** HandleDisconnect: first off the hub, then the device's token. */
    method HandleDisconnect(ghost s: State, fd: int, device: string)
      requires Shows(s) && fd in s.conns && s.conns[fd] == Conn(device, OffRegistry)
      modifies this, hub
      ensures Shows(if device == "" then Advanced(s, fd) else Advanced(Advanced(s, fd), fd))
    {
      if device == "" { return; }
      hub.Unregister(device, fd);
      deviceTokens := deviceTokens - {device};
    }
  }
}
