/** What the device registry answers over whole histories of logins and closing connections. */
module RegistryHistory {
  import opened Registry

  datatype Step = Login(id: string, fd: int) | Closing(fd: int)

  function Apply(es: seq<Pair>, s: Step): seq<Pair> {
    match s
    case Login(id, fd) => Set(es, id, fd)
    case Closing(fd) => Remove(es, fd)
  }

  function RunFrom(es: seq<Pair>, steps: seq<Step>): seq<Pair> {
    if steps == [] then es else Apply(RunFrom(es, steps[..|steps| - 1]), steps[|steps| - 1])
  }

  function Run(steps: seq<Step>): seq<Pair> {
    RunFrom([], steps)
  }

  /** The login reaches the registry: it has an id and a socket. */
  predicate Effective(s: Step) {
    s.Login? && s.id != "" && s.fd != INVALID_SOCKET
  }

  /** The registry tells ids apart by as many characters as an entry stores. */
  lemma KeysAreEqualExactly(a: string, b: string)
    ensures Key(a) == Key(b) <==> a == b || (|a| >= 255 && |b| >= 255 && a[..255] == b[..255])
  {
    if |a| == 255 { assert a[..255] == a; }
    if |b| == 255 { assert b[..255] == b; }
  }

  // ---- One operation at a time -----------------------------------------------------------------------

  ghost predicate UniqueIds(es: seq<Pair>) {
    forall i, j :: 0 <= i < j < |es| ==> es[i].id != es[j].id
  }

  ghost predicate AtMostOne(es: seq<Pair>, fd: int) {
    forall i, j :: 0 <= i < j < |es| ==> es[i].fd != fd || es[j].fd != fd
  }

  lemma {:induction false} HasIdIsMembership(es: seq<Pair>, id: string)
    ensures HasId(es, id) <==> exists i :: 0 <= i < |es| && es[i].id == id
  {
    if es != [] {
      HasIdIsMembership(es[1..], id);
    }
  }

  /** A login replaces the pair of its own id only, or adds one, and keeps ids unique. */
  lemma {:induction false} UpdatedKeepsIds(es: seq<Pair>, id: string, fd: int)
    ensures |Updated(es, id, fd)| == |es|
    ensures forall i :: 0 <= i < |es| ==> Updated(es, id, fd)[i].id == es[i].id
  {
    if es != [] && es[0].id != id {
      UpdatedKeepsIds(es[1..], id, fd);
    }
  }

  lemma SetKeepsUniqueIds(es: seq<Pair>, id: string, fd: int)
    requires UniqueIds(es)
    ensures UniqueIds(Set(es, id, fd))
  {
    HasIdIsMembership(es, Key(id));
    UpdatedKeepsIds(es, Key(id), fd);
  }

  lemma {:induction false} GetAfterUpdate(es: seq<Pair>, id: string, fd: int, other: string)
    ensures Get(Updated(es, id, fd), other) == if other == id && HasId(es, id) then fd else Get(es, other)
  {
    if es != [] && es[0].id != id {
      GetAfterUpdate(es[1..], id, fd, other);
    }
  }

  lemma SetChangesOnlyItsId(es: seq<Pair>, id: string, fd: int, other: string)
    ensures Get(Set(es, id, fd), other) ==
            if id != "" && fd != INVALID_SOCKET && other == Key(id) then fd else Get(es, other)
  {
    GetAfterUpdate(es, Key(id), fd, other);
  }

  lemma {:induction false} WithoutFirstIsPart(es: seq<Pair>, fd: int)
    ensures forall e :: e in WithoutFirst(es, fd) ==> e in es
  {
    if es != [] && es[0].fd != fd {
      WithoutFirstIsPart(es[1..], fd);
    }
  }

  lemma {:induction false} WithoutFirstKeepsUniqueIds(es: seq<Pair>, fd: int)
    requires UniqueIds(es)
    ensures UniqueIds(WithoutFirst(es, fd))
    ensures forall e :: e in WithoutFirst(es, fd) ==> e in es
  {
    WithoutFirstIsPart(es, fd);
    if es != [] && es[0].fd != fd {
      var rest := WithoutFirst(es[1..], fd);
      WithoutFirstKeepsUniqueIds(es[1..], fd);
      assert forall i :: 0 <= i < |rest| ==> rest[i] in es[1..];
      FirstStaysUnique(es[0], rest);
    }
  }

  lemma FirstStaysUnique(e: Pair, rest: seq<Pair>)
    requires UniqueIds(rest) && forall i :: 0 <= i < |rest| ==> rest[i].id != e.id
    ensures UniqueIds([e] + rest)
  {
  }

  lemma {:induction false} GetIsMembership(es: seq<Pair>, i: nat)
    requires UniqueIds(es) && i < |es|
    ensures Get(es, es[i].id) == es[i].fd
  {
    if i > 0 {
      GetIsMembership(es[1..], i - 1);
    }
  }

  lemma {:induction false} GetIsHeld(es: seq<Pair>, id: string)
    ensures Get(es, id) != INVALID_SOCKET ==> Pair(id, Get(es, id)) in es
    ensures Get(es, id) == INVALID_SOCKET ==> forall i :: 0 <= i < |es| && es[i].id == id ==> HasId(es, id)
  {
    HasIdIsMembership(es, id);
    if es != [] && es[0].id != id {
      GetIsHeld(es[1..], id);
    }
  }

  lemma {:induction false} GetAfterRemoveElsewhere(es: seq<Pair>, fd: int, id: string)
    requires UniqueIds(es) && Get(es, id) != fd
    ensures Get(WithoutFirst(es, fd), id) == Get(es, id)
  {
    if es != [] {
      if es[0].fd == fd {
        assert es[0].id != id;
      } else if es[0].id != id {
        GetAfterRemoveElsewhere(es[1..], fd, id);
      }
    }
  }

  lemma {:induction false} GetAfterRemoveHere(es: seq<Pair>, fd: int, id: string)
    requires UniqueIds(es) && AtMostOne(es, fd) && fd != INVALID_SOCKET && Get(es, id) == fd
    ensures Get(WithoutFirst(es, fd), id) == INVALID_SOCKET
  {
    if es[0].id == id {
      NotFound(es[1..], id);
    } else {
      GetIsHeld(es[1..], id);
      assert es[0].fd != fd;
      GetAfterRemoveHere(es[1..], fd, id);
    }
  }

  /** Of two ids with the same socket, the later one survives the removal of that socket. */
  lemma {:induction false} SecondHolderSurvives(es: seq<Pair>, fd: int, i: nat, j: nat)
    requires UniqueIds(es) && i < j < |es| && es[i].fd == fd && es[j].fd == fd
    ensures es[j] in WithoutFirst(es, fd) && Get(WithoutFirst(es, fd), es[j].id) == fd
    decreases i
  {
    if es[0].fd == fd {
      GetIsMembership(es[1..], j - 1);
    } else {
      SecondHolderSurvives(es[1..], fd, i - 1, j - 1);
    }
  }

  lemma {:induction false} RemovesTheOnlyHolder(es: seq<Pair>, fd: int)
    requires AtMostOne(es, fd)
    ensures forall e :: e in WithoutFirst(es, fd) ==> e.fd != fd
  {
    if es != [] && es[0].fd != fd {
      RemovesTheOnlyHolder(es[1..], fd);
    }
  }

  /** Removal, exactly: no entry keeps the removed socket if and only if at most one had it. */
  lemma RemoveIsCompleteExactly(es: seq<Pair>, fd: int)
    requires UniqueIds(es) && fd != INVALID_SOCKET
    ensures (forall e :: e in Remove(es, fd) ==> e.fd != fd) <==> AtMostOne(es, fd)
  {
    if AtMostOne(es, fd) {
      RemovesTheOnlyHolder(es, fd);
    } else {
      var i, j :| 0 <= i < j < |es| && es[i].fd == fd && es[j].fd == fd;
      SecondHolderSurvives(es, fd, i, j);
    }
  }

  // ---- Histories ---------------------------------------------------------------------------------------

  /** The socket of the latest login of the id, unless that socket has closed since. */
  function Current(steps: seq<Step>, id: string): int {
    if steps == [] then INVALID_SOCKET else
    var before, s := Current(steps[..|steps| - 1], id), steps[|steps| - 1];
    if Effective(s) && Key(s.id) == id then s.fd
    else if s.Closing? && s.fd == before then INVALID_SOCKET
    else before
  }

  /** Step `i` is the latest login of the id, and its socket has not closed since. */
  ghost predicate LiveLogin(steps: seq<Step>, i: int, id: string) {
    && 0 <= i < |steps| && Effective(steps[i]) && Key(steps[i].id) == id
    && forall j :: i < j < |steps| ==> !(Effective(steps[j]) && Key(steps[j].id) == id) && steps[j] != Closing(steps[i].fd)
  }

  lemma {:induction false} LiveLoginIsCurrent(steps: seq<Step>, i: int, id: string)
    requires LiveLogin(steps, i, id)
    ensures Current(steps, id) == steps[i].fd
  {
    var front := steps[..|steps| - 1];
    if i < |front| {
      assert LiveLogin(front, i, id);
      LiveLoginIsCurrent(front, i, id);
      assert steps[|front|] != Closing(steps[i].fd);
    }
  }

  lemma {:induction false} CurrentHasALiveLogin(steps: seq<Step>, id: string) returns (i: int)
    requires Current(steps, id) != INVALID_SOCKET
    ensures LiveLogin(steps, i, id) && steps[i].fd == Current(steps, id)
  {
    var front, s := steps[..|steps| - 1], steps[|steps| - 1];
    if Effective(s) && Key(s.id) == id {
      i := |front|;
    } else {
      i := CurrentHasALiveLogin(front, id);
    }
  }

  lemma {:induction false} IdsStayUnique(steps: seq<Step>)
    ensures UniqueIds(Run(steps))
  {
    if steps != [] {
      var front, s := steps[..|steps| - 1], steps[|steps| - 1];
      IdsStayUnique(front);
      if s.Login? {
        SetKeepsUniqueIds(Run(front), s.id, s.fd);
      } else {
        WithoutFirstKeepsUniqueIds(Run(front), s.fd);
      }
    }
  }

  ghost predicate Tells(steps: seq<Step>) {
    forall id :: Get(Run(steps), id) == Current(steps, id)
  }

  /** At every closing connection, at most one device has its socket. */
  ghost predicate ClosesUnshared(steps: seq<Step>) {
    forall n :: 0 <= n < |steps| && steps[n].Closing? ==> AtMostOne(Run(steps[..n]), steps[n].fd)
  }

  lemma StepTells(steps: seq<Step>)
    requires steps != [] && Tells(steps[..|steps| - 1])
    requires var s := steps[|steps| - 1]; s.Closing? ==> AtMostOne(Run(steps[..|steps| - 1]), s.fd)
    ensures Tells(steps)
  {
    var front, s := steps[..|steps| - 1], steps[|steps| - 1];
    var es := Run(front);
    IdsStayUnique(front);
    forall id ensures Get(Run(steps), id) == Current(steps, id) {
      assert Get(es, id) == Current(front, id);
      if s.Login? {
        SetChangesOnlyItsId(es, s.id, s.fd, id);
      } else if s.fd != INVALID_SOCKET {
        if Get(es, id) == s.fd { GetAfterRemoveHere(es, s.fd, id); } else { GetAfterRemoveElsewhere(es, s.fd, id); }
      }
    }
  }

  lemma SharedCloseDeceives(steps: seq<Step>)
    requires steps != [] && steps[|steps| - 1].Closing? && steps[|steps| - 1].fd != INVALID_SOCKET
    requires Tells(steps[..|steps| - 1]) && !AtMostOne(Run(steps[..|steps| - 1]), steps[|steps| - 1].fd)
    ensures !Tells(steps)
  {
    var front, fd := steps[..|steps| - 1], steps[|steps| - 1].fd;
    var es := Run(front);
    IdsStayUnique(front);
    var i, j :| 0 <= i < j < |es| && es[i].fd == fd && es[j].fd == fd;
    SecondHolderSurvives(es, fd, i, j);
    GetIsMembership(es, j);
    assert Get(es, es[j].id) == Current(front, es[j].id);
    assert Get(Run(steps), es[j].id) == fd && Current(steps, es[j].id) == INVALID_SOCKET;
  }

  lemma {:induction false} SocketsAreValid(steps: seq<Step>)
    ensures forall e :: e in Run(steps) ==> e.fd != INVALID_SOCKET
  {
    if steps != [] {
      var front, s := steps[..|steps| - 1], steps[|steps| - 1];
      SocketsAreValid(front);
      IdsStayUnique(front);
      if s.Login? {
        UpdatedHolds(Run(front), Key(s.id), s.fd);
      } else {
        WithoutFirstKeepsUniqueIds(Run(front), s.fd);
      }
    }
  }

  lemma {:induction false} UpdatedHolds(es: seq<Pair>, id: string, fd: int)
    requires UniqueIds(es)
    ensures forall e :: e in Updated(es, id, fd) ==> e == Pair(id, fd) || (e in es && e.id != id)
  {
    if es != [] && es[0].id != id {
      UpdatedHolds(es[1..], id, fd);
    }
  }

  lemma {:induction false} UnsharedTells(steps: seq<Step>, n: nat)
    requires ClosesUnshared(steps) && n <= |steps|
    ensures Tells(steps[..n])
  {
    if n > 0 {
      UnsharedTells(steps, n - 1);
      assert steps[..n][..n - 1] == steps[..n - 1] && steps[..n][n - 1] == steps[n - 1];
      StepTells(steps[..n]);
    }
  }

  /** The registry and its history, exactly: after every step each lookup returns the socket of the
      device's latest login that has not closed, if and only if no closing connection shares its
      socket between two devices at that moment. */
  lemma RegistryTellsExactly(steps: seq<Step>)
    ensures (forall n :: 0 <= n <= |steps| ==> Tells(steps[..n])) <==> ClosesUnshared(steps)
  {
    if ClosesUnshared(steps) {
      forall n | 0 <= n <= |steps| ensures Tells(steps[..n]) { UnsharedTells(steps, n); }
    } else {
      var n :| 0 <= n < |steps| && steps[n].Closing? && !AtMostOne(Run(steps[..n]), steps[n].fd);
      assert steps[..n + 1][..n] == steps[..n] && steps[..n + 1][n] == steps[n];
      SocketsAreValid(steps[..n]);
      if Tells(steps[..n]) {
        SharedCloseDeceives(steps[..n + 1]);
      }
    }
  }

  // ---- One device per connection -----------------------------------------------------------------------

  datatype Owner = Nobody | Device(id: string)

  /** The device that the connection on this socket has logged in as. */
  function OwnerOf(steps: seq<Step>, fd: int): Owner {
    if steps == [] then Nobody else
    var s := steps[|steps| - 1];
    if Effective(s) && s.fd == fd then Device(Key(s.id))
    else if s == Closing(fd) then Nobody
    else OwnerOf(steps[..|steps| - 1], fd)
  }

  /** No connection logs in as two devices; a socket number may be used again after it closed. */
  predicate OneDevicePerConnection(steps: seq<Step>) {
    steps == [] ||
    var front, s := steps[..|steps| - 1], steps[|steps| - 1];
    OneDevicePerConnection(front) && (Effective(s) ==> OwnerOf(front, s.fd) in {Nobody, Device(Key(s.id))})
  }

  ghost predicate Owned(steps: seq<Step>) {
    forall e :: e in Run(steps) ==> OwnerOf(steps, e.fd) == Device(e.id)
  }

  lemma OwnedIsUnshared(steps: seq<Step>, fd: int)
    requires Owned(steps)
    ensures AtMostOne(Run(steps), fd)
  {
    IdsStayUnique(steps);
    var es := Run(steps);
    forall i, j | 0 <= i < j < |es| ensures es[i].fd != fd || es[j].fd != fd {
      assert OwnerOf(steps, es[i].fd) == Device(es[i].id) && OwnerOf(steps, es[j].fd) == Device(es[j].id);
    }
  }

  lemma {:induction false} OneDeviceOwns(steps: seq<Step>)
    requires OneDevicePerConnection(steps)
    ensures Owned(steps)
  {
    if steps != [] {
      var front, s := steps[..|steps| - 1], steps[|steps| - 1];
      OneDeviceOwns(front);
      IdsStayUnique(front);
      if s.Login? {
        UpdatedHolds(Run(front), Key(s.id), s.fd);
        HasIdIsMembership(Run(front), Key(s.id));
      } else {
        OwnedIsUnshared(front, s.fd);
        RemovesTheOnlyHolder(Run(front), s.fd);
        WithoutFirstKeepsUniqueIds(Run(front), s.fd);
        SocketsAreValid(front);
      }
    }
  }

  lemma {:induction false} PrefixHasOneDevice(steps: seq<Step>, n: nat)
    requires OneDevicePerConnection(steps) && n <= |steps|
    ensures OneDevicePerConnection(steps[..n])
    decreases |steps|
  {
    if n < |steps| {
      PrefixHasOneDevice(steps[..|steps| - 1], n);
      assert steps[..|steps| - 1][..n] == steps[..n];
    } else {
      assert steps[..n] == steps;
    }
  }

  /** Registry refinement: when every connection logs in as one device, each lookup after any run
      returns the socket of the latest login, or none once it closed. */
  lemma RegistryRefinesMap(steps: seq<Step>, id: string)
    requires OneDevicePerConnection(steps)
    ensures Get(Run(steps), id) == Current(steps, id)
  {
    forall n | 0 <= n < |steps| && steps[n].Closing? ensures AtMostOne(Run(steps[..n]), steps[n].fd) {
      PrefixHasOneDevice(steps, n);
      OneDeviceOwns(steps[..n]);
      OwnedIsUnshared(steps[..n], steps[n].fd);
    }
    UnsharedTells(steps, |steps|);
    assert steps[..|steps|] == steps;
  }

  /** Without that, a closed connection can stay registered: two devices over one connection. */
  lemma SharedConnectionStaysRegistered()
    ensures var steps := [Login("a", 5), Login("b", 5), Closing(5)];
            Get(Run(steps), "a") == 5 && Current(steps, "a") == INVALID_SOCKET && !OneDevicePerConnection(steps)
  {
    var steps := [Login("a", 5), Login("b", 5), Closing(5)];
    assert steps[..2] == [Login("a", 5), Login("b", 5)];
    assert steps[..2][..1] == [Login("a", 5)];
    assert Run([Login("a", 5)]) == [Pair("a", 5)];
    assert Run(steps[..2]) == [Pair("b", 5), Pair("a", 5)];
    assert Run(steps) == [Pair("a", 5)];
  }

  // ---- The connection handler ---------------------------------------------------------------------------

  /** A received frame, as far as the handler looks at it. */
  datatype Frame = Frame(isLogin: bool, deviceId: string)

  /** The device id of the last frame that carried one. */
  function LastDevice(frames: seq<Frame>): string {
    if frames == [] then "" else
    var f := frames[|frames| - 1];
    if f.deviceId != "" then f.deviceId else LastDevice(frames[..|frames| - 1])
  }

  /** The logins that reach the registry. */
  function LoginSteps(frames: seq<Frame>, fd: int): seq<Step> {
    if frames == [] then [] else
    var f := frames[|frames| - 1];
    LoginSteps(frames[..|frames| - 1], fd) + if f.isLogin && f.deviceId != "" then [Login(f.deviceId, fd)] else []
  }

  /** The device ids under which the callback gets the frames. */
  function DeliveredIds(frames: seq<Frame>): seq<string> {
    if frames == [] then [] else DeliveredIds(frames[..|frames| - 1]) + [LastDevice(frames)]
  }

  lemma OneMoreFrame(es: seq<Pair>, frames: seq<Frame>, i: nat, fd: int)
    requires i < |frames|
    ensures var f, es1 := frames[i], RunFrom(es, LoginSteps(frames[..i], fd));
            && RunFrom(es, LoginSteps(frames[..i + 1], fd)) == (if f.isLogin && f.deviceId != "" then Set(es1, f.deviceId, fd) else es1)
            && LastDevice(frames[..i + 1]) == (if f.deviceId != "" then f.deviceId else LastDevice(frames[..i]))
            && DeliveredIds(frames[..i + 1]) == DeliveredIds(frames[..i]) + [LastDevice(frames[..i + 1])]
  {
    var f, logins := frames[i], LoginSteps(frames[..i], fd);
    assert frames[..i + 1][..i] == frames[..i];
    if f.isLogin && f.deviceId != "" {
      RunStep(es, logins, Login(f.deviceId, fd));
    } else {
      assert logins + [] == logins;
    }
  }

  /** Every frame is delivered under the id of the latest frame so far that carried one. */
  lemma {:induction false} DeliveredExactly(frames: seq<Frame>, i: nat, k: nat)
    requires k <= i < |frames| && forall j :: k < j <= i ==> frames[j].deviceId == ""
    requires frames[k].deviceId != "" || k == 0
    ensures |DeliveredIds(frames)| == |frames| && DeliveredIds(frames)[i] == frames[k].deviceId
  {
    var front := frames[..|frames| - 1];
    if i < |front| {
      DeliveredExactly(front, i, k);
    } else {
      LatestIdIsLast(frames, k);
      if front != [] {
        DeliveredCount(front);
      }
    }
  }

  lemma {:induction false} DeliveredCount(frames: seq<Frame>)
    ensures |DeliveredIds(frames)| == |frames|
  {
    if frames != [] {
      DeliveredCount(frames[..|frames| - 1]);
    }
  }

  lemma {:induction false} LatestIdIsLast(frames: seq<Frame>, k: nat)
    requires k < |frames| && forall j :: k < j < |frames| ==> frames[j].deviceId == ""
    requires frames[k].deviceId != "" || k == 0
    ensures LastDevice(frames) == frames[k].deviceId
  {
    if k < |frames| - 1 {
      LatestIdIsLast(frames[..|frames| - 1], k);
    }
  }

  /** While the connection is served, every device that logged in over it is found on its socket. */
  lemma {:induction false} LoginsAreRegistered(es: seq<Pair>, frames: seq<Frame>, fd: int, k: nat)
    requires k < |frames| && frames[k].isLogin && frames[k].deviceId != "" && fd != INVALID_SOCKET
    ensures Get(RunFrom(es, LoginSteps(frames, fd)), Key(frames[k].deviceId)) == fd
  {
    var n := |frames| - 1;
    OneMoreFrame(es, frames, n, fd);
    assert frames[..n + 1] == frames;
    var before := RunFrom(es, LoginSteps(frames[..n], fd));
    if frames[n].isLogin && frames[n].deviceId != "" {
      SetChangesOnlyItsId(before, frames[n].deviceId, fd, Key(frames[k].deviceId));
    }
    if k < n {
      LoginsAreRegistered(es, frames[..n], fd, k);
    }
  }

  /** And no other device is found differently from before. */
  lemma {:induction false} OthersAreKept(es: seq<Pair>, frames: seq<Frame>, fd: int, id: string)
    requires forall k :: 0 <= k < |frames| && frames[k].isLogin && frames[k].deviceId != "" ==> Key(frames[k].deviceId) != id
    ensures Get(RunFrom(es, LoginSteps(frames, fd)), id) == Get(es, id)
  {
    if frames != [] {
      var n := |frames| - 1;
      OneMoreFrame(es, frames, n, fd);
      assert frames[..n + 1] == frames;
      if frames[n].isLogin && frames[n].deviceId != "" {
        SetChangesOnlyItsId(RunFrom(es, LoginSteps(frames[..n], fd)), frames[n].deviceId, fd, id);
      }
      OthersAreKept(es, frames[..n], fd, id);
    }
  }

  lemma RunStep(es: seq<Pair>, steps: seq<Step>, s: Step)
    ensures RunFrom(es, steps + [s]) == Apply(RunFrom(es, steps), s)
  {
    assert (steps + [s])[..|steps|] == steps;
  }

  /** One turn of the receive loop, up to the callback. */
  method TakeFrame(reg: DeviceRegistry, fd: int, frame: Frame, lastDevice: string) returns (delivered: string, last: string)
    requires reg.Valid()
    modifies reg, reg.repr
    ensures reg.Valid() && fresh(reg.repr - old(reg.repr))
    ensures last == delivered == if frame.deviceId != "" then frame.deviceId else lastDevice
    ensures reg.contents == if frame.isLogin && frame.deviceId != "" then Set(old(reg.contents), frame.deviceId, fd) else old(reg.contents)
  {
    delivered, last := frame.deviceId, lastDevice;
    if delivered == "" && last != "" {
      delivered := last;
    } else if delivered != "" {
      last := delivered;
      if frame.isLogin {
        reg.RegistrySet(last, fd);
      }
    }
  }

  /** protocol_connection_handler: a login registers the device, every frame reaches the callback
      under the last id the connection gave, and at the end the socket leaves the registry. */
  method ServeConnection(reg: DeviceRegistry, fd: int, frames: seq<Frame>) returns (delivered: seq<string>, lastDevice: string)
    requires reg.Valid()
    modifies reg, reg.repr
    ensures reg.Valid() && fresh(reg.repr - old(reg.repr))
    ensures delivered == DeliveredIds(frames) && lastDevice == LastDevice(frames)
    ensures reg.contents == Remove(RunFrom(old(reg.contents), LoginSteps(frames, fd)), fd)
  {
    delivered, lastDevice := ReceiveFrames(reg, fd, frames);
    reg.RegistryRemoveFd(fd);
  }

  method ReceiveFrames(reg: DeviceRegistry, fd: int, frames: seq<Frame>) returns (delivered: seq<string>, lastDevice: string)
    requires reg.Valid()
    modifies reg, reg.repr
    ensures reg.Valid() && fresh(reg.repr - old(reg.repr))
    ensures delivered == DeliveredIds(frames) && lastDevice == LastDevice(frames)
    ensures reg.contents == RunFrom(old(reg.contents), LoginSteps(frames, fd))
  {
    delivered, lastDevice := [], "";
    var i := 0;
    while i < |frames|
      invariant 0 <= i <= |frames|
      invariant reg.Valid() && fresh(reg.repr - old(reg.repr))
      invariant delivered == DeliveredIds(frames[..i]) && lastDevice == LastDevice(frames[..i])
      invariant reg.contents == RunFrom(old(reg.contents), LoginSteps(frames[..i], fd))
    {
      OneMoreFrame(old(reg.contents), frames, i, fd);
      var id;
      id, lastDevice := TakeFrame(reg, fd, frames[i], lastDevice);
      delivered := delivered + [id];
      i := i + 1;
    }
    assert frames[..|frames|] == frames;
  }
}
