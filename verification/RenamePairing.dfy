/** The Windows file monitor's pairing of rename notifications. */
module RenamePairing {
  const ADDED := 1
  const REMOVED := 2
  const MODIFIED := 3
  const RENAMED_OLD := 4
  const RENAMED_NEW := 5
  const ADDED_STREAM := 6
  const REMOVED_STREAM := 7
  const MODIFIED_STREAM := 8

  /** renamePairTTL, two seconds in nanoseconds. */
  const TTL := 2_000_000_000

  datatype Action = Create | Modify | Delete | Rename | Move | MoveOut

  datatype FileEvent = FileEvent(action: Action, path: string, oldPath: string, time: int)

  datatype Pending = Pending(path: string, when: int)

  /** One record of the directory watch and the time at which it was read. */
  datatype Notification = Notification(action: nat, path: string, time: int)

  datatype State = State(queue: seq<Pending>, emitted: seq<FileEvent>)

  const START := State([], [])

  /** Everything up to the last separator, which for the cleaned paths of the monitor tells the same
      directories apart as filepath.Dir. */
  function Dir(path: string): string {
    if path == "" || path[|path| - 1] == '\\' then path else Dir(path[..|path| - 1])
  }

  predicate Expired(p: Pending, now: int) {
    now - p.when > TTL
  }

  /** How many entries at the front of the queue have expired. */
  function ExpiredFront(queue: seq<Pending>, now: int): (n: nat)
    ensures n <= |queue|
    ensures forall i :: 0 <= i < n ==> Expired(queue[i], now)
    ensures n < |queue| ==> !Expired(queue[n], now)
  {
    if queue == [] || !Expired(queue[0], now) then 0 else 1 + ExpiredFront(queue[1..], now)
  }

  function MovedOut(queue: seq<Pending>, n: nat, now: int): seq<FileEvent>
    requires n <= |queue|
  {
    seq(n, i requires 0 <= i < n => FileEvent(MoveOut, queue[i].path, queue[i].path, now))
  }

  function Flushed(s: State, now: int): State {
    var n := ExpiredFront(s.queue, now);
    State(s.queue[n..], s.emitted + MovedOut(s.queue, n, now))
  }

  function Plain(action: nat): Action {
    if action == ADDED || action == RENAMED_NEW then Create else if action == REMOVED then Delete else Modify
  }

  function Paired(from: Pending, n: Notification): FileEvent {
    FileEvent(if Dir(from.path) != Dir(n.path) then Move else Rename, n.path, from.path, n.time)
  }

  function Dispatched(s: State, n: Notification): State {
    if n.action == RENAMED_OLD then s.(queue := s.queue + [Pending(n.path, n.time)])
    else if n.action == RENAMED_NEW && s.queue != [] then State(s.queue[1..], s.emitted + [Paired(s.queue[0], n)])
    else s.(emitted := s.emitted + [FileEvent(Plain(n.action), n.path, "", n.time)])
  }

  /** The watcher flushes before every notification. */
  function Step(s: State, n: Notification): State {
    Dispatched(Flushed(s, n.time), n)
  }

  function Run(ns: seq<Notification>): State {
    if ns == [] then START else Step(Run(ns[..|ns| - 1]), ns[|ns| - 1])
  }

  // ---- The watcher -----------------------------------------------------------------------------------

  class Watcher {
    var queue: seq<Pending>
    var emitted: seq<FileEvent>

    constructor ()
      ensures View() == START
    {
      queue, emitted := [], [];
    }

    ghost function View(): State
      reads this
    {
      State(queue, emitted)
    }

    method EmitEvent(event: FileEvent)
      modifies this`emitted
      ensures emitted == old(emitted) + [event]
    {
      emitted := emitted + [event];
    }

    method FlushExpiredRenames(now: int)
      modifies this
      ensures View() == Flushed(old(View()), now)
    {
      if |queue| == 0 {
        assert emitted + [] == emitted;
        return;
      }
      var index := 0;
      while index < |queue| && now - queue[index].when > TTL
        invariant 0 <= index <= ExpiredFront(queue, now)
        invariant queue == old(queue) && emitted == old(emitted) + MovedOut(queue, index, now)
      {
        OneMoreMovedOut(old(emitted), queue, index, now);
        EmitEvent(FileEvent(MoveOut, queue[index].path, queue[index].path, now));
        index := index + 1;
      }
      queue := queue[index..];
    }

    method DispatchAction(action: nat, fullPath: string, ts: int)
      modifies this
      ensures View() == Dispatched(old(View()), Notification(action, fullPath, ts))
    {
      if action == ADDED {
        EmitEvent(FileEvent(Create, fullPath, "", ts));
      } else if action == REMOVED {
        EmitEvent(FileEvent(Delete, fullPath, "", ts));
      } else if action == MODIFIED || action == ADDED_STREAM || action == REMOVED_STREAM || action == MODIFIED_STREAM {
        EmitEvent(FileEvent(Modify, fullPath, "", ts));
      } else if action == RENAMED_OLD {
        queue := queue + [Pending(fullPath, ts)];
      } else if action == RENAMED_NEW {
        if |queue| == 0 {
          EmitEvent(FileEvent(Create, fullPath, "", ts));
          return;
        }
        var from := queue[0];
        queue := queue[1..];
        var actionType := Rename;
        if Dir(from.path) != Dir(fullPath) {
          actionType := Move;
        }
        EmitEvent(FileEvent(actionType, fullPath, from.path, ts));
      } else {
        EmitEvent(FileEvent(Modify, fullPath, "", ts));
      }
    }

    /** The loop over the records of a run of reads. */
    method HandleAll(ns: seq<Notification>)
      requires View() == START
      modifies this
      ensures View() == Run(ns)
    {
      for i := 0 to |ns|
        invariant View() == Run(ns[..i])
      {
        assert ns[..i + 1][..i] == ns[..i];
        FlushExpiredRenames(ns[i].time);
        DispatchAction(ns[i].action, ns[i].path, ns[i].time);
      }
      assert ns[..|ns|] == ns;
    }
  }

  lemma OneMoreMovedOut(before: seq<FileEvent>, queue: seq<Pending>, index: nat, now: int)
    requires index < |queue|
    ensures before + MovedOut(queue, index, now) + [FileEvent(MoveOut, queue[index].path, queue[index].path, now)]
            == before + MovedOut(queue, index + 1, now)
  {
  }

  // ---- Conservation --------------------------------------------------------------------------------------

  predicate Bears(e: FileEvent) {
    e.action == Rename || e.action == Move || e.action == MoveOut
  }

  /** The events that bear an old path, in order. */
  function Olds(es: seq<FileEvent>): seq<FileEvent> {
    if es == [] then [] else Olds(es[..|es| - 1]) + if Bears(es[|es| - 1]) then [es[|es| - 1]] else []
  }

  /** The rename-old notifications, in order. */
  function Inputs(ns: seq<Notification>): seq<Notification> {
    if ns == [] then [] else Inputs(ns[..|ns| - 1]) + if ns[|ns| - 1].action == RENAMED_OLD then [ns[|ns| - 1]] else []
  }

  /** The event accounts for the rename-old notification: a pairing comes within the time limit, a
      rename within one directory and a move across two; a move-out comes after the limit. */
  predicate Accounts(e: FileEvent, input: Notification) {
    && Bears(e) && e.oldPath == input.path
    && (e.action == MoveOut <==> e.time - input.time > TTL)
    && (e.action == MoveOut ==> e.path == input.path)
    && (e.action == Rename ==> Dir(e.path) == Dir(input.path))
    && (e.action == Move ==> Dir(e.path) != Dir(input.path))
  }

  predicate Waits(p: Pending, input: Notification) {
    p == Pending(input.path, input.time)
  }

  /** The events with old paths and then the queue stand for the inputs, one by one. */
  ghost predicate Conserves(olds: seq<FileEvent>, queue: seq<Pending>, inputs: seq<Notification>) {
    && |olds| + |queue| == |inputs|
    && (forall k :: 0 <= k < |olds| ==> Accounts(olds[k], inputs[k]))
    && (forall k :: 0 <= k < |queue| ==> Waits(queue[k], inputs[|olds| + k]))
  }

  lemma {:induction false} OldsConcat(a: seq<FileEvent>, b: seq<FileEvent>)
    ensures Olds(a + b) == Olds(a) + Olds(b)
  {
    if b == [] {
      assert a + b == a;
    } else {
      assert (a + b)[..|a + b| - 1] == a + b[..|b| - 1];
      OldsConcat(a, b[..|b| - 1]);
    }
  }

  lemma {:induction false} OldsOfBearing(es: seq<FileEvent>)
    requires forall k :: 0 <= k < |es| ==> Bears(es[k])
    ensures Olds(es) == es
  {
    if es != [] {
      OldsOfBearing(es[..|es| - 1]);
      assert es == es[..|es| - 1] + [es[|es| - 1]];
    }
  }

  lemma OldsNext(es: seq<FileEvent>, e: FileEvent)
    ensures Olds(es + [e]) == if Bears(e) then Olds(es) + [e] else Olds(es)
  {
    assert (es + [e])[..|es|] == es;
  }

  lemma FlushConserves(s: State, now: int, inputs: seq<Notification>)
    requires Conserves(Olds(s.emitted), s.queue, inputs)
    ensures Conserves(Olds(Flushed(s, now).emitted), Flushed(s, now).queue, inputs)
  {
    var n := ExpiredFront(s.queue, now);
    OldsConcat(s.emitted, MovedOut(s.queue, n, now));
    OldsOfBearing(MovedOut(s.queue, n, now));
    MoveAcross(Olds(s.emitted), s.queue, inputs, n, now);
  }

  lemma MoveAcross(olds: seq<FileEvent>, queue: seq<Pending>, inputs: seq<Notification>, n: nat, now: int)
    requires Conserves(olds, queue, inputs) && n <= |queue|
    requires forall i :: 0 <= i < n ==> Expired(queue[i], now)
    ensures Conserves(olds + MovedOut(queue, n, now), queue[n..], inputs)
  {
    var longer := olds + MovedOut(queue, n, now);
    forall k | |olds| <= k < |longer| ensures Accounts(longer[k], inputs[k]) {
      assert Waits(queue[k - |olds|], inputs[|olds| + (k - |olds|)]);
    }
    forall k | 0 <= k < |queue| - n ensures Waits(queue[n..][k], inputs[|longer| + k]) {
      assert Waits(queue[n + k], inputs[|olds| + (n + k)]);
    }
  }

  lemma PairConserves(olds: seq<FileEvent>, queue: seq<Pending>, inputs: seq<Notification>, n: Notification)
    requires Conserves(olds, queue, inputs) && queue != [] && !Expired(queue[0], n.time)
    ensures Conserves(olds + [Paired(queue[0], n)], queue[1..], inputs)
  {
    assert Waits(queue[0], inputs[|olds| + 0]);
    forall k | 0 <= k < |queue| - 1 ensures Waits(queue[1..][k], inputs[|olds| + 1 + k]) {
      assert Waits(queue[1 + k], inputs[|olds| + (1 + k)]);
    }
  }

  lemma QueueConserves(olds: seq<FileEvent>, queue: seq<Pending>, inputs: seq<Notification>, n: Notification)
    requires Conserves(olds, queue, inputs)
    ensures Conserves(olds, queue + [Pending(n.path, n.time)], inputs + [n])
  {
  }

  lemma PairingConserves(f: State, inputs: seq<Notification>, n: Notification)
    requires Conserves(Olds(f.emitted), f.queue, inputs) && n.action == RENAMED_NEW
    requires f.queue != [] && !Expired(f.queue[0], n.time)
    ensures Conserves(Olds(Dispatched(f, n).emitted), Dispatched(f, n).queue, inputs)
  {
    PairConserves(Olds(f.emitted), f.queue, inputs, n);
    OldsNext(f.emitted, Paired(f.queue[0], n));
  }

  lemma DispatchConserves(f: State, inputs: seq<Notification>, n: Notification)
    requires Conserves(Olds(f.emitted), f.queue, inputs) && (f.queue != [] ==> !Expired(f.queue[0], n.time))
    ensures Conserves(Olds(Dispatched(f, n).emitted), Dispatched(f, n).queue, if n.action == RENAMED_OLD then inputs + [n] else inputs)
  {
    if n.action == RENAMED_OLD {
      QueueConserves(Olds(f.emitted), f.queue, inputs, n);
    } else if n.action == RENAMED_NEW && f.queue != [] {
      PairingConserves(f, inputs, n);
    } else {
      OldsNext(f.emitted, FileEvent(Plain(n.action), n.path, "", n.time));
    }
  }

  lemma StepConserves(s: State, inputs: seq<Notification>, n: Notification)
    requires Conserves(Olds(s.emitted), s.queue, inputs)
    ensures Conserves(Olds(Step(s, n).emitted), Step(s, n).queue, if n.action == RENAMED_OLD then inputs + [n] else inputs)
  {
    FlushConserves(s, n.time, inputs);
    DispatchConserves(Flushed(s, n.time), inputs, n);
  }

  /** FIFO conservation: along every sequence of notifications, with any timestamps, the k-th event
      with an old path accounts for the k-th rename-old notification, and the queue holds exactly the
      notifications after those. */
  lemma {:induction false} RenamesAreConserved(ns: seq<Notification>)
    ensures Conserves(Olds(Run(ns).emitted), Run(ns).queue, Inputs(ns))
  {
    if ns != [] {
      RenamesAreConserved(ns[..|ns| - 1]);
      StepConserves(Run(ns[..|ns| - 1]), Inputs(ns[..|ns| - 1]), ns[|ns| - 1]);
    }
  }

  // ---- What each notification emits ------------------------------------------------------------------------

  /** The rename-old notifications that no event accounts for yet, oldest first. */
  ghost function Waiting(ns: seq<Notification>): seq<Notification> {
    var olds, inputs := Olds(Run(ns).emitted), Inputs(ns);
    if |olds| <= |inputs| then inputs[|olds|..] else []
  }

  /** The first `k` of these waited longer than the limit, and the next one, if any, did not. */
  ghost predicate Overdue(waiting: seq<Notification>, now: int, k: nat) {
    && k <= |waiting|
    && (forall i :: 0 <= i < k ==> now - waiting[i].time > TTL)
    && (k < |waiting| ==> now - waiting[k].time <= TTL)
  }

  /** The first `k` old names were moved out. */
  ghost predicate AllMovedOut(events: seq<FileEvent>, waiting: seq<Notification>, now: int, k: nat) {
    && |events| == k <= |waiting|
    && forall i :: 0 <= i < k ==> events[i] == FileEvent(MoveOut, waiting[i].path, waiting[i].path, now)
  }

  /** The event that an old name and its new one make. */
  predicate PairsUp(e: FileEvent, from: Notification, to: Notification) {
    && e.path == to.path && e.oldPath == from.path && e.time == to.time
    && e.action == if Dir(from.path) == Dir(to.path) then Rename else Move
  }

  /** What a notification itself emits when the old names in `waiting` are still waiting: an old name nothing,
      a new name a rename or move from the oldest of them or, if there is none, a creation, and every other
      notification the event of its own kind. */
  predicate Answers(events: seq<FileEvent>, waiting: seq<Notification>, n: Notification) {
    if n.action == RENAMED_OLD then events == []
    else if n.action == RENAMED_NEW && waiting != [] then |events| == 1 && PairsUp(events[0], waiting[0], n)
    else if n.action == RENAMED_NEW || n.action == ADDED then events == [FileEvent(Create, n.path, "", n.time)]
    else if n.action == REMOVED then events == [FileEvent(Delete, n.path, "", n.time)]
    else events == [FileEvent(Modify, n.path, "", n.time)]
  }

  ghost predicate Emits(before: seq<FileEvent>, after: seq<FileEvent>, waiting: seq<Notification>, n: Notification, k: nat) {
    exists moved, own :: after == before + moved + own && AllMovedOut(moved, waiting, n.time, k) && Answers(own, waiting[k..], n)
  }

  lemma WaitingIsQueue(ns: seq<Notification>)
    ensures var waiting, queue := Waiting(ns), Run(ns).queue;
            |waiting| == |queue| && forall i :: 0 <= i < |queue| ==> queue[i] == Pending(waiting[i].path, waiting[i].time)
  {
    RenamesAreConserved(ns);
    var olds, inputs, queue := Olds(Run(ns).emitted), Inputs(ns), Run(ns).queue;
    forall i | 0 <= i < |queue| ensures queue[i] == Pending(Waiting(ns)[i].path, Waiting(ns)[i].time) {
      assert Waits(queue[i], inputs[|olds| + i]);
    }
  }

  /** After any notifications, the next one first moves out the old names that have waited too long, and no
      others, and then emits its answer to those that still wait. */
  lemma EmittedExactly(ns: seq<Notification>, n: Notification)
    ensures exists k :: Overdue(Waiting(ns), n.time, k) && Emits(Run(ns).emitted, Run(ns + [n]).emitted, Waiting(ns), n, k)
  {
    var s := Run(ns);
    var f, k := Flushed(s, n.time), ExpiredFront(s.queue, n.time);
    WaitingIsQueue(ns);
    FrontIsOverdue(s.queue, n.time, Waiting(ns));
    assert (ns + [n])[..|ns|] == ns;
    var own := OwnEvents(f, n);
    DispatchAnswers(f, n, Waiting(ns)[k..]);
    assert AllMovedOut(MovedOut(s.queue, k, n.time), Waiting(ns), n.time, k);
    assert Run(ns + [n]).emitted == s.emitted + MovedOut(s.queue, k, n.time) + own;
  }

  function OwnEvents(f: State, n: Notification): seq<FileEvent> {
    if n.action == RENAMED_OLD then []
    else if n.action == RENAMED_NEW && f.queue != [] then [Paired(f.queue[0], n)]
    else [FileEvent(Plain(n.action), n.path, "", n.time)]
  }

  lemma DispatchAnswers(f: State, n: Notification, waiting: seq<Notification>)
    requires |waiting| == |f.queue| && forall i :: 0 <= i < |waiting| ==> f.queue[i] == Pending(waiting[i].path, waiting[i].time)
    ensures Dispatched(f, n).emitted == f.emitted + OwnEvents(f, n) && Answers(OwnEvents(f, n), waiting, n)
  {
  }

  lemma FrontIsOverdue(queue: seq<Pending>, now: int, waiting: seq<Notification>)
    requires |waiting| == |queue| && forall i :: 0 <= i < |queue| ==> queue[i] == Pending(waiting[i].path, waiting[i].time)
    ensures Overdue(waiting, now, ExpiredFront(queue, now))
  {
    var n := ExpiredFront(queue, now);
    forall i | 0 <= i < n ensures now - waiting[i].time > TTL {
      assert Expired(queue[i], now);
    }
  }

  /** How many old names are overdue is determined. */
  lemma OverdueIsDetermined(waiting: seq<Notification>, now: int, k: nat, m: nat)
    requires Overdue(waiting, now, k) && Overdue(waiting, now, m)
    ensures k == m
  {
  }

  /** The directory is what comes before the last part of a path. */
  lemma {:induction false} DirIsTheRest(dir: string, name: string)
    requires '\\' !in name
    ensures Dir(dir + "\\" + name) == dir + "\\"
  {
    var path := dir + "\\" + name;
    if name == "" {
      assert path == dir + "\\";
    } else {
      assert name[|name| - 1] in name;
      assert path[..|path| - 1] == dir + "\\" + name[..|name| - 1];
      DirIsTheRest(dir, name[..|name| - 1]);
    }
  }

  // ---- Expiry ---------------------------------------------------------------------------------------------

  /** No expired entry stands behind one that has not expired. */
  ghost predicate ExpiredFirst(queue: seq<Pending>, now: int) {
    forall i, j :: 0 <= i < j < |queue| && Expired(queue[j], now) ==> Expired(queue[i], now)
  }

  /** A flush, exactly: no expired entry survives it if and only if none stands behind an unexpired one. */
  lemma FlushIsCompleteExactly(queue: seq<Pending>, now: int)
    ensures (forall p :: p in queue[ExpiredFront(queue, now)..] ==> !Expired(p, now)) <==> ExpiredFirst(queue, now)
  {
    var n := ExpiredFront(queue, now);
    var rest := queue[n..];
    if forall p :: p in rest ==> !Expired(p, now) {
      forall j | n <= j < |queue| ensures !Expired(queue[j], now) {
        assert queue[j] == rest[j - n];
      }
    }
  }

  predicate Monotone(ns: seq<Notification>) {
    forall i, j :: 0 <= i < j < |ns| ==> ns[i].time <= ns[j].time
  }

  predicate Sorted(queue: seq<Pending>, now: int) {
    (forall i, j :: 0 <= i < j < |queue| ==> queue[i].when <= queue[j].when) && (forall i :: 0 <= i < |queue| ==> queue[i].when <= now)
  }

  lemma StepStaysSorted(s: State, before: int, n: Notification)
    requires Sorted(s.queue, before) && before <= n.time
    ensures Sorted(Step(s, n).queue, n.time)
  {
  }

  lemma StepLeavesNoExpired(s: State, before: int, n: Notification)
    requires Sorted(s.queue, before) && before <= n.time
    ensures forall p :: p in Step(s, n).queue ==> !Expired(p, n.time)
  {
    FlushIsCompleteExactly(s.queue, n.time);
    var rest := Flushed(s, n.time).queue;
    if rest != [] {
      assert forall p :: p in rest[1..] ==> p in rest;
    }
  }

  lemma {:induction false} QueueIsSorted(ns: seq<Notification>)
    requires Monotone(ns)
    ensures ns != [] ==> Sorted(Run(ns).queue, ns[|ns| - 1].time)
    ensures ns == [] ==> Run(ns).queue == []
  {
    if ns != [] {
      QueueIsSorted(ns[..|ns| - 1]);
      var last := ns[|ns| - 1];
      StepStaysSorted(Run(ns[..|ns| - 1]), if |ns| > 1 then ns[|ns| - 2].time else last.time, last);
    }
  }

  /** With timestamps that never go back, no entry older than the limit is ever left waiting. */
  lemma NoneWaitsTooLong(ns: seq<Notification>)
    requires Monotone(ns) && ns != []
    ensures forall p :: p in Run(ns).queue ==> !Expired(p, ns[|ns| - 1].time)
  {
    var front, last := ns[..|ns| - 1], ns[|ns| - 1];
    QueueIsSorted(front);
    StepLeavesNoExpired(Run(front), if |ns| > 1 then ns[|ns| - 2].time else last.time, last);
  }
}
