/** Admin sends and retry sweeps of any number of threads, interleaved with failing status writes. */
module CommandDelivery {
  import opened CommandQueue

  /** A listed row as the thread read it, which may be stale by the time it is used. */
  datatype Item = Item(id: nat, row: Row)

  datatype Update = NoUpdate | Mark(id: nat) | Failure(id: nat, status: Status, error: string)

  /** A thread with commands left to send and perhaps a status write in hand. */
  datatype Thread = Thread(todo: seq<Item>, update: Update, sweeping: bool)

  datatype Delivery = Delivery(id: nat, envelope: Envelope)

  /** `delivered` is the history of the sends that succeeded. */
  datatype State = State(rows: seq<Row>, threads: map<nat, Thread>, delivered: seq<Delivery>)

  datatype Event =
    | Admin(thread: nat, request: Request, online: bool)
    | Sweep(thread: nat, device: string)
    | TrySend(thread: nat, encodes: bool, sends: bool)
    | Write(thread: nat, succeeds: bool)

  const START := State([], map[], [])

  function Snapshot(rows: seq<Row>, device: string, n: nat): seq<Item>
    requires n <= |rows|
  {
    if n == 0 then [] else
    Snapshot(rows, device, n - 1) + if Listed(rows[n - 1], device) then [Item(n - 1, rows[n - 1])] else []
  }

  predicate Enabled(s: State, e: Event) {
    match e
    case Admin(t, request, _) => t !in s.threads && request.device != "" && request.command != ""
    case Sweep(t, _) => t !in s.threads
    case TrySend(t, _, _) => t in s.threads && s.threads[t].todo != [] && s.threads[t].update.NoUpdate?
    case Write(t, _) => t in s.threads && !s.threads[t].update.NoUpdate?
  }

  function Queued(request: Request): Row {
    Row(request.device, request.command, request.kind, request.payload, Pending, "")
  }

  /** The thread after one attempt: a success is to be marked, a failure of the encoder is to be noted
      by a sweep only, a failure to send is to be noted and ends the thread's work. */
  function Tried(t: Thread, encodes: bool, sends: bool): Thread
    requires t.todo != []
  {
    var item, rest := t.todo[0], t.todo[1..];
    if !encodes then Thread(rest, if t.sweeping then Failure(item.id, Failed, "encode") else NoUpdate, t.sweeping)
    else if sends then Thread(rest, Mark(item.id), t.sweeping)
    else Thread([], Failure(item.id, if t.sweeping then Failed else Pending, "send"), t.sweeping)
  }

  function Updated(rows: seq<Row>, u: Update): seq<Row> {
    match u
    case NoUpdate => rows
    case Mark(id) => if id < |rows| then rows[id := rows[id].(status := Sent)] else rows
    case Failure(id, status, error) => if id < |rows| then rows[id := rows[id].(status := status, lastError := error)] else rows
  }

  function Step(s: State, e: Event): State {
    if !Enabled(s, e) then s else
    match e
    case Admin(t, request, online) =>
      var row := Queued(request);
      State(s.rows + [row], s.threads[t := Thread(if online then [Item(|s.rows|, row)] else [], NoUpdate, false)], s.delivered)
    case Sweep(t, device) => s.(threads := s.threads[t := Thread(Snapshot(s.rows, device, |s.rows|), NoUpdate, true)])
    case TrySend(t, encodes, sends) =>
      var item := s.threads[t].todo[0];
      s.(threads := s.threads[t := Tried(s.threads[t], encodes, sends)],
         delivered := if encodes && sends then s.delivered + [Delivery(item.id, EnvelopeOf(item.row))] else s.delivered)
    case Write(t, succeeds) =>
      s.(threads := s.threads[t := s.threads[t].(update := NoUpdate)],
         rows := if succeeds then Updated(s.rows, s.threads[t].update) else s.rows)
  }

  function Run(s: State, es: seq<Event>): State {
    if es == [] then s else Step(Run(s, es[..|es| - 1]), es[|es| - 1])
  }

  // ---- Sent rows were delivered ---------------------------------------------------------------------------

  /** The send of the row's own envelope succeeded. */
  predicate WasDelivered(s: State, id: nat)
    requires id < |s.rows|
  {
    Delivery(id, EnvelopeOf(s.rows[id])) in s.delivered
  }

  predicate Matches(rows: seq<Row>, item: Item) {
    item.id < |rows| && EnvelopeOf(item.row) == EnvelopeOf(rows[item.id])
  }

  ghost predicate Honest(s: State, t: Thread) {
    && (forall k :: 0 <= k < |t.todo| ==> Matches(s.rows, t.todo[k]))
    && (t.update.Mark? ==> t.update.id < |s.rows| && WasDelivered(s, t.update.id))
    && (t.update.Failure? ==> t.update.status != Sent)
  }

  ghost predicate Faithful(s: State) {
    && (forall id :: 0 <= id < |s.rows| && s.rows[id].status == Sent ==> WasDelivered(s, id))
    && (forall t :: t in s.threads ==> Honest(s, s.threads[t]))
    && (forall k :: 0 <= k < |s.delivered| ==>
          s.delivered[k].id < |s.rows| && s.delivered[k].envelope == EnvelopeOf(s.rows[s.delivered[k].id]))
  }

  lemma {:induction false} SnapshotMatches(rows: seq<Row>, device: string, n: nat)
    requires n <= |rows|
    ensures forall k :: 0 <= k < |Snapshot(rows, device, n)| ==> Matches(rows, Snapshot(rows, device, n)[k])
  {
    if n > 0 {
      SnapshotMatches(rows, device, n - 1);
    }
  }

  lemma AdminStaysFaithful(s: State, e: Event)
    requires Faithful(s) && e.Admin? && Enabled(s, e)
    ensures Faithful(Step(s, e))
  {
    var t := Step(s, e);
    assert forall id :: 0 <= id < |s.rows| ==> t.rows[id] == s.rows[id];
  }

  lemma SweepStaysFaithful(s: State, e: Event)
    requires Faithful(s) && e.Sweep? && Enabled(s, e)
    ensures Faithful(Step(s, e))
  {
    SnapshotMatches(s.rows, e.device, |s.rows|);
  }

  lemma SendStaysFaithful(s: State, e: Event)
    requires Faithful(s) && e.TrySend? && Enabled(s, e)
    ensures Faithful(Step(s, e))
  {
    assert Honest(s, s.threads[e.thread]);
    assert Matches(s.rows, s.threads[e.thread].todo[0]);
  }

  lemma WriteStaysFaithful(s: State, e: Event)
    requires Faithful(s) && e.Write? && Enabled(s, e)
    ensures Faithful(Step(s, e))
  {
    assert Honest(s, s.threads[e.thread]);
    var rows := Step(s, e).rows;
    assert forall id :: 0 <= id < |rows| ==> EnvelopeOf(rows[id]) == EnvelopeOf(s.rows[id]);
  }

  lemma {:induction false} RunsAreFaithful(es: seq<Event>)
    ensures Faithful(Run(START, es))
  {
    if es != [] {
      var s, e := Run(START, es[..|es| - 1]), es[|es| - 1];
      RunsAreFaithful(es[..|es| - 1]);
      if Enabled(s, e) {
        match e
        case Admin(_, _, _) => AdminStaysFaithful(s, e);
        case Sweep(_, _) => SweepStaysFaithful(s, e);
        case TrySend(_, _, _) => SendStaysFaithful(s, e);
        case Write(_, _) => WriteStaysFaithful(s, e);
      }
    }
  }

  /** No command lost: under any interleaving of admin sends, sweeps and failing writes, a row whose
      envelope was never handed over successfully is still listed for the next sweep of its device,
      and whatever was handed over is the envelope of its row. */
  lemma NoCommandLost(es: seq<Event>, id: nat)
    requires id < |Run(START, es).rows|
    ensures var s := Run(START, es);
            && (!WasDelivered(s, id) ==> id in Queue(s.rows, s.rows[id].device))
            && forall d :: d in s.delivered && d.id == id ==> d.envelope == EnvelopeOf(s.rows[id])
  {
    var s := Run(START, es);
    RunsAreFaithful(es);
    QueueIsExact(s.rows, s.rows[id].device, |s.rows|);
  }

  /** At least once, not exactly once: a sweep that read the queue before the admin's send was marked
      sends the same command again. */
  lemma CommandCanGoOutTwice(request: Request)
    requires request.device != "" && request.command != ""
    ensures var es := [Admin(0, request, true), Sweep(1, request.device), TrySend(0, true, true), TrySend(1, true, true)];
            var d := Delivery(0, EnvelopeOf(Queued(request)));
            Run(START, es).delivered == [d, d]
  {
    var es := [Admin(0, request, true), Sweep(1, request.device), TrySend(0, true, true), TrySend(1, true, true)];
    var row, item := Queued(request), Item(0, Queued(request));
    assert es[..1] == [es[0]] && es[..2][..1] == es[..1] && es[..3][..2] == es[..2] && es[..4][..3] == es[..3] && es[..4] == es;
    assert es[..1][..0] == [];
    assert Run(START, es[..1]) == State([row], map[0 := Thread([item], NoUpdate, false)], []);
    assert Snapshot([row], request.device, 1) == [item];
    assert Run(START, es[..2]) == Step(Run(START, es[..1]), es[1]);
    assert Run(START, es[..3]) == Step(Run(START, es[..2]), es[2]);
  }
}
