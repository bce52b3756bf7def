/** The durable command queue and the sweep that retries it when a device logs in. */
module CommandQueue {
  datatype Status = Pending | Sent | Failed

  datatype Row = Row(device: string, command: string, kind: string, payload: string, status: Status, lastError: string)

  datatype Argument = NoArgument | Json(text: string)

  /** The request as it goes on the wire. */
  datatype Envelope = Envelope(device: string, command: string, kind: string, argument: Argument)

  /** An empty raw argument is left out of the encoded request. */
  function Wire(device: string, command: string, kind: string, payload: string): Envelope {
    Envelope(device, command, kind, if payload == "" then NoArgument else Json(payload))
  }

  function EnvelopeOf(row: Row): Envelope {
    Wire(row.device, row.command, row.kind, row.payload)
  }

  /** Encoding fails on an argument that is not valid JSON. */
  predicate Encodes(row: Row, valid: string -> bool) {
    row.payload == "" || valid(row.payload)
  }

  predicate Listed(row: Row, device: string) {
    row.device == device && row.status != Sent
  }

  /** The ids of the listed rows among the first `n`, ascending; row ids are positions. */
  function QueueUpTo(rows: seq<Row>, device: string, n: nat): seq<nat>
    requires n <= |rows|
  {
    if n == 0 then [] else
    QueueUpTo(rows, device, n - 1) + if Listed(rows[n - 1], device) then [n - 1] else []
  }

  function Queue(rows: seq<Row>, device: string): seq<nat> {
    QueueUpTo(rows, device, |rows|)
  }

  ghost predicate Ascending(ids: seq<nat>) {
    forall i, j :: 0 <= i < j < |ids| ==> ids[i] < ids[j]
  }

  /** The queue lists exactly the pending and failed rows of the device, in ascending order. */
  lemma {:induction false} QueueIsExact(rows: seq<Row>, device: string, n: nat)
    requires n <= |rows|
    ensures var ids := QueueUpTo(rows, device, n);
            Ascending(ids) && forall id :: id in ids <==> 0 <= id < n && Listed(rows[id], device)
  {
    if n > 0 {
      var front := QueueUpTo(rows, device, n - 1);
      QueueIsExact(rows, device, n - 1);
      if Listed(rows[n - 1], device) {
        OneMoreId(front, n - 1);
      } else {
        assert front + [] == front;
      }
    }
  }

  /** One id after all the others. */
  lemma OneMoreId(ids: seq<nat>, id: nat)
    requires Ascending(ids) && forall x :: x in ids ==> x < id
    ensures Ascending(ids + [id]) && forall x :: x in ids + [id] <==> x in ids || x == id
  {
    forall k | 0 <= k < |ids| ensures ids[k] < id {
      assert ids[k] in ids;
    }
  }

  ghost predicate InRange(rows: seq<Row>, ids: seq<nat>) {
    forall k :: 0 <= k < |ids| ==> ids[k] < |rows|
  }

  lemma QueueInRange(rows: seq<Row>, device: string)
    ensures var ids := Queue(rows, device);
            InRange(rows, ids) && Ascending(ids) && forall k :: 0 <= k < |ids| ==> Listed(rows[ids[k]], device)
  {
    QueueIsExact(rows, device, |rows|);
    var ids := Queue(rows, device);
    forall k | 0 <= k < |ids| ensures ids[k] < |rows| && Listed(rows[ids[k]], device) {
      assert ids[k] in ids;
    }
  }

  // ---- What a sweep leaves ----------------------------------------------------------------------------

  /** How the outside treats the k-th listed command: the encoder, the socket and the database. */
  datatype World = World(valid: string -> bool, sends: nat -> bool, writes: nat -> bool)

  predicate Stops(rows: seq<Row>, ids: seq<nat>, w: World, k: nat)
    requires k < |ids| && ids[k] < |rows|
  {
    Encodes(rows[ids[k]], w.valid) && !w.sends(k)
  }

  /** The row of the k-th listed command after the sweep has dealt with it. */
  function Settled(row: Row, w: World, k: nat): Row {
    if !w.writes(k) then row
    else if !Encodes(row, w.valid) then row.(status := Failed, lastError := "encode")
    else if !w.sends(k) then row.(status := Failed, lastError := "send")
    else row.(status := Sent)
  }

  /** The envelopes of the first `n` listed commands that can be encoded. */
  ghost function Envelopes(rows: seq<Row>, ids: seq<nat>, w: World, n: nat): seq<Envelope>
    requires n <= |ids| && InRange(rows, ids)
  {
    if n == 0 then [] else
    Envelopes(rows, ids, w, n - 1) + if Encodes(rows[ids[n - 1]], w.valid) then [EnvelopeOf(rows[ids[n - 1]])] else []
  }

  /** The first `n` listed rows are settled, and no other row has changed. */
  ghost predicate SettledUpTo(rows: seq<Row>, after: seq<Row>, ids: seq<nat>, w: World, n: nat)
    requires n <= |ids| && InRange(rows, ids)
  {
    && |after| == |rows|
    && (forall k :: 0 <= k < n ==> after[ids[k]] == Settled(rows[ids[k]], w, k))
    && (forall id :: 0 <= id < |rows| && id !in ids[..n] ==> after[id] == rows[id])
  }

  /** A sweep over the listed rows has gone through the first `n`; the last of these may have
      stopped it. The envelopes sent are those of the encodable rows before a stop. */
  ghost predicate Swept(rows: seq<Row>, now: seq<Row>, ids: seq<nat>, w: World, sent: seq<Envelope>, n: nat, stopped: bool) {
    && InRange(rows, ids) && n <= |ids| && (stopped ==> n > 0)
    && SettledUpTo(rows, now, ids, w, n)
    && var sends := if stopped then n - 1 else n;
       && (forall k :: 0 <= k < sends ==> !Stops(rows, ids, w, k))
       && (stopped ==> Stops(rows, ids, w, sends))
       && sent == Envelopes(rows, ids, w, sends)
  }

  class CommandRepository {
    var rows: seq<Row>

    constructor ()
      ensures rows == []
    {
      rows := [];
    }

    method Create(row: Row) returns (id: nat)
      modifies this
      ensures id == |old(rows)| && rows == old(rows) + [row]
    {
      id := |rows|;
      rows := rows + [row];
    }

    method UpdateStatus(id: nat, status: Status, lastError: string)
      modifies this
      ensures rows == if id < |old(rows)| then old(rows)[id := old(rows)[id].(status := status, lastError := lastError)] else old(rows)
    {
      if id < |rows| {
        rows := rows[id := rows[id].(status := status, lastError := lastError)];
      }
    }

    method MarkSent(id: nat)
      modifies this
      ensures rows == if id < |old(rows)| then old(rows)[id := old(rows)[id].(status := Sent)] else old(rows)
    {
      if id < |rows| {
        rows := rows[id := rows[id].(status := Sent)];
      }
    }

    method ListByDevice(device: string) returns (ids: seq<nat>)
      ensures ids == Queue(rows, device)
    {
      ids := [];
      for i := 0 to |rows|
        invariant ids == QueueUpTo(rows, device, i)
      {
        if rows[i].device == device && rows[i].status != Sent {
          ids := ids + [i];
        }
      }
    }

    /** One turn of the sweep; `sent` is the envelope that went out. */
    method RetryOne(id: nat, ghost k: nat, encodes: bool, send: bool, write: bool, ghost w: World) returns (sent: seq<Envelope>)
      requires id < |rows| && encodes == Encodes(rows[id], w.valid) && send == w.sends(k) && write == w.writes(k)
      modifies this
      ensures rows == old(rows)[id := Settled(old(rows)[id], w, k)]
      ensures sent == if encodes && send then [EnvelopeOf(old(rows)[id])] else []
    {
      var row := rows[id];
      sent := [];
      if !encodes {
        if write { UpdateStatus(id, Failed, "encode"); }
      } else if !send {
        if write { UpdateStatus(id, Failed, "send"); }
      } else {
        sent := [Wire(row.device, row.command, row.kind, row.payload)];
        if write { MarkSent(id); }
      }
    }
  }

  lemma SettleNext(rows: seq<Row>, before: seq<Row>, after: seq<Row>, ids: seq<nat>, w: World, n: nat)
    requires n < |ids| && Ascending(ids) && InRange(rows, ids)
    requires SettledUpTo(rows, before, ids, w, n)
    requires after == before[ids[n] := Settled(rows[ids[n]], w, n)]
    ensures SettledUpTo(rows, after, ids, w, n + 1)
  {
    assert ids[..n + 1] == ids[..n] + [ids[n]];
  }

  lemma NotYetSettled(rows: seq<Row>, now: seq<Row>, ids: seq<nat>, w: World, n: nat)
    requires n < |ids| && Ascending(ids) && InRange(rows, ids)
    requires SettledUpTo(rows, now, ids, w, n)
    ensures now[ids[n]] == rows[ids[n]]
  {
    assert ids[n] !in ids[..n];
  }

  lemma SweepNext(rows: seq<Row>, before: seq<Row>, ids: seq<nat>, w: World, sent: seq<Envelope>, n: nat)
    requires Swept(rows, before, ids, w, sent, n, false) && n < |ids| && Ascending(ids)
    ensures before[ids[n]] == rows[ids[n]]
    ensures var now, row := before[ids[n] := Settled(rows[ids[n]], w, n)], rows[ids[n]];
            Swept(rows, now, ids, w, sent + (if Encodes(row, w.valid) && w.sends(n) then [EnvelopeOf(row)] else []),
                  n + 1, Encodes(row, w.valid) && !w.sends(n))
  {
    NotYetSettled(rows, before, ids, w, n);
    SettleNext(rows, before, before[ids[n] := Settled(rows[ids[n]], w, n)], ids, w, n);
    assert sent + [] == sent;
  }

  /** The loop of the sweep over the listed ids. */
  method RetryListed(repo: CommandRepository, ids: seq<nat>, w: World) returns (sent: seq<Envelope>, n: nat, stopped: bool)
    requires InRange(repo.rows, ids) && Ascending(ids)
    modifies repo
    ensures Swept(old(repo.rows), repo.rows, ids, w, sent, n, stopped) && (!stopped ==> n == |ids|)
  {
    ghost var rows := repo.rows;
    sent, n, stopped := [], 0, false;
    while n < |ids| && !stopped
      invariant Swept(rows, repo.rows, ids, w, sent, n, stopped)
    {
      SweepNext(rows, repo.rows, ids, w, sent, n);
      var encodes := Encodes(repo.rows[ids[n]], w.valid);
      var one := repo.RetryOne(ids[n], n, encodes, w.sends(n), w.writes(n), w);
      sent, stopped, n := sent + one, encodes && !w.sends(n), n + 1;
    }
  }

  /** retryPendingCommands, run alone: the queued commands that encode go out in ascending order up
      to the first failed send, each as the envelope of its row; the commands up to that failure are
      settled one by one; every other row is untouched. */
  method RetryPendingCommands(repo: CommandRepository, device: string, w: World)
    returns (sent: seq<Envelope>, n: nat, stopped: bool)
    modifies repo
    ensures Swept(old(repo.rows), repo.rows, Queue(old(repo.rows), device), w, sent, n, stopped)
    ensures !stopped ==> n == |Queue(old(repo.rows), device)|
  {
    var ids := repo.ListByDevice(device);
    QueueInRange(repo.rows, device);
    sent, n, stopped := RetryListed(repo, ids, w);
  }

  // ---- What that means for the queues ------------------------------------------------------------------

  lemma EmptyQueueExactly(rows: seq<Row>, device: string)
    ensures Queue(rows, device) == [] <==> forall id :: 0 <= id < |rows| ==> !Listed(rows[id], device)
  {
    QueueIsExact(rows, device, |rows|);
    if Queue(rows, device) != [] {
      assert Queue(rows, device)[0] in Queue(rows, device);
    }
  }

  lemma SettledIsListed(row: Row, device: string, w: World, k: nat)
    requires Listed(row, device)
    ensures Listed(Settled(row, w, k), device) <==> !(Encodes(row, w.valid) && w.sends(k) && w.writes(k))
  {
  }

  ghost predicate AllSucceed(rows: seq<Row>, ids: seq<nat>, w: World)
    requires InRange(rows, ids)
  {
    forall k :: 0 <= k < |ids| ==> Encodes(rows[ids[k]], w.valid) && w.sends(k) && w.writes(k)
  }

  lemma LastingRow(rows: seq<Row>, now: seq<Row>, ids: seq<nat>, w: World, sent: seq<Envelope>, n: nat, stopped: bool, device: string, k: nat)
    requires ids == Queue(rows, device) && Swept(rows, now, ids, w, sent, n, stopped) && k < |ids|
    requires !(Encodes(rows[ids[k]], w.valid) && w.sends(k) && w.writes(k))
    ensures Listed(now[ids[k]], device)
  {
    QueueInRange(rows, device);
    if k < n {
      SettledIsListed(rows[ids[k]], device, w, k);
    } else {
      assert ids[k] !in ids[..n];
    }
  }

  lemma SentRow(rows: seq<Row>, now: seq<Row>, ids: seq<nat>, w: World, sent: seq<Envelope>, device: string, id: nat)
    requires ids == Queue(rows, device) && Swept(rows, now, ids, w, sent, |ids|, false)
    requires AllSucceed(rows, ids, w) && id < |rows|
    ensures !Listed(now[id], device)
  {
    QueueInRange(rows, device);
    QueueIsExact(rows, device, |rows|);
    assert ids[..|ids|] == ids;
    if id in ids {
      var k :| 0 <= k < |ids| && ids[k] == id;
      SettledIsListed(rows[ids[k]], device, w, k);
    }
  }

  /** A sweep empties the device's queue if and only if every encoding, every send and every status
      write succeeds. */
  lemma SweepEmptiesExactly(rows: seq<Row>, now: seq<Row>, device: string, w: World, sent: seq<Envelope>, n: nat, stopped: bool)
    requires Swept(rows, now, Queue(rows, device), w, sent, n, stopped)
    requires !stopped ==> n == |Queue(rows, device)|
    ensures Queue(now, device) == [] <==> AllSucceed(rows, Queue(rows, device), w)
  {
    var ids := Queue(rows, device);
    EmptyQueueExactly(now, device);
    if AllSucceed(rows, ids, w) {
      assert !stopped;
      forall id | 0 <= id < |now| ensures !Listed(now[id], device) {
        SentRow(rows, now, ids, w, sent, device, id);
      }
    } else {
      var k :| 0 <= k < |ids| && !(Encodes(rows[ids[k]], w.valid) && w.sends(k) && w.writes(k));
      LastingRow(rows, now, ids, w, sent, n, stopped, device, k);
    }
  }

  lemma {:induction false} SameListing(rows: seq<Row>, now: seq<Row>, device: string, n: nat)
    requires |rows| == |now| && n <= |rows|
    requires forall id :: 0 <= id < n ==> (Listed(rows[id], device) <==> Listed(now[id], device))
    ensures QueueUpTo(rows, device, n) == QueueUpTo(now, device, n)
  {
    if n > 0 {
      SameListing(rows, now, device, n - 1);
    }
  }

  /** It leaves the queues of all other devices as they are. */
  lemma SweepLeavesOtherQueues(rows: seq<Row>, now: seq<Row>, device: string, w: World, sent: seq<Envelope>, n: nat, stopped: bool, other: string)
    requires Swept(rows, now, Queue(rows, device), w, sent, n, stopped) && other != device
    ensures Queue(now, other) == Queue(rows, other)
  {
    var ids := Queue(rows, device);
    QueueInRange(rows, device);
    forall id | 0 <= id < |rows| ensures Listed(rows[id], other) <==> Listed(now[id], other) {
      if id in ids[..n] {
        var k :| 0 <= k < n && ids[..n][k] == id;
        assert now[ids[k]] == Settled(rows[ids[k]], w, k);
      }
    }
    SameListing(rows, now, other, |rows|);
  }

  // ---- A sweep in plain terms ----------------------------------------------------------------------------

  /** The agent reads device, command and kind of the row from the envelope, and its payload as the argument. */
  predicate Carries(e: Envelope, row: Row) {
    && e.device == row.device && e.command == row.command && e.kind == row.kind
    && (if row.payload == "" then e.argument == NoArgument else e.argument == Json(row.payload))
  }

  /** A row waits for a sweep of its device: it is pending or failed. */
  predicate Waits(row: Row, device: string) {
    row.device == device && (row.status == Pending || row.status == Failed)
  }

  predicate ValidRow(row: Row, w: World) {
    row.payload != "" ==> w.valid(row.payload)
  }

  /** What a sweep that deals with a row as the `k`-th makes of it. */
  predicate DealtWith(before: Row, after: Row, w: World, k: nat) {
    && after.device == before.device && after.command == before.command
    && after.kind == before.kind && after.payload == before.payload
    && (!w.writes(k) ==> after == before)
    && (w.writes(k) && ValidRow(before, w) && w.sends(k) ==> after.status == Sent && after.lastError == before.lastError)
    && (w.writes(k) && !(ValidRow(before, w) && w.sends(k)) ==> after.status == Failed && after.lastError != "")
  }

  /** The waiting rows of the device in ascending order. */
  ghost predicate ListsWaiting(rows: seq<Row>, device: string, ids: seq<nat>) {
    Ascending(ids) && forall id :: id in ids <==> 0 <= id < |rows| && Waits(rows[id], device)
  }

  /** The first `n` rows of the list are dealt with, and no other row has changed. */
  ghost predicate DealsWithFirst(rows: seq<Row>, now: seq<Row>, ids: seq<nat>, w: World, n: nat) {
    && |now| == |rows| && n <= |ids|
    && (forall k :: 0 <= k < n ==> ids[k] < |rows| && DealtWith(rows[ids[k]], now[ids[k]], w, k))
    && (forall id :: 0 <= id < |rows| && id !in ids[..n] ==> now[id] == rows[id])
  }

  /** The sweep ended with the list, or at the first valid row that could not be sent. */
  ghost predicate EndsAt(rows: seq<Row>, ids: seq<nat>, w: World, n: nat) {
    && n <= |ids| && InRange(rows, ids)
    && (forall k :: 0 <= k < n - 1 ==> ValidRow(rows[ids[k]], w) ==> w.sends(k))
    && (n < |ids| ==> n > 0 && ValidRow(rows[ids[n - 1]], w) && !w.sends(n - 1))
  }

  /** The envelopes sent are those of the valid rows among the first `n` that could be sent, in order. */
  ghost predicate SendsRows(rows: seq<Row>, ids: seq<nat>, w: World, n: nat, sent: seq<Envelope>, ks: seq<nat>) {
    && |sent| == |ks| && Ascending(ks)
    && (forall k :: k in ks <==> 0 <= k < n && k < |ids| && ids[k] < |rows| && ValidRow(rows[ids[k]], w) && w.sends(k))
    && (forall i :: 0 <= i < |ks| ==> ks[i] < |ids| && ids[ks[i]] < |rows| && Carries(sent[i], rows[ids[ks[i]]]))
  }

  /** The places of the first `n` listed rows that can be encoded. */
  function Places(rows: seq<Row>, ids: seq<nat>, w: World, n: nat): seq<nat>
    requires n <= |ids| && forall k :: 0 <= k < |ids| ==> ids[k] < |rows|
  {
    if n == 0 then [] else Places(rows, ids, w, n - 1) + if Encodes(rows[ids[n - 1]], w.valid) then [n - 1] else []
  }

  lemma {:induction false} PlacesAreExact(rows: seq<Row>, ids: seq<nat>, w: World, n: nat)
    requires n <= |ids| && InRange(rows, ids)
    ensures var ks := Places(rows, ids, w, n);
            Ascending(ks) && forall k :: k in ks <==> 0 <= k < n && ValidRow(rows[ids[k]], w)
  {
    if n > 0 {
      var front := Places(rows, ids, w, n - 1);
      PlacesAreExact(rows, ids, w, n - 1);
      if Encodes(rows[ids[n - 1]], w.valid) {
        OneMoreId(front, n - 1);
      } else {
        assert front + [] == front;
      }
    }
  }

  lemma {:induction false} EnvelopesCarry(rows: seq<Row>, ids: seq<nat>, w: World, n: nat)
    requires n <= |ids| && InRange(rows, ids)
    ensures var ks, sent := Places(rows, ids, w, n), Envelopes(rows, ids, w, n);
            |sent| == |ks| && forall i :: 0 <= i < |ks| ==> ks[i] < n && Carries(sent[i], rows[ids[ks[i]]])
  {
    if n > 0 {
      EnvelopesCarry(rows, ids, w, n - 1);
    }
  }

  lemma SentBeforeTheEnd(rows: seq<Row>, ids: seq<nat>, w: World, m: nat, n: nat)
    requires InRange(rows, ids) && m <= n <= |ids| && (m < n ==> m == n - 1 && !w.sends(m))
    requires forall k :: 0 <= k < m ==> !Stops(rows, ids, w, k)
    ensures SendsRows(rows, ids, w, n, Envelopes(rows, ids, w, m), Places(rows, ids, w, m))
  {
    PlacesAreExact(rows, ids, w, m);
    EnvelopesCarry(rows, ids, w, m);
    forall k | 0 <= k < m && ValidRow(rows[ids[k]], w) ensures w.sends(k) {
      assert !Stops(rows, ids, w, k);
    }
  }

  lemma SweptDeals(rows: seq<Row>, now: seq<Row>, ids: seq<nat>, w: World, sent: seq<Envelope>, n: nat, stopped: bool)
    requires Swept(rows, now, ids, w, sent, n, stopped)
    ensures DealsWithFirst(rows, now, ids, w, n)
  {
    forall k | 0 <= k < n ensures DealtWith(rows[ids[k]], now[ids[k]], w, k) {
      assert now[ids[k]] == Settled(rows[ids[k]], w, k);
    }
  }

  lemma SweptEnds(rows: seq<Row>, now: seq<Row>, ids: seq<nat>, w: World, sent: seq<Envelope>, n: nat, stopped: bool)
    requires Swept(rows, now, ids, w, sent, n, stopped) && (!stopped ==> n == |ids|)
    ensures EndsAt(rows, ids, w, n)
  {
    forall k | 0 <= k < n - 1 ensures ValidRow(rows[ids[k]], w) ==> w.sends(k) {
      assert !Stops(rows, ids, w, k);
    }
  }

  /** A sweep run alone, in plain terms: it takes the waiting rows of its device in ascending order, deals with
      them one by one up to the first valid one that cannot be sent, sends the row's own command for each
      valid one before that, and leaves all other rows alone. */
  lemma SweepInPlainTerms(rows: seq<Row>, now: seq<Row>, device: string, w: World, sent: seq<Envelope>, n: nat, stopped: bool)
    requires Swept(rows, now, Queue(rows, device), w, sent, n, stopped)
    requires !stopped ==> n == |Queue(rows, device)|
    ensures exists ids, ks ::
              && ListsWaiting(rows, device, ids) && DealsWithFirst(rows, now, ids, w, n) && EndsAt(rows, ids, w, n)
              && SendsRows(rows, ids, w, n, sent, ks)
  {
    var ids := Queue(rows, device);
    var m := if stopped then n - 1 else n;
    QueueIsExact(rows, device, |rows|);
    assert ListsWaiting(rows, device, ids);
    SweptDeals(rows, now, ids, w, sent, n, stopped);
    SweptEnds(rows, now, ids, w, sent, n, stopped);
    SentBeforeTheEnd(rows, ids, w, m, n);
  }

  // ---- The administrator's send ---------------------------------------------------------------------------

  datatype Request = Request(device: string, command: string, kind: string, payload: string)

  /** handleAdminSendCommand: queue the command, try to send it at once, mark the result. What goes
      out is the envelope that a sweep would send for the queued row. */
  method AdminSendCommand(repo: CommandRepository, request: Request, online: bool, encodes: bool, send: bool, write: bool)
    returns (ok: bool, id: nat, sent: seq<Envelope>)
    modifies repo
    ensures ok <==> request.device != "" && request.command != ""
    ensures !ok ==> repo.rows == old(repo.rows) && sent == []
    ensures ok ==>
      && id == |old(repo.rows)| && |repo.rows| == id + 1 && repo.rows[..id] == old(repo.rows)
      && (if online && encodes && send then |sent| == 1 && Carries(sent[0], repo.rows[id]) else sent == [])
      && repo.rows[id] == Row(request.device, request.command, request.kind, request.payload,
                              if sent != [] && write then Sent else Pending,
                              if online && encodes && !send && write then "send" else "")
  {
    sent, id := [], 0;
    if request.device == "" || request.command == "" { return false, id, sent; }
    ok := true;
    id := repo.Create(Row(request.device, request.command, request.kind, request.payload, Pending, ""));
    if online && encodes {
      if send {
        sent := [Wire(request.device, request.command, request.kind, request.payload)];
        if write { repo.MarkSent(id); }
      } else {
        if write { repo.UpdateStatus(id, Pending, "send"); }
      }
    }
  }
}
