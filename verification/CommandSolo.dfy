/** One thread of the interleaved machine, left alone, does what the loop and the handler do. */
module CommandSolo {
  import opened Basics
  import opened CommandQueue
  import opened CommandDelivery

  function EnvelopesIn(ds: seq<Delivery>): seq<Envelope> {
    seq(|ds|, i requires 0 <= i < |ds| => ds[i].envelope)
  }

  /** The thread's turns, each a send and its status write, with no other thread between. */
  function Alone(s: State, t: nat, w: World, k: nat): State
    decreases if t in s.threads then |s.threads[t].todo| else 0
  {
    if t !in s.threads || s.threads[t].todo == [] || !s.threads[t].update.NoUpdate? then s else Alone(Turn(s, t, w, k), t, w, k + 1)
  }

  function Turn(s: State, t: nat, w: World, k: nat): State
    requires t in s.threads && s.threads[t].todo != [] && s.threads[t].update.NoUpdate?
    ensures t in Turn(s, t, w, k).threads && |Turn(s, t, w, k).threads[t].todo| < |s.threads[t].todo|
  {
    Step(Step(s, TrySend(t, Encodes(s.threads[t].todo[0].row, w.valid), w.sends(k))), Write(t, w.writes(k)))
  }

  function Items(rows: seq<Row>, ids: seq<nat>): seq<Item>
    requires forall k :: 0 <= k < |ids| ==> ids[k] < |rows|
  {
    seq(|ids|, k requires 0 <= k < |ids| => Item(ids[k], rows[ids[k]]))
  }

  lemma {:induction false} SnapshotIsQueue(rows: seq<Row>, device: string, n: nat)
    requires n <= |rows|
    ensures var ids := QueueUpTo(rows, device, n); InRange(rows, ids) && Snapshot(rows, device, n) == Items(rows, ids)
  {
    if n > 0 {
      SnapshotIsQueue(rows, device, n - 1);
    }
  }

  /** The sweep is where the loop would be after `k` turns; `before` had gone out earlier. */
  ghost predicate Halfway(s: State, t: nat, rows: seq<Row>, ids: seq<nat>, w: World, before: seq<Envelope>,
                          sent: seq<Envelope>, k: nat, stopped: bool) {
    && Swept(rows, s.rows, ids, w, sent, k, stopped)
    && t in s.threads && s.threads[t] == Thread(if stopped then [] else Items(rows, ids)[k..], NoUpdate, true)
    && EnvelopesIn(s.delivered) == before + sent
  }

  lemma TurnOfSweep(s: State, t: nat, w: World, k: nat)
    requires t in s.threads && s.threads[t].todo != [] && s.threads[t].update.NoUpdate? && s.threads[t].sweeping
    requires var item := s.threads[t].todo[0]; item.id < |s.rows| && item.row == s.rows[item.id]
    ensures var next, item := Turn(s, t, w, k), s.threads[t].todo[0];
            var encodes, sends := Encodes(item.row, w.valid), w.sends(k);
            && next.rows == s.rows[item.id := Settled(item.row, w, k)]
            && next.threads[t] == Thread(if encodes && !sends then [] else s.threads[t].todo[1..], NoUpdate, true)
            && next.delivered == s.delivered + if encodes && sends then [Delivery(item.id, EnvelopeOf(item.row))] else []
  {
  }

  /** What the `k`-th turn sends. */
  function SentBy(rows: seq<Row>, ids: seq<nat>, w: World, k: nat): seq<Envelope>
    requires k < |ids| && ids[k] < |rows|
  {
    if Encodes(rows[ids[k]], w.valid) && w.sends(k) then [EnvelopeOf(rows[ids[k]])] else []
  }

  lemma TurnKeepsHalfway(s: State, t: nat, rows: seq<Row>, ids: seq<nat>, w: World, before: seq<Envelope>,
                         sent: seq<Envelope>, k: nat)
    requires Halfway(s, t, rows, ids, w, before, sent, k, false) && k < |ids| && Ascending(ids)
    ensures s.threads[t].todo != []
    ensures Halfway(Turn(s, t, w, k), t, rows, ids, w, before, sent + SentBy(rows, ids, w, k), k + 1,
                    Encodes(rows[ids[k]], w.valid) && !w.sends(k))
  {
    assert Items(rows, ids)[k..][0] == Items(rows, ids)[k] && Items(rows, ids)[k..][1..] == Items(rows, ids)[k + 1..];
    SweepNext(rows, s.rows, ids, w, sent, k);
    TurnOfSweep(s, t, w, k);
    assert EnvelopesIn(Turn(s, t, w, k).delivered) == EnvelopesIn(s.delivered) + SentBy(rows, ids, w, k);
    Associative(before, sent, SentBy(rows, ids, w, k));
  }

  lemma {:induction false} AloneFromHalfway(s: State, t: nat, rows: seq<Row>, ids: seq<nat>, w: World, before: seq<Envelope>,
                                            sent: seq<Envelope>, k: nat, stopped: bool)
    returns (all: seq<Envelope>, n: nat, end: bool)
    requires Halfway(s, t, rows, ids, w, before, sent, k, stopped) && Ascending(ids)
    ensures Halfway(Alone(s, t, w, k), t, rows, ids, w, before, all, n, end) && (!end ==> n == |ids|)
    decreases |ids| - k
  {
    if stopped || k == |ids| {
      all, n, end := sent, k, stopped;
      assert Alone(s, t, w, k) == s;
    } else {
      TurnKeepsHalfway(s, t, rows, ids, w, before, sent, k);
      assert Alone(s, t, w, k) == Alone(Turn(s, t, w, k), t, w, k + 1);
      all, n, end := AloneFromHalfway(Turn(s, t, w, k), t, rows, ids, w, before, sent + SentBy(rows, ids, w, k), k + 1,
                                      Encodes(rows[ids[k]], w.valid) && !w.sends(k));
    }
  }

  /** A sweep of the machine left alone is the loop's sweep: it leaves the rows and sends the envelopes that
      retryPendingCommands does. */
  lemma SweepAloneIsTheLoop(s: State, t: nat, device: string, w: World) returns (sent: seq<Envelope>, n: nat, stopped: bool)
    requires t !in s.threads
    ensures var after := Alone(Step(s, Sweep(t, device)), t, w, 0);
            && Swept(s.rows, after.rows, Queue(s.rows, device), w, sent, n, stopped)
            && (!stopped ==> n == |Queue(s.rows, device)|)
            && EnvelopesIn(after.delivered) == EnvelopesIn(s.delivered) + sent
            && t in after.threads && after.threads[t].todo == []
  {
    var ids := Queue(s.rows, device);
    QueueInRange(s.rows, device);
    SnapshotIsQueue(s.rows, device, |s.rows|);
    assert Items(s.rows, ids)[0..] == Items(s.rows, ids);
    assert EnvelopesIn(s.delivered) + [] == EnvelopesIn(s.delivered);
    sent, n, stopped := AloneFromHalfway(Step(s, Sweep(t, device)), t, s.rows, ids, w, EnvelopesIn(s.delivered), [], 0, false);
    assert |Items(s.rows, ids)| == |ids|;
  }

  /** An administrator's send left alone leaves the row and sends the envelope that the handler does. */
  lemma AdminAlone(s: State, t: nat, request: Request, online: bool, encodes: bool, sends: bool, writes: bool)
    requires t !in s.threads && request.device != "" && request.command != ""
    ensures var after := Step(Step(Step(s, Admin(t, request, online)), TrySend(t, encodes, sends)), Write(t, writes));
            var id := |s.rows|;
            && |after.rows| == id + 1 && after.rows[..id] == s.rows
            && after.rows[id] == Row(request.device, request.command, request.kind, request.payload,
                                     if online && encodes && sends && writes then Sent else Pending,
                                     if online && encodes && !sends && writes then "send" else "")
            && (if online && encodes && sends then
                  |after.delivered| == |s.delivered| + 1 && after.delivered[..|s.delivered|] == s.delivered
                  && after.delivered[|s.delivered|].id == id && Carries(after.delivered[|s.delivered|].envelope, after.rows[id])
                else after.delivered == s.delivered)
            && t in after.threads && after.threads[t].todo == []
  {
  }
}
