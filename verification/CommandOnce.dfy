/** When a command goes out at most once: sweeps apart from other threads, and marks that are written. */
module CommandOnce {
  import opened CommandQueue
  import opened CommandDelivery

  ghost predicate InTodo(todo: seq<Item>, id: nat) {
    exists k :: 0 <= k < |todo| && todo[k].id == id
  }

  predicate Pends(u: Update, id: nat) {
    !u.NoUpdate? && u.id == id
  }

  /** The thread is yet to send the row, or has a status write for it in hand. */
  ghost predicate Holds(t: Thread, id: nat) {
    InTodo(t.todo, id) || Pends(t.update, id)
  }

  ghost predicate NobodyHolds(s: State, id: nat) {
    forall t :: t in s.threads ==> !Holds(s.threads[t], id)
  }

  /** A sweep begins only while no thread holds a row of its device. */
  ghost predicate Apart(s: State, e: Event) {
    e.Sweep? && Enabled(s, e) ==>
      forall id: nat :: id < |s.rows| && s.rows[id].device == e.device ==> NobodyHolds(s, id)
  }

  ghost predicate Exclusive(s: State, es: seq<Event>) {
    es == [] || (Exclusive(s, es[..|es| - 1]) && Apart(Run(s, es[..|es| - 1]), es[|es| - 1]))
  }

  /** The event is not a failing write of a sent mark. */
  predicate MarkSucceeds(s: State, e: Event) {
    e.Write? && Enabled(s, e) && s.threads[e.thread].update.Mark? ==> e.succeeds
  }

  predicate MarksSucceed(s: State, es: seq<Event>) {
    es == [] || (MarksSucceed(s, es[..|es| - 1]) && MarkSucceeds(Run(s, es[..|es| - 1]), es[|es| - 1]))
  }

  /** No command has gone out twice. */
  ghost predicate Once(ds: seq<Delivery>) {
    forall i, j :: 0 <= i < j < |ds| ==> ds[i].id != ds[j].id
  }

  ghost predicate HandedOver(s: State, id: nat) {
    exists k :: 0 <= k < |s.delivered| && s.delivered[k].id == id
  }

  // ---- Every row is in at most one hand -------------------------------------------------------------

  /** The thread's rows are distinct, exist and are not marked as sent. */
  ghost predicate Tidy(rows: seq<Row>, t: Thread) {
    && (forall i, j :: 0 <= i < j < |t.todo| ==> t.todo[i].id != t.todo[j].id)
    && (forall i :: 0 <= i < |t.todo| ==> !Pends(t.update, t.todo[i].id) && Unsent(rows, t.todo[i].id))
    && (!t.update.NoUpdate? ==> Unsent(rows, t.update.id))
  }

  predicate Unsent(rows: seq<Row>, id: nat) {
    id < |rows| && rows[id].status != Sent
  }

  ghost predicate OneHand(s: State) {
    forall t, u, id: nat :: t in s.threads && u in s.threads && Holds(s.threads[t], id) && Holds(s.threads[u], id) ==> t == u
  }

  ghost predicate AllTidy(s: State) {
    forall t :: t in s.threads ==> Tidy(s.rows, s.threads[t])
  }

  ghost predicate Held(s: State) {
    Faithful(s) && OneHand(s) && AllTidy(s)
  }

  /** Distinct listed rows among the first `n`. */
  ghost predicate ListedItems(rows: seq<Row>, device: string, todo: seq<Item>, n: nat) {
    && (forall i, j :: 0 <= i < j < |todo| ==> todo[i].id != todo[j].id)
    && (forall i :: 0 <= i < |todo| ==> todo[i].id < n <= |rows| && Listed(rows[todo[i].id], device))
  }

  lemma {:induction false} SnapshotIsListed(rows: seq<Row>, device: string, n: nat)
    requires n <= |rows|
    ensures ListedItems(rows, device, Snapshot(rows, device, n), n)
  {
    if n > 0 {
      var front := Snapshot(rows, device, n - 1);
      SnapshotIsListed(rows, device, n - 1);
      var todo := Snapshot(rows, device, n);
      assert forall i :: 0 <= i < |front| ==> todo[i] == front[i];
    }
  }

  lemma HeldExist(s: State, t: nat, id: nat)
    requires AllTidy(s) && t in s.threads && Holds(s.threads[t], id)
    ensures Unsent(s.rows, id)
  {
    assert Tidy(s.rows, s.threads[t]);
  }

  lemma AdminKeepsHeld(s: State, e: Event)
    requires Held(s) && e.Admin? && Enabled(s, e)
    ensures OneHand(Step(s, e)) && AllTidy(Step(s, e))
  {
    var next := Step(s, e);
    forall t | t in next.threads ensures Tidy(next.rows, next.threads[t]) {
      if t != e.thread { assert Tidy(s.rows, s.threads[t]); }
    }
    forall t, u, id: nat | t in next.threads && u in next.threads && Holds(next.threads[t], id) && Holds(next.threads[u], id) ensures t == u {
      if t != e.thread { HeldExist(s, t, id); }
      if u != e.thread { HeldExist(s, u, id); }
    }
  }

  lemma NewSweepHolds(s: State, e: Event, id: nat)
    requires e.Sweep? && Enabled(s, e) && Apart(s, e) && Holds(Step(s, e).threads[e.thread], id)
    ensures NobodyHolds(s, id)
  {
    var todo := Snapshot(s.rows, e.device, |s.rows|);
    SnapshotIsListed(s.rows, e.device, |s.rows|);
    var k :| 0 <= k < |todo| && todo[k].id == id;
    assert Listed(s.rows[id], e.device);
  }

  lemma SweepKeepsHeld(s: State, e: Event)
    requires Held(s) && e.Sweep? && Enabled(s, e) && Apart(s, e)
    ensures OneHand(Step(s, e)) && AllTidy(Step(s, e))
  {
    var next := Step(s, e);
    SnapshotIsListed(s.rows, e.device, |s.rows|);
    forall t | t in next.threads ensures Tidy(next.rows, next.threads[t]) {
      if t != e.thread { assert Tidy(s.rows, s.threads[t]); }
    }
    forall t, u, id: nat | t in next.threads && u in next.threads && Holds(next.threads[t], id) && Holds(next.threads[u], id) ensures t == u {
      if t == e.thread || u == e.thread { NewSweepHolds(s, e, id); }
    }
  }

  lemma TriedHoldsLess(t: Thread, encodes: bool, sends: bool, id: nat)
    requires t.todo != [] && Holds(Tried(t, encodes, sends), id)
    ensures Holds(t, id)
  {
    var next := Tried(t, encodes, sends);
    if InTodo(next.todo, id) {
      var k :| 0 <= k < |next.todo| && next.todo[k].id == id;
      assert t.todo[k + 1].id == id;
    } else {
      assert t.todo[0].id == id;
    }
  }

  lemma TrySendKeepsHeld(s: State, e: Event)
    requires Held(s) && e.TrySend? && Enabled(s, e)
    ensures OneHand(Step(s, e)) && AllTidy(Step(s, e))
  {
    var next, before := Step(s, e), s.threads[e.thread];
    assert Tidy(s.rows, before);
    forall t, id: nat | t in next.threads && Holds(next.threads[t], id) ensures Holds(s.threads[t], id) {
      if t == e.thread { TriedHoldsLess(before, e.encodes, e.sends, id); }
    }
    forall t | t in next.threads ensures Tidy(next.rows, next.threads[t]) {
      if t != e.thread { assert Tidy(s.rows, s.threads[t]); }
    }
  }

  lemma WriteKeepsHeld(s: State, e: Event)
    requires Held(s) && e.Write? && Enabled(s, e)
    ensures OneHand(Step(s, e)) && AllTidy(Step(s, e))
  {
    var next, before := Step(s, e), s.threads[e.thread];
    assert Tidy(s.rows, before) && Honest(s, before) && Holds(before, before.update.id);
    forall t | t in next.threads ensures Tidy(next.rows, next.threads[t]) {
      assert Tidy(s.rows, s.threads[t]);
      forall id: nat | Holds(next.threads[t], id) ensures Unsent(next.rows, id) {
        assert Holds(s.threads[t], id);
        HeldExist(s, t, id);
      }
      TidyAgain(s.rows, next.rows, s.threads[t], next.threads[t]);
    }
    forall t, id: nat | t in next.threads && Holds(next.threads[t], id) ensures Holds(s.threads[t], id) {
    }
  }

  lemma TidyAgain(rows: seq<Row>, after: seq<Row>, t: Thread, next: Thread)
    requires Tidy(rows, t) && next.todo == t.todo && (next.update == t.update || next.update.NoUpdate?)
    requires forall id: nat :: Holds(next, id) ==> Unsent(after, id)
    ensures Tidy(after, next)
  {
    forall i | 0 <= i < |next.todo| ensures Unsent(after, next.todo[i].id) {
      assert InTodo(next.todo, next.todo[i].id);
      assert Holds(next, next.todo[i].id);
    }
    if !next.update.NoUpdate? {
      assert Holds(next, next.update.id);
    }
  }

  lemma StepKeepsHeld(s: State, e: Event)
    requires Held(s) && Apart(s, e)
    ensures Held(Step(s, e))
  {
    if Enabled(s, e) {
      match e
      case Admin(_, _, _) => AdminKeepsHeld(s, e); AdminStaysFaithful(s, e);
      case Sweep(_, _) => SweepKeepsHeld(s, e); SweepStaysFaithful(s, e);
      case TrySend(_, _, _) => TrySendKeepsHeld(s, e); SendStaysFaithful(s, e);
      case Write(_, _) => WriteKeepsHeld(s, e); WriteStaysFaithful(s, e);
    }
  }

  lemma {:induction false} RunKeepsHeld(s: State, es: seq<Event>)
    requires Held(s) && Exclusive(s, es)
    ensures Held(Run(s, es))
  {
    if es != [] {
      RunKeepsHeld(s, es[..|es| - 1]);
      StepKeepsHeld(Run(s, es[..|es| - 1]), es[|es| - 1]);
    }
  }

  // ---- With every mark written, nothing goes out twice -------------------------------------------------

  ghost predicate MarkPends(s: State, id: nat) {
    exists t :: t in s.threads && s.threads[t].update == Mark(id)
  }

  /** What has been handed over is marked as sent, or about to be. */
  ghost predicate Accounted(s: State) {
    forall id: nat :: HandedOver(s, id) ==> id < |s.rows| && (s.rows[id].status == Sent || MarkPends(s, id))
  }

  /** So no thread is yet to send it, or to note a failure for it. */
  lemma HeldIsNotHandedOver(s: State, t: nat, id: nat)
    requires Held(s) && Accounted(s) && t in s.threads && Holds(s.threads[t], id) && s.threads[t].update != Mark(id)
    ensures !HandedOver(s, id)
  {
    HeldExist(s, t, id);
    if MarkPends(s, id) {
      var u :| u in s.threads && s.threads[u].update == Mark(id);
      MarkIsHeld(s, u, id);
      assert false;
    }
  }

  lemma MarkIsHeld(s: State, t: nat, id: nat)
    requires t in s.threads && s.threads[t].update == Mark(id)
    ensures Holds(s.threads[t], id)
  {
  }

  lemma SendStaysAccounted(s: State, e: Event)
    requires Held(s) && Accounted(s) && Once(s.delivered) && e.TrySend? && Enabled(s, e)
    ensures Accounted(Step(s, e)) && Once(Step(s, e).delivered)
  {
    var next, item := Step(s, e), s.threads[e.thread].todo[0];
    assert InTodo(s.threads[e.thread].todo, item.id);
    HeldIsNotHandedOver(s, e.thread, item.id);
    assert Matches(s.rows, item) by { assert Honest(s, s.threads[e.thread]); }
    forall id: nat | HandedOver(next, id) ensures id < |next.rows| && (next.rows[id].status == Sent || MarkPends(next, id)) {
      if HandedOver(s, id) {
        if MarkPends(s, id) {
          var t :| t in s.threads && s.threads[t].update == Mark(id);
          assert next.threads[t].update == Mark(id);
        }
      } else {
        assert id == item.id && next.threads[e.thread].update == Mark(id);
      }
    }
  }

  lemma WriteStaysAccounted(s: State, e: Event)
    requires Held(s) && Accounted(s) && e.Write? && Enabled(s, e) && MarkSucceeds(s, e)
    ensures Accounted(Step(s, e))
  {
    var next, u := Step(s, e), s.threads[e.thread].update;
    assert Holds(s.threads[e.thread], u.id);
    if !u.Mark? { HeldIsNotHandedOver(s, e.thread, u.id); }
    assert Honest(s, s.threads[e.thread]);
    forall id: nat | HandedOver(next, id) ensures id < |next.rows| && (next.rows[id].status == Sent || MarkPends(next, id)) {
      assert HandedOver(s, id);
      if s.rows[id].status != Sent && u != Mark(id) {
        var t :| t in s.threads && s.threads[t].update == Mark(id);
        assert next.threads[t].update == Mark(id);
      }
    }
  }

  lemma OtherStaysAccounted(s: State, e: Event)
    requires Accounted(s) && (e.Admin? || e.Sweep?) && Enabled(s, e)
    ensures Accounted(Step(s, e))
  {
    var next := Step(s, e);
    forall id: nat | HandedOver(next, id) ensures id < |next.rows| && (next.rows[id].status == Sent || MarkPends(next, id)) {
      assert HandedOver(s, id);
      if MarkPends(s, id) {
        var t :| t in s.threads && s.threads[t].update == Mark(id);
        assert next.threads[t].update == Mark(id);
      }
    }
  }

  ghost predicate OnceSoFar(s: State) {
    Held(s) && Accounted(s) && Once(s.delivered)
  }

  lemma StepKeepsOnce(s: State, e: Event)
    requires OnceSoFar(s) && Apart(s, e) && MarkSucceeds(s, e)
    ensures OnceSoFar(Step(s, e))
  {
    StepKeepsHeld(s, e);
    if Enabled(s, e) {
      match e
      case Admin(_, _, _) => OtherStaysAccounted(s, e);
      case Sweep(_, _) => OtherStaysAccounted(s, e);
      case TrySend(_, _, _) => SendStaysAccounted(s, e);
      case Write(_, _) => WriteStaysAccounted(s, e);
    }
  }

  lemma {:induction false} RunKeepsOnce(s: State, es: seq<Event>)
    requires OnceSoFar(s) && Exclusive(s, es) && MarksSucceed(s, es)
    ensures OnceSoFar(Run(s, es))
  {
    if es != [] {
      RunKeepsOnce(s, es[..|es| - 1]);
      StepKeepsOnce(Run(s, es[..|es| - 1]), es[|es| - 1]);
    }
  }

  // ---- A mark that is lost sends the command again ------------------------------------------------------

  /** The command went out, but no one will mark its row any more: it is listed again. */
  ghost predicate Lost(s: State, id: nat) {
    Unsent(s.rows, id) && HandedOver(s, id) && !MarkPends(s, id)
  }

  lemma StaysFaithful(s: State, e: Event)
    requires Faithful(s)
    ensures Faithful(Step(s, e))
  {
    if Enabled(s, e) {
      match e
      case Admin(_, _, _) => AdminStaysFaithful(s, e);
      case Sweep(_, _) => SweepStaysFaithful(s, e);
      case TrySend(_, _, _) => SendStaysFaithful(s, e);
      case Write(_, _) => WriteStaysFaithful(s, e);
    }
  }

  /** Only a success in sending the row's command makes a mark for it. */
  lemma OtherStepsMakeNoMark(s: State, e: Event, id: nat)
    requires !MarkPends(s, id) && MarkPends(Step(s, e), id)
    ensures e.TrySend? && Enabled(s, e) && Step(s, e).delivered == s.delivered + [Delivery(id, EnvelopeOf(s.threads[e.thread].todo[0].row))]
  {
    var next := Step(s, e);
    var t :| t in next.threads && next.threads[t].update == Mark(id);
    assert t in s.threads ==> s.threads[t].update != Mark(id);
  }

  /** Only the write of a mark makes a row sent. */
  lemma OtherStepsMarkNothing(s: State, e: Event, id: nat)
    requires Faithful(s) && Unsent(s.rows, id) && !Unsent(Step(s, e).rows, id)
    ensures MarkPends(s, id)
  {
    assert e.Write? && Honest(s, s.threads[e.thread]);
    assert s.threads[e.thread].update == Mark(id);
  }

  lemma StepKeepsLost(s: State, e: Event, id: nat)
    requires Faithful(s) && Lost(s, id)
    ensures Lost(Step(s, e), id) || !Once(Step(s, e).delivered)
  {
    var next := Step(s, e);
    var k :| 0 <= k < |s.delivered| && s.delivered[k].id == id;
    assert next.delivered[k].id == id;
    if MarkPends(next, id) {
      OtherStepsMakeNoMark(s, e, id);
      assert next.delivered[|s.delivered|].id == id;
    }
    if !Unsent(next.rows, id) {
      OtherStepsMarkNothing(s, e, id);
    }
  }

  lemma FailedMarkIsLost(s: State, e: Event) returns (id: nat)
    requires Held(s) && !MarkSucceeds(s, e)
    ensures Lost(Step(s, e), id)
  {
    var next, t := Step(s, e), s.threads[e.thread];
    id := t.update.id;
    assert Honest(s, t) && Holds(t, id);
    HeldExist(s, e.thread, id);
    var k :| 0 <= k < |s.delivered| && s.delivered[k] == Delivery(id, EnvelopeOf(s.rows[id]));
    assert next.delivered[k].id == id;
    if MarkPends(next, id) {
      var u :| u in next.threads && next.threads[u].update == Mark(id);
      assert u != e.thread && Holds(s.threads[u], id);
    }
  }

  lemma PrefixIsOnce(s: State, e: Event)
    requires Once(Step(s, e).delivered)
    ensures Once(s.delivered)
  {
    assert forall k :: 0 <= k < |s.delivered| ==> Step(s, e).delivered[k] == s.delivered[k];
  }

  lemma {:induction false} LosesARow(s: State, es: seq<Event>) returns (id: nat)
    requires Held(s) && Exclusive(s, es) && !MarksSucceed(s, es) && Once(Run(s, es).delivered)
    ensures Lost(Run(s, es), id)
  {
    var front, e := es[..|es| - 1], es[|es| - 1];
    var t := Run(s, front);
    RunKeepsHeld(s, front);
    PrefixIsOnce(t, e);
    if MarksSucceed(s, front) {
      id := FailedMarkIsLost(t, e);
    } else {
      id := LosesARow(s, front);
      StepKeepsLost(t, e, id);
    }
  }

  /** Some exclusive run in which every mark is written leads from `s` to `t`. */
  ghost predicate CanReach(s: State, t: State) {
    exists cs :: Exclusive(s, cs) && MarksSucceed(s, cs) && Run(s, cs) == t
  }

  lemma ReachSelf(s: State)
    ensures CanReach(s, s)
  {
    assert Exclusive(s, []) && MarksSucceed(s, []) && Run(s, []) == s;
  }

  lemma ReachNext(s: State, t: State, e: Event)
    requires CanReach(s, t) && Apart(t, e) && MarkSucceeds(t, e)
    ensures CanReach(s, Step(t, e))
  {
    var cs :| Exclusive(s, cs) && MarksSucceed(s, cs) && Run(s, cs) == t;
    var more := cs + [e];
    assert more[..|more| - 1] == cs && more[|more| - 1] == e;
    assert Exclusive(s, more) && MarksSucceed(s, more) && Run(s, more) == Step(t, e);
  }

  lemma {:induction false} RunStaysFaithful(s: State, es: seq<Event>)
    requires Faithful(s)
    ensures Faithful(Run(s, es))
  {
    if es != [] {
      RunStaysFaithful(s, es[..|es| - 1]);
      StaysFaithful(Run(s, es[..|es| - 1]), es[|es| - 1]);
    }
  }

  lemma ReachedIsFaithful(s: State, t: State)
    requires Faithful(s) && CanReach(s, t)
    ensures Faithful(t)
  {
    var cs :| Exclusive(s, cs) && MarksSucceed(s, cs) && Run(s, cs) == t;
    RunStaysFaithful(s, cs);
  }

  predicate Resting(t: Thread) {
    t.todo == [] && t.update.NoUpdate?
  }

  /** The later threads differ in those of `ts` only, which rest. */
  ghost predicate Rested(threads: map<nat, Thread>, later: map<nat, Thread>, ts: set<nat>) {
    && later.Keys == threads.Keys
    && (forall x :: x in ts && x in later ==> Resting(later[x]))
    && (forall x :: x in later && x !in ts ==> later[x] == threads[x])
  }

  /** A thread comes to rest by finishing its write and failing to send. */
  lemma RestOne(start: State, s: State, x: nat, id: nat) returns (t: State)
    requires Faithful(start) && CanReach(start, s) && Lost(s, id) && x in s.threads
    ensures CanReach(start, t) && Lost(t, id)
    ensures x in t.threads && Resting(t.threads[x]) && t.threads == s.threads[x := t.threads[x]]
  {
    t := s;
    if !t.threads[x].update.NoUpdate? {
      t := Finished(start, t, x, id);
    }
    if t.threads[x].todo != [] {
      t := GivesUp(start, t, x, id);
      t := Finished(start, t, x, id);
    }
  }

  lemma GivesUp(start: State, s: State, x: nat, id: nat) returns (t: State)
    requires Faithful(start) && CanReach(start, s) && Lost(s, id) && x in s.threads && s.threads[x].todo != [] && s.threads[x].update.NoUpdate?
    ensures CanReach(start, t) && Lost(t, id)
    ensures x in t.threads && t.threads[x].todo == [] && !t.threads[x].update.NoUpdate? && t.threads == s.threads[x := t.threads[x]]
  {
    t := Step(s, TrySend(x, true, false));
    ReachNext(start, s, TrySend(x, true, false));
    FailingSendKeepsLost(s, x, id);
  }

  lemma FailingSendKeepsLost(s: State, x: nat, id: nat)
    requires Lost(s, id) && x in s.threads && s.threads[x].todo != [] && s.threads[x].update.NoUpdate?
    ensures Lost(Step(s, TrySend(x, true, false)), id)
  {
    var e := TrySend(x, true, false);
    var k :| 0 <= k < |s.delivered| && s.delivered[k].id == id;
    assert Step(s, e).delivered[k].id == id;
    if MarkPends(Step(s, e), id) {
      OtherStepsMakeNoMark(s, e, id);
    }
  }

  lemma Finished(start: State, s: State, x: nat, id: nat) returns (t: State)
    requires Faithful(start) && CanReach(start, s) && Lost(s, id) && x in s.threads && !s.threads[x].update.NoUpdate?
    ensures CanReach(start, t) && Lost(t, id) && t.threads == s.threads[x := s.threads[x].(update := NoUpdate)]
  {
    var e := Write(x, true);
    t := Step(s, e);
    ReachNext(start, s, e);
    ReachedIsFaithful(start, s);
    var k :| 0 <= k < |s.delivered| && s.delivered[k].id == id;
    assert t.delivered[k].id == id;
    if MarkPends(t, id) {
      OtherStepsMakeNoMark(s, e, id);
    }
    if !Unsent(t.rows, id) {
      OtherStepsMarkNothing(s, e, id);
    }
  }

  lemma {:induction false} RestAll(start: State, s: State, ts: set<nat>, id: nat) returns (t: State)
    requires Faithful(start) && CanReach(start, s) && Lost(s, id) && ts <= s.threads.Keys
    ensures CanReach(start, t) && Lost(t, id) && Rested(s.threads, t.threads, ts)
    decreases |ts|
  {
    if ts == {} {
      t := s;
    } else {
      var x :| x in ts;
      var u := RestAll(start, s, ts - {x}, id);
      t := RestOne(start, u, x, id);
    }
  }

  lemma {:induction false} UnusedThread(ts: set<nat>) returns (n: nat)
    ensures forall t :: t in ts ==> t < n
  {
    if ts == {} {
      n := 0;
    } else {
      var t :| t in ts;
      var rest := UnusedThread(ts - {t});
      n := if t < rest then rest else t + 1;
      forall u | u in ts ensures u < n {
        if u != t { assert u in ts - {t}; }
      }
    }
  }

  lemma {:induction false} SnapshotHas(rows: seq<Row>, device: string, n: nat, id: nat) returns (k: nat)
    requires n <= |rows| && id < n && Listed(rows[id], device)
    ensures k < |Snapshot(rows, device, n)| && Snapshot(rows, device, n)[k].id == id
  {
    if id == n - 1 {
      k := |Snapshot(rows, device, n - 1)|;
    } else {
      k := SnapshotHas(rows, device, n - 1, id);
    }
  }

  /** A sweep that gets as far as the lost row sends its command again. */
  lemma {:induction false} SendsUpTo(start: State, s: State, x: nat, k: nat, id: nat) returns (t: State)
    requires CanReach(start, s) && HandedOver(s, id)
    requires x in s.threads && s.threads[x].update.NoUpdate? && k < |s.threads[x].todo| && s.threads[x].todo[k].id == id
    ensures CanReach(start, t) && !Once(t.delivered)
    decreases k
  {
    var j :| 0 <= j < |s.delivered| && s.delivered[j].id == id;
    var sent := Step(s, TrySend(x, true, true));
    ReachNext(start, s, TrySend(x, true, true));
    assert sent.delivered[j].id == id;
    if k == 0 {
      assert sent.delivered[|s.delivered|].id == id;
      t := sent;
    } else {
      var marked := Step(sent, Write(x, true));
      ReachNext(start, sent, Write(x, true));
      assert marked.delivered[j].id == id;
      t := SendsUpTo(start, marked, x, k - 1, id);
    }
  }

  lemma LostRowGoesOutAgain(s: State, id: nat) returns (t: State)
    requires Faithful(s) && Lost(s, id)
    ensures CanReach(s, t) && !Once(t.delivered)
  {
    ReachSelf(s);
    var rested := RestAll(s, s, s.threads.Keys, id);
    var x := UnusedThread(rested.threads.Keys);
    var device := rested.rows[id].device;
    assert forall i: nat :: NobodyHolds(rested, i);
    ReachNext(s, rested, Sweep(x, device));
    var k := SnapshotHas(rested.rows, device, |rested.rows|, id);
    t := SendsUpTo(s, Step(rested, Sweep(x, device)), x, k, id);
  }

  // ---- The exact condition ----------------------------------------------------------------------------------

  /** If the run goes on apart and with every mark written, nothing has gone out twice at its end. */
  ghost predicate StaysOnce(s: State, cs: seq<Event>) {
    Exclusive(s, cs) && MarksSucceed(s, cs) ==> Once(Run(s, cs).delivered)
  }

  ghost predicate AlwaysOnce(s: State) {
    forall cs :: StaysOnce(s, cs)
  }

  lemma TwiceIsNotAlwaysOnce(s: State, t: State)
    requires CanReach(s, t) && !Once(t.delivered)
    ensures !AlwaysOnce(s)
  {
    var cs :| Exclusive(s, cs) && MarksSucceed(s, cs) && Run(s, cs) == t;
    assert !StaysOnce(s, cs);
  }

  lemma OnceSoFarIsAlwaysOnce(s: State)
    requires OnceSoFar(s)
    ensures AlwaysOnce(s)
  {
    forall cs ensures StaysOnce(s, cs) {
      if Exclusive(s, cs) && MarksSucceed(s, cs) {
        RunKeepsOnce(s, cs);
      }
    }
  }

  /** At most once, exactly. In a run in which every sweep of a device begins only while no thread holds a
      row of it, every write of a sent mark succeeded if and only if no such continuation, with its own
      marks written, ever hands a command over twice. */
  lemma AtMostOnceExactly(es: seq<Event>)
    requires Exclusive(START, es)
    ensures MarksSucceed(START, es) <==> AlwaysOnce(Run(START, es))
  {
    var s := Run(START, es);
    if MarksSucceed(START, es) {
      RunKeepsOnce(START, es);
      OnceSoFarIsAlwaysOnce(s);
    } else if Once(s.delivered) {
      var id := LosesARow(START, es);
      RunsAreFaithful(es);
      var t := LostRowGoesOutAgain(s, id);
      TwiceIsNotAlwaysOnce(s, t);
    } else {
      ReachSelf(s);
      TwiceIsNotAlwaysOnce(s, s);
    }
  }
}
