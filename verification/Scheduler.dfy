/** The agent's automatic backup: at most one per path at a time, and a pause between two. */
module Scheduler {
  /** backupCooldown, ten seconds in nanoseconds. */
  const COOLDOWN := 10_000_000_000

  datatype State = State(enabled: bool, inFlight: set<string>, recent: map<string, int>)

  datatype Event =
    | Switch(on: bool, now: int)
    | Request(path: string, now: int)
    | Finish(path: string, now: int)

  const START := State(true, {}, map[])

  predicate Starts(s: State, e: Event) {
    && e.Request? && s.enabled
    && !(e.path in s.recent && e.now - s.recent[e.path] < COOLDOWN)
    && e.path !in s.inFlight
  }

  /** A backup that was started ends once, whether it failed or not. */
  predicate Ends(s: State, e: Event) {
    e.Finish? && e.path in s.inFlight
  }

  function Step(s: State, e: Event): State {
    match e
    case Switch(on, _) => s.(enabled := on)
    case Request(path, _) => if Starts(s, e) then s.(inFlight := s.inFlight + {path}) else s
    case Finish(path, now) => if Ends(s, e) then s.(inFlight := s.inFlight - {path}, recent := s.recent[path := now]) else s
  }

  function Run(es: seq<Event>): State {
    if es == [] then START else Step(Run(es[..|es| - 1]), es[|es| - 1])
  }

  // ---- The scheduler on its own fields -----------------------------------------------------------------

  class BackupState {
    var enabled: bool
    var inFlight: set<string>
    var recent: map<string, int>

    constructor ()
      ensures View() == START
    {
      enabled, inFlight, recent := true, {}, map[];
    }

    ghost function View(): State
      reads this
    {
      State(enabled, inFlight, recent)
    }

    method SetBackupEnabled(on: bool, ghost now: int)
      modifies this
      ensures View() == Step(old(View()), Switch(on, now))
    {
      enabled := on;
    }

    method ScheduleBackup(path: string, now: int) returns (started: bool)
      modifies this
      ensures started <==> Starts(old(View()), Request(path, now))
      ensures View() == Step(old(View()), Request(path, now))
    {
      if !enabled { return false; }
      if path in recent && now - recent[path] < COOLDOWN { return false; }
      if path in inFlight { return false; }
      inFlight := inFlight + {path};
      started := true;
    }

    /** The deferred end of a started backup. */
    method FinishBackup(path: string, now: int)
      requires path in inFlight
      modifies this
      ensures View() == Step(old(View()), Finish(path, now))
    {
      inFlight := inFlight - {path};
      recent := recent[path := now];
    }
  }

  // ---- What the history says ------------------------------------------------------------------------------

  /** The last switch of the history, on before the first. */
  function SwitchedOn(es: seq<Event>): bool {
    if es == [] then true else
    var e := es[|es| - 1];
    if e.Switch? then e.on else SwitchedOn(es[..|es| - 1])
  }

  /** The times at which backups of the path started, and those at which they ended. */
  function StartTimes(es: seq<Event>, path: string): seq<int> {
    if es == [] then [] else
    var front, e := es[..|es| - 1], es[|es| - 1];
    StartTimes(front, path) + if Starts(Run(front), e) && e.path == path then [e.now] else []
  }

  function EndTimes(es: seq<Event>, path: string): seq<int> {
    if es == [] then [] else
    var front, e := es[..|es| - 1], es[|es| - 1];
    EndTimes(front, path) + if Ends(Run(front), e) && e.path == path then [e.now] else []
  }

  /** The state is what the history says: the last switch, at most one start without an end, and the
      time of the last end. */
  ghost predicate Told(es: seq<Event>, path: string) {
    var s, starts, ends := Run(es), StartTimes(es, path), EndTimes(es, path);
    && s.enabled == SwitchedOn(es)
    && |starts| == |ends| + (if path in s.inFlight then 1 else 0)
    && (path in s.recent <==> ends != [])
    && (path in s.recent ==> s.recent[path] == ends[|ends| - 1])
  }

  lemma {:induction false} HistoryTells(es: seq<Event>, path: string)
    ensures Told(es, path)
  {
    if es != [] {
      HistoryTells(es[..|es| - 1], path);
    }
  }

  /** A request, exactly: it starts a backup if and only if backups are switched on, every backup of
      the path that started has ended, and the last end lies at least the cooldown back. */
  lemma RequestStartsExactly(es: seq<Event>, path: string, now: int)
    ensures var starts, ends := StartTimes(es, path), EndTimes(es, path);
            Starts(Run(es), Request(path, now)) <==>
            SwitchedOn(es) && |starts| == |ends| && (ends != [] ==> now - ends[|ends| - 1] >= COOLDOWN)
  {
    HistoryTells(es, path);
  }

  // ---- Requests and ends by themselves ---------------------------------------------------------------------

  predicate Finishes(e: Event, path: string) {
    e.Finish? && e.path == path
  }

  /** Event `i` started a backup of the path, and no end of one came since. */
  ghost predicate StartStands(es: seq<Event>, i: int, path: string) {
    && 0 <= i < |es| && es[i].Request? && es[i].path == path && Starts(Run(es[..i]), es[i])
    && forall j :: i < j < |es| ==> !Finishes(es[j], path)
  }

  ghost predicate Running(es: seq<Event>, path: string) {
    exists i :: StartStands(es, i, path)
  }

  /** Event `j` is the last one that ended a running backup of the path. */
  ghost predicate EndStands(es: seq<Event>, j: int, path: string) {
    && 0 <= j < |es| && Finishes(es[j], path) && Running(es[..j], path)
    && forall k :: j < k < |es| ==> !(Finishes(es[k], path) && Running(es[..k], path))
  }

  lemma Prefixes(es: seq<Event>)
    requires es != []
    ensures var front := es[..|es| - 1];
            front[..|front|] == front && es[|front|] == es[|es| - 1]
            && forall j :: 0 <= j <= |front| ==> es[..j] == front[..j]
  {
  }

  lemma LastStartStands(es: seq<Event>, i: int, path: string)
    requires es != []
    ensures var front, e := es[..|es| - 1], es[|es| - 1];
            StartStands(es, i, path) <==>
            if i == |front| then e.Request? && e.path == path && Starts(Run(front), e)
            else StartStands(front, i, path) && !Finishes(e, path)
  {
    var front, e := es[..|es| - 1], es[|es| - 1];
    Prefixes(es);
    if StartStands(es, i, path) && i != |front| {
      assert !Finishes(es[|front|], path);
      assert forall j :: i < j < |front| ==> !Finishes(es[j], path);
    }
  }

  lemma RunningNext(es: seq<Event>, path: string)
    requires es != []
    ensures var front, e := es[..|es| - 1], es[|es| - 1];
            Running(es, path) <==>
            (e.Request? && e.path == path && Starts(Run(front), e)) || (Running(front, path) && !Finishes(e, path))
  {
    var front, e := es[..|es| - 1], es[|es| - 1];
    forall i ensures StartStands(es, i, path) <==>
          if i == |front| then e.Request? && e.path == path && Starts(Run(front), e)
          else StartStands(front, i, path) && !Finishes(e, path) {
      LastStartStands(es, i, path);
    }
    assert !StartStands(front, |front|, path);
    if e.Request? && e.path == path && Starts(Run(front), e) {
      assert StartStands(es, |front|, path);
    } else if Running(front, path) && !Finishes(e, path) {
      var i :| StartStands(front, i, path);
      assert StartStands(es, i, path);
    }
  }

  /** A path is in flight exactly while a backup of it runs. */
  lemma {:induction false} InFlightExactly(es: seq<Event>, path: string)
    ensures path in Run(es).inFlight <==> Running(es, path)
  {
    if es != [] {
      InFlightExactly(es[..|es| - 1], path);
      RunningNext(es, path);
    }
  }

  lemma LastEndStands(es: seq<Event>, j: int, path: string)
    requires es != []
    ensures var front, e := es[..|es| - 1], es[|es| - 1];
            EndStands(es, j, path) <==>
            if j == |front| then Finishes(e, path) && Running(front, path)
            else EndStands(front, j, path) && !(Finishes(e, path) && Running(front, path))
  {
    var front, e := es[..|es| - 1], es[|es| - 1];
    Prefixes(es);
    if EndStands(es, j, path) && j != |front| {
      assert !(Finishes(es[|front|], path) && Running(es[..|front|], path));
      assert forall k :: j < k < |front| ==> !(Finishes(es[k], path) && Running(es[..k], path));
    }
  }

  /** The time kept for a path is that of the last end of a backup of it. */
  lemma {:induction false} RecentExactly(es: seq<Event>, path: string, j: int)
    ensures EndStands(es, j, path) ==> path in Run(es).recent && Run(es).recent[path] == es[j].now
    ensures path in Run(es).recent ==> exists k :: EndStands(es, k, path)
  {
    if es != [] {
      var front, e := es[..|es| - 1], es[|es| - 1];
      RecentExactly(front, path, j);
      InFlightExactly(front, path);
      LastEndStands(es, j, path);
      if path in Run(es).recent {
        if Finishes(e, path) && Running(front, path) {
          LastEndStands(es, |front|, path);
        } else {
          var k :| EndStands(front, k, path);
          LastEndStands(es, k, path);
        }
      }
    }
  }

  /** A request, in terms of the events alone: it starts a backup if and only if backups are switched on, none
      of the path is running, and the last one ended at least the cooldown ago. */
  lemma RequestStartsFromHistory(es: seq<Event>, path: string, now: int)
    ensures Starts(Run(es), Request(path, now)) <==>
            && SwitchedOn(es) && !Running(es, path)
            && forall j :: EndStands(es, j, path) ==> now - es[j].now >= COOLDOWN
  {
    HistoryTells(es, path);
    InFlightExactly(es, path);
    RecentExactly(es, path, 0);
    forall j | EndStands(es, j, path) ensures path in Run(es).recent && Run(es).recent[path] == es[j].now {
      RecentExactly(es, path, j);
    }
  }

  // ---- Spacing ---------------------------------------------------------------------------------------------

  predicate Monotone(es: seq<Event>) {
    forall i, j :: 0 <= i < j < |es| ==> es[i].now <= es[j].now
  }

  /** Starts and ends of a path alternate: each start lies at least the cooldown after the end before
      it, and, where time does not go back, each end lies no earlier than its start. */
  ghost predicate Alternates(starts: seq<int>, ends: seq<int>) {
    && |ends| <= |starts| <= |ends| + 1
    && (forall i :: 0 < i < |starts| ==> starts[i] >= ends[i - 1] + COOLDOWN)
    && (forall i :: 0 <= i < |ends| ==> ends[i] >= starts[i])
  }

  ghost predicate NotAfter(times: seq<int>, now: int) {
    forall i :: 0 <= i < |times| ==> times[i] <= now
  }

  lemma {:induction false} StartsAreInThePast(es: seq<Event>, path: string, now: int)
    requires Monotone(es) && (es != [] ==> es[|es| - 1].now <= now)
    ensures NotAfter(StartTimes(es, path), now)
  {
    if es != [] {
      StartsAreInThePast(es[..|es| - 1], path, now);
    }
  }

  lemma OneMoreStart(starts: seq<int>, ends: seq<int>, now: int)
    requires Alternates(starts, ends) && |starts| == |ends| && (ends != [] ==> now >= ends[|ends| - 1] + COOLDOWN)
    ensures Alternates(starts + [now], ends)
  {
  }

  lemma OneMoreEnd(starts: seq<int>, ends: seq<int>, now: int)
    requires Alternates(starts, ends) && |starts| == |ends| + 1 && NotAfter(starts, now)
    ensures Alternates(starts, ends + [now])
  {
    assert starts[|ends|] <= now;
  }

  lemma LastTimes(es: seq<Event>, path: string)
    requires es != []
    ensures var front, e := es[..|es| - 1], es[|es| - 1];
            && (StartTimes(es, path) ==
                if Starts(Run(front), e) && e.path == path then StartTimes(front, path) + [e.now] else StartTimes(front, path))
            && (EndTimes(es, path) ==
                if Ends(Run(front), e) && e.path == path then EndTimes(front, path) + [e.now] else EndTimes(front, path))
  {
    var front := es[..|es| - 1];
    assert StartTimes(front, path) + [] == StartTimes(front, path) && EndTimes(front, path) + [] == EndTimes(front, path);
  }

  lemma CountsTell(es: seq<Event>, e: Event)
    ensures Starts(Run(es), e) ==>
              var starts, ends := StartTimes(es, e.path), EndTimes(es, e.path);
              |starts| == |ends| && (ends != [] ==> e.now >= ends[|ends| - 1] + COOLDOWN)
    ensures Ends(Run(es), e) ==> |StartTimes(es, e.path)| == |EndTimes(es, e.path)| + 1
  {
    if !e.Switch? {
      HistoryTells(es, e.path);
    }
  }

  lemma {:induction false} BackupsAlternate(es: seq<Event>, path: string)
    requires Monotone(es)
    ensures Alternates(StartTimes(es, path), EndTimes(es, path))
  {
    if es != [] {
      var front, e := es[..|es| - 1], es[|es| - 1];
      BackupsAlternate(front, path);
      LastTimes(es, path);
      CountsTell(front, e);
      StartsAreInThePast(front, path, e.now);
      if Starts(Run(front), e) && e.path == path {
        OneMoreStart(StartTimes(front, path), EndTimes(front, path), e.now);
      } else if Ends(Run(front), e) && e.path == path {
        OneMoreEnd(StartTimes(front, path), EndTimes(front, path), e.now);
      }
    }
  }

  /** Any two successive times lie at least the cooldown apart. */
  ghost predicate Spaced(times: seq<int>) {
    forall i :: 0 <= i < |times| - 1 ==> times[i + 1] - times[i] >= COOLDOWN
  }

  lemma StartsAreSpaced(es: seq<Event>, path: string)
    requires Monotone(es)
    ensures Spaced(StartTimes(es, path))
  {
    BackupsAlternate(es, path);
    var starts, ends := StartTimes(es, path), EndTimes(es, path);
    forall i | 0 <= i < |starts| - 1 ensures starts[i + 1] - starts[i] >= COOLDOWN {
      assert starts[i + 1] >= ends[i + 1 - 1] + COOLDOWN;
    }
  }

  lemma {:induction false} SpacedOverall(times: seq<int>)
    requires Spaced(times) && times != []
    ensures times[|times| - 1] - times[0] >= (|times| - 1) * COOLDOWN
  {
    if |times| > 1 {
      SpacedOverall(times[..|times| - 1]);
      assert times[|times| - 2 + 1] - times[|times| - 2] >= COOLDOWN;
    }
  }

  /** The times within the window of length `length` from `from` on. */
  function Within(times: seq<int>, from: int, length: nat): seq<int> {
    if times == [] then [] else
    var last := times[|times| - 1];
    Within(times[..|times| - 1], from, length) + if from <= last <= from + length then [last] else []
  }

  lemma {:induction false} WithinIsSpaced(times: seq<int>, from: int, length: nat)
    requires Spaced(times)
    ensures var ws := Within(times, from, length);
            && Spaced(ws)
            && (forall i :: 0 <= i < |ws| ==> from <= ws[i] <= from + length)
            && (ws != [] ==> ws[|ws| - 1] <= times[|times| - 1])
  {
    if times != [] {
      WithinIsSpaced(times[..|times| - 1], from, length);
      if |times| > 1 {
        assert times[|times| - 2 + 1] - times[|times| - 2] >= COOLDOWN;
      }
    }
  }

  /** Rate limit: where time does not go back, any window of length T sees at most T / cooldown + 1
      starts of one path, over every run. */
  lemma WindowBoundsStarts(es: seq<Event>, path: string, from: int, length: nat)
    requires Monotone(es)
    ensures |Within(StartTimes(es, path), from, length)| <= length / COOLDOWN + 1
  {
    StartsAreSpaced(es, path);
    var ws := Within(StartTimes(es, path), from, length);
    WithinIsSpaced(StartTimes(es, path), from, length);
    if ws != [] {
      SpacedOverall(ws);
    }
  }
}
