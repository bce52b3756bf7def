/** What the recorded versions say about the requests and done frames of a server's life. */
module BackupHistory {
  import opened Bytes
  import opened BackupState
  import opened BackupSafety

  /** Event `a` of the life is an accepted upload request under this session id. */
  ghost predicate Asked(s: State, es: seq<Event>, a: int, sid: Text) {
    0 <= a < |es| && InitAccepted(Run(s, es[..a]), es[a]) && es[a].id == sid
  }

  /** What a session keeps of its request. */
  predicate SessionOf(session: Session, e: Event)
    requires e.InitUpload?
  {
    && session.token == e.token && session.device == e.device && session.fileId == e.request.fileId
    && session.logicalPath == RecordedPath(e.request) && session.logicalPath != []
    && session.fileName == Base(e.request.fileName) && session.fileSize == e.request.fileSize
    && session.final == Path(e.device, StoredName(e.now, e.request.fileName))
  }

  ghost predicate StemsFrom(s: State, es: seq<Event>, sid: Text, session: Session) {
    exists a :: Asked(s, es, a, sid) && SessionOf(session, es[a])
  }

  ghost predicate AllStem(s: State, es: seq<Event>) {
    var t := Run(s, es);
    forall sid :: IsUpload(t, sid) ==> StemsFrom(s, es, sid, t.sessions[sid])
  }

  lemma StemsLonger(s: State, es: seq<Event>, e: Event, sid: Text, session: Session)
    requires StemsFrom(s, es, sid, session)
    ensures StemsFrom(s, es + [e], sid, session)
  {
    var a :| Asked(s, es, a, sid) && SessionOf(session, es[a]);
    assert (es + [e])[..a] == es[..a] && (es + [e])[a] == es[a];
    assert Asked(s, es + [e], a, sid);
  }

  lemma NewSessionStems(s: State, es: seq<Event>, e: Event)
    requires InitAccepted(Run(s, es), e)
    ensures StemsFrom(s, es + [e], e.id, Step(Run(s, es), e).sessions[e.id])
  {
    LogicalPathIsNotEmpty(Run(s, es), e);
    assert (es + [e])[..|es|] == es && (es + [e])[|es|] == e;
    assert Asked(s, es + [e], |es|, e.id);
  }

  /** An upload session after a step is the new one of an accepted request or was there before. */
  lemma SessionsBefore(t: State, e: Event, sid: Text)
    requires IsUpload(Step(t, e), sid) && !(InitAccepted(t, e) && e.id == sid)
    ensures IsUpload(t, sid) && SameUpload(t.sessions[sid], Step(t, e).sessions[sid])
  {
  }

  lemma SameUploadStems(s: State, es: seq<Event>, sid: Text, old1: Session, new1: Session)
    requires StemsFrom(s, es, sid, old1) && SameUpload(old1, new1)
    ensures StemsFrom(s, es, sid, new1)
  {
    var a :| Asked(s, es, a, sid) && SessionOf(old1, es[a]);
    assert SessionOf(new1, es[a]);
  }

  lemma StepKeepsStems(s: State, es: seq<Event>, e: Event)
    requires AllStem(s, es)
    ensures AllStem(s, es + [e])
  {
    var t, next := Run(s, es), Step(Run(s, es), e);
    RunAppend(s, es, e);
    forall sid | IsUpload(next, sid) ensures StemsFrom(s, es + [e], sid, next.sessions[sid]) {
      if InitAccepted(t, e) && e.id == sid {
        NewSessionStems(s, es, e);
      } else {
        SessionsBefore(t, e, sid);
        SameUploadStems(s, es, sid, t.sessions[sid], next.sessions[sid]);
        StemsLonger(s, es, e, sid, next.sessions[sid]);
      }
    }
  }

  /** Every upload session of a life stems from an accepted request of that life under its id. */
  lemma {:induction false} SessionsStem(s: State, es: seq<Event>)
    requires s.sessions == map[]
    ensures AllStem(s, es)
  {
    if es != [] {
      SessionsStem(s, es[..|es| - 1]);
      StepKeepsStems(s, es[..|es| - 1], es[|es| - 1]);
      assert es[..|es| - 1] + [es[|es| - 1]] == es;
    }
  }

  /** Event `b` is a done frame of an authorised device with id and token of the request at `a`, and it adds
      the `i`-th row, which says what that request asked for, under the next number of its path. */
  ghost predicate FinishedBy(s: State, es: seq<Event>, i: int, a: int, b: int) {
    && 0 <= a < b < |es| && es[b].Done? && Asked(s, es, a, es[b].sid) && es[a].token == es[b].token
    && Authorized(Run(s, es[..b]), es[b].device)
    && |Run(s, es[..b]).versions| == i
    && Records(Run(s, es[..b]).versions, Run(s, es[..b + 1]).versions, es[a])
  }

  ghost predicate StandsForUpload(s: State, es: seq<Event>, i: int) {
    exists a, b :: FinishedBy(s, es, i, a, b)
  }

  lemma PrefixStays(es: seq<Event>, e: Event, n: nat)
    requires n <= |es|
    ensures (es + [e])[..n] == es[..n] && (n < |es| ==> (es + [e])[n] == es[n])
  {
  }

  lemma FinishedLonger(s: State, es: seq<Event>, e: Event, i: int, a: nat, b: nat)
    requires FinishedBy(s, es, i, a, b)
    ensures FinishedBy(s, es + [e], i, a, b)
  {
    PrefixStays(es, e, a);
    PrefixStays(es, e, b);
    PrefixStays(es, e, b + 1);
  }

  lemma StandsLonger(s: State, es: seq<Event>, e: Event, i: int)
    requires StandsForUpload(s, es, i)
    ensures StandsForUpload(s, es + [e], i)
  {
    var a, b :| FinishedBy(s, es, i, a, b);
    FinishedLonger(s, es, e, i, a, b);
  }

  lemma DoneRecords(t: State, d: Event, e: Event)
    requires d.Done? && Step(t, d).versions != t.versions && e.InitUpload? && SessionOf(t.sessions[d.sid], e)
    ensures Accepts(t, d.device, d.sid, d.token) && Records(t.versions, Step(t, d).versions, e)
  {
    var session := t.sessions[d.sid];
    NewestIsLargest(t.versions, session.device, session.logicalPath);
  }

  lemma OnlyDoneRecords(t: State, d: Event)
    requires Step(t, d).versions != t.versions
    ensures d.Done? && Accepts(t, d.device, d.sid, d.token) && IsUpload(t, d.sid)
  {
  }

  lemma LastPrefixes(es: seq<Event>, d: Event)
    ensures (es + [d])[..|es|] == es && (es + [d])[..|es| + 1] == es + [d] && (es + [d])[|es|] == d
    ensures forall a :: 0 <= a < |es| ==> (es + [d])[..a] == es[..a] && (es + [d])[a] == es[a]
  {
  }

  lemma FinishedByLast(s: State, es: seq<Event>, d: Event, a: int)
    requires d.Done? && Asked(s, es, a, d.sid) && es[a].token == d.token && Authorized(Run(s, es), d.device)
    requires Records(Run(s, es).versions, Step(Run(s, es), d).versions, es[a])
    ensures FinishedBy(s, es + [d], |Run(s, es).versions|, a, |es|)
  {
    RunAppend(s, es, d);
    LastPrefixes(es, d);
  }

  lemma NewRowStands(s: State, es: seq<Event>, d: Event)
    requires AllStem(s, es) && Step(Run(s, es), d).versions != Run(s, es).versions
    ensures StandsForUpload(s, es + [d], |Run(s, es).versions|)
    ensures |Step(Run(s, es), d).versions| == |Run(s, es).versions| + 1
  {
    var t := Run(s, es);
    OnlyDoneRecords(t, d);
    var a :| Asked(s, es, a, d.sid) && SessionOf(t.sessions[d.sid], es[a]);
    DoneRecords(t, d, es[a]);
    FinishedByLast(s, es, d, a);
  }

  ghost predicate AllRowsStand(s: State, es: seq<Event>) {
    forall i :: |s.versions| <= i < |Run(s, es).versions| ==> StandsForUpload(s, es, i)
  }

  lemma StepAddsAtMostOne(s: State, es: seq<Event>, e: Event)
    requires AllStem(s, es)
    ensures var n, m := |Run(s, es).versions|, |Run(s, es + [e]).versions|;
            m == n || (m == n + 1 && StandsForUpload(s, es + [e], n))
  {
    RunAppend(s, es, e);
    if Step(Run(s, es), e).versions != Run(s, es).versions {
      NewRowStands(s, es, e);
    }
  }

  lemma StepKeepsStanding(s: State, es: seq<Event>, e: Event)
    requires AllStem(s, es) && AllRowsStand(s, es)
    ensures AllRowsStand(s, es + [e])
  {
    StepAddsAtMostOne(s, es, e);
    forall i | |s.versions| <= i < |Run(s, es + [e]).versions| ensures StandsForUpload(s, es + [e], i) {
      if i < |Run(s, es).versions| {
        StandsLonger(s, es, e, i);
      }
    }
  }

  /** Version rows account for uploads: every row that a life of the server adds was added by a done frame
      of an authorised device, with id and token of an earlier accepted request of that life, and says what
      that request asked for, under the next number of its path. */
  lemma {:induction false} RowsStandForUploads(s: State, es: seq<Event>)
    requires s.sessions == map[]
    ensures AllRowsStand(s, es)
  {
    if es != [] {
      var front := es[..|es| - 1];
      RowsStandForUploads(s, front);
      SessionsStem(s, front);
      StepKeepsStanding(s, front, es[|es| - 1]);
      assert front + [es[|es| - 1]] == es;
    }
  }

  /** A row stays what it was when it was added. */
  lemma RowStays(s: State, es: seq<Event>, i: int, a: int, b: int)
    requires FinishedBy(s, es, i, a, b)
    ensures i < |Run(s, es).versions| && RowOf(Run(s, es).versions[i], es[a])
  {
    var t := Run(s, es[..b + 1]);
    RunSplits(s, es, b + 1);
    VersionsOnlyGrow(t, es[b + 1..]);
    assert Run(s, es).versions[i] == t.versions[i];
  }

  lemma {:induction false} RunSplits(s: State, es: seq<Event>, n: nat)
    requires n <= |es|
    ensures Run(s, es) == Run(Run(s, es[..n]), es[n..])
    decreases n
  {
    if n == 0 {
      assert es[0..] == es;
    } else {
      RunSplits(Step(s, es[0]), es[1..], n - 1);
      assert es[..n][1..] == es[1..][..n - 1] && es[1..][n - 1..] == es[n..];
    }
  }
}
