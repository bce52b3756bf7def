/** Applying a batch again, or in another order, gives the same tables. */
module FileTreeConvergence {
  import opened Basics
  import opened Strings
  import opened LogicalPaths
  import opened FileTreeModel
  import opened FileTreeForest

  // ---- What a set of row writes leaves in each row ------------------------------------------------

  /** Two writes whose order can matter. */
  predicate Clash(a: Write, b: Write) {
    match a
    case PutFile(id, _) => (b.PutFile? && b.id == id && a != b) || (b.Remove? && id == Agent(b.agentId))
    case PutFolder(id, _) => b.PutFolder? && b.id == id && a != b
    case PutItem(id, _) => (b.PutItem? && b.id == id && a != b) || (b.Remove? && id == Agent(b.agentId))
    case Remove(_, agentId) => (b.PutFile? || b.PutItem?) && b.id == Agent(agentId)
  }

  ghost predicate Coherent(ws: seq<Write>) {
    forall i, j :: 0 <= i < |ws| && 0 <= j < |ws| ==> !Clash(ws[i], ws[j])
  }

  /** A file item links to the file row of its own id and to no folder. */
  predicate WellMade(w: Write) {
    w.PutItem? && w.id.Agent? ==> w.item.file == Some(w.id) && w.item.folder == None
  }

  ghost predicate AllWellMade(ws: seq<Write>) {
    forall i :: 0 <= i < |ws| ==> WellMade(ws[i])
  }

  ghost predicate SelfLinked(t: Tables) {
    forall id :: id in t.items && id.Agent? ==> t.items[id].file == Some(id) && t.items[id].folder == None
  }

  predicate Has(ws: seq<Write>, w: Write) {
    ws != [] && (ws[|ws| - 1] == w || Has(ws[..|ws| - 1], w))
  }

  lemma {:induction false} HasIsMembership(ws: seq<Write>, w: Write)
    ensures Has(ws, w) <==> w in ws
  {
    if ws != [] {
      HasIsMembership(ws[..|ws| - 1], w);
      assert ws == ws[..|ws| - 1] + [ws[|ws| - 1]];
    }
  }

  function LastFile(ws: seq<Write>, id: Id): Option<FileRow> {
    if ws == [] then None else
    var w := ws[|ws| - 1];
    if w.PutFile? && w.id == id then Some(w.file) else LastFile(ws[..|ws| - 1], id)
  }

  function LastFolder(ws: seq<Write>, id: Id): Option<FolderRow> {
    if ws == [] then None else
    var w := ws[|ws| - 1];
    if w.PutFolder? && w.id == id then Some(w.folder) else LastFolder(ws[..|ws| - 1], id)
  }

  function LastItem(ws: seq<Write>, id: Id): Option<ItemRow> {
    if ws == [] then None else
    var w := ws[|ws| - 1];
    if w.PutItem? && w.id == id then Some(w.item) else LastItem(ws[..|ws| - 1], id)
  }

  lemma {:induction false} LastFileIsWritten(ws: seq<Write>, id: Id)
    ensures LastFile(ws, id).Some? ==> PutFile(id, LastFile(ws, id).value) in ws
    ensures LastFile(ws, id).None? ==> forall row :: PutFile(id, row) !in ws
  {
    if ws != [] {
      LastFileIsWritten(ws[..|ws| - 1], id);
      assert ws == ws[..|ws| - 1] + [ws[|ws| - 1]];
    }
  }

  lemma {:induction false} LastFolderIsWritten(ws: seq<Write>, id: Id)
    ensures LastFolder(ws, id).Some? ==> PutFolder(id, LastFolder(ws, id).value) in ws
    ensures LastFolder(ws, id).None? ==> forall row :: PutFolder(id, row) !in ws
  {
    if ws != [] {
      LastFolderIsWritten(ws[..|ws| - 1], id);
      assert ws == ws[..|ws| - 1] + [ws[|ws| - 1]];
    }
  }

  lemma {:induction false} LastItemIsWritten(ws: seq<Write>, id: Id)
    ensures LastItem(ws, id).Some? ==> PutItem(id, LastItem(ws, id).value) in ws
    ensures LastItem(ws, id).None? ==> forall row :: PutItem(id, row) !in ws
  {
    if ws != [] {
      LastItemIsWritten(ws[..|ws| - 1], id);
      assert ws == ws[..|ws| - 1] + [ws[|ws| - 1]];
    }
  }

  function Lookup<V>(m: map<Id, V>, id: Id): Option<V> {
    if id in m then Some(m[id]) else None
  }

  /** The item row of `id` after the writes: the one written, with the old delete mark, or the old
      one, marked if some write removes it. */
  function FinalItem(t: Tables, ws: seq<Write>, id: Id): Option<ItemRow> {
    match LastItem(ws, id)
    case Some(row) => Some(row.(deleted := id in t.items && t.items[id].deleted))
    case None =>
      if id !in t.items then None else
      var row := t.items[id];
      Some(row.(deleted := row.deleted || (id.Agent? && Has(ws, Remove(row.device, id.id)))))
  }

  function FinalFile(t: Tables, ws: seq<Write>, id: Id): Option<FileRow> {
    match LastFile(ws, id)
    case Some(row) => Some(row.(deleted := id in t.files && t.files[id].deleted))
    case None =>
      if id !in t.files then None else
      var row := t.files[id];
      Some(row.(deleted := row.deleted || (id.Agent? && id in t.items && !t.items[id].deleted
                                           && t.items[id].device == row.device && Has(ws, Remove(row.device, id.id)))))
  }

  function FinalFolder(t: Tables, ws: seq<Write>, id: Id): Option<FolderRow> {
    match LastFolder(ws, id)
    case Some(row) => Some(row.(deleted := id in t.folders && t.folders[id].deleted))
    case None => Lookup(t.folders, id)
  }

  lemma {:induction false} StaysSelfLinked(t: Tables, ws: seq<Write>)
    requires SelfLinked(t) && AllWellMade(ws)
    ensures SelfLinked(ApplyWrites(t, ws))
  {
    if ws != [] {
      StaysSelfLinked(t, ws[..|ws| - 1]);
      OneStaysSelfLinked(ApplyWrites(t, ws[..|ws| - 1]), ws[|ws| - 1]);
    }
  }

  lemma OneStaysSelfLinked(t: Tables, w: Write)
    requires SelfLinked(t) && WellMade(w)
    ensures SelfLinked(ApplyWrite(t, w))
  {
  }

  /** A removal among coherent writes stands alone: no write of the same id comes with it. */
  lemma RemovalStandsAlone(ws: seq<Write>, device: string, agentId: string)
    requires Coherent(ws) && Remove(device, agentId) in ws
    ensures LastItem(ws, Agent(agentId)).None? && LastFile(ws, Agent(agentId)).None?
  {
    LastItemIsWritten(ws, Agent(agentId));
    LastFileIsWritten(ws, Agent(agentId));
  }

  lemma PutStandsAlone(ws: seq<Write>, device: string, id: Id)
    requires Coherent(ws) && id.Agent? && (LastItem(ws, id).Some? || LastFile(ws, id).Some?)
    ensures !Has(ws, Remove(device, id.id))
  {
    HasIsMembership(ws, Remove(device, id.id));
    if Has(ws, Remove(device, id.id)) {
      RemovalStandsAlone(ws, device, id.id);
    }
  }

  lemma FrontIsCoherent(ws: seq<Write>)
    requires ws != [] && Coherent(ws) && AllWellMade(ws)
    ensures Coherent(ws[..|ws| - 1]) && AllWellMade(ws[..|ws| - 1])
    ensures ws[|ws| - 1] in ws
  {
  }

  lemma {:induction false} ItemAfter(t: Tables, ws: seq<Write>, id: Id)
    requires Coherent(ws) && AllWellMade(ws)
    ensures Lookup(ApplyWrites(t, ws).items, id) == FinalItem(t, ws, id)
  {
    if ws != [] {
      var front, w := ws[..|ws| - 1], ws[|ws| - 1];
      FrontIsCoherent(ws);
      ItemAfter(t, front, id);
      if w.Remove? && id == Agent(w.agentId) {
        RemovalStandsAlone(ws, w.device, w.agentId);
      } else if w.PutItem? && w.id == id && id in t.items && id.Agent? {
        PutStandsAlone(ws, t.items[id].device, id);
      }
    }
  }

  lemma {:induction false} FileAfter(t: Tables, ws: seq<Write>, id: Id)
    requires SelfLinked(t) && Coherent(ws) && AllWellMade(ws)
    ensures Lookup(ApplyWrites(t, ws).files, id) == FinalFile(t, ws, id)
  {
    if ws != [] {
      var front, w := ws[..|ws| - 1], ws[|ws| - 1];
      FrontIsCoherent(ws);
      FileAfter(t, front, id);
      if w.Remove? {
        StaysSelfLinked(t, front);
        ItemAfter(t, front, Agent(w.agentId));
        RemovalStandsAlone(ws, w.device, w.agentId);
        RemovedFile(t, front, w, id);
      } else if w.PutFile? && w.id == id && id in t.files && id.Agent? {
        PutStandsAlone(ws, t.files[id].device, id);
      }
    }
  }

  /** One more removal marks the file row of its id once, and touches no other. */
  lemma RemovedFile(t: Tables, front: seq<Write>, w: Write, id: Id)
    requires w.Remove? && SelfLinked(ApplyWrites(t, front))
    requires Lookup(ApplyWrites(t, front).files, id) == FinalFile(t, front, id)
    requires Lookup(ApplyWrites(t, front).items, Agent(w.agentId)) == FinalItem(t, front, Agent(w.agentId))
    requires LastItem(front, Agent(w.agentId)).None? && LastFile(front, Agent(w.agentId)).None?
    ensures Lookup(ApplyWrite(ApplyWrites(t, front), w).files, id) == FinalFile(t, front + [w], id)
  {
    assert (front + [w])[..|front|] == front;
  }

  lemma {:induction false} FolderAfter(t: Tables, ws: seq<Write>, id: Id)
    requires SelfLinked(t) && Coherent(ws) && AllWellMade(ws)
    ensures Lookup(ApplyWrites(t, ws).folders, id) == FinalFolder(t, ws, id)
  {
    if ws != [] {
      FrontIsCoherent(ws);
      FolderAfter(t, ws[..|ws| - 1], id);
      StaysSelfLinked(t, ws[..|ws| - 1]);
    }
  }

  /** Coherent writes are a set: any two lists with the same writes leave the same tables. */
  lemma SameWritesSameTables(t: Tables, a: seq<Write>, b: seq<Write>)
    requires SelfLinked(t) && Coherent(a) && Coherent(b) && AllWellMade(a) && AllWellMade(b)
    requires forall w :: w in a <==> w in b
    ensures ApplyWrites(t, a) == ApplyWrites(t, b)
  {
    var after, other := ApplyWrites(t, a), ApplyWrites(t, b);
    forall id ensures Lookup(after.items, id) == Lookup(other.items, id) {
      ItemAfter(t, a, id);
      ItemAfter(t, b, id);
      SameFinalItem(t, a, b, id);
    }
    forall id ensures Lookup(after.files, id) == Lookup(other.files, id) {
      FileAfter(t, a, id);
      FileAfter(t, b, id);
      SameFinalFile(t, a, b, id);
    }
    forall id ensures Lookup(after.folders, id) == Lookup(other.folders, id) {
      FolderAfter(t, a, id);
      FolderAfter(t, b, id);
      SameFinalFolder(t, a, b, id);
    }
    SameMap(after.items, other.items);
    SameMap(after.files, other.files);
    SameMap(after.folders, other.folders);
  }

  lemma SameMap<V>(m: map<Id, V>, n: map<Id, V>)
    requires forall id :: Lookup(m, id) == Lookup(n, id)
    ensures m == n
  {
    forall id ensures id in m <==> id in n
      ensures id in m && id in n ==> m[id] == n[id]
    {
      assert Lookup(m, id) == Lookup(n, id);
    }
  }

  lemma SameFinalItem(t: Tables, a: seq<Write>, b: seq<Write>, id: Id)
    requires Coherent(a) && forall w :: w in a <==> w in b
    ensures FinalItem(t, a, id) == FinalItem(t, b, id)
  {
    LastItemIsWritten(a, id);
    LastItemIsWritten(b, id);
    if id.Agent? && id in t.items {
      HasIsMembership(a, Remove(t.items[id].device, id.id));
      HasIsMembership(b, Remove(t.items[id].device, id.id));
    }
  }

  lemma SameFinalFile(t: Tables, a: seq<Write>, b: seq<Write>, id: Id)
    requires Coherent(a) && forall w :: w in a <==> w in b
    ensures FinalFile(t, a, id) == FinalFile(t, b, id)
  {
    LastFileIsWritten(a, id);
    LastFileIsWritten(b, id);
    if id.Agent? && id in t.files {
      HasIsMembership(a, Remove(t.files[id].device, id.id));
      HasIsMembership(b, Remove(t.files[id].device, id.id));
    }
  }

  lemma SameFinalFolder(t: Tables, a: seq<Write>, b: seq<Write>, id: Id)
    requires Coherent(a) && forall w :: w in a <==> w in b
    ensures FinalFolder(t, a, id) == FinalFolder(t, b, id)
  {
    LastFolderIsWritten(a, id);
    LastFolderIsWritten(b, id);
  }

  // ---- The writes of one device's changes -----------------------------------------------------------

  /** The change writes or removes the rows of an agent id. */
  predicate Identified(c: FileChange) {
    if c.deleted then c.id != "" else !c.isDir
  }

  /** Different changes speak of different agent ids. */
  ghost predicate DifferentFiles(changes: seq<FileChange>) {
    forall i, j :: 0 <= i < |changes| && 0 <= j < |changes| ==> Distinguished(changes[i], changes[j])
  }

  predicate Distinguished(c: FileChange, d: FileChange) {
    c == d || !Identified(c) || !Identified(d) || c.id != d.id
  }

  /** A directory change without path segments whose bare name reads as a path of two segments or
      more: its folder row then shares its key with that path, but not its name and parent. */
  predicate Disguised(c: FileChange) {
    var segments := Segments(c.currentName, '/');
    && !c.deleted && c.isDir && (c.currentPath == "" || Segments(c.currentPath, '/') == [])
    && |segments| >= 2 && Join(segments, '/') == c.currentName
  }

  predicate NoneDisguised(changes: seq<FileChange>) {
    forall i :: 0 <= i < |changes| ==> !Disguised(changes[i])
  }

  lemma ItemDependsOnPrefix(device: string, segments: seq<string>, i: nat)
    requires i < |segments|
    ensures FolderItem(device, segments, i) == FolderItem(device, segments[..i + 1], i)
  {
    var p := segments[..i + 1];
    assert p[..i + 1] == p;
    if i > 0 {
      assert p[..i - 1 + 1] == segments[..i - 1 + 1];
    }
  }

  /** The prefixes under which a change writes folder rows. */
  predicate FolderPrefix(c: FileChange, p: seq<string>) {
    && p != [] && p <= PathSegments(c)
    && !c.deleted && (c.isDir || |p| < |PathSegments(c)|)
  }

  lemma PrefixesAreClean(c: FileChange, p: seq<string>)
    requires FolderPrefix(c, p)
    ensures AllClean(p) || (p == [c.currentName] && c.isDir && (c.currentPath == "" || Segments(c.currentPath, '/') == []))
  {
    SegmentsAreClean(c.currentPath, '/');
  }

  lemma BareNameIsNoPath(c: FileChange, p: seq<string>)
    requires !c.deleted && c.isDir && (c.currentPath == "" || Segments(c.currentPath, '/') == []) && !Disguised(c)
    requires AllClean(p) && p != [] && Join(p, '/') == c.currentName
    ensures p == [c.currentName]
  {
    JoinedPathSplitsBack(p);
    assert |p| == 1;
  }

  lemma CleanPathsDiffer(p: seq<string>, q: seq<string>)
    requires AllClean(p) && AllClean(q) && Join(p, '/') == Join(q, '/')
    ensures p == q
  {
    JoinedPathSplitsBack(p);
    JoinedPathSplitsBack(q);
  }

  /** A folder key determines the path prefix it was made from. */
  lemma KeyDeterminesPrefix(device: string, c: FileChange, d: FileChange, p: seq<string>, q: seq<string>)
    requires FolderPrefix(c, p) && FolderPrefix(d, q) && !Disguised(c) && !Disguised(d)
    requires Key(device, p) == Key(device, q)
    ensures p == q
  {
    KeyCancels(device, p, q);
    PrefixesAreClean(c, p);
    PrefixesAreClean(d, q);
    if AllClean(p) && AllClean(q) {
      CleanPathsDiffer(p, q);
    } else if AllClean(p) {
      BareNameIsNoPath(d, p);
    } else if AllClean(q) {
      BareNameIsNoPath(c, q);
    }
  }

  /** The folder writes of a prefix. */
  predicate IsFolderWrite(device: string, p: seq<string>, w: Write)
    requires p != []
  {
    || w == PutFolder(Hash(Key(device, p)), FolderRow(device, false))
    || w == PutItem(Hash(Key(device, p)), FolderItem(device, p, |p| - 1))
  }

  lemma FolderWriteOf(device: string, segments: seq<string>, i: nat, w: Write)
    requires i < |segments|
    requires w == PutFolder(FolderId(device, segments, i), FolderRow(device, false))
          || w == PutItem(FolderId(device, segments, i), FolderItem(device, segments, i))
    ensures IsFolderWrite(device, segments[..i + 1], w)
  {
    ItemDependsOnPrefix(device, segments, i);
  }

  lemma {:induction false} FolderWritesAre(device: string, segments: seq<string>, i: nat, n: nat, w: Write) returns (k: nat)
    requires i <= n <= |segments| && w in FolderWrites(device, segments, i, n)
    ensures i <= k < n && IsFolderWrite(device, segments[..k + 1], w)
    decreases n - i
  {
    FolderPairFirst(device, segments, i, n);
    if w in FolderWrites(device, segments, i + 1, n) {
      k := FolderWritesAre(device, segments, i + 1, n, w);
    } else {
      FolderWriteOf(device, segments, i, w);
      k := i;
    }
  }

  /** The writes of a change that are about its agent id. */
  predicate IsFileWrite(device: string, c: FileChange, w: Write) {
    if c.deleted then c.id != "" && w == Remove(device, c.id) else
    !c.isDir && c.id != "" && (w == PutFile(Agent(c.id), ChangedFile(device, c)) || w == PutItem(Agent(c.id), ChangedItem(device, c)))
  }

  ghost predicate IsChangeWrite(device: string, c: FileChange, w: Write) {
    IsFileWrite(device, c, w) || exists p: seq<string> :: FolderPrefix(c, p) && IsFolderWrite(device, p, w)
  }

  lemma ChangeWritesAre(device: string, c: FileChange, w: Write)
    requires w in ChangeWrites(device, c)
    ensures IsChangeWrite(device, c, w)
  {
    var segments := PathSegments(c);
    if !c.deleted {
      var n := if c.isDir then |segments| else |segments| - 1;
      if w in FolderWrites(device, segments, 0, n) {
        var k := FolderWritesAre(device, segments, 0, n, w);
        assert FolderPrefix(c, segments[..k + 1]);
      }
    }
  }

  lemma FolderWritesAgree(device: string, c: FileChange, d: FileChange, p: seq<string>, q: seq<string>, v: Write, w: Write)
    requires FolderPrefix(c, p) && FolderPrefix(d, q) && !Disguised(c) && !Disguised(d)
    requires IsFolderWrite(device, p, v) && IsFolderWrite(device, q, w)
    ensures !Clash(v, w)
  {
    if Key(device, p) == Key(device, q) {
      KeyDeterminesPrefix(device, c, d, p, q);
    }
  }

  lemma ChangesDoNotClash(device: string, c: FileChange, d: FileChange, v: Write, w: Write)
    requires Distinguished(c, d) && !Disguised(c) && !Disguised(d)
    requires IsChangeWrite(device, c, v) && IsChangeWrite(device, d, w)
    ensures !Clash(v, w)
  {
    if !IsFileWrite(device, c, v) && !IsFileWrite(device, d, w) {
      var p: seq<string> :| FolderPrefix(c, p) && IsFolderWrite(device, p, v);
      var q: seq<string> :| FolderPrefix(d, q) && IsFolderWrite(device, q, w);
      FolderWritesAgree(device, c, d, p, q, v, w);
    }
  }

  // ---- Batches ------------------------------------------------------------------------------------------

  lemma BatchSplits(device: string, changes: seq<FileChange>, w: Write)
    requires w in BatchWrites(device, changes)
    ensures changes != [] && (w in ChangeWrites(device, changes[0]) || w in BatchWrites(device, changes[1..]))
  {
    assert BatchWrites(device, []) == [];
    var first := ChangeWrites(device, changes[0]);
    var rest := if Acceptable(changes[0]) then BatchWrites(device, changes[1..]) else [];
    assert w in first + rest;
  }

  lemma {:induction false} BatchWriteOf(device: string, changes: seq<FileChange>, w: Write) returns (c: FileChange)
    requires w in BatchWrites(device, changes)
    ensures c in changes && w in ChangeWrites(device, c)
    decreases |changes|
  {
    BatchSplits(device, changes, w);
    if w in ChangeWrites(device, changes[0]) {
      c := changes[0];
    } else {
      c := BatchWriteOf(device, changes[1..], w);
    }
  }

  lemma {:induction false} BatchHasWrite(device: string, changes: seq<FileChange>, i: nat, w: Write)
    requires AllAcceptable(changes) && i < |changes| && w in ChangeWrites(device, changes[i])
    ensures w in BatchWrites(device, changes)
    decreases |changes|
  {
    assert Acceptable(changes[0]);
    if i > 0 {
      BatchHasWrite(device, changes[1..], i - 1, w);
    }
  }

  lemma FileWriteIsWellMade(device: string, c: FileChange, w: Write)
    requires w in ChangeWrites(device, c)
    ensures WellMade(w)
  {
    ChangeWritesAre(device, c, w);
  }

  lemma MembersAreGuarded(changes: seq<FileChange>, c: FileChange, d: FileChange)
    requires DifferentFiles(changes) && NoneDisguised(changes) && c in changes && d in changes
    ensures Distinguished(c, d) && !Disguised(c) && !Disguised(d)
  {
    var i :| 0 <= i < |changes| && changes[i] == c;
    var j :| 0 <= j < |changes| && changes[j] == d;
    assert Distinguished(changes[i], changes[j]);
  }

  lemma BatchIsCoherent(device: string, changes: seq<FileChange>)
    requires DifferentFiles(changes) && NoneDisguised(changes)
    ensures Coherent(BatchWrites(device, changes)) && AllWellMade(BatchWrites(device, changes))
  {
    var ws := BatchWrites(device, changes);
    forall i, j | 0 <= i < |ws| && 0 <= j < |ws| ensures !Clash(ws[i], ws[j]) {
      BatchWritesDoNotClash(device, changes, ws[i], ws[j]);
    }
    forall i | 0 <= i < |ws| ensures WellMade(ws[i]) {
      var c := BatchWriteOf(device, changes, ws[i]);
      FileWriteIsWellMade(device, c, ws[i]);
    }
  }

  lemma BatchWritesDoNotClash(device: string, changes: seq<FileChange>, v: Write, w: Write)
    requires DifferentFiles(changes) && NoneDisguised(changes)
    requires v in BatchWrites(device, changes) && w in BatchWrites(device, changes)
    ensures !Clash(v, w)
  {
    var c := BatchWriteOf(device, changes, v);
    var d := BatchWriteOf(device, changes, w);
    MembersAreGuarded(changes, c, d);
    ChangeWritesAre(device, c, v);
    ChangeWritesAre(device, d, w);
    ChangesDoNotClash(device, c, d, v, w);
  }

  lemma SameChangesSameWrites(device: string, a: seq<FileChange>, b: seq<FileChange>, w: Write)
    requires AllAcceptable(b) && forall c :: c in a ==> c in b
    requires w in BatchWrites(device, a)
    ensures w in BatchWrites(device, b)
  {
    var c := BatchWriteOf(device, a, w);
    assert c in b;
    var j :| 0 <= j < |b| && b[j] == c;
    BatchHasWrite(device, b, j, w);
  }

  lemma SameChangesSameGuards(a: seq<FileChange>, b: seq<FileChange>)
    requires AllAcceptable(a) && DifferentFiles(a) && NoneDisguised(a) && forall c :: c in b ==> c in a
    ensures AllAcceptable(b) && DifferentFiles(b) && NoneDisguised(b)
  {
    forall i | 0 <= i < |b| ensures Acceptable(b[i]) && !Disguised(b[i]) {
      assert b[i] in a;
    }
    forall i, j | 0 <= i < |b| && 0 <= j < |b| ensures Distinguished(b[i], b[j]) {
      assert b[i] in a && b[j] in a;
    }
  }

  lemma ForestIsSelfLinked(t: Tables)
    requires Forest(t)
    ensures SelfLinked(t)
  {
  }

  /** Convergence: batches with the same changes, in any order and with any repetitions, leave the
      same rows and the same delete marks. */
  lemma BatchesConverge(t: Tables, device: string, a: seq<FileChange>, b: seq<FileChange>)
    requires Forest(t) && AllAcceptable(a) && DifferentFiles(a) && NoneDisguised(a)
    requires forall c :: c in a <==> c in b
    ensures ApplyWrites(t, BatchWrites(device, a)) == ApplyWrites(t, BatchWrites(device, b))
  {
    ForestIsSelfLinked(t);
    SameChangesSameGuards(a, b);
    BatchIsCoherent(device, a);
    BatchIsCoherent(device, b);
    forall w ensures w in BatchWrites(device, a) <==> w in BatchWrites(device, b) {
      if w in BatchWrites(device, a) { SameChangesSameWrites(device, a, b, w); }
      if w in BatchWrites(device, b) { SameChangesSameWrites(device, b, a, w); }
    }
    SameWritesSameTables(t, BatchWrites(device, a), BatchWrites(device, b));
  }

  lemma PermutedBatchesConverge(t: Tables, device: string, a: seq<FileChange>, b: seq<FileChange>)
    requires Forest(t) && AllAcceptable(a) && DifferentFiles(a) && NoneDisguised(a)
    requires multiset(a) == multiset(b)
    ensures ApplyWrites(t, BatchWrites(device, a)) == ApplyWrites(t, BatchWrites(device, b))
  {
    forall c ensures c in a <==> c in b {
      assert c in a <==> c in multiset(a);
      assert c in b <==> c in multiset(b);
    }
    BatchesConverge(t, device, a, b);
  }

  /** Resending: after a batch broke off at any row write, or completed, sending it again leaves
      exactly what one complete application leaves. */
  lemma ResendingConverges(t: Tables, device: string, changes: seq<FileChange>, n: nat)
    requires Forest(t) && AllAcceptable(changes) && DifferentFiles(changes) && NoneDisguised(changes)
    requires n <= |BatchWrites(device, changes)|
    ensures var ws := BatchWrites(device, changes);
            ApplyWrites(ApplyWrites(t, ws[..n]), ws) == ApplyWrites(t, ws)
  {
    var ws := BatchWrites(device, changes);
    ForestIsSelfLinked(t);
    BatchIsCoherent(device, changes);
    ApplyWritesConcat(t, ws[..n], ws);
    PrefixAgain(ws, n);
    SameWritesSameTables(t, ws[..n] + ws, ws);
  }

  lemma PrefixAgain(ws: seq<Write>, n: nat)
    requires Coherent(ws) && AllWellMade(ws) && n <= |ws|
    ensures Coherent(ws[..n] + ws) && AllWellMade(ws[..n] + ws)
    ensures forall w :: w in ws[..n] + ws <==> w in ws
  {
    var both := ws[..n] + ws;
    assert forall i :: 0 <= i < |both| ==> both[i] == if i < n then ws[i] else ws[i - n];
  }

  // ---- Paths after a batch ---------------------------------------------------------------------------

  predicate PlainWrite(w: Write) {
    w.PutItem? ==> Free(w.item.device, '|')
  }

  lemma {:induction false} WritesKeepPlain(t: Tables, ws: seq<Write>)
    requires PlainDevices(t) && forall w :: w in ws ==> PlainWrite(w)
    ensures PlainDevices(ApplyWrites(t, ws))
  {
    if ws != [] {
      WritesKeepPlain(t, ws[..|ws| - 1]);
      OneWriteKeepsPlain(ApplyWrites(t, ws[..|ws| - 1]), ws[|ws| - 1]);
    }
  }

  lemma OneWriteKeepsPlain(t: Tables, w: Write)
    requires PlainDevices(t) && PlainWrite(w)
    ensures PlainDevices(ApplyWrite(t, w))
  {
  }

  lemma BatchWritesArePlain(device: string, changes: seq<FileChange>, w: Write)
    requires Free(device, '|') && w in BatchWrites(device, changes)
    ensures PlainWrite(w)
  {
    var c := BatchWriteOf(device, changes, w);
    ChangeWritesAre(device, c, w);
  }

  lemma BatchKeepsPlain(t: Tables, device: string, changes: seq<FileChange>, n: nat)
    requires PlainDevices(t) && Free(device, '|') && n <= |BatchWrites(device, changes)|
    ensures PlainDevices(ApplyWrites(t, BatchWrites(device, changes)[..n]))
  {
    forall w | w in BatchWrites(device, changes)[..n] ensures PlainWrite(w) {
      BatchWritesArePlain(device, changes, w);
    }
    WritesKeepPlain(t, BatchWrites(device, changes)[..n]);
  }

  /** Batches of devices without '|' in their ids keep all devices so, wherever they break off. */
  lemma {:induction false} BatchesKeepPlain(t: Tables, bs: seq<Batch>)
    requires PlainDevices(t) && forall i :: 0 <= i < |bs| ==> Free(bs[i].device, '|')
    ensures PlainDevices(AfterBatches(t, bs))
    decreases |bs|
  {
    if bs != [] {
      var b, ws := bs[0], BatchWrites(bs[0].device, bs[0].changes);
      assert ws[..|ws|] == ws;
      BatchKeepsPlain(t, b.device, b.changes, if b.completed <= |ws| then b.completed else |ws|);
      BatchesKeepPlain(AfterBatch(t, b), bs[1..]);
    }
  }

  lemma {:induction false} FileChangeWritesItem(device: string, changes: seq<FileChange>, c: FileChange)
    requires AllAcceptable(changes) && c in changes && !c.deleted && !c.isDir
    ensures PutItem(Agent(c.id), ChangedItem(device, c)) in BatchWrites(device, changes)
  {
    var i :| 0 <= i < |changes| && changes[i] == c;
    assert Acceptable(changes[i]);
    BatchHasWrite(device, changes, i, PutItem(Agent(c.id), ChangedItem(device, c)));
  }

  /** The row of a file change stands as written at the end of its batch. */
  lemma ChangeStands(t: Tables, device: string, changes: seq<FileChange>, c: FileChange)
    requires AllAcceptable(changes) && DifferentFiles(changes) && NoneDisguised(changes)
    requires c in changes && !c.deleted && !c.isDir
    ensures var after := ApplyWrites(t, BatchWrites(device, changes));
            Agent(c.id) in after.items && after.items[Agent(c.id)].(deleted := false) == ChangedItem(device, c)
  {
    var ws, id := BatchWrites(device, changes), Agent(c.id);
    BatchIsCoherent(device, changes);
    FileChangeWritesItem(device, changes, c);
    LastItemIsWritten(ws, id);
    CoherentItemIsUnique(ws, id, ChangedItem(device, c), LastItem(ws, id).value);
    ItemAfter(t, ws, id);
  }

  lemma CoherentItemIsUnique(ws: seq<Write>, id: Id, a: ItemRow, b: ItemRow)
    requires Coherent(ws) && PutItem(id, a) in ws && PutItem(id, b) in ws
    ensures a == b
  {
    var i :| 0 <= i < |ws| && ws[i] == PutItem(id, a);
    var j :| 0 <= j < |ws| && ws[j] == PutItem(id, b);
    assert !Clash(ws[i], ws[j]);
  }

  /** After a batch of well-formed changes on any reachable tables, the parent walk from each file of the
      batch returns the change's normalised path if and only if its name is its last path segment. */
  lemma BatchPathsAreRebuiltExactly(t: Tables, device: string, changes: seq<FileChange>, c: FileChange)
    requires Forest(t) && PlainDevices(t) && Free(device, '|')
    requires AllAcceptable(changes) && DifferentFiles(changes) && NoneDisguised(changes)
    requires c in changes && !c.deleted && !c.isDir
    ensures var after, segments := ApplyWrites(t, BatchWrites(device, changes)), PathSegments(c);
            && Forest(after) && Agent(c.id) in after.items && ParentIsFolder(after.items[Agent(c.id)])
            && (Join(NamesFromTop(after, device, after.items[Agent(c.id)]), '/') == Join(segments, '/')
                <==> c.currentName == segments[|segments| - 1])
  {
    var ws := BatchWrites(device, changes);
    assert ws[..|ws|] == ws;
    EveryRowWriteKeepsForest(t, device, changes, |ws|);
    BatchKeepsPlain(t, device, changes, |ws|);
    ChangeStands(t, device, changes, c);
    WalkRebuildsPathExactly(ApplyWrites(t, ws), device, c);
  }

  // ---- The changes whose order matters -------------------------------------------------------------------

  ghost predicate OrderIsIrrelevant(t: Tables, device: string, c: FileChange, d: FileChange) {
    ApplyWrites(t, BatchWrites(device, [c, d])) == ApplyWrites(t, BatchWrites(device, [d, c]))
  }

  lemma EmptyIsForest()
    ensures Forest(Tables(map[], map[], map[]))
  {
  }

  lemma {:induction false} LastFolderWrite(device: string, segments: seq<string>, i: nat, n: nat)
    requires i < n <= |segments|
    ensures var ws := FolderWrites(device, segments, i, n);
            ws != [] && ws[|ws| - 1] == PutItem(FolderId(device, segments, n - 1), FolderItem(device, segments, n - 1))
    decreases n - i
  {
    if i + 1 < n {
      LastFolderWrite(device, segments, i + 1, n);
    }
  }

  function NameAt(t: Tables, id: Id): Option<string> {
    if id in t.items then Some(t.items[id].name) else None
  }

  /** After a batch of two directory changes, the item under the second one's key is the second one's. */
  lemma SecondDirectoryWins(t: Tables, device: string, c: FileChange, d: FileChange)
    requires c.isDir && !c.deleted && d.isDir && !d.deleted
    ensures NameAt(ApplyWrites(t, BatchWrites(device, [c, d])), FolderId(device, PathSegments(d), |PathSegments(d)| - 1))
            == Some(PathSegments(d)[|PathSegments(d)| - 1])
  {
    var s := PathSegments(d);
    assert [c, d][1..] == [d] && [d][1..] == [];
    assert BatchWrites(device, []) == [];
    assert BatchWrites(device, [d]) == ChangeWrites(device, d) + [];
    LastFolderWrite(device, s, 0, |s|);
    var ws := BatchWrites(device, [c, d]);
    assert ws[|ws| - 1] == PutItem(FolderId(device, s, |s| - 1), FolderItem(device, s, |s| - 1));
  }

  lemma JoinIsLonger(front: seq<string>, last: string)
    requires front != []
    ensures Join(front + [last], '/') != last
  {
    JoinAppend(front, last, '/');
    assert |Join(front, '/') + ['/'] + last| > |last|;
  }

  /** The plain directory change for the path that a disguised name reads as. */
  function Undisguised(c: FileChange): FileChange {
    c.(currentPath := c.currentName)
  }

  lemma UndisguisedIsPlain(c: FileChange)
    requires Disguised(c)
    ensures var d := Undisguised(c);
            && Acceptable(d) && !Disguised(d) && DifferentFiles([c, d])
            && PathSegments(c) == [c.currentName] && PathSegments(d) == Segments(c.currentName, '/')
  {
    assert Join([], '/') == "";
  }

  lemma WholePathId(device: string, p: seq<string>)
    requires p != []
    ensures FolderId(device, p, |p| - 1) == Hash(Key(device, p))
  {
    assert p[..|p| - 1 + 1] == p;
  }

  lemma SharedKeyOtherName(device: string, name: string, p: seq<string>)
    requires |p| >= 2 && Join(p, '/') == name
    ensures FolderId(device, p, |p| - 1) == FolderId(device, [name], 0) && p[|p| - 1] != name
  {
    WholePathId(device, p);
    WholePathId(device, [name]);
    LastIsShorter(p);
  }

  lemma LastIsShorter(p: seq<string>)
    requires |p| >= 2
    ensures p[|p| - 1] != Join(p, '/')
  {
    var front, last := p[..|p| - 1], p[|p| - 1];
    JoinIsLonger(front, last);
    assert p == front + [last];
  }

  lemma DisguiseShowsTheOrder(t: Tables, device: string, c: FileChange)
    requires Disguised(c)
    ensures !OrderIsIrrelevant(t, device, c, Undisguised(c))
  {
    UndisguisedIsPlain(c);
    SecondDirectoryWins(t, device, c, Undisguised(c));
    SecondDirectoryWins(t, device, Undisguised(c), c);
    SharedKeyOtherName(device, c.currentName, Segments(c.currentName, '/'));
  }

  lemma PairGuards(c: FileChange, d: FileChange)
    requires Acceptable(c) && Acceptable(d) && !Disguised(c) && !Disguised(d)
    ensures AllAcceptable([c, d]) && NoneDisguised([c, d]) && multiset([c, d]) == multiset([d, c])
  {
  }

  /** Exactly when order can matter: a change can be swapped with every other well-formed change of
      another file, on every forest, if and only if it is not a disguised directory. */
  lemma OrderIsIrrelevantExactly(device: string, c: FileChange)
    requires Acceptable(c)
    ensures !Disguised(c) <==>
            forall t, d :: Forest(t) && Acceptable(d) && !Disguised(d) && DifferentFiles([c, d]) ==> OrderIsIrrelevant(t, device, c, d)
  {
    if Disguised(c) {
      EmptyIsForest();
      UndisguisedIsPlain(c);
      DisguiseShowsTheOrder(Tables(map[], map[], map[]), device, c);
    } else {
      forall t, d | Forest(t) && Acceptable(d) && !Disguised(d) && DifferentFiles([c, d]) ensures OrderIsIrrelevant(t, device, c, d) {
        PairGuards(c, d);
        PermutedBatchesConverge(t, device, [c, d], [d, c]);
      }
    }
  }
}
