/** What a batch of changes leaves in every row, told from the changes alone. */
module FileTreeOutcome {
  import opened Basics
  import opened Strings
  import opened LogicalPaths
  import opened FileTreeModel
  import opened FileTreeForest
  import opened FileTreeConvergence

  /** Changes that can be applied in any order. */
  ghost predicate Orderly(changes: seq<FileChange>) {
    && (forall i :: 0 <= i < |changes| ==> changes[i].deleted || changes[i].isDir || changes[i].id != "")
    && DifferentFiles(changes) && NoneDisguised(changes)
  }

  function After(t: Tables, device: string, changes: seq<FileChange>): Tables {
    ApplyWrites(t, BatchWrites(device, changes))
  }

  // ---- Deletions ---------------------------------------------------------------------------------------

  /** The batch reports the deletion of this id. */
  ghost predicate ReportsDeletion(changes: seq<FileChange>, agentId: string) {
    agentId != "" && exists c :: c in changes && c.deleted && c.id == agentId
  }

  /** The batch reports a file under this id. */
  ghost predicate ReportsFile(changes: seq<FileChange>, agentId: string) {
    exists c :: c in changes && !c.deleted && !c.isDir && c.id == agentId
  }

  lemma RemovalIsReported(device: string, changes: seq<FileChange>, agentId: string)
    requires Orderly(changes)
    ensures Remove(device, agentId) in BatchWrites(device, changes) <==> ReportsDeletion(changes, agentId)
  {
    var w := Remove(device, agentId);
    if w in BatchWrites(device, changes) {
      var c := BatchWriteOf(device, changes, w);
      ChangeWritesAre(device, c, w);
    }
    if ReportsDeletion(changes, agentId) {
      var c :| c in changes && c.deleted && c.id == agentId;
      var i :| 0 <= i < |changes| && changes[i] == c;
      BatchHasWrite(device, changes, i, w);
    }
  }

  lemma RemovesOwnDeviceOnly(device: string, changes: seq<FileChange>, other: string, agentId: string)
    requires Remove(other, agentId) in BatchWrites(device, changes)
    ensures other == device
  {
    var c := BatchWriteOf(device, changes, Remove(other, agentId));
    ChangeWritesAre(device, c, Remove(other, agentId));
  }

  lemma PutIsReported(device: string, changes: seq<FileChange>, agentId: string, w: Write)
    requires w in BatchWrites(device, changes) && (w.PutItem? || w.PutFile?) && w.id == Agent(agentId)
    ensures ReportsFile(changes, agentId)
  {
    var c := BatchWriteOf(device, changes, w);
    ChangeWritesAre(device, c, w);
  }

  lemma NotReportedNotWritten(device: string, changes: seq<FileChange>, agentId: string)
    requires !ReportsFile(changes, agentId)
    ensures var ws, id := BatchWrites(device, changes), Agent(agentId); LastItem(ws, id).None? && LastFile(ws, id).None?
  {
    var ws, id := BatchWrites(device, changes), Agent(agentId);
    LastItemIsWritten(ws, id);
    LastFileIsWritten(ws, id);
    if LastItem(ws, id).Some? {
      PutIsReported(device, changes, agentId, PutItem(id, LastItem(ws, id).value));
    }
    if LastFile(ws, id).Some? {
      PutIsReported(device, changes, agentId, PutFile(id, LastFile(ws, id).value));
    }
  }

  lemma NotBothReported(changes: seq<FileChange>, agentId: string)
    requires Orderly(changes) && ReportsDeletion(changes, agentId)
    ensures !ReportsFile(changes, agentId)
  {
    var c :| c in changes && c.deleted && c.id == agentId;
    forall d | d in changes ensures !(!d.deleted && !d.isDir && d.id == agentId) {
      MembersAreGuarded(changes, c, d);
    }
  }

  /** Deletions, exactly: after a batch an item row of an agent id is marked as deleted if and only if it was
      before, or belonged to the device and the batch reports its deletion. A new row is not marked. */
  lemma DeletionStands(t: Tables, device: string, changes: seq<FileChange>, agentId: string)
    requires Orderly(changes)
    ensures var after, id := After(t, device, changes), Agent(agentId);
            if id in t.items then
              id in after.items && (after.items[id].deleted <==>
                t.items[id].deleted || (t.items[id].device == device && ReportsDeletion(changes, agentId)))
            else id in after.items ==> !after.items[id].deleted
  {
    var ws, id := BatchWrites(device, changes), Agent(agentId);
    BatchIsCoherent(device, changes);
    ItemAfter(t, ws, id);
    RemovalIsReported(device, changes, agentId);
    if id in t.items {
      var owner := t.items[id].device;
      HasIsMembership(ws, Remove(owner, agentId));
      if Has(ws, Remove(owner, agentId)) {
        RemovesOwnDeviceOnly(device, changes, owner, agentId);
      }
      if ReportsDeletion(changes, agentId) {
        NotBothReported(changes, agentId);
        NotReportedNotWritten(device, changes, agentId);
      }
    }
  }

  /** So is its file row, provided the item row was live and of the same device. */
  lemma FileDeletionStands(t: Tables, device: string, changes: seq<FileChange>, agentId: string)
    requires Forest(t) && Orderly(changes)
    ensures var after, id := After(t, device, changes), Agent(agentId);
            if id in t.files then
              id in after.files && (after.files[id].deleted <==>
                t.files[id].deleted || (id in t.items && !t.items[id].deleted && t.items[id].device == t.files[id].device == device
                                        && ReportsDeletion(changes, agentId)))
            else id in after.files ==> !after.files[id].deleted
  {
    var ws, id := BatchWrites(device, changes), Agent(agentId);
    ForestIsSelfLinked(t);
    BatchIsCoherent(device, changes);
    FileAfter(t, ws, id);
    RemovalIsReported(device, changes, agentId);
    if id in t.files {
      var owner := t.files[id].device;
      HasIsMembership(ws, Remove(owner, agentId));
      if Has(ws, Remove(owner, agentId)) {
        RemovesOwnDeviceOnly(device, changes, owner, agentId);
      }
      if ReportsDeletion(changes, agentId) {
        NotBothReported(changes, agentId);
        NotReportedNotWritten(device, changes, agentId);
      }
    }
  }

  // ---- Rows that changes write ----------------------------------------------------------------------------

  /** The row of a file of that change, delete mark aside. */
  predicate ShowsFile(row: FileRow, device: string, c: FileChange) {
    && row.device == device && row.currentPath == c.currentPath && row.currentName == c.currentName
    && row.extension == c.extension && row.size == c.size && row.snapshot == c.snapshot
    && row.changePending == c.changePending
    && row.originPath == if Trim(c.originPath) != "" then c.originPath else if Trim(c.currentPath) != "" then c.currentPath else ""
  }

  /** The parts of a change's path: those of its current path, or its bare name if that has none. */
  predicate IsPathOf(segments: seq<string>, c: FileChange) {
    if c.currentPath != "" && Segments(c.currentPath, '/') != [] then segments == Segments(c.currentPath, '/')
    else segments == [c.currentName]
  }

  /** The row of the item that stands for it: named as the change says, below the folder of its path. */
  predicate ShowsItem(row: ItemRow, device: string, c: FileChange, segments: seq<string>)
    requires segments != []
  {
    && row.device == device && row.name == c.currentName && row.size == c.size
    && row.file == Some(Agent(c.id)) && row.folder == None
    && row.parent == if |segments| == 1 then None else Some(Hash(device + "|" + Join(segments[..|segments| - 1], '/')))
  }

  lemma FileChangeWritesFile(device: string, changes: seq<FileChange>, c: FileChange)
    requires AllAcceptable(changes) && c in changes && !c.deleted && !c.isDir
    ensures PutFile(Agent(c.id), ChangedFile(device, c)) in BatchWrites(device, changes)
  {
    var i :| 0 <= i < |changes| && changes[i] == c;
    assert Acceptable(changes[i]);
    BatchHasWrite(device, changes, i, PutFile(Agent(c.id), ChangedFile(device, c)));
  }

  lemma CoherentFileIsUnique(ws: seq<Write>, id: Id, a: FileRow, b: FileRow)
    requires Coherent(ws) && PutFile(id, a) in ws && PutFile(id, b) in ws
    ensures a == b
  {
    var i :| 0 <= i < |ws| && ws[i] == PutFile(id, a);
    var j :| 0 <= j < |ws| && ws[j] == PutFile(id, b);
    assert !Clash(ws[i], ws[j]);
  }

  /** At the end of its batch, the rows of a file change say what the change said. */
  lemma FileStands(t: Tables, device: string, changes: seq<FileChange>, c: FileChange, segments: seq<string>)
    requires Forest(t) && Orderly(changes) && c in changes && !c.deleted && !c.isDir && IsPathOf(segments, c)
    ensures var after, id := After(t, device, changes), Agent(c.id);
            && id in after.files && ShowsFile(after.files[id], device, c)
            && id in after.items && segments != [] && ShowsItem(after.items[id], device, c, segments)
  {
    var ws, id := BatchWrites(device, changes), Agent(c.id);
    ForestIsSelfLinked(t);
    BatchIsCoherent(device, changes);
    FileChangeWritesFile(device, changes, c);
    LastFileIsWritten(ws, id);
    CoherentFileIsUnique(ws, id, ChangedFile(device, c), LastFile(ws, id).value);
    FileAfter(t, ws, id);
    ChangeStands(t, device, changes, c);
    ItemOfChange(device, c, segments);
  }

  lemma ItemOfChange(device: string, c: FileChange, segments: seq<string>)
    requires IsPathOf(segments, c)
    ensures segments != [] && ShowsItem(ChangedItem(device, c), device, c, segments)
  {
    assert segments == PathSegments(c);
    if |segments| > 1 {
      assert segments[..|segments| - 2 + 1] == segments[..|segments| - 1];
    }
  }

  /** The item of a folder prefix, delete mark aside: named as its last part, below the folder before it. */
  predicate ShowsFolder(row: ItemRow, device: string, prefix: seq<string>)
    requires prefix != []
  {
    var id := Hash(device + "|" + Join(prefix, '/'));
    && row.device == device && row.name == prefix[|prefix| - 1] && row.folder == Some(id) && row.file == None && row.size == 0
    && row.parent == if |prefix| == 1 then None else Some(Hash(device + "|" + Join(prefix[..|prefix| - 1], '/')))
  }

  lemma {:induction false} FolderWritesHave(device: string, segments: seq<string>, i: nat, n: nat, k: nat)
    requires i <= k < n <= |segments|
    ensures var ws, id := FolderWrites(device, segments, i, n), FolderId(device, segments, k);
            PutFolder(id, FolderRow(device, false)) in ws && PutItem(id, FolderItem(device, segments, k)) in ws
    decreases n - i
  {
    FolderPairFirst(device, segments, i, n);
    if i < k {
      FolderWritesHave(device, segments, i + 1, n, k);
    }
  }

  lemma ChangeWritesFolder(device: string, c: FileChange, n: nat)
    requires !c.deleted && 0 < n <= |PathSegments(c)| && (c.isDir || n < |PathSegments(c)|)
    ensures var ws, id := ChangeWrites(device, c), FolderId(device, PathSegments(c), n - 1);
            PutFolder(id, FolderRow(device, false)) in ws && PutItem(id, FolderItem(device, PathSegments(c), n - 1)) in ws
  {
    var segments := PathSegments(c);
    var m := if c.isDir then |segments| else |segments| - 1;
    FolderWritesHave(device, segments, 0, m, n - 1);
    assert FolderWrites(device, segments, 0, m) <= ChangeWrites(device, c);
  }

  lemma ItemOfPrefix(device: string, segments: seq<string>, n: nat)
    requires 0 < n <= |segments|
    ensures FolderId(device, segments, n - 1) == Hash(device + "|" + Join(segments[..n], '/'))
    ensures ShowsFolder(FolderItem(device, segments, n - 1), device, segments[..n])
  {
    if n > 1 {
      assert segments[..n][..n - 1] == segments[..n - 2 + 1];
    }
  }

  lemma WrittenFolderStands(t: Tables, ws: seq<Write>, id: Id, row: ItemRow)
    requires SelfLinked(t) && Coherent(ws) && AllWellMade(ws) && id.Hash?
    requires PutItem(id, row) in ws && exists folder :: PutFolder(id, folder) in ws
    ensures var after := ApplyWrites(t, ws);
            id in after.items && after.items[id].(deleted := row.deleted) == row && id in after.folders
  {
    LastItemIsWritten(ws, id);
    CoherentItemIsUnique(ws, id, row, LastItem(ws, id).value);
    ItemAfter(t, ws, id);
    LastFolderIsWritten(ws, id);
    FolderAfter(t, ws, id);
  }

  /** At the end of a batch every folder on the path of its changes has its rows, whichever change wrote them. */
  lemma FolderStands(t: Tables, device: string, changes: seq<FileChange>, c: FileChange, segments: seq<string>, n: nat)
    requires Forest(t) && Orderly(changes) && c in changes && !c.deleted && IsPathOf(segments, c)
    requires 0 < n <= |segments| && (c.isDir || n < |segments|)
    ensures var after, id := After(t, device, changes), Hash(device + "|" + Join(segments[..n], '/'));
            id in after.folders && id in after.items && ShowsFolder(after.items[id], device, segments[..n])
  {
    assert segments == PathSegments(c);
    var id, row := FolderId(device, segments, n - 1), FolderItem(device, segments, n - 1);
    ChangeWritesFolder(device, c, n);
    var i :| 0 <= i < |changes| && changes[i] == c;
    BatchHasWrite(device, changes, i, PutItem(id, row));
    BatchHasWrite(device, changes, i, PutFolder(id, FolderRow(device, false)));
    ForestIsSelfLinked(t);
    BatchIsCoherent(device, changes);
    WrittenFolderStands(t, BatchWrites(device, changes), id, row);
    ItemOfPrefix(device, segments, n);
  }

  // ---- Rows that no change names -----------------------------------------------------------------------------

  /** Rows of ids that the batch does not report keep all columns but, perhaps, the delete mark. */
  lemma OtherRowsStand(t: Tables, device: string, changes: seq<FileChange>, agentId: string)
    requires Forest(t) && Orderly(changes) && !ReportsFile(changes, agentId)
    ensures var after, id := After(t, device, changes), Agent(agentId);
            && (id in t.items <==> id in after.items)
            && (id in t.items ==> after.items[id].(deleted := false) == t.items[id].(deleted := false))
            && (id in t.files <==> id in after.files)
            && (id in t.files ==> after.files[id].(deleted := false) == t.files[id].(deleted := false))
  {
    var ws, id := BatchWrites(device, changes), Agent(agentId);
    ForestIsSelfLinked(t);
    BatchIsCoherent(device, changes);
    NotReportedNotWritten(device, changes, agentId);
    ItemAfter(t, ws, id);
    FileAfter(t, ws, id);
  }

  // ---- Batches that stop ----------------------------------------------------------------------------------------

  /** A file change without an id stops its batch: nothing that comes after it has any effect. */
  lemma {:induction false} BadChangeStopsBatch(device: string, front: seq<FileChange>, bad: FileChange, rest: seq<FileChange>)
    requires !bad.deleted && !bad.isDir && bad.id == ""
    ensures BatchWrites(device, front + [bad] + rest) == BatchWrites(device, front + [bad])
    decreases |front|
  {
    if front == [] {
      assert (front + [bad] + rest)[0] == bad && (front + [bad])[0] == bad;
    } else {
      assert (front + [bad] + rest)[1..] == front[1..] + [bad] + rest && (front + [bad])[1..] == front[1..] + [bad];
      assert (front + [bad] + rest)[0] == front[0] == (front + [bad])[0];
      BadChangeStopsBatch(device, front[1..], bad, rest);
    }
  }
}
