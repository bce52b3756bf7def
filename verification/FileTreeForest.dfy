/** The items form a forest whose folder ids spell out their paths. */
module FileTreeForest {
  import opened Basics
  import opened Strings
  import opened LogicalPaths
  import opened FileTreeModel

  /** `prefix` stands at the front of `s`. */
  predicate Begins(prefix: string, s: string) {
    prefix <= s
  }

  /** A folder row: its key is the parent's key and its own name, or the device and its name. */
  predicate FolderShape(id: Id, row: ItemRow) {
    && id.Hash? && row.folder == Some(id) && row.file == None
    && Begins(row.device + "|", id.key)
    && match row.parent
       case None => id.key == row.device + "|" + row.name
       case Some(p) => p.Hash? && Begins(row.device + "|", p.key) && id.key == p.key + "/" + row.name
  }

  /** A file row: at the top, or below a folder whose key begins with the row's device. */
  predicate FileShape(id: Id, row: ItemRow) {
    && id.Agent? && row.file == Some(id) && row.folder == None
    && (row.parent.Some? ==> row.parent.value.Hash? && Begins(row.device + "|", row.parent.value.key))
  }

  predicate Shape(id: Id, row: ItemRow) {
    if id.Hash? then FolderShape(id, row) else FileShape(id, row)
  }

  /** The row's parent, its file row and its folder row exist. */
  predicate Linked(t: Tables, row: ItemRow) {
    && (row.parent.Some? ==> row.parent.value in t.items)
    && (row.file.Some? ==> row.file.value in t.files)
    && (row.folder.Some? ==> row.folder.value in t.folders)
  }

  ghost predicate Forest(t: Tables) {
    forall id :: id in t.items ==> Shape(id, t.items[id]) && Linked(t, t.items[id])
  }

  // ---- Every single row write keeps the forest -------------------------------------------------

  predicate Grounded(t: Tables, w: Write) {
    w.PutItem? ==> Shape(w.id, w.item) && Linked(t, w.item)
  }

  predicate GroundedRun(t: Tables, ws: seq<Write>)
    decreases |ws|
  {
    ws == [] || (Grounded(t, ws[0]) && GroundedRun(ApplyWrite(t, ws[0]), ws[1..]))
  }

  lemma WriteKeepsForest(t: Tables, w: Write)
    requires Forest(t) && Grounded(t, w)
    ensures Forest(ApplyWrite(t, w))
  {
  }

  lemma {:induction false} GroundedRunKeepsForest(t: Tables, ws: seq<Write>, n: nat)
    requires Forest(t) && GroundedRun(t, ws) && n <= |ws|
    ensures Forest(ApplyWrites(t, ws[..n]))
    decreases |ws|
  {
    if n > 0 {
      WriteKeepsForest(t, ws[0]);
      GroundedRunKeepsForest(ApplyWrite(t, ws[0]), ws[1..], n - 1);
      assert ws[..n] == [ws[0]] + ws[1..][..n - 1];
      ApplyWritesConcat(t, [ws[0]], ws[1..][..n - 1]);
      ApplyOne(t, ws[0]);
    } else {
      assert ws[..0] == [];
    }
  }

  lemma {:induction false} GroundedConcat(t: Tables, a: seq<Write>, b: seq<Write>)
    requires GroundedRun(t, a) && GroundedRun(ApplyWrites(t, a), b)
    ensures GroundedRun(t, a + b)
    decreases |a|
  {
    if a == [] {
      assert a + b == b;
    } else {
      FirstApplies(t, a);
      GroundedConcat(ApplyWrite(t, a[0]), a[1..], b);
      FirstIsGrounded(t, a[0], a[1..] + b);
      assert [a[0]] + (a[1..] + b) == a + b;
    }
  }

  lemma FirstApplies(t: Tables, ws: seq<Write>)
    requires ws != []
    ensures ApplyWrites(t, ws) == ApplyWrites(ApplyWrite(t, ws[0]), ws[1..])
  {
    assert ws == [ws[0]] + ws[1..];
    ApplyWritesConcat(t, [ws[0]], ws[1..]);
    ApplyOne(t, ws[0]);
  }

  lemma FirstIsGrounded(t: Tables, w: Write, ws: seq<Write>)
    requires Grounded(t, w) && GroundedRun(ApplyWrite(t, w), ws)
    ensures GroundedRun(t, [w] + ws)
  {
    assert ([w] + ws)[1..] == ws;
  }

  lemma KeyBegins(device: string, segments: seq<string>)
    ensures Begins(device + "|", Key(device, segments))
  {
  }

  lemma FolderItemHasShape(device: string, segments: seq<string>, i: nat)
    requires i < |segments|
    ensures FolderShape(FolderId(device, segments, i), FolderItem(device, segments, i))
  {
    KeyBegins(device, segments[..i + 1]);
    if i == 0 {
      assert segments[..1] == [segments[0]];
    } else {
      KeyBegins(device, segments[..i]);
      assert segments[..i - 1 + 1] == segments[..i];
      KeyStep(device, segments, i);
    }
  }

  lemma OneFolderIsGrounded(t: Tables, device: string, segments: seq<string>, i: nat)
    requires i < |segments| && (i > 0 ==> FolderId(device, segments, i - 1) in t.items)
    ensures var id := FolderId(device, segments, i);
            var folder, item := PutFolder(id, FolderRow(device, false)), PutItem(id, FolderItem(device, segments, i));
            && Grounded(t, folder) && Grounded(ApplyWrite(t, folder), item)
            && id in ApplyWrite(ApplyWrite(t, folder), item).items
  {
    FolderItemHasShape(device, segments, i);
  }

  lemma {:induction false} FolderWritesAreGrounded(t: Tables, device: string, segments: seq<string>, i: nat, n: nat)
    requires i <= n <= |segments|
    requires i > 0 ==> FolderId(device, segments, i - 1) in t.items
    ensures var ws := FolderWrites(device, segments, i, n);
            && GroundedRun(t, ws)
            && (n > 0 ==> FolderId(device, segments, n - 1) in ApplyWrites(t, ws).items)
    decreases n - i
  {
    if i < n {
      var id := FolderId(device, segments, i);
      var folder, item := PutFolder(id, FolderRow(device, false)), PutItem(id, FolderItem(device, segments, i));
      var rest := FolderWrites(device, segments, i + 1, n);
      OneFolderIsGrounded(t, device, segments, i);
      FolderWritesAreGrounded(ApplyWrite(ApplyWrite(t, folder), item), device, segments, i + 1, n);
      TwoThenRest(t, folder, item, rest);
      FolderPairFirst(device, segments, i, n);
    }
  }

  lemma FolderPairFirst(device: string, segments: seq<string>, i: nat, n: nat)
    requires i < n <= |segments|
    ensures var id := FolderId(device, segments, i);
            FolderWrites(device, segments, i, n) ==
            [PutFolder(id, FolderRow(device, false))]
            + ([PutItem(id, FolderItem(device, segments, i))] + FolderWrites(device, segments, i + 1, n))
  {
  }

  lemma TwoThenRest(t: Tables, a: Write, b: Write, rest: seq<Write>)
    requires Grounded(t, a) && Grounded(ApplyWrite(t, a), b)
    requires GroundedRun(ApplyWrite(ApplyWrite(t, a), b), rest)
    ensures GroundedRun(t, [a] + ([b] + rest))
    ensures ApplyWrites(t, [a] + ([b] + rest)) == ApplyWrites(ApplyWrite(ApplyWrite(t, a), b), rest)
  {
    assert ([a] + ([b] + rest))[1..] == [b] + rest;
    assert ([b] + rest)[1..] == rest;
    ApplyWritesConcat(t, [a], [b] + rest);
    ApplyOne(t, a);
    ApplyWritesConcat(ApplyWrite(t, a), [b], rest);
    ApplyOne(ApplyWrite(t, a), b);
  }

  lemma UpsertWritesAreGrounded(t: Tables, device: string, c: FileChange)
    ensures GroundedRun(t, UpsertWrites(device, c))
  {
    var segments := PathSegments(c);
    if c.isDir {
      FolderWritesAreGrounded(t, device, segments, 0, |segments|);
    } else {
      var n := |segments| - 1;
      var folders := FolderWrites(device, segments, 0, n);
      FolderWritesAreGrounded(t, device, segments, 0, n);
      if c.id == "" {
        assert folders + [] == folders;
      } else {
        FileWritesAreGrounded(ApplyWrites(t, folders), device, c);
        GroundedConcat(t, folders, [PutFile(Agent(c.id), ChangedFile(device, c)), PutItem(Agent(c.id), ChangedItem(device, c))]);
      }
    }
  }

  lemma FileWritesAreGrounded(t: Tables, device: string, c: FileChange)
    requires var segments := PathSegments(c); |segments| > 1 ==> FolderId(device, segments, |segments| - 2) in t.items
    ensures GroundedRun(t, [PutFile(Agent(c.id), ChangedFile(device, c)), PutItem(Agent(c.id), ChangedItem(device, c))])
  {
    var segments := PathSegments(c);
    if |segments| > 1 {
      KeyBegins(device, segments[..|segments| - 1]);
    }
    var file, item := PutFile(Agent(c.id), ChangedFile(device, c)), PutItem(Agent(c.id), ChangedItem(device, c));
    assert [file, item][1..] == [item] && [item][1..] == [];
  }

  lemma {:induction false} BatchWritesAreGrounded(t: Tables, device: string, changes: seq<FileChange>)
    ensures GroundedRun(t, BatchWrites(device, changes))
    decreases |changes|
  {
    if changes != [] {
      var first := ChangeWrites(device, changes[0]);
      if changes[0].deleted {
        assert first != [] ==> first[1..] == [];
      } else {
        UpsertWritesAreGrounded(t, device, changes[0]);
      }
      if Acceptable(changes[0]) {
        BatchWritesAreGrounded(ApplyWrites(t, first), device, changes[1..]);
        GroundedConcat(t, first, BatchWrites(device, changes[1..]));
      } else {
        assert first + [] == first;
      }
    }
  }

  /** The forest invariant: after every single row write of every batch - complete, stopped by a
      bad change, or broken off anywhere - each item's parent is absent or an existing folder whose
      key is the item's path prefix, and its file or folder row exists. */
  lemma EveryRowWriteKeepsForest(t: Tables, device: string, changes: seq<FileChange>, n: nat)
    requires Forest(t) && n <= |BatchWrites(device, changes)|
    ensures Forest(ApplyWrites(t, BatchWrites(device, changes)[..n]))
  {
    BatchWritesAreGrounded(t, device, changes);
    GroundedRunKeepsForest(t, BatchWrites(device, changes), n);
  }

  /** Runs of batches of any devices, each possibly broken off after some of its row writes. */
  datatype Batch = Batch(device: string, changes: seq<FileChange>, completed: nat)

  function AfterBatch(t: Tables, b: Batch): Tables {
    var ws := BatchWrites(b.device, b.changes);
    ApplyWrites(t, if b.completed <= |ws| then ws[..b.completed] else ws)
  }

  function AfterBatches(t: Tables, bs: seq<Batch>): Tables
    decreases |bs|
  {
    if bs == [] then t else AfterBatches(AfterBatch(t, bs[0]), bs[1..])
  }

  lemma {:induction false} ReachableTablesAreForests(t: Tables, bs: seq<Batch>)
    requires Forest(t)
    ensures Forest(AfterBatches(t, bs))
    decreases |bs|
  {
    if bs != [] {
      var ws := BatchWrites(bs[0].device, bs[0].changes);
      assert ws[..|ws|] == ws;
      EveryRowWriteKeepsForest(t, bs[0].device, bs[0].changes, if bs[0].completed <= |ws| then bs[0].completed else |ws|);
      ReachableTablesAreForests(AfterBatch(t, bs[0]), bs[1..]);
    }
  }

  // ---- Walking up the parents ---------------------------------------------------------------------

  /** How far up a row can still go: the length of its parent's key. */
  function Rank(row: ItemRow): nat {
    match row.parent
    case None => 0
    case Some(p) => if p.Hash? then |p.key| + 1 else 0
  }

  /** The parent row the walk goes on with, if it finds one of the same device. */
  function ParentRow(t: Tables, device: string, row: ItemRow): Option<ItemRow> {
    if row.parent.Some? && row.parent.value in t.items && t.items[row.parent.value].device == device
    then Some(t.items[row.parent.value]) else None
  }

  lemma ParentRanksLower(t: Tables, device: string, row: ItemRow)
    requires Forest(t) && ParentRow(t, device, row).Some? && row.parent.value.Hash?
    ensures Rank(ParentRow(t, device, row).value) < Rank(row)
    ensures ParentRow(t, device, row).value.parent.Some? ==> ParentRow(t, device, row).value.parent.value.Hash?
  {
    assert FolderShape(row.parent.value, t.items[row.parent.value]);
  }

  predicate ParentIsFolder(row: ItemRow) {
    row.parent.Some? ==> row.parent.value.Hash?
  }

  /** The names from the top of the row's tree down to the row. */
  ghost function NamesFromTop(t: Tables, device: string, row: ItemRow): (names: seq<string>)
    requires Forest(t) && ParentIsFolder(row)
    ensures names != [] && names[|names| - 1] == row.name
    decreases Rank(row)
  {
    match ParentRow(t, device, row)
    case None => [row.name]
    case Some(parent) =>
      ParentRanksLower(t, device, row);
      NamesFromTop(t, device, parent) + [row.name]
  }

  /** BuildLogicalPathFromItem: on a forest the walk ends, with the names from the top down. */
  method BuildLogicalPathFromItem(t: Tables, device: string, item: ItemRow) returns (path: string)
    requires Forest(t) && ParentIsFolder(item)
    ensures path == Join(NamesFromTop(t, device, item), '/')
  {
    var segments: seq<string> := [];
    var current := item;
    ghost var names := NamesFromTop(t, device, item);
    assert names + segments == names;
    while true
      invariant ParentIsFolder(current)
      invariant NamesFromTop(t, device, item) == NamesFromTop(t, device, current) + segments
      decreases Rank(current)
    {
      ghost var upper := NamesFromTop(t, device, current);
      assert upper + segments == upper[..|upper| - 1] + ([current.name] + segments);
      segments := [current.name] + segments;
      if current.parent.None? {
        break;
      }
      if current.parent.value !in t.items || t.items[current.parent.value].device != device {
        break;
      }
      ParentRanksLower(t, device, current);
      assert upper == NamesFromTop(t, device, t.items[current.parent.value]) + [current.name];
      current := t.items[current.parent.value];
    }
    path := Join(segments, '/');
  }

  // ---- The walk rebuilds the path --------------------------------------------------------------------

  /** No item of the tables belongs to a device with a '|' in its id. */
  ghost predicate PlainDevices(t: Tables) {
    forall id :: id in t.items ==> Free(t.items[id].device, '|')
  }

  lemma SameDevice(a: string, b: string, key: string)
    requires Free(a, '|') && Free(b, '|') && Begins(a + "|", key) && Begins(b + "|", key)
    ensures a == b
  {
    assert key[|a|] == '|' && key[|b|] == '|';
    assert forall i :: 0 <= i < |a| ==> key[i] == (a + "|")[i] == a[i] && a[i] in a;
    assert forall i :: 0 <= i < |b| ==> key[i] == (b + "|")[i] == b[i] && b[i] in b;
    assert |a| == |b|;
    assert a == key[..|a|] && b == key[..|b|];
  }

  /** Every folder row is found again under the path its id was made from. */
  lemma {:induction false} FolderNamesSpellKey(t: Tables, id: Id)
    requires Forest(t) && PlainDevices(t) && id in t.items && id.Hash?
    ensures var row := t.items[id];
            ParentIsFolder(row) && id.key == Key(row.device, NamesFromTop(t, row.device, row))
    decreases Rank(t.items[id])
  {
    var row := t.items[id];
    assert FolderShape(id, row);
    if row.parent.Some? {
      var p := row.parent.value;
      var parent := t.items[p];
      assert FolderShape(p, parent);
      SameDevice(row.device, parent.device, p.key);
      ParentRanksLower(t, row.device, row);
      FolderNamesSpellKey(t, p);
      var names := NamesFromTop(t, row.device, parent);
      JoinAppend(names, row.name, '/');
      KeyAppend(row.device, names, row.name);
    }
  }

  lemma KeyAppend(device: string, names: seq<string>, name: string)
    requires names != []
    ensures Key(device, names + [name]) == Key(device, names) + "/" + name
  {
    JoinAppend(names, name, '/');
    var head, joined := device + "|", Join(names, '/');
    assert head + (joined + "/" + name) == head + joined + "/" + name;
  }

  /** Every file row below a folder is found under that folder's path and its own name. */
  lemma FileNamesSpellParentKey(t: Tables, id: Id)
    requires Forest(t) && PlainDevices(t) && id in t.items && id.Agent? && t.items[id].parent.Some?
    ensures var row := t.items[id];
            && ParentIsFolder(row)
            && row.parent.value.key + "/" + row.name == Key(row.device, NamesFromTop(t, row.device, row))
  {
    var row := t.items[id];
    assert FileShape(id, row) && Linked(t, row);
    var p := row.parent.value;
    assert FolderShape(p, t.items[p]);
    SameDevice(row.device, t.items[p].device, p.key);
    FolderNamesSpellKey(t, p);
    KeyAppend(row.device, NamesFromTop(t, row.device, t.items[p]), row.name);
  }

  lemma KeyCancels(device: string, a: seq<string>, b: seq<string>)
    requires Key(device, a) == Key(device, b)
    ensures Join(a, '/') == Join(b, '/')
  {
    var n := |device + "|"|;
    assert Join(a, '/') == Key(device, a)[n..] && Join(b, '/') == Key(device, b)[n..];
  }

  /** Path rebuilding, exactly: as long as the row of a file change stands as that change wrote it,
      whatever else happened to the tables, the parent walk returns the change's normalised path if
      and only if the change's name is the last segment of that path. */
  lemma WalkRebuildsPathExactly(t: Tables, device: string, c: FileChange)
    requires Forest(t) && PlainDevices(t) && Agent(c.id) in t.items
    requires t.items[Agent(c.id)].(deleted := false) == ChangedItem(device, c)
    ensures var segments, row := PathSegments(c), t.items[Agent(c.id)];
            && ParentIsFolder(row)
            && (Join(NamesFromTop(t, device, row), '/') == Join(segments, '/') <==> c.currentName == segments[|segments| - 1])
  {
    var segments, id := PathSegments(c), Agent(c.id);
    var row, last := t.items[id], segments[|segments| - 1];
    assert FileShape(id, row);
    if |segments| == 1 {
      assert NamesFromTop(t, device, row) == [c.currentName];
      assert segments == [last];
    } else {
      FileNamesSpellParentKey(t, id);
      var front := segments[..|segments| - 1];
      assert segments[..|segments| - 2 + 1] == front;
      var names := NamesFromTop(t, device, row);
      KeyAppend(device, front, last);
      KeyAppend(device, front, c.currentName);
      assert front + [last] == segments;
      KeyCancels(device, names, front + [c.currentName]);
      JoinAppend(front, last, '/');
      JoinAppend(front, c.currentName, '/');
      SamePrefix(Join(front, '/') + "/", c.currentName, last);
    }
  }

  lemma SamePrefix(head: string, a: string, b: string)
    ensures head + a == head + b <==> a == b
  {
    if head + a == head + b {
      assert a == (head + a)[|head|..] && b == (head + b)[|head|..];
    }
  }

  // ---- Deleting by path ----------------------------------------------------------------------------------

  /** Deleting by path computes the id of the folder that syncing the path created, exactly when the path
      without its outer slashes is made of clean segments. */
  lemma DeleteByPathFindsFolderExactly(device: string, path: string)
    ensures Segments(path, '/') != [] && Key(device, RawSegments(path)) == Key(device, Segments(path, '/'))
            <==> AllClean(RawSegments(path))
  {
    var raw, segments := RawSegments(path), Segments(path, '/');
    DeleteSplitterAgreesExactly(path);
    if segments != [] && Key(device, raw) == Key(device, segments) {
      KeyCancels(device, raw, segments);
      SegmentsAreClean(path, '/');
      SplitPartsAreFree(TrimRightSlashes(TrimLeftSlashes(path)), '/');
      SplitInvertsJoin(raw, '/');
      SplitInvertsJoin(segments, '/');
    }
  }

  // ---- Deleted folders ----------------------------------------------------------------------------------

  /** A reported deletion names an agent id, and folders do not have one: no batch ever marks a
      folder as deleted. */
  lemma FoldersAreNeverDeleted(t: Tables, w: Write, id: Id)
    requires Forest(t) && Grounded(t, w) && id.Hash?
    requires id in t.items && !t.items[id].deleted && id in t.folders && !t.folders[id].deleted
    ensures !ApplyWrite(t, w).items[id].deleted && !ApplyWrite(t, w).folders[id].deleted
  {
  }

  lemma {:induction false} BatchKeepsFolder(t: Tables, ws: seq<Write>, id: Id)
    requires Forest(t) && GroundedRun(t, ws) && id.Hash?
    requires id in t.items && !t.items[id].deleted && id in t.folders && !t.folders[id].deleted
    ensures var after := ApplyWrites(t, ws);
            id in after.items && !after.items[id].deleted && id in after.folders && !after.folders[id].deleted
    decreases |ws|
  {
    if ws != [] {
      var next := ApplyWrite(t, ws[0]);
      WriteKeepsForest(t, ws[0]);
      FoldersAreNeverDeleted(t, ws[0], id);
      BatchKeepsFolder(next, ws[1..], id);
      assert ws == [ws[0]] + ws[1..];
      ApplyWritesConcat(t, [ws[0]], ws[1..]);
      ApplyOne(t, ws[0]);
    }
  }
}
