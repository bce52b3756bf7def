/** The file tree tables and the row writes that a batch of changes turns into. */
module FileTreeModel {
  import opened Basics
  import opened Strings
  import opened LogicalPaths

  /** Row ids: the name-based UUID of a key for folders, ids chosen by the agent for files. */
  datatype Id = Hash(key: string) | Agent(id: string)

  datatype FileRow = FileRow(device: string, originPath: string, currentPath: string, currentName: string,
                             extension: string, size: int, snapshot: int, changePending: bool, deleted: bool)

  datatype FolderRow = FolderRow(device: string, deleted: bool)

  datatype ItemRow = ItemRow(device: string, name: string, parent: Option<Id>, file: Option<Id>, folder: Option<Id>,
                             size: int, deleted: bool)

  datatype Tables = Tables(files: map<Id, FileRow>, folders: map<Id, FolderRow>, items: map<Id, ItemRow>)

  datatype FileChange = FileChange(id: string, originPath: string, currentPath: string, currentName: string,
                                   extension: string, size: int, snapshot: int, isDir: bool, deleted: bool,
                                   changePending: bool)

  /** One statement or transaction against the tables. */
  datatype Write =
    | PutFile(id: Id, file: FileRow)
    | PutFolder(id: Id, folder: FolderRow)
    | PutItem(id: Id, item: ItemRow)
    | Remove(device: string, agentId: string)

  // ---- Row writes ------------------------------------------------------------------------------

  /** Insert, or update every column but the soft-delete mark. */
  function UpsertedFile(t: Tables, id: Id, row: FileRow): FileRow {
    if id in t.files then row.(deleted := t.files[id].deleted) else row.(deleted := false)
  }

  function UpsertedFolder(t: Tables, id: Id, row: FolderRow): FolderRow {
    if id in t.folders then row.(deleted := t.folders[id].deleted) else row.(deleted := false)
  }

  function UpsertedItem(t: Tables, id: Id, row: ItemRow): ItemRow {
    if id in t.items then row.(deleted := t.items[id].deleted) else row.(deleted := false)
  }

  /** DeleteItem finds only rows of the device that are not soft-deleted yet. */
  predicate Deletable(t: Tables, device: string, id: Id) {
    id in t.items && t.items[id].device == device && !t.items[id].deleted
  }

  function MarkFile(files: map<Id, FileRow>, device: string, id: Option<Id>): map<Id, FileRow> {
    if id.Some? && id.value in files && files[id.value].device == device
    then files[id.value := files[id.value].(deleted := true)] else files
  }

  function MarkFolder(folders: map<Id, FolderRow>, device: string, id: Option<Id>): map<Id, FolderRow> {
    if id.Some? && id.value in folders && folders[id.value].device == device
    then folders[id.value := folders[id.value].(deleted := true)] else folders
  }

  function ApplyWrite(t: Tables, w: Write): Tables {
    match w
    case PutFile(id, row) => t.(files := t.files[id := UpsertedFile(t, id, row)])
    case PutFolder(id, row) => t.(folders := t.folders[id := UpsertedFolder(t, id, row)])
    case PutItem(id, row) => t.(items := t.items[id := UpsertedItem(t, id, row)])
    case Remove(device, agentId) =>
      var id := Agent(agentId);
      if !Deletable(t, device, id) then t else
      Tables(MarkFile(t.files, device, t.items[id].file),
             MarkFolder(t.folders, device, t.items[id].folder),
             t.items[id := t.items[id].(deleted := true)])
  }

  function ApplyWrites(t: Tables, ws: seq<Write>): Tables {
    if ws == [] then t else ApplyWrite(ApplyWrites(t, ws[..|ws| - 1]), ws[|ws| - 1])
  }

  lemma {:induction false} ApplyWritesConcat(t: Tables, a: seq<Write>, b: seq<Write>)
    ensures ApplyWrites(t, a + b) == ApplyWrites(ApplyWrites(t, a), b)
  {
    if b == [] {
      assert a + b == a;
    } else {
      ApplyWritesConcat(t, a, b[..|b| - 1]);
      assert (a + b)[..|a + b| - 1] == a + b[..|b| - 1];
    }
  }

  lemma ApplyOne(t: Tables, w: Write)
    ensures ApplyWrites(t, [w]) == ApplyWrite(t, w)
  {
    assert [w][..0] == [];
    assert ApplyWrites(t, []) == t;
  }

  // ---- From changes to row writes ----------------------------------------------------------------

  /** splitPath: the segments of the path, or the fallback name alone. */
  function PathSegments(change: FileChange): (segments: seq<string>)
    ensures segments != []
  {
    var segments := if change.currentPath == "" then [] else Segments(change.currentPath, '/');
    if segments == [] then [change.currentName] else segments
  }

  /** The key that deterministicID hashes. */
  function Key(device: string, segments: seq<string>): string {
    device + "|" + Join(segments, '/')
  }

  function FolderId(device: string, segments: seq<string>, i: nat): Id
    requires i < |segments|
  {
    Hash(Key(device, segments[..i + 1]))
  }

  function ParentId(device: string, segments: seq<string>, i: nat): Option<Id>
    requires i < |segments|
  {
    if i == 0 then None else Some(FolderId(device, segments, i - 1))
  }

  function FolderItem(device: string, segments: seq<string>, i: nat): ItemRow
    requires i < |segments|
  {
    ItemRow(device, segments[i], ParentId(device, segments, i), None, Some(FolderId(device, segments, i)), 0, false)
  }

  /** The folder rows of the prefixes from the `i`-th up to the `n`-th segment. */
  function FolderWrites(device: string, segments: seq<string>, i: nat, n: nat): seq<Write>
    requires n <= |segments|
    decreases n - i
  {
    if i >= n then [] else
    [PutFolder(FolderId(device, segments, i), FolderRow(device, false)),
     PutItem(FolderId(device, segments, i), FolderItem(device, segments, i))]
    + FolderWrites(device, segments, i + 1, n)
  }

  /** The first of the two that is not blank. */
  function Fallback(a: string, b: string): string {
    if Trim(a) != "" then a else if Trim(b) != "" then b else ""
  }

  function ChangedFile(device: string, c: FileChange): FileRow {
    FileRow(device, Fallback(c.originPath, c.currentPath), c.currentPath, c.currentName, c.extension, c.size,
            c.snapshot, c.changePending, false)
  }

  function ChangedItem(device: string, c: FileChange): ItemRow {
    var segments := PathSegments(c);
    ItemRow(device, c.currentName, ParentId(device, segments, |segments| - 1), Some(Agent(c.id)), None, c.size, false)
  }

  /** A file change without an id stops the batch, after its folders have been written. */
  predicate Acceptable(c: FileChange) {
    c.deleted || c.isDir || c.id != ""
  }

  function UpsertWrites(device: string, c: FileChange): seq<Write> {
    var segments := PathSegments(c);
    if c.isDir then FolderWrites(device, segments, 0, |segments|) else
    FolderWrites(device, segments, 0, |segments| - 1)
    + if c.id == "" then [] else [PutFile(Agent(c.id), ChangedFile(device, c)), PutItem(Agent(c.id), ChangedItem(device, c))]
  }

  function ChangeWrites(device: string, c: FileChange): seq<Write> {
    if !c.deleted then UpsertWrites(device, c) else if c.id == "" then [] else [Remove(device, c.id)]
  }

  /** All row writes of a batch, in order, up to the change that stops it. */
  function BatchWrites(device: string, changes: seq<FileChange>): seq<Write> {
    if changes == [] then [] else
    ChangeWrites(device, changes[0]) + if Acceptable(changes[0]) then BatchWrites(device, changes[1..]) else []
  }

  predicate AllAcceptable(changes: seq<FileChange>) {
    forall i :: 0 <= i < |changes| ==> Acceptable(changes[i])
  }

  lemma KeyStep(device: string, segments: seq<string>, i: nat)
    requires 0 < i < |segments|
    ensures FolderId(device, segments, i).key == FolderId(device, segments, i - 1).key + "/" + segments[i]
  {
    var front := segments[..i];
    assert segments[..i + 1] == front + [segments[i]];
    JoinAppend(front, segments[i], '/');
    var head, joined, tail := device + "|", Join(front, '/'), "/" + segments[i];
    assert head + (joined + "/" + segments[i]) == head + joined + "/" + segments[i];
  }
}
