/** The file tree service and repository on their tables. */
module FileTreeService {
  import opened Basics
  import opened LogicalPaths
  import opened FileTreeModel

  class Repository {
    var files: map<Id, FileRow>
    var folders: map<Id, FolderRow>
    var items: map<Id, ItemRow>

    constructor ()
      ensures View() == Tables(map[], map[], map[])
    {
      files, folders, items := map[], map[], map[];
    }

    ghost function View(): Tables
      reads this
    {
      Tables(files, folders, items)
    }

    method UpsertFile(id: Id, row: FileRow)
      modifies this`files
      ensures View() == ApplyWrite(old(View()), PutFile(id, row))
    {
      files := files[id := if id in files then row.(deleted := files[id].deleted) else row.(deleted := false)];
    }

    method UpsertFolder(id: Id, row: FolderRow)
      modifies this`folders
      ensures View() == ApplyWrite(old(View()), PutFolder(id, row))
    {
      folders := folders[id := if id in folders then row.(deleted := folders[id].deleted) else row.(deleted := false)];
    }

    method UpsertItem(id: Id, row: ItemRow)
      modifies this`items
      ensures View() == ApplyWrite(old(View()), PutItem(id, row))
    {
      items := items[id := if id in items then row.(deleted := items[id].deleted) else row.(deleted := false)];
    }

    method DeleteItem(device: string, agentId: string)
      modifies this
      ensures View() == if agentId == "" then old(View()) else ApplyWrite(old(View()), Remove(device, agentId))
    {
      if agentId == "" { return; }
      var id := Agent(agentId);
      if id !in items || items[id].device != device || items[id].deleted { return; }
      SoftDeleteItem(id, device);
    }

    method SoftDeleteItem(id: Id, device: string)
      requires id in items && items[id].device == device && !items[id].deleted
      modifies this
      ensures files == MarkFile(old(files), device, old(items)[id].file)
      ensures folders == MarkFolder(old(folders), device, old(items)[id].folder)
      ensures items == old(items)[id := old(items)[id].(deleted := true)]
      ensures files.Keys == old(files).Keys && forall k :: k in files ==>
                files[k] == if old(items)[id].file == Some(k) && old(files)[k].device == device then old(files)[k].(deleted := true)
                            else old(files)[k]
      ensures folders.Keys == old(folders).Keys && forall k :: k in folders ==>
                folders[k] == if old(items)[id].folder == Some(k) && old(folders)[k].device == device then old(folders)[k].(deleted := true)
                              else old(folders)[k]
    {
      var file, folder := items[id].file, items[id].folder;
      if file.Some? && file.value in files && files[file.value].device == device {
        files := files[file.value := files[file.value].(deleted := true)];
      }
      if folder.Some? && folder.value in folders && folders[folder.value].device == device {
        folders := folders[folder.value := folders[folder.value].(deleted := true)];
      }
      items := items[id := items[id].(deleted := true)];
    }
  }

  method SplitPath(change: FileChange) returns (segments: seq<string>)
    ensures segments == PathSegments(change)
  {
    if change.currentPath == "" {
      return [change.currentName];
    }
    segments := SplitSegments(change.currentPath, '/');
    if |segments| == 0 {
      segments := [change.currentName];
    }
  }

  lemma LastTwoWrites(t: Tables, done: seq<Write>, a: Write, b: Write)
    ensures ApplyWrites(t, done + [a, b]) == ApplyWrite(ApplyWrite(ApplyWrites(t, done), a), b)
  {
    assert done + [a, b] == done + [a] + [b];
    ApplyWritesConcat(t, done + [a], [b]);
    ApplyWritesConcat(t, done, [a]);
    ApplyOne(ApplyWrites(t, done), a);
    ApplyOne(ApplyWrites(t, done + [a]), b);
  }

  lemma NextFolder(t: Tables, done: seq<Write>, device: string, segments: seq<string>, i: nat, n: nat)
    requires i < n <= |segments|
    ensures var id := FolderId(device, segments, i);
            var folder, item := PutFolder(id, FolderRow(device, false)), PutItem(id, FolderItem(device, segments, i));
            && ApplyWrites(t, done + [folder, item]) == ApplyWrite(ApplyWrite(ApplyWrites(t, done), folder), item)
            && done + FolderWrites(device, segments, i, n) == done + [folder, item] + FolderWrites(device, segments, i + 1, n)
  {
    var id := FolderId(device, segments, i);
    var folder, item := PutFolder(id, FolderRow(device, false)), PutItem(id, FolderItem(device, segments, i));
    LastTwoWrites(t, done, folder, item);
    Associative(done, [folder, item], FolderWrites(device, segments, i + 1, n));
  }

  /** The loop over the folder prefixes of a path. */
  method UpsertFolders(repo: Repository, device: string, segments: seq<string>, n: nat) returns (parent: Option<Id>)
    requires n <= |segments|
    modifies repo
    ensures repo.View() == ApplyWrites(old(repo.View()), FolderWrites(device, segments, 0, n))
    ensures parent == if n == 0 then None else Some(FolderId(device, segments, n - 1))
  {
    parent := None;
    var i := 0;
    ghost var done: seq<Write> := [];
    while i < n
      invariant 0 <= i <= n
      invariant parent == if i == 0 then None else Some(FolderId(device, segments, i - 1))
      invariant repo.View() == ApplyWrites(old(repo.View()), done)
      invariant FolderWrites(device, segments, 0, n) == done + FolderWrites(device, segments, i, n)
    {
      var folderId := FolderId(device, segments, i);
      repo.UpsertFolder(folderId, FolderRow(device, false));
      repo.UpsertItem(folderId, ItemRow(device, segments[i], parent, None, Some(folderId), 0, false));
      NextFolder(old(repo.View()), done, device, segments, i, n);
      done := done + [PutFolder(folderId, FolderRow(device, false)), PutItem(folderId, FolderItem(device, segments, i))];
      parent := Some(folderId);
      i := i + 1;
    }
    assert done + [] == done;
  }

  method UpsertPath(repo: Repository, device: string, change: FileChange) returns (ok: bool)
    modifies repo
    ensures repo.View() == ApplyWrites(old(repo.View()), UpsertWrites(device, change))
    ensures ok <==> change.isDir || change.id != ""
  {
    var segments := SplitPath(change);
    if change.isDir {
      var last := UpsertFolders(repo, device, segments, |segments|);
      return true;
    }
    var parent := UpsertFolders(repo, device, segments, |segments| - 1);
    ghost var start, folders := old(repo.View()), FolderWrites(device, segments, 0, |segments| - 1);
    if change.id == "" {
      assert folders + [] == folders;
      return false;
    }
    repo.UpsertFile(Agent(change.id), ChangedFile(device, change));
    repo.UpsertItem(Agent(change.id), ItemRow(device, change.currentName, parent, Some(Agent(change.id)), None, change.size, false));
    LastTwoWrites(start, folders, PutFile(Agent(change.id), ChangedFile(device, change)),
                  PutItem(Agent(change.id), ChangedItem(device, change)));
    ok := true;
  }

  /** ApplyChanges: the batch's row writes in order, up to the change that stops it. */
  method ApplyChanges(repo: Repository, device: string, changes: seq<FileChange>) returns (ok: bool)
    modifies repo
    ensures repo.View() == ApplyWrites(old(repo.View()), BatchWrites(device, changes))
    ensures ok <==> forall i :: 0 <= i < |changes| ==> changes[i].deleted || changes[i].isDir || changes[i].id != ""
  {
    var i := 0;
    ok := true;
    ghost var done: seq<Write> := [];
    assert changes[0..] == changes;
    while i < |changes|
      invariant 0 <= i <= |changes| && ok
      invariant repo.View() == ApplyWrites(old(repo.View()), done)
      invariant BatchWrites(device, changes) == done + BatchWrites(device, changes[i..])
      invariant forall j :: 0 <= j < i ==> Acceptable(changes[j])
    {
      var change := changes[i];
      if change.deleted {
        repo.DeleteItem(device, change.id);
        ApplyOne(ApplyWrites(old(repo.View()), done), Remove(device, change.id));
      } else {
        ok := UpsertPath(repo, device, change);
      }
      ApplyWritesConcat(old(repo.View()), done, ChangeWrites(device, change));
      NextChange(device, changes, i, done);
      done := done + ChangeWrites(device, change);
      if !ok {
        assert done + [] == done;
        return;
      }
      i := i + 1;
    }
    assert done + [] == done;
  }

  lemma NextChange(device: string, changes: seq<FileChange>, i: nat, done: seq<Write>)
    requires i < |changes|
    ensures done + BatchWrites(device, changes[i..]) ==
            done + ChangeWrites(device, changes[i]) + if Acceptable(changes[i]) then BatchWrites(device, changes[i + 1..]) else []
  {
    assert changes[i..][0] == changes[i] && changes[i..][1..] == changes[i + 1..];
  }
}
