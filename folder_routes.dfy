/** The folder handlers: create, read, update, delete and list the items of a folder in
    the database of the request's identity. */
module FolderRoutes {
  import opened Common
  import opened Tables
  import opened Models
  import opened Storage
  import opened Http

  /** The folder's `children` relationship: the folders whose parent is `id`. */
  function Children(folders: seq<Folder>, id: string): (r: seq<Folder>)
    ensures forall f :: f in r <==> f in folders && f.parentId == Some(id)
  {
    Filter(folders, (f: Folder) => f.parentId == Some(id))
  }

  /** The folder's `files` relationship: the files stored in folder `id`. */
  function FilesIn(files: seq<File>, id: string): (r: seq<File>)
    ensures forall f :: f in r <==> f in files && f.folderId == id
  {
    Filter(files, (f: File) => f.folderId == id)
  }

  /** POST /folders. The parent defaults to the root; a parent that does not exist is a
      404 and nothing is stored. A folder without a name breaks the NOT NULL constraint
      at commit: the request fails with 500 and nothing is stored. */
  method CreateFolder(store: Store, name: Option<string>, parentId: Option<string>, newId: string)
      returns (r: Reply)
    requires newId !in Keys(store.folders, FolderKey)
    modifies store`folders
    ensures var pid := parentId.GetOr(RootId);
            && (pid !in Keys(old(store.folders), FolderKey) ==>
                  r == NotFound("Parent folder not found") && store.folders == old(store.folders))
            && (pid in Keys(old(store.folders), FolderKey) && name.None? ==>
                  r == ServerError && store.folders == old(store.folders))
            && (pid in Keys(old(store.folders), FolderKey) && name.Some? ==>
                  && store.folders == old(store.folders) + [Folder(newId, Some(pid), name.value)]
                  && r == Created(FolderToDict(Folder(newId, Some(pid), name.value))))
    ensures old(store.Valid()) ==> store.Valid()
    ensures old(store.HasRoot()) ==> store.HasRoot()
  {
    var pid := parentId.GetOr(RootId);
    var parent := Find(store.folders, FolderKey, pid);
    if parent.None? {
      return NotFound("Parent folder not found");
    }
    if name.None? {
      return ServerError;
    }
    var folder := Folder(newId, Some(pid), name.value);
    if store.Valid() {
      AppendUnique(store.folders, FolderKey, folder);
    }
    AppendKeys(store.folders, FolderKey, folder);
    store.folders := store.folders + [folder];
    r := Created(FolderToDict(folder));
  }

  /** GET /folders/<id>: the folder's document, or 404. */
  function GetFolder(folders: seq<Folder>, id: string): (r: Reply)
    ensures id !in Keys(folders, FolderKey) ==> r == NotFound("Folder not found")
    ensures id in Keys(folders, FolderKey) ==>
              exists i :: 0 <= i < |folders| && folders[i].id == id && r == Ok(FolderToDict(folders[i]))
  {
    match Find(folders, FolderKey, id)
    case None => NotFound("Folder not found")
    case Some(f) => Ok(FolderToDict(f))
  }

  /** A folder after an update: the name changes only when one is given, the parent only
      when a parent object is given (to its "id", which may be missing). */
  function Updated(f: Folder, name: Option<string>, parent: Option<Option<string>>): (g: Folder)
    ensures g.id == f.id
    ensures name.None? ==> g.name == f.name
    ensures name.Some? ==> g.name == name.value
    ensures parent.None? ==> g.parentId == f.parentId
    ensures parent.Some? ==> g.parentId == parent.value
  {
    f.(name := name.GetOr(f.name), parentId := parent.GetOr(f.parentId))
  }

  /** PUT /folders/<id>. The row is updated in place; the new parent is not checked to
      exist, nor to keep the folders a tree. */
  method UpdateFolder(store: Store, id: string, name: Option<string>, parent: Option<Option<string>>)
      returns (r: Reply)
    modifies store`folders
    ensures id !in Keys(old(store.folders), FolderKey) ==>
              r == NotFound("Folder not found") && store.folders == old(store.folders)
    ensures id in Keys(old(store.folders), FolderKey) ==>
              var i := IndexOf(old(store.folders), FolderKey, id).value;
              var f := Updated(old(store.folders)[i], name, parent);
              && store.folders == old(store.folders)[i := f]
              && r == Ok(FolderToDict(f))
    ensures Keys(store.folders, FolderKey) == Keys(old(store.folders), FolderKey)
    ensures old(store.Valid()) ==> store.Valid()
  {
    var found := IndexOf(store.folders, FolderKey, id);
    if found.None? {
      return NotFound("Folder not found");
    }
    var i := found.value;
    var f := Updated(store.folders[i], name, parent);
    UpdateKeys(store.folders, FolderKey, i, f);
    store.folders := store.folders[i := f];
    r := Ok(FolderToDict(f));
  }

  /** The folders left when folder `id` goes: its children lose their parent (the
      relationship nulls their foreign key rather than deleting them). */
  function Detach(folders: seq<Folder>, id: string): (r: seq<Folder>)
    ensures |r| == |folders|
    ensures forall i :: 0 <= i < |folders| ==>
              r[i] == if folders[i].parentId == Some(id) then folders[i].(parentId := None) else folders[i]
  {
    seq(|folders|, i requires 0 <= i < |folders| =>
      if folders[i].parentId == Some(id) then folders[i].(parentId := None) else folders[i])
  }

  /** Deleting folder `id` removes that key and no other, leaves no folder pointing at it,
      and keeps every child folder (without a parent). */
  lemma DeleteFolderEffect(folders: seq<Folder>, id: string)
    requires UniqueKeys(folders, FolderKey)
    ensures var after := Detach(WithoutKey(folders, FolderKey, id), id);
            && UniqueKeys(after, FolderKey)
            && Keys(after, FolderKey) == Keys(folders, FolderKey) - {id}
            && (forall f :: f in after ==> f.parentId != Some(id))
            && (forall c :: c in folders && c.parentId == Some(id) && c.id != id ==>
                  c.(parentId := None) in after)
  {
    var kept := WithoutKey(folders, FolderKey, id);
    var after := Detach(kept, id);
    WithoutKeyKeys(folders, FolderKey, id);
    assert forall i :: 0 <= i < |kept| ==> after[i].id == kept[i].id;
    forall i, j | 0 <= i < j < |after| ensures after[i].id != after[j].id {
      assert kept[i].id != kept[j].id;
    }
    forall k | k in Keys(kept, FolderKey) ensures k in Keys(after, FolderKey) {
      var i :| 0 <= i < |kept| && kept[i].id == k;
      assert after[i].id == k;
    }
    forall f | f in after ensures f.parentId != Some(id) {
      var i :| 0 <= i < |after| && after[i] == f;
    }
    forall c | c in folders && c.parentId == Some(id) && c.id != id
      ensures c.(parentId := None) in after
    {
      assert c in kept;
      var i :| 0 <= i < |kept| && kept[i] == c;
      assert after[i] == c.(parentId := None);
    }
  }

  /** DELETE /folders/<id>. The existence check comes first, then the root is refused.
      Otherwise the folder and its own files go; child folders stay with no parent, and
      blobs are left on disk. */
  method DeleteFolder(store: Store, id: string) returns (r: Reply)
    modifies store`folders, store`files
    ensures id !in Keys(old(store.folders), FolderKey) ==>
              r == NotFound("Folder not found") && unchanged(store)
    ensures id in Keys(old(store.folders), FolderKey) && id == RootId ==>
              r == Error(403, "forbidden", "Cannot delete root folder") && unchanged(store)
    ensures id in Keys(old(store.folders), FolderKey) && id != RootId ==>
              && r == Reply(204, NoContent)
              && store.folders == Detach(WithoutKey(old(store.folders), FolderKey, id), id)
              && store.files == Filter(old(store.files), (f: File) => f.folderId != id)
    ensures old(store.Valid()) ==> store.Valid()
    ensures old(store.HasRoot()) ==> store.HasRoot()
  {
    var folder := Find(store.folders, FolderKey, id);
    if folder.None? {
      return NotFound("Folder not found");
    }
    if id == RootId {
      return Error(403, "forbidden", "Cannot delete root folder");
    }
    if store.Valid() {
      DeleteFolderEffect(store.folders, id);
      FilterUnique(store.files, FileKey, (f: File) => f.folderId != id);
    }
    DetachKeys(WithoutKey(store.folders, FolderKey, id), id);
    if store.HasRoot() {
      WithoutKeyKeepsOthers(store.folders, FolderKey, id, RootId);
    }
    store.folders := Detach(WithoutKey(store.folders, FolderKey, id), id);
    store.files := Filter(store.files, (f: File) => f.folderId != id);
    r := Reply(204, NoContent);
  }

  lemma DetachKeys(folders: seq<Folder>, id: string)
    ensures Keys(Detach(folders, id), FolderKey) == Keys(folders, FolderKey)
  {
    var after := Detach(folders, id);
    assert forall i :: 0 <= i < |folders| ==> after[i].id == folders[i].id;
    forall k | k in Keys(folders, FolderKey) ensures k in Keys(after, FolderKey) {
      var i :| 0 <= i < |folders| && folders[i].id == k;
      assert after[i].id == k;
    }
  }

  lemma WithoutKeyKeepsOthers(folders: seq<Folder>, key: Folder -> string, id: string, other: string)
    requires other != id && other in Keys(folders, key)
    ensures other in Keys(WithoutKey(folders, key, id), key)
  {
    var i :| 0 <= i < |folders| && key(folders[i]) == other;
    FilterKeys(folders, key, x => key(x) != id, other);
  }

  /** The listing entries: the child folders' documents, then the files' documents. */
  function Items(folders: seq<Folder>, files: seq<File>, id: string): (items: seq<Json>)
    ensures |items| == |Children(folders, id)| + |FilesIn(files, id)|
    ensures forall k :: 0 <= k < |Children(folders, id)| ==>
              items[k] == FolderToDict(Children(folders, id)[k])
    ensures forall k :: 0 <= k < |FilesIn(files, id)| ==>
              items[|Children(folders, id)| + k] == FileToDict(FilesIn(files, id)[k])
  {
    var cs := Children(folders, id);
    var fs := FilesIn(files, id);
    seq(|cs|, k requires 0 <= k < |cs| => FolderToDict(cs[k]))
      + seq(|fs|, k requires 0 <= k < |fs| => FileToDict(fs[k]))
  }

  /** Every entry of a listing names the listed folder as its parent: only direct
      children and direct files are listed. */
  lemma ItemsAreDirect(folders: seq<Folder>, files: seq<File>, id: string)
    requires id != ""
    ensures forall e :: e in Items(folders, files, id) ==> Member(e, "parent") == Some(FolderRef(id))
  {
    var items := Items(folders, files, id);
    var cs := Children(folders, id);
    var fs := FilesIn(files, id);
    forall k | 0 <= k < |items| ensures Member(items[k], "parent") == Some(FolderRef(id)) {
      if k < |cs| {
        assert cs[k] in cs;
        FolderParent(cs[k]);
      } else {
        assert fs[k - |cs|] in fs;
        FileParent(fs[k - |cs|]);
      }
    }
  }

  lemma FolderParent(f: Folder)
    requires Truthy(f.parentId)
    ensures Member(FolderToDict(f), "parent") == Some(FolderRef(f.parentId.value))
  {
  }

  lemma FileParent(f: File)
    ensures Member(FileToDict(f), "parent") == Some(FolderRef(f.folderId))
  {
  }

  /** GET /folders/<id>/items: the child folders followed by the files, and their count. */
  function GetFolderItems(folders: seq<Folder>, files: seq<File>, id: string): (r: Reply)
    ensures id !in Keys(folders, FolderKey) ==> r == NotFound("Folder not found")
    ensures id in Keys(folders, FolderKey) ==>
              && r.status == 200 && r.body.JsonBody?
              && Member(r.body.json, "entries") == Some(Arr(Items(folders, files, id)))
              && Member(r.body.json, "total_count")
                 == Some(Int(|Children(folders, id)| + |FilesIn(files, id)|))
  {
    if id !in Keys(folders, FolderKey) then NotFound("Folder not found")
    else Ok(Page(Items(folders, files, id)))
  }
}
