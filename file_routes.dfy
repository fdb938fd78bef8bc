/** The file handlers. A file's record lives in the identity's database and its content in
    the identity's blob directory under the file's id; the blob directory is the one of
    the request's identity, "default" when the request has none. */
module FileRoutes {
  import opened Common
  import opened Tables
  import opened Models
  import opened Storage
  import opened Http

  /** GET /files/<id>: the file's document, or 404. */
  function GetFile(files: seq<File>, id: string): (r: Reply)
    ensures id !in Keys(files, FileKey) ==> r == NotFound("File not found")
    ensures id in Keys(files, FileKey) ==>
              exists i :: 0 <= i < |files| && files[i].id == id && r == Ok(FileToDict(files[i]))
  {
    match Find(files, FileKey, id)
    case None => NotFound("File not found")
    case Some(f) => Ok(FileToDict(f))
  }

  /** PUT /files/<id>: only the name can change. */
  method UpdateFile(store: Store, id: string, name: Option<string>) returns (r: Reply)
    modifies store`files
    ensures id !in Keys(old(store.files), FileKey) ==>
              r == NotFound("File not found") && store.files == old(store.files)
    ensures id in Keys(old(store.files), FileKey) ==>
              var i := IndexOf(old(store.files), FileKey, id).value;
              var f := old(store.files)[i].(name := name.GetOr(old(store.files)[i].name));
              && store.files == old(store.files)[i := f]
              && r == Ok(FileToDict(f))
    ensures Keys(store.files, FileKey) == Keys(old(store.files), FileKey)
    ensures old(store.Valid()) ==> store.Valid()
  {
    var found := IndexOf(store.files, FileKey, id);
    if found.None? {
      return NotFound("File not found");
    }
    var i := found.value;
    var f := store.files[i].(name := name.GetOr(store.files[i].name));
    store.SetFile(i, f);
    r := Ok(FileToDict(f));
  }

  /** DELETE /files/<id>: the blob goes if there is one, then the record. */
  method DeleteFile(store: Store, disk: Disk, requestIdentity: Option<string>, id: string)
      returns (r: Reply)
    requires disk.Valid()
    modifies store`files, disk`dirs, disk`blobs
    ensures disk.Valid()
    ensures id !in Keys(old(store.files), FileKey) ==>
              && r == NotFound("File not found")
              && store.files == old(store.files) && unchanged(disk)
    ensures id in Keys(old(store.files), FileKey) ==>
              var identity := requestIdentity.GetOr("default");
              && r == Reply(204, NoContent)
              && store.files == WithoutKey(old(store.files), FileKey, id)
              && disk.dirs == old(disk.dirs) + {identity}
              && disk.blobs == old(disk.blobs)[identity := Dir(old(disk.blobs), identity) - {id}]
    ensures old(store.Valid()) ==> store.Valid()
  {
    var file := Find(store.files, FileKey, id);
    if file.None? {
      return NotFound("File not found");
    }
    disk.RemoveBlob(requestIdentity, id);
    store.RemoveFile(id);
    r := Reply(204, NoContent);
  }

  /** GET /files/<id>/content: the stored bytes under the file's name. A record whose
      blob is missing is a 404 of its own. */
  method DownloadFile(store: Store, disk: Disk, requestIdentity: Option<string>, id: string)
      returns (r: Reply)
    requires disk.Valid()
    modifies disk`dirs, disk`blobs
    ensures disk.Valid()
    ensures id !in Keys(store.files, FileKey) ==> r == NotFound("File not found") && unchanged(disk)
    ensures id in Keys(store.files, FileKey) ==>
              var identity := requestIdentity.GetOr("default");
              && disk.dirs == old(disk.dirs) + {identity}
              && disk.blobs == old(disk.blobs)[identity := Dir(old(disk.blobs), identity)]
              && (id !in Dir(old(disk.blobs), identity) ==> r == NotFound("File content not found"))
              && (id in Dir(old(disk.blobs), identity) ==>
                    r == Reply(200, FileBody(Dir(old(disk.blobs), identity)[id],
                                             Find(store.files, FileKey, id).value.name)))
  {
    var file := Find(store.files, FileKey, id);
    if file.None? {
      return NotFound("File not found");
    }
    var path := disk.FilePath(requestIdentity, id);
    if !disk.Exists(path) {
      return NotFound("File content not found");
    }
    r := Reply(200, FileBody(disk.Read(path), file.value.name));
  }

  /** An uploaded part that does not count as content: missing, or empty. */
  predicate Blank(part: Option<Bytes>) {
    part.None? || part.value == []
  }

  /** The content of a multipart request: the first part that is not blank. */
  function FirstContent(parts: seq<Option<Bytes>>): Option<Bytes> {
    if parts == [] then None
    else if !Blank(parts[0]) then parts[0]
    else FirstContent(parts[1..])
  }

  /** The first non-blank part is what is taken; there is none exactly when every part is
      blank. */
  lemma {:induction false} FirstContentSpec(parts: seq<Option<Bytes>>)
    ensures FirstContent(parts).None? <==> forall i :: 0 <= i < |parts| ==> Blank(parts[i])
    ensures FirstContent(parts).Some? ==>
              exists i :: 0 <= i < |parts| && parts[i] == FirstContent(parts) && !Blank(parts[i])
                          && forall j :: 0 <= j < i ==> Blank(parts[j])
  {
    if parts != [] && Blank(parts[0]) {
      FirstContentSpec(parts[1..]);
      if FirstContent(parts).Some? {
        var i :| 0 <= i < |parts[1..]| && parts[1..][i] == FirstContent(parts) && !Blank(parts[1..][i])
                 && forall j :: 0 <= j < i ==> Blank(parts[1..][j]);
        assert parts[i + 1] == parts[1..][i];
        forall j | 0 <= j < i + 1 ensures Blank(parts[j]) {
          if j > 0 { assert parts[j] == parts[1..][j - 1]; }
        }
      } else {
        forall i | 0 <= i < |parts| ensures Blank(parts[i]) {
          if i > 0 { assert parts[i] == parts[1..][i - 1]; }
        }
      }
    } else if parts != [] {
      assert !Blank(parts[0]);
    }
  }

  /** extract_file_content: walks the parts in order and stops at the first one with
      content. */
  method ExtractFileContent(parts: seq<Option<Bytes>>) returns (content: Option<Bytes>)
    ensures content == FirstContent(parts)
  {
    var k := 0;
    while k < |parts|
      invariant 0 <= k <= |parts|
      invariant FirstContent(parts) == FirstContent(parts[k..])
    {
      assert parts[k..][1..] == parts[k + 1..];
      if !Blank(parts[k]) {
        return parts[k];
      }
      k := k + 1;
    }
    return None;
  }

  /** The `{"entries": [file]}` document of an upload. */
  function Entries(f: File): (j: Json)
    ensures Member(j, "entries") == Some(Arr([FileToDict(f)]))
  {
    Obj(map["entries" := Arr([FileToDict(f)])])
  }

  /** POST /files/content. The name defaults to "unnamed_file" and the parent to the root.
      The parent is checked before the content; the record is stored with version 1 and
      the content's length as its size, and the content goes to the new file's blob. */
  method UploadFile(store: Store, disk: Disk, requestIdentity: Option<string>,
                    name: Option<string>, parentId: Option<string>,
                    parts: seq<Option<Bytes>>, newId: string)
      returns (r: Reply)
    requires disk.Valid()
    requires newId !in Keys(store.files, FileKey)
    modifies store`files, disk`dirs, disk`blobs
    ensures disk.Valid()
    ensures var pid := parentId.GetOr(RootId);
            && (pid !in Keys(store.folders, FolderKey) ==>
                  && r == NotFound("Parent folder not found")
                  && store.files == old(store.files) && unchanged(disk))
            && (pid in Keys(store.folders, FolderKey) && FirstContent(parts).None? ==>
                  && r == Error(400, "bad_request", "No file provided")
                  && store.files == old(store.files) && unchanged(disk))
    ensures var pid := parentId.GetOr(RootId);
            pid in Keys(store.folders, FolderKey) && FirstContent(parts).Some? ==>
              var content := FirstContent(parts).value;
              var f := NewFile(newId, pid, name.GetOr("unnamed_file"), Some(|content|));
              var identity := requestIdentity.GetOr("default");
              && store.files == old(store.files) + [f]
              && disk.dirs == old(disk.dirs) + {identity}
              && disk.blobs == old(disk.blobs)[identity := Dir(old(disk.blobs), identity)[newId := content]]
              && r == Created(Entries(f))
    ensures old(store.Valid()) ==> store.Valid()
  {
    var pid := parentId.GetOr(RootId);
    var folder := Find(store.folders, FolderKey, pid);
    if folder.None? {
      return NotFound("Parent folder not found");
    }
    var content := ExtractFileContent(parts);
    if content.None? {
      return Error(400, "bad_request", "No file provided");
    }
    var f := NewFile(newId, pid, name.GetOr("unnamed_file"), Some(|content.value|));
    store.AddFile(f);
    disk.StoreBlob(requestIdentity, f.id, content.value);
    r := Created(Entries(f));
  }

  /** POST /files/<id>/content: the version goes up by one, the size becomes the new
      content's length, and the blob is replaced. */
  method UploadFileVersion(store: Store, disk: Disk, requestIdentity: Option<string>,
                           id: string, parts: seq<Option<Bytes>>)
      returns (r: Reply)
    requires disk.Valid()
    modifies store`files, disk`dirs, disk`blobs
    ensures disk.Valid()
    ensures id !in Keys(old(store.files), FileKey) ==>
              && r == NotFound("File not found")
              && store.files == old(store.files) && unchanged(disk)
    ensures id in Keys(old(store.files), FileKey) && FirstContent(parts).None? ==>
              && r == Error(400, "bad_request", "No file provided")
              && store.files == old(store.files) && unchanged(disk)
    ensures id in Keys(old(store.files), FileKey) && FirstContent(parts).Some? ==>
              var content := FirstContent(parts).value;
              var i := IndexOf(old(store.files), FileKey, id).value;
              var f := old(store.files)[i].(version := old(store.files)[i].version + 1, size := |content|);
              var identity := requestIdentity.GetOr("default");
              && store.files == old(store.files)[i := f]
              && disk.dirs == old(disk.dirs) + {identity}
              && disk.blobs == old(disk.blobs)[identity := Dir(old(disk.blobs), identity)[id := content]]
              && r == Created(Entries(f))
    ensures Keys(store.files, FileKey) == Keys(old(store.files), FileKey)
    ensures old(store.Valid()) ==> store.Valid()
  {
    var found := IndexOf(store.files, FileKey, id);
    if found.None? {
      return NotFound("File not found");
    }
    var content := ExtractFileContent(parts);
    if content.None? {
      return Error(400, "bad_request", "No file provided");
    }
    var f := WriteVersion(store, disk, requestIdentity, found.value, content.value);
    r := Created(Entries(f));
  }

  /** The writes of a new version: the row at `i` gets the next version number and the
      new size, and the content replaces the row's blob. */
  method WriteVersion(store: Store, disk: Disk, requestIdentity: Option<string>, i: nat, content: Bytes)
      returns (f: File)
    requires disk.Valid() && i < |store.files|
    modifies store`files, disk`dirs, disk`blobs
    ensures f == old(store.files)[i].(version := old(store.files)[i].version + 1, size := |content|)
    ensures store.files == old(store.files)[i := f]
    ensures Keys(store.files, FileKey) == Keys(old(store.files), FileKey)
    ensures old(store.Valid()) ==> store.Valid()
    ensures var identity := requestIdentity.GetOr("default");
            && disk.Valid()
            && disk.dirs == old(disk.dirs) + {identity}
            && disk.blobs == old(disk.blobs)[identity := Dir(old(disk.blobs), identity)[f.id := content]]
  {
    f := store.files[i].(version := store.files[i].version + 1, size := |content|);
    store.SetFile(i, f);
    disk.StoreBlob(requestIdentity, f.id, content);
  }

  /** A new version is a new version number: the version id in the document changes. */
  lemma NewVersionNewVersionId(f: File, size: nat)
    ensures StrAt(Member(FileToDict(f.(version := f.version + 1, size := size)), "file_version").value, "id")
            != StrAt(Member(FileToDict(f), "file_version").value, "id")
  {
    VersionIdsDiffer(f.id, f.version + 1, f.version);
  }

  /** POST /files/<id>/copy. The destination defaults to the source's folder and the name
      to the source's name; the copy starts at version 1 with the source's size, and gets
      the source's bytes when the source has a blob. */
  method CopyFile(store: Store, disk: Disk, requestIdentity: Option<string>, id: string,
                  parentId: Option<string>, name: Option<string>, newId: string)
      returns (r: Reply)
    requires disk.Valid()
    requires newId !in Keys(store.files, FileKey)
    modifies store`files, disk`dirs, disk`blobs
    ensures disk.Valid()
    ensures id !in Keys(old(store.files), FileKey) ==>
              && r == NotFound("File not found")
              && store.files == old(store.files) && unchanged(disk)
    ensures id in Keys(old(store.files), FileKey) ==>
              var src := Find(old(store.files), FileKey, id).value;
              var dest := parentId.GetOr(src.folderId);
              && (dest !in Keys(store.folders, FolderKey) ==>
                    && r == NotFound("Destination folder not found")
                    && store.files == old(store.files) && unchanged(disk))
              && (dest in Keys(store.folders, FolderKey) ==>
                    var copy := NewFile(newId, dest, name.GetOr(src.name), Some(src.size));
                    var identity := requestIdentity.GetOr("default");
                    var dir := Dir(old(disk.blobs), identity);
                    && store.files == old(store.files) + [copy]
                    && disk.dirs == old(disk.dirs) + {identity}
                    && disk.blobs == old(disk.blobs)[identity := if id in dir then dir[newId := dir[id]] else dir]
                    && r == Created(FileToDict(copy)))
    ensures old(store.Valid()) ==> store.Valid()
  {
    var file := Find(store.files, FileKey, id);
    if file.None? {
      return NotFound("File not found");
    }
    var src := file.value;
    var dest := parentId.GetOr(src.folderId);
    var folder := Find(store.folders, FolderKey, dest);
    if folder.None? {
      return NotFound("Destination folder not found");
    }
    var copy := NewFile(newId, dest, name.GetOr(src.name), Some(src.size));
    store.AddFile(copy);
    disk.CopyBlob(requestIdentity, src.id, copy.id);
    r := Created(FileToDict(copy));
  }

  /** A file that takes the requested name in the requested folder. A missing name
      matches no file, since every file has one. */
  predicate NameTaken(f: File, folderId: string, name: Option<string>) {
    f.folderId == folderId && name == Some(f.name)
  }

  /** The 409 document of a preflight check that finds a name in use. */
  function Conflict(name: string, existing: File): (r: Reply)
    ensures r.status == 409 && r.body.JsonBody?
    ensures StrAt(r.body.json, "code") == Some("item_name_in_use")
  {
    Reply(409, JsonBody(Obj(map[
      "type" := Str("error"),
      "code" := Str("item_name_in_use"),
      "message" := Str("Item with name '" + name + "' already exists"),
      "context_info" := Obj(map["conflicts" := Arr([Obj(map["id" := Str(existing.id), "name" := Str(existing.name)])])])])))
  }

  /** POST /files/upload_sessions. The folder (the root by default) must exist; the answer
      is a conflict naming the first file of that folder with the requested name, or an
      upload token. */
  function PreflightCheck(folders: seq<Folder>, files: seq<File>, name: Option<string>,
                          parentId: Option<string>, token: string): (r: Reply)
    ensures var pid := parentId.GetOr(RootId);
            pid !in Keys(folders, FolderKey) ==> r == NotFound("Folder not found")
    ensures var pid := parentId.GetOr(RootId);
            pid in Keys(folders, FolderKey) ==>
              && (r.status == 409 <==> exists f :: f in files && NameTaken(f, pid, name))
              && (r.status == 409 ==> exists i :: 0 <= i < |files| && NameTaken(files[i], pid, name)
                                        && (forall j :: 0 <= j < i ==> !NameTaken(files[j], pid, name))
                                        && r == Conflict(files[i].name, files[i]))
              && (r.status != 409 ==> r == Ok(Obj(map["upload_token" := Str(token)])))
  {
    var pid := parentId.GetOr(RootId);
    if pid !in Keys(folders, FolderKey) then NotFound("Folder not found")
    else match FirstTaken(files, pid, name)
      case None => Ok(Obj(map["upload_token" := Str(token)]))
      case Some(i) => Conflict(files[i].name, files[i])
  }

  /** `filter_by(folder_id=..., name=...).first()`: the position of the first file that
      takes the name. */
  function FirstTaken(files: seq<File>, folderId: string, name: Option<string>): (r: Option<nat>)
    ensures r.None? <==> forall f :: f in files ==> !NameTaken(f, folderId, name)
    ensures r.Some? ==> r.value < |files| && NameTaken(files[r.value], folderId, name)
                        && forall j :: 0 <= j < r.value ==> !NameTaken(files[j], folderId, name)
  {
    if files == [] then None
    else if NameTaken(files[0], folderId, name) then Some(0)
    else match FirstTaken(files[1..], folderId, name)
      case None => None
      case Some(i) => Some(i + 1)
  }
}
