/** What a tenant's data lives in: a `Store` is one box.db database (four tables), a
    `Disk` is the data directory holding one sub-directory per identity, each with its
    box.db file and its directory of uploaded file contents ("blobs"). */
module Storage {
  import opened Common
  import opened Tables
  import opened Models

  function FolderKey(f: Folder): string { f.id }
  function FileKey(f: File): string { f.id }
  function UserKey(u: User): string { u.id }
  function SignRequestKey(r: SignRequest): string { r.id }

  /** The contents of a database: its four tables. */
  datatype Snapshot = Snapshot(
    folders: seq<Folder>,
    files: seq<File>,
    users: seq<User>,
    signRequests: seq<SignRequest>)

  /** The tables as create_all leaves a new database. */
  const EmptyTables: Snapshot := Snapshot([], [], [], [])

  /** The root insert of an identity's first use: folder "0" / "All Files" is added unless
      a folder "0" exists. */
  function WithRoot(t: Snapshot): Snapshot {
    if RootId in Keys(t.folders, FolderKey) then t else t.(folders := t.folders + [Root])
  }

  /** After the root insert folder "0" exists, the rows already there stay in front, no
      other table changes, and the primary key stays unique. */
  lemma WithRootProperties(t: Snapshot)
    ensures RootId in Keys(WithRoot(t).folders, FolderKey)
    ensures Keys(WithRoot(t).folders, FolderKey) == Keys(t.folders, FolderKey) + {RootId}
    ensures t.folders <= WithRoot(t).folders && |WithRoot(t).folders| <= |t.folders| + 1
    ensures WithRoot(t).files == t.files && WithRoot(t).users == t.users
    ensures WithRoot(t).signRequests == t.signRequests
    ensures UniqueKeys(t.folders, FolderKey) ==> UniqueKeys(WithRoot(t).folders, FolderKey)
  {
    AppendKeys(t.folders, FolderKey, Root);
    if RootId !in Keys(t.folders, FolderKey) && UniqueKeys(t.folders, FolderKey) {
      AppendUnique(t.folders, FolderKey, Root);
    }
  }

  /** Setting up an identity a second time adds nothing: the root is never duplicated. */
  lemma WithRootIdempotent(t: Snapshot)
    ensures WithRoot(WithRoot(t)) == WithRoot(t)
  {
    WithRootProperties(t);
  }

  /** A reset leaves exactly what the first use of a new identity creates. */
  lemma ResetLikeFirstUse()
    ensures WithRoot(EmptyTables) == Snapshot([Root], [], [], [])
  {
    assert RootId !in Keys(EmptyTables.folders, FolderKey);
  }

  /** The contents of every database after `identity` has been set up as on its first use:
      the root is added, if absent, to what its database holds, or to empty tables when it
      has none. The other databases keep their contents. */
  function Prepared(m: map<string, Snapshot>, identity: string): map<string, Snapshot> {
    m[identity := WithRoot(if identity in m then m[identity] else EmptyTables)]
  }

  /** `Prepared` for each identity of `names`, in order. */
  function PreparedAll(m: map<string, Snapshot>, names: seq<string>): map<string, Snapshot> {
    if |names| == 0 then m else Prepared(PreparedAll(m, names[..|names| - 1]), names[|names| - 1])
  }

  /** After preparing `names` (in any order, any name any number of times), every named
      database holds what it held (or nothing, when it was missing) plus the root, and every
      other database is as it was. */
  lemma {:induction false} PreparedAllContents(m: map<string, Snapshot>, names: seq<string>)
    ensures forall id :: id in PreparedAll(m, names) <==> id in m || id in names
    ensures forall id :: id in PreparedAll(m, names) ==>
              PreparedAll(m, names)[id] == (if id in names then WithRoot(if id in m then m[id] else EmptyTables)
                                            else m[id])
  {
    if |names| > 0 {
      var init, last := names[..|names| - 1], names[|names| - 1];
      assert names == init + [last];
      PreparedAllContents(m, init);
      var before := PreparedAll(m, init);
      assert PreparedAll(m, names) == Prepared(before, last);
      forall id | id in PreparedAll(m, names)
        ensures PreparedAll(m, names)[id] == (if id in names then WithRoot(if id in m then m[id] else EmptyTables)
                                              else m[id])
      {
        var base := if id in m then m[id] else EmptyTables;
        if id == last {
          if last in init {
            WithRootProperties(base);
            assert before[last] == WithRoot(base);
            assert WithRoot(WithRoot(base)) == WithRoot(base);
          }
        } else {
          assert id in names <==> id in init;
          assert PreparedAll(m, names)[id] == before[id];
        }
      }
    }
  }

  /** Preparing one more identity after the first `k`. */
  lemma PreparedAllStep(m: map<string, Snapshot>, names: seq<string>, k: nat)
    requires k < |names|
    ensures PreparedAll(m, names[..k + 1]) == Prepared(PreparedAll(m, names[..k]), names[k])
  {
    assert names[..k + 1][..k] == names[..k];
  }

  /** `Prepared` in two steps: the database is opened (created empty when missing), then
      the root is added. */
  lemma PreparedInSteps(m: map<string, Snapshot>, identity: string)
    ensures var afterOpen := m[identity := (if identity in m then m[identity] else EmptyTables)];
            Prepared(m, identity) == afterOpen[identity := WithRoot(afterOpen[identity])]
  {
  }

  /** Setting up an identity whose database already holds folder "0" changes nothing. */
  lemma PreparedWithRoot(m: map<string, Snapshot>, identity: string)
    requires identity in m && RootId in Keys(m[identity].folders, FolderKey)
    ensures Prepared(m, identity) == m
  {
  }

  /** One tenant database. The tables hold their rows in rowid order. */
  class Store {
    var folders: seq<Folder>
    var files: seq<File>
    var users: seq<User>
    var signRequests: seq<SignRequest>

    /** The primary-key constraint of every table. */
    predicate Valid()
      reads this
    {
      && UniqueKeys(folders, FolderKey)
      && UniqueKeys(files, FileKey)
      && UniqueKeys(users, UserKey)
      && UniqueKeys(signRequests, SignRequestKey)
    }

    /** Folder "0" exists (its name and parent may have been changed since). */
    predicate HasRoot()
      reads this
    {
      RootId in Keys(folders, FolderKey)
    }

    function Contents(): Snapshot
      reads this`folders, this`files, this`users, this`signRequests
    {
      Snapshot(folders, files, users, signRequests)
    }

    /** A new database file after create_all: four empty tables. */
    constructor ()
      ensures Contents() == EmptyTables
      ensures Valid()
    {
      folders, files, users, signRequests := [], [], [], [];
    }

    /** Adds the root folder "0" / "All Files" unless a folder "0" is already there. */
    method InsertRootIfAbsent()
      modifies this`folders
      ensures Contents() == WithRoot(old(Contents()))
      ensures HasRoot()
      ensures old(Valid()) ==> Valid()
    {
      WithRootProperties(Contents());
      var existing := Find(folders, FolderKey, RootId);
      if existing.None? {
        folders := folders + [Root];
      }
    }

    /** session.add plus commit of a new folder row. */
    method AddFolder(f: Folder)
      requires f.id !in Keys(folders, FolderKey)
      modifies this`folders
      ensures folders == old(folders) + [f]
      ensures Keys(folders, FolderKey) == Keys(old(folders), FolderKey) + {f.id}
      ensures old(Valid()) ==> Valid()
    {
      if Valid() {
        AppendUnique(folders, FolderKey, f);
      }
      AppendKeys(folders, FolderKey, f);
      folders := folders + [f];
    }

    /** session.add plus commit of a new file row. */
    method AddFile(f: File)
      requires f.id !in Keys(files, FileKey)
      modifies this`files
      ensures files == old(files) + [f]
      ensures Keys(files, FileKey) == Keys(old(files), FileKey) + {f.id}
      ensures old(Valid()) ==> Valid()
    {
      if Valid() {
        AppendUnique(files, FileKey, f);
      }
      AppendKeys(files, FileKey, f);
      files := files + [f];
    }

    /** An UPDATE of the file row at position `i` that keeps its id. */
    method SetFile(i: nat, f: File)
      requires i < |files| && f.id == files[i].id
      modifies this`files
      ensures files == old(files)[i := f]
      ensures Keys(files, FileKey) == Keys(old(files), FileKey)
      ensures old(Valid()) ==> Valid()
    {
      UpdateKeys(files, FileKey, i, f);
      files := files[i := f];
    }

    /** session.delete plus commit of the file row `id`. */
    method RemoveFile(id: string)
      modifies this`files
      ensures files == WithoutKey(old(files), FileKey, id)
      ensures old(Valid()) ==> Valid()
    {
      if Valid() {
        WithoutKeyKeys(files, FileKey, id);
      }
      files := WithoutKey(files, FileKey, id);
    }

    /** session.add plus commit of a new user row. */
    method AddUser(u: User)
      requires u.id !in Keys(users, UserKey)
      modifies this`users
      ensures users == old(users) + [u]
      ensures Keys(users, UserKey) == Keys(old(users), UserKey) + {u.id}
      ensures old(Valid()) ==> Valid()
    {
      if Valid() {
        AppendUnique(users, UserKey, u);
      }
      AppendKeys(users, UserKey, u);
      users := users + [u];
    }

    /** session.delete plus commit of the user row `id`. */
    method RemoveUser(id: string)
      modifies this`users
      ensures users == WithoutKey(old(users), UserKey, id)
      ensures old(Valid()) ==> Valid()
    {
      if Valid() {
        WithoutKeyKeys(users, UserKey, id);
      }
      users := WithoutKey(users, UserKey, id);
    }

    /** session.add plus commit of a new sign-request row. */
    method AddSignRequest(sr: SignRequest)
      requires sr.id !in Keys(signRequests, SignRequestKey)
      modifies this`signRequests
      ensures signRequests == old(signRequests) + [sr]
      ensures Keys(signRequests, SignRequestKey) == Keys(old(signRequests), SignRequestKey) + {sr.id}
      ensures old(Valid()) ==> Valid()
    {
      if Valid() {
        AppendUnique(signRequests, SignRequestKey, sr);
      }
      AppendKeys(signRequests, SignRequestKey, sr);
      signRequests := signRequests + [sr];
    }

    /** drop_all, create_all and the root insert of a reset: only the root folder is left. */
    method Recreate()
      modifies this
      ensures Contents() == Snapshot([Root], [], [], [])
      ensures Valid() && HasRoot()
    {
      folders, files, users, signRequests := [Root], [], [], [];
      assert FolderKey(folders[0]) == RootId;
    }
  }

  /** The entries of an identity's blob directory; a missing directory has none. */
  function Dir(blobs: map<string, map<string, Bytes>>, identity: string): map<string, Bytes> {
    if identity in blobs then blobs[identity] else map[]
  }

  /** A path `<data>/<identity>/files/<fileId>` in an identity's blob directory. */
  datatype BlobPath = BlobPath(identity: string, fileId: string)

  /** The data directory. `dirs` are the identity directories, `databases` the box.db
      files among them (a database survives the process that created it), and `blobs` the
      identity directories that have a `files` sub-directory, with its contents. */
  class Disk {
    var dirs: set<string>
    var databases: map<string, Store>
    var blobs: map<string, map<string, Bytes>>

    /** Every database and blob directory sits inside an identity directory, and distinct
        identities have distinct database files (identities are taken to name different
        directories; paths are not normalised). */
    predicate Valid()
      reads this
    {
      && databases.Keys <= dirs
      && blobs.Keys <= dirs
      && (forall a, b :: a in databases && b in databases && a != b ==> databases[a] != databases[b])
    }

    constructor ()
      ensures dirs == {} && databases == map[] && blobs == map[]
      ensures Valid()
    {
      dirs, databases, blobs := {}, map[], map[];
    }

    /** mkdir(parents=True, exist_ok=True) of an identity directory. */
    method MakeDir(identity: string)
      requires Valid()
      modifies this`dirs
      ensures dirs == old(dirs) + {identity}
      ensures Valid()
    {
      dirs := dirs + {identity};
    }

    /** create_engine plus create_all on `<identity>/box.db`: the existing database, or
        a new one with empty tables when there is no such file yet. */
    method OpenDatabase(identity: string) returns (db: Store)
      requires Valid() && identity in dirs
      modifies this`databases
      ensures identity in old(databases) ==> databases == old(databases) && db == old(databases)[identity]
      ensures identity !in old(databases) ==>
                && fresh(db) && databases == old(databases)[identity := db]
                && db.Contents() == EmptyTables
      ensures Valid()
      ensures AllContents() == old(AllContents())[identity := (if identity in old(databases) then old(AllContents())[identity] else EmptyTables)]
    {
      if identity in databases {
        db := databases[identity];
      } else {
        db := new Store();
        databases := databases[identity := db];
      }
    }

    /** What each database on disk holds. */
    function AllContents(): map<string, Snapshot>
      reads this`databases, databases.Values`folders, databases.Values`files, databases.Values`users,
            databases.Values`signRequests
    {
      map id | id in databases :: databases[id].Contents()
    }

    /** The database of `identity`, as a frame. */
    function DatabaseOf(identity: string): set<Store>
      reads this
    {
      if identity in databases then {databases[identity]} else {}
    }

    /** The first-use set-up of an identity: its directory is made, its database opened
        (the one already on disk, or a new empty one), and the root folder added unless a
        folder "0" is there. */
    method PrepareDatabase(identity: string) returns (db: Store)
      requires Valid()
      modifies this`dirs, this`databases, DatabaseOf(identity)
      ensures Valid()
      ensures dirs == old(dirs) + {identity}
      ensures identity in databases && db == databases[identity] && db.HasRoot()
      ensures identity in old(databases) ==>
                && databases == old(databases) && db == old(databases[identity])
                && db.Contents() == WithRoot(old(databases[identity].Contents()))
                && (old(databases[identity].Valid()) ==> db.Valid())
      ensures identity !in old(databases) ==>
                && fresh(db) && databases == old(databases)[identity := db]
                && db.Contents() == WithRoot(EmptyTables) && db.Valid()
      ensures AllContents() == Prepared(old(AllContents()), identity)
    {
      PreparedInSteps(AllContents(), identity);
      MakeDir(identity);
      db := OpenDatabase(identity);
      InsertRoot(identity);
    }

    /** The root insert on the database of `identity`; the other databases are untouched. */
    method InsertRoot(identity: string)
      requires Valid() && identity in databases
      modifies DatabaseOf(identity)
      ensures databases[identity].Contents() == WithRoot(old(databases[identity].Contents()))
      ensures databases[identity].HasRoot()
      ensures old(databases[identity].Valid()) ==> databases[identity].Valid()
      ensures AllContents() == old(AllContents())[identity := WithRoot(old(AllContents())[identity])]
    {
      databases[identity].InsertRootIfAbsent();
      forall id | id in databases && id != identity
        ensures databases[id].Contents() == old(databases[id].Contents())
      {
      }
      assert AllContents() == old(AllContents())[identity := WithRoot(old(AllContents())[identity])];
    }

    /** get_files_dir: the blob directory of the request's identity ("default" when the
        request has none), created when it is missing. */
    method FilesDir(requestIdentity: Option<string>) returns (identity: string)
      requires Valid()
      modifies this`dirs, this`blobs
      ensures identity == requestIdentity.GetOr("default")
      ensures dirs == old(dirs) + {identity}
      ensures blobs == old(blobs)[identity := Dir(old(blobs), identity)]
      ensures Valid()
    {
      identity := requestIdentity.GetOr("default");
      dirs := dirs + {identity};
      if identity !in blobs {
        blobs := blobs[identity := map[]];
      }
    }

    /** get_file_path: the blob path of a file id, after making sure its directory exists. */
    method FilePath(requestIdentity: Option<string>, fileId: string) returns (p: BlobPath)
      requires Valid()
      modifies this`dirs, this`blobs
      ensures p == BlobPath(requestIdentity.GetOr("default"), fileId)
      ensures dirs == old(dirs) + {p.identity}
      ensures blobs == old(blobs)[p.identity := Dir(old(blobs), p.identity)]
      ensures Valid()
    {
      var identity := FilesDir(requestIdentity);
      p := BlobPath(identity, fileId);
    }

    /** get_file_path(id), then unlink when the blob exists. */
    method RemoveBlob(requestIdentity: Option<string>, fileId: string)
      requires Valid()
      modifies this`dirs, this`blobs
      ensures var identity := requestIdentity.GetOr("default");
              && dirs == old(dirs) + {identity}
              && blobs == old(blobs)[identity := Dir(old(blobs), identity) - {fileId}]
      ensures Valid()
    {
      var path := FilePath(requestIdentity, fileId);
      if Exists(path) {
        Unlink(path);
      }
      assert blobs[path.identity] == Dir(old(blobs), path.identity) - {fileId};
    }

    /** get_file_path(id).write_bytes(content). */
    method StoreBlob(requestIdentity: Option<string>, fileId: string, content: Bytes)
      requires Valid()
      modifies this`dirs, this`blobs
      ensures var identity := requestIdentity.GetOr("default");
              && dirs == old(dirs) + {identity}
              && blobs == old(blobs)[identity := Dir(old(blobs), identity)[fileId := content]]
      ensures Valid()
    {
      var path := FilePath(requestIdentity, fileId);
      WriteBytes(path, content);
    }

    /** The copy of a blob: shutil.copy2 from the source's path to the destination's,
        when the source exists. */
    method CopyBlob(requestIdentity: Option<string>, srcId: string, dstId: string)
      requires Valid()
      modifies this`dirs, this`blobs
      ensures var identity := requestIdentity.GetOr("default");
              var dir := Dir(old(blobs), identity);
              && dirs == old(dirs) + {identity}
              && blobs == old(blobs)[identity := if srcId in dir then dir[dstId := dir[srcId]] else dir]
      ensures Valid()
    {
      var src := FilePath(requestIdentity, srcId);
      var dst := FilePath(requestIdentity, dstId);
      if Exists(src) {
        Copy(src, dst);
      }
    }

    predicate Exists(p: BlobPath)
      reads this
    {
      p.identity in blobs && p.fileId in blobs[p.identity]
    }

    /** Path.write_bytes: the blob is created or fully replaced. */
    method WriteBytes(p: BlobPath, content: Bytes)
      requires Valid() && p.identity in blobs
      modifies this`blobs
      ensures blobs == old(blobs)[p.identity := old(blobs)[p.identity][p.fileId := content]]
      ensures Valid()
    {
      blobs := blobs[p.identity := blobs[p.identity][p.fileId := content]];
    }

    /** Path.unlink of an existing blob. */
    method Unlink(p: BlobPath)
      requires Valid() && Exists(p)
      modifies this`blobs
      ensures blobs == old(blobs)[p.identity := old(blobs)[p.identity] - {p.fileId}]
      ensures Valid()
    {
      blobs := blobs[p.identity := blobs[p.identity] - {p.fileId}];
    }

    /** shutil.copy2 of an existing blob: the destination gets the same bytes. */
    method Copy(src: BlobPath, dst: BlobPath)
      requires Valid() && Exists(src) && dst.identity in blobs
      modifies this`blobs
      ensures blobs == old(blobs)[dst.identity := old(blobs)[dst.identity][dst.fileId := old(blobs)[src.identity][src.fileId]]]
      ensures Valid()
    {
      var content := blobs[src.identity][src.fileId];
      blobs := blobs[dst.identity := blobs[dst.identity][dst.fileId := content]];
    }

    /** Unlinks every entry of an identity's blob directory, one at a time; the
        directory itself stays. */
    method ClearFiles(identity: string)
      requires Valid() && identity in blobs
      modifies this`blobs
      ensures blobs == old(blobs)[identity := map[]]
      ensures Valid()
    {
      var remaining := blobs[identity].Keys;
      while remaining != {}
        invariant Valid()
        invariant identity in blobs && blobs[identity].Keys == remaining
        invariant blobs == old(blobs)[identity := blobs[identity]]
        decreases remaining
      {
        var name :| name in remaining;
        Unlink(BlobPath(identity, name));
        remaining := remaining - {name};
      }
      assert blobs[identity] == map[];
    }

    /** Reading a blob for send_file. */
    function Read(p: BlobPath): Bytes
      requires Exists(p)
      reads this
    {
      blobs[p.identity][p.fileId]
    }
  }
}
