/** The admin endpoints: the per-identity reset and the data behind the /_browse page (each
    identity's folder tree, users and sign requests). */
module Admin {
  import opened Common
  import opened Tables
  import opened Models
  import opened Storage
  import opened Db
  import opened Http
  import opened Listing
  import opened FolderRoutes

  // ---------------------------------------------------------------------------------
  // Reset

  /** The identity a reset targets: the one in the request body or form when it is a
      non-empty string, else the request's own identity, else "default". */
  function ResetTarget(requested: Option<string>, requestIdentity: Option<string>): (identity: string)
    ensures Truthy(requested) ==> identity == requested.value
    ensures !Truthy(requested) ==> identity == requestIdentity.GetOr("default")
  {
    if Truthy(requested) then requested.value else requestIdentity.GetOr("default")
  }

  /** POST /_reset. The identity's data is reset once; a JSON request gets a JSON answer,
      a form post is sent back to /_browse. */
  method Reset(registry: Registry, isJson: bool, requested: Option<string>, requestIdentity: Option<string>)
      returns (r: Reply)
    requires registry.Valid()
    modifies registry`engines, registry.EngineOf(ResetTarget(requested, requestIdentity)), registry.disk`blobs
    ensures registry.Valid()
    ensures var identity := ResetTarget(requested, requestIdentity);
            && (identity in old(registry.engines) ==>
                  && identity in registry.engines
                  && registry.engines[identity].engine == old(registry.engines[identity].engine)
                  && fresh(registry.engines[identity].sessionClass)
                  && registry.engines == old(registry.engines)[identity := registry.engines[identity]]
                  && registry.engines[identity].engine.Contents() == WithRoot(EmptyTables))
            && (identity !in old(registry.engines) ==> registry.engines == old(registry.engines))
            && registry.disk.blobs == (if identity in old(registry.disk.blobs)
                                       then old(registry.disk.blobs)[identity := map[]]
                                       else old(registry.disk.blobs))
            && r == (if isJson then Ok(Obj(map["status" := Str("reset complete"), "identity" := Str(identity)]))
                     else Reply(302, Redirect("/_browse")))
  {
    var identity := ResetTarget(requested, requestIdentity);
    registry.ResetIdentityData(identity);
    if isJson {
      r := Ok(Obj(map["status" := Str("reset complete"), "identity" := Str(identity)]));
    } else {
      r := Reply(302, Redirect("/_browse"));
    }
  }

  // ---------------------------------------------------------------------------------
  // Folder trees

  datatype FileEntry = FileEntry(id: string, name: string, size: nat)

  /** `{"id", "name", "files", "children"}` of one folder. */
  datatype Tree = Tree(id: string, name: string, files: seq<FileEntry>, children: seq<Tree>)

  function FileEntries(files: seq<File>): (r: seq<FileEntry>)
    ensures |r| == |files|
    ensures forall k :: 0 <= k < |files| ==> r[k] == FileEntry(files[k].id, files[k].name, files[k].size)
  {
    seq(|files|, k requires 0 <= k < |files| => FileEntry(files[k].id, files[k].name, files[k].size))
  }

  /** _get_tree of folder `f`, descending at most `fuel` levels. None stands for a tree
      deeper than the fuel; a folder that is its own ancestor has no finite tree. */
  function GetTree(folders: seq<Folder>, files: seq<File>, f: Folder, fuel: nat): (r: Option<Tree>)
    decreases fuel, 0
  {
    if fuel == 0 then None
    else match ChildTrees(folders, files, Children(folders, f.id), fuel - 1)
      case None => None
      case Some(children) => Some(Tree(f.id, f.name, FileEntries(FilesIn(files, f.id)), children))
  }

  function ChildTrees(folders: seq<Folder>, files: seq<File>, cs: seq<Folder>, fuel: nat): (r: Option<seq<Tree>>)
    decreases fuel, |cs|
  {
    if cs == [] then Some([])
    else match (GetTree(folders, files, cs[0], fuel), ChildTrees(folders, files, cs[1..], fuel))
      case (Some(t), Some(ts)) => Some([t] + ts)
      case _ => None
  }

  /** A tree is the folder's own id and name, its own files, and one subtree per child
      folder, in table order. */
  lemma {:induction false} GetTreeShape(folders: seq<Folder>, files: seq<File>, f: Folder, fuel: nat)
    requires GetTree(folders, files, f, fuel).Some?
    ensures var t := GetTree(folders, files, f, fuel).value;
            && t.id == f.id && t.name == f.name
            && t.files == FileEntries(FilesIn(files, f.id))
            && |t.children| == |Children(folders, f.id)|
            && forall k :: 0 <= k < |t.children| ==>
                 Some(t.children[k]) == GetTree(folders, files, Children(folders, f.id)[k], fuel - 1)
  {
    ChildTreesShape(folders, files, Children(folders, f.id), fuel - 1);
  }

  lemma {:induction false} ChildTreesShape(folders: seq<Folder>, files: seq<File>, cs: seq<Folder>, fuel: nat)
    ensures ChildTrees(folders, files, cs, fuel).Some? <==>
              forall k :: 0 <= k < |cs| ==> GetTree(folders, files, cs[k], fuel).Some?
    ensures ChildTrees(folders, files, cs, fuel).Some? ==>
              var ts := ChildTrees(folders, files, cs, fuel).value;
              && |ts| == |cs|
              && forall k :: 0 <= k < |cs| ==> Some(ts[k]) == GetTree(folders, files, cs[k], fuel)
    decreases |cs|
  {
    if cs != [] {
      ChildTreesShape(folders, files, cs[1..], fuel);
      var head := GetTree(folders, files, cs[0], fuel);
      var rest := ChildTrees(folders, files, cs[1..], fuel);
      assert ChildTrees(folders, files, cs, fuel)
             == if head.Some? && rest.Some? then Some([head.value] + rest.value) else None;
      assert forall k :: 0 < k < |cs| ==> cs[k] == cs[1..][k - 1];
    }
  }

  /** More fuel builds the same tree: the fuel only bounds the depth. */
  lemma {:induction false} GetTreeMoreFuel(folders: seq<Folder>, files: seq<File>, f: Folder, fuel: nat, more: nat)
    requires GetTree(folders, files, f, fuel).Some? && fuel <= more
    ensures GetTree(folders, files, f, more) == GetTree(folders, files, f, fuel)
    decreases fuel, 0
  {
    ChildTreesMoreFuel(folders, files, Children(folders, f.id), fuel - 1, more - 1);
  }

  lemma {:induction false} ChildTreesMoreFuel(folders: seq<Folder>, files: seq<File>, cs: seq<Folder>, fuel: nat, more: nat)
    requires ChildTrees(folders, files, cs, fuel).Some? && fuel <= more
    ensures ChildTrees(folders, files, cs, more) == ChildTrees(folders, files, cs, fuel)
    decreases fuel, |cs|
  {
    if cs != [] {
      GetTreeMoreFuel(folders, files, cs[0], fuel, more);
      ChildTreesMoreFuel(folders, files, cs[1..], fuel, more);
    }
  }

  /** A folder that is its own parent (an update can make one) never yields a tree: the
      recursion does not end, whatever the fuel. */
  lemma {:induction false} SelfParentHasNoTree(folders: seq<Folder>, files: seq<File>, f: Folder, fuel: nat)
    requires f in folders && f.parentId == Some(f.id)
    ensures GetTree(folders, files, f, fuel).None?
  {
    if fuel > 0 {
      var cs := Children(folders, f.id);
      assert f in cs;
      var k :| 0 <= k < |cs| && cs[k] == f;
      SelfParentHasNoTree(folders, files, f, fuel - 1);
      ChildTreesShape(folders, files, cs, fuel - 1);
    }
  }

  /** The placeholder tree of a database without folder "0". */
  const EmptyTree: Tree := Tree(RootId, "Empty", [], [])

  /** The tree /_browse shows for a database: the tree under folder "0", or the
      placeholder when the database has no folder "0". */
  function IdentityTree(folders: seq<Folder>, files: seq<File>, fuel: nat): (r: Option<Tree>)
    ensures RootId !in Keys(folders, FolderKey) ==> r == Some(EmptyTree)
    ensures RootId in Keys(folders, FolderKey) ==>
              exists root :: root in folders && root.id == RootId && r == GetTree(folders, files, root, fuel)
  {
    match Find(folders, FolderKey, RootId)
    case None => Some(EmptyTree)
    case Some(root) => GetTree(folders, files, root, fuel)
  }

  // ---------------------------------------------------------------------------------
  // Identity data

  /** `{"name", "tree", "users", "sign_requests"}` of one identity. */
  datatype IdentityData = IdentityData(name: string, tree: Tree, users: seq<Json>, signRequests: seq<Json>)

  /** `{"id", "name", "email"}` of a user. */
  function UserSummary(u: User): Json {
    Obj(map["id" := Str(u.id), "name" := Str(u.name), "email" := OptStr(u.email)])
  }

  /** `{"id", "status", "signers"}` of a sign request; a missing signer list shows as []. */
  function SignRequestSummary(sr: SignRequest): Json {
    Obj(map["id" := Str(sr.id), "status" := Str(sr.status),
            "signers" := Arr(SignersToJson(sr.signers.GetOr([])))])
  }

  /** The identity data of a database, None when its tree is deeper than the fuel. */
  function IdentityDataOf(identity: string, t: Snapshot, fuel: nat): (d: Option<IdentityData>)
    ensures d.None? <==> IdentityTree(t.folders, t.files, fuel).None?
    ensures d.Some? ==> d.value.name == identity && Some(d.value.tree) == IdentityTree(t.folders, t.files, fuel)
    ensures d.Some? ==> |d.value.users| == |t.users| && |d.value.signRequests| == |t.signRequests|
    ensures d.Some? ==> forall k :: 0 <= k < |t.users| ==> d.value.users[k] == UserSummary(t.users[k])
    ensures d.Some? ==> forall k :: 0 <= k < |t.signRequests| ==>
              d.value.signRequests[k] == SignRequestSummary(t.signRequests[k])
  {
    match IdentityTree(t.folders, t.files, fuel)
    case None => None
    case Some(tree) =>
      Some(IdentityData(identity, tree,
        seq(|t.users|, k requires 0 <= k < |t.users| => UserSummary(t.users[k])),
        seq(|t.signRequests|, k requires 0 <= k < |t.signRequests| => SignRequestSummary(t.signRequests[k]))))
  }

  /** _get_identity_data: the identity's session factory (its database is prepared on
      first use), one session for reading, closed at the end. */
  method GetIdentityData(registry: Registry, identity: string, fuel: nat)
      returns (data: Option<IdentityData>, ghost session: Session)
    requires registry.Valid()
    modifies registry`engines, registry.disk`dirs, registry.disk`databases, registry.disk.DatabaseOf(identity)
    ensures registry.Valid() && identity in registry.engines
    ensures registry.engines == old(registry.engines)[identity := registry.engines[identity]]
    ensures fresh(session) && session.bind == registry.engines[identity].engine && session.closeCount == 1
    ensures data == IdentityDataOf(identity, registry.engines[identity].engine.Contents(), fuel)
    ensures registry.disk.databases == old(registry.disk.databases)[identity := registry.engines[identity].engine]
    ensures identity in old(registry.disk.databases) ==>
              registry.engines[identity].engine == old(registry.disk.databases[identity])
    ensures identity !in old(registry.disk.databases) ==> fresh(registry.engines[identity].engine)
    ensures registry.disk.AllContents() == Prepared(old(registry.disk.AllContents()), identity)
    ensures data == IdentityDataOf(identity, Prepared(old(registry.disk.AllContents()), identity)[identity], fuel)
  {
    var s := registry.OpenSession(identity);
    data := IdentityDataOf(identity, s.bind.Contents(), fuel);
    assert registry.disk.AllContents()[identity] == s.bind.Contents();
    registry.CloseSession(s);
    session := s;
  }

  /** The data of the identities read so far: each read identity is cached, and its entry
      is what its database holds now. */
  predicate ReadSoFar(registry: Registry, names: seq<string>, identities: seq<Option<IdentityData>>, fuel: nat)
    requires registry.Valid() && |identities| <= |names|
    reads registry, registry.disk, registry.disk.databases.Values
  {
    forall j {:trigger ReadAs(registry, names[j], identities[j], fuel)} :: 0 <= j < |identities| ==>
      ReadAs(registry, names[j], identities[j], fuel)
  }

  /** `data` is what reading `name` gives now: the identity is cached and `data` is the
      identity data of its database. */
  predicate ReadAs(registry: Registry, name: string, data: Option<IdentityData>, fuel: nat)
    requires registry.Valid()
    reads registry, registry.disk, registry.disk.databases.Values
  {
    && name in registry.engines
    && data == IdentityDataOf(name, registry.engines[name].engine.Contents(), fuel)
  }

  /** An identity that was not read: it is cached, and has a database, exactly when it did
      before (`cached`, `databases`), and the database is the same object. */
  predicate NotRead(registry: Registry, id: string, cached: set<string>, databases: map<string, Store>)
    reads registry, registry.disk
  {
    && (id in registry.engines <==> id in cached)
    && (id in registry.disk.databases <==> id in databases)
    && (id in databases ==> registry.disk.databases[id] == databases[id])
  }

  /** One step of /_browse: reads the next identity, and the ones read before stay as read. */
  method ReadNext(registry: Registry, names: seq<string>, identities: seq<Option<IdentityData>>, fuel: nat)
      returns (more: seq<Option<IdentityData>>)
    requires registry.Valid() && Distinct(names) && |identities| < |names|
    requires ReadSoFar(registry, names, identities, fuel)
    modifies registry`engines, registry.disk`dirs, registry.disk`databases, registry.disk.DatabaseOf(names[|identities|])
    ensures registry.Valid() && |more| == |identities| + 1 && more[..|identities|] == identities
    ensures ReadSoFar(registry, names, more, fuel)
    ensures forall j :: |more| <= j < |names| ==> NotRead(registry, names[j], old(registry.engines.Keys), old(registry.disk.databases))
    ensures registry.disk.AllContents() == Prepared(old(registry.disk.AllContents()), names[|identities|])
  {
    var data;
    ghost var session;
    data, session := GetIdentityData(registry, names[|identities|], fuel);
    more := identities + [data];
    forall j | 0 <= j < |more|
      ensures ReadAs(registry, names[j], more[j], fuel)
    {
      if j < |identities| {
        assert names[j] != names[|identities|];
        assert old(ReadAs(registry, names[j], identities[j], fuel));
        ghost var entry := old(registry.engines[names[j]]);
        assert registry.engines[names[j]] == entry;
        assert registry.disk.AllContents()[names[j]] == old(registry.disk.AllContents())[names[j]];
        assert entry.engine.Contents() == old(entry.engine.Contents());
        assert more[j] == identities[j];
      } else {
        assert more[j] == data;
      }
    }
    forall j | |more| <= j < |names|
      ensures NotRead(registry, names[j], old(registry.engines.Keys), old(registry.disk.databases))
    {
      assert names[j] != names[|identities|];
    }
  }

  /** The state of /_browse after reading `identities`: every entry but possibly the last
      is some data and the last is None exactly when `failed`; the read identities are
      cached with their data, the unread ones are as they were (`cached`, `databases`),
      and every read database is prepared (`contents` is what the databases held before). */
  predicate Browsing(registry: Registry, names: seq<string>, identities: seq<Option<IdentityData>>, failed: bool,
                     fuel: nat, cached: set<string>, databases: map<string, Store>, contents: map<string, Snapshot>)
    reads registry, registry.disk, registry.disk.databases.Values
  {
    && |identities| <= |names|
    && (!failed ==> forall i :: 0 <= i < |identities| ==> identities[i].Some?)
    && (failed ==> 0 < |identities| && identities[|identities| - 1].None?
                   && forall i :: 0 <= i < |identities| - 1 ==> identities[i].Some?)
    && registry.Valid()
    && ReadSoFar(registry, names, identities, fuel)
    && (forall i :: |identities| <= i < |names| ==> NotRead(registry, names[i], cached, databases))
    && registry.disk.AllContents() == PreparedAll(contents, names[..|identities|])
  }

  /** Reading one more identity (ReadNext's outcome) keeps `Browsing`. */
  lemma BrowsingStep(registry: Registry, names: seq<string>, before: seq<Option<IdentityData>>,
                     after: seq<Option<IdentityData>>, fuel: nat, cached: set<string>,
                     databases: map<string, Store>, contents: map<string, Snapshot>)
    requires |before| < |names| && |after| == |before| + 1 && after[..|before|] == before
    requires forall i :: 0 <= i < |before| ==> before[i].Some?
    requires registry.Valid() && ReadSoFar(registry, names, after, fuel)
    requires forall j :: |after| <= j < |names| ==> NotRead(registry, names[j], cached, databases)
    requires registry.disk.AllContents() == Prepared(PreparedAll(contents, names[..|before|]), names[|before|])
    ensures Browsing(registry, names, after, after[|before|].None?, fuel, cached, databases, contents)
  {
    var k := |before|;
    PreparedAllStep(contents, names, k);
    assert names[..|after|] == names[..k + 1];
    forall i | 0 <= i < k
      ensures after[i].Some?
    {
      assert after[i] == after[..k][i];
    }
  }

  /** What `Browsing` says once the loop stops: every name is read, or the last read one
      failed. */
  lemma BrowsingDone(registry: Registry, names: seq<string>, identities: seq<Option<IdentityData>>, failed: bool,
                     fuel: nat, cached: set<string>, databases: map<string, Store>, contents: map<string, Snapshot>)
    requires Browsing(registry, names, identities, failed, fuel, cached, databases, contents)
    requires |identities| == |names| || failed
    ensures registry.Valid() && |identities| <= |names|
    ensures forall i :: 0 <= i < |identities| - 1 ==> identities[i].Some?
    ensures |identities| < |names| ==> 0 < |identities| && identities[|identities| - 1].None?
    ensures forall i :: 0 <= i < |identities| ==>
              && names[i] in registry.engines
              && identities[i] == IdentityDataOf(names[i], registry.engines[names[i]].engine.Contents(), fuel)
    ensures forall i :: |identities| <= i < |names| ==> NotRead(registry, names[i], cached, databases)
    ensures registry.disk.AllContents() == PreparedAll(contents, names[..|identities|])
  {
    forall i | 0 <= i < |identities|
      ensures names[i] in registry.engines
      ensures identities[i] == IdentityDataOf(names[i], registry.engines[names[i]].engine.Contents(), fuel)
    {
      assert ReadAs(registry, names[i], identities[i], fuel);
    }
  }

  /** One turn of the /_browse loop: the next identity is read, and `failed` says whether
      its tree could not be built. */
  method BrowseStep(registry: Registry, names: seq<string>, identities: seq<Option<IdentityData>>, fuel: nat,
                    ghost cached: set<string>, ghost databases: map<string, Store>, ghost contents: map<string, Snapshot>)
      returns (more: seq<Option<IdentityData>>, failed: bool)
    requires Distinct(names) && |identities| < |names|
    requires Browsing(registry, names, identities, false, fuel, cached, databases, contents)
    modifies registry`engines, registry.disk`dirs, registry.disk`databases, registry.disk.DatabaseOf(names[|identities|])
    ensures |more| == |identities| + 1 && more[..|identities|] == identities
    ensures failed == more[|identities|].None?
    ensures Browsing(registry, names, more, failed, fuel, cached, databases, contents)
  {
    more := ReadNext(registry, names, identities, fuel);
    failed := more[|identities|].None?;
    BrowsingStep(registry, names, identities, more, fuel, cached, databases, contents);
  }

  /** The /_browse loop over `names`: reads them in order until one fails. */
  method ReadAll(registry: Registry, names: seq<string>, fuel: nat)
      returns (identities: seq<Option<IdentityData>>, failed: bool)
    requires registry.Valid() && Distinct(names)
    modifies registry`engines, registry.disk`dirs, registry.disk`databases, registry.disk.databases.Values
    ensures |identities| == |names| || failed
    ensures Browsing(registry, names, identities, failed, fuel, old(registry.engines.Keys),
                     old(registry.disk.databases), old(registry.disk.AllContents()))
  {
    identities := [];
    failed := false;
    while |identities| < |names| && !failed
      invariant Browsing(registry, names, identities, failed, fuel, old(registry.engines.Keys),
                         old(registry.disk.databases), old(registry.disk.AllContents()))
      decreases |names| - |identities|
    {
      identities, failed := BrowseStep(registry, names, identities, fuel, old(registry.engines.Keys),
                                       old(registry.disk.databases), old(registry.disk.AllContents()));
    }
  }

  /** /_browse: the data of every identity directory, in name order. Reading an identity
      opens (and on first use prepares) its database. An identity whose tree cannot be
      built (None, the RecursionError) ends the listing: the page is a 500, and the
      identities after it are not read, so they are neither cached nor prepared. */
  method Browse(registry: Registry, dataDirExists: bool, listing: seq<DirEntry>, fuel: nat)
      returns (identities: seq<Option<IdentityData>>)
    requires registry.Valid()
    requires DistinctNames(listing)
    modifies registry`engines, registry.disk`dirs, registry.disk`databases, registry.disk.databases.Values
    ensures registry.Valid()
    ensures var names := BrowseSelection(dataDirExists, listing);
            && |identities| <= |names|
            && (forall i :: 0 <= i < |identities| - 1 ==> identities[i].Some?)
            && (|identities| < |names| ==> 0 < |identities| && identities[|identities| - 1].None?)
            && forall i :: 0 <= i < |identities| ==>
                 && names[i] in registry.engines
                 && identities[i] == IdentityDataOf(names[i], registry.engines[names[i]].engine.Contents(), fuel)
    ensures var names := BrowseSelection(dataDirExists, listing);
            forall i :: |identities| <= i < |names| ==> NotRead(registry, names[i], old(registry.engines.Keys), old(registry.disk.databases))
    ensures var names := BrowseSelection(dataDirExists, listing);
            registry.disk.AllContents() == PreparedAll(old(registry.disk.AllContents()), names[..|identities|])
  {
    var names := BrowseSelection(dataDirExists, listing);
    BrowseSelectionDistinct(dataDirExists, listing);
    var failed;
    identities, failed := ReadAll(registry, names, fuel);
    BrowsingDone(registry, names, identities, failed, fuel, old(registry.engines.Keys),
                 old(registry.disk.databases), old(registry.disk.AllContents()));
  }
}
