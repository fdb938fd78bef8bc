/** The tenant registry: one engine (database) and session factory per identity, created
    on first use with the root folder, and the per-identity reset. */
module Db {
  import opened Common
  import opened Tables
  import opened Models
  import opened Storage

  /** A session factory bound to one database. */
  class SessionMaker {
    const engine: Store

    constructor (engine: Store)
      ensures this.engine == engine
    {
      this.engine := engine;
    }

    /** session_class(): a new open session on the bound database. */
    method Open() returns (s: Session)
      ensures fresh(s) && s.bind == engine && s.closeCount == 0
    {
      s := new Session(engine);
    }
  }

  /** A database session; `closeCount` counts the calls to close(). */
  class Session {
    const bind: Store
    var closeCount: nat

    constructor (bind: Store)
      ensures this.bind == bind && closeCount == 0
    {
      this.bind := bind;
      closeCount := 0;
    }

    method Close()
      modifies this`closeCount
      ensures closeCount == old(closeCount) + 1
    {
      closeCount := closeCount + 1;
    }
  }

  /** An entry of the engine cache: the engine and the session factory bound to it. */
  datatype EngineEntry = EngineEntry(engine: Store, sessionClass: SessionMaker)

  /** The process-wide engine cache over the data directory. */
  class Registry {
    const disk: Disk
    var engines: map<string, EngineEntry>

    /** Every cached identity has its directory and database on disk, its factory is bound
        to that database, and the database holds the root folder. */
    predicate Valid()
      reads this, disk, disk.databases.Values
    {
      && disk.Valid()
      && forall id :: id in engines ==>
           && id in disk.databases
           && engines[id].engine == disk.databases[id]
           && engines[id].sessionClass.engine == engines[id].engine
           && engines[id].engine.HasRoot()
    }

    /** The cached engine of `identity`, as a frame. */
    function EngineOf(identity: string): set<Store>
      reads this
    {
      if identity in engines then {engines[identity].engine} else {}
    }

    constructor (disk: Disk)
      requires disk.Valid()
      ensures this.disk == disk && engines == map[]
      ensures Valid()
    {
      this.disk := disk;
      engines := map[];
    }

    /** get_session_class. A cached identity gets its factory back and nothing changes.
        On the first use of an identity the disk prepares its database (directory,
        database file, root folder) and a new factory bound to it is cached. */
    method GetSessionClass(identity: string) returns (sc: SessionMaker)
      requires Valid()
      modifies this`engines, disk`dirs, disk`databases, disk.DatabaseOf(identity)
      ensures Valid()
      ensures identity in engines && sc == engines[identity].sessionClass
      ensures sc.engine == disk.databases[identity] && sc.engine.HasRoot()
      ensures identity in old(engines) ==>
                && engines == old(engines)
                && disk.dirs == old(disk.dirs) && disk.databases == old(disk.databases)
                && unchanged(sc.engine)
      ensures identity !in old(engines) ==>
                && fresh(sc)
                && engines == old(engines)[identity := EngineEntry(sc.engine, sc)]
                && disk.dirs == old(disk.dirs) + {identity}
      ensures identity !in old(engines) && identity in old(disk.databases) ==>
                && disk.databases == old(disk.databases)
                && sc.engine == old(disk.databases[identity])
                && sc.engine.Contents() == WithRoot(old(disk.databases[identity].Contents()))
                && (old(disk.databases[identity].Valid()) ==> sc.engine.Valid())
      ensures identity !in old(disk.databases) ==>
                && fresh(sc.engine)
                && disk.databases == old(disk.databases)[identity := sc.engine]
                && sc.engine.Contents() == WithRoot(EmptyTables)
                && sc.engine.Valid()
      ensures disk.AllContents() == Prepared(old(disk.AllContents()), identity)
    {
      if identity in engines {
        sc := engines[identity].sessionClass;
        assert disk.AllContents()[identity] == sc.engine.Contents();
        PreparedWithRoot(disk.AllContents(), identity);
      } else {
        var engine := disk.PrepareDatabase(identity);

        forall id | id in engines
          ensures engines[id].engine == disk.databases[id] && unchanged(engines[id].engine)
        {
          assert engines[id].engine == old(disk.databases)[id];
        }
        sc := AddEngine(identity, engine);
      }
    }

    /** Caches a new factory bound to the prepared database of an identity. */
    method AddEngine(identity: string, engine: Store) returns (sc: SessionMaker)
      requires Valid() && identity !in engines
      requires identity in disk.databases && engine == disk.databases[identity] && engine.HasRoot()
      modifies this`engines
      ensures Valid()
      ensures fresh(sc) && sc.engine == engine
      ensures engines == old(engines)[identity := EngineEntry(engine, sc)]
      ensures disk.AllContents() == old(disk.AllContents())
    {
      sc := new SessionMaker(engine);
      engines := engines[identity := EngineEntry(engine, sc)];
    }

    /** Two identities (naming different directories) never share a database. With the
        factories of `b` and of `a` obtained, a folder added through `a`'s factory lands in
        `a`'s database, while `b`'s database holds what it held before, with the root of a
        first use added. */
    method Isolation(a: string, b: string, f: Folder) returns (scA: SessionMaker, scB: SessionMaker)
      requires Valid() && a != b && f.id != RootId
      requires a in disk.databases ==> f.id !in Keys(disk.databases[a].folders, FolderKey)
      modifies this`engines, disk`dirs, disk`databases, disk.DatabaseOf(a), disk.DatabaseOf(b)
      ensures Valid() && a in engines && b in engines
      ensures scA == engines[a].sessionClass && scB == engines[b].sessionClass
      ensures scA.engine != scB.engine
      ensures f in scA.engine.folders
      ensures b !in old(disk.databases) ==> scB.engine.Contents() == Snapshot([Root], [], [], [])
      ensures b in old(engines) ==> scB.engine.Contents() == old(engines[b].engine.Contents())
      ensures b !in old(engines) && b in old(disk.databases) ==>
                scB.engine.Contents() == WithRoot(old(disk.databases[b].Contents()))
    {
      scA, scB := FactoriesWithout(a, b, f.id);
      ghost var seen := scB.engine.Contents();
      AddFolderThrough(a, f);
      assert scB.engine.Contents() == seen;
    }

    /** get_session_class for `b`, then for `a` whose database has no folder `k`. */
    method FactoriesWithout(a: string, b: string, k: string) returns (scA: SessionMaker, scB: SessionMaker)
      requires Valid() && a != b && k != RootId
      requires a in disk.databases ==> k !in Keys(disk.databases[a].folders, FolderKey)
      modifies this`engines, disk`dirs, disk`databases, disk.DatabaseOf(a), disk.DatabaseOf(b)
      ensures Valid() && a in engines && b in engines
      ensures scA == engines[a].sessionClass && scB == engines[b].sessionClass
      ensures scA.engine == engines[a].engine && scA.engine != scB.engine
      ensures k !in Keys(scA.engine.folders, FolderKey)
      ensures a in old(disk.databases) ==> scA.engine == old(disk.databases[a])
      ensures a !in old(disk.databases) ==> fresh(scA.engine)
      ensures b !in old(disk.databases) ==> scB.engine.Contents() == Snapshot([Root], [], [], [])
      ensures b in old(engines) ==> scB.engine.Contents() == old(engines[b].engine.Contents())
      ensures b !in old(engines) && b in old(disk.databases) ==>
                scB.engine.Contents() == WithRoot(old(disk.databases[b].Contents()))
    {
      scB := FactoryOf(b);
      ghost var seen := disk.AllContents();
      assert seen[b] == scB.engine.Contents();
      scA := FactoryWithout(a, k);
      assert scB.engine == disk.databases[b];
      assert disk.AllContents()[b] == seen[b];
    }

    /** get_session_class, with what the factory's database then holds: a cached
        identity's database as it was, otherwise the first-use root insert applied. */
    method FactoryOf(identity: string) returns (sc: SessionMaker)
      requires Valid()
      modifies this`engines, disk`dirs, disk`databases, disk.DatabaseOf(identity)
      ensures Valid() && identity in engines && sc == engines[identity].sessionClass
      ensures sc.engine == disk.databases[identity] && sc.engine.HasRoot()
      ensures engines == old(engines)[identity := engines[identity]]
      ensures identity in old(engines) ==> engines == old(engines)
      ensures disk.databases == old(disk.databases)[identity := sc.engine]
      ensures identity in old(disk.databases) ==> sc.engine == old(disk.databases[identity])
      ensures identity !in old(disk.databases) ==> fresh(sc.engine)
      ensures identity !in old(disk.databases) ==> sc.engine.Contents() == Snapshot([Root], [], [], [])
      ensures identity in old(engines) ==> sc.engine.Contents() == old(engines[identity].engine.Contents())
      ensures identity !in old(engines) && identity in old(disk.databases) ==>
                sc.engine.Contents() == WithRoot(old(disk.databases[identity].Contents()))
      ensures disk.AllContents() == Prepared(old(disk.AllContents()), identity)
    {
      sc := GetSessionClass(identity);
    }

    /** Adds a folder through the cached factory of `identity`; the registry stays valid. */
    method AddFolderThrough(identity: string, f: Folder)
      requires Valid() && identity in engines
      requires f.id !in Keys(engines[identity].engine.folders, FolderKey)
      modifies engines[identity].engine`folders
      ensures Valid()
      ensures engines[identity].engine.folders == old(engines[identity].engine.folders) + [f]
    {
      var engine := engines[identity].engine;
      engine.AddFolder(f);
      assert engine.HasRoot();
    }

    /** get_session_class for an identity whose database has no folder `k` (other than
        the root): the factory's database still has none. */
    method FactoryWithout(identity: string, k: string) returns (sc: SessionMaker)
      requires Valid() && k != RootId
      requires identity in disk.databases ==> k !in Keys(disk.databases[identity].folders, FolderKey)
      modifies this`engines, disk`dirs, disk`databases, disk.DatabaseOf(identity)
      ensures Valid() && identity in engines && sc == engines[identity].sessionClass
      ensures sc.engine == disk.databases[identity]
      ensures k !in Keys(sc.engine.folders, FolderKey)
      ensures engines == old(engines)[identity := engines[identity]]
      ensures disk.databases == old(disk.databases)[identity := sc.engine]
      ensures identity in old(disk.databases) ==> sc.engine == old(disk.databases[identity])
      ensures identity !in old(disk.databases) ==> fresh(sc.engine)
      ensures disk.AllContents() == Prepared(old(disk.AllContents()), identity)
    {
      ghost var before := if identity in disk.databases then disk.databases[identity].Contents() else EmptyTables;
      WithRootProperties(before);
      sc := FactoryOf(identity);
    }

    /** session_class() on the factory of `identity`: a new session on its database. */
    method OpenSession(identity: string) returns (s: Session)
      requires Valid()
      modifies this`engines, disk`dirs, disk`databases, disk.DatabaseOf(identity)
      ensures Valid() && identity in engines
      ensures fresh(s) && s.closeCount == 0
      ensures s.bind == engines[identity].engine && s.bind.HasRoot()
      ensures engines == old(engines)[identity := engines[identity]]
      ensures identity in old(engines) ==> engines == old(engines)
      ensures disk.databases == old(disk.databases)[identity := s.bind]
      ensures identity in old(disk.databases) ==> s.bind == old(disk.databases[identity])
      ensures identity !in old(disk.databases) ==> fresh(s.bind)
      ensures identity !in old(disk.databases) ==> s.bind.Contents() == Snapshot([Root], [], [], [])
      ensures identity in old(engines) ==> s.bind.Contents() == old(engines[identity].engine.Contents())
      ensures identity !in old(engines) && identity in old(disk.databases) ==>
                s.bind.Contents() == WithRoot(old(disk.databases[identity].Contents()))
      ensures disk.AllContents() == Prepared(old(disk.AllContents()), identity)
    {
      var sessionClass := FactoryOf(identity);
      s := sessionClass.Open();
    }

    /** session.close(): only the session's own state changes. */
    method CloseSession(s: Session)
      requires Valid()
      modifies s`closeCount
      ensures s.closeCount == old(s.closeCount) + 1
      ensures Valid() && disk.AllContents() == old(disk.AllContents())
      ensures s.bind.Contents() == old(s.bind.Contents())
    {
      s.Close();
    }

    /** reset_identity_data. A cached identity's database is rebuilt with only the root
        folder and gets a new factory on the same engine; an identity that is not cached
        keeps its database as it is. Either way, an existing blob directory is emptied. */
    method ResetIdentityData(identity: string)
      requires Valid()
      modifies this`engines, EngineOf(identity), disk`blobs
      ensures Valid()
      ensures identity in old(engines) ==>
                && identity in engines
                && engines[identity].engine == old(engines[identity].engine)
                && fresh(engines[identity].sessionClass)
                && engines == old(engines)[identity := engines[identity]]
                && engines[identity].engine.Contents() == Snapshot([Root], [], [], [])
      ensures identity in old(engines) ==> engines[identity].engine.Valid()
      ensures identity !in old(engines) ==> engines == old(engines)
      ensures disk.blobs == if identity in old(disk.blobs) then old(disk.blobs)[identity := map[]]
                            else old(disk.blobs)
    {
      if identity in engines {
        RebuildEngine(identity);
      }
      if identity in disk.blobs {
        disk.ClearFiles(identity);
      }
    }

    /** The database part of a reset of a cached identity. */
    method RebuildEngine(identity: string)
      requires Valid() && identity in engines
      modifies this`engines, engines[identity].engine
      ensures Valid() && identity in engines
      ensures engines[identity].engine == old(engines[identity].engine)
      ensures fresh(engines[identity].sessionClass)
      ensures engines == old(engines)[identity := engines[identity]]
      ensures engines[identity].engine.Contents() == Snapshot([Root], [], [], [])
      ensures engines[identity].engine.Valid()
    {
      var engine := engines[identity].engine;
      engine.Recreate();
      var maker := new SessionMaker(engine);
      engines := engines[identity := EngineEntry(engine, maker)];
      forall id | id in engines && id != identity
        ensures engines[id].engine != engine && unchanged(engines[id].engine)
      {
        assert engines[id].engine == disk.databases[id];
      }
    }
  }
}
