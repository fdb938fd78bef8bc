/** The per-request life cycle: before a request the identity is resolved and a session
    is opened on that identity's database; at teardown the session is taken out of the
    request state and closed. */
module Hooks {
  import opened Common
  import opened Models
  import opened Identity
  import opened Storage
  import opened Db

  /** The request-scoped state (flask.g) the hooks use. */
  class RequestGlobals {
    var identity: Option<string>
    var dbSession: Option<Session>

    constructor ()
      ensures identity == None && dbSession == None
    {
      identity, dbSession := None, None;
    }
  }

  /** setup_db_session: the identity comes from the Authorization header, the factory from
      the registry (which sets the identity up on first use) and the session is new. */
  method SetupDbSession(g: RequestGlobals, registry: Registry, authorization: Option<string>)
    requires registry.Valid()
    modifies g`identity, g`dbSession, registry`engines, registry.disk`dirs, registry.disk`databases,
             registry.disk.DatabaseOf(GetIdentity(authorization))
    ensures registry.Valid()
    ensures g.identity == Some(GetIdentity(authorization))
    ensures GetIdentity(authorization) in registry.engines
    ensures g.dbSession.Some? && fresh(g.dbSession.value) && g.dbSession.value.closeCount == 0
    ensures g.dbSession.value.bind == registry.engines[GetIdentity(authorization)].engine
    ensures g.dbSession.value.bind.HasRoot()
    ensures GetIdentity(authorization) in old(registry.engines) ==> registry.engines == old(registry.engines)
    ensures registry.engines == old(registry.engines)[GetIdentity(authorization) := registry.engines[GetIdentity(authorization)]]
    ensures registry.disk.databases == old(registry.disk.databases)[GetIdentity(authorization) := g.dbSession.value.bind]
    ensures var identity := GetIdentity(authorization);
            && (identity !in old(registry.disk.databases) ==> g.dbSession.value.bind.Contents() == Snapshot([Root], [], [], []))
            && (identity in old(registry.engines) ==>
                  g.dbSession.value.bind.Contents() == old(registry.engines[identity].engine.Contents()))
            && (identity !in old(registry.engines) && identity in old(registry.disk.databases) ==>
                  g.dbSession.value.bind.Contents() == WithRoot(old(registry.disk.databases[identity].Contents())))
  {
    var identity := GetIdentity(authorization);
    // The registry never reads the request state, so g.identity can be set together
    // with the session rather than before the factory is looked up.
    var session := registry.OpenSession(identity);
    ghost var contents := session.bind.Contents();
    g.identity, g.dbSession := Some(identity), Some(session);
    assert session.bind.Contents() == contents;
  }

  /** teardown_db_session: the session, if any, leaves the request state and is closed. */
  method TeardownDbSession(g: RequestGlobals)
    modifies g`dbSession, if g.dbSession.Some? then {g.dbSession.value} else {}
    ensures g.dbSession == None
    ensures old(g.dbSession).Some? ==>
              old(g.dbSession).value.closeCount == old(g.dbSession.value.closeCount) + 1
  {
    var session := g.dbSession;
    g.dbSession := None;
    if session.Some? {
      session.value.Close();
    }
  }

  /** DBProxy.session: the session in the request state. None stands for the
      AttributeError raised when there is none (before setup, or after teardown). */
  function CurrentSession(g: RequestGlobals): Option<Session>
    reads g
  {
    g.dbSession
  }

  /** `db.session` inside a request: once setup has run it is the new, open session on
      the database of the identity the header names, and that database holds the root. */
  method SessionAfterSetup(g: RequestGlobals, registry: Registry, authorization: Option<string>)
      returns (s: Option<Session>)
    requires registry.Valid()
    modifies g`identity, g`dbSession, registry`engines, registry.disk`dirs, registry.disk`databases,
             registry.disk.DatabaseOf(GetIdentity(authorization))
    ensures registry.Valid() && GetIdentity(authorization) in registry.engines
    ensures s == g.dbSession && s.Some? && fresh(s.value)
    ensures s.value.bind == registry.engines[GetIdentity(authorization)].engine
    ensures s.value.bind.HasRoot()
    ensures s.value.closeCount == 0
  {
    SetupDbSession(g, registry, authorization);
    s := CurrentSession(g);
  }

  /** `db.session` after teardown: there is no session any more, so the property raises. */
  method SessionAfterTeardown(g: RequestGlobals) returns (s: Option<Session>)
    modifies g`dbSession, if g.dbSession.Some? then {g.dbSession.value} else {}
    ensures s.None? && g.dbSession == None
  {
    TeardownDbSession(g);
    s := CurrentSession(g);
  }

  /** Teardown run twice on one request: the session opened at setup is closed exactly
      once, because the first run takes it out of the request state. */
  method TeardownTwice(g: RequestGlobals) returns (closed: Session)
    requires g.dbSession.Some?
    modifies g`dbSession, g.dbSession.value
    ensures closed == old(g.dbSession.value)
    ensures closed.closeCount == old(g.dbSession.value.closeCount) + 1
    ensures g.dbSession == None
  {
    closed := g.dbSession.value;
    TeardownDbSession(g);
    TeardownDbSession(g);
  }
}
