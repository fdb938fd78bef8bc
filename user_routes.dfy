/** The user handlers, and the case-insensitive pattern match (SQL ILIKE, as SQLite runs it)
    that the user search is built on. */
module UserRoutes {
  import opened Common
  import opened Tables
  import opened Models
  import opened Storage
  import opened Http

  // ---------------------------------------------------------------------------------
  // ILIKE

  /** SQLite's lower(): ASCII letters only. */
  function LowerChar(c: char): char {
    if 'A' <= c <= 'Z' then (c as int + 32) as char else c
  }

  function Lower(s: string): (r: string)
    ensures |r| == |s|
    ensures forall i :: 0 <= i < |s| ==> r[i] == LowerChar(s[i])
  {
    seq(|s|, i requires 0 <= i < |s| => LowerChar(s[i]))
  }

  /** SQL LIKE without an ESCAPE clause: `%` matches any run of characters, `_` any one
      character, and every other character itself. */
  function Like(s: string, p: string): bool
    decreases |s| + |p|
  {
    if p == [] then s == []
    else if p[0] == '%' then Like(s, p[1..]) || (s != [] && Like(s[1..], p))
    else s != [] && (p[0] == '_' || s[0] == p[0]) && Like(s[1..], p[1..])
  }

  /** `lower(s) LIKE lower(p)`, the form ILIKE takes on SQLite. */
  predicate ILike(s: string, p: string) {
    Like(Lower(s), Lower(p))
  }

  predicate NoWildcards(t: string) {
    forall i :: 0 <= i < |t| ==> t[i] != '%' && t[i] != '_'
  }

  /** `%term%`, the pattern of a search term. */
  function Contains(term: string): string {
    "%" + term + "%"
  }

  lemma {:induction false} LikeAnything(s: string)
    ensures Like(s, "%")
  {
    if s != [] {
      LikeAnything(s[1..]);
    }
  }

  /** A literal prefix of a pattern has to match the start of the string exactly. */
  lemma {:induction false} LikeLiteralPrefix(s: string, t: string, q: string)
    requires NoWildcards(t)
    ensures Like(s, t + q) <==> |t| <= |s| && s[..|t|] == t && Like(s[|t|..], q)
  {
    if t == [] {
      assert t + q == q;
      assert s[..0] == t && s[0..] == s;
    } else {
      assert (t + q)[0] == t[0];
      assert (t + q)[1..] == t[1..] + q;
      if s != [] {
        LikeLiteralPrefix(s[1..], t[1..], q);
        if |t| <= |s| {
          assert s[1..][|t| - 1..] == s[|t|..];
          assert s[..|t|] == [s[0]] + s[1..][..|t| - 1];
          assert t == [t[0]] + t[1..];
        }
      }
    }
  }

  /** A leading `%` lets the rest of the pattern match any suffix. */
  lemma {:induction false} LikeLeadingPercent(s: string, q: string)
    ensures Like(s, "%" + q) <==> exists i :: 0 <= i <= |s| && Like(s[i..], q)
  {
    var p := "%" + q;
    assert p[0] == '%' && p[1..] == q;
    assert Like(s, p) == (Like(s, q) || (s != [] && Like(s[1..], p)));
    assert s[0..] == s;
    if s != [] {
      LikeLeadingPercent(s[1..], q);
      if Like(s[1..], p) {
        var i :| 0 <= i <= |s[1..]| && Like(s[1..][i..], q);
        assert s[1..][i..] == s[i + 1..];
        assert 0 <= i + 1 <= |s| && Like(s[i + 1..], q);
      }
      if exists i :: 0 <= i <= |s| && Like(s[i..], q) {
        var i :| 0 <= i <= |s| && Like(s[i..], q);
        if i > 0 {
          assert s[1..][i - 1..] == s[i..];
          assert Like(s[1..], p);
        }
      }
    }
  }

  /** For a term without wildcards, `%term%` is a substring test. */
  lemma ContainsIsInfix(s: string, t: string)
    requires NoWildcards(t)
    ensures Like(s, Contains(t)) <==> IsInfix(t, s)
  {
    assert Contains(t) == "%" + (t + "%");
    LikeLeadingPercent(s, t + "%");
    forall i | 0 <= i <= |s| ensures Like(s[i..], t + "%") <==> InfixAt(t, s, i) {
      LikeLiteralPrefix(s[i..], t, "%");
      if |t| <= |s[i..]| {
        LikeAnything(s[i..][|t|..]);
        assert s[i..][..|t|] == s[i..i + |t|];
      }
    }
  }

  lemma LowerContains(t: string)
    ensures Lower(Contains(t)) == Contains(Lower(t))
  {
  }

  /** The user search with a plain term: a case-insensitive substring test. */
  lemma ILikeIsInfix(s: string, t: string)
    requires NoWildcards(t)
    ensures ILike(s, Contains(t)) <==> IsInfix(Lower(t), Lower(s))
  {
    LowerContains(t);
    ContainsIsInfix(Lower(s), Lower(t));
  }

  // ---------------------------------------------------------------------------------
  // Handlers

  /** The user that answers GET /users/me on a database without users. */
  function ServiceUser(id: string): User {
    User(id, "Box Mock Service", None, Some("service@boxmock.local"), false, None)
  }

  /** GET /users/me: the first user; on a database without users the service user is
      created first. */
  method GetCurrentUser(store: Store, newId: string) returns (r: Reply)
    requires newId !in Keys(store.users, UserKey)
    modifies store`users
    ensures old(store.users) == [] ==> store.users == [ServiceUser(newId)]
    ensures old(store.users) != [] ==> store.users == old(store.users)
    ensures store.users != [] && r == Ok(UserToDict(store.users[0]))
    ensures old(store.Valid()) ==> store.Valid()
  {
    if store.users == [] {
      store.AddUser(ServiceUser(newId));
    }
    r := Ok(UserToDict(store.users[0]));
  }

  /** Asking twice gives the same user, and at most one user is ever created. */
  method GetCurrentUserTwice(store: Store, id1: string, id2: string) returns (r1: Reply, r2: Reply)
    requires id1 !in Keys(store.users, UserKey) && id2 !in Keys(store.users, UserKey) && id1 != id2
    modifies store`users
    ensures r1 == r2
    ensures |store.users| == if old(store.users) == [] then 1 else |old(store.users)|
  {
    r1 := GetCurrentUser(store, id1);
    r2 := GetCurrentUser(store, id2);
  }

  /** The search of GET /users: the name, the email or the login matches `%term%`. */
  predicate Matches(u: User, term: string) {
    || ILike(u.name, Contains(term))
    || (u.email.Some? && ILike(u.email.value, Contains(term)))
    || (u.login.Some? && ILike(u.login.value, Contains(term)))
  }

  /** The users GET /users lists: all of them for an empty term, else the matching ones,
      in table order. */
  function Listed(users: seq<User>, term: string): (r: seq<User>)
    ensures forall u :: u in r <==> u in users && (term == "" || Matches(u, term))
  {
    if term == "" then users else Filter(users, (u: User) => Matches(u, term))
  }

  /** With a plain term the listing is a case-insensitive substring search over name,
      email and login. */
  lemma ListedByInfix(users: seq<User>, term: string, u: User)
    requires term != "" && NoWildcards(term)
    ensures u in Listed(users, term) <==>
              && u in users
              && (|| IsInfix(Lower(term), Lower(u.name))
                  || (u.email.Some? && IsInfix(Lower(term), Lower(u.email.value)))
                  || (u.login.Some? && IsInfix(Lower(term), Lower(u.login.value))))
  {
    ILikeIsInfix(u.name, term);
    if u.email.Some? { ILikeIsInfix(u.email.value, term); }
    if u.login.Some? { ILikeIsInfix(u.login.value, term); }
  }

  /** The term "%" lists every user: every user has a name. */
  lemma PercentListsAll(users: seq<User>)
    ensures Listed(users, "%") == Filter(users, (u: User) => Matches(u, "%"))
    ensures forall u :: u in users ==> u in Listed(users, "%")
  {
    forall u | u in users ensures Matches(u, "%") {
      var s := Lower(u.name);
      assert Lower(Contains("%")) == "%%%";
      LikeAnything(s);
      assert Like(s, "%%%") by {
        assert "%%%"[1..] == "%%";
        assert "%%"[1..] == "%";
      }
    }
  }

  function UserDicts(us: seq<User>): (r: seq<Json>)
    ensures |r| == |us|
    ensures forall k :: 0 <= k < |us| ==> r[k] == UserToDict(us[k])
  {
    seq(|us|, k requires 0 <= k < |us| => UserToDict(us[k]))
  }

  /** GET /users?filter_term=term. */
  function ListUsers(users: seq<User>, term: string): (r: Reply)
    ensures r.status == 200 && r.body.JsonBody?
    ensures Member(r.body.json, "total_count") == Some(Int(|Listed(users, term)|))
    ensures Member(r.body.json, "entries") == Some(Arr(UserDicts(Listed(users, term))))
  {
    Ok(Page(UserDicts(Listed(users, term))))
  }

  /** Each listed entry reads back as the user it lists, in table order. */
  lemma ListUsersReadsBack(users: seq<User>, term: string)
    ensures var entries := Member(ListUsers(users, term).body.json, "entries").value.items;
            && |entries| == |Listed(users, term)|
            && forall k :: 0 <= k < |entries| ==> UserFromDict(entries[k]) == Some(Listed(users, term)[k])
  {
    var listed := Listed(users, term);
    forall k | 0 <= k < |listed| ensures UserFromDict(UserDicts(listed)[k]) == Some(listed[k]) {
      UserRoundTrip(listed[k]);
    }
  }

  /** POST /users. The name defaults to "Unnamed User" and the flag to false; the other
      fields stay null when not given. */
  method CreateUser(store: Store, name: Option<string>, email: Option<string>, login: Option<string>,
                    isPlatformAccessOnly: Option<bool>, jobTitle: Option<string>, newId: string)
      returns (r: Reply)
    requires newId !in Keys(store.users, UserKey)
    modifies store`users
    ensures var u := User(newId, name.GetOr("Unnamed User"), email, login,
                          isPlatformAccessOnly.GetOr(false), jobTitle);
            && store.users == old(store.users) + [u]
            && r == Created(UserToDict(u))
            && UserFromDict(r.body.json) == Some(u)
    ensures old(store.Valid()) ==> store.Valid()
  {
    var u := User(newId, name.GetOr("Unnamed User"), email, login, isPlatformAccessOnly.GetOr(false), jobTitle);
    store.AddUser(u);
    UserRoundTrip(u);
    r := Created(UserToDict(u));
  }

  /** GET /users/<id>. */
  function GetUser(users: seq<User>, id: string): (r: Reply)
    ensures id !in Keys(users, UserKey) ==> r == NotFound("User not found")
    ensures id in Keys(users, UserKey) ==>
              exists i :: 0 <= i < |users| && users[i].id == id && r == Ok(UserToDict(users[i]))
  {
    match Find(users, UserKey, id)
    case None => NotFound("User not found")
    case Some(u) => Ok(UserToDict(u))
  }

  /** DELETE /users/<id>. */
  method DeleteUser(store: Store, id: string) returns (r: Reply)
    modifies store`users
    ensures id !in Keys(old(store.users), UserKey) ==>
              r == NotFound("User not found") && store.users == old(store.users)
    ensures id in Keys(old(store.users), UserKey) ==>
              r == Reply(204, NoContent) && store.users == WithoutKey(old(store.users), UserKey, id)
    ensures old(store.Valid()) ==> store.Valid()
  {
    var user := Find(store.users, UserKey, id);
    if user.None? {
      return NotFound("User not found");
    }
    store.RemoveUser(id);
    r := Reply(204, NoContent);
  }
}
