/** Sessions (services/rbac_service.py over apps/backend/db_rbac.py): login, authentication by
    session token and logout, for users of the workspace and for users inherited into it.
    A token is known by its hash; hashing is injective. */
module Rbac {
  import opened Prelude
  import opened PyText

  datatype ScopeKey = ScopeKey(tenant: string, workspace: string)
  datatype UserKey = UserKey(scope: ScopeKey, userId: string)
  datatype SessionKey = SessionKey(scope: ScopeKey, sessionId: string)
  datatype BindingKey = BindingKey(tenant: string, userId: string)
  /** The key of a row of `roles` or of `permissions`. */
  datatype RowKey = RowKey(scope: ScopeKey, id: string)
  datatype Grant = Grant(role: RowKey, permission: string)

  datatype User = User(email: string, passwordHash: Option<string>, fullName: Option<string>, isActive: bool,
                       isSuperadmin: bool)
  datatype Session = Session(tokenHash: string, userId: string, expiresAt: int)

  /** A tenant-wide role binding; the binding's own workspace is always the tenant policy. */
  datatype Binding = Binding(roleId: string, sourceWorkspace: string, future: bool)

  datatype Tables = Tables(
    now: int,
    users: map<UserKey, User>,
    sessions: map<SessionKey, Session>,
    bindings: map<BindingKey, Binding>,
    openWorkspaces: set<ScopeKey>,       // registered and not archived
    roles: map<RowKey, string>,          // by key, the name
    permissions: map<RowKey, string>,
    grants: set<Grant>,
    userRoles: map<UserKey, string>)

  const TEMPLATE := ScopeKey("default", "default")
  const SESSION_TTL_SECONDS := 24 * 3600

  /** `ses_` and the first 24 characters of the hash. */
  function SessionIdOf(hash: string): string {
    "ses_" + hash[..Min(24, |hash|)]
  }

  // ---------- Lookups ----------

  predicate WorkspaceExists(t: Tables, scope: ScopeKey) {
    scope in t.openWorkspaces || exists r :: r in t.roles && r.scope == scope
  }

  /** The user is inherited into `scope` from the source workspace of his binding. */
  predicate Inherited(t: Tables, scope: ScopeKey, userId: string) {
    var b := BindingKey(scope.tenant, userId);
    && b in t.bindings && t.bindings[b].future
    && SourceOf(t, scope, userId) in t.users && t.users[SourceOf(t, scope, userId)].isActive
    && WorkspaceExists(t, scope)
  }

  /** The row of an inherited user in his source workspace. */
  function SourceOf(t: Tables, scope: ScopeKey, userId: string): UserKey
    requires BindingKey(scope.tenant, userId) in t.bindings
  {
    UserKey(ScopeKey(scope.tenant, t.bindings[BindingKey(scope.tenant, userId)].sourceWorkspace), userId)
  }

  /** Who a request acts as: a user of the workspace, or one inherited from `home`. */
  datatype Principal = Principal(userId: string, home: ScopeKey, inherited: bool)

  function RowOf(who: Principal): UserKey {
    UserKey(who.home, who.userId)
  }

  predicate DirectByEmail(t: Tables, scope: ScopeKey, email: string, userId: string) {
    UserKey(scope, userId) in t.users && t.users[UserKey(scope, userId)].email == email
  }

  predicate InheritedByEmail(t: Tables, scope: ScopeKey, email: string, userId: string) {
    Inherited(t, scope, userId) && t.users[SourceOf(t, scope, userId)].email == email
  }

  /** Whom a login by email resolves to, before activity and password are checked: a user of the
      workspace, or else the first by user id of those inherited into it. */
  ghost predicate LoginFinds(t: Tables, scope: ScopeKey, email: string, who: Principal) {
    if who.inherited then
      && (forall u :: !DirectByEmail(t, scope, email, u))
      && InheritedByEmail(t, scope, email, who.userId) && RowOf(who) == SourceOf(t, scope, who.userId)
      && (forall u :: InheritedByEmail(t, scope, email, u) ==> TextLeq(who.userId, u))
    else DirectByEmail(t, scope, email, who.userId) && who.home == scope
  }

  /** A live session with this hash in `home`, of this user. */
  predicate LiveSession(t: Tables, home: ScopeKey, userId: string, hash: string, k: SessionKey) {
    && k in t.sessions && k.scope == home
    && t.sessions[k].tokenHash == hash && t.sessions[k].userId == userId && t.now < t.sessions[k].expiresAt
  }

  predicate DirectBySession(t: Tables, scope: ScopeKey, hash: string, userId: string, k: SessionKey) {
    LiveSession(t, scope, userId, hash, k) && UserKey(scope, userId) in t.users
      && t.users[UserKey(scope, userId)].isActive
  }

  predicate InheritedBySession(t: Tables, scope: ScopeKey, hash: string, userId: string, k: SessionKey) {
    Inherited(t, scope, userId) && LiveSession(t, SourceOf(t, scope, userId).scope, userId, hash, k)
  }

  /** The first by user id of the inherited users with a live session of this hash. */
  ghost predicate FirstInherited(t: Tables, scope: ScopeKey, hash: string, userId: string, k: SessionKey) {
    && InheritedBySession(t, scope, hash, userId, k)
    && forall u, j :: InheritedBySession(t, scope, hash, u, j) ==> TextLeq(userId, u)
  }

  /** Whom a session token resolves to; users of the workspace come first. */
  ghost predicate SessionFinds(t: Tables, scope: ScopeKey, hash: string, who: Principal, k: SessionKey) {
    if who.inherited then
      && (forall u, j :: !DirectBySession(t, scope, hash, u, j))
      && FirstInherited(t, scope, hash, who.userId, k) && RowOf(who) == SourceOf(t, scope, who.userId)
    else DirectBySession(t, scope, hash, who.userId, k) && who.home == scope
  }

  ghost predicate Resolves(t: Tables, scope: ScopeKey, hash: string) {
    exists who, k :: SessionFinds(t, scope, hash, who, k)
  }

  // ---------- Permissions ----------

  function GrantsOf(t: Tables, role: RowKey): set<string> {
    set g | g in t.grants && g.role == role && g.permission != "" :: g.permission
  }

  /** The effective role and the workspace it comes from. */
  function EffectiveRole(t: Tables, scope: ScopeKey, userId: string): Option<(string, ScopeKey)> {
    var u := UserKey(scope, userId);
    if u in t.userRoles && u in t.users && t.users[u].isActive then Some((t.userRoles[u], scope))
    else if Inherited(t, scope, userId) then
      Some((t.bindings[BindingKey(scope.tenant, userId)].roleId, SourceOf(t, scope, userId).scope))
    else None
  }

  function PermissionsOf(t: Tables, scope: ScopeKey, userId: string): set<string> {
    match EffectiveRole(t, scope, userId)
    case None => {}
    case Some((roleId, source)) =>
      var own := GrantsOf(t, RowKey(scope, roleId));
      if own != {} then own
      else if source != scope then GrantsOf(t, RowKey(source, roleId))
      else {}
  }

  /** The same grant in another workspace. */
  function GrantIn(scope: ScopeKey, g: Grant): Grant {
    Grant(RowKey(scope, g.role.id), g.permission)
  }

  /** `INSERT ... SELECT` from the template; rows already there keep their names. */
  function Copied(rows: map<RowKey, string>, scope: ScopeKey): map<RowKey, string> {
    (map r | r in rows && r.scope == TEMPLATE :: RowKey(scope, r.id) := rows[r]) + rows
  }

  /** A row that the workspace lacks has the name of another row in it. `ON CONFLICT` speaks of the key
      only, so the unique name refuses the insert. */
  predicate NamesClash(rows: map<RowKey, string>, scope: ScopeKey) {
    exists src, r :: src in rows && src.scope == TEMPLATE && RowKey(scope, src.id) !in rows
                     && r in rows && r.scope == scope && rows[r] == rows[src]
  }

  predicate BootstrapFails(t: Tables, scope: ScopeKey) {
    NamesClash(t.roles, scope) || NamesClash(t.permissions, scope)
  }

  /** Copy the template's roles, permissions and grants into the workspace. */
  function Bootstrapped(t: Tables, scope: ScopeKey): Tables {
    t.(roles := Copied(t.roles, scope),
       permissions := Copied(t.permissions, scope),
       grants := t.grants + set g | g in t.grants && g.role.scope == TEMPLATE :: GrantIn(scope, g))
  }

  // ---------- Contexts and state changes ----------

  datatype AuthContext = AuthContext(
    scope: ScopeKey, userId: string, email: string, fullName: Option<string>, isSuperadmin: bool,
    sessionId: string, inherited: bool, sourceWorkspace: Option<string>, permissions: set<string>)

  function ContextOf(t: Tables, scope: ScopeKey, who: Principal, sessionId: string): AuthContext
    requires RowOf(who) in t.users
  {
    var u := t.users[RowOf(who)];
    AuthContext(scope, who.userId, u.email, u.fullName, u.isSuperadmin, sessionId, who.inherited,
                if who.inherited then Some(who.home.workspace) else None, PermissionsOf(t, scope, who.userId))
  }

  function WithSession(t: Tables, home: ScopeKey, hash: string, userId: string, expiresAt: int): Tables {
    t.(sessions := t.sessions[SessionKey(home, SessionIdOf(hash)) := Session(hash, userId, expiresAt)])
  }

  /** A successful login: the workspace is bootstrapped and a session stored at the user's home. */
  function LoggedIn(t: Tables, scope: ScopeKey, who: Principal, hash: string): Tables {
    WithSession(Bootstrapped(t, scope), who.home, hash, who.userId, t.now + SESSION_TTL_SECONDS)
  }

  function HashedIn(t: Tables, scope: ScopeKey, hash: string): set<SessionKey> {
    set k | k in t.sessions && k.scope == scope && t.sessions[k].tokenHash == hash
  }

  function WithoutHash(t: Tables, scope: ScopeKey, hash: string): Tables {
    t.(sessions := t.sessions - HashedIn(t, scope, hash))
  }

  /** The session of `hash` deleted in the workspace, or else in the home of the inherited user. */
  ghost predicate LogsOut(t: Tables, scope: ScopeKey, hash: string, t': Tables, removed: bool) {
    if HashedIn(t, scope, hash) != {} then removed && t' == WithoutHash(t, scope, hash)
    else if exists u, k :: InheritedBySession(t, scope, hash, u, k) then
      exists u, k :: FirstInherited(t, scope, hash, u, k) && removed
        && t' == WithoutHash(t, SourceOf(t, scope, u).scope, hash)
    else !removed && t' == t
  }

  lemma FoundHasRow(t: Tables, scope: ScopeKey, email: string, who: Principal)
    requires LoginFinds(t, scope, email, who)
    ensures RowOf(who) in t.users
  {
  }

  // ---------- The service ----------

  class RbacStore {
    var t: Tables

    constructor (t: Tables)
      ensures this.t == t
    {
      this.t := t;
    }

    method UserByEmail(scope: ScopeKey, email: string) returns (who: Option<Principal>)
      ensures who.Some? ==> LoginFinds(t, scope, email, who.value)
      ensures who.None? ==> forall w :: !LoginFinds(t, scope, email, w)
    {
      if u :| u in t.users && u.scope == scope && t.users[u].email == email {
        assert DirectByEmail(t, scope, email, u.userId);
        return Some(Principal(u.userId, scope, false));
      }
      var ids := set b |
        b in t.bindings && b.tenant == scope.tenant && InheritedByEmail(t, scope, email, b.userId) :: b.userId;
      forall v | InheritedByEmail(t, scope, email, v) ensures v in ids {
        assert BindingKey(scope.tenant, v) in t.bindings;
      }
      if ids != {} {
        ghost var least := LeastText(ids);
        var u :| u in ids && forall v :: v in ids ==> TextLeq(u, v);
        return Some(Principal(u, SourceOf(t, scope, u).scope, true));
      }
      who := None;
    }

    /** `verifies` says whether the given password matches a stored hash; `hash` is that of the
        freshly generated token. */
    method AuthenticateUser(scope: ScopeKey, email: string, verifies: string -> bool, hash: string)
      returns (r: Result<Option<(AuthContext, int)>>)
      modifies this
      ensures r.Ok? && r.value.Some? ==> exists who ::
        && LoginFinds(old(t), scope, email, who) && RowOf(who) in old(t).users
        && old(t).users[RowOf(who)].isActive
        && (exists stored ::
          stored != "" && verifies(stored) && old(t).users[RowOf(who)].passwordHash == Some(stored))
        && !BootstrapFails(old(t), scope) && t == LoggedIn(old(t), scope, who, hash)
        && r.value.value == (ContextOf(t, scope, who, SessionIdOf(hash)), old(t).now + SESSION_TTL_SECONDS)
      ensures r.Raised? || r.value.None? ==> t == old(t)
      ensures r.Raised? ==> BootstrapFails(t, scope) && exists who ::
        && LoginFinds(t, scope, email, who) && RowOf(who) in t.users && t.users[RowOf(who)].isActive
        && exists stored :: stored != "" && verifies(stored) && t.users[RowOf(who)].passwordHash == Some(stored)
      ensures r.Ok? && r.value.None? ==> (forall w :: !LoginFinds(t, scope, email, w)) || exists who ::
        && LoginFinds(t, scope, email, who) && RowOf(who) in t.users
        && (t.users[RowOf(who)].isActive ==>
          forall stored :: t.users[RowOf(who)].passwordHash == Some(stored) ==> stored == "" || !verifies(stored))
      ensures forall who ::
        && LoginFinds(old(t), scope, email, who) && RowOf(who) in old(t).users
        && (forall other :: LoginFinds(old(t), scope, email, other) ==> other == who)
        && (!old(t).users[RowOf(who)].isActive
            || forall stored ::
              old(t).users[RowOf(who)].passwordHash == Some(stored) ==> stored == "" || !verifies(stored)) ==>
          r == Ok(None) && t == old(t)
    {
      hide BootstrapFails, ContextOf, PermissionsOf, Copied;
      var found := UserByEmail(scope, email);
      if found.None? {
        return Ok(None);
      }
      var who := found.value;
      FoundHasRow(t, scope, email, who);
      hide LoginFinds;
      var user := t.users[RowOf(who)];
      if !user.isActive {
        return Ok(None);
      }
      var stored := user.passwordHash.GetOr("");
      if stored == "" || !verifies(stored) {
        return Ok(None);
      }
      if BootstrapFails(t, scope) {
        return Raised("duplicate key value violates unique constraint");
      }
      t := Bootstrapped(t, scope);
      var expiresAt := t.now + SESSION_TTL_SECONDS;
      t := WithSession(t, who.home, hash, who.userId, expiresAt);
      r := Ok(Some((ContextOf(t, scope, who, SessionIdOf(hash)), expiresAt)));
    }

    /** The inherited lookup of a session token. */
    method InheritedBySessionHash(scope: ScopeKey, hash: string) returns (found: Option<(string, SessionKey)>)
      ensures found.Some? ==> FirstInherited(t, scope, hash, found.value.0, found.value.1)
      ensures found.None? ==> forall u, k :: !InheritedBySession(t, scope, hash, u, k)
    {
      var ids := set k |
        k in t.sessions && InheritedBySession(t, scope, hash, t.sessions[k].userId, k) :: t.sessions[k].userId;
      forall u, k | InheritedBySession(t, scope, hash, u, k) ensures u in ids {
        assert k in t.sessions && t.sessions[k].userId == u;
      }
      if ids == {} {
        return None;
      }
      ghost var least := LeastText(ids);
      var u :| u in ids && forall v :: v in ids ==> TextLeq(u, v);
      var k :| k in t.sessions && InheritedBySession(t, scope, hash, u, k);
      found := Some((u, k));
    }

    method AuthenticateSessionToken(scope: ScopeKey, hash: string) returns (r: Option<AuthContext>)
      ensures r.Some? ==> exists who, k ::
        SessionFinds(t, scope, hash, who, k) && r.value == ContextOf(t, scope, who, k.sessionId)
      ensures r.None? ==> !Resolves(t, scope, hash)
    {
      if k :| k in t.sessions && DirectBySession(t, scope, hash, t.sessions[k].userId, k) {
        var who := Principal(t.sessions[k].userId, scope, false);
        assert SessionFinds(t, scope, hash, who, k);
        return Some(ContextOf(t, scope, who, k.sessionId));
      }
      var found := InheritedBySessionHash(scope, hash);
      if found.Some? {
        var (userId, k) := found.value;
        var who := Principal(userId, k.scope, true);
        assert SessionFinds(t, scope, hash, who, k);
        return Some(ContextOf(t, scope, who, k.sessionId));
      }
      r := None;
    }

    method LogoutSession(scope: ScopeKey, hash: string) returns (removed: bool)
      modifies this
      ensures LogsOut(old(t), scope, hash, t, removed)
    {
      removed := HashedIn(t, scope, hash) != {};
      if removed {
        t := WithoutHash(t, scope, hash);
        return;
      }
      var found := InheritedBySessionHash(scope, hash);
      if found.Some? {
        var (userId, k) := found.value;
        var home := SourceOf(t, scope, userId).scope;
        assert k in HashedIn(t, home, hash);
        t := WithoutHash(t, home, hash);
        removed := true;
      }
    }
  }
}
