/** One session token over its whole life: from the login that issues it, through any later logins,
    logouts and clock ticks of anybody, to the point where it stops resolving. */
module RbacLaws {
  import opened Prelude
  import opened PyText
  import opened Rbac

  datatype Act =
    | SignIn(scope: ScopeKey, who: Principal, hash: string)
    | SignOut(scope: ScopeKey, hash: string)
    | Tick(seconds: nat)

  /** What a successful login found: a resolved, active user and a workspace that can be bootstrapped. */
  ghost predicate MayLogIn(t: Tables, scope: ScopeKey, who: Principal) {
    && RowOf(who) in t.users && t.users[RowOf(who)].isActive
    && LoginFinds(t, scope, t.users[RowOf(who)].email, who)
    && !BootstrapFails(t, scope)
  }

  ghost predicate Does(t: Tables, a: Act, t': Tables) {
    match a
    case SignIn(scope, who, hash) => MayLogIn(t, scope, who) && t' == LoggedIn(t, scope, who, hash)
    case SignOut(scope, hash) => exists removed :: LogsOut(t, scope, hash, t', removed)
    case Tick(seconds) => t' == t.(now := t.now + seconds)
  }

  ghost predicate Run(states: seq<Tables>, acts: seq<Act>) {
    && |states| == |acts| + 1
    && forall i :: 0 <= i < |acts| ==> Does(states[i], acts[i], states[i + 1])
  }

  /** No session, of any workspace, carries the hash. */
  predicate Unknown(t: Tables, hash: string) {
    forall k :: k in t.sessions ==> t.sessions[k].tokenHash != hash
  }

  // ---------- What the tables say, column by column ----------

  /** A binding for future workspaces, an active user row in the binding's source workspace, and a
      workspace that is registered or has a role. */
  ghost predicate InheritsFrom(t: Tables, scope: ScopeKey, userId: string, home: ScopeKey) {
    && BindingKey(scope.tenant, userId) in t.bindings
    && t.bindings[BindingKey(scope.tenant, userId)].future
    && home.tenant == scope.tenant && home.workspace == t.bindings[BindingKey(scope.tenant, userId)].sourceWorkspace
    && UserKey(home, userId) in t.users && t.users[UserKey(home, userId)].isActive
    && (scope in t.openWorkspaces || exists id :: RowKey(scope, id) in t.roles)
  }

  lemma InheritedExactly(t: Tables, scope: ScopeKey, userId: string)
    ensures Inherited(t, scope, userId) <==> exists home :: InheritsFrom(t, scope, userId, home)
    ensures Inherited(t, scope, userId) ==>
      InheritsFrom(t, scope, userId, SourceOf(t, scope, userId).scope) && SourceOf(t, scope, userId).userId == userId
  {
    assert WorkspaceExists(t, scope) <==> (scope in t.openWorkspaces || exists id :: RowKey(scope, id) in t.roles) by {
      if id :| RowKey(scope, id) in t.roles {
        assert RowKey(scope, id).scope == scope;
      }
      if r :| r in t.roles && r.scope == scope {
        assert RowKey(scope, r.id) == r;
      }
    }
    hide WorkspaceExists;
    if Inherited(t, scope, userId) {
      assert InheritsFrom(t, scope, userId, SourceOf(t, scope, userId).scope);
    }
    if home :| InheritsFrom(t, scope, userId, home) {
      assert SourceOf(t, scope, userId).scope == home;
    }
  }

  /** The row of a user by his email. */
  predicate HasEmail(t: Tables, home: ScopeKey, userId: string, email: string) {
    UserKey(home, userId) in t.users && t.users[UserKey(home, userId)].email == email
  }

  /** A login finds a user of the workspace with this very email; only when there is none, the first by
      user id of those with this email who are inherited into it. */
  lemma LoginFindsExactly(t: Tables, scope: ScopeKey, email: string, who: Principal)
    ensures LoginFinds(t, scope, email, who) <==>
      && HasEmail(t, who.home, who.userId, email)
      && (!who.inherited ==> who.home == scope)
      && (who.inherited ==>
        && InheritsFrom(t, scope, who.userId, who.home)
        && (forall u :: !HasEmail(t, scope, u, email))
        && forall u, home :: InheritsFrom(t, scope, u, home) && HasEmail(t, home, u, email) ==> TextLeq(who.userId, u))
  {
    forall u
      ensures HasEmail(t, scope, u, email) <==> DirectByEmail(t, scope, email, u)
    {
    }
    forall u
      ensures InheritedByEmail(t, scope, email, u) <==>
        exists home :: InheritsFrom(t, scope, u, home) && HasEmail(t, home, u, email)
      ensures forall home :: InheritsFrom(t, scope, u, home) ==> SourceOf(t, scope, u) == UserKey(home, u)
    {
      InheritedExactly(t, scope, u);
    }
    hide InheritedByEmail, DirectByEmail, HasEmail, TextLeq;
    InheritedExactly(t, scope, who.userId);
    hide Inherited, InheritsFrom;
  }

  /** A live row of the token in the user's workspace. */
  predicate HasLiveRow(t: Tables, home: ScopeKey, userId: string, hash: string, sessionId: string) {
    var k := SessionKey(home, sessionId);
    && k in t.sessions && t.sessions[k].tokenHash == hash && t.sessions[k].userId == userId
    && t.now < t.sessions[k].expiresAt
  }

  /** A token finds an active user of the workspace with a live row there; only when there is none, the
      first by user id of those inherited into it who have one in their own workspace. */
  lemma SessionFindsExactly(t: Tables, scope: ScopeKey, hash: string, who: Principal, k: SessionKey)
    ensures SessionFinds(t, scope, hash, who, k) <==>
      && k.scope == who.home && HasLiveRow(t, who.home, who.userId, hash, k.sessionId)
      && UserKey(who.home, who.userId) in t.users && t.users[UserKey(who.home, who.userId)].isActive
      && (!who.inherited ==> who.home == scope)
      && (who.inherited ==>
        && InheritsFrom(t, scope, who.userId, who.home)
        && (forall u, id :: HasLiveRow(t, scope, u, hash, id) ==>
          !(UserKey(scope, u) in t.users && t.users[UserKey(scope, u)].isActive))
        && forall u, home, id :: InheritsFrom(t, scope, u, home) && HasLiveRow(t, home, u, hash, id) ==>
          TextLeq(who.userId, u))
  {
    LiveRows(t, hash);
    forall u, j
      ensures InheritedBySession(t, scope, hash, u, j) <==>
        InheritsFrom(t, scope, u, j.scope) && HasLiveRow(t, j.scope, u, hash, j.sessionId)
    {
      InheritedExactly(t, scope, u);
    }
    forall u, j
      ensures DirectBySession(t, scope, hash, u, j) <==>
        j.scope == scope && HasLiveRow(t, scope, u, hash, j.sessionId)
        && UserKey(scope, u) in t.users && t.users[UserKey(scope, u)].isActive
    {
    }
    InheritedExactly(t, scope, who.userId);
    hide LiveSession, HasLiveRow, Inherited, InheritedBySession, DirectBySession, TextLeq;
    assert forall u, home, id :: HasLiveRow(t, home, u, hash, id) <==>
      LiveSession(t, home, u, hash, SessionKey(home, id));
    SearchedAlike(t, scope, hash, who.userId);
  }

  lemma LiveRows(t: Tables, hash: string)
    ensures forall u, j: SessionKey, home ::
      LiveSession(t, home, u, hash, j) <==> j.scope == home && HasLiveRow(t, home, u, hash, j.sessionId)
  {
  }

  /** The two ways of looking through all rows agree. */
  lemma SearchedAlike(t: Tables, scope: ScopeKey, hash: string, userId: string)
    requires forall u, j: SessionKey :: InheritedBySession(t, scope, hash, u, j) <==>
      InheritsFrom(t, scope, u, j.scope) && HasLiveRow(t, j.scope, u, hash, j.sessionId)
    requires forall u, j: SessionKey :: DirectBySession(t, scope, hash, u, j) <==>
      j.scope == scope && HasLiveRow(t, scope, u, hash, j.sessionId)
      && UserKey(scope, u) in t.users && t.users[UserKey(scope, u)].isActive
    ensures (forall u, j :: !DirectBySession(t, scope, hash, u, j)) <==>
      forall u, id :: HasLiveRow(t, scope, u, hash, id) ==>
        !(UserKey(scope, u) in t.users && t.users[UserKey(scope, u)].isActive)
    ensures (forall u, j :: InheritedBySession(t, scope, hash, u, j) ==> TextLeq(userId, u)) <==>
      forall u, home, id :: InheritsFrom(t, scope, u, home) && HasLiveRow(t, home, u, hash, id) ==> TextLeq(userId, u)
  {
    hide *;
    if forall u, j :: !DirectBySession(t, scope, hash, u, j) {
      forall u, id | HasLiveRow(t, scope, u, hash, id)
        ensures !(UserKey(scope, u) in t.users && t.users[UserKey(scope, u)].isActive)
      {
        assert !DirectBySession(t, scope, hash, u, SessionKey(scope, id));
      }
    }
    if forall u, j :: InheritedBySession(t, scope, hash, u, j) ==> TextLeq(userId, u) {
      forall u, home, id | InheritsFrom(t, scope, u, home) && HasLiveRow(t, home, u, hash, id)
        ensures TextLeq(userId, u)
      {
        assert InheritedBySession(t, scope, hash, u, SessionKey(home, id));
      }
    }
  }

  /** A session id is `ses_` and the beginning of the hash: two are equal exactly when the first 24
      characters of the hashes are. */
  lemma SessionIdsAgreeExactly(hash: string, other: string)
    ensures "ses_" <= SessionIdOf(hash)
    ensures SessionIdOf(hash) == SessionIdOf(other) <==>
      if |hash| >= 24 && |other| >= 24 then hash[..24] == other[..24] else hash == other
  {
    var a, b := hash[..Min(24, |hash|)], other[..Min(24, |other|)];
    assert SessionIdOf(hash)[4..] == a && SessionIdOf(other)[4..] == b;
  }

  /** A successful login stores one session at the user's home for 86400 seconds, over any row of the same
      session id, and copies to the workspace what it lacks of the template; nothing else changes. */
  lemma LoginEffects(t: Tables, scope: ScopeKey, who: Principal, hash: string)
    ensures var t' := LoggedIn(t, scope, who, hash);
      var k := SessionKey(who.home, SessionIdOf(hash));
      && t' == t.(sessions := t'.sessions, roles := t'.roles, permissions := t'.permissions, grants := t'.grants)
      && k in t'.sessions && t'.sessions[k].tokenHash == hash && t'.sessions[k].userId == who.userId
      && t'.sessions[k].expiresAt == t.now + 86400
      && (forall j :: j != k ==>
        (j in t'.sessions <==> j in t.sessions) && (j in t.sessions ==> t'.sessions[j] == t.sessions[j]))
      && CopiesTemplate(t.roles, t'.roles, scope) && CopiesTemplate(t.permissions, t'.permissions, scope)
      && forall g :: g in t'.grants <==>
        g in t.grants
        || (g.role.scope == scope && Grant(RowKey(ScopeKey("default", "default"), g.role.id), g.permission) in t.grants)
  {
    hide SessionIdOf;
    var t' := LoggedIn(t, scope, who, hash);
    CopyIsCopy(t.roles, scope);
    CopyIsCopy(t.permissions, scope);
    hide CopiesTemplate, Copied;
    forall g: Grant
      ensures g in t'.grants <==>
        g in t.grants
        || (g.role.scope == scope && Grant(RowKey(ScopeKey("default", "default"), g.role.id), g.permission) in t.grants)
    {
      var src := Grant(RowKey(ScopeKey("default", "default"), g.role.id), g.permission);
      if g.role.scope == scope && src in t.grants {
        assert GrantIn(scope, src) == g;
      }
    }
  }

  /** Rows stay with their names, and the rows the workspace lacks come from the template with theirs. */
  ghost predicate CopiesTemplate(rows: map<RowKey, string>, copied: map<RowKey, string>, scope: ScopeKey) {
    && (forall r :: r in rows ==> r in copied && copied[r] == rows[r])
    && (forall id :: RowKey(ScopeKey("default", "default"), id) in rows ==> RowKey(scope, id) in copied)
    && forall r :: r in copied && r !in rows ==>
      var src := RowKey(ScopeKey("default", "default"), r.id);
      r.scope == scope && src in rows && copied[r] == rows[src]
  }

  lemma CopyIsDetermined(rows: map<RowKey, string>, a: map<RowKey, string>, b: map<RowKey, string>, scope: ScopeKey)
    requires CopiesTemplate(rows, a, scope) && CopiesTemplate(rows, b, scope)
    ensures a == b
  {
    forall r
      ensures r in a <==> r in b
    {
      assert r == RowKey(r.scope, r.id);
    }
  }

  lemma CopyIsCopy(rows: map<RowKey, string>, scope: ScopeKey)
    ensures CopiesTemplate(rows, Copied(rows, scope), scope)
  {
    forall id | RowKey(ScopeKey("default", "default"), id) in rows
      ensures RowKey(scope, id) in Copied(rows, scope)
    {
      var src := RowKey(ScopeKey("default", "default"), id);
      assert src in rows && src.scope == TEMPLATE && RowKey(scope, src.id) == RowKey(scope, id);
    }
  }

  /** A logout deletes rows of this token in one workspace and nothing else: in the given one when it has
      such rows, else in the home of the first inherited user with a live row, else nowhere. */
  lemma LogoutEffects(t: Tables, scope: ScopeKey, hash: string, t': Tables, removed: bool) returns (home: ScopeKey)
    requires LogsOut(t, scope, hash, t', removed)
    ensures t' == t.(sessions := t'.sessions)
    ensures removed <==> t' != t
    ensures forall k :: k in t'.sessions ==> k in t.sessions && t'.sessions[k] == t.sessions[k]
    ensures forall k :: k in t.sessions && k !in t'.sessions ==> t.sessions[k].tokenHash == hash && k.scope == home
    ensures removed ==> forall k :: k in t'.sessions && k.scope == home ==> t'.sessions[k].tokenHash != hash
    ensures forall k ::
      k in t.sessions && k.scope == scope && t.sessions[k].tokenHash == hash ==> removed && home == scope
  {
    var found := LogoutDeletesAt(t, scope, hash, t', removed);
    home := found.GetOr(scope);
    if k :| k in t.sessions && k.scope == scope && t.sessions[k].tokenHash == hash {
      assert k in HashedIn(t, scope, hash);
    }
    if found.Some? {
      LogoutFindsRow(t, scope, hash, found.value);
    }
    hide LogsOut, InheritedBySession;
  }

  lemma LogoutFindsRow(t: Tables, scope: ScopeKey, hash: string, home: ScopeKey)
    requires HashedIn(t, scope, hash) != {} ==> home == scope
    requires HashedIn(t, scope, hash) == {} ==>
      exists u, j :: InheritedBySession(t, scope, hash, u, j) && home == SourceOf(t, scope, u).scope
    ensures HashedIn(t, home, hash) != {}
  {
    if HashedIn(t, scope, hash) == {} {
      var u, j :| InheritedBySession(t, scope, hash, u, j) && home == SourceOf(t, scope, u).scope;
      assert j in HashedIn(t, home, hash);
    }
  }

  /** What a context says of its user. */
  lemma ContextSays(t: Tables, scope: ScopeKey, who: Principal, sessionId: string, p: string)
    requires RowOf(who) in t.users
    ensures var c, u := ContextOf(t, scope, who, sessionId), t.users[UserKey(who.home, who.userId)];
      && c.scope == scope && c.userId == who.userId && c.sessionId == sessionId
      && c.email == u.email && c.fullName == u.fullName && c.isSuperadmin == u.isSuperadmin
      && c.inherited == who.inherited
      && (who.inherited ==> c.sourceWorkspace == Some(who.home.workspace))
      && (!who.inherited ==> c.sourceWorkspace == None)
      && (p in c.permissions <==> p != "" && Permitted(t, scope, who.userId, p))
  {
    hide PermissionsOf, Permitted;
    PermittedExactly(t, scope, who.userId, p);
  }

  // ---------- Who has which permission ----------

  /** Some permission is granted to the role. */
  ghost predicate HasGrants(t: Tables, role: RowKey) {
    exists p :: p != "" && Grant(role, p) in t.grants
  }

  /** A user has a permission through exactly one role: his own while his row in the workspace is
      active, else that of the binding he is inherited by; and through the grants of that role in the
      workspace, or, if it has none there, in the workspace he is inherited from. */
  ghost predicate Permitted(t: Tables, scope: ScopeKey, userId: string, p: string) {
    var u := UserKey(scope, userId);
    if u in t.userRoles && u in t.users && t.users[u].isActive then Grant(RowKey(scope, t.userRoles[u]), p) in t.grants
    else
      Inherited(t, scope, userId) && (
        var roleId, home := t.bindings[BindingKey(scope.tenant, userId)].roleId, SourceOf(t, scope, userId).scope;
        || Grant(RowKey(scope, roleId), p) in t.grants
        || (!HasGrants(t, RowKey(scope, roleId)) && Grant(RowKey(home, roleId), p) in t.grants))
  }

  lemma PermittedExactly(t: Tables, scope: ScopeKey, userId: string, p: string)
    ensures p in PermissionsOf(t, scope, userId) <==> p != "" && Permitted(t, scope, userId, p)
  {
    hide Inherited;
    match EffectiveRole(t, scope, userId)
    case None =>
    case Some((roleId, source)) =>
      GrantsAre(t, RowKey(scope, roleId), p);
      GrantsAre(t, RowKey(source, roleId), p);
  }

  lemma GrantsAre(t: Tables, role: RowKey, p: string)
    ensures p in GrantsOf(t, role) <==> p != "" && Grant(role, p) in t.grants
    ensures GrantsOf(t, role) == {} <==> !HasGrants(t, role)
  {
    if GrantsOf(t, role) != {} {
      var q :| q in GrantsOf(t, role);
      assert Grant(role, q) in t.grants;
    }
    if HasGrants(t, role) {
      var q :| q != "" && Grant(role, q) in t.grants;
      assert q in GrantsOf(t, role);
    }
  }

  /** In a bootstrapped workspace whoever has a role has all that the template grants to it. */
  lemma TemplateGrantsReach(t: Tables, scope: ScopeKey, userId: string, roleId: string, source: ScopeKey, p: string)
    requires EffectiveRole(t, scope, userId) == Some((roleId, source))
    requires p != "" && Grant(RowKey(TEMPLATE, roleId), p) in t.grants
    ensures p in PermissionsOf(Bootstrapped(t, scope), scope, userId)
  {
    var t' := Bootstrapped(t, scope);
    assert t.roles.Keys <= t'.roles.Keys;
    assert Grant(RowKey(scope, roleId), p) in t'.grants by {
      var g := Grant(RowKey(TEMPLATE, roleId), p);
      assert g.role.scope == TEMPLATE;
    }
    assert WorkspaceExists(t, scope) ==> WorkspaceExists(t', scope) by {
      if r :| r in t.roles && r.scope == scope {
        assert r in t'.roles;
      }
    }
    GrantsAre(t', RowKey(scope, roleId), p);
    assert EffectiveRole(t', scope, userId) == EffectiveRole(t, scope, userId);
  }

  // ---------- When a workspace can be bootstrapped ----------

  /** The unique names of the schema. */
  predicate NamesAreUnique(rows: map<RowKey, string>) {
    forall r, q :: r in rows && q in rows && r.scope == q.scope && rows[r] == rows[q] ==> r == q
  }

  /** The copy keeps names unique exactly when no name clashes, which is when the source does not raise. */
  lemma CopyKeepsNamesExactly(rows: map<RowKey, string>, scope: ScopeKey)
    requires NamesAreUnique(rows)
    ensures NamesAreUnique(Copied(rows, scope)) <==> !NamesClash(rows, scope)
  {
    var copied := Copied(rows, scope);
    if src, r :| src in rows && src.scope == TEMPLATE && RowKey(scope, src.id) !in rows
                 && r in rows && r.scope == scope && rows[r] == rows[src] {
      assert copied[RowKey(scope, src.id)] == copied[r] && RowKey(scope, src.id) in copied && r in copied;
    } else {
      forall r, q | r in copied && q in copied && r.scope == q.scope && copied[r] == copied[q]
        ensures r == q
      {
        CopiedRow(rows, scope, r);
        CopiedRow(rows, scope, q);
      }
    }
  }

  /** The bootstrap of a login raises exactly when the copy would give two roles or two
      permissions of the workspace one name. */
  lemma BootstrapFailsExactly(t: Tables, scope: ScopeKey)
    requires NamesAreUnique(t.roles) && NamesAreUnique(t.permissions)
    ensures var t' := Bootstrapped(t, scope);
      BootstrapFails(t, scope) <==> !(NamesAreUnique(t'.roles) && NamesAreUnique(t'.permissions))
  {
    hide NamesClash, NamesAreUnique, Copied;
    CopyKeepsNamesExactly(t.roles, scope);
    CopyKeepsNamesExactly(t.permissions, scope);
  }

  /** It happens: the workspace has a role of its own under the name of a role of the template. */
  lemma ClashHappens(scope: ScopeKey, name: string)
    requires scope != TEMPLATE
    ensures var rows := map[RowKey(TEMPLATE, "admin") := name, RowKey(scope, "own") := name];
      NamesAreUnique(rows) && NamesClash(rows, scope)
  {
    var src, own := RowKey(TEMPLATE, "admin"), RowKey(scope, "own");
    var rows := map[src := name, own := name];
    assert src in rows && own in rows && RowKey(scope, src.id) !in rows;
  }

  /** Where a row of the copy comes from. */
  lemma CopiedRow(rows: map<RowKey, string>, scope: ScopeKey, r: RowKey)
    requires r in Copied(rows, scope)
    ensures (r in rows && Copied(rows, scope)[r] == rows[r])
      || (r !in rows && r.scope == scope && RowKey(TEMPLATE, r.id) in rows
        && Copied(rows, scope)[r] == rows[RowKey(TEMPLATE, r.id)])
  {
  }

  /** A bootstrapped workspace can be bootstrapped again, and a second time changes nothing. */
  lemma BootstrapIsIdempotent(t: Tables, scope: ScopeKey)
    ensures var t' := Bootstrapped(t, scope);
      !BootstrapFails(t', scope) && Bootstrapped(t', scope) == t'
  {
    var t' := Bootstrapped(t, scope);
    BootstrapCloses(t, scope);
    CopyIsIdempotent(t.roles, scope);
    CopyIsIdempotent(t.permissions, scope);
    assert Bootstrapped(t', scope).grants == t'.grants;
  }

  lemma CopyIsIdempotent(rows: map<RowKey, string>, scope: ScopeKey)
    ensures var copied := Copied(rows, scope); !NamesClash(copied, scope) && Copied(copied, scope) == copied
  {
    var copied := Copied(rows, scope);
    forall r | r in copied && r.scope == TEMPLATE
      ensures RowKey(scope, r.id) in copied
    {
      CopiedRow(rows, scope, r);
    }
    assert Copied(copied, scope).Keys == copied.Keys;
  }

  // ---------- Permissions do not drift ----------

  /** The template has nothing left to copy into `scope`. */
  predicate Closed(t: Tables, scope: ScopeKey) {
    && (forall r :: r in t.roles && r.scope == TEMPLATE ==> RowKey(scope, r.id) in t.roles)
    && (forall g :: g in t.grants && g.role.scope == TEMPLATE ==>
      Grant(RowKey(scope, g.role.id), g.permission) in t.grants)
  }

  /** `t` differs from `first` only in what bootstrapping other workspaces adds, and in sessions. */
  ghost predicate Settled(first: Tables, t: Tables, scope: ScopeKey) {
    && t.users == first.users && t.bindings == first.bindings
    && t.openWorkspaces == first.openWorkspaces && t.userRoles == first.userRoles
    && (forall r: RowKey :: r.scope == scope || r.scope == TEMPLATE ==> (r in t.roles <==> r in first.roles))
    && (forall g: Grant :: g.role.scope == scope || g.role.scope == TEMPLATE ==> (g in t.grants <==> g in first.grants))
    && first.grants <= t.grants
    && (forall g :: g in t.grants - first.grants ==>
      Grant(RowKey(TEMPLATE, g.role.id), g.permission) in first.grants)
  }

  lemma BootstrapSettles(first: Tables, t: Tables, scope: ScopeKey, other: ScopeKey)
    requires Closed(first, scope) && Settled(first, t, scope)
    ensures Settled(first, Bootstrapped(t, other), scope)
  {
    var t' := Bootstrapped(t, other);
    forall g: Grant | g in t'.grants && g !in t.grants
      ensures Grant(RowKey(TEMPLATE, g.role.id), g.permission) in first.grants
      ensures g.role.scope == scope || g.role.scope == TEMPLATE ==> g in first.grants
    {
      var src :| src in t.grants && src.role.scope == TEMPLATE
        && g == Grant(RowKey(other, src.role.id), src.permission);
      assert src == Grant(RowKey(TEMPLATE, g.role.id), g.permission);
      assert src in first.grants;
    }
  }

  /** Later bootstraps of any workspace leave the permissions in a bootstrapped one as they were: the
      grants of the source workspace count only for a role the template grants nothing to. */
  lemma PermissionsSettle(first: Tables, t: Tables, scope: ScopeKey, userId: string)
    requires Closed(first, scope) && Settled(first, t, scope)
    ensures Inherited(t, scope, userId) == Inherited(first, scope, userId)
    ensures PermissionsOf(t, scope, userId) == PermissionsOf(first, scope, userId)
  {
    WorkspaceSettles(first, t, scope);
    match EffectiveRole(first, scope, userId)
    case None =>
    case Some((roleId, source)) =>
      OwnGrantsSettle(first, t, RowKey(scope, roleId));
      if source != scope && GrantsOf(first, RowKey(scope, roleId)) == {} {
        FallbackGrantsSettle(first, t, scope, RowKey(source, roleId));
      }
  }

  lemma WorkspaceSettles(first: Tables, t: Tables, scope: ScopeKey)
    requires Settled(first, t, scope)
    ensures WorkspaceExists(t, scope) == WorkspaceExists(first, scope)
  {
  }

  lemma OwnGrantsSettle(first: Tables, t: Tables, role: RowKey)
    requires Settled(first, t, role.scope)
    ensures GrantsOf(t, role) == GrantsOf(first, role)
  {
  }

  lemma FallbackGrantsSettle(first: Tables, t: Tables, scope: ScopeKey, role: RowKey)
    requires Closed(first, scope) && Settled(first, t, scope)
    requires GrantsOf(first, RowKey(scope, role.id)) == {}
    ensures GrantsOf(t, role) == GrantsOf(first, role)
  {
    forall g | g in t.grants && g.role == role && g.permission != ""
      ensures g in first.grants
    {
      assert g.permission !in GrantsOf(first, RowKey(scope, role.id));
      assert Grant(RowKey(scope, role.id), g.permission) !in first.grants;
    }
  }

  // ---------- The row of one token ----------

  /** A token, and the row its login stored. */
  datatype Token = Token(scope: ScopeKey, who: Principal, hash: string, expiresAt: int) {
    function Key(): SessionKey {
      SessionKey(who.home, SessionIdOf(hash))
    }
  }

  /** The token's row is there, and no other row has its hash. */
  predicate Stored(t: Tables, k: Token) {
    && k.Key() in t.sessions && t.sessions[k.Key()] == Session(k.hash, k.who.userId, k.expiresAt)
    && forall j :: j in t.sessions && t.sessions[j].tokenHash == k.hash ==> j == k.Key()
  }

  /** The act takes the token's row away: a logout of this token where it is kept or resolves, or a
      login stored under the same session id. */
  ghost predicate Ends(t: Tables, a: Act, k: Token) {
    match a
    case SignIn(_, who, hash) => SessionKey(who.home, SessionIdOf(hash)) == k.Key()
    case SignOut(scope, hash) => hash == k.hash && (scope == k.who.home || Resolves(t, scope, hash))
    case Tick(_) => false
  }

  /** Tokens are generated fresh: nobody logs in with this hash again. */
  predicate NotReissued(a: Act, hash: string) {
    a.SignIn? ==> a.hash != hash
  }

  lemma StepOfRow(t: Tables, a: Act, t': Tables, k: Token)
    requires Does(t, a, t') && NotReissued(a, k.hash)
    ensures Unknown(t, k.hash) ==> Unknown(t', k.hash)
    ensures Stored(t, k) && !Ends(t, a, k) ==> Stored(t', k)
    ensures Stored(t, k) && Ends(t, a, k) ==> Unknown(t', k.hash)
  {
    match a
    case SignIn(scope, who, hash) => SignInOfRow(t, scope, who, hash, k);
    case SignOut(_, _) =>
      hide Ends, Stored;
      SignOutKeepsUnknown(t, a, t', k.hash);
      if Stored(t, k) {
        SignOutOfRow(t, a, t', k);
      }
    case Tick(_) =>
  }

  lemma SignInOfRow(t: Tables, scope: ScopeKey, who: Principal, hash: string, k: Token)
    requires hash != k.hash
    ensures var t' := LoggedIn(t, scope, who, hash);
      && (Unknown(t, k.hash) ==> Unknown(t', k.hash))
      && (Stored(t, k) ==>
            if SessionKey(who.home, SessionIdOf(hash)) == k.Key() then Unknown(t', k.hash) else Stored(t', k))
  {
    hide SessionIdOf;
  }

  lemma SignOutKeepsUnknown(t: Tables, a: Act, t': Tables, hash: string)
    requires a.SignOut? && Does(t, a, t')
    ensures Unknown(t, hash) ==> Unknown(t', hash)
  {
    var removed :| LogsOut(t, a.scope, a.hash, t', removed);
    var home := LogoutDeletesAt(t, a.scope, a.hash, t', removed);
    hide Does, LogsOut, InheritedBySession, Inherited;
  }

  lemma SignOutOfRow(t: Tables, a: Act, t': Tables, k: Token)
    requires a.SignOut? && Does(t, a, t') && Stored(t, k)
    ensures if Ends(t, a, k) then Unknown(t', k.hash) else Stored(t', k)
  {
    if a.hash != k.hash {
      OtherTokenSignsOut(t, a, t', k);
    } else if a.scope == k.who.home {
      assert k.Key() in HashedIn(t, a.scope, a.hash);
      hide Resolves, InheritedBySession, FirstInherited, Inherited, Unknown;
      DeletedIsUnknown(t, k);
    } else {
      hide Stored, Unknown, Resolves, Does;
      SignOutAway(t, a, t', k);
    }
  }

  /** The workspace in which a logout deletes, if it deletes at all. */
  lemma LogoutDeletesAt(t: Tables, scope: ScopeKey, hash: string, t': Tables, removed: bool)
    returns (home: Option<ScopeKey>)
    requires LogsOut(t, scope, hash, t', removed)
    ensures removed == home.Some? && t' == if home.Some? then WithoutHash(t, home.value, hash) else t
    ensures HashedIn(t, scope, hash) != {} ==> home == Some(scope)
    ensures HashedIn(t, scope, hash) == {} && home.Some? ==>
      exists u, j :: InheritedBySession(t, scope, hash, u, j) && home.value == SourceOf(t, scope, u).scope
    ensures home.None? ==> forall u, j :: !InheritedBySession(t, scope, hash, u, j)
  {
    hide LiveSession, HashedIn, WithoutHash;
    if HashedIn(t, scope, hash) != {} {
      home := Some(scope);
    } else if removed {
      var u, j :| FirstInherited(t, scope, hash, u, j) && t' == WithoutHash(t, SourceOf(t, scope, u).scope, hash);
      home := Some(SourceOf(t, scope, u).scope);
    } else {
      home := None;
    }
  }

  lemma OtherTokenSignsOut(t: Tables, a: Act, t': Tables, k: Token)
    requires a.SignOut? && a.hash != k.hash && Does(t, a, t') && Stored(t, k)
    ensures Stored(t', k)
  {
    var removed :| LogsOut(t, a.scope, a.hash, t', removed);
    var home := LogoutDeletesAt(t, a.scope, a.hash, t', removed);
    hide Does, LogsOut, InheritedBySession, Inherited;
  }

  /** An inherited user found by the token is found in the token's row. */
  lemma InheritedIsToken(t: Tables, k: Token, scope: ScopeKey, u: string, j: SessionKey)
    requires Stored(t, k) && InheritedBySession(t, scope, k.hash, u, j)
    ensures j == k.Key() && SourceOf(t, scope, u).scope == k.who.home
  {
  }

  lemma DeletedIsUnknown(t: Tables, k: Token)
    requires Stored(t, k)
    ensures Unknown(WithoutHash(t, k.who.home, k.hash), k.hash)
  {
  }

  /** A logout of the token in another workspace than the one it is kept in. */
  lemma SignOutAway(t: Tables, a: Act, t': Tables, k: Token)
    requires a.SignOut? && a.hash == k.hash && a.scope != k.who.home && Does(t, a, t') && Stored(t, k)
    ensures if Resolves(t, a.scope, a.hash) then Unknown(t', k.hash) else Stored(t', k)
  {
    assert HashedIn(t, a.scope, a.hash) == {};
    var removed :| LogsOut(t, a.scope, a.hash, t', removed);
    var home := LogoutDeletesAt(t, a.scope, a.hash, t', removed);
    hide Does, LogsOut, InheritedBySession, Unknown, Stored, WithoutHash, HashedIn;
    if home.Some? {
      var u, j :| InheritedBySession(t, a.scope, a.hash, u, j) && home.value == SourceOf(t, a.scope, u).scope;
      InheritedIsToken(t, k, a.scope, u, j);
      InheritedResolves(t, a.scope, a.hash, u, j);
      DeletedIsUnknown(t, k);
    } else if Resolves(t, a.scope, a.hash) {
      ResolvesAway(t, k, a.scope);
      assert false;
    }
  }

  /** Away from its own workspace a token resolves through inheritance or not at all. */
  lemma ResolvesAway(t: Tables, k: Token, scope: ScopeKey)
    requires Stored(t, k) && scope != k.who.home && Resolves(t, scope, k.hash)
    ensures exists u, j :: InheritedBySession(t, scope, k.hash, u, j)
  {
    var who, j :| SessionFinds(t, scope, k.hash, who, j);
    assert who.inherited;
  }

  lemma InheritedResolves(t: Tables, scope: ScopeKey, hash: string, u: string, j: SessionKey)
    requires InheritedBySession(t, scope, hash, u, j)
    ensures Resolves(t, scope, hash)
  {
    if v, i :| DirectBySession(t, scope, hash, v, i) {
      assert SessionFinds(t, scope, hash, Principal(v, scope, false), i);
    } else {
      var v, i := SomeFirst(t, scope, hash, u, j);
      assert SessionFinds(t, scope, hash, Principal(v, SourceOf(t, scope, v).scope, true), i);
    }
  }

  lemma SomeFirst(t: Tables, scope: ScopeKey, hash: string, u: string, j: SessionKey) returns (v: string, i: SessionKey)
    requires InheritedBySession(t, scope, hash, u, j)
    ensures FirstInherited(t, scope, hash, v, i)
  {
    var ids := set k |
      k in t.sessions && InheritedBySession(t, scope, hash, t.sessions[k].userId, k) :: t.sessions[k].userId;
    forall w, k | InheritedBySession(t, scope, hash, w, k) ensures w in ids {
      assert k in t.sessions && t.sessions[k].userId == w;
    }
    v := LeastText(ids);
    i :| i in t.sessions && InheritedBySession(t, scope, hash, v, i);
  }

  // ---------- Logins are determined ----------

  /** No workspace has two users of one email, as the schema demands. */
  predicate EmailsAreUnique(t: Tables) {
    forall u, v :: u in t.users && v in t.users && u.scope == v.scope && t.users[u].email == t.users[v].email ==> u == v
  }

  lemma LoginIsDetermined(t: Tables, scope: ScopeKey, email: string, who: Principal, other: Principal)
    requires EmailsAreUnique(t) && LoginFinds(t, scope, email, who) && LoginFinds(t, scope, email, other)
    ensures who == other
  {
    TextOrder(who.userId, other.userId);
  }

  // ---------- Resolving ----------

  /** What the login relied on, still true wherever the tables are settled. */
  ghost predicate Entitled(t: Tables, k: Token) {
    && RowOf(k.who) in t.users && t.users[RowOf(k.who)].isActive
    && if k.who.inherited then
         && k.who.home != k.scope && Inherited(t, k.scope, k.who.userId)
         && SourceOf(t, k.scope, k.who.userId) == RowOf(k.who)
       else k.who.home == k.scope
  }

  /** A stored token of an entitled user resolves exactly before it expires, and to that user only. */
  lemma StoredResolves(t: Tables, k: Token)
    requires Stored(t, k) && Entitled(t, k)
    ensures forall who, j :: SessionFinds(t, k.scope, k.hash, who, j) <==>
      (who == k.who && j == k.Key() && t.now < k.expiresAt)
  {
    forall who, j | SessionFinds(t, k.scope, k.hash, who, j)
      ensures who == k.who && j == k.Key() && t.now < k.expiresAt
    {
      assert j == k.Key();
      if who.inherited && !k.who.inherited {
        assert DirectBySession(t, k.scope, k.hash, k.who.userId, k.Key());
      }
    }
    TextOrder(k.who.userId, k.who.userId);
    if t.now < k.expiresAt {
      assert SessionFinds(t, k.scope, k.hash, k.who, k.Key());
    }
  }

  lemma UnknownNeverResolves(t: Tables, scope: ScopeKey, hash: string)
    requires Unknown(t, hash)
    ensures !Resolves(t, scope, hash)
  {
  }

  /** A login stores its token's row and settles the workspace; the user it found is entitled. */
  lemma LoginIssues(t: Tables, k: Token)
    requires Unknown(t, k.hash) && MayLogIn(t, k.scope, k.who) && k.expiresAt == t.now + SESSION_TTL_SECONDS
    ensures var t' := LoggedIn(t, k.scope, k.who, k.hash);
      Stored(t', k) && Entitled(t', k) && Closed(t', k.scope)
  {
    hide Bootstrapped, Entitled, MayLogIn, LoggedIn, Closed, Stored;
    StoredAfterLogin(t, k);
    EntitledAfterLogin(t, k);
    ClosedAfterLogin(t, k);
  }

  lemma StoredAfterLogin(t: Tables, k: Token)
    requires Unknown(t, k.hash) && k.expiresAt == t.now + SESSION_TTL_SECONDS
    ensures Stored(LoggedIn(t, k.scope, k.who, k.hash), k)
  {
    hide Copied, GrantIn;
  }

  lemma ClosedAfterLogin(t: Tables, k: Token)
    ensures Closed(LoggedIn(t, k.scope, k.who, k.hash), k.scope)
  {
    hide Bootstrapped;
    BootstrapCloses(t, k.scope);
  }

  lemma EntitledAfterLogin(t: Tables, k: Token)
    requires MayLogIn(t, k.scope, k.who)
    ensures Entitled(LoggedIn(t, k.scope, k.who, k.hash), k)
  {
    hide BootstrapFails;
    var t' := LoggedIn(t, k.scope, k.who, k.hash);
    if k.who.inherited {
      assert DirectByEmail(t, k.who.home, t.users[RowOf(k.who)].email, k.who.userId);
      InheritedAgain(t, t', k.scope, k.who.userId);
    }
  }

  lemma BootstrapCloses(t: Tables, scope: ScopeKey)
    ensures Closed(Bootstrapped(t, scope), scope)
  {
    var t' := Bootstrapped(t, scope);
    forall r | r in t'.roles && r.scope == TEMPLATE
      ensures RowKey(scope, r.id) in t'.roles
    {
      if r in t.roles {
        assert RowKey(scope, r.id) in t'.roles;
      }
    }
    forall g | g in t'.grants && g.role.scope == TEMPLATE
      ensures Grant(RowKey(scope, g.role.id), g.permission) in t'.grants
    {
      if g in t.grants {
        assert Grant(RowKey(scope, g.role.id), g.permission) in t'.grants;
      }
    }
  }

  // ---------- Whole runs ----------

  lemma StepSettles(first: Tables, t: Tables, a: Act, t': Tables, scope: ScopeKey)
    requires Closed(first, scope) && Settled(first, t, scope) && Does(t, a, t')
    ensures Settled(first, t', scope)
  {
    match a
    case SignIn(other, who, hash) =>
      hide Settled, Closed, MayLogIn, Bootstrapped;
      BootstrapSettles(first, t, scope, other);
      SessionsDoNotUnsettle(first, Bootstrapped(t, other), t', scope);
    case SignOut(other, hash) =>
      var removed :| LogsOut(t, other, hash, t', removed);
      var home := LogoutDeletesAt(t, other, hash, t', removed);
      hide Settled, LogsOut, Does, Closed;
      SessionsDoNotUnsettle(first, t, t', scope);
    case Tick(_) =>
      hide Settled, Closed;
      SessionsDoNotUnsettle(first, t, t', scope);
  }

  /** Sessions and the clock have no part in what is settled. */
  lemma SessionsDoNotUnsettle(first: Tables, t: Tables, t': Tables, scope: ScopeKey)
    requires Settled(first, t, scope) && t' == t.(now := t'.now, sessions := t'.sessions)
    ensures Settled(first, t', scope)
  {
  }

  ghost predicate NeverEnded(states: seq<Tables>, acts: seq<Act>, k: Token)
    requires |states| == |acts| + 1
  {
    forall i :: 0 <= i < |acts| ==> !Ends(states[i], acts[i], k)
  }

  lemma {:induction false} RunOfToken(states: seq<Tables>, acts: seq<Act>, k: Token)
    requires Run(states, acts) && (forall a :: a in acts ==> NotReissued(a, k.hash))
    requires Stored(states[0], k) && Closed(states[0], k.scope)
    ensures Settled(states[0], states[|acts|], k.scope)
    ensures if NeverEnded(states, acts, k) then Stored(states[|acts|], k) else Unknown(states[|acts|], k.hash)
    decreases |acts|
  {
    hide Does, Settled, Closed, Stored, Unknown, Ends, NotReissued;
    if acts == [] {
      assert Settled(states[0], states[0], k.scope) by { SettledAtFirst(states[0], k.scope); }
    } else {
      var n := |acts| - 1;
      RunOfToken(states[..|acts|], acts[..n], k);
      assert Does(states[n], acts[n], states[n + 1]) && acts[n] in acts;
      StepSettles(states[0], states[n], acts[n], states[n + 1], k.scope);
      StepOfRow(states[n], acts[n], states[n + 1], k);
      assert NeverEnded(states, acts, k) <==>
        NeverEnded(states[..|acts|], acts[..n], k) && !Ends(states[n], acts[n], k);
    }
  }

  lemma SettledAtFirst(t: Tables, scope: ScopeKey)
    ensures Settled(t, t, scope)
  {
  }

  /** A freshly issued token, over any run of later logins, logouts and clock ticks: it resolves
      exactly as long as it is neither expired nor ended, and then always to the user and the very
      context (workspace, source, permissions) that its login returned. */
  lemma TokenLife(t: Tables, k: Token, states: seq<Tables>, acts: seq<Act>)
    requires Unknown(t, k.hash) && MayLogIn(t, k.scope, k.who) && k.expiresAt == t.now + SESSION_TTL_SECONDS
    requires Run(states, acts) && states[0] == LoggedIn(t, k.scope, k.who, k.hash)
    requires forall a :: a in acts ==> NotReissued(a, k.hash)
    ensures Resolves(states[|acts|], k.scope, k.hash) <==>
      (NeverEnded(states, acts, k) && states[|acts|].now < k.expiresAt)
    ensures forall who, j :: SessionFinds(states[|acts|], k.scope, k.hash, who, j) ==>
      && who == k.who && RowOf(who) in states[|acts|].users
      && ContextOf(states[|acts|], k.scope, who, j.sessionId) ==
        ContextOf(states[0], k.scope, k.who, SessionIdOf(k.hash))
  {
    hide PermissionsOf, SessionFinds, Closed, Stored, LoggedIn, MayLogIn, Inherited;
    var last := states[|acts|];
    LoginIssues(t, k);
    RunOfToken(states, acts, k);
    PermissionsSettle(states[0], last, k.scope, k.who.userId);
    if NeverEnded(states, acts, k) {
      StoredResolves(last, k);
      assert k.Key().sessionId == SessionIdOf(k.hash);
      assert ContextOf(last, k.scope, k.who, SessionIdOf(k.hash)) ==
        ContextOf(states[0], k.scope, k.who, SessionIdOf(k.hash));
      if last.now < k.expiresAt {
        assert SessionFinds(last, k.scope, k.hash, k.who, k.Key());
      }
    } else {
      UnknownNeverResolves(last, k.scope, k.hash);
    }
  }

  /** The tables of a workspace with one user and nothing else. */
  function OnlyUser(scope: ScopeKey, user: User): Tables {
    Tables(0, map[UserKey(scope, "u") := user], map[], map[], {}, map[], map[], {}, map[])
  }

  lemma OnlyUserMayLogIn(scope: ScopeKey, user: User, hash: string)
    requires user.isActive
    ensures MayLogIn(OnlyUser(scope, user), scope, Principal("u", scope, false)) && Unknown(OnlyUser(scope, user), hash)
    ensures EmailsAreUnique(OnlyUser(scope, user))
  {
    assert DirectByEmail(OnlyUser(scope, user), scope, user.email, "u");
  }

  /** It happens: the token of an only user lives for a day and no longer. */
  lemma TokenOfOnlyUserLives(scope: ScopeKey, user: User, hash: string, seconds: nat)
    requires user.isActive
    ensures var t' := LoggedIn(OnlyUser(scope, user), scope, Principal("u", scope, false), hash);
      Resolves(t'.(now := t'.now + seconds), scope, hash) <==> seconds < 86400
  {
    hide *;
    SessionsLastADay();
    var t, k := OnlyUser(scope, user),
      Token(scope, Principal("u", scope, false), hash, OnlyUser(scope, user).now + SESSION_TTL_SECONDS);
    var t' := LoggedIn(t, scope, k.who, hash);
    var acts, states := [Tick(seconds)], [t', t'.(now := t'.now + seconds)];
    OnlyUserMayLogIn(scope, user, hash);
    LoginKeepsTime(t, scope, k.who, hash);
    TimePasses(t', seconds, k);
    TokenLife(t, k, states, acts);
  }

  lemma SessionsLastADay()
    ensures SESSION_TTL_SECONDS == 86400
  {
  }

  /** Time alone is a run that ends no token. */
  lemma TimePasses(t: Tables, seconds: nat, k: Token)
    ensures var acts, states := [Tick(seconds)], [t, t.(now := t.now + seconds)];
      Run(states, acts) && NeverEnded(states, acts, k) && forall a :: a in acts ==> NotReissued(a, k.hash)
  {
    hide SessionFinds, LogsOut, MayLogIn, LoggedIn;
  }

  lemma LoginKeepsTime(t: Tables, scope: ScopeKey, who: Principal, hash: string)
    ensures LoggedIn(t, scope, who, hash).now == t.now
  {
  }

  /** A logout answers true exactly where the token is kept or still resolves, and after it the token
      resolves in no workspace. */
  lemma LogoutEndsToken(t: Tables, k: Token, scope: ScopeKey, t': Tables, removed: bool)
    requires Stored(t, k) && LogsOut(t, scope, k.hash, t', removed)
    ensures removed <==> (scope == k.who.home || Resolves(t, scope, k.hash))
    ensures removed ==> forall s :: !Resolves(t', s, k.hash)
    ensures !removed ==> t' == t
  {
    var a := SignOut(scope, k.hash);
    assert Does(t, a, t');
    SignOutOfRow(t, a, t', k);
    if scope == k.who.home {
      assert k.Key() in HashedIn(t, scope, k.hash);
    } else {
      assert HashedIn(t, scope, k.hash) == {};
      if u, j :| InheritedBySession(t, scope, k.hash, u, j) {
        InheritedResolves(t, scope, k.hash, u, j);
      }
    }
    if Ends(t, a, k) {
      forall s ensures !Resolves(t', s, k.hash) {
        UnknownNeverResolves(t', s, k.hash);
      }
    }
  }

  /** It happens: a second login of the same user with a token whose hash begins with the same 24
      characters ends the first session at once. */
  lemma SharedPrefixEnds(t: Tables, scope: ScopeKey, who: Principal, hash: string, other: string)
    requires MayLogIn(t, scope, who) && Unknown(t, hash) && other != hash && SessionIdOf(other) == SessionIdOf(hash)
    ensures var t' := LoggedIn(t, scope, who, hash);
      Resolves(t', scope, hash) && MayLogIn(t', scope, who)
        && forall s :: !Resolves(LoggedIn(t', scope, who, other), s, hash)
  {
    var k := Token(scope, who, hash, t.now + SESSION_TTL_SECONDS);
    var t' := LoggedIn(t, scope, who, hash);
    LoginIssues(t, k);
    StoredResolves(t', k);
    assert SessionFinds(t', scope, hash, who, k.Key());
    MayLogInAgain(t, scope, who, hash);
    var t'' := LoggedIn(t', scope, who, other);
    assert Unknown(t'', hash);
    forall s ensures !Resolves(t'', s, hash) {
      UnknownNeverResolves(t'', s, hash);
    }
  }

  lemma MayLogInAgain(t: Tables, scope: ScopeKey, who: Principal, hash: string)
    requires MayLogIn(t, scope, who)
    ensures MayLogIn(LoggedIn(t, scope, who, hash), scope, who)
  {
    hide BootstrapFails;
    var t', email := LoggedIn(t, scope, who, hash), t.users[RowOf(who)].email;
    assert !BootstrapFails(t', scope) by { BootstrapFailsLater(t, scope, who, hash); }
    forall u
      ensures DirectByEmail(t', scope, email, u) == DirectByEmail(t, scope, email, u)
      ensures who.inherited ==> InheritedByEmail(t', scope, email, u) == InheritedByEmail(t, scope, email, u)
    {
      if who.inherited {
        InheritedAgain(t, t', scope, u);
      }
    }
    hide InheritedByEmail, DirectByEmail;
  }

  lemma BootstrapFailsLater(t: Tables, scope: ScopeKey, who: Principal, hash: string)
    ensures !BootstrapFails(LoggedIn(t, scope, who, hash), scope)
  {
    BootstrapIsIdempotent(t, scope);
  }

  lemma InheritedAgain(t: Tables, t': Tables, scope: ScopeKey, u: string)
    requires t'.users == t.users && t'.bindings == t.bindings && t'.openWorkspaces == t.openWorkspaces
    requires t.roles.Keys <= t'.roles.Keys && WorkspaceExists(t, scope)
    ensures Inherited(t', scope, u) == Inherited(t, scope, u)
  {
    if scope !in t.openWorkspaces {
      var r :| r in t.roles && r.scope == scope;
      assert r in t'.roles;
    }
  }
}
