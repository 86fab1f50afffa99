/** What the run state machine keeps over every interleaving of its steps. */
module RunStateLaws {
  import opened Prelude
  import opened RunState

  /** One atomic call of any session, or the passing of time. */
  datatype Op =
    | Tick(seconds: nat)
    | Acquire(key: RunKey, owner: string, ttl: int)
    | Release(key: RunKey, token: nat)
    | Begin(key: RunKey, m: Manifest, actor: string)
    | MakeReady(key: RunKey, actor: string, raw: bool, correlated: bool, enriched: bool)
    | MakeFailed(key: RunKey, m: Manifest, actor: string, reason: string)
    | Recover(tenant: string, workspace: string, actor: string, limit: nat, busyLocks: set<RunKey>,
              busyRuns: set<RunKey>,
              reaped: seq<RunKey>, failed: seq<RunKey>)
    | Note(event: Event)

  ghost predicate Allowed(s: State, op: Op) {
    match op
    case Recover(tenant, workspace, _, limit, busyLocks, busyRuns, reaped, failed) =>
      SweepTakes(s, tenant, workspace, limit, busyLocks, busyRuns, reaped, failed)
    case Note(e) => e.eventType != StateChanged
    case _ => true
  }

  ghost function Apply(s: State, op: Op): State
    requires Allowed(s, op)
  {
    match op
    case Tick(seconds) => s.(now := s.now + seconds)
    case Acquire(k, owner, ttl) => Acquired(s, k, owner, ttl)
    case Release(k, token) => Released(s, k, token)
    case Begin(k, m, actor) => Begun(s, k, m, actor)
    case MakeReady(k, actor, raw, correlated, enriched) => MadeReady(s, k, actor, raw, correlated, enriched)
    case MakeFailed(k, m, actor, reason) => MadeFailed(s, k, m, actor, reason)
    case Recover(_, _, actor, _, _, _, reaped, failed) => Swept(s, actor, reaped, failed)
    case Note(e) => Log(s, e)
  }

  // ---------- Runs ----------

  /** What a session was handed by a granted `acquire_run_lock`. */
  datatype Lease = Lease(key: RunKey, owner: string, token: nat, expiresAt: int)

  /** The tables with the history of granted leases and the tokens given back. */
  datatype World = World(db: State, leases: seq<Lease>, returned: set<nat>)

  ghost function Advance(w: World, op: Op): World
    requires Allowed(w.db, op)
  {
    var db := Apply(w.db, op);
    if op.Acquire? && Grantable(w.db, op.key, op.owner) then
      World(db, w.leases + [Lease(op.key, op.owner, w.db.nextToken, w.db.now + op.ttl)], w.returned)
    else if op.Release? && HoldsToken(w.db, op.key, op.token) then
      World(db, w.leases, w.returned + {op.token})
    else World(db, w.leases, w.returned)
  }

  ghost predicate AllAllowed(w: World, ops: seq<Op>)
    decreases |ops|
  {
    ops == [] || (Allowed(w.db, ops[0]) && AllAllowed(Advance(w, ops[0]), ops[1..]))
  }

  ghost function After(w: World, ops: seq<Op>): World
    requires AllAllowed(w, ops)
    decreases |ops|
  {
    if ops == [] then w else After(Advance(w, ops[0]), ops[1..])
  }

  /** A run goes on by exactly the steps that are allowed where it has come to. */
  lemma {:induction false} RunGoesOn(w: World, ops: seq<Op>, op: Op)
    ensures AllAllowed(w, []) && After(w, []) == w
    ensures AllAllowed(w, ops + [op]) <==> AllAllowed(w, ops) && Allowed(After(w, ops).db, op)
    ensures AllAllowed(w, ops + [op]) ==> After(w, ops + [op]) == Advance(After(w, ops), op)
    decreases |ops|
  {
    hide Advance, Allowed;
    if ops == [] {
      assert (ops + [op])[1..] == [];
    } else {
      assert (ops + [op])[1..] == ops[1..] + [op];
      if Allowed(w.db, ops[0]) {
        RunGoesOn(Advance(w, ops[0]), ops[1..], op);
      }
    }
  }

  /** Empty tables at any time. */
  function Empty(now: int, nextToken: nat): World {
    World(State(now, nextToken, map[], map[], []), [], {})
  }

  // ---------- Replaying the event log gives the state ----------

  /** Follow the state changes of one run: None once an event does not start where the previous
      one ended. */
  function Replay(events: seq<Event>, k: RunKey): Option<Option<Status>> {
    if events == [] then Some(None)
    else
      var e := events[|events| - 1];
      var before := Replay(events[..|events| - 1], k);
      if e.key != k || e.eventType != StateChanged then before
      else if before == Some(e.fromState) && e.toState.Some? then Some(e.toState)
      else None
  }

  ghost predicate Replayable(s: State) {
    forall k :: Replay(s.events, k) == Some(StatusOf(s, k))
  }

  lemma ReplayLog(events: seq<Event>, e: Event, k: RunKey)
    ensures Replay(events + [e], k) ==
      if e.key != k || e.eventType != StateChanged then Replay(events, k)
      else if Replay(events, k) == Some(e.fromState) && e.toState.Some? then Some(e.toState)
      else None
  {
    assert (events + [e])[..|events|] == events;
  }

  lemma {:induction false} ReplayExpiries(s: State, keys: seq<RunKey>, actor: string, k: RunKey)
    requires Elements(keys) <= s.locks.Keys
    ensures Replay(s.events + ExpiryEvents(s, keys, actor), k) == Replay(s.events, k)
  {
    if keys == [] {
      assert s.events + [] == s.events;
    } else {
      var n := |keys| - 1;
      assert Elements(keys[..n]) <= Elements(keys) && keys[n] in Elements(keys);
      ReplayExpiries(s, keys[..n], actor, k);
      var init := s.events + ExpiryEvents(s, keys[..n], actor);
      var e := Event(keys[n], LockExpired, actor, None, None,
        ExpiredLock(s.locks[keys[n]].owner, s.locks[keys[n]].expiresAt));
      assert s.events + ExpiryEvents(s, keys, actor) == init + [e];
      ReplayLog(init, e, k);
    }
  }

  function FailureOf(k: RunKey, reaped: seq<RunKey>, actor: string): Event {
    var reason := if k in reaped then "recovery:expired_lock" else "recovery:no_active_lock";
    StateEvent(k, actor, Some(Running), Failed, Reason(reason))
  }

  lemma LastFailure(keys: seq<RunKey>, reaped: seq<RunKey>, actor: string)
    ensures FailureEvents(keys, reaped, actor) ==
      if keys == [] then []
      else FailureEvents(keys[..|keys| - 1], reaped, actor) + [FailureOf(keys[|keys| - 1], reaped, actor)]
  {
  }

  lemma {:induction false} ReplayFailures(events: seq<Event>, keys: seq<RunKey>, reaped: seq<RunKey>, actor: string,
                                          k: RunKey)
    requires forall i, j :: 0 <= i < j < |keys| ==> keys[i] != keys[j]
    requires k in keys ==> Replay(events, k) == Some(Some(Running))
    ensures Replay(events + FailureEvents(keys, reaped, actor), k) ==
      if k in keys then Some(Some(Failed)) else Replay(events, k)
  {
    hide Replay, FailureEvents;
    LastFailure(keys, reaped, actor);
    if keys == [] {
      assert events + [] == events;
    } else {
      var n := |keys| - 1;
      ReplayFailures(events, keys[..n], reaped, actor, k);
      var init, e := events + FailureEvents(keys[..n], reaped, actor), FailureOf(keys[n], reaped, actor);
      assert events + FailureEvents(keys, reaped, actor) == init + [e];
      ReplayLog(init, e, k);
      assert k in keys <==> k in keys[..n] || k == keys[n];
    }
  }

  lemma SweepIsReplayable(s: State, tenant: string, workspace: string, actor: string, limit: nat,
                          busyLocks: set<RunKey>, busyRuns: set<RunKey>, reaped: seq<RunKey>, failed: seq<RunKey>)
    requires Replayable(s) && SweepTakes(s, tenant, workspace, limit, busyLocks, busyRuns, reaped, failed)
    ensures Replayable(Swept(s, actor, reaped, failed))
  {
    var s' := Swept(s, actor, reaped, failed);
    forall k
      ensures Replay(s'.events, k) == Some(StatusOf(s', k))
    {
      ReplayExpiries(s, reaped, actor, k);
      assert k in failed ==> k in Elements(failed);
      ReplayFailures(s.events + ExpiryEvents(s, reaped, actor), failed, reaped, actor, k);
    }
  }

  lemma LogIsReplayable(s: State, s': State, e: Event)
    requires Replayable(s) && s'.events == s.events + [e]
    requires e.eventType == StateChanged ==>
      e.fromState == StatusOf(s, e.key) && e.toState == StatusOf(s', e.key) != None
    requires forall k :: e.eventType != StateChanged || k != e.key ==> StatusOf(s', k) == StatusOf(s, k)
    ensures Replayable(s')
  {
    forall k
      ensures Replay(s'.events, k) == Some(StatusOf(s', k))
    {
      ReplayLog(s.events, e, k);
    }
  }

  lemma StepIsReplayable(s: State, op: Op)
    requires Replayable(s) && Allowed(s, op)
    ensures Replayable(Apply(s, op))
  {
    hide Replay, SweepTakes, Swept;
    var s' := Apply(s, op);
    match op
    case Recover(tenant, workspace, actor, limit, busyLocks, busyRuns, reaped, failed) =>
      SweepIsReplayable(s, tenant, workspace, actor, limit, busyLocks, busyRuns, reaped, failed);
    case Begin(k, m, actor) =>
      if StatusOf(s, k) != Some(Ready) {
        LogIsReplayable(s, s', StateEvent(k, actor, StatusOf(s, k), Running, NoPayload));
      }
    case MakeReady(k, actor, _, _, _) =>
      if StatusOf(s, k) == Some(Running) {
        LogIsReplayable(s, s', StateEvent(k, actor, Some(Running), Ready, NoPayload));
      }
    case MakeFailed(k, m, actor, reason) =>
      LogIsReplayable(s, s', s'.events[|s.events|]);
    case Note(e) => LogIsReplayable(s, s', e);
    case _ =>
  }

  /** After any steps the state changes of each run form a chain that starts with no
      state, links each change to the one before, and ends in the run's current status. */
  lemma {:induction false} EventLogReplaysToState(w: World, ops: seq<Op>, k: RunKey)
    requires Replayable(w.db) && AllAllowed(w, ops)
    ensures Replay(After(w, ops).db.events, k) == Some(StatusOf(After(w, ops).db, k))
    decreases |ops|
  {
    hide Replay;
    if ops != [] {
      StepIsReplayable(w.db, ops[0]);
      EventLogReplaysToState(Advance(w, ops[0]), ops[1..], k);
    }
  }

  lemma EmptyIsReplayable(now: int, nextToken: nat)
    ensures Replayable(Empty(now, nextToken).db)
  {
  }

  /** The same of every database reachable from empty tables. */
  lemma ReachableLogReplays(now: int, nextToken: nat, ops: seq<Op>, k: RunKey)
    requires AllAllowed(Empty(now, nextToken), ops)
    ensures var s := After(Empty(now, nextToken), ops).db;
      Replay(s.events, k) == Some(StatusOf(s, k))
  {
    hide Replayable;
    EmptyIsReplayable(now, nextToken);
    EventLogReplaysToState(Empty(now, nextToken), ops, k);
  }

  // ---------- Only transition_run_to_failed leaves ready ----------

  /** A ready run stays ready through a step exactly when the step is not an (unguarded)
      transition of that very run to failed. */
  lemma ReadyIsKeptUnlessFailed(s: State, op: Op, k: RunKey)
    requires Allowed(s, op) && StatusOf(s, k) == Some(Ready)
    ensures StatusOf(Apply(s, op), k) == Some(Ready) <==> !(op.MakeFailed? && op.key == k)
  {
    hide ExpiryEvents, FailureEvents;
  }

  // ---------- Leases ----------

  /** The lease has neither run out nor been given back. */
  predicate Outstanding(w: World, i: nat)
    requires i < |w.leases|
  {
    w.db.now < w.leases[i].expiresAt && w.leases[i].token !in w.returned
  }

  /** The owner has been granted no later lease on the same run. */
  predicate LatestOfOwner(w: World, i: nat)
    requires i < |w.leases|
  {
    forall j :: i < j < |w.leases| ==> w.leases[j].key != w.leases[i].key || w.leases[j].owner != w.leases[i].owner
  }

  /** Every owner has a latest lease on each run he was ever granted. */
  lemma LatestExists(w: World, i: nat) returns (j: nat)
    requires i < |w.leases|
    ensures i <= j < |w.leases| && LatestOfOwner(w, j)
    ensures w.leases[j].key == w.leases[i].key && w.leases[j].owner == w.leases[i].owner
    decreases |w.leases| - i
  {
    j := i;
    if k :| i < k < |w.leases| && w.leases[k].key == w.leases[i].key && w.leases[k].owner == w.leases[i].owner {
      j := LatestExists(w, k);
    }
  }

  /** The last lease granted on its run. */
  predicate LatestOnRun(w: World, i: nat)
    requires i < |w.leases|
  {
    forall j :: i < j < |w.leases| ==> w.leases[j].key != w.leases[i].key
  }

  predicate RowIsLease(w: World, k: RunKey, i: nat)
    requires k in w.db.locks && i < |w.leases|
  {
    var row := w.db.locks[k];
    w.leases[i] == Lease(k, row.owner, row.token, row.expiresAt) && row.token !in w.returned && LatestOnRun(w, i)
  }

  ghost predicate TokensGrow(w: World) {
    && (forall i, j :: 0 <= i < j < |w.leases| ==> w.leases[i].token < w.leases[j].token)
    && (forall i :: 0 <= i < |w.leases| ==> w.leases[i].token < w.db.nextToken)
    && (forall t :: t in w.returned ==> t < w.db.nextToken)
  }

  ghost predicate Consistent(w: World) {
    && TokensGrow(w)
    && (forall k :: k in w.db.locks ==> exists i :: 0 <= i < |w.leases| && RowIsLease(w, k, i))
    && forall i :: 0 <= i < |w.leases| && LatestOfOwner(w, i) && Outstanding(w, i)
                   ==> HoldsToken(w.db, w.leases[i].key, w.leases[i].token)
  }

  /** Row `k` of a consistent world is the last lease on its run; find it. */
  lemma RowLease(w: World, k: RunKey) returns (i: nat)
    requires Consistent(w) && k in w.db.locks
    ensures i < |w.leases| && RowIsLease(w, k, i)
  {
    i :| 0 <= i < |w.leases| && RowIsLease(w, k, i);
  }

  /** A lease that its owner holds by his last grant is the row of its run. */
  lemma HeldLeaseIsRow(w: World, i: nat)
    requires Consistent(w) && i < |w.leases| && LatestOfOwner(w, i) && Outstanding(w, i)
    ensures w.leases[i].key in w.db.locks && RowIsLease(w, w.leases[i].key, i)
  {
    var r := RowLease(w, w.leases[i].key);
    assert r == i;
  }

  lemma SameLocksStayConsistent(w: World, w': World)
    requires Consistent(w)
    requires w'.leases == w.leases && w'.returned == w.returned
    requires w.db.now <= w'.db.now && w.db.nextToken <= w'.db.nextToken
    requires forall k :: k in w'.db.locks ==> k in w.db.locks && w'.db.locks[k] == w.db.locks[k]
    requires forall k :: k in w.db.locks && k !in w'.db.locks ==> w.db.locks[k].expiresAt <= w.db.now
    ensures Consistent(w')
  {
    hide LatestOnRun, LatestOfOwner;
    forall k | k in w'.db.locks
      ensures exists i :: 0 <= i < |w'.leases| && RowIsLease(w', k, i)
    {
      var i := RowLease(w, k);
      assert RowIsLease(w', k, i) by { SameLeases(w, w', i); }
    }
    forall i | 0 <= i < |w'.leases| && LatestOfOwner(w', i) && Outstanding(w', i)
      ensures HoldsToken(w'.db, w'.leases[i].key, w'.leases[i].token)
    {
      SameLeases(w, w', i);
      HeldLeaseIsRow(w, i);
    }
  }

  lemma SameLeases(w: World, w': World, i: nat)
    requires w'.leases == w.leases && i < |w.leases|
    ensures LatestOnRun(w', i) == LatestOnRun(w, i) && LatestOfOwner(w', i) == LatestOfOwner(w, i)
  {
  }

  lemma OneMoreLease(w: World, w': World, i: nat)
    requires |w'.leases| == |w.leases| + 1 && w'.leases[..|w.leases|] == w.leases && i < |w.leases|
    ensures w'.leases[i] == w.leases[i]
    ensures LatestOnRun(w', i) <==> LatestOnRun(w, i) && w'.leases[|w.leases|].key != w.leases[i].key
    ensures LatestOfOwner(w', i) <==> (
      LatestOfOwner(w, i)
      && (w'.leases[|w.leases|].key != w.leases[i].key || w'.leases[|w.leases|].owner != w.leases[i].owner))
  {
    assert forall j :: 0 <= j < |w.leases| ==> w'.leases[j] == w.leases[j];
  }

  lemma AcquireStaysConsistent(w: World, k: RunKey, owner: string, ttl: int)
    requires Consistent(w) && Grantable(w.db, k, owner)
    ensures Consistent(Advance(w, Acquire(k, owner, ttl)))
  {
    hide LatestOnRun, LatestOfOwner, RowIsLease, Outstanding;
    var w' := Advance(w, Acquire(k, owner, ttl));
    forall k' | k' in w'.db.locks
      ensures exists i :: 0 <= i < |w'.leases| && RowIsLease(w', k', i)
    {
      var i := RowAfterGrant(w, k, owner, ttl, k');
    }
    forall i | 0 <= i < |w'.leases| && LatestOfOwner(w', i) && Outstanding(w', i)
      ensures HoldsToken(w'.db, w'.leases[i].key, w'.leases[i].token)
    {
      HeldAfterGrant(w, k, owner, ttl, i);
    }
    GrantKeepsTokensGrowing(w, k, owner, ttl);
  }

  lemma RowAfterGrant(w: World, k: RunKey, owner: string, ttl: int, k': RunKey) returns (i: nat)
    requires Consistent(w) && Grantable(w.db, k, owner) && k' in Advance(w, Acquire(k, owner, ttl)).db.locks
    ensures i < |w.leases| + 1 && RowIsLease(Advance(w, Acquire(k, owner, ttl)), k', i)
  {
    hide LatestOnRun, LatestOfOwner;
    var w' := Advance(w, Acquire(k, owner, ttl));
    assert w'.leases[..|w.leases|] == w.leases;
    if k' == k {
      i := |w.leases|;
      LastIsLatest(w', i);
    } else {
      i := RowLease(w, k');
      OneMoreLease(w, w', i);
    }
  }

  lemma HeldAfterGrant(w: World, k: RunKey, owner: string, ttl: int, i: nat)
    requires Consistent(w) && Grantable(w.db, k, owner)
    requires var w' := Advance(w, Acquire(k, owner, ttl)); i < |w'.leases| && LatestOfOwner(w', i) && Outstanding(w', i)
    ensures var w' := Advance(w, Acquire(k, owner, ttl)); HoldsToken(w'.db, w'.leases[i].key, w'.leases[i].token)
  {
    hide LatestOnRun, LatestOfOwner;
    var w' := Advance(w, Acquire(k, owner, ttl));
    assert w'.leases[..|w.leases|] == w.leases;
    if i < |w.leases| {
      OneMoreLease(w, w', i);
      HeldLeaseIsRow(w, i);
    }
  }

  lemma GrantKeepsTokensGrowing(w: World, k: RunKey, owner: string, ttl: int)
    requires TokensGrow(w) && Grantable(w.db, k, owner)
    ensures TokensGrow(Advance(w, Acquire(k, owner, ttl)))
  {
  }

  lemma LastIsLatest(w: World, n: nat)
    requires |w.leases| == n + 1
    ensures LatestOnRun(w, n)
  {
  }

  lemma ReleaseStaysConsistent(w: World, k: RunKey, token: nat)
    requires Consistent(w) && HoldsToken(w.db, k, token)
    ensures Consistent(Advance(w, Release(k, token)))
  {
    hide LatestOnRun, LatestOfOwner;
    var w' := Advance(w, Release(k, token));
    var r := RowLease(w, k);
    forall k' | k' in w'.db.locks
      ensures exists i :: 0 <= i < |w'.leases| && RowIsLease(w', k', i)
    {
      var i := RowLease(w, k');
      SameLeases(w, w', i);
      assert RowIsLease(w', k', i);
    }
    forall i | 0 <= i < |w'.leases| && LatestOfOwner(w', i) && Outstanding(w', i)
      ensures HoldsToken(w'.db, w'.leases[i].key, w'.leases[i].token)
    {
      SameLeases(w, w', i);
      HeldLeaseIsRow(w, i);
    }
  }

  lemma StepStaysConsistent(w: World, op: Op)
    requires Consistent(w) && Allowed(w.db, op)
    ensures Consistent(Advance(w, op))
  {
    hide Consistent, ExpiryEvents, FailureEvents;
    if op.Acquire? && Grantable(w.db, op.key, op.owner) {
      AcquireStaysConsistent(w, op.key, op.owner, op.ttl);
    } else if op.Release? && HoldsToken(w.db, op.key, op.token) {
      ReleaseStaysConsistent(w, op.key, op.token);
    } else {
      SameLocksStayConsistent(w, Advance(w, op));
    }
  }

  lemma {:induction false} RunStaysConsistent(w: World, ops: seq<Op>)
    requires Consistent(w) && AllAllowed(w, ops)
    ensures Consistent(After(w, ops))
    decreases |ops|
  {
    hide Consistent;
    if ops != [] {
      StepStaysConsistent(w, ops[0]);
      RunStaysConsistent(Advance(w, ops[0]), ops[1..]);
    }
  }

  /** Lock safety, over every interleaving from empty tables: of the leases that owners hold by
      their own last grant, no two on one run are outstanding under different owners; and a token
      matches the table only if it is the last one granted on its run. */
  lemma LockSafety(now: int, nextToken: nat, ops: seq<Op>, i: nat, j: nat)
    requires AllAllowed(Empty(now, nextToken), ops)
    requires var w := After(Empty(now, nextToken), ops);
      i < |w.leases| && j < |w.leases| && w.leases[i].key == w.leases[j].key
    ensures var w := After(Empty(now, nextToken), ops);
      && (Outstanding(w, i) && LatestOfOwner(w, i) && Outstanding(w, j) && LatestOfOwner(w, j)
          ==> w.leases[i].owner == w.leases[j].owner)
      && (HoldsToken(w.db, w.leases[i].key, w.leases[i].token) ==> LatestOnRun(w, i))
  {
    RunStaysConsistent(Empty(now, nextToken), ops);
    var w := After(Empty(now, nextToken), ops);
    hide After, AllAllowed;
    if w.leases[i].key in w.db.locks {
      var r := RowLease(w, w.leases[i].key);
    }
  }

  /** A token that has been superseded on its run deletes nothing, in every reachable state. */
  lemma SupersededTokenReleasesNothing(now: int, nextToken: nat, ops: seq<Op>, i: nat)
    requires AllAllowed(Empty(now, nextToken), ops)
    requires var w := After(Empty(now, nextToken), ops); i < |w.leases| && !LatestOnRun(w, i)
    ensures var w := After(Empty(now, nextToken), ops);
      Advance(w, Release(w.leases[i].key, w.leases[i].token)) == w
  {
    RunStaysConsistent(Empty(now, nextToken), ops);
    var w := After(Empty(now, nextToken), ops);
    hide After, AllAllowed;
    var k := w.leases[i].key;
    if k in w.db.locks {
      var r := RowLease(w, k);
    }
  }

  /** The owner of a live lock acquires it again. */
  predicate Refreshes(s: State, op: Op) {
    op.Acquire? && LiveLock(s, op.key) && s.locks[op.key].owner == op.owner
  }

  /** No two outstanding leases on one run have different owners, counting also leases that
      their owner has since renewed. */
  ghost predicate OneOwnerPerRun(w: World) {
    forall i, j | 0 <= i < |w.leases| && 0 <= j < |w.leases| && Outstanding(w, i) && Outstanding(w, j) ::
      w.leases[i].key == w.leases[j].key ==> w.leases[i].owner == w.leases[j].owner
  }

  /** Every outstanding lease is the row of its run. */
  ghost predicate Unrenewed(w: World) {
    Consistent(w) && forall i :: 0 <= i < |w.leases| && Outstanding(w, i) ==>
      HoldsToken(w.db, w.leases[i].key, w.leases[i].token)
  }

  lemma UnrenewedHasOneOwner(w: World)
    requires Unrenewed(w)
    ensures OneOwnerPerRun(w)
  {
    forall i, j | 0 <= i < |w.leases| && 0 <= j < |w.leases| && w.leases[i].key == w.leases[j].key
                  && Outstanding(w, i) && Outstanding(w, j)
      ensures w.leases[i].owner == w.leases[j].owner
    {
      assert w.leases[i].token == w.leases[j].token;
    }
  }

  /** A step keeps "every outstanding lease is the row of its run" exactly when it is no renewal. */
  lemma UnrenewedExactlyWithoutRefresh(w: World, op: Op)
    requires Unrenewed(w) && Allowed(w.db, op)
    ensures Unrenewed(Advance(w, op)) <==> !Refreshes(w.db, op)
  {
    if Refreshes(w.db, op) {
      RenewalLeavesLease(w, op);
    } else {
      StepStaysUnrenewed(w, op);
    }
  }

  /** The renewed lease itself stays outstanding, but its token is no longer in the table. */
  lemma RenewalLeavesLease(w: World, op: Op)
    requires Consistent(w) && Refreshes(w.db, op)
    ensures !Unrenewed(Advance(w, op))
  {
    hide LatestOnRun, LatestOfOwner;
    var w' := Advance(w, op);
    var i := RowLease(w, op.key);
    assert w'.leases[i] == w.leases[i] && Outstanding(w', i);
    assert !HoldsToken(w'.db, w'.leases[i].key, w'.leases[i].token);
  }

  lemma StepStaysUnrenewed(w: World, op: Op)
    requires Unrenewed(w) && Allowed(w.db, op) && !Refreshes(w.db, op)
    ensures Unrenewed(Advance(w, op))
  {
    hide RowIsLease, Consistent, Apply, Allowed;
    var w' := Advance(w, op);
    StepStaysConsistent(w, op);
    forall i | 0 <= i < |w'.leases| && Outstanding(w', i)
      ensures HoldsToken(w'.db, w'.leases[i].key, w'.leases[i].token)
    {
      ClockNeverTurnsBack(w.db, op);
      if i < |w.leases| {
        assert w'.leases[i] == w.leases[i] && Outstanding(w, i);
        OutstandingRowIsLive(w, i);
        LiveRowSurvives(w.db, op, w.leases[i].key);
      } else {
        GrantIsRow(w.db, op);
      }
    }
  }

  lemma ClockNeverTurnsBack(s: State, op: Op)
    requires Allowed(s, op)
    ensures s.now <= Apply(s, op).now
  {
  }

  lemma OutstandingRowIsLive(w: World, i: nat)
    requires Unrenewed(w) && i < |w.leases| && Outstanding(w, i)
    ensures LiveLock(w.db, w.leases[i].key) && w.db.locks[w.leases[i].key].token == w.leases[i].token
  {
    OutstandingIsRow(w, i);
  }

  /** Only a renewal or a release with its token touches a live lock. */
  lemma LiveRowSurvives(s: State, op: Op, k: RunKey)
    requires Allowed(s, op) && LiveLock(s, k) && !Refreshes(s, op)
    ensures (k in Apply(s, op).locks && Apply(s, op).locks[k] == s.locks[k])
            || (op.Release? && op.key == k && HoldsToken(s, k, op.token))
  {
    hide ExpiryEvents, FailureEvents;
  }

  lemma GrantIsRow(s: State, op: Op)
    requires op.Acquire? && Grantable(s, op.key, op.owner) && Allowed(s, op)
    ensures HoldsToken(Apply(s, op), op.key, s.nextToken)
  {
  }

  lemma OutstandingIsRow(w: World, i: nat)
    requires Unrenewed(w) && i < |w.leases| && Outstanding(w, i)
    ensures w.leases[i].key in w.db.locks && RowIsLease(w, w.leases[i].key, i)
  {
    var r := RowLease(w, w.leases[i].key);
    assert r == i;
  }

  ghost predicate NoRefresh(w: World, ops: seq<Op>)
    requires AllAllowed(w, ops)
    decreases |ops|
  {
    ops == [] || (!Refreshes(w.db, ops[0]) && NoRefresh(Advance(w, ops[0]), ops[1..]))
  }

  /** As long as no owner renews a live lock, outstanding leases on one run never have two
      owners, over every interleaving. */
  lemma {:induction false} WithoutRefreshOneOwner(w: World, ops: seq<Op>)
    requires Unrenewed(w) && AllAllowed(w, ops) && NoRefresh(w, ops)
    ensures OneOwnerPerRun(After(w, ops)) && Unrenewed(After(w, ops))
    decreases |ops|
  {
    hide Unrenewed, OneOwnerPerRun;
    if ops == [] {
      UnrenewedHasOneOwner(w);
    } else {
      StepStaysUnrenewed(w, ops[0]);
      WithoutRefreshOneOwner(Advance(w, ops[0]), ops[1..]);
    }
  }

  /** Whatever follows without a renewal, outstanding leases on one run keep having one owner. */
  ghost predicate SafeAhead(w: World) {
    forall more :: AllAllowed(w, more) && NoRefresh(w, more) ==> OneOwnerPerRun(After(w, more))
  }

  /** The safe states are exactly those in which every outstanding lease is the row of its run. */
  lemma SafeAheadExactly(w: World)
    requires Consistent(w)
    ensures SafeAhead(w) <==> Unrenewed(w)
  {
    hide Consistent, OneOwnerPerRun;
    if Unrenewed(w) {
      forall more | AllAllowed(w, more) && NoRefresh(w, more)
        ensures OneOwnerPerRun(After(w, more))
      {
        WithoutRefreshOneOwner(w, more);
      }
    } else {
      var more := WayToTwoOwners(w);
      assert !SafeAhead(w);
    }
  }

  /** Whenever an outstanding lease is not the row of its run, at most two calls and no renewal give
      another owner an outstanding lease beside it. */
  lemma WayToTwoOwners(w: World) returns (more: seq<Op>)
    requires Consistent(w) && !Unrenewed(w)
    ensures AllAllowed(w, more) && NoRefresh(w, more) && !OneOwnerPerRun(After(w, more)) && |more| <= 2
  {
    var i :| 0 <= i < |w.leases| && Outstanding(w, i) && !HoldsToken(w.db, w.leases[i].key, w.leases[i].token);
    var k, other := w.leases[i].key, w.leases[i].owner + "'";
    if !LiveLock(w.db, k) {
      more := [Acquire(k, other, 60)];
      OtherGetsIn(w, i, other);
    } else {
      var r := RowLease(w, k);
      if w.db.locks[k].owner != w.leases[i].owner {
        more := [];
        assert Outstanding(w, r);
      } else {
        var release, acquire := Release(k, w.db.locks[k].token), Acquire(k, other, 60);
        var w1 := Advance(w, release);
        more := [release, acquire];
        assert more[1..] == [acquire];
        assert w1.leases == w.leases && Outstanding(w1, i);
        ReturnedTokensStayOld(w, release);
        OtherGetsIn(w1, i, other);
        assert After(w, more) == After(w1, [acquire]);
      }
    }
  }

  lemma ReturnedTokensStayOld(w: World, op: Op)
    requires Consistent(w) && Allowed(w.db, op)
    ensures TokensGrow(Advance(w, op))
  {
    StepStaysConsistent(w, op);
  }

  /** Where no lock is live, another owner's lease joins an outstanding one. */
  lemma OtherGetsIn(w: World, i: nat, other: string)
    requires TokensGrow(w) && i < |w.leases| && Outstanding(w, i) && other != w.leases[i].owner
    requires !LiveLock(w.db, w.leases[i].key)
    ensures var more := [Acquire(w.leases[i].key, other, 60)];
      AllAllowed(w, more) && NoRefresh(w, more) && !OneOwnerPerRun(After(w, more))
  {
    var acquire, n := Acquire(w.leases[i].key, other, 60), |w.leases|;
    var w' := Advance(w, acquire);
    assert [acquire][1..] == [] && After(w, [acquire]) == After(w', []);
    assert w'.leases[i] == w.leases[i] && Outstanding(w', i) && Outstanding(w', n);
  }

  lemma EmptyIsSafe(now: int, nextToken: nat)
    ensures Consistent(Empty(now, nextToken)) && SafeAhead(Empty(now, nextToken))
  {
    hide SafeAhead;
    assert Unrenewed(Empty(now, nextToken));
    SafeAheadExactly(Empty(now, nextToken));
  }

  /** So exclusivity is lost by renewals and by nothing else: from a safe state a step leads to a safe
      one exactly when it is no renewal of a live lock. */
  lemma SafetyEndsWithRenewal(w: World, op: Op)
    requires Consistent(w) && SafeAhead(w) && Allowed(w.db, op)
    ensures SafeAhead(Advance(w, op)) <==> !Refreshes(w.db, op)
  {
    hide SafeAhead, Unrenewed, Consistent;
    StepStaysConsistent(w, op);
    SafeAheadExactly(w);
    SafeAheadExactly(Advance(w, op));
    UnrenewedExactlyWithoutRefresh(w, op);
  }

  /** Renewal is exactly what breaks it: whenever an owner renews a live lock, his releasing the
      new token lets anyone else in while the first lease has not run out. */
  lemma RefreshBreaksOneOwner(w: World, k: RunKey, owner: string, ttl: int, other: string, otherTtl: int)
    requires Consistent(w) && Refreshes(w.db, Acquire(k, owner, ttl)) && other != owner && otherTtl > 0
    ensures var ops := [Acquire(k, owner, ttl), Release(k, w.db.nextToken), Acquire(k, other, otherTtl)];
      AllAllowed(w, ops) && !OneOwnerPerRun(After(w, ops))
  {
    hide LatestOnRun, LatestOfOwner;
    var a, b, c := Acquire(k, owner, ttl), Release(k, w.db.nextToken), Acquire(k, other, otherTtl);
    var w1 := Advance(w, a);
    var w2 := Advance(w1, b);
    var w3 := Advance(w2, c);
    assert After(w, [a, b, c]) == w3 by {
      assert [a, b, c][1..] == [b, c] && [b, c][1..] == [c] && [c][1..] == [];
      assert After(w2, [c]) == After(w3, []);
      assert After(w1, [b, c]) == After(w2, [c]);
    }
    var i := RowLease(w, k);
    var n := |w.leases|;
    assert w3.leases[i] == w.leases[i];
    assert Outstanding(w3, i) && Outstanding(w3, n + 1);
  }

  /** It happens: from empty tables four calls of two owners leave each with an outstanding lease. */
  lemma TwoOwnersReachable(now: int, k: RunKey)
    ensures var ops := [Acquire(k, "a", 60), Acquire(k, "a", 60), Release(k, 1), Acquire(k, "b", 60)];
      AllAllowed(Empty(now, 0), ops) && !OneOwnerPerRun(After(Empty(now, 0), ops))
  {
    var a, rest := Acquire(k, "a", 60), [Acquire(k, "a", 60), Release(k, 1), Acquire(k, "b", 60)];
    var w, w1 := Empty(now, 0), Advance(Empty(now, 0), a);
    RunStaysConsistent(w, [a]);
    assert [a][1..] == [] && After(w, [a]) == After(w1, []);
    RefreshBreaksOneOwner(w1, k, "a", 60, "b", 60);
    hide OneOwnerPerRun, Consistent;
    assert ([a] + rest)[1..] == rest;
    assert [a] + rest == [a, a, Release(k, 1), Acquire(k, "b", 60)];
  }

  // ---------- Recovery ----------

  /** A sweep touches nothing but what it is for: live locks, other scopes, and every run that is
      ready, failed or under a live lock stay as they were; a failed run changes only its status. */
  lemma SweepTouchesOnlyStale(s: State, op: Op, k: RunKey)
    requires op.Recover? && Allowed(s, op)
    ensures var s' := Apply(s, op);
      && (k in s'.locks ==> k in s.locks && s'.locks[k] == s.locks[k])
      && (k in s.locks && (LiveLock(s, k) || !InScope(k, op.tenant, op.workspace) || k in op.busyLocks) ==>
        k in s'.locks)
      && (k in s'.runs <==> k in s.runs)
      && (k in s.runs && s'.runs[k] != s.runs[k] ==> (
        && s.runs[k].status == Running && s'.runs[k] == s.runs[k].(status := Failed)
        && InScope(k, op.tenant, op.workspace) && !LiveLock(s, k) && k !in op.busyRuns))
  {
    hide ExpiryEvents, FailureEvents;
  }

  lemma ExpiredAfterSweep(s: State, tenant: string, workspace: string, actor: string, reaped: seq<RunKey>,
                          failed: seq<RunKey>)
    requires Elements(reaped) <= s.locks.Keys
    ensures ExpiredLocks(Swept(s, actor, reaped, failed), tenant, workspace) ==
      ExpiredLocks(s, tenant, workspace) - Elements(reaped)
  {
    hide ExpiryEvents, FailureEvents;
  }

  lemma StaleAfterSweep(s: State, tenant: string, workspace: string, actor: string, reaped: seq<RunKey>,
                        failed: seq<RunKey>)
    requires Elements(reaped) <= ExpiredLocks(s, tenant, workspace)
    ensures StaleRuns(Swept(s, actor, reaped, failed), tenant, workspace) ==
      StaleRuns(s, tenant, workspace) - Elements(failed)
  {
    hide ExpiryEvents, FailureEvents;
  }

  lemma TakenAway(all: set<RunKey>, taken: seq<RunKey>, due: map<RunKey, int>, limit: nat)
    requires all <= due.Keys && FirstByDue(taken, all, due, limit)
    ensures |all - Elements(taken)| == Max(0, |all| - limit)
  {
    DistinctCount(taken);
    assert all == (all - Elements(taken)) + Elements(taken);
  }

  lemma SweepProgress(s: State, op: Op)
    requires op.Recover? && Allowed(s, op) && op.busyLocks == {} && op.busyRuns == {}
    ensures var s' := Apply(s, op);
      && |ExpiredLocks(s', op.tenant, op.workspace)| == Max(0, |ExpiredLocks(s, op.tenant, op.workspace)| - op.limit)
      && |StaleRuns(s', op.tenant, op.workspace)| == Max(0, |StaleRuns(s, op.tenant, op.workspace)| - op.limit)
  {
    hide FirstByDue, ExpiredLocks, StaleRuns, Swept, Due, Age;
    var expired, stale := ExpiredLocks(s, op.tenant, op.workspace), StaleRuns(s, op.tenant, op.workspace);
    assert expired - op.busyLocks == expired && stale - op.busyRuns == stale;
    CandidatesAreDue(s, op.tenant, op.workspace);
    ChosenAmong(op.reaped, expired, Due(s), op.limit);
    ExpiredAfterSweep(s, op.tenant, op.workspace, op.actor, op.reaped, op.failed);
    StaleAfterSweep(s, op.tenant, op.workspace, op.actor, op.reaped, op.failed);
    TakenAway(expired, op.reaped, Due(s), op.limit);
    TakenAway(stale, op.failed, Age(s), op.limit);
  }

  lemma CandidatesAreDue(s: State, tenant: string, workspace: string)
    ensures ExpiredLocks(s, tenant, workspace) <= Due(s).Keys && StaleRuns(s, tenant, workspace) <= Age(s).Keys
    ensures ExpiredLocks(s, tenant, workspace) <= s.locks.Keys
  {
  }

  /** Recovery drains: with the clock at rest and no row held elsewhere, `n` sweeps of `limit`
      leave exactly what `n * limit` rows did not cover, so enough sweeps leave nothing. */
  lemma {:induction false} SweepsDrain(w: World, tenant: string, workspace: string, limit: nat, ops: seq<Op>)
    requires AllAllowed(w, ops)
    requires forall op :: op in ops ==> op.Recover? && op.tenant == tenant && op.workspace == workspace
                                        && op.limit == limit && op.busyLocks == {} && op.busyRuns == {}
    ensures var s, s' := w.db, After(w, ops).db;
      && |ExpiredLocks(s', tenant, workspace)| == Max(0, |ExpiredLocks(s, tenant, workspace)| - |ops| * limit)
      && |StaleRuns(s', tenant, workspace)| == Max(0, |StaleRuns(s, tenant, workspace)| - |ops| * limit)
    decreases |ops|
  {
    hide ExpiredLocks, StaleRuns, Apply, Allowed;
    if ops != [] {
      assert ops[0] in ops;
      SweepProgress(w.db, ops[0]);
      SweepsDrain(Advance(w, ops[0]), tenant, workspace, limit, ops[1..]);
      OneMore(|ops| - 1, limit);
    }
  }

  lemma OneMore(n: nat, limit: nat)
    ensures (n + 1) * limit == n * limit + limit && 0 <= n * limit
  {
  }
}
