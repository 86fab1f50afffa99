/** The run state machine (apps/backend/run_state.py): the tables `runs`, `run_locks` and
    `run_events`, a clock for `now()` and a supply of fresh lock tokens for `uuid4`.
    Every function of the source is one atomic step. */
module RunState {
  import opened Prelude
  import opened PyText

  datatype Status = Running | Ready | Failed

  datatype RunKey = RunKey(tenant: string, workspace: string, runId: string)

  datatype Run = Run(
    status: Status, runTs: int, artifactPrefix: string, ingestedAt: Option<int>,
    engineVersion: Option<string>, pricingVersion: Option<string>, pricingSource: Option<string>,
    raw: bool, correlated: bool, enriched: bool)

  /** What the caller knows about a run. */
  datatype Manifest = Manifest(
    runTs: int, artifactPrefix: string, engineVersion: Option<string>, pricingVersion: Option<string>,
    pricingSource: Option<string>, raw: bool, correlated: bool, enriched: bool)

  datatype Lock = Lock(owner: string, token: nat, expiresAt: int)

  datatype Payload =
    | NoPayload
    | Reason(text: string)
    | LockExpiry(expiresAt: int)
    | ExpiredLock(owner: string, expiredAt: int)

  datatype EventType = StateChanged | LockAcquired | LockReleased | LockExpired

  datatype Event = Event(
    key: RunKey, eventType: EventType, actor: string, fromState: Option<Status>, toState: Option<Status>,
    payload: Payload)

  datatype State = State(
    now: int, nextToken: nat, runs: map<RunKey, Run>, locks: map<RunKey, Lock>, events: seq<Event>)

  const MAX_REASON := 2000

  // ---------- The steps as functions on the tables ----------

  function StatusOf(s: State, k: RunKey): Option<Status> {
    if k in s.runs then Some(s.runs[k].status) else None
  }

  function Log(s: State, e: Event): State {
    s.(events := s.events + [e])
  }

  function StateEvent(k: RunKey, actor: string, from: Option<Status>, to: Status, payload: Payload): Event {
    Event(k, StateChanged, actor, from, Some(to), payload)
  }

  predicate Grantable(s: State, k: RunKey, owner: string) {
    k in s.locks ==> s.locks[k].expiresAt <= s.now || s.locks[k].owner == owner
  }

  /** The upsert of `acquire_run_lock`; a token is drawn even when the lock is refused. */
  function Acquired(s: State, k: RunKey, owner: string, ttl: int): State {
    var drawn := s.(nextToken := s.nextToken + 1);
    if Grantable(s, k, owner) then drawn.(locks := s.locks[k := Lock(owner, s.nextToken, s.now + ttl)]) else drawn
  }

  predicate HoldsToken(s: State, k: RunKey, token: nat) {
    k in s.locks && s.locks[k].token == token
  }

  function Released(s: State, k: RunKey, token: nat): State {
    if HoldsToken(s, k, token) then s.(locks := s.locks - {k}) else s
  }

  function RunningRun(m: Manifest): Run {
    Run(Running, m.runTs, m.artifactPrefix, None, m.engineVersion, m.pricingVersion, m.pricingSource,
        m.raw, m.correlated, m.enriched)
  }

  function Begun(s: State, k: RunKey, m: Manifest, actor: string): State {
    if StatusOf(s, k) == Some(Ready) then s
    else Log(s.(runs := s.runs[k := RunningRun(m)]), StateEvent(k, actor, StatusOf(s, k), Running, NoPayload))
  }

  function MadeReady(s: State, k: RunKey, actor: string, raw: bool, correlated: bool, enriched: bool): State {
    if StatusOf(s, k) != Some(Running) then s
    else
      var run := s.runs[k].(
        status := Ready, ingestedAt := Some(s.now), raw := raw, correlated := correlated, enriched := enriched);
      Log(s.(runs := s.runs[k := run]), StateEvent(k, actor, Some(Running), Ready, NoPayload))
  }

  function Coalesce<T>(a: Option<T>, b: Option<T>): Option<T> {
    if a.Some? then a else b
  }

  function MadeFailed(s: State, k: RunKey, m: Manifest, actor: string, reason: string): State {
    var run :=
      if k !in s.runs then RunningRun(m).(status := Failed, raw := false, correlated := false, enriched := false)
      else s.runs[k].(status := Failed, pricingVersion := Coalesce(m.pricingVersion, s.runs[k].pricingVersion),
                      pricingSource := Coalesce(m.pricingSource, s.runs[k].pricingSource));
    var text := if |reason| <= MAX_REASON then reason else reason[..MAX_REASON];
    Log(s.(runs := s.runs[k := run]), StateEvent(k, actor, StatusOf(s, k), Failed, Reason(text)))
  }

  // ---------- Recovery ----------

  predicate InScope(k: RunKey, tenant: string, workspace: string) {
    k.tenant == tenant && k.workspace == workspace
  }

  predicate LiveLock(s: State, k: RunKey) {
    k in s.locks && s.now < s.locks[k].expiresAt
  }

  function ExpiredLocks(s: State, tenant: string, workspace: string): set<RunKey> {
    set k | k in s.locks && InScope(k, tenant, workspace) && s.locks[k].expiresAt <= s.now
  }

  function StaleRuns(s: State, tenant: string, workspace: string): set<RunKey> {
    set k | k in s.runs && InScope(k, tenant, workspace) && s.runs[k].status == Running && !LiveLock(s, k)
  }

  function Elements<T>(s: seq<T>): set<T> {
    set x | x in s
  }

  /** Earlier due, or due at the same time with the smaller run id. */
  predicate DueBefore(due: map<RunKey, int>, c: RunKey, d: RunKey)
    requires c in due && d in due
  {
    due[c] < due[d] || (due[c] == due[d] && TextLeq(c.runId, d.runId))
  }

  /** `ORDER BY due, run_id LIMIT limit` over `candidates`. */
  ghost predicate FirstByDue(chosen: seq<RunKey>, candidates: set<RunKey>, due: map<RunKey, int>, limit: nat)
    requires candidates <= due.Keys
  {
    && (forall i, j :: 0 <= i < j < |chosen| ==> chosen[i] != chosen[j])
    && Elements(chosen) <= candidates
    && |chosen| == Min(limit, |candidates|)
    && forall c, d :: c in chosen && d in candidates && d !in chosen ==> DueBefore(due, c, d)
  }

  function Due(s: State): map<RunKey, int> {
    map k | k in s.locks :: s.locks[k].expiresAt
  }

  function Age(s: State): map<RunKey, int> {
    map k | k in s.runs :: s.runs[k].runTs
  }

  function ExpiryEvents(s: State, keys: seq<RunKey>, actor: string): seq<Event>
    requires Elements(keys) <= s.locks.Keys
  {
    if keys == [] then []
    else
      var k := keys[|keys| - 1];
      assert Elements(keys[..|keys| - 1]) <= Elements(keys) && k in Elements(keys);
      ExpiryEvents(s, keys[..|keys| - 1], actor)
      + [Event(k, LockExpired, actor, None, None, ExpiredLock(s.locks[k].owner, s.locks[k].expiresAt))]
  }

  function FailureEvents(keys: seq<RunKey>, reaped: seq<RunKey>, actor: string): seq<Event> {
    if keys == [] then []
    else
      var k := keys[|keys| - 1];
      var reason := if k in reaped then "recovery:expired_lock" else "recovery:no_active_lock";
      FailureEvents(keys[..|keys| - 1], reaped, actor) + [StateEvent(k, actor, Some(Running), Failed, Reason(reason))]
  }

  function FailAll(runs: map<RunKey, Run>, keys: set<RunKey>): map<RunKey, Run> {
    map k | k in runs :: if k in keys then runs[k].(status := Failed) else runs[k]
  }

  /** One sweep that reaped the locks `reaped` and failed the runs `failed`. */
  function Swept(s: State, actor: string, reaped: seq<RunKey>, failed: seq<RunKey>): State
    requires Elements(reaped) <= s.locks.Keys
  {
    s.(locks := s.locks - Elements(reaped),
       runs := FailAll(s.runs, Elements(failed)),
       events := s.events + ExpiryEvents(s, reaped, actor) + FailureEvents(failed, reaped, actor))
  }

  /** Which rows one sweep may take; rows held by other sessions (`busyLocks`, `busyRuns`) are skipped. */
  ghost predicate SweepTakes(s: State, tenant: string, workspace: string, limit: nat,
                             busyLocks: set<RunKey>, busyRuns: set<RunKey>, reaped: seq<RunKey>, failed: seq<RunKey>)
  {
    && FirstByDue(reaped, ExpiredLocks(s, tenant, workspace) - busyLocks, Due(s), limit)
    && FirstByDue(failed, StaleRuns(s, tenant, workspace) - busyRuns, Age(s), limit)
  }

  // ---------- The methods ----------

  datatype RunLock = RunLock(token: nat, expiresAt: int)

  datatype RecoveryStats = RecoveryStats(expiredLocksReaped: nat, staleRunsFailed: nat, recovered: seq<RunKey>)

  /** The three tables of one database. */
  class Database {
    var now: int
    var nextToken: nat
    var runs: map<RunKey, Run>
    var locks: map<RunKey, Lock>
    var events: seq<Event>

    function View(): State
      reads this
    {
      State(now, nextToken, runs, locks, events)
    }

    constructor (now: int)
      ensures View() == State(now, 0, map[], map[], [])
    {
      this.now := now;
      nextToken, runs, locks, events := 0, map[], map[], [];
    }

    /** Back to the tables of an earlier moment; the clock and the token supply do not turn back. */
    method Rollback(saved: State)
      modifies this`runs, this`locks, this`events
      ensures View() == saved.(now := now, nextToken := nextToken)
    {
      runs, locks, events := saved.runs, saved.locks, saved.events;
    }

    method AppendRunEvent(e: Event)
      modifies this`events
      ensures View() == Log(old(View()), e)
    {
      events := events + [e];
    }

    method AcquireRunLock(k: RunKey, owner: string, ttl: int) returns (lock: Option<RunLock>)
      modifies this
      ensures View() == Acquired(old(View()), k, owner, ttl)
      ensures lock == if Grantable(old(View()), k, owner) then Some(RunLock(old(nextToken), now + ttl)) else None
    {
      var token := nextToken;
      nextToken := nextToken + 1;
      if k !in locks || locks[k].expiresAt <= now || locks[k].owner == owner {
        locks := locks[k := Lock(owner, token, now + ttl)];
        return Some(RunLock(token, now + ttl));
      }
      lock := None;
    }

    method ReleaseRunLock(k: RunKey, token: nat) returns (released: bool)
      modifies this`locks
      ensures View() == Released(old(View()), k, token)
      ensures released == HoldsToken(old(View()), k, token)
    {
      released := k in locks && locks[k].token == token;
      if released {
        locks := locks - {k};
      }
    }

    method BeginRunRunning(k: RunKey, m: Manifest, actor: string) returns (state: Status)
      modifies this`runs, this`events
      ensures View() == Begun(old(View()), k, m, actor)
      ensures state == if StatusOf(old(View()), k) == Some(Ready) then Ready else Running
    {
      var previous := if k in runs then Some(runs[k].status) else None;
      if previous == Some(Ready) {
        return Ready;
      }
      if previous.None? {
        runs := runs[k := Run(Running, m.runTs, m.artifactPrefix, None, m.engineVersion, m.pricingVersion,
                              m.pricingSource, m.raw, m.correlated, m.enriched)];
      } else {
        runs := runs[k := runs[k].(
          runTs := m.runTs, status := Running, artifactPrefix := m.artifactPrefix, engineVersion := m.engineVersion,
          pricingVersion := m.pricingVersion, pricingSource := m.pricingSource, raw := m.raw,
          correlated := m.correlated, enriched := m.enriched, ingestedAt := None)];
      }
      AppendRunEvent(StateEvent(k, actor, previous, Running, NoPayload));
      state := Running;
    }

    /** `Raised` stands for the RuntimeError of a transition that found no running row. */
    method TransitionRunToReady(k: RunKey, actor: string, raw: bool, correlated: bool, enriched: bool)
      returns (r: Result<()>)
      modifies this`runs, this`events
      ensures View() == MadeReady(old(View()), k, actor, raw, correlated, enriched)
      ensures r.Ok? <==> StatusOf(old(View()), k) == Some(Running)
    {
      if !(k in runs && runs[k].status == Running) {
        return Raised("run_state_transition_failed");
      }
      runs := runs[k := runs[k].(
        status := Ready, ingestedAt := Some(now), raw := raw, correlated := correlated, enriched := enriched)];
      AppendRunEvent(StateEvent(k, actor, Some(Running), Ready, NoPayload));
      r := Ok(());
    }

    method TransitionRunToFailed(k: RunKey, m: Manifest, actor: string, reason: string)
      modifies this`runs, this`events
      ensures View() == MadeFailed(old(View()), k, m, actor, reason)
    {
      var previous := if k in runs then Some(runs[k].status) else None;
      if previous.None? {
        runs := runs[k := Run(Failed, m.runTs, m.artifactPrefix, None, m.engineVersion, m.pricingVersion,
                              m.pricingSource, false, false, false)];
      } else {
        var run := runs[k].(status := Failed);
        if m.pricingVersion.Some? {
          run := run.(pricingVersion := m.pricingVersion);
        }
        if m.pricingSource.Some? {
          run := run.(pricingSource := m.pricingSource);
        }
        runs := runs[k := run];
      }
      assert reason[..|reason|] == reason;
      AppendRunEvent(StateEvent(k, actor, previous, Failed, Reason(reason[..Min(MAX_REASON, |reason|)])));
    }

    method RecoverStaleRunsForScope(tenant: string, workspace: string, actor: string, limit: int,
                                    busyLocks: set<RunKey>, busyRuns: set<RunKey>)
      returns (r: Result<RecoveryStats>, ghost reaped: seq<RunKey>)
      modifies this`runs, this`locks, this`events
      ensures r.Raised? <==> limit <= 0
      ensures r.Raised? ==> View() == old(View())
      ensures r.Ok? ==>
        && SweepTakes(old(View()), tenant, workspace, limit, busyLocks, busyRuns, reaped, r.value.recovered)
        && View() == Swept(old(View()), actor, reaped, r.value.recovered)
        && r.value.expiredLocksReaped == |reaped| && r.value.staleRunsFailed == |r.value.recovered|
    {
      reaped := [];
      if limit <= 0 {
        return Raised("limit must be >= 1"), reaped;
      }
      hide FirstByDue, ExpiryEvents, FailureEvents, FailAll;
      ghost var before := View();
      var reapedLocks := locks;
      var expired := SelectFirst(ExpiredLocks(View(), tenant, workspace) - busyLocks, Due(View()), limit);
      reaped := expired;
      ChosenAmong(expired, ExpiredLocks(View(), tenant, workspace) - busyLocks, Due(View()), limit);
      locks := locks - Elements(expired);
      LogExpiries(before, expired, actor, reapedLocks);

      ReapingKeepsStale(before, tenant, workspace, expired);
      assert Age(View()) == Age(before);
      var stale := SelectFirst(StaleRuns(View(), tenant, workspace) - busyRuns, Age(View()), limit);
      runs := FailAll(runs, Elements(stale));
      LogFailures(stale, expired, actor);
      r := Ok(RecoveryStats(|expired|, |stale|, stale));
    }

    method LogExpiries(ghost before: State, expired: seq<RunKey>, actor: string, reapedLocks: map<RunKey, Lock>)
      requires Elements(expired) <= reapedLocks.Keys && reapedLocks == before.locks
      modifies this`events
      ensures events == old(events) + ExpiryEvents(before, expired, actor)
    {
      for i := 0 to |expired|
        invariant Elements(expired[..i]) <= before.locks.Keys
        invariant events == old(events) + ExpiryEvents(before, expired[..i], actor)
      {
        var k := expired[i];
        assert k in Elements(expired);
        assert expired[..i + 1][..i] == expired[..i];
        AppendRunEvent(Event(k, LockExpired, actor, None, None,
          ExpiredLock(reapedLocks[k].owner, reapedLocks[k].expiresAt)));
      }
      assert expired[..|expired|] == expired;
    }

    method LogFailures(stale: seq<RunKey>, expired: seq<RunKey>, actor: string)
      modifies this`events
      ensures events == old(events) + FailureEvents(stale, expired, actor)
    {
      for i := 0 to |stale|
        invariant events == old(events) + FailureEvents(stale[..i], expired, actor)
      {
        var k := stale[i];
        assert stale[..i + 1][..i] == stale[..i];
        var reason := if k in expired then "recovery:expired_lock" else "recovery:no_active_lock";
        AppendRunEvent(StateEvent(k, actor, Some(Running), Failed, Reason(reason)));
      }
      assert stale[..|stale|] == stale;
    }
  }

  lemma ChosenAmong(chosen: seq<RunKey>, candidates: set<RunKey>, due: map<RunKey, int>, limit: nat)
    requires candidates <= due.Keys && FirstByDue(chosen, candidates, due, limit)
    ensures Elements(chosen) <= candidates
  {
  }

  /** Removing expired locks does not change which runs lack a live lock. */
  lemma ReapingKeepsStale(s: State, tenant: string, workspace: string, reaped: seq<RunKey>)
    requires Elements(reaped) <= ExpiredLocks(s, tenant, workspace)
    ensures forall events :: StaleRuns(s.(locks := s.locks - Elements(reaped), events := events), tenant, workspace)
                             == StaleRuns(s, tenant, workspace)
  {
  }

  lemma DueOrder(due: map<RunKey, int>, c: RunKey, d: RunKey)
    requires c in due && d in due
    ensures DueBefore(due, c, d) || DueBefore(due, d, c)
    ensures DueBefore(due, c, d) && DueBefore(due, d, c) ==> due[c] == due[d] && c.runId == d.runId
  {
    TextOrder(c.runId, d.runId);
  }

  lemma DueTransitive(due: map<RunKey, int>, c: RunKey, d: RunKey, e: RunKey)
    requires c in due && d in due && e in due && DueBefore(due, c, d) && DueBefore(due, d, e)
    ensures DueBefore(due, c, e)
  {
    if due[c] == due[e] {
      TextTransitive(c.runId, d.runId, e.runId);
    }
  }

  lemma Earliest(keys: set<RunKey>, due: map<RunKey, int>) returns (k: RunKey)
    requires keys != {} && keys <= due.Keys
    ensures k in keys && forall j :: j in keys ==> DueBefore(due, k, j)
  {
    hide DueBefore;
    k :| k in keys;
    DueOrder(due, k, k);
    if keys != {k} {
      var rest := keys - {k};
      var j := Earliest(rest, due);
      assert keys == rest + {k};
      DueOrder(due, j, k);
      if DueBefore(due, j, k) {
        k := j;
      } else {
        forall i | i in rest ensures DueBefore(due, k, i) {
          DueTransitive(due, k, j, i);
        }
      }
    }
  }

  /** Within one scope the first rows are determined by the tables. */
  lemma FirstAreDetermined(chosen: seq<RunKey>, others: seq<RunKey>, candidates: set<RunKey>, due: map<RunKey, int>,
                           limit: nat, tenant: string, workspace: string)
    requires candidates <= due.Keys && forall k :: k in candidates ==> InScope(k, tenant, workspace)
    requires FirstByDue(chosen, candidates, due, limit) && FirstByDue(others, candidates, due, limit)
    ensures Elements(chosen) == Elements(others)
  {
    hide DueBefore;
    DistinctCount(chosen);
    DistinctCount(others);
    var a, b := Elements(chosen), Elements(others);
    if a != b {
      assert a - b != {} && b - a != {} by {
        assert |a| == |b| && a == (a - b) + a * b && b == (b - a) + a * b;
      }
      var c :| c in a - b;
      var d :| d in b - a;
      DueOrder(due, c, d);
      assert false;
    }
  }

  method SelectFirst(candidates: set<RunKey>, due: map<RunKey, int>, limit: nat) returns (chosen: seq<RunKey>)
    requires candidates <= due.Keys
    ensures FirstByDue(chosen, candidates, due, limit)
  {
    hide DueBefore;
    chosen := [];
    var rest := candidates;
    while |chosen| < limit && rest != {}
      invariant |chosen| <= limit && |chosen| + |rest| == |candidates|
      invariant forall i, j :: 0 <= i < j < |chosen| ==> chosen[i] != chosen[j]
      invariant forall c :: c in chosen ==> c in candidates && c !in rest
      invariant rest <= candidates
      invariant forall d :: d in candidates ==> d in chosen || d in rest
      invariant forall c, d :: c in chosen && d in rest ==> DueBefore(due, c, d)
      decreases |rest|
    {
      ghost var first := Earliest(rest, due);
      var k :| k in rest && forall j :: j in rest ==> DueBefore(due, k, j);
      chosen := chosen + [k];
      rest := rest - {k};
    }
  }
}
