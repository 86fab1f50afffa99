/** What each call of the run state machine does to the rows of `runs`, `run_locks` and `run_events`,
    column by column. */
module RunStateEffects {
  import opened Prelude
  import opened PyText
  import opened RunState
  import opened RunStateLaws

  // ---------- Locks ----------

  /** A lock granted to one owner keeps every other owner out for exactly `ttl` seconds, never its own
      owner, and concerns no other run. */
  lemma LockKeepsOthersOut(s: State, k: RunKey, owner: string, ttl: int, seconds: nat, j: RunKey, other: string)
    requires Grantable(s, k, owner)
    ensures var later := Apply(Apply(s, Acquire(k, owner, ttl)), Tick(seconds));
      Grantable(later, j, other) <==>
        if j != k then Grantable(Apply(s, Tick(seconds)), j, other) else other == owner || ttl <= seconds
  {
  }

  /** A refused call changes no row, and a lock is refused exactly while another owner's row has not
      run out. */
  lemma RefusedExactly(s: State, k: RunKey, owner: string, ttl: int)
    ensures !Grantable(s, k, owner) <==> k in s.locks && s.locks[k].owner != owner && s.now < s.locks[k].expiresAt
    ensures var s' := Apply(s, Acquire(k, owner, ttl));
      && (s'.now, s'.nextToken, s'.runs, s'.events) == (s.now, s.nextToken + 1, s.runs, s.events)
      && (!Grantable(s, k, owner) ==> s'.locks == s.locks)
      && (forall j :: j != k ==> (j in s'.locks <==> j in s.locks) && (j in s.locks ==> s'.locks[j] == s.locks[j]))
      && (Grantable(s, k, owner) ==>
        k in s'.locks && s'.locks[k].owner == owner && s'.locks[k].token == s.nextToken
        && s'.locks[k].expiresAt == s.now + ttl)
  {
  }

  /** Giving back the token just drawn frees the run for everyone; any other token takes nothing away. */
  lemma ReleaseFreesExactly(s: State, k: RunKey, owner: string, ttl: int, token: nat, other: string, j: RunKey)
    requires Grantable(s, k, owner)
    ensures var held := Apply(s, Acquire(k, owner, ttl));
      var s' := Apply(held, Release(k, token));
      && (k in s'.locks <==> token != s.nextToken)
      && (token == s.nextToken ==> Grantable(s', k, other))
      && (token != s.nextToken ==> s' == held)
      && (j != k ==> (j in s'.locks <==> j in s.locks) && (j in s.locks ==> s'.locks[j] == s.locks[j]))
      && (s'.now, s'.nextToken, s'.runs, s'.events) == (s.now, s.nextToken + 1, s.runs, s.events)
  {
  }

  // ---------- Runs ----------

  /** Nothing but the rows and events of run `k` differs between the two databases. */
  ghost predicate OnlyRunDiffers(s: State, s': State, k: RunKey) {
    && (s'.now, s'.nextToken, s'.locks) == (s.now, s.nextToken, s.locks)
    && (forall j :: j != k ==> (j in s'.runs <==> j in s.runs) && (j in s.runs ==> s'.runs[j] == s.runs[j]))
    && s.events <= s'.events
    && forall i :: |s.events| <= i < |s'.events| ==> s'.events[i].key == k
  }

  /** One state change of run `k` was logged. */
  predicate Logged(s: State, s': State, actor: string, to: Status, payload: Payload) {
    && |s'.events| == |s.events| + 1
    && var e := s'.events[|s.events|];
    && e.eventType == StateChanged && e.actor == actor && e.toState == Some(to) && e.payload == payload
    && e.fromState == if e.key in s.runs then Some(s.runs[e.key].status) else None
  }

  /** `begin_run_running` leaves a ready run as it is; any other run is running afterwards with the
      columns of the manifest and not ingested. */
  lemma BeginExactly(s: State, k: RunKey, m: Manifest, actor: string)
    ensures var s' := Apply(s, Begin(k, m, actor));
      && OnlyRunDiffers(s, s', k)
      && (k in s.runs && s.runs[k].status == Ready ==> s' == s)
      && (!(k in s.runs && s.runs[k].status == Ready) ==>
        && Logged(s, s', actor, Running, NoPayload) && k in s'.runs
        && var run := s'.runs[k];
        && run.status == Running && run.ingestedAt == None
        && run.runTs == m.runTs && run.artifactPrefix == m.artifactPrefix && run.engineVersion == m.engineVersion
        && run.pricingVersion == m.pricingVersion && run.pricingSource == m.pricingSource
        && run.raw == m.raw && run.correlated == m.correlated && run.enriched == m.enriched)
  {
  }

  /** `transition_run_to_ready` stamps a running run with the time and the flags and leaves its other
      columns; without a running row it changes nothing. */
  lemma ReadyExactly(s: State, k: RunKey, actor: string, raw: bool, correlated: bool, enriched: bool)
    ensures var s' := Apply(s, MakeReady(k, actor, raw, correlated, enriched));
      && OnlyRunDiffers(s, s', k)
      && (!(k in s.runs && s.runs[k].status == Running) ==> s' == s)
      && (k in s.runs && s.runs[k].status == Running ==>
        && Logged(s, s', actor, Ready, NoPayload) && k in s'.runs
        && var (was, run) := (s.runs[k], s'.runs[k]);
        && run.status == Ready && run.ingestedAt == Some(s.now)
        && run.raw == raw && run.correlated == correlated && run.enriched == enriched
        && run.runTs == was.runTs && run.artifactPrefix == was.artifactPrefix
        && run.engineVersion == was.engineVersion
        && run.pricingVersion == was.pricingVersion && run.pricingSource == was.pricingSource)
  {
  }

  /** `transition_run_to_failed` marks any run failed: a missing one is inserted without flags, a
      known one keeps its columns apart from the pricing given, and the reason is cut at 2000
      characters. */
  lemma FailedExactly(s: State, k: RunKey, m: Manifest, actor: string, reason: string)
    ensures var s' := Apply(s, MakeFailed(k, m, actor, reason));
      && OnlyRunDiffers(s, s', k)
      && Logged(s, s', actor, Failed, s'.events[|s.events|].payload)
      && s'.events[|s.events|].payload.Reason?
      && (var text := s'.events[|s.events|].payload.text;
          text <= reason && |text| <= 2000 && (text == reason || |text| == 2000))
      && k in s'.runs && s'.runs[k].status == Failed
      && FailedColumns(s'.runs[k], m, if k in s.runs then Some(s.runs[k]) else None)
  {
  }

  lemma FailedColumnsAreAll(run: Run, other: Run, m: Manifest, was: Option<Run>)
    ensures FailedColumns(run, m, was) && FailedColumns(other, m, was) && run.status == other.status ==> run == other
  {
  }

  predicate FailedColumns(run: Run, m: Manifest, was: Option<Run>) {
    match was
    case None =>
      && run.runTs == m.runTs && run.artifactPrefix == m.artifactPrefix && run.engineVersion == m.engineVersion
      && run.pricingVersion == m.pricingVersion && run.pricingSource == m.pricingSource
      && run.ingestedAt == None && !run.raw && !run.correlated && !run.enriched
    case Some(row) =>
      && run.runTs == row.runTs && run.artifactPrefix == row.artifactPrefix
      && run.engineVersion == row.engineVersion && run.ingestedAt == row.ingestedAt
      && run.raw == row.raw && run.correlated == row.correlated && run.enriched == row.enriched
      && run.pricingVersion == (if m.pricingVersion == None then row.pricingVersion else m.pricingVersion)
      && run.pricingSource == (if m.pricingSource == None then row.pricingSource else m.pricingSource)
  }

  // ---------- Recovery ----------

  /** A row of the scope that a sweep may reap: its lock has run out and no other session holds it. */
  predicate MayReap(s: State, op: Op, k: RunKey)
    requires op.Recover?
  {
    && k in s.locks && k.tenant == op.tenant && k.workspace == op.workspace
    && s.locks[k].expiresAt <= s.now && k !in op.busyLocks
  }

  /** A run of the scope that a sweep may fail: running without a lock still valid. */
  predicate MayFail(s: State, op: Op, k: RunKey)
    requires op.Recover?
  {
    && k in s.runs && k.tenant == op.tenant && k.workspace == op.workspace && s.runs[k].status == Running
    && !(k in s.locks && s.now < s.locks[k].expiresAt) && k !in op.busyRuns
  }

  /** A sweep takes the locks that ran out first, ties by run id, and leaves one only when it has
      taken `limit` others before it. */
  lemma SweepReapsFirst(s: State, op: Op, c: RunKey, d: RunKey)
    requires Allowed(s, op) && op.Recover? && c in op.reaped
    ensures MayReap(s, op, c) && |op.reaped| <= op.limit
    ensures MayReap(s, op, d) && d !in op.reaped ==>
      && |op.reaped| == op.limit
      && (s.locks[c].expiresAt < s.locks[d].expiresAt
          || (s.locks[c].expiresAt == s.locks[d].expiresAt && TextLeq(c.runId, d.runId)))
  {
    hide TextLeq;
    var locks := ExpiredLocks(s, op.tenant, op.workspace) - op.busyLocks;
    assert c in Elements(op.reaped);
    if d in locks && d !in op.reaped {
      TakesAll(op.reaped, locks, Due(s), op.limit, d);
    }
  }

  /** It fails the running runs with the oldest timestamp, ties by run id, and leaves one only when it
      has failed `limit` others before it. */
  lemma SweepFailsOldest(s: State, op: Op, c: RunKey, d: RunKey)
    requires Allowed(s, op) && op.Recover? && c in op.failed
    ensures MayFail(s, op, c) && |op.failed| <= op.limit
    ensures MayFail(s, op, d) && d !in op.failed ==>
      && |op.failed| == op.limit
      && (s.runs[c].runTs < s.runs[d].runTs
          || (s.runs[c].runTs == s.runs[d].runTs && TextLeq(c.runId, d.runId)))
  {
    hide TextLeq;
    var runs := StaleRuns(s, op.tenant, op.workspace) - op.busyRuns;
    assert c in Elements(op.failed);
    if d in runs && d !in op.failed {
      TakesAll(op.failed, runs, Age(s), op.limit, d);
    }
  }

  /** Where nothing is chosen there was no candidate, unless the limit was zero. */
  lemma SweepOverlooksNothing(s: State, op: Op, d: RunKey)
    requires Allowed(s, op) && op.Recover?
    ensures MayReap(s, op, d) && |op.reaped| < op.limit ==> d in op.reaped
    ensures MayFail(s, op, d) && |op.failed| < op.limit ==> d in op.failed
  {
    var locks, runs := ExpiredLocks(s, op.tenant, op.workspace) - op.busyLocks,
      StaleRuns(s, op.tenant, op.workspace) - op.busyRuns;
    if d in locks && d !in op.reaped {
      TakesAll(op.reaped, locks, Due(s), op.limit, d);
    }
    if d in runs && d !in op.failed {
      TakesAll(op.failed, runs, Age(s), op.limit, d);
    }
  }

  lemma TakesAll(chosen: seq<RunKey>, candidates: set<RunKey>, due: map<RunKey, int>, limit: nat, d: RunKey)
    requires candidates <= due.Keys && FirstByDue(chosen, candidates, due, limit) && d in candidates && d !in chosen
    ensures |chosen| == limit
  {
    DistinctCount(chosen);
    assert d in candidates - Elements(chosen);
    assert candidates == (candidates - Elements(chosen)) + Elements(chosen);
  }

  /** A sweep deletes the locks it reaped and fails the runs it chose, and changes nothing else. */
  lemma SweepChangesRows(s: State, op: Op)
    requires Allowed(s, op) && op.Recover?
    ensures var s' := Apply(s, op);
      && (s'.now, s'.nextToken) == (s.now, s.nextToken)
      && (forall k :: k in s'.locks <==> k in s.locks && k !in op.reaped)
      && (forall k :: k in s'.locks ==> s'.locks[k] == s.locks[k])
      && (forall k :: k in s'.runs <==> k in s.runs)
      && forall k :: k in s.runs ==> s'.runs[k] == if k in op.failed then s.runs[k].(status := Failed) else s.runs[k]
  {
    hide ExpiryEvents, FailureEvents, FirstByDue;
    ReapedAreLocks(s, op);
  }

  /** It logs each of them once: first the locks with their owner and time, then the runs with the
      reason. */
  lemma SweepLogs(s: State, op: Op)
    requires Allowed(s, op) && op.Recover?
    ensures var s', n, m := Apply(s, op), |s.events|, |op.reaped|;
      && s.events <= s'.events && |s'.events| == n + m + |op.failed|
      && (forall i :: 0 <= i < m ==>
        op.reaped[i] in s.locks && s'.events[n + i] == ExpiryOf(s.locks[op.reaped[i]], op.reaped[i], op.actor))
      && forall i :: 0 <= i < |op.failed| ==>
        s'.events[n + m + i] == FailureBySweep(op.failed[i], op.failed[i] in op.reaped, op.actor)
  {
    hide ExpiryEvents, FailureEvents, FirstByDue, ExpiryOf, FailureBySweep, FailAll;
    ReapedAreLocks(s, op);
    ExpiriesAt(s, op.reaped, op.actor);
    FailuresAt(op.failed, op.reaped, op.actor);
  }

  lemma ReapedAreLocks(s: State, op: Op)
    requires Allowed(s, op) && op.Recover?
    ensures Elements(op.reaped) <= s.locks.Keys
  {
  }

  function ExpiryOf(lock: Lock, k: RunKey, actor: string): Event {
    Event(k, LockExpired, actor, None, None, ExpiredLock(lock.owner, lock.expiresAt))
  }

  function FailureBySweep(k: RunKey, lockRanOut: bool, actor: string): Event {
    Event(k, StateChanged, actor, Some(Running), Some(Failed),
      Reason(if lockRanOut then "recovery:expired_lock" else "recovery:no_active_lock"))
  }

  lemma {:induction false} ExpiriesAt(s: State, keys: seq<RunKey>, actor: string)
    requires Elements(keys) <= s.locks.Keys
    ensures |ExpiryEvents(s, keys, actor)| == |keys|
    ensures forall i :: 0 <= i < |keys| ==>
      keys[i] in s.locks && ExpiryEvents(s, keys, actor)[i] == ExpiryOf(s.locks[keys[i]], keys[i], actor)
  {
    if keys != [] {
      var n := |keys| - 1;
      assert Elements(keys[..n]) <= Elements(keys) && keys[n] in Elements(keys);
      ExpiriesAt(s, keys[..n], actor);
    }
  }

  lemma {:induction false} FailuresAt(keys: seq<RunKey>, reaped: seq<RunKey>, actor: string)
    ensures |FailureEvents(keys, reaped, actor)| == |keys|
    ensures forall i :: 0 <= i < |keys| ==>
      FailureEvents(keys, reaped, actor)[i] == FailureBySweep(keys[i], keys[i] in reaped, actor)
  {
    if keys != [] {
      FailuresAt(keys[..|keys| - 1], reaped, actor);
    }
  }
}
