/** The COPY ingest of one run (apps/worker/ingest_parquet.py, `_ingest_with_copy`): one
    transaction from lock to commit, and after an exception a rollback and a second transaction
    that marks the run failed. */
module CopyIngest {
  import opened Prelude
  import opened RunState
  import opened IngestRows

  /** Where an exception of the database or the scanner may strike; `AtSkip` is the branch for a
      run that is already ready, `AtFinish` is everything from the checks to the commit. */
  datatype Fault = NoFault | AtAcquire | AtBegin | AtSkip | AtRows | AtFinish

  datatype Outcome =
    | Ingested(presenceRows: nat, latestRows: nat)
    | Skipped
    | Refused               // SystemExit: another session holds the lock
    | Aborted(error: string) // the exception is raised again

  /** Everything one call is given. */
  datatype Job = Job(
    run: RunKey, manifest: Manifest, owner: string, ttl: int, records: seq<Record>,
    fault: Fault, error: string, cleanupFails: bool)

  datatype Tables = Tables(db: State, presence: Presence, latest: Latest)

  // ---------- The post-ingest checks ----------

  function PresenceOfRun(presence: Presence, run: RunKey): set<PresenceKey> {
    set k | k in presence && k.run == run
  }

  predicate Carries(latest: Latest, k: LatestKey, run: RunKey) {
    k in latest && k.tenant == run.tenant && k.workspace == run.workspace && latest[k].run.runId == run.runId
  }

  function LatestOfRun(latest: Latest, run: RunKey): set<LatestKey> {
    set k | k in latest && Carries(latest, k, run)
  }

  /** The six counts of `_assert_post_ingest_invariants` are as they should be. */
  predicate ChecksPass(t: Tables, run: RunKey, expectedPresence: nat, expectedLatest: nat) {
    var presence, latest := PresenceOfRun(t.presence, run), LatestOfRun(t.latest, run);
    && run in t.db.runs
    && |presence| == expectedPresence
    && |latest| == expectedLatest
    && |presence| == |set k | k in presence :: k.fingerprint|
    && |latest| == |set k | k in latest :: k.fingerprint|
    && forall k :: k in presence ==> Carries(t.latest, LatestKey(run.tenant, run.workspace, k.fingerprint), run)
  }

  // ---------- The call as a function on the tables ----------

  function LockEvent(run: RunKey, owner: string, what: EventType, payload: Payload): Event {
    Event(run, what, owner, None, None, payload)
  }

  /** Give the lock back and say so. */
  function GiveBack(s: State, run: RunKey, owner: string, token: nat): State {
    if HoldsToken(s, run, token) then Log(Released(s, run, token), LockEvent(run, owner, LockReleased, NoPayload))
    else s
  }

  /** After the rollback: mark the run failed and release the token if the table still has it. */
  function CleanedUp(t: Tables, job: Job, token: nat, error: string): Tables {
    var db := t.db.(nextToken := token + 1);
    t.(db :=
      if job.cleanupFails then db
      else GiveBack(MadeFailed(db, job.run, job.manifest, job.owner, error), job.run, job.owner, token))
  }

  /** The lock is taken and logged and the run begun. */
  function Opened(t: Tables, job: Job): State {
    var locked := Acquired(t.db, job.run, job.owner, job.ttl);
    var logged := Log(locked, LockEvent(job.run, job.owner, LockAcquired, LockExpiry(t.db.now + job.ttl)));
    Begun(logged, job.run, job.manifest, job.owner)
  }

  /** The tables when the checks are made. */
  ghost function Loaded(t: Tables, job: Job): Tables {
    Tables(Opened(t, job),
           IngestedPresence(t.presence, job.records, job.run, job.manifest.runTs),
           IngestedLatest(t.latest, job.records, job.run, job.manifest.runTs))
  }

  const CHECKS_FAILED := "Post-ingest invariant failed"

  /** The tables and the outcome after the call. */
  ghost function AfterIngest(t: Tables, job: Job): (Tables, Outcome) {
    var token := t.db.nextToken;
    var n := |IngestRows.Kept(job.run, job.records, {})|;
    if job.fault == AtAcquire then (CleanedUp(t, job, token, job.error), Aborted(job.error))
    else if !Grantable(t.db, job.run, job.owner) then (t.(db := t.db.(nextToken := token + 1)), Refused)
    else if job.fault == AtBegin then (CleanedUp(t, job, token, job.error), Aborted(job.error))
    else if StatusOf(t.db, job.run) == Some(Ready) then
      if job.fault == AtSkip then (CleanedUp(t, job, token, job.error), Aborted(job.error))
      else (t.(db := GiveBack(Opened(t, job), job.run, job.owner, token)), Skipped)
    else if job.fault == AtRows then (CleanedUp(t, job, token, job.error), Aborted(job.error))
    else if !ChecksPass(Loaded(t, job), job.run, n, n) then
      (CleanedUp(t, job, token, CHECKS_FAILED), Aborted(CHECKS_FAILED))
    else if job.fault == AtFinish then (CleanedUp(t, job, token, job.error), Aborted(job.error))
    else
      var m := job.manifest;
      var ready := MadeReady(Opened(t, job), job.run, job.owner, m.raw, m.correlated, m.enriched);
      (Loaded(t, job).(db := GiveBack(ready, job.run, job.owner, token)), Ingested(n, n))
  }

  // ---------- The methods ----------

  class Store {
    const runs: Database
    const tables: FindingTables

    constructor (runs: Database, tables: FindingTables)
      ensures this.runs == runs && this.tables == tables
    {
      this.runs, this.tables := runs, tables;
    }

    function View(): Tables
      reads runs, tables
    {
      Tables(runs.View(), tables.presence, tables.latest)
    }

    method Rollback(saved: Tables)
      modifies runs, tables
      ensures View() == saved.(db := saved.db.(now := old(runs.now), nextToken := old(runs.nextToken)))
    {
      runs.Rollback(saved.db);
      tables.presence, tables.latest := saved.presence, saved.latest;
    }

    method ReleaseAndLog(run: RunKey, owner: string, token: nat)
      modifies runs`locks, runs`events
      ensures runs.View() == GiveBack(old(runs.View()), run, owner, token)
    {
      var released := runs.ReleaseRunLock(run, token);
      if released {
        runs.AppendRunEvent(LockEvent(run, owner, LockReleased, NoPayload));
      }
    }

    /** The `try` block: `Raised` is an exception, before which anything may have been written. */
    method Transaction(job: Job, batches: seq<seq<Record>>, batchSize: int) returns (r: Result<Outcome>)
      requires Flatten(batches) == job.records
      modifies runs, tables
      ensures runs.now == old(runs.now) && runs.nextToken == old(runs.nextToken) + 1
      ensures r.Ok? ==> (View(), r.value) == AfterIngest(old(View()), job) && !r.value.Aborted?
      ensures r.Raised? ==> AfterIngest(old(View()), job)
                            == (CleanedUp(old(View()), job, old(runs.nextToken), r.error), Aborted(r.error))
    {
      hide Kept, Flatten, Acquired, Begun, MadeReady, Released, IngestedPresence, IngestedLatest, ChecksPass, CleanedUp;
      if job.fault == AtAcquire {
        runs.nextToken := runs.nextToken + 1;
        return Raised(job.error);
      }
      var lock := runs.AcquireRunLock(job.run, job.owner, job.ttl);
      AcquireKeeps(old(runs.View()), job.run, job.owner, job.ttl);
      if lock.None? {
        return Ok(Refused);
      }
      runs.AppendRunEvent(LockEvent(job.run, job.owner, LockAcquired, LockExpiry(lock.value.expiresAt)));
      if job.fault == AtBegin {
        return Raised(job.error);
      }
      var state := runs.BeginRunRunning(job.run, job.manifest, job.owner);
      assert runs.View() == Opened(old(View()), job);
      BeginKeeps(old(View()), job);
      if state == Ready {
        if job.fault == AtSkip {
          return Raised(job.error);
        }
        ReleaseAndLog(job.run, job.owner, lock.value.token);
        return Ok(Skipped);
      }
      if job.fault == AtRows {
        return Raised(job.error);
      }
      var counts := tables.IngestWithCopy(batches, job.run, job.manifest.runTs, batchSize);
      assert View() == Loaded(old(View()), job);
      if !ChecksPass(View(), job.run, counts.value.0, counts.value.1) {
        return Raised(CHECKS_FAILED);
      }
      if job.fault == AtFinish {
        return Raised(job.error);
      }
      var m := job.manifest;
      var ready := runs.TransitionRunToReady(job.run, job.owner, m.raw, m.correlated, m.enriched);
      assert ready.Ok?;
      ReleaseAndLog(job.run, job.owner, lock.value.token);
      r := Ok(Ingested(counts.value.0, counts.value.1));
    }

    method IngestRun(job: Job, batches: seq<seq<Record>>, batchSize: int) returns (outcome: Outcome)
      requires Flatten(batches) == job.records
      modifies runs, tables
      ensures (View(), outcome) == AfterIngest(old(View()), job)
    {
      hide AfterIngest, MadeFailed;
      var saved := View();
      var token := runs.nextToken;
      var r := Transaction(job, batches, batchSize);
      if r.Ok? {
        return r.value;
      }
      Rollback(saved);
      if !job.cleanupFails {
        runs.TransitionRunToFailed(job.run, job.manifest, job.owner, r.error);
        ReleaseAndLog(job.run, job.owner, token);
      }
      outcome := Aborted(r.error);
    }
  }

  lemma AcquireKeeps(s: State, run: RunKey, owner: string, ttl: int)
    ensures Acquired(s, run, owner, ttl).now == s.now && Acquired(s, run, owner, ttl).nextToken == s.nextToken + 1
    ensures StatusOf(Acquired(s, run, owner, ttl), run) == StatusOf(s, run)
    ensures !Grantable(s, run, owner) ==> Acquired(s, run, owner, ttl) == s.(nextToken := s.nextToken + 1)
  {
  }

  lemma BeginKeeps(t: Tables, job: Job)
    ensures Opened(t, job).now == t.db.now && Opened(t, job).nextToken == t.db.nextToken + 1
    ensures StatusOf(Opened(t, job), job.run) ==
      if StatusOf(t.db, job.run) == Some(Ready) then Some(Ready) else Some(Running)
  {
  }
}
