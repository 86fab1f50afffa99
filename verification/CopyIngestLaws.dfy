/** What COPY ingests keep, whatever fails and whatever other sessions do in between: findings
    belong to ready runs, and so the post-ingest checks cannot fail. */
module CopyIngestLaws {
  import opened Prelude
  import opened RunState
  import opened RunStateLaws
  import opened RunStateEffects
  import opened IngestRows
  import opened CopyIngest

  // ---------- When the post-ingest checks pass ----------

  ghost predicate WellKeyed(latest: Latest) {
    forall k :: k in latest ==> k == LatestKeyOf(latest[k])
  }

  predicate Delivers(run: RunKey, recs: seq<Record>, fingerprint: string) {
    exists x :: x in IngestRows.Kept(run, recs, {}) && x.fingerprint == fingerprint
  }

  lemma {:induction false} PresenceFingerprints(ks: set<PresenceKey>, run: RunKey)
    requires forall k :: k in ks ==> k.run == run
    ensures |set k | k in ks :: k.fingerprint| == |ks|
  {
    if ks != {} {
      var k :| k in ks;
      PresenceFingerprints(ks - {k}, run);
      assert (set j | j in ks :: j.fingerprint) == (set j | j in ks - {k} :: j.fingerprint) + {k.fingerprint};
    }
  }

  lemma {:induction false} LatestFingerprints(ks: set<LatestKey>, run: RunKey)
    requires forall k :: k in ks ==> k.tenant == run.tenant && k.workspace == run.workspace
    ensures |set k | k in ks :: k.fingerprint| == |ks|
  {
    if ks != {} {
      var k :| k in ks;
      LatestFingerprints(ks - {k}, run);
      assert (set j | j in ks :: j.fingerprint) == (set j | j in ks - {k} :: j.fingerprint) + {k.fingerprint};
    }
  }

  lemma {:induction false} TableSize<K(!new), V(!new)>(rows: seq<V>, n: nat, key: V -> K)
    requires n <= |rows| && DistinctKeys(rows, key)
    ensures |TableOf(rows[..n], key)| == n
  {
    hide TableOf;
    if n == 0 {
      TableOfNothing(rows, key);
    } else {
      TableSize(rows, n - 1, key);
      TableOfSnoc(rows, n - 1, key);
      TableFacts(rows[..n - 1], key);
      assert forall i :: 0 <= i < n - 1 ==> rows[..n - 1][i] == rows[i];
    }
  }

  lemma PresenceTableFacts(recs: seq<Record>, run: RunKey, runTs: int)
    ensures var t := PresenceTable(recs, run, runTs);
      && |t.Keys| == |IngestRows.Kept(run, recs, {})|
      && forall k :: k in t <==> k.run == run && Delivers(run, recs, k.fingerprint)
  {
    hide IngestRows.Kept, TableOf, FingerprintOf, DistinctKeys;
    var xs := IngestRows.Kept(run, recs, {});
    var rows := PresenceRows(run, runTs, xs);
    KeptFrom(run, recs, {});
    KeptRowsHaveDistinctKeys(run, runTs, xs);
    TableFacts(rows, PresenceKeyOf);
    TableSize(rows, |rows|, PresenceKeyOf);
    assert rows[..|rows|] == rows;
    assert forall i :: 0 <= i < |xs| ==> PresenceKeyOf(rows[i]) == PresenceKey(run, xs[i].fingerprint);
  }

  lemma LatestTableFacts(recs: seq<Record>, run: RunKey, runTs: int)
    ensures var t := LatestTable(recs, run, runTs);
      && |t.Keys| == |IngestRows.Kept(run, recs, {})|
      && (forall k :: k in t <==>
        k.tenant == run.tenant && k.workspace == run.workspace && Delivers(run, recs, k.fingerprint))
      && WellKeyed(t) && forall k :: k in t ==> t[k].run == run
  {
    hide IngestRows.Kept, TableOf, FingerprintOf, DistinctKeys;
    var xs := IngestRows.Kept(run, recs, {});
    var rows := LatestRows(run, runTs, xs);
    KeptFrom(run, recs, {});
    KeptRowsHaveDistinctKeys(run, runTs, xs);
    TableFacts(rows, LatestKeyOf);
    TableSize(rows, |rows|, LatestKeyOf);
    assert rows[..|rows|] == rows;
    assert forall i :: 0 <= i < |xs| ==>
      LatestKeyOf(rows[i]) == LatestKey(run.tenant, run.workspace, xs[i].fingerprint) && rows[i].run == run;
  }

  lemma LoadedPresence(presence: Presence, recs: seq<Record>, run: RunKey, runTs: int)
    ensures var p := PresenceOfRun(IngestedPresence(presence, recs, run, runTs), run);
      && |p| == |IngestRows.Kept(run, recs, {})|
      && |set k | k in p :: k.fingerprint| == |p|
      && forall k :: k in p <==> k.run == run && Delivers(run, recs, k.fingerprint)
  {
    hide IngestRows.Kept, PresenceTable, Delivers;
    PresenceTableFacts(recs, run, runTs);
    var p := PresenceOfRun(IngestedPresence(presence, recs, run, runTs), run);
    assert p == PresenceTable(recs, run, runTs).Keys;
    PresenceFingerprints(p, run);
  }

  lemma LoadedLatest(latest: Latest, recs: seq<Record>, run: RunKey, runTs: int)
    requires WellKeyed(latest)
    ensures WellKeyed(IngestedLatest(latest, recs, run, runTs))
    ensures var l := LatestOfRun(IngestedLatest(latest, recs, run, runTs), run);
      && |set k | k in l :: k.fingerprint| == |l|
      && (forall fp :: Delivers(run, recs, fp) ==> LatestKey(run.tenant, run.workspace, fp) in l)
      && (|l| == |IngestRows.Kept(run, recs, {})| <==>
        forall k :: Carries(latest, k, run) ==> Delivers(run, recs, k.fingerprint))
  {
    hide IngestRows.Kept, LatestTable, Delivers, LatestOfRun, Carries, WellKeyed;
    LatestTableFacts(recs, run, runTs);
    var added := LatestTable(recs, run, runTs);
    var l := LatestOfRun(latest + added, run);
    CarriersOfMerge(latest, added, run);
    CarriesIsMember(latest, run);
    LatestFingerprints(l, run);
  }

  lemma CarriersOfMerge(latest: Latest, added: Latest, run: RunKey)
    requires WellKeyed(latest) && WellKeyed(added) && forall k :: k in added ==> added[k].run == run
    ensures WellKeyed(latest + added)
    ensures LatestOfRun(latest + added, run) == added.Keys + (LatestOfRun(latest, run) - added.Keys)
    ensures forall k :: k in LatestOfRun(latest + added, run) ==> k.tenant == run.tenant && k.workspace == run.workspace
  {
    forall k
      ensures k in LatestOfRun(latest + added, run) <==> k in added || (k in LatestOfRun(latest, run) && k !in added)
    {
    }
  }

  /** The six checks pass exactly when every row of `finding_latest` that already carried the run
      is among the findings delivered now. */
  lemma ChecksPassExactly(t: Tables, job: Job)
    requires WellKeyed(t.latest)
    ensures var n := |IngestRows.Kept(job.run, job.records, {})|;
      ChecksPass(Loaded(t, job), job.run, n, n) <==>
        forall k :: Carries(t.latest, k, job.run) ==> Delivers(job.run, job.records, k.fingerprint)
  {
    hide IngestRows.Kept, IngestedPresence, IngestedLatest, PresenceOfRun, LatestOfRun, Delivers;
    LoadedPresence(t.presence, job.records, job.run, job.manifest.runTs);
    LoadedLatest(t.latest, job.records, job.run, job.manifest.runTs);
    BeginKeeps(t, job);
    assert forall k :: Carries(Loaded(t, job).latest, k, job.run) <==>
      k in LatestOfRun(Loaded(t, job).latest, job.run) by {
      CarriesIsMember(Loaded(t, job).latest, job.run);
    }
  }

  lemma CarriesIsMember(latest: Latest, run: RunKey)
    ensures forall k :: Carries(latest, k, run) <==> k in LatestOfRun(latest, run)
  {
  }

  // ---------- Findings belong to ready runs ----------

  /** A call of the run state machine by any session, or a whole COPY ingest. */
  datatype Step = RunStep(op: Op) | Ingest(job: Job)

  ghost predicate StepAllowed(t: Tables, step: Step) {
    step.RunStep? ==> Allowed(t.db, step.op)
  }

  ghost function Do(t: Tables, step: Step): Tables
    requires StepAllowed(t, step)
  {
    match step
    case RunStep(op) => t.(db := Apply(t.db, op))
    case Ingest(job) => AfterIngest(t, job).0
  }

  predicate IsReady(s: State, run: RunKey) {
    StatusOf(s, run) == Some(Ready)
  }

  ghost predicate OnlyReadyRunsHaveFindings(t: Tables) {
    && WellKeyed(t.latest)
    && (forall k :: k in t.presence ==> IsReady(t.db, k.run))
    && forall k :: k in t.latest ==> IsReady(t.db, t.latest[k].run)
  }

  ghost predicate HasFindings(t: Tables, run: RunKey) {
    (exists k :: k in t.presence && k.run == run) || exists k :: k in t.latest && t.latest[k].run == run
  }

  /** The step marks a ready run failed: a direct call, or an ingest that raises before or in the
      branch for runs already ready, and whose second transaction commits. */
  predicate Demotes(t: Tables, step: Step) {
    match step
    case RunStep(op) => op.MakeFailed? && IsReady(t.db, op.key)
    case Ingest(job) =>
      && IsReady(t.db, job.run) && !job.cleanupFails
      && (job.fault == AtAcquire || (Grantable(t.db, job.run, job.owner) && job.fault in {AtBegin, AtSkip}))
  }

  function RunOf(step: Step): RunKey
    requires step.Ingest? || step.op.MakeFailed?
  {
    if step.Ingest? then step.job.run else step.op.key
  }

  lemma CleanupStatuses(t: Tables, job: Job, token: nat, error: string)
    ensures var t' := CleanedUp(t, job, token, error);
      && t'.presence == t.presence && t'.latest == t.latest
      && forall k :: StatusOf(t'.db, k) == if k == job.run && !job.cleanupFails then Some(Failed) else StatusOf(t.db, k)
  {
  }

  lemma OpenedStatuses(t: Tables, job: Job)
    ensures forall k ::
      StatusOf(Opened(t, job), k) == if k == job.run && !IsReady(t.db, k) then Some(Running) else StatusOf(t.db, k)
  {
  }

  /** What an ingest does to the statuses, and to the tables unless it ingests: a run ends ready
      when it was ingested or skipped, keeps its status when the lock is refused, and is marked
      failed after an exception unless that second transaction fails too. */
  lemma IngestStatuses(t: Tables, job: Job)
    ensures var (t', outcome) := AfterIngest(t, job);
      && (!outcome.Ingested? ==> t'.presence == t.presence && t'.latest == t.latest)
      && (outcome.Ingested? ==>
        t'.presence == Loaded(t, job).presence && t'.latest == Loaded(t, job).latest && !IsReady(t.db, job.run))
      && (forall k :: k != job.run ==> StatusOf(t'.db, k) == StatusOf(t.db, k))
      && StatusOf(t'.db, job.run) == (
        if outcome.Ingested? || outcome.Skipped? then Some(Ready)
        else if outcome.Refused? || job.cleanupFails then StatusOf(t.db, job.run)
        else Some(Failed))
      && (IsReady(t'.db, job.run) <==> outcome.Ingested? || (IsReady(t.db, job.run) && !Demotes(t, Ingest(job))))
  {
    hide IngestRows.Kept, IngestedPresence, IngestedLatest, ChecksPass, CleanedUp, Opened;
    CleanupStatuses(t, job, t.db.nextToken, job.error);
    CleanupStatuses(t, job, t.db.nextToken, CHECKS_FAILED);
    OpenedStatuses(t, job);
  }

  lemma GiveBackIsReplayable(s: State, run: RunKey, owner: string, token: nat)
    requires Replayable(s)
    ensures Replayable(GiveBack(s, run, owner, token))
  {
    hide Replayable;
    var released := Apply(s, Release(run, token));
    StepIsReplayable(s, Release(run, token));
    StepIsReplayable(released, Note(LockEvent(run, owner, LockReleased, NoPayload)));
  }

  lemma OpenedIsReplayable(t: Tables, job: Job)
    requires Replayable(t.db)
    ensures Replayable(Opened(t, job))
  {
    hide Replayable;
    var e := LockEvent(job.run, job.owner, LockAcquired, LockExpiry(t.db.now + job.ttl));
    var locked := Apply(t.db, Acquire(job.run, job.owner, job.ttl));
    StepIsReplayable(t.db, Acquire(job.run, job.owner, job.ttl));
    StepIsReplayable(locked, Note(e));
    StepIsReplayable(Log(locked, e), Begin(job.run, job.manifest, job.owner));
  }

  lemma CleanedUpIsReplayable(t: Tables, job: Job, token: nat, error: string)
    requires Replayable(t.db)
    ensures Replayable(CleanedUp(t, job, token, error).db)
  {
    var db := t.db.(nextToken := token + 1);
    assert Replayable(db);
    hide Replayable, Replay;
    StepIsReplayable(db, MakeFailed(job.run, job.manifest, job.owner, error));
    GiveBackIsReplayable(MadeFailed(db, job.run, job.manifest, job.owner, error), job.run, job.owner, token);
  }

  /** The last step of a committed ingest. */
  lemma ClosedIsReplayable(s: State, job: Job, token: nat)
    requires Replayable(s)
    ensures Replayable(GiveBack(MadeReady(s, job.run, job.owner, job.manifest.raw, job.manifest.correlated,
      job.manifest.enriched),
                                job.run, job.owner, token))
  {
    hide Replayable;
    var m := job.manifest;
    StepIsReplayable(s, MakeReady(job.run, job.owner, m.raw, m.correlated, m.enriched));
    GiveBackIsReplayable(MadeReady(s, job.run, job.owner, m.raw, m.correlated, m.enriched), job.run, job.owner, token);
  }

  lemma RefusedIsReplayable(s: State)
    requires Replayable(s)
    ensures Replayable(s.(nextToken := s.nextToken + 1))
  {
    hide Replay;
  }

  /** The event log still replays to the statuses after a whole ingest, committed or rolled back. */
  lemma IngestKeepsLogReplayable(t: Tables, job: Job)
    requires Replayable(t.db)
    ensures Replayable(AfterIngest(t, job).0.db)
  {
    hide *;
    RefusedIsReplayable(t.db);
    CleanedUpIsReplayable(t, job, t.db.nextToken, job.error);
    CleanedUpIsReplayable(t, job, t.db.nextToken, CHECKS_FAILED);
    OpenedIsReplayable(t, job);
    GiveBackIsReplayable(Opened(t, job), job.run, job.owner, t.db.nextToken);
    ClosedIsReplayable(Opened(t, job), job, t.db.nextToken);
    AfterIngestIsOneOf(t, job);
  }

  /** The databases in which an ingest may end. */
  lemma AfterIngestIsOneOf(t: Tables, job: Job)
    ensures var token, m := t.db.nextToken, job.manifest;
      var db := AfterIngest(t, job).0.db;
      || db == t.db.(nextToken := token + 1)
      || db == CleanedUp(t, job, token, job.error).db
      || db == CleanedUp(t, job, token, CHECKS_FAILED).db
      || db == GiveBack(Opened(t, job), job.run, job.owner, token)
      || db == GiveBack(MadeReady(Opened(t, job), job.run, job.owner, m.raw, m.correlated, m.enriched), job.run,
        job.owner, token)
  {
    hide CleanedUp, Opened, GiveBack, MadeReady, IngestRows.Kept, ChecksPass, Loaded, StatusOf, Grantable;
  }

  lemma IngestedRowsAreOfTheRun(t: Tables, job: Job)
    requires WellKeyed(t.latest)
    ensures var t' := Loaded(t, job);
      && WellKeyed(t'.latest)
      && (forall k :: k in t'.presence ==> k.run == job.run || k in t.presence)
      && forall k :: k in t'.latest ==> t'.latest[k].run == job.run || (k in t.latest && t'.latest[k] == t.latest[k])
  {
    hide IngestRows.Kept, PresenceTable, LatestTable, Delivers;
    PresenceTableFacts(job.records, job.run, job.manifest.runTs);
    LatestTableFacts(job.records, job.run, job.manifest.runTs);
  }

  /** One step keeps "findings exist only for ready runs" exactly when it is not the demotion of
      a run that has findings. */
  lemma FindingsStayWithReadyRuns(t: Tables, step: Step)
    requires OnlyReadyRunsHaveFindings(t) && StepAllowed(t, step)
    ensures OnlyReadyRunsHaveFindings(Do(t, step)) <==> !(Demotes(t, step) && HasFindings(t, RunOf(step)))
  {
    hide Apply, AfterIngest, StatusOf, Loaded, Allowed;
    var t' := Do(t, step);
    match step
    case RunStep(op) =>
      forall k | IsReady(t.db, k)
        ensures IsReady(t'.db, k) <==> !(op.MakeFailed? && op.key == k)
      {
        ReadyIsKeptUnlessFailed(t.db, op, k);
      }
    case Ingest(job) =>
      IngestStatuses(t, job);
      IngestedRowsAreOfTheRun(t, job);
  }

  ghost predicate AllStepsAllowed(t: Tables, steps: seq<Step>)
    decreases |steps|
  {
    steps == [] || (StepAllowed(t, steps[0]) && AllStepsAllowed(Do(t, steps[0]), steps[1..]))
  }

  ghost function AfterSteps(t: Tables, steps: seq<Step>): Tables
    requires AllStepsAllowed(t, steps)
    decreases |steps|
  {
    if steps == [] then t else AfterSteps(Do(t, steps[0]), steps[1..])
  }

  /** A sequence goes on by exactly the steps that are allowed where it has come to. */
  lemma {:induction false} StepsGoOn(t: Tables, steps: seq<Step>, step: Step)
    ensures AllStepsAllowed(t, []) && AfterSteps(t, []) == t
    ensures AllStepsAllowed(t, steps + [step]) <==> AllStepsAllowed(t, steps) && StepAllowed(AfterSteps(t, steps), step)
    ensures AllStepsAllowed(t, steps + [step]) ==> AfterSteps(t, steps + [step]) == Do(AfterSteps(t, steps), step)
    decreases |steps|
  {
    hide Do, StepAllowed;
    if steps == [] {
      assert (steps + [step])[1..] == [];
    } else {
      assert (steps + [step])[1..] == steps[1..] + [step];
      if StepAllowed(t, steps[0]) {
        StepsGoOn(Do(t, steps[0]), steps[1..], step);
      }
    }
  }

  /** No step demotes a run that has findings. */
  ghost predicate NoFindingsDemoted(t: Tables, steps: seq<Step>)
    requires AllStepsAllowed(t, steps)
    decreases |steps|
  {
    steps == []
    || (!(Demotes(t, steps[0]) && HasFindings(t, RunOf(steps[0]))) && NoFindingsDemoted(Do(t, steps[0]), steps[1..]))
  }

  /** Findings belong to ready runs before, between and after the steps. */
  ghost predicate AlwaysOfReadyRuns(t: Tables, steps: seq<Step>)
    requires AllStepsAllowed(t, steps)
    decreases |steps|
  {
    OnlyReadyRunsHaveFindings(t) && (steps == [] || AlwaysOfReadyRuns(Do(t, steps[0]), steps[1..]))
  }

  /** Over any sequence of steps findings belong to ready runs all the time exactly when no step
      demotes a run that has findings. */
  lemma {:induction false} FindingsOverRuns(t: Tables, steps: seq<Step>)
    requires OnlyReadyRunsHaveFindings(t) && AllStepsAllowed(t, steps)
    ensures AlwaysOfReadyRuns(t, steps) <==> NoFindingsDemoted(t, steps)
    ensures AlwaysOfReadyRuns(t, steps) ==> OnlyReadyRunsHaveFindings(AfterSteps(t, steps))
    decreases |steps|
  {
    hide OnlyReadyRunsHaveFindings, Do, Demotes, HasFindings;
    if steps != [] {
      FindingsStayWithReadyRuns(t, steps[0]);
      if OnlyReadyRunsHaveFindings(Do(t, steps[0])) {
        FindingsOverRuns(Do(t, steps[0]), steps[1..]);
      } else {
        assert !AlwaysOfReadyRuns(Do(t, steps[0]), steps[1..]);
      }
    }
  }

  /** Over every sequence of whole ingests and single steps, demotions included, the event log
      replays to the statuses. */
  lemma {:induction false} LogReplaysOverRuns(t: Tables, steps: seq<Step>)
    requires Replayable(t.db) && AllStepsAllowed(t, steps)
    ensures Replayable(AfterSteps(t, steps).db)
    decreases |steps|
  {
    hide Replayable, AfterIngest;
    if steps != [] {
      match steps[0] {
        case RunStep(op) => StepIsReplayable(t.db, op);
        case Ingest(job) => IngestKeepsLogReplayable(t, job);
      }
      LogReplaysOverRuns(Do(t, steps[0]), steps[1..]);
    }
  }

  function NoTables(now: int, nextToken: nat): Tables {
    Tables(State(now, nextToken, map[], map[], []), map[], map[])
  }

  /** From empty tables, after any steps that demote no run with findings: an ingest that gets the lock
      and meets no exception either finds the run ready and skips it, or passes all six checks
      and leaves the run ready with exactly the delivered findings. */
  lemma IngestsNeverFailTheirChecks(now: int, nextToken: nat, steps: seq<Step>, job: Job)
    requires AllStepsAllowed(NoTables(now, nextToken), steps) && NoFindingsDemoted(NoTables(now, nextToken), steps)
    requires Grantable(AfterSteps(NoTables(now, nextToken), steps).db, job.run, job.owner) && job.fault == NoFault
    ensures var t := AfterSteps(NoTables(now, nextToken), steps);
      var (t', outcome) := AfterIngest(t, job);
      var n := |IngestRows.Kept(job.run, job.records, {})|;
      && outcome == (if IsReady(t.db, job.run) then Skipped else Ingested(n, n))
      && IsReady(t'.db, job.run) && OnlyReadyRunsHaveFindings(t')
      && (outcome.Ingested? ==>
            forall fp :: PresenceKey(job.run, fp) in t'.presence <==> Delivers(job.run, job.records, fp))
  {
    hide IngestRows.Kept, IngestedPresence, IngestedLatest, Delivers;
    FindingsOverRuns(NoTables(now, nextToken), steps);
    hide AfterSteps, AllStepsAllowed, NoFindingsDemoted, AlwaysOfReadyRuns;
    var t := AfterSteps(NoTables(now, nextToken), steps);
    if !IsReady(t.db, job.run) {
      LatestOfUnready(t, job.run);
      ChecksPassExactly(t, job);
      LoadedPresence(t.presence, job.records, job.run, job.manifest.runTs);
    }
    hide AfterIngest;
    IngestStatuses(t, job);
    FindingsStayWithReadyRuns(t, Ingest(job));
  }

  lemma LatestOfUnready(t: Tables, run: RunKey)
    requires OnlyReadyRunsHaveFindings(t) && !IsReady(t.db, run)
    ensures forall k :: !Carries(t.latest, k, run)
  {
    hide StatusOf;
    forall k | k in t.latest
      ensures !Carries(t.latest, k, run)
    {
      assert t.latest[k].run == RunKey(k.tenant, k.workspace, t.latest[k].run.runId);
    }
  }

  /** It happens: ingest any run with a finding, and let a second ingest of it raise in the branch that
      skips ready runs; the run is then failed and still has its findings. */
  lemma DemotionHappens(now: int, nextToken: nat, job: Job, fingerprint: string)
    requires job.fault == NoFault && !job.cleanupFails && Delivers(job.run, job.records, fingerprint)
    ensures var t := Do(Do(NoTables(now, nextToken), Ingest(job)), Ingest(job.(fault := AtSkip)));
      StatusOf(t.db, job.run) == Some(Failed) && HasFindings(t, job.run)
  {
    var t0, again := NoTables(now, nextToken), job.(fault := AtSkip);
    IngestsNeverFailTheirChecks(now, nextToken, [], job);
    var t := Do(t0, Ingest(job));
    assert PresenceKey(job.run, fingerprint) in t.presence;
    OwnLockIsGrantable(t0, job);
    hide AfterIngest, Delivers, OnlyReadyRunsHaveFindings;
    IngestStatuses(t0, job);
    IngestStatuses(t, again);
    SkipFaultAborts(t, again);
  }

  lemma OwnLockIsGrantable(t: Tables, job: Job)
    requires t.db.locks == map[] && AfterIngest(t, job).1.Ingested?
    ensures Grantable(AfterIngest(t, job).0.db, job.run, job.owner)
  {
    hide IngestRows.Kept, IngestedPresence, IngestedLatest, ChecksPass, CleanedUp, StatusOf;
  }

  lemma SkipFaultAborts(t: Tables, job: Job)
    requires IsReady(t.db, job.run) && Grantable(t.db, job.run, job.owner) && job.fault == AtSkip
    ensures AfterIngest(t, job).1.Aborted?
  {
    hide IngestRows.Kept, Loaded, CleanedUp;
  }

  // ---------- What an ingest does to the two finding tables, row by row ----------

  /** Record `i` is the first of its fingerprint `fp` among those taken for the run. */
  ghost predicate FirstWith(run: RunKey, recs: seq<Record>, i: nat, fp: string) {
    i < |recs| && FirstOfItsKind(run, recs, i) && FingerprintOf(run, recs[i]) == Some(fp)
  }

  /** The row has the columns of the finding; its time is the finding's own or else the run's. */
  predicate PresenceColumns(row: PresenceRow, run: RunKey, fp: string, f: Finding, runTs: int) {
    && row.run == run && row.fingerprint == fp
    && row.checkId == f.checkId && row.service == f.service && row.severity == f.severity && row.title == f.title
    && row.savings == f.savings && row.region == f.region && row.account == f.account
    && (f.runTs.Some? ==> row.detectedAt == f.runTs.value)
    && (f.runTs.None? ==> row.detectedAt == runTs)
  }

  predicate LatestColumns(row: LatestRow, run: RunKey, fp: string, f: Finding, runTs: int) {
    && row.run == run && row.fingerprint == fp
    && row.checkId == f.checkId && row.service == f.service && row.severity == f.severity && row.title == f.title
    && row.savings == f.savings && row.region == f.region && row.account == f.account
    && row.category == f.category && row.groupKey == f.groupKey && row.payload == f.payload
    && (f.runTs.Some? ==> row.detectedAt == f.runTs.value)
    && (f.runTs.None? ==> row.detectedAt == runTs)
  }

  /** These columns are all there are. */
  lemma ColumnsAreAll(p: PresenceRow, q: PresenceRow, l: LatestRow, m: LatestRow, run: RunKey, fp: string, f: Finding,
                      runTs: int)
    ensures PresenceColumns(p, run, fp, f, runTs) && PresenceColumns(q, run, fp, f, runTs) ==> p == q
    ensures LatestColumns(l, run, fp, f, runTs) && LatestColumns(m, run, fp, f, runTs) ==> l == m
  {
  }

  lemma FirstIsDelivered(run: RunKey, recs: seq<Record>, i: nat, fp: string) returns (k: nat)
    requires FirstWith(run, recs, i, fp)
    ensures var xs := IngestRows.Kept(run, recs, {});
      k < |xs| && xs[k] == Item(fp, recs[i].finding)
  {
    var xs := IngestRows.Kept(run, recs, {});
    var x := Item(fp, recs[i].finding);
    KeptExactly(run, recs, x);
    hide FingerprintOf, IngestRows.Kept;
    assert x in xs;
    k :| 0 <= k < |xs| && xs[k] == x;
  }

  /** The row of each delivered finding carries the columns of the first record of its fingerprint,
      in both tables. */
  lemma DeliveredRowHasItsColumns(presence: Presence, latest: Latest, recs: seq<Record>, run: RunKey, runTs: int,
                                  i: nat, fp: string)
    requires FirstWith(run, recs, i, fp)
    ensures var p := IngestedPresence(presence, recs, run, runTs);
      var key := PresenceKey(run, fp);
      key in p && PresenceColumns(p[key], run, fp, recs[i].finding, runTs)
    ensures var l := IngestedLatest(latest, recs, run, runTs);
      var key := LatestKey(run.tenant, run.workspace, fp);
      key in l && LatestColumns(l[key], run, fp, recs[i].finding, runTs)
  {
    var k := FirstIsDelivered(run, recs, i, fp);
    hide IngestRows.Kept, TableOf, FingerprintOf, DistinctKeys;
    var xs := IngestRows.Kept(run, recs, {});
    KeptFrom(run, recs, {});
    KeptRowsHaveDistinctKeys(run, runTs, xs);
    TableFacts(PresenceRows(run, runTs, xs), PresenceKeyOf);
    TableFacts(LatestRows(run, runTs, xs), LatestKeyOf);
    assert PresenceKeyOf(PresenceRows(run, runTs, xs)[k]) == PresenceKey(run, fp);
    assert LatestKeyOf(LatestRows(run, runTs, xs)[k]) == LatestKey(run.tenant, run.workspace, fp);
  }

  /** A fingerprint is delivered exactly when some record of the run carries it. */
  lemma DeliversExactly(run: RunKey, recs: seq<Record>, fp: string)
    ensures Delivers(run, recs, fp) <==> exists i: nat :: FirstWith(run, recs, i, fp)
    ensures Delivers(run, recs, fp) <==> exists rec :: rec in recs && FingerprintOf(run, rec) == Some(fp)
  {
    var xs := IngestRows.Kept(run, recs, {});
    hide IngestRows.Kept, FingerprintOf;
    if x :| x in xs && x.fingerprint == fp {
      KeptExactly(run, recs, x);
      var i :| 0 <= i < |recs| && FirstOfItsKind(run, recs, i)
        && x == Item(FingerprintOf(run, recs[i]).value, recs[i].finding);
      assert FirstWith(run, recs, i, fp);
    }
    if i: nat :| FirstWith(run, recs, i, fp) {
      assert recs[i] in recs;
    }
    if rec :| rec in recs && FingerprintOf(run, rec) == Some(fp) {
      var j :| 0 <= j < |recs| && recs[j] == rec;
      var i := FirstCarrier(run, recs, j, fp);
      var k := FirstIsDelivered(run, recs, i, fp);
      assert xs[k] in xs;
    }
  }

  lemma {:induction false} FirstCarrier(run: RunKey, recs: seq<Record>, j: nat, fp: string) returns (i: nat)
    requires j < |recs| && FingerprintOf(run, recs[j]) == Some(fp)
    ensures FirstWith(run, recs, i, fp)
  {
    hide FingerprintOf;
    i := j;
    if k :| 0 <= k < j && FingerprintOf(run, recs[k]) == Some(fp) {
      i := FirstCarrier(run, recs, k, fp);
    }
  }

  /** Whatever its outcome, an ingest leaves the presence rows of every other run and the latest row of
      every finding it does not deliver. */
  lemma IngestLeavesOtherFindings(t: Tables, job: Job)
    ensures var t' := AfterIngest(t, job).0;
      && (forall k: PresenceKey :: k.run != job.run ==>
        (k in t'.presence <==> k in t.presence) && (k in t.presence ==> t'.presence[k] == t.presence[k]))
      && forall k: LatestKey ::
        !(k.tenant == job.run.tenant && k.workspace == job.run.workspace
          && exists rec :: rec in job.records && FingerprintOf(job.run, rec) == Some(k.fingerprint)) ==>
          (k in t'.latest <==> k in t.latest) && (k in t.latest ==> t'.latest[k] == t.latest[k])
  {
    IngestStatuses(t, job);
    hide AfterIngest, IngestRows.Kept, PresenceTable, LatestTable, Delivers, FingerprintOf;
    PresenceTableFacts(job.records, job.run, job.manifest.runTs);
    LatestTableFacts(job.records, job.run, job.manifest.runTs);
    forall k: LatestKey
      ensures Delivers(job.run, job.records, k.fingerprint) <==>
        exists rec :: rec in job.records && FingerprintOf(job.run, rec) == Some(k.fingerprint)
    {
      DeliversExactly(job.run, job.records, k.fingerprint);
    }
  }

  /** A committed ingest leaves the run exactly the presence rows of the findings delivered, each with the
      columns of its first record, and the same columns in the latest table; its two counts are the
      number of these rows. */
  lemma CommittedRows(t: Tables, job: Job, fp: string)
    requires AfterIngest(t, job).1.Ingested?
    ensures var (t', outcome) := AfterIngest(t, job);
      && (PresenceKey(job.run, fp) in t'.presence <==> exists i: nat :: FirstWith(job.run, job.records, i, fp))
      && (forall i: nat :: FirstWith(job.run, job.records, i, fp) ==>
        var p, l := PresenceKey(job.run, fp), LatestKey(job.run.tenant, job.run.workspace, fp);
        && p in t'.presence && l in t'.latest
        && PresenceColumns(t'.presence[p], job.run, fp, job.records[i].finding, job.manifest.runTs)
        && LatestColumns(t'.latest[l], job.run, fp, job.records[i].finding, job.manifest.runTs))
      && outcome.presenceRows == outcome.latestRows == |set k | k in t'.presence && k.run == job.run|
  {
    IngestStatuses(t, job);
    IngestedCounts(t, job);
    hide AfterIngest, IngestRows.Kept, IngestedPresence, IngestedLatest, FirstWith, Delivers, PresenceColumns,
      LatestColumns;
    LoadedPresence(t.presence, job.records, job.run, job.manifest.runTs);
    DeliversExactly(job.run, job.records, fp);
    assert PresenceOfRun(AfterIngest(t, job).0.presence, job.run)
      == set k | k in AfterIngest(t, job).0.presence && k.run == job.run;
    assert PresenceKey(job.run, fp) in AfterIngest(t, job).0.presence <==>
      PresenceKey(job.run, fp) in PresenceOfRun(AfterIngest(t, job).0.presence, job.run);
    forall i: nat | FirstWith(job.run, job.records, i, fp)
      ensures var t', p, l :=
        AfterIngest(t, job).0, PresenceKey(job.run, fp), LatestKey(job.run.tenant, job.run.workspace, fp);
        && p in t'.presence && l in t'.latest
        && PresenceColumns(t'.presence[p], job.run, fp, job.records[i].finding, job.manifest.runTs)
        && LatestColumns(t'.latest[l], job.run, fp, job.records[i].finding, job.manifest.runTs)
    {
      DeliveredRowHasItsColumns(t.presence, t.latest, job.records, job.run, job.manifest.runTs, i, fp);
    }
  }

  lemma IngestedCounts(t: Tables, job: Job)
    requires AfterIngest(t, job).1.Ingested?
    ensures AfterIngest(t, job).1.presenceRows == |IngestRows.Kept(job.run, job.records, {})|
    ensures AfterIngest(t, job).1.latestRows == |IngestRows.Kept(job.run, job.records, {})|
  {
    hide IngestRows.Kept, CleanedUp, Loaded, Opened, ChecksPass, StatusOf;
  }

  // ---------- The outcome, and what it leaves in the run tables ----------

  /** Another owner's lock on the run has not run out. */
  predicate LockedOut(t: Tables, job: Job) {
    job.run in t.db.locks && t.db.locks[job.run].owner != job.owner && t.db.now < t.db.locks[job.run].expiresAt
  }

  predicate ReadyBefore(t: Tables, job: Job) {
    job.run in t.db.runs && t.db.runs[job.run].status == Ready
  }

  /** A row of `finding_latest` that carries the run is not delivered again. */
  ghost predicate LeavesRowBehind(t: Tables, job: Job) {
    exists k ::
      && k in t.latest && k.tenant == job.run.tenant && k.workspace == job.run.workspace
      && t.latest[k].run.runId == job.run.runId
      && forall rec :: rec in job.records ==> FingerprintOf(job.run, rec) != Some(k.fingerprint)
  }

  /** Which outcome a call has, from its tables and from where an exception strikes. */
  lemma OutcomeExactly(t: Tables, job: Job)
    requires WellKeyed(t.latest)
    ensures var outcome := AfterIngest(t, job).1;
      && (outcome.Refused? <==> job.fault != AtAcquire && LockedOut(t, job))
      && (outcome.Skipped? <==>
        !LockedOut(t, job) && ReadyBefore(t, job) && job.fault !in {AtAcquire, AtBegin, AtSkip})
      && (outcome.Ingested? <==>
        && !LockedOut(t, job) && !ReadyBefore(t, job) && job.fault in {NoFault, AtSkip}
        && !LeavesRowBehind(t, job))
      && (outcome.Aborted? ==> outcome.error == job.error || outcome.error == CHECKS_FAILED)
      && (outcome.Aborted? && outcome.error != job.error ==> LeavesRowBehind(t, job))
  {
    OutcomeByChecks(t, job);
    hide AfterIngest, ChecksPass, Delivers, LeavesRowBehind, Carries, IngestRows.Kept, Loaded;
    ChecksPassExactly(t, job);
    RowsLeftBehind(t, job);
  }

  lemma OutcomeByChecks(t: Tables, job: Job)
    ensures var n := |IngestRows.Kept(job.run, job.records, {})|;
      var (outcome, free, ready) :=
        (AfterIngest(t, job).1, Grantable(t.db, job.run, job.owner), StatusOf(t.db, job.run) == Some(Ready));
      && (outcome.Refused? <==> job.fault != AtAcquire && !free)
      && (outcome.Skipped? <==> free && ready && job.fault !in {AtAcquire, AtBegin, AtSkip})
      && (outcome.Ingested? <==>
        free && !ready && job.fault in {NoFault, AtSkip} && ChecksPass(Loaded(t, job), job.run, n, n))
      && (outcome.Aborted? ==> outcome.error == job.error || outcome.error == CHECKS_FAILED)
      && (outcome.Aborted? && outcome.error != job.error ==> !ChecksPass(Loaded(t, job), job.run, n, n))
  {
    hide IngestRows.Kept, ChecksPass, Loaded, CleanedUp, Opened, Grantable, StatusOf, GiveBack, MadeReady;
  }

  lemma RowsLeftBehind(t: Tables, job: Job)
    ensures LeavesRowBehind(t, job) <==>
      !forall k :: Carries(t.latest, k, job.run) ==> Delivers(job.run, job.records, k.fingerprint)
  {
    hide Delivers, FingerprintOf;
    forall k: LatestKey
      ensures Delivers(job.run, job.records, k.fingerprint) <==>
        exists rec :: rec in job.records && FingerprintOf(job.run, rec) == Some(k.fingerprint)
    {
      DeliversExactly(job.run, job.records, k.fingerprint);
    }
  }

  /** The row of the run after a call; the rows of all other runs stay as they are. */
  lemma IngestRunRow(t: Tables, job: Job)
    ensures var (t', outcome) := AfterIngest(t, job);
      && (forall k :: k != job.run ==>
        (k in t'.db.runs <==> k in t.db.runs) && (k in t.db.runs ==> t'.db.runs[k] == t.db.runs[k]))
      && (outcome.Ingested? ==>
        job.run in t'.db.runs && IngestedColumns(t'.db.runs[job.run], job.manifest, t.db.now))
      && (outcome.Skipped? || outcome.Refused? || (outcome.Aborted? && job.cleanupFails) ==> t'.db.runs == t.db.runs)
      && (outcome.Aborted? && !job.cleanupFails ==>
        && job.run in t'.db.runs && t'.db.runs[job.run].status == Failed
        && FailedColumns(t'.db.runs[job.run], job.manifest,
                         if job.run in t.db.runs then Some(t.db.runs[job.run]) else None))
  {
    hide IngestRows.Kept, IngestedPresence, IngestedLatest, ChecksPass, Grantable, StatusOf, FailedColumns, HoldsToken,
      CleanedUp, Opened, GiveBack, MadeReady;
    var token := t.db.nextToken;
    CleanedUpRow(t, job, token, job.error);
    CleanedUpRow(t, job, token, CHECKS_FAILED);
    ClosedRow(t, job, token);
  }

  lemma IngestedColumnsAreAll(run: Run, other: Run, m: Manifest, now: int)
    ensures IngestedColumns(run, m, now) && IngestedColumns(other, m, now) ==> run == other
  {
  }

  predicate IngestedColumns(run: Run, m: Manifest, now: int) {
    && run.status == Ready && run.ingestedAt == Some(now)
    && run.runTs == m.runTs && run.artifactPrefix == m.artifactPrefix && run.engineVersion == m.engineVersion
    && run.pricingVersion == m.pricingVersion && run.pricingSource == m.pricingSource
    && run.raw == m.raw && run.correlated == m.correlated && run.enriched == m.enriched
  }

  lemma CleanedUpRow(t: Tables, job: Job, token: nat, error: string)
    ensures var db := CleanedUp(t, job, token, error).db;
      && (forall k :: k != job.run ==>
        (k in db.runs <==> k in t.db.runs) && (k in t.db.runs ==> db.runs[k] == t.db.runs[k]))
      && (job.cleanupFails ==> db.runs == t.db.runs)
      && (!job.cleanupFails ==>
        && job.run in db.runs && db.runs[job.run].status == Failed
        && FailedColumns(db.runs[job.run], job.manifest,
                         if job.run in t.db.runs then Some(t.db.runs[job.run]) else None))
  {
    hide FailedColumns, HoldsToken;
    var db := t.db.(nextToken := token + 1);
    FailedExactly(db, job.run, job.manifest, job.owner, error);
  }

  lemma ClosedRow(t: Tables, job: Job, token: nat)
    ensures ReadyBefore(t, job) <==> StatusOf(t.db, job.run) == Some(Ready)
    ensures var m, begun := job.manifest, Opened(t, job);
      var skipped := GiveBack(begun, job.run, job.owner, token);
      var closed := GiveBack(MadeReady(begun, job.run, job.owner, m.raw, m.correlated, m.enriched),
                             job.run, job.owner, token);
      && (ReadyBefore(t, job) ==> skipped.runs == t.db.runs)
      && (!ReadyBefore(t, job) ==>
        && job.run in closed.runs && IngestedColumns(closed.runs[job.run], m, t.db.now)
        && forall k :: k != job.run ==>
          (k in closed.runs <==> k in t.db.runs) && (k in t.db.runs ==> closed.runs[k] == t.db.runs[k]))
  {
    hide HoldsToken, Grantable;
  }

  /** The events a call leaves, in order. */
  lemma IngestEvents(t: Tables, job: Job)
    requires TokensAreOlder(t.db)
    ensures var (t', outcome) := AfterIngest(t, job);
      t'.db.events == t.db.events + match outcome
        case Refused => []
        case Aborted(error) => if job.cleanupFails then [] else [FailureEvent(t, job, error)]
        case Skipped => [LockEventOf(t, job, LockAcquired), LockEventOf(t, job, LockReleased)]
        case Ingested(_, _) =>
          [LockEventOf(t, job, LockAcquired), ChangeEvent(job, StatusOf(t.db, job.run), Running),
           ChangeEvent(job, Some(Running), Ready), LockEventOf(t, job, LockReleased)]
  {
    hide IngestRows.Kept, IngestedPresence, IngestedLatest, ChecksPass, Opened, CleanedUp, GiveBack, MadeReady;
    var token := t.db.nextToken;
    CleanedUpEvents(t, job, token, job.error);
    CleanedUpEvents(t, job, token, CHECKS_FAILED);
    if Grantable(t.db, job.run, job.owner) {
      ClosedEvents(t, job, token);
    }
  }

  function LockEventOf(t: Tables, job: Job, what: EventType): Event {
    Event(job.run, what, job.owner, None, None,
      if what == LockAcquired then LockExpiry(t.db.now + job.ttl) else NoPayload)
  }

  function ChangeEvent(job: Job, from: Option<Status>, to: Status): Event {
    Event(job.run, StateChanged, job.owner, from, Some(to), NoPayload)
  }

  function FailureEvent(t: Tables, job: Job, error: string): Event {
    Event(job.run, StateChanged, job.owner, StatusOf(t.db, job.run), Some(Failed),
      Reason(if |error| <= 2000 then error else error[..2000]))
  }

  lemma CleanedUpEvents(t: Tables, job: Job, token: nat, error: string)
    requires forall k :: k in t.db.locks ==> t.db.locks[k].token < token
    ensures CleanedUp(t, job, token, error).db.events ==
      t.db.events + if job.cleanupFails then [] else [FailureEvent(t, job, error)]
  {
  }

  lemma ClosedEvents(t: Tables, job: Job, token: nat)
    requires Grantable(t.db, job.run, job.owner) && token == t.db.nextToken
    ensures var m, begun := job.manifest, Opened(t, job);
      var acquired, released := LockEventOf(t, job, LockAcquired), LockEventOf(t, job, LockReleased);
      && (StatusOf(t.db, job.run) == Some(Ready) ==>
        GiveBack(begun, job.run, job.owner, token).events == t.db.events + [acquired, released])
      && (StatusOf(t.db, job.run) != Some(Ready) ==>
        GiveBack(MadeReady(begun, job.run, job.owner, m.raw, m.correlated, m.enriched), job.run, job.owner,
                 token).events ==
        t.db.events + [acquired, ChangeEvent(job, StatusOf(t.db, job.run), Running),
                       ChangeEvent(job, Some(Running), Ready), released])
  {
  }

  // ---------- The lock of an ingest is never seen ----------

  /** Tokens in the table were drawn before; every reachable database has this. */
  predicate TokensAreOlder(s: State) {
    forall k :: k in s.locks ==> s.locks[k].token < s.nextToken
  }

  lemma GiveBackLocks(s: State, run: RunKey, owner: string, token: nat)
    ensures GiveBack(s, run, owner, token).locks == (if HoldsToken(s, run, token) then s.locks - {run} else s.locks)
    ensures GiveBack(s, run, owner, token).nextToken == s.nextToken
  {
  }

  lemma OpenedLocks(t: Tables, job: Job)
    requires Grantable(t.db, job.run, job.owner)
    ensures Opened(t, job).locks == t.db.locks[job.run := Lock(job.owner, t.db.nextToken, t.db.now + job.ttl)]
    ensures Opened(t, job).nextToken == t.db.nextToken + 1
  {
  }

  /** After an exception the lock table is as it was: the rollback has taken the lock away, and the
      release in the second transaction never finds its token. */
  lemma CleanedUpLocks(t: Tables, job: Job, token: nat, error: string)
    requires forall k :: k in t.db.locks ==> t.db.locks[k].token < token
    ensures CleanedUp(t, job, token, error).db.locks == t.db.locks
    ensures CleanedUp(t, job, token, error).db.nextToken == token + 1
  {
  }

  /** What a whole ingest does to the lock table: a run ingested or skipped has no lock afterwards, and
      every other row is as it was. So no ingest leaves a lock of its own behind. */
  lemma IngestLocks(t: Tables, job: Job)
    requires TokensAreOlder(t.db)
    ensures var (t', outcome) := AfterIngest(t, job);
      && t'.db.locks == (if outcome.Ingested? || outcome.Skipped? then t.db.locks - {job.run} else t.db.locks)
      && t'.db.nextToken == t.db.nextToken + 1
      && TokensAreOlder(t'.db)
  {
    hide IngestRows.Kept, IngestedPresence, IngestedLatest, ChecksPass, CleanedUp, Opened, GiveBack, StatusOf;
    var token, m, begun := t.db.nextToken, job.manifest, Opened(t, job);
    CleanedUpLocks(t, job, token, job.error);
    CleanedUpLocks(t, job, token, CHECKS_FAILED);
    if Grantable(t.db, job.run, job.owner) {
      var ready := MadeReady(begun, job.run, job.owner, m.raw, m.correlated, m.enriched);
      OpenedLocks(t, job);
      GiveBackLocks(begun, job.run, job.owner, token);
      GiveBackLocks(ready, job.run, job.owner, token);
      assert t.db.locks[job.run := Lock(job.owner, token, t.db.now + job.ttl)] - {job.run} == t.db.locks - {job.run};
    }
  }

  /** Only ingests and steps other than direct calls of `acquire_run_lock`. */
  predicate NoDirectAcquire(steps: seq<Step>) {
    forall step :: step in steps ==> step.RunStep? ==> !step.op.Acquire?
  }

  /** As long as locks are taken by ingests only, none is ever in the table between two steps; so an
      ingest is never refused, and recovery finds no lock to reap. The lock is taken and given back
      inside one transaction and no other session sees it. */
  lemma {:induction false} IngestLocksAreNeverSeen(t: Tables, steps: seq<Step>, job: Job)
    requires t.db.locks == map[] && AllStepsAllowed(t, steps) && NoDirectAcquire(steps)
    ensures AfterSteps(t, steps).db.locks == map[]
    ensures !AfterIngest(AfterSteps(t, steps), job).1.Refused?
    decreases |steps|
  {
    hide AfterIngest;
    if steps == [] {
      NoLockRefusesNothing(t, job);
    } else {
      assert steps[0] in steps && forall s :: s in steps[1..] ==> s in steps;
      match steps[0] {
        case RunStep(op) => StepAddsNoLock(t.db, op);
        case Ingest(first) => IngestLocks(t, first);
      }
      IngestLocksAreNeverSeen(Do(t, steps[0]), steps[1..], job);
    }
  }

  lemma StepAddsNoLock(s: State, op: Op)
    requires Allowed(s, op) && s.locks == map[] && !op.Acquire?
    ensures Apply(s, op).locks == map[]
  {
    hide ExpiryEvents, FailureEvents;
  }

  lemma NoLockRefusesNothing(t: Tables, job: Job)
    requires t.db.locks == map[]
    ensures !AfterIngest(t, job).1.Refused?
  {
    hide IngestRows.Kept, CleanedUp, Loaded, Opened;
  }
}
