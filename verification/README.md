# Verified models of the FinOps engine's stateful core

This project models the parts of the FinOps engine whose guarantees hold over whole runs rather than
over one call, and proves those guarantees for all inputs and all interleavings.

- **Run orchestration** (`RunState`, `RunStateLaws`, `RunStateEffects`). The tables `runs`, `run_locks` and `run_events`
  with a clock and a supply of fresh tokens; every function of the source is one atomic step, and steps
  of any sessions interleave freely.
- **COPY ingest** (`IngestRows`, `CopyIngest`, `CopyIngestLaws`). Filtering, first-occurrence dedup, row
  buffers flushed in blocks, the two table paths, and the transaction around them: commit, skip,
  refusal of the lock, or rollback and a second transaction that marks the run failed.
- **Resource graph** (`ResourceGraph`). Run-scoped and "current" tables.
- **Migration SQL splitter** (`SqlSplitter`, `SqlSplitterLaws`). The five-mode lexer as a loop, against a
  recursive lexer.
- **Reserved Instance allocation** (`ReservedInstances`, `ReservedReport`), **cost statistics**
  (`CostExplorer`), **rate limiter** (`RateLimit`), **partitioned Parquet writer** (`ParquetWriter`,
  `ParquetLayout`), **storage cast** (`StorageCast`, `StorageCastLaws`, `ScalarCasts`), **remediation
  worker** (`Remediation`), **sessions and effective permissions** (`Rbac`, `RbacLaws`).

Code that updates state in place is a class or a method with loops; each method is proved against a
function of the old state, and the laws are proved about that function and over sequences of such
steps. Laws that say what one call does (`...Exactly`, `RunStateEffects`, `ParquetLayout`, `ScalarCasts`)
speak of rows, columns and characters and not of the functions that compute them. Pure code is functions. `Prelude` holds small datatypes and `PyText` Python's
`str.strip` and the order of texts.

## Conventions

- `now()` and `time.monotonic()` are a clock, a field or an argument of each step. `uuid4` tokens are
  numbers drawn in order, so two draws never agree. Hashes are compared as they are.
- Money, rates and statistics are exact reals. The z-score comparison is squared
  (`CostExplorer.SquaredComparison` shows that this is the source's comparison).
- A statement with `FOR UPDATE SKIP LOCKED` is one atomic step that skips an arbitrary set of rows held
  elsewhere (`busy`).
- Texts are ordered by code points (`PyText.TextLeq`), as by Python's `sorted` and by a database with the
  C collation.
- Schemas name each field of a struct once, as contracts/schema.py does (`StorageCast.WellFormed`).
  `StorageCastLaws.RecastExactly` says of every type, repeated names included, when a second cast changes
  nothing, and `DuplicateNamesBreakIdempotence` is a type and a value for which it fails.
- `Raised` results stand for exceptions. In `CopyIngest` an exception may strike in any phase of the
  transaction (`Fault`), and the clean-up transaction may fail too.
- `words` in the splitter is the set of characters for which `str.isalnum` holds; all that is asked of it
  is that it has no white space, no semicolon and no dollar sign.

## Where the code differs from what one would expect of it

Each of these is proved: by an equivalence that says when it happens and an input for which it does, or,
where it does not depend on the input, for all inputs.

1. **Renewing a lock breaks exclusivity of leases.** The owner of a live lock may acquire it again and gets
   a new token; releasing that token frees the run although the first lease has not run out, so a
   second owner can hold an unexpired, unreleased lease beside it (`RefreshBreaksOneOwner`;
   `TwoOwnersReachable`, from empty tables). A state is safe, that is, nothing but a renewal can bring
   two owners about, exactly when every outstanding lease is the row of its run (`SafeAheadExactly`),
   and a step leaves the safe states exactly when it is a renewal of a live lock
   (`SafetyEndsWithRenewal`). Counting for each owner only his latest lease, two owners never meet
   (`LockSafety`).
2. **A ready run can be marked failed.** `transition_run_to_failed` has no guard on the previous status. In
   the COPY ingest an exception while acquiring the lock or beginning the run, as well as one in the
   branch that skips a ready run, does it. Among the steps modelled this is the only way in which
   findings of a run that is not ready come to exist (`FindingsStayWithReadyRuns` for a step,
   `FindingsOverRuns` for sequences, both equivalences; `DemotionHappens`). The statement-by-statement
   path that is taken when COPY is switched off (apps/worker/ingest_parquet.py:1413-1665) writes
   findings while the run is running and leaves them there when it fails; it is outside these
   statements.
3. **A flat cost window can be reported as decreasing**, when a threshold lets a slope of zero through
   (`RisingWindowIsDecreasingOnlyIfFlat`, an equivalence). With the default settings this befalls the
   same credit in three months or more, and no window of charges that never falls
   (`DefaultsReportFlatCredits`, an equivalence; `FlatCreditIsDecreasing`). Months without cost are
   never stored.
4. **The moving-average window includes the current month**, although the comment above it says that it does
   not. With the default window of 3 and threshold of 2.0 the method can report nothing on any history
   (`DefaultsDetectNothing`); which settings let a z-score report anything, already on histories of
   charges only, is `ZscoreReportsExactly`.
5. **The writer's counters need not add up.** They do exactly when the money fields of every record are
   numbers, no cast overflows and no flush meets a failing file write (`CountersAgreeOnRecords`): the
   exception for a non-numeric money field is not among those that `append` counts as dropped, and the
   rows taken from the buffer are lost when a write fails (`MoneyErrorGoesUncounted`).
6. **Statements joined with a bare `;` do not split back** exactly when one before the last ends in a line
   comment (`BareSemicolonRoundTrip`; `CommentBreaksBareJoin`). With each semicolon on its own line they
   always do (`SplitRoundTrip`).
7. **A later login ends an earlier session** when both are stored in the same workspace and the first 24
   characters of their token hashes agree, since the session is an upsert by that prefix (`TokenLife`
   with `Ends`; `SharedPrefixEnds`). Such hashes exist as texts; 96 bits of two random tokens are not
   expected to agree.
8. **A run that is persisted again without a resource takes the resource away** from the current graph
   exactly when the row there is its own, even though an older run still has the resource
   (`KeyLostExactly` for every table, `LostExactlyWithNewest` for every history;
   `ShrunkRunForgetsOlderRow`). With fixed contents per run the current tables converge
   (`OrderDoesNotMatter`).
9. **A login can raise.** The copy of the template's roles and permissions into a workspace skips rows whose
   key is there, but a row that is missing and whose name another row of the workspace has violates the
   unique name. The copy would break the uniqueness of names exactly then (`CopyKeepsNamesExactly`;
   `ClashHappens`); once a workspace has been bootstrapped it can always be again
   (`BootstrapIsIdempotent`).
10. **The lock of a COPY ingest is never in the table between two transactions**: it is taken and given back
    within one, and the release in the clean-up after an exception never finds its token
    (`IngestLocks`). As long as nothing else takes locks, ingests are never refused and recovery finds no
    lock (`IngestLocksAreNeverSeen`).

## Model

| member | source | states |
|---|---|---|
| `SqlSplitter.SplitSql` | apps/backend/db_migrate.py:44-145 | the loop with its five modes, buffer and lookahead terminates and returns what the recursive lexer returns |
| `SqlSplitter.ScanTag` | apps/backend/db_migrate.py:117-123 | the scan for a dollar tag finds its closing dollar sign exactly when there is a tag |
| `SqlSplitter.StepOf` | apps/backend/db_migrate.py:57-140 | a step cuts exactly at a semicolon read in default mode, and any other step consumes at least one and no more than the remaining characters |
| `SqlSplitterLaws.PiecesSpellTheInput` | apps/backend/db_migrate.py:131-145 | the untrimmed pieces with the semicolons put back spell the input exactly |
| `SqlSplitterLaws.CutsExactly` | apps/backend/db_migrate.py:131-137 | the input is cut at position i exactly when there is a semicolon there and the text before it ends in default mode |
| `SqlSplitterLaws.SplitIsCompositional` | apps/backend/db_migrate.py:55-145 | split(a ; b) is split(a) followed by split(b) whenever a ends in default mode |
| `SqlSplitterLaws.StepFollowed` | apps/backend/db_migrate.py:89-129 | no step, however long its lookahead, is changed by text that begins with white space or a semicolon |
| `SqlSplitterLaws.LineCommentIsUnit` | apps/backend/db_migrate.py:60-65 | a line comment goes whole into the statement, semicolons included |
| `SqlSplitterLaws.BlockCommentIsUnit` | apps/backend/db_migrate.py:67-76 | a block comment goes whole into the statement |
| `SqlSplitterLaws.QuoteIsUnit` | apps/backend/db_migrate.py:78-87 | a quoted text with doubled quotes goes whole into the statement |
| `SqlSplitterLaws.DollarBlockIsUnit` | apps/backend/db_migrate.py:89-129 | a block between two equal tags of alphanumeric characters and underscores goes whole into the statement, up to the first repetition of its tag |
| `SqlSplitterLaws.BlockAloneIsOneStatement` | apps/backend/db_migrate.py:89-145 | a block alone, whatever semicolons it holds, is returned as one statement |
| `SqlSplitterLaws.PlainCharacterIsKept` | apps/backend/db_migrate.py:100-140 | outside every construct a character that begins no comment, quote or dollar tag is kept and the lexer stays outside |
| `SqlSplitterLaws.BrokenTagOpensNothing` | apps/backend/db_migrate.py:117-129 | a dollar sign followed by any other character before the next one opens no block |
| `SqlSplitterLaws.SemicolonAfterBrokenTagCuts` | apps/backend/db_migrate.py:117-137 | so a semicolon that cuts such a name short ends the statement |
| `SqlSplitterLaws.PiecesAreWhole` | apps/backend/db_migrate.py:55-145 | each piece read again on its own is one piece, and all but the last end in default mode |
| `SqlSplitterLaws.TrimmedPieceIsWhole` | apps/backend/db_migrate.py:132-144 | trimming a piece keeps it one piece and can leave it inside nothing but a line comment |
| `SqlSplitterLaws.EachStatementSplitsToItself` | apps/backend/db_migrate.py:44-145 | every returned statement splits to exactly itself, even one left inside a quote, comment or dollar block |
| `SqlSplitterLaws.SplitRoundTrip` | apps/backend/db_migrate.py:44-145 | the returned list joined with each semicolon on its own line splits to the same list |
| `SqlSplitterLaws.SemicolonSwallowed` | apps/backend/db_migrate.py:60-98 | a semicolon after a statement that ends inside a construct is kept in the statement |
| `SqlSplitterLaws.BareSemicolonRoundTrip` | apps/backend/db_migrate.py:44-145 | a join with bare semicolons splits back exactly when no statement but the last ends outside default mode |
| `SqlSplitterLaws.CommentBreaksBareJoin` | apps/backend/db_migrate.py:44-145 | a file whose two statements, joined with a bare semicolon, do not split back |
| `RunState.Database.AppendRunEvent` | apps/backend/run_state.py:54-84 | one event is appended and nothing else changes |
| `RunState.Database.AcquireRunLock` | apps/backend/run_state.py:87-131 | a fresh token is granted exactly when there is no lock, it has expired or the caller owns it, and otherwise the table is unchanged |
| `RunState.Database.ReleaseRunLock` | apps/backend/run_state.py:134-154 | the lock is deleted exactly when the token matches, and the answer says so |
| `RunState.Database.BeginRunRunning` | apps/backend/run_state.py:157-259 | a ready run is kept, any other becomes running with the columns of the call and one linked event |
| `RunState.Database.TransitionRunToReady` | apps/backend/run_state.py:262-315 | only a running run becomes ready; otherwise it raises and changes nothing |
| `RunState.Database.TransitionRunToFailed` | apps/backend/run_state.py:318-391 | the run is inserted or updated as failed from any status, with the reason cut to 2000 characters |
| `RunState.Database.RecoverStaleRunsForScope` | apps/backend/run_state.py:394-510 | one sweep reaps the first expired locks by expiry and run id and fails the first running runs without a live lock by time and run id, up to the limit each, and logs each; a limit below 1 raises and changes nothing |
| `RunState.ReapingKeepsStale` | apps/backend/run_state.py:457-489 | reaping expired locks first does not change which runs lack a live lock |
| `RunState.SelectFirst` | apps/backend/run_state.py:419-427 | the loop selects exactly the first rows by due time and run id, each once, up to the limit |
| `RunState.FirstAreDetermined` | apps/backend/run_state.py:419-427 | within one scope the order leaves no choice of rows |
| `RunStateLaws.EventLogReplaysToState` | apps/backend/run_state.py:174-259 | over every interleaving the state changes of each run chain from no state, link each to the one before, and end in its current status |
| `RunStateLaws.ReachableLogReplays` | apps/backend/run_state.py:174-259 | so in every database reachable from empty tables |
| `RunStateLaws.ReadyIsKeptUnlessFailed` | apps/backend/run_state.py:318-391 | a ready run stays ready through a step exactly when the step is not a transition of it to failed |
| `RunStateLaws.LockSafety` | apps/backend/run_state.py:100-154 | over every interleaving, outstanding latest leases of owners on one run have one owner, and a token in the table is the last granted on its run |
| `RunStateLaws.SupersededTokenReleasesNothing` | apps/backend/run_state.py:134-154 | in every reachable state, releasing with a token that is no longer the last on its run changes nothing |
| `RunStateLaws.UnrenewedExactlyWithoutRefresh` | apps/backend/run_state.py:113-119 | a step keeps every outstanding lease in the table exactly when it is no renewal of a live lock |
| `RunStateLaws.WithoutRefreshOneOwner` | apps/backend/run_state.py:100-154 | as long as no owner renews a live lock, all outstanding leases on a run have one owner, over every interleaving |
| `RunStateLaws.RefreshBreaksOneOwner` | apps/backend/run_state.py:113-119 | from every state in which an owner renews a live lock, three calls give a second owner an outstanding lease beside the first |
| `RunStateLaws.TwoOwnersReachable` | apps/backend/run_state.py:100-154 | four calls from empty tables that end so |
| `RunStateLaws.SafeAheadExactly` | apps/backend/run_state.py:100-154 | no continuation without a renewal ever has two owners of outstanding leases on a run exactly when every outstanding lease is the row of its run |
| `RunStateLaws.WayToTwoOwners` | apps/backend/run_state.py:100-154 | in every other state at most two calls and no renewal lead to two owners |
| `RunStateLaws.SafetyEndsWithRenewal` | apps/backend/run_state.py:113-119 | from a safe state a step leads to a safe one exactly when it is no renewal of a live lock |
| `RunStateLaws.EmptyIsSafe` | apps/backend/run_state.py:100-154 | empty tables are safe |
| `RunStateLaws.SweepTouchesOnlyStale` | apps/backend/run_state.py:411-489 | a sweep leaves live locks, other scopes, rows held elsewhere, and ready, failed or locked runs as they were, and changes nothing but the status of the runs it fails |
| `RunStateLaws.SweepProgress` | apps/backend/run_state.py:411-489 | a sweep with limit L removes min(L, expired) locks and fails min(L, stale) runs |
| `RunStateLaws.SweepsDrain` | apps/backend/run_state.py:394-510 | n sweeps with the clock at rest leave exactly what n * L rows did not cover of each kind |
| `RunStateEffects.LockKeepsOthersOut` | apps/backend/run_state.py:100-131 | a lock granted to one owner keeps every other owner out for exactly its time to live, never its own, and concerns no other run |
| `RunStateEffects.RefusedExactly` | apps/backend/run_state.py:100-131 | a lock is refused exactly while another owner's has not run out; a refused call changes no row, and a granted one only the row of its run |
| `RunStateEffects.ReleaseFreesExactly` | apps/backend/run_state.py:134-154 | giving back the token just drawn frees the run for everyone, and any other token takes nothing away |
| `RunStateEffects.BeginExactly` | apps/backend/run_state.py:157-259 | the columns and the event of a run that begins, and nothing for a ready one |
| `RunStateEffects.ReadyExactly` | apps/backend/run_state.py:262-315 | the columns and the event of a running run that becomes ready, and nothing for any other |
| `RunStateEffects.FailedExactly` | apps/backend/run_state.py:318-391 | the columns of a run marked failed, missing or known, and its event with the reason cut at 2000 characters |
| `RunStateEffects.SweepReapsFirst` | apps/backend/run_state.py:411-441 | a sweep reaps only free expired locks of the scope, and leaves one only after `limit` others that ran out earlier, or at the same time with a smaller run id |
| `RunStateEffects.SweepFailsOldest` | apps/backend/run_state.py:461-489 | it fails only free running runs of the scope without a live lock, and leaves one only after `limit` others with an older timestamp, or the same and a smaller run id |
| `RunStateEffects.SweepOverlooksNothing` | apps/backend/run_state.py:411-489 | below the limit every candidate is taken |
| `RunStateEffects.SweepChangesRows` | apps/backend/run_state.py:419-489 | the locks reaped are deleted, the runs chosen change their status to failed, and no other row changes |
| `RunStateEffects.SweepLogs` | apps/backend/run_state.py:439-504 | one event per lock with its owner and time, then one per run with the reason |
| `IngestRows.TakenExactly` | apps/worker/ingest_parquet.py:1535-1548 | a record is taken exactly when its tenant matches, workspace and run id are absent, empty or match, and its fingerprint is not blank |
| `IngestRows.KeptExactly` | apps/worker/ingest_parquet.py:1532-1551 | an item is kept exactly when it comes from the first record of the run with its fingerprint |
| `IngestRows.KeptFrom` | apps/worker/ingest_parquet.py:1546-1551 | kept items have distinct fingerprints, none of them seen before |
| `IngestRows.KeptAppend` | apps/worker/ingest_parquet.py:1532-1551 | the division into batches does not matter: what is kept of two batches is what is kept of the first and then of the second given what was seen |
| `IngestRows.RowBuffer.Append` | apps/worker/ingest_parquet.py:1494-1600 | the buffer is flushed when it reaches the batch size, so that all blocks so far are full and nothing is lost or reordered |
| `IngestRows.RowBuffer.Flush` | apps/worker/ingest_parquet.py:1477-1530 | after a flush the blocks concatenate to all rows ever appended and the total counts them |
| `IngestRows.StreamRows` | apps/worker/ingest_parquet.py:1471-1603 | for any batches and any batch size the flushed blocks concatenate to the kept records in order, in blocks of the batch size, and both totals are their number |
| `IngestRows.BlocksAreSlices` | apps/worker/ingest_parquet.py:1471-1603 | block k of such blocks is the slice of the rows from k times the batch size on, and none is missing or empty |
| `IngestRows.PutAllIsMerge` | apps/worker/ingest_parquet.py:1494-1530 | upserting rows with distinct keys one by one equals one merge |
| `IngestRows.BlockFits` | apps/worker/ingest_parquet.py:1477-1493 | no block of kept rows meets a primary key inserted before it |
| `IngestRows.FindingTables.InsertPresence` | apps/worker/ingest_parquet.py:1482-1490 | the plain insert of a block succeeds exactly when no key repeats or exists, and else stops at the first row whose key is there |
| `IngestRows.FindingTables.UpsertLatestFrom` | apps/worker/ingest_parquet.py:1966-1996 | the merging upsert succeeds exactly when no key occurs twice in the temporary table |
| `IngestRows.FindingTables.IngestWithApi` | apps/worker/ingest_parquet.py:1446-1603 | the batched path never raises on keys and ends in the run's old presence replaced, and the latest rows overwritten, by the kept records; `CopyIngestLaws` says of both paths' tables which rows these are |
| `IngestRows.FindingTables.IngestWithCopy` | apps/worker/ingest_parquet.py:1846-1998 | the COPY path never raises on keys and ends in the same two tables and totals |
| `CopyIngest.Store.Transaction` | apps/worker/ingest_parquet.py:1767-2076 | the try block ends as specified for every fault, or raises with that exception |
| `CopyIngest.Store.IngestRun` | apps/worker/ingest_parquet.py:1694-2120 | commit, skip, refusal, or rollback then mark failed: the tables and the outcome of the whole call |
| `CopyIngestLaws.ChecksPassExactly` | apps/worker/ingest_parquet.py:476-545 | the six checks pass exactly when every latest row that already carried the run is delivered again |
| `CopyIngestLaws.IngestStatuses` | apps/worker/ingest_parquet.py:1767-2120 | the status of every run after an ingest, for each outcome; without a commit of findings neither findings table changes |
| `CopyIngestLaws.FindingsStayWithReadyRuns` | apps/worker/ingest_parquet.py:1767-2120 | a step keeps "findings only for ready runs" exactly when it is not the demotion of a ready run that has findings |
| `CopyIngestLaws.FindingsOverRuns` | apps/worker/ingest_parquet.py:1767-2120 | over every sequence of ingests and other steps, findings belong to ready runs all the time exactly when no step demotes a run that has findings |
| `CopyIngestLaws.DemotionHappens` | apps/worker/ingest_parquet.py:1808-1825 | two ingests of any run with a finding, the second raising in the skip branch, leave it failed with its findings |
| `CopyIngestLaws.IngestsNeverFailTheirChecks` | apps/worker/ingest_parquet.py:2016-2076 | after any such sequence from empty tables without a demotion of findings, an ingest that gets the lock and meets no exception skips a ready run or passes all six checks and leaves it ready with exactly the delivered findings |
| `CopyIngestLaws.IngestKeepsLogReplayable` | apps/worker/ingest_parquet.py:1767-2120 | after a whole ingest, committed or rolled back, the event log still replays to the statuses |
| `CopyIngestLaws.LogReplaysOverRuns` | apps/worker/ingest_parquet.py:1767-2120 | and over every sequence of whole ingests and single steps, demotions of ready runs included |
| `CopyIngestLaws.IngestLocks` | apps/worker/ingest_parquet.py:1769-1824 | a run ingested or skipped has no lock afterwards and every other lock is as it was, so that an aborted or refused ingest leaves the lock table unchanged |
| `CopyIngestLaws.CleanedUpLocks` | apps/worker/ingest_parquet.py:2097-2113 | the release in the clean-up transaction removes nothing |
| `CopyIngestLaws.IngestLocksAreNeverSeen` | apps/worker/ingest_parquet.py:1767-2120 | from a table without locks, sequences of ingests and of steps other than direct acquires keep it without locks, and no ingest is refused |
| `CopyIngestLaws.IngestLeavesOtherFindings` | apps/worker/ingest_parquet.py:1846-1998 | whatever its outcome, an ingest leaves every presence row of other runs and every latest row of findings it does not deliver as they were |
| `CopyIngestLaws.DeliversExactly` | apps/worker/ingest_parquet.py:1535-1551 | a finding is delivered exactly when a record taken for the run carries its fingerprint, and then a first record does |
| `CopyIngestLaws.DeliveredRowHasItsColumns` | apps/worker/ingest_parquet.py:1553-1592 | each delivered finding has in both tables the columns of the first record with its fingerprint, and as its time the record's own or else the run's |
| `CopyIngestLaws.CommittedRows` | apps/worker/ingest_parquet.py:1846-1998 | a committed ingest leaves the run exactly the presence rows of the findings delivered, with these columns, and its counts are their number |
| `CopyIngestLaws.OutcomeExactly` | apps/worker/ingest_parquet.py:1767-2120 | refused exactly when another owner's lock has not run out, skipped exactly when the run was ready, ingested exactly when it was not and leaves no latest row of the run behind, by where an exception strikes |
| `CopyIngestLaws.IngestRunRow` | apps/worker/ingest_parquet.py:1767-2120 | the columns of the run's row after each outcome; the rows of other runs stay |
| `CopyIngestLaws.IngestEvents` | apps/worker/ingest_parquet.py:1767-2120 | the events each outcome leaves, in order |
| `ResourceGraph.GraphStore.PersistGraph` | apps/worker/ingest_parquet.py:835-948 | the four tables after one run, and the refusal of a key repeated within it |
| `ResourceGraph.GraphStore.UpsertRows` | apps/worker/ingest_parquet.py:890-920 | the loop of guarded upserts equals its specification |
| `ResourceGraph.CurrentIsNewest` | apps/worker/ingest_parquet.py:876-948 | after any list of runs a key is there exactly if some run has it, and holds the row of a newest run that has it, despite the deletion by run |
| `ResourceGraph.RowAfterRun` | apps/worker/ingest_parquet.py:876-948 | what one run leaves under each key: its own row unless another run's strictly newer one is there, and where it has none the old row unless it was its own |
| `ResourceGraph.RunTableAfterRun` | apps/worker/ingest_parquet.py:835-875 | in the run tables a run replaces all of its own rows and leaves those of every other run and scope |
| `ResourceGraph.OrderDoesNotMatter` | apps/worker/ingest_parquet.py:994-1067 | with distinct times the current table depends only on which runs were persisted, not on order or repetition |
| `ResourceGraph.KeysAfterRun` | apps/worker/ingest_parquet.py:876-948 | for every table, a key is there after a run exactly if the run has it or it was there in a row that is not the run's own |
| `ResourceGraph.KeyLostExactly` | apps/worker/ingest_parquet.py:876-883 | persisting a run loses a key exactly when the row there is the run's own and the run no longer has it |
| `ResourceGraph.LostExactlyWithNewest` | apps/worker/ingest_parquet.py:876-948 | after any history of fixed runs at distinct times, a further run of any contents takes a key away exactly when it is the newest run that had the key, come back without it |
| `ResourceGraph.ShrunkRunForgetsOlderRow` | apps/worker/ingest_parquet.py:876-883 | such a history, in which an older run still has the key |
| `ReservedInstances.CountRunning` | checks/aws/ec2_reserved_instances.py:153-165 | each zone key counts exactly the instances under it |
| `ReservedInstances.CountReserved` | checks/aws/ec2_reserved_instances.py:167-186 | positive counts go to their zone when scoped to a named zone and to their class otherwise |
| `ReservedInstances.SortedZones` | checks/aws/ec2_reserved_instances.py:206-206 | the keys once each in the order of their tuples |
| `ReservedInstances.ApplyZonal` | checks/aws/ec2_reserved_instances.py:191-203 | each zone is covered by the lesser of its reservations and its instances |
| `ReservedInstances.Spread` | checks/aws/ec2_reserved_instances.py:221-229 | the inner loop takes exactly the covered amount from the zones of the class, never more than a zone has, and from none while an earlier one still has instances |
| `ReservedInstances.CoverRegionally` | checks/aws/ec2_reserved_instances.py:211-229 | a class spends the lesser of its remaining instances and its regional reservations and touches no other class |
| `ReservedInstances.Allocate` | checks/aws/ec2_reserved_instances.py:191-229 | per class, used is the lesser of running and (zonal cover + regional), used plus remaining is running, and regional reservations go to earlier zones first |
| `ReservedInstances.AllocationIsDetermined` | checks/aws/ec2_reserved_instances.py:191-229 | these conditions determine every remaining and every used count |
| `ReservedInstances.NoAssignmentCoversMore` | checks/aws/ec2_reserved_instances.py:191-229 | no feasible assignment of the reservations covers more instances of a class |
| `ReservedInstances.AllocationIsAnAssignment` | checks/aws/ec2_reserved_instances.py:191-229 | the allocation is itself a feasible assignment that covers that many |
| `ReservedInstances.NothingIdleWhileUncovered` | checks/aws/ec2_reserved_instances.py:191-229 | while a zone is uncovered no reservation of that zone is idle and every regional one of the class is spent |
| `ReservedInstances.SumByBase` | checks/aws/ec2_reserved_instances.py:231-240 | the per-class sums add up the zone counts |
| `ReservedInstances.SummaryOf` | checks/aws/ec2_reserved_instances.py:257-272 | running = used + uncovered, reserved = used + unused, uncovered is what remains in the zones, and the uncovered zones are exactly those with instances remaining |
| `ReservedInstances.Summarise` | checks/aws/ec2_reserved_instances.py:255-272 | a class is reported exactly when it has a running instance or a reservation, with figures as above |
| `ReservedReport.InstancesAtExactly` | checks/aws/ec2_reserved_instances.py:153-165 | a zone counts each instance with a type in it once, those without a zone under `unknown` |
| `ReservedReport.ReservationCounts` | checks/aws/ec2_reserved_instances.py:167-186 | one more reservation adds its count to its own zone when its scope contains `availability` and it names one, else to the region, and nothing without a type or a positive count |
| `ReservedReport.EarlierZonesFirst` | checks/aws/ec2_reserved_instances.py:206-229 | of two zones of a class the later by name gets a regional reservation only when nothing is left uncovered in the earlier |
| `ReservedReport.Report` | checks/aws/ec2_reserved_instances.py:152-272 | from the lists to the figures: a class is reported exactly when it has an instance or a reservation, and its figures account for each of them once |
| `CostExplorer.DenominatorClosed` | checks/aws/cost_explorer_analyzer.py:709-718 | 12 * denominator = n^2 * (n^2 - 1), positive from two months on and zero only below |
| `CostExplorer.SlopeOfLine` | checks/aws/cost_explorer_analyzer.py:709-720 | the slope of a + b * t is exactly b |
| `CostExplorer.LineIsReported` | checks/aws/cost_explorer_analyzer.py:700-734 | a straight line a + b * t is increasing exactly when b > 0 and b is at least the absolute threshold or the relative one at its middle level, decreasing exactly when b <= 0 and -b is, and else not reported |
| `CostExplorer.SlopeIsLeastSquares` | checks/aws/cost_explorer_analyzer.py:709-720 | for any costs of two months or more, the slope is that of the one line with the least sum of squared distances |
| `CostExplorer.TrendExactly` | checks/aws/cost_explorer_analyzer.py:700-734 | the trend of any history is the verdict on the line closest to its last months and on their mean, and none below two months or the number required |
| `CostExplorer.OlderMonthsDoNotMatter` | checks/aws/cost_explorer_analyzer.py:700-703 | months before the window never change the trend |
| `CostExplorer.DefaultTrend` | checks/aws/defaults.py:264-267 | with the default settings: the last six months, three of them at least, and a change of 50 a month or of a tenth of the mean |
| `CostExplorer.ChebyshevSum` | checks/aws/cost_explorer_analyzer.py:711-720 | a window that never falls has a slope of at least zero, zero only if flat; one that never rises at most zero |
| `CostExplorer.RisingWindowIsDecreasingOnlyIfFlat` | checks/aws/cost_explorer_analyzer.py:700-734 | a window that never falls is reported as decreasing exactly when it is long enough, flat, and a threshold lets zero through |
| `CostExplorer.DefaultsReportFlatCredits` | checks/aws/defaults.py:264-267 | with the default settings a window that never falls is reported as decreasing exactly when it is flat, of three months or more, and at a level of at most zero |
| `CostExplorer.FlatCreditIsDecreasing` | checks/aws/cost_explorer_analyzer.py:729-734 | the same credit in three months or more is reported as decreasing |
| `CostExplorer.FallingWindowIsNeverIncreasing` | checks/aws/cost_explorer_analyzer.py:700-734 | a window is reported as increasing only if some month in it cost more than an earlier one |
| `CostExplorer.SquaredComparison` | checks/aws/cost_explorer_analyzer.py:591-599 | the comparison without square root is the z-score comparison |
| `CostExplorer.MovingAverageExactly` | checks/aws/cost_explorer_analyzer.py:560-650 | what is reported of any history in terms of the mean and the standard deviation of its last months |
| `CostExplorer.DividesByZeroExactly` | checks/aws/cost_explorer_analyzer.py:573-580 | the division by the number of months fails exactly when none is required and a negative window drops them all |
| `CostExplorer.CauchySchwarz` | checks/aws/cost_explorer_analyzer.py:592 | the squared sum of deviations is at most n times the sum of their squares |
| `CostExplorer.Samuelson` | checks/aws/cost_explorer_analyzer.py:578-599 | (current - mean)^2 <= (n - 1) * variance for the window as coded |
| `CostExplorer.ZscoreReportsExactly` | checks/aws/cost_explorer_analyzer.py:573-603 | for all settings, a spike by z-score is reported on some history of charges, and likewise a drop, exactly when z-scores are on and the window is unbounded or holds the months required and the threshold is not positive or threshold^2 <= window - 1; otherwise on no history at all |
| `CostExplorer.ExtremesKeepTheirSign` | checks/aws/cost_explorer_analyzer.py:599-603 | the highest cost of its window is never reported as a drop nor the lowest as a spike |
| `CostExplorer.JumpMeetsBound` | checks/aws/cost_explorer_analyzer.py:578-599 | one cost of 2 after months of 1, or of 1 after months of 2, meets the bound with equality |
| `CostExplorer.DefaultsDetectNothing` | checks/aws/defaults.py:252-256 | with the default settings the method reports nothing on any history |
| `RateLimit.TokenBucket.Allow` | apps/flask_api/flask_app.py:348-356 | refill then take, as specified on the four fields |
| `RateLimit.LimitsOf` | apps/flask_api/flask_app.py:366-376 | the limiter is off exactly for an absent or non-positive rate, and a default burst is at least 10 and twice the rate |
| `RateLimit.RateLimiter.EnforceRateLimit` | apps/flask_api/flask_app.py:400-422 | one request changes at most the bucket of its own key, and buckets are never shared between keys |
| `RateLimit.TakeFacts` | apps/flask_api/flask_app.py:348-356 | a call neither creates tokens nor exceeds the capacity |
| `RateLimit.TakeExactly` | apps/flask_api/flask_app.py:348-356 | a call is admitted exactly when its cost is within the capacity and the tokens come together by then, and pays from just these |
| `RateLimit.VolleyIsServed` | apps/flask_api/flask_app.py:348-356 | of any number of calls at one moment exactly the whole tokens are admitted |
| `RateLimit.LimitsExactly` | apps/flask_api/flask_app.py:366-376 | the rate and the burst in force for all settings |
| `RateLimit.ServeExactly` | apps/flask_api/flask_app.py:400-422 | which paths are limited, that a request touches no bucket but that of its key, and that a first one passes exactly with a burst of at least 1 |
| `RateLimit.RateBound` | apps/flask_api/flask_app.py:348-356 | over any calls and any window, admitted cost <= capacity + fill rate * length of the window |
| `RateLimit.IdleCallIsAdmitted` | apps/flask_api/flask_app.py:348-356 | after an idle time of cost / fill rate a call is admitted exactly when its cost fits the capacity |
| `RateLimit.KeysAreIndependent` | apps/flask_api/flask_app.py:412-418 | the answers to one key are the same when all other requests are left out |
| `RateLimit.OneMoreAnswer` | apps/flask_api/flask_app.py:412-418 | the answers to a key are those of the buckets at each of its requests, in order |
| `RateLimit.LetThroughIsAdmitted` | apps/flask_api/flask_app.py:412-422 | the requests of one key let through are the calls its own bucket admits |
| `RateLimit.ClientRateBound` | apps/flask_api/flask_app.py:400-422 | over all requests of all clients, one client gets through in any window at most burst + rate * length |
| `RateLimit.ClientBurst` | apps/flask_api/flask_app.py:400-422 | a client who has not called before gets exactly the whole part of the burst through at once |
| `ParquetWriter.FindingsParquetWriter.Append` | pipeline/writer_parquet.py:115-135 | the state after one wire record, from its money check over its cast to the flush it may trigger, and exactly when it raises |
| `ParquetWriter.DateColumnIsPartition` | pipeline/writer_parquet.py:175-192 | the derived date column of a row is the date of its partition, and its tenant that of the cast record |
| `ParquetWriter.FindingsParquetWriter.Flush` | pipeline/writer_parquet.py:144-162 | the files written up to a failed write, and exactly when it raises; the buffer is empty either way |
| `ParquetWriter.FindingsParquetWriter.Group` | pipeline/writer_parquet.py:151-156 | the groups keep the order of rows and of first occurrence |
| `ParquetWriter.FindingsParquetWriter.WritePartitionGroup` | pipeline/writer_parquet.py:194-229 | the chunk loop terminates for a limit of at least 1 and writes the specified files |
| `ParquetWriter.FindingsParquetWriter.Close` | pipeline/writer_parquet.py:164-169 | after close the buffer is empty |
| `ParquetWriter.FlushFilesEveryRow` | pipeline/writer_parquet.py:144-229 | a flush without a failed write files every row once, under its partition and in order, in files within the limit |
| `ParquetWriter.PartitionsKeepAppendOrder` | pipeline/writer_parquet.py:115-229 | per partition, files and then buffer are the accepted records in append order, over every sequence of calls |
| `ParquetWriter.RecordsAreConserved` | pipeline/writer_parquet.py:115-229 | received = written + dropped + buffered + escaped + lost over every sequence of calls with any write failures, and error samples stay within their cap |
| `ParquetWriter.LostExactlyOnFailure` | pipeline/writer_parquet.py:158-162 | a flush loses rows exactly when one of its file writes fails |
| `ParquetWriter.CountersAgreeExactly` | pipeline/writer_parquet.py:115-169 | received = written + dropped + buffered exactly when no append met an uncounted exception and no flush a failing file write |
| `ParquetWriter.CountersAgreeOnRecords` | pipeline/writer_parquet.py:37-169 | in terms of the records given: the counters agree exactly when all money fields are numbers, no cast overflows and no flush meets a failing file write |
| `ParquetWriter.MoneyErrorGoesUncounted` | pipeline/writer_parquet.py:37-60 | a record whose estimated savings are written as text is received and then in no other counter |
| `ParquetWriter.FileSizesAreBounded` | pipeline/writer_parquet.py:209-229 | every file ever written holds between one row and the limit |
| `ParquetLayout.MoneyExactly` | pipeline/writer_parquet.py:37-60 | the money check passes exactly when all nine amounts are numbers or missing |
| `ParquetLayout.RecordExactly` | pipeline/writer_parquet.py:115-192 | what becomes of a record, and that its row has the stored columns and the date of its run timestamp, or of the call if it has none |
| `ParquetLayout.AppendExactly` | pipeline/writer_parquet.py:115-135 | the counters, samples, buffer and files after one append |
| `ParquetLayout.BufferIsBounded` | pipeline/writer_parquet.py:134-135 | between calls the buffer is always short of its size |
| `ParquetLayout.FlushLayout` | pipeline/writer_parquet.py:144-229 | a flush writes the files of one partition together, all but the last of them full, and the partitions in the order of their first rows |
| `StorageCast.CastHasShape` | contracts/storage_cast.py:90-179 | whatever is cast is None or has the shape of the type at every level |
| `StorageCast.ShapedIsFixed` | contracts/storage_cast.py:90-179 | a value that has the shape is returned unchanged |
| `StorageCast.FixedExactlyWhenShaped` | contracts/storage_cast.py:90-179 | the values left unchanged are exactly those of the shape |
| `StorageCast.CastIsIdempotent` | contracts/storage_cast.py:90-179 | casting a second time changes nothing, colliding map keys included |
| `StorageCast.RecordCastHasShape` | contracts/storage_cast.py:182-191 | a cast record has one column per field of the schema, each of its shape, and casting it again changes nothing |
| `StorageCastLaws.RecastExactly` | contracts/storage_cast.py:90-179 | for every type, repeated field names included: a second cast changes nothing exactly when every field that a later one of its name overwrote can also read what that one left, at every level |
| `StorageCastLaws.RecordRecastExactly` | contracts/storage_cast.py:182-191 | the same of whole records |
| `StorageCastLaws.DuplicateNamesBreakIdempotence` | contracts/storage_cast.py:145-151 | a struct type with a repeated name and a value for which the second cast fails |
| `StorageCastLaws.ScalarTextIsRead` | contracts/storage_cast.py:22-134 | a text in which Python reads a boolean, integer, decimal, time in any offset or date is cast to it |
| `StorageCastLaws.WireFormIsRead` | contracts/storage_cast.py:90-179 | any wire form of a storage value (scalars as text, empty strings for missing values, fields in any order among others, at every level) is cast to that value |
| `StorageCastLaws.WireRecordIsStored` | contracts/storage_cast.py:182-191 | a record in wire form is stored as the record it stands for |
| `StorageCastLaws.NumberAsText` | contracts/storage_cast.py:112-118 | a number written as text inside a struct is such a wire form |
| `StorageCast.AgreeingValuesCastAlike` | contracts/storage_cast.py:144-176 | values that agree on what the type names are cast alike, errors included |
| `StorageCast.AgreeingRecordsCastAlike` | contracts/storage_cast.py:182-191 | fields outside the schema, at the top or inside nested structs, never affect the result |
| `StorageCast.ExtraFieldDoesNotMatter` | contracts/storage_cast.py:182-191 | a field that the schema does not name may be added to any record or struct |
| `ScalarCasts.NumbersBecomeIntegers` | contracts/storage_cast.py:117-122 | an integer column takes the integer part, towards zero, of any number |
| `ScalarCasts.NumbersBecomeDecimals` | contracts/storage_cast.py:61-78 | a decimal column keeps the number |
| `ScalarCasts.BooleansAreRead` | contracts/storage_cast.py:103-115 | which booleans, integers and words are read as true and as false |
| `ScalarCasts.TimesKeepTheirMoment` | contracts/storage_cast.py:22-40 | a time column keeps the moment and counts it in UTC |
| `ScalarCasts.TextTimesKeepTheirMoment` | contracts/storage_cast.py:22-40 | so for texts, a trailing Z being the offset zero |
| `ScalarCasts.TimesBecomeDays` | contracts/storage_cast.py:43-58 | a date column takes the day of a time on its own clock |
| `ScalarCasts.EmptyAndText` | contracts/storage_cast.py:81-101 | missing values stay missing, an empty text is one except in a string column, and a string column keeps texts |
| `Remediation.ActionTable.ClaimActions` | apps/worker/remediation_worker.py:95-128 | the first approved actions not held elsewhere, up to the limit, become running with a new version, and no other row changes |
| `Remediation.ActionTable.UpdateActionResult` | apps/worker/remediation_worker.py:205-236 | the guarded update succeeds exactly on a running row and raises otherwise without a change |
| `Remediation.ClaimExactly` | apps/worker/remediation_worker.py:95-107 | a claim takes only free approved actions of its tenant and workspace, each once, and leaves one only after `limit` others that come no later by approval, request and id |
| `Remediation.ClaimChanges` | apps/worker/remediation_worker.py:107-114 | of a claimed action only status and version change, and nothing of any other |
| `Remediation.OutcomeChanges` | apps/worker/remediation_worker.py:205-222 | a recorded outcome sets status, reason and version of its action and nothing else |
| `Remediation.LoneWorkerChanges` | apps/worker/remediation_worker.py:354-401 | a lone worker takes each claimed action through both changes with the message of its own execution |
| `Remediation.EndpointsExactly` | apps/flask_api/blueprints/remediations.py:377-1075 | a request adds an action once, an approval or rejection decides a pending one, and neither changes anything else |
| `Remediation.ClaimStartsWorker` | apps/worker/remediation_worker.py:354-366 | a claim starts a worker that has executed nothing yet and changes no other worker |
| `Remediation.FinishCounts` | apps/worker/remediation_worker.py:372-401 | finishing an action executes it once, counts it as it went and records that on it |
| `Remediation.CrashStops` | apps/worker/remediation_worker.py:372-401 | a worker that crashes records nothing more, whether or not it had just executed an action |
| `Remediation.CountOkExactly` | apps/worker/remediation_worker.py:390-401 | a lone worker counts as completed exactly the actions whose execution went well |
| `Remediation.ActionTable.ProcessApprovedActions` | apps/worker/remediation_worker.py:340-401 | a lone worker ends with claimed = completed + failed <= limit and never meets a missing row |
| `Remediation.OutcomesFollowExecutions` | apps/worker/remediation_worker.py:372-401 | each claimed action is completed or failed as its execution went, and no other action changes |
| `Remediation.StatusesMoveForward` | apps/worker/remediation_worker.py:95-236 | a status only moves pending -> approved -> running -> completed or failed (or pending -> rejected), and only a claim starts an action |
| `Remediation.StepStaysSound` | apps/worker/remediation_worker.py:354-401 | every step of workers, crashes and approval endpoints keeps the invariant that each worker's claims are its own |
| `Remediation.ActionsRunAtMostOnce` | apps/worker/remediation_worker.py:354-401 | over every interleaving no action is claimed by two workers or executed twice, each guarded update finds its running row, and a finished worker has claimed = completed + failed <= limit |
| `Rbac.RbacStore.UserByEmail` | apps/backend/db_rbac.py:139-240 | a user of the workspace with that email if there is one, else the first by user id of those inherited into it, else none exists |
| `Rbac.RbacStore.AuthenticateUser` | services/rbac_service.py:93-183 | a context is returned only for a found, active user whose stored password hash is not empty and verifies the password; then the workspace is bootstrapped and the session stored at the user's home; otherwise nothing changes, and either no user was found, or he is inactive or his hash absent, empty or not verified, or the bootstrap met a name already taken and raised |
| `Rbac.RbacStore.InheritedBySessionHash` | apps/backend/db_rbac.py:2013-2080 | the first by user id of the inherited users with a live session of the token, or none if there is none |
| `Rbac.RbacStore.AuthenticateSessionToken` | services/rbac_service.py:245-287 | returns the context of a user that the token resolves to, and none only if it resolves to nobody |
| `Rbac.RbacStore.LogoutSession` | services/rbac_service.py:290-324 | deletes the session in the workspace, or else in the home of the inherited user |
| `RbacLaws.InheritedExactly` | apps/backend/db_rbac.py:173-240 | who is inherited into a workspace, and from where |
| `RbacLaws.LoginFindsExactly` | apps/backend/db_rbac.py:139-240 | whom a login by email finds, in terms of the rows: always a user with that email |
| `RbacLaws.SessionFindsExactly` | apps/backend/db_rbac.py:1975-2080 | whom a token finds, in terms of the rows: always an active user with an unexpired row of that hash |
| `RbacLaws.SessionIdsAgreeExactly` | services/rbac_service.py:49-51 | two session ids agree exactly when the first 24 characters of the hashes do |
| `RbacLaws.LoginEffects` | services/rbac_service.py:136-169 | a login stores one session for 86400 seconds, copies what the workspace lacks of the template, and changes nothing else |
| `RbacLaws.LogoutEffects` | services/rbac_service.py:290-324 | a logout deletes rows of its token in one workspace and nothing else |
| `RbacLaws.ContextSays` | services/rbac_service.py:54-74 | the fields of a context, and its permissions |
| `RbacLaws.LoginIsDetermined` | apps/backend/db_rbac.py:139-240 | with unique emails per workspace a login finds one user only |
| `RbacLaws.PermittedExactly` | apps/backend/db_rbac.py:2083-2119 | a permission is held exactly through the role of an active row in the workspace, or else of the binding, and the grants of that role there or, if none, in the source workspace |
| `RbacLaws.TemplateGrantsReach` | apps/backend/db_rbac.py:1563-1656 | after a bootstrap whoever has a role holds all that the template grants to it |
| `RbacLaws.PermissionsSettle` | apps/backend/db_rbac.py:2083-2119 | once a workspace is bootstrapped, later bootstraps of any workspace leave the permissions of its users as they were, the fallback to the source workspace included |
| `RbacLaws.CopyKeepsNamesExactly` | migrations/021_rbac_authentication.sql:22-45 | the copy keeps the names of a workspace unique exactly when no missing row has the name of another |
| `RbacLaws.BootstrapFailsExactly` | migrations/021_rbac_authentication.sql:22-45 | the bootstrap of a login raises exactly when the copy would give two roles or two permissions of the workspace one name |
| `RbacLaws.ClashHappens` | migrations/021_rbac_authentication.sql:22-45 | tables in which a name clashes |
| `RbacLaws.BootstrapIsIdempotent` | apps/backend/db_rbac.py:1563-1656 | a bootstrapped workspace can be bootstrapped again, and a second time changes nothing |
| `RbacLaws.BootstrapCloses` | apps/backend/db_rbac.py:1563-1656 | after a bootstrap the template has nothing left to copy into the workspace, even when it is the template itself |
| `RbacLaws.LoginIssues` | services/rbac_service.py:136-169 | after a login the token's row is the only one with its hash and the user it found is entitled to it |
| `RbacLaws.StepOfRow` | apps/backend/db_rbac.py:1781-1843 | a step takes the token's row away exactly when it is one of the steps that end it, and a hash once gone stays unknown |
| `RbacLaws.StoredResolves` | apps/backend/db_rbac.py:1975-2080 | a stored token resolves exactly before it expires, and to nobody but its user |
| `RbacLaws.TokenLife` | services/rbac_service.py:112-324 | over any run of logins, logouts and clock ticks a fresh token resolves exactly while neither expired nor ended, always to the same user, workspace, source and permission set as the login returned |
| `RbacLaws.TokenOfOnlyUserLives` | services/rbac_service.py:112-287 | an active user alone in a workspace may log in, and his token resolves exactly for the first 86400 seconds |
| `RbacLaws.LogoutEndsToken` | services/rbac_service.py:290-324 | a logout answers true exactly where the token is kept or resolves, and then the token resolves in no workspace |
| `RbacLaws.SharedPrefixEnds` | services/rbac_service.py:136-155 | the same user may log in again, and a second login whose token hash shares the first 24 characters ends the first session |

## Left out

- The non-COPY ingest's direct updates of `runs`: they bypass the event log and commit statement by statement; that path is modelled for dedup, batching and the two findings tables only.
- Python's own conversions of text are parameters of the cast (`StorageCast.Python`); a wire form asks of each of its texts that they read the value in it.
- Inside the COPY transaction: coverage rows and columns, aggregates and the graph statements (the graph is modelled on its own); each may raise, which the faults cover.
- Concurrent transactions below the level of statements: each function of `run_state` and each whole ingest is atomic; isolation levels and deadlocks are not modelled.
- A rollback that itself fails after an exception: the second transaction is then not run on clean tables in the source.
- The columns `acquired_at` and `updated_at` of locks and other bookkeeping timestamps.
- How columns are guessed from a record (category, group key, savings, region): parameters of `Record`.
- COPY and CSV encoding, DuckDB, pyarrow scanning, Parquet bytes, boto3, Flask plumbing, connection pooling, logging.
- Float rounding, decimal contexts and the overflow of dates and decimals.
- In the cast: decimals of either width are one type, NaN as a map key, map keys that Python cannot hash, bytes-like values given to `int`, and keys of a map with an unsupported key type that differ in kind but compare equal.
- The retry and the audit rows of the remediation worker, the payload merged into the action, and the dry-run flag; of the
  approval endpoints their answers and the rule that decides whether a request may approve itself (`autoApprove` is given).
- Password verification, token generation and hashing: a predicate on the stored hash and given hashes; errors for empty tokens are not modelled.
- A tenant role binding whose source workspace is the empty string; the last-login column; API keys, role and user administration, audit and listing queries.
- Changes of users, bindings and roles while a session lives: `RbacLaws.TokenLife` speaks of logins, logouts and time only.
- A resource-graph bundle whose rows carry another scope or run than its manifest.
- Normalisation of instance type, platform, tenancy and zone, pricing, percentages and finding texts of the AWS checks; the other detection methods of the cost analyser.
- `X-Forwarded-For` parsing and path grouping: the key of a request is given.
