/** Persistence of the resource graph (apps/worker/ingest_parquet.py, `_persist_graph_with_api`
    and `_persist_graph_with_cursor`): run-scoped tables and "current" tables for nodes and edges.
    The columns other than keys, run and time are one value of type `N` or `E`. */
module ResourceGraph {
  import opened Prelude

  datatype Scope = Scope(tenant: string, workspace: string)

  /** One graph table's part of a run: its rows, each under a key. */
  datatype GraphRun<C> = GraphRun(scope: Scope, runId: string, ts: int, rows: seq<GraphRow<C>>)

  datatype GraphRow<C> = GraphRow(key: string, columns: C)

  datatype CurrentRow<C> = CurrentRow(columns: C, latestRunId: string, latestRunTs: int)

  /** The primary keys. */
  datatype CurrentKey = CurrentKey(scope: Scope, key: string)
  datatype RunRowKey = RunRowKey(scope: Scope, runId: string, key: string)

  type Current<C> = map<CurrentKey, CurrentRow<C>>
  type RunRows<C> = map<RunRowKey, C>

  predicate UniqueKeys<C>(rows: seq<GraphRow<C>>) {
    forall i, j :: 0 <= i < j < |rows| ==> rows[i].key != rows[j].key
  }

  // ---------- The statements as functions on the tables ----------

  function WithoutRun<C>(cur: Current<C>, scope: Scope, runId: string): Current<C> {
    map k | k in cur && !(k.scope == scope && cur[k].latestRunId == runId) :: cur[k]
  }

  /** `INSERT ... ON CONFLICT DO UPDATE ... WHERE latest_run_ts <= EXCLUDED.latest_run_ts` */
  function Upsert<C>(cur: Current<C>, k: CurrentKey, row: CurrentRow<C>): Current<C> {
    if k in cur && cur[k].latestRunTs > row.latestRunTs then cur else cur[k := row]
  }

  function UpsertAll<C>(cur: Current<C>, run: GraphRun<C>, n: nat): Current<C>
    requires n <= |run.rows|
  {
    if n == 0 then cur
    else
      var row := run.rows[n - 1];
      Upsert(UpsertAll(cur, run, n - 1), CurrentKey(run.scope, row.key), CurrentRow(row.columns, run.runId, run.ts))
  }

  /** The current table after one run is persisted. */
  function Persisted<C>(cur: Current<C>, run: GraphRun<C>): Current<C> {
    UpsertAll(WithoutRun(cur, run.scope, run.runId), run, |run.rows|)
  }

  function RunRowsWithout<C>(rows: RunRows<C>, scope: Scope, runId: string): RunRows<C> {
    map k | k in rows && !(k.scope == scope && k.runId == runId) :: rows[k]
  }

  function RunRowsOf<C>(run: GraphRun<C>): RunRows<C>
    requires UniqueKeys(run.rows)
  {
    map i | 0 <= i < |run.rows| :: RunRowKey(run.scope, run.runId, run.rows[i].key) := run.rows[i].columns
  }

  class GraphStore<N(!new), E(!new)> {
    var nodesRun: RunRows<N>
    var edgesRun: RunRows<E>
    var nodesCurrent: Current<N>
    var edgesCurrent: Current<E>

    constructor ()
      ensures nodesRun == map[] && edgesRun == map[] && nodesCurrent == map[] && edgesCurrent == map[]
    {
      nodesRun, edgesRun, nodesCurrent, edgesCurrent := map[], map[], map[], map[];
    }

    /** Raised when a key repeats within the run, which the primary keys of the run tables refuse;
        the enclosing transaction is then rolled back. */
    method PersistGraph(scope: Scope, runId: string, ts: int, nodes: seq<GraphRow<N>>, edges: seq<GraphRow<E>>)
      returns (r: Result<()>)
      modifies this
      ensures r.Ok? <==> UniqueKeys(nodes) && UniqueKeys(edges)
      ensures r.Ok? ==>
        && nodesCurrent == Persisted(old(nodesCurrent), GraphRun(scope, runId, ts, nodes))
        && edgesCurrent == Persisted(old(edgesCurrent), GraphRun(scope, runId, ts, edges))
        && nodesRun == RunRowsWithout(old(nodesRun), scope, runId) + RunRowsOf(GraphRun(scope, runId, ts, nodes))
        && edgesRun == RunRowsWithout(old(edgesRun), scope, runId) + RunRowsOf(GraphRun(scope, runId, ts, edges))
    {
      hide WithoutRun, UpsertAll, RunRowsWithout, RunRowsOf, UniqueKeys;
      edgesRun := RunRowsWithout(edgesRun, scope, runId);
      nodesRun := RunRowsWithout(nodesRun, scope, runId);
      if !UniqueKeys(nodes) {
        return Raised("duplicate key value");
      }
      nodesRun := nodesRun + RunRowsOf(GraphRun(scope, runId, ts, nodes));
      if !UniqueKeys(edges) {
        return Raised("duplicate key value");
      }
      edgesRun := edgesRun + RunRowsOf(GraphRun(scope, runId, ts, edges));

      nodesCurrent := WithoutRun(nodesCurrent, scope, runId);
      edgesCurrent := WithoutRun(edgesCurrent, scope, runId);
      nodesCurrent := UpsertRows(nodesCurrent, GraphRun(scope, runId, ts, nodes));
      edgesCurrent := UpsertRows(edgesCurrent, GraphRun(scope, runId, ts, edges));
      r := Ok(());
    }

    /** The loop over the rows of one run. */
    static method UpsertRows<C(!new)>(cur: Current<C>, run: GraphRun<C>) returns (result: Current<C>)
      ensures result == UpsertAll(cur, run, |run.rows|)
    {
      result := cur;
      for n := 0 to |run.rows|
        invariant result == UpsertAll(cur, run, n)
      {
        var row := run.rows[n];
        var k := CurrentKey(run.scope, row.key);
        if k !in result || result[k].latestRunTs <= run.ts {
          result := result[k := CurrentRow(row.columns, run.runId, run.ts)];
        }
      }
    }
  }

  // ---------- Convergence ----------

  /** Persist the runs one after the other, from an empty table. */
  function PersistAll<C>(runs: seq<GraphRun<C>>): Current<C> {
    if runs == [] then map[] else Persisted(PersistAll(runs[..|runs| - 1]), runs[|runs| - 1])
  }

  /** Row `i` of the run stands under key `k`. */
  predicate RowAt<C>(run: GraphRun<C>, k: CurrentKey, i: nat) {
    i < |run.rows| && k == CurrentKey(run.scope, run.rows[i].key)
  }

  ghost predicate Has<C>(run: GraphRun<C>, k: CurrentKey) {
    exists i: nat :: RowAt(run, k, i)
  }

  /** The run is the newest of all that have key `k`, and the row is what it has there. */
  ghost predicate FromNewest<C(!new)>(runs: seq<GraphRun<C>>, k: CurrentKey, row: CurrentRow<C>, run: GraphRun<C>,
                               i: nat)
  {
    && run in runs && RowAt(run, k, i) && row == CurrentRow(run.rows[i].columns, run.runId, run.ts)
    && forall other :: other in runs && Has(other, k) ==> other.ts <= run.ts
  }

  /** Each run has unique keys and always the same contents. */
  ghost predicate FixedRuns<C(!new)>(runs: seq<GraphRun<C>>) {
    && (forall r :: r in runs ==> UniqueKeys(r.rows))
    && forall r, q :: r in runs && q in runs && r.scope == q.scope && r.runId == q.runId ==> r == q
  }

  lemma {:induction false} UpsertAllOther<C(!new)>(cur: Current<C>, run: GraphRun<C>, n: nat, k: CurrentKey)
    requires n <= |run.rows| && forall i: nat :: i < n ==> !RowAt(run, k, i)
    ensures k in UpsertAll(cur, run, n) <==> k in cur
    ensures k in cur ==> UpsertAll(cur, run, n)[k] == cur[k]
  {
    if n > 0 {
      UpsertAllOther(cur, run, n - 1, k);
      assert !RowAt(run, k, n - 1);
    }
  }

  lemma {:induction false} UpsertAllAt<C(!new)>(cur: Current<C>, run: GraphRun<C>, n: nat, k: CurrentKey, i: nat)
    requires UniqueKeys(run.rows) && i < n <= |run.rows| && RowAt(run, k, i)
    ensures k in UpsertAll(cur, run, n)
    ensures UpsertAll(cur, run, n)[k] ==
      if k in cur && cur[k].latestRunTs > run.ts then cur[k] else CurrentRow(run.rows[i].columns, run.runId, run.ts)
  {
    if i == n - 1 {
      UpsertAllOther(cur, run, n - 1, k);
    } else {
      UpsertAllAt(cur, run, n - 1, k, i);
      assert run.rows[n - 1].key != run.rows[i].key;
    }
  }

  /** Each key holds the row of a newest run that has it, and only such keys are there, whatever
      the order of the runs and however often they are repeated. */
  lemma {:induction false} CurrentIsNewest<C(!new)>(runs: seq<GraphRun<C>>, k: CurrentKey)
    requires FixedRuns(runs)
    ensures k in PersistAll(runs) <==> exists run :: run in runs && Has(run, k)
    ensures k in PersistAll(runs) ==> exists run, i: nat :: FromNewest(runs, k, PersistAll(runs)[k], run, i)
  {
    hide UpsertAll;
    if runs != [] {
      var init, r := runs[..|runs| - 1], runs[|runs| - 1];
      assert forall q :: q in runs <==> q in init || q == r;
      CurrentIsNewest(init, k);
      var before := PersistAll(init);
      if Has(r, k) {
        var j: nat :| RowAt(r, k, j);
        UpsertAllAt(WithoutRun(before, r.scope, r.runId), r, |r.rows|, k, j);
      } else {
        UpsertAllOther(WithoutRun(before, r.scope, r.runId), r, |r.rows|, k);
      }
      if k in before {
        var run, i: nat :| FromNewest(init, k, before[k], run, i);
        assert Has(run, k);
        if Has(r, k) {
          var j: nat :| RowAt(r, k, j);
          if k in WithoutRun(before, r.scope, r.runId) && before[k].latestRunTs > r.ts {
            assert FromNewest(runs, k, PersistAll(runs)[k], run, i);
          } else {
            assert FromNewest(runs, k, PersistAll(runs)[k], r, j);
          }
        } else {
          assert FromNewest(runs, k, PersistAll(runs)[k], run, i);
        }
      } else if Has(r, k) {
        var j: nat :| RowAt(r, k, j);
        assert FromNewest(runs, k, PersistAll(runs)[k], r, j);
      }
    }
  }

  ghost predicate DistinctTimes<C(!new)>(runs: seq<GraphRun<C>>) {
    forall r, q :: r in runs && q in runs && r.scope == q.scope && r.ts == q.ts ==> r == q
  }

  /** With distinct times the current table depends only on which runs were persisted. */
  lemma OrderDoesNotMatter<C(!new)>(runs: seq<GraphRun<C>>, others: seq<GraphRun<C>>)
    requires FixedRuns(runs) && DistinctTimes(runs) && forall r :: r in runs <==> r in others
    ensures PersistAll(runs) == PersistAll(others)
  {
    hide PersistAll;
    forall k
      ensures k in PersistAll(runs) <==> k in PersistAll(others)
      ensures k in PersistAll(runs) ==> PersistAll(runs)[k] == PersistAll(others)[k]
    {
      CurrentIsNewest(runs, k);
      CurrentIsNewest(others, k);
      if k in PersistAll(runs) {
        var r, i: nat :| FromNewest(runs, k, PersistAll(runs)[k], r, i);
        var q, j: nat :| FromNewest(others, k, PersistAll(others)[k], q, j);
        assert Has(r, k) && Has(q, k);
        assert r == q && i == j;
      }
    }
  }

  // ---------- One run, row by row ----------

  /** What one run leaves under a key: its own row if it has the key, unless the row there is another run's
      and strictly newer; else the row that was there, unless it was the run's own, which is gone. */
  lemma RowAfterRun<C(!new)>(cur: Current<C>, run: GraphRun<C>, k: CurrentKey, i: nat)
    requires UniqueKeys(run.rows)
    ensures var after := Persisted(cur, run);
      && (RowAt(run, k, i) ==>
        && k in after
        && if k in cur && cur[k].latestRunId != run.runId && run.ts < cur[k].latestRunTs then after[k] == cur[k]
           else
             after[k].columns == run.rows[i].columns && after[k].latestRunId == run.runId
             && after[k].latestRunTs == run.ts)
      && (!Has(run, k) ==>
        && (k in after <==> k in cur && !(k.scope == run.scope && cur[k].latestRunId == run.runId))
        && (k in after ==> after[k] == cur[k]))
  {
    hide UpsertAll;
    var kept := WithoutRun(cur, run.scope, run.runId);
    if RowAt(run, k, i) {
      UpsertAllAt(kept, run, |run.rows|, k, i);
    }
    if !Has(run, k) {
      assert forall j: nat :: j < |run.rows| ==> !RowAt(run, k, j);
      UpsertAllOther(kept, run, |run.rows|, k);
    }
  }

  /** In the run table a run replaces all its own rows and leaves those of every other run and scope. */
  lemma RunTableAfterRun<C(!new)>(rows: RunRows<C>, run: GraphRun<C>, k: RunRowKey)
    requires UniqueKeys(run.rows)
    ensures var after := RunRowsWithout(rows, run.scope, run.runId) + RunRowsOf(run);
      && (k.scope == run.scope && k.runId == run.runId ==>
        && (k in after <==> exists i :: 0 <= i < |run.rows| && run.rows[i].key == k.key)
        && forall i :: 0 <= i < |run.rows| && run.rows[i].key == k.key ==> after[k] == run.rows[i].columns)
      && (!(k.scope == run.scope && k.runId == run.runId) ==>
        (k in after <==> k in rows) && (k in rows ==> after[k] == rows[k]))
  {
    var added := RunRowsOf(run);
    forall i | 0 <= i < |run.rows|
      ensures RunRowKey(run.scope, run.runId, run.rows[i].key) in added
    {
    }
  }

  // ---------- When a key is lost ----------

  /** Which keys are there after one more run, for every table. */
  lemma KeysAfterRun<C(!new)>(cur: Current<C>, run: GraphRun<C>, k: CurrentKey)
    requires UniqueKeys(run.rows)
    ensures k in Persisted(cur, run) <==>
      Has(run, k) || (k in cur && !(k.scope == run.scope && cur[k].latestRunId == run.runId))
  {
    hide UpsertAll;
    var kept := WithoutRun(cur, run.scope, run.runId);
    if i: nat :| RowAt(run, k, i) {
      UpsertAllAt(kept, run, |run.rows|, k, i);
    } else {
      UpsertAllOther(kept, run, |run.rows|, k);
    }
  }

  /** Persisting a run loses a key exactly when the row there is that run's own and the run no longer
      has it, whatever other runs have. */
  lemma KeyLostExactly<C(!new)>(cur: Current<C>, run: GraphRun<C>, k: CurrentKey)
    requires UniqueKeys(run.rows) && k in cur
    ensures k !in Persisted(cur, run) <==>
      k.scope == run.scope && cur[k].latestRunId == run.runId && !Has(run, k)
  {
    KeysAfterRun(cur, run, k);
  }

  /** After any history of runs with fixed contents and distinct times, one more run of any contents
      takes a key away exactly when it is the newest run that had the key, come back without it;
      older runs that still have the key do not keep it. */
  lemma LostExactlyWithNewest<C(!new)>(runs: seq<GraphRun<C>>, newest: GraphRun<C>, r: GraphRun<C>, k: CurrentKey)
    requires FixedRuns(runs) && DistinctTimes(runs) && UniqueKeys(r.rows)
    requires newest in runs && Has(newest, k) && forall q :: q in runs && Has(q, k) ==> q.ts <= newest.ts
    ensures k !in PersistAll(runs + [r]) <==> r.scope == newest.scope && r.runId == newest.runId && !Has(r, k)
  {
    hide Persisted;
    assert (runs + [r])[..|runs|] == runs;
    CurrentIsNewest(runs, k);
    var run, i: nat :| FromNewest(runs, k, PersistAll(runs)[k], run, i);
    assert Has(run, k) && run == newest;
    KeyLostExactly(PersistAll(runs), r, k);
  }

  /** It happens: a newer run that comes back without a key takes the key with it, although an older
      run still has it. */
  lemma ShrunkRunForgetsOlderRow<C(!new)>(scope: Scope, older: string, newer: string, key: string, c: C)
    requires older != newer
    ensures var k, a, b := CurrentKey(scope, key), GraphRun(scope, older, 1, [GraphRow(key, c)]),
      GraphRun(scope, newer, 2, [GraphRow(key, c)]);
      Has(a, k) && k in PersistAll([a, b]) && k !in PersistAll([a, b] + [GraphRun(scope, newer, 2, [])])
  {
    var k, a, b := CurrentKey(scope, key), GraphRun(scope, older, 1, [GraphRow(key, c)]),
      GraphRun(scope, newer, 2, [GraphRow(key, c)]);
    assert RowAt(a, k, 0) && RowAt(b, k, 0);
    assert Has(b, k) && b in [a, b];
    CurrentIsNewest([a, b], k);
    LostExactlyWithNewest([a, b], b, GraphRun(scope, newer, 2, []), k);
  }
}
