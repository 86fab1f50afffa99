/** The row path of an ingest (apps/worker/ingest_parquet.py): filter the scanned records, keep
    the first of each fingerprint, buffer the rows and flush them in blocks, either straight into
    the tables (the API path) or into temporary tables merged at the end (the COPY path). */
module IngestRows {
  import opened Prelude
  import opened PyText
  import opened RunState

  /** The columns derived from one record; how they are guessed from it is not modelled. */
  datatype Finding = Finding(
    checkId: string, service: string, severity: string, title: string, savings: Option<real>,
    region: string, account: string, category: string, groupKey: Option<string>, payload: string, runTs: Option<int>)

  /** One scanned record, or a scanned value that is no record. */
  datatype Record =
    | NotADict
    | Record(tenant: Option<string>, workspace: Option<string>, runId: Option<string>, fingerprint: Option<string>,
             finding: Finding)

  datatype Item = Item(fingerprint: string, finding: Finding)

  datatype PresenceRow = PresenceRow(
    run: RunKey, fingerprint: string, checkId: string, service: string, severity: string, title: string,
    savings: Option<real>, region: string, account: string, detectedAt: int)

  datatype LatestRow = LatestRow(
    run: RunKey, fingerprint: string, checkId: string, service: string, severity: string, title: string,
    savings: Option<real>, region: string, account: string, category: string, groupKey: Option<string>,
    payload: string, detectedAt: int)

  /** The primary keys of the two tables. */
  datatype PresenceKey = PresenceKey(run: RunKey, fingerprint: string)
  datatype LatestKey = LatestKey(tenant: string, workspace: string, fingerprint: string)

  type Presence = map<PresenceKey, PresenceRow>
  type Latest = map<LatestKey, LatestRow>

  // ---------- What is kept ----------

  /** The trimmed fingerprint of a record that belongs to the run, None when it is skipped. */
  function FingerprintOf(run: RunKey, rec: Record): (r: Option<string>)
    ensures r.Some? ==> rec.Record? && rec.tenant == Some(run.tenant) && r.value != ""
  {
    if rec.NotADict? then None
    else if rec.tenant != Some(run.tenant) then None
    else if rec.workspace.GetOr("") != "" && rec.workspace != Some(run.workspace) then None
    else if rec.runId.GetOr("") != "" && run.runId != "" && rec.runId != Some(run.runId) then None
    else
      var fp := Strip(rec.fingerprint.GetOr(""));
      if fp == "" then None else Some(fp)
  }

  /** A record is taken for the run exactly when its tenant is the run's, its workspace and run id
      are absent, empty or the run's, and its fingerprint is not blank. */
  lemma TakenExactly(run: RunKey, rec: Record)
    ensures FingerprintOf(run, rec).Some? <==> (
      && rec.Record? && rec.tenant == Some(run.tenant)
      && (rec.workspace == None || rec.workspace == Some("") || rec.workspace == Some(run.workspace))
      && (rec.runId == None || rec.runId == Some("") || rec.runId == Some(run.runId) || run.runId == "")
      && rec.fingerprint.Some? && exists c :: c in rec.fingerprint.value && !IsSpace(c))
    ensures FingerprintOf(run, rec).Some? ==> FingerprintOf(run, rec).value == Strip(rec.fingerprint.value)
  {
    hide Strip, IsSpace;
    if rec.Record? {
      BlankIsStripped(rec.fingerprint.GetOr(""));
    }
  }

  /** The records kept after those with the fingerprints `seen`. */
  function Kept(run: RunKey, recs: seq<Record>, seen: set<string>): seq<Item> {
    if recs == [] then []
    else match FingerprintOf(run, recs[0])
      case None => Kept(run, recs[1..], seen)
      case Some(fp) =>
        if fp in seen then Kept(run, recs[1..], seen)
        else [Item(fp, recs[0].finding)] + Kept(run, recs[1..], seen + {fp})
  }

  function PresenceOf(run: RunKey, runTs: int, x: Item): PresenceRow {
    var f := x.finding;
    PresenceRow(run, x.fingerprint, f.checkId, f.service, f.severity, f.title, f.savings, f.region, f.account,
      f.runTs.GetOr(runTs))
  }

  function LatestOf(run: RunKey, runTs: int, x: Item): LatestRow {
    var f := x.finding;
    LatestRow(run, x.fingerprint, f.checkId, f.service, f.severity, f.title, f.savings, f.region, f.account,
              f.category, f.groupKey, f.payload, f.runTs.GetOr(runTs))
  }

  function PresenceRows(run: RunKey, runTs: int, xs: seq<Item>): (r: seq<PresenceRow>)
    ensures |r| == |xs|
  {
    seq(|xs|, i requires 0 <= i < |xs| => PresenceOf(run, runTs, xs[i]))
  }

  function LatestRows(run: RunKey, runTs: int, xs: seq<Item>): (r: seq<LatestRow>)
    ensures |r| == |xs|
  {
    seq(|xs|, i requires 0 <= i < |xs| => LatestOf(run, runTs, xs[i]))
  }

  function Flatten<T>(blocks: seq<seq<T>>): seq<T> {
    if blocks == [] then [] else blocks[0] + Flatten(blocks[1..])
  }

  /** Blocks of exactly `max(1, size)` rows, the last possibly shorter. */
  ghost predicate InBlocksOf<T>(blocks: seq<seq<T>>, size: int) {
    && (forall i :: 0 <= i < |blocks| ==> 1 <= |blocks[i]| <= Max(1, size))
    && (forall i :: 0 <= i < |blocks| - 1 ==> |blocks[i]| == Max(1, size))
  }

  /** Such blocks are the slices of the rows: block `k` begins at row `k * max(1, size)`, and no slice is
      missing or empty. */
  lemma {:induction false} BlocksAreSlices<T>(blocks: seq<seq<T>>, size: int, k: nat)
    requires InBlocksOf(blocks, size) && k < |blocks|
    ensures var rows, from := Flatten(blocks), k * Max(1, size);
      && from < |rows|
      && (k == |blocks| - 1 ==> blocks[k] == rows[from..] && |rows| <= from + Max(1, size))
      && (k < |blocks| - 1 ==> from + Max(1, size) < |rows| && blocks[k] == rows[from..from + Max(1, size)])
  {
    var rest := blocks[1..];
    if k > 0 {
      BlocksAreSlices(rest, size, k - 1);
      NextMultiple(k - 1, Max(1, size));
    } else if |blocks| > 1 {
      BlocksAreSlices(rest, size, 0);
    } else {
      assert Flatten(blocks) == blocks[0] + [];
    }
  }

  lemma NextMultiple(k: nat, n: nat)
    ensures (k + 1) * n == k * n + n && 0 <= k * n
  {
  }

  lemma {:induction false} FlattenAppend<T>(blocks: seq<seq<T>>, last: seq<T>)
    ensures Flatten(blocks + [last]) == Flatten(blocks) + last
  {
    if blocks == [] {
      assert [] + [last] == [last] && [last][1..] == [];
    } else {
      assert (blocks + [last])[1..] == blocks[1..] + [last];
      FlattenAppend(blocks[1..], last);
    }
  }

  /** The fingerprints known after `recs`. */
  function SeenAfter(run: RunKey, recs: seq<Record>, seen: set<string>): set<string> {
    if recs == [] then seen
    else match FingerprintOf(run, recs[0])
      case None => SeenAfter(run, recs[1..], seen)
      case Some(fp) => SeenAfter(run, recs[1..], seen + {fp})
  }

  lemma {:induction false} KeptAppend(run: RunKey, recs: seq<Record>, more: seq<Record>, seen: set<string>)
    ensures Kept(run, recs + more, seen) == Kept(run, recs, seen) + Kept(run, more, SeenAfter(run, recs, seen))
    ensures SeenAfter(run, recs + more, seen) == SeenAfter(run, more, SeenAfter(run, recs, seen))
  {
    hide FingerprintOf;
    if recs == [] {
      assert recs + more == more;
    } else {
      assert (recs + more)[1..] == recs[1..] + more;
      match FingerprintOf(run, recs[0])
      case None =>
        KeptAppend(run, recs[1..], more, seen);
      case Some(fp) =>
        if fp in seen {
          assert seen + {fp} == seen;
        }
        KeptAppend(run, recs[1..], more, seen + {fp});
    }
  }

  lemma KeptOne(run: RunKey, rec: Record, seen: set<string>)
    ensures Kept(run, [rec], seen) ==
      match FingerprintOf(run, rec)
      case None => []
      case Some(fp) => if fp in seen then [] else [Item(fp, rec.finding)]
    ensures SeenAfter(run, [rec], seen) == match FingerprintOf(run, rec) case None => seen case Some(fp) => seen + {fp}
  {
    hide FingerprintOf;
    assert [rec][1..] == [];
  }

  // ---------- Kept is "the first record of each fingerprint" ----------

  /** Record `i` is the first of the run that carries its fingerprint. */
  ghost predicate FirstOfItsKind(run: RunKey, recs: seq<Record>, i: nat)
    requires i < |recs|
  {
    var fp := FingerprintOf(run, recs[i]);
    fp.Some? && forall j :: 0 <= j < i ==> FingerprintOf(run, recs[j]) != fp
  }

  ghost predicate Unique(xs: seq<Item>) {
    forall i, j :: 0 <= i < j < |xs| ==> xs[i].fingerprint != xs[j].fingerprint
  }

  lemma {:induction false} KeptFrom(run: RunKey, recs: seq<Record>, seen: set<string>)
    ensures Unique(Kept(run, recs, seen))
    ensures forall x :: x in Kept(run, recs, seen) ==> x.fingerprint !in seen
  {
    hide FingerprintOf;
    if recs != [] {
      match FingerprintOf(run, recs[0])
      case None => KeptFrom(run, recs[1..], seen);
      case Some(fp) =>
        if fp in seen {
          KeptFrom(run, recs[1..], seen);
        } else {
          KeptFrom(run, recs[1..], seen + {fp});
        }
    }
  }

  lemma {:induction false} KeptExactly(run: RunKey, recs: seq<Record>, x: Item)
    ensures x in Kept(run, recs, {}) <==> exists i ::
      0 <= i < |recs| && FirstOfItsKind(run, recs, i) && x == Item(FingerprintOf(run, recs[i]).value, recs[i].finding)
    ensures forall fp :: fp in SeenAfter(run, recs, {}) <==>
      exists i :: 0 <= i < |recs| && FingerprintOf(run, recs[i]) == Some(fp)
  {
    hide FingerprintOf;
    if recs != [] {
      var n := |recs| - 1;
      var init, rec := recs[..n], recs[n];
      assert recs == init + [rec];
      KeptExactly(run, init, x);
      KeptAppend(run, init, [rec], {});
      KeptOne(run, rec, SeenAfter(run, init, {}));
      assert forall i :: 0 <= i < n ==> FirstOfItsKind(run, recs, i) == FirstOfItsKind(run, init, i);
    }
  }

  // ---------- The streaming loop ----------

  /** One row buffer of the source with its flush closure and running total; `flushed` records
      what each `execute_many` or COPY was given. */
  class RowBuffer<T> {
    var rows: seq<T>
    var total: nat
    var flushed: seq<seq<T>>

    /** `added` are all rows ever appended; all blocks so far are full. */
    ghost predicate Buffers(added: seq<T>, size: int)
      reads this
    {
      && Flatten(flushed) + rows == added
      && total == |Flatten(flushed)|
      && |rows| <= Max(1, size)
      && forall i :: 0 <= i < |flushed| ==> |flushed[i]| == Max(1, size)
    }

    ghost predicate Holds(added: seq<T>, size: int)
      reads this
    {
      Buffers(added, size) && |rows| < Max(1, size)
    }

    constructor (ghost size: int)
      ensures Holds([], size)
    {
      rows, total, flushed := [], 0, [];
    }

    method Flush(ghost added: seq<T>, ghost size: int)
      requires Buffers(added, size)
      modifies this
      ensures Flatten(flushed) == added && InBlocksOf(flushed, size) && total == |added|
      ensures old(|rows|) in {0, Max(1, size)} ==> Holds(added, size)
    {
      if rows == [] {
        assert Flatten(flushed) + rows == Flatten(flushed);
        return;
      }
      FlattenAppend(flushed, rows);
      flushed := flushed + [rows];
      total := total + |rows|;
      rows := [];
      assert Flatten(flushed) + rows == Flatten(flushed);
    }

    method Append(row: T, size: int, ghost added: seq<T>)
      requires Holds(added, size)
      modifies this
      ensures Holds(added + [row], size)
    {
      rows := rows + [row];
      assert Flatten(flushed) + rows == added + [row];
      if |rows| >= size {
        Flush(added + [row], size);
      }
    }
  }

  lemma RowsAppend(run: RunKey, runTs: int, xs: seq<Item>, x: Item)
    ensures PresenceRows(run, runTs, xs + [x]) == PresenceRows(run, runTs, xs) + [PresenceOf(run, runTs, x)]
    ensures LatestRows(run, runTs, xs + [x]) == LatestRows(run, runTs, xs) + [LatestOf(run, runTs, x)]
  {
    hide PresenceOf, LatestOf;
  }

  /** Whatever the batches and the batch size, the blocks flushed are the kept records, in order,
      in blocks of the batch size, and the totals count them. */
  method StreamRows(batches: seq<seq<Record>>, run: RunKey, runTs: int, batchSize: int)
    returns (presence: seq<seq<PresenceRow>>, latest: seq<seq<LatestRow>>, totalPresence: nat, totalLatest: nat)
    ensures var xs := Kept(run, Flatten(batches), {});
      && Flatten(presence) == PresenceRows(run, runTs, xs) && InBlocksOf(presence, batchSize) && totalPresence == |xs|
      && Flatten(latest) == LatestRows(run, runTs, xs) && InBlocksOf(latest, batchSize) && totalLatest == |xs|
  {
    hide Kept, SeenAfter, FingerprintOf, PresenceOf, LatestOf, PresenceRows, LatestRows, Flatten, InBlocksOf,
      RowBuffer.Buffers;
    var presenceRows := new RowBuffer<PresenceRow>(batchSize);
    var latestRows := new RowBuffer<LatestRow>(batchSize);
    var seen: set<string> := {};
    ghost var done: seq<Record>, xs: seq<Item> := [], [];
    StreamStart(run, runTs);
    for b := 0 to |batches|
      invariant done == Flatten(batches[..b])
      invariant xs == Kept(run, done, {}) && seen == SeenAfter(run, done, {})
      invariant presenceRows.Holds(PresenceRows(run, runTs, xs), batchSize)
      invariant latestRows.Holds(LatestRows(run, runTs, xs), batchSize)
      invariant fresh(presenceRows) && fresh(latestRows)
    {
      var rows := batches[b];
      ghost var before := done;
      assert before + rows[..0] == before;
      for i := 0 to |rows|
        invariant done == before + rows[..i]
        invariant xs == Kept(run, done, {}) && seen == SeenAfter(run, done, {})
        invariant presenceRows.Holds(PresenceRows(run, runTs, xs), batchSize)
        invariant latestRows.Holds(LatestRows(run, runTs, xs), batchSize)
        invariant fresh(presenceRows) && fresh(latestRows)
      {
        var rec := rows[i];
        KeptAppend(run, done, [rec], {});
        KeptOne(run, rec, seen);
        assert before + rows[..i + 1] == done + [rec];
        done := done + [rec];
        var fp := FingerprintOf(run, rec);
        if fp.None? || fp.value in seen {
          assert xs + [] == xs;
          assert fp.Some? ==> seen + {fp.value} == seen;
          continue;
        }
        seen := seen + {fp.value};
        var x := Item(fp.value, rec.finding);
        RowsAppend(run, runTs, xs, x);
        presenceRows.Append(PresenceOf(run, runTs, x), batchSize, PresenceRows(run, runTs, xs));
        latestRows.Append(LatestOf(run, runTs, x), batchSize, LatestRows(run, runTs, xs));
        xs := xs + [x];
      }
      assert rows[..|rows|] == rows;
      assert batches[..b + 1] == batches[..b] + [rows];
      FlattenAppend(batches[..b], rows);
    }
    assert batches[..|batches|] == batches;
    presenceRows.Flush(PresenceRows(run, runTs, xs), batchSize);
    latestRows.Flush(LatestRows(run, runTs, xs), batchSize);
    presence, latest, totalPresence, totalLatest :=
      presenceRows.flushed, latestRows.flushed, presenceRows.total, latestRows.total;
  }

  lemma StreamStart(run: RunKey, runTs: int)
    ensures Kept(run, [], {}) == [] && SeenAfter(run, [], {}) == {}
    ensures Flatten<seq<Record>>([]) == [] && Flatten<PresenceRow>([]) == [] && Flatten<LatestRow>([]) == []
    ensures Flatten<Record>([]) == []
    ensures PresenceRows(run, runTs, []) == [] && LatestRows(run, runTs, []) == []
  {
  }

  // ---------- Tables ----------

  function PresenceKeyOf(row: PresenceRow): PresenceKey {
    PresenceKey(row.run, row.fingerprint)
  }

  function LatestKeyOf(row: LatestRow): LatestKey {
    LatestKey(row.run.tenant, row.run.workspace, row.fingerprint)
  }

  predicate DistinctKeys<K(==, !new), V(!new)>(rows: seq<V>, key: V -> K) {
    forall i, j :: 0 <= i < j < |rows| ==> key(rows[i]) != key(rows[j])
  }

  /** The rows as a table of their own. */
  function TableOf<K(==, !new), V(!new)>(rows: seq<V>, key: V -> K): map<K, V>
    requires DistinctKeys(rows, key)
  {
    map i | 0 <= i < |rows| :: key(rows[i]) := rows[i]
  }

  /** One row after the other, each replacing the row under its key. */
  function PutAll<K, V>(m: map<K, V>, rows: seq<V>, key: V -> K): map<K, V> {
    if rows == [] then m
    else PutAll(m, rows[..|rows| - 1], key)[key(rows[|rows| - 1]) := rows[|rows| - 1]]
  }

  lemma PutAllSnoc<K, V>(m: map<K, V>, rows: seq<V>, n: nat, key: V -> K)
    requires n < |rows|
    ensures PutAll(m, rows[..n + 1], key) == PutAll(m, rows[..n], key)[key(rows[n]) := rows[n]]
  {
    assert rows[..n + 1][..n] == rows[..n];
  }

  lemma TableFacts<K(!new), V(!new)>(rows: seq<V>, key: V -> K)
    requires DistinctKeys(rows, key)
    ensures forall i :: 0 <= i < |rows| ==>
      key(rows[i]) in TableOf(rows, key) && TableOf(rows, key)[key(rows[i])] == rows[i]
    ensures forall k :: k in TableOf(rows, key) ==> exists i :: 0 <= i < |rows| && key(rows[i]) == k
  {
  }

  lemma TableOfSnoc<K(!new), V(!new)>(rows: seq<V>, n: nat, key: V -> K)
    requires n < |rows| && DistinctKeys(rows, key)
    ensures TableOf(rows[..n + 1], key) == TableOf(rows[..n], key)[key(rows[n]) := rows[n]]
  {
    hide TableOf;
    var t, u := TableOf(rows[..n], key), TableOf(rows[..n + 1], key);
    TableFacts(rows[..n], key);
    TableFacts(rows[..n + 1], key);
    assert forall i :: 0 <= i < n ==> rows[..n][i] == rows[..n + 1][i];
    assert rows[..n + 1][n] == rows[n];
  }

  /** With distinct keys, row by row and all at once are the same. */
  lemma {:induction false} PutAllIsMerge<K(!new), V(!new)>(m: map<K, V>, rows: seq<V>, n: nat, key: V -> K)
    requires n <= |rows| && DistinctKeys(rows, key)
    ensures PutAll(m, rows[..n], key) == m + TableOf(rows[..n], key)
  {
    hide TableOf;
    if n == 0 {
      assert TableOf(rows[..0], key) == map[] by { TableOfNothing(rows, key); }
    } else {
      PutAllIsMerge(m, rows, n - 1, key);
      PutAllSnoc(m, rows, n - 1, key);
      TableOfSnoc(rows, n - 1, key);
    }
  }

  lemma TableOfNothing<K(!new), V(!new)>(rows: seq<V>, key: V -> K)
    ensures TableOf(rows[..0], key) == map[]
  {
  }

  lemma {:induction false} PutAllAppend<K, V>(m: map<K, V>, rows: seq<V>, more: seq<V>, key: V -> K)
    ensures PutAll(m, rows + more, key) == PutAll(PutAll(m, rows, key), more, key)
  {
    if more == [] {
      assert rows + more == rows;
    } else {
      var n := |more| - 1;
      PutAllAppend(m, rows, more[..n], key);
      assert (rows + more)[..|rows| + n] == rows + more[..n];
      assert (rows + more)[|rows| + n] == more[n];
    }
  }

  function WithoutRun(presence: Presence, run: RunKey): Presence {
    map k | k in presence && k.run != run :: presence[k]
  }

  lemma KeptRowsHaveDistinctKeys(run: RunKey, runTs: int, xs: seq<Item>)
    requires Unique(xs)
    ensures DistinctKeys(PresenceRows(run, runTs, xs), PresenceKeyOf)
    ensures DistinctKeys(LatestRows(run, runTs, xs), LatestKeyOf)
  {
  }

  /** The kept records as tables. */
  ghost function PresenceTable(recs: seq<Record>, run: RunKey, runTs: int): Presence {
    KeptFrom(run, recs, {});
    KeptRowsHaveDistinctKeys(run, runTs, Kept(run, recs, {}));
    TableOf(PresenceRows(run, runTs, Kept(run, recs, {})), PresenceKeyOf)
  }

  ghost function LatestTable(recs: seq<Record>, run: RunKey, runTs: int): Latest {
    KeptFrom(run, recs, {});
    KeptRowsHaveDistinctKeys(run, runTs, Kept(run, recs, {}));
    TableOf(LatestRows(run, runTs, Kept(run, recs, {})), LatestKeyOf)
  }

  /** What an ingest of the records makes of the two tables. */
  ghost function IngestedPresence(presence: Presence, recs: seq<Record>, run: RunKey, runTs: int): Presence {
    WithoutRun(presence, run) + PresenceTable(recs, run, runTs)
  }

  ghost function IngestedLatest(latest: Latest, recs: seq<Record>, run: RunKey, runTs: int): Latest {
    latest + LatestTable(recs, run, runTs)
  }

  class FindingTables {
    var presence: Presence
    var latest: Latest

    constructor ()
      ensures presence == map[] && latest == map[]
    {
      presence, latest := map[], map[];
    }

    /** `execute_many` of a plain INSERT: the primary key refuses a second row under one key. */
    method InsertPresence(rows: seq<PresenceRow>) returns (r: Result<()>)
      modifies this`presence
      ensures r.Ok? <==>
        DistinctKeys(rows, PresenceKeyOf) && forall i :: 0 <= i < |rows| ==> PresenceKeyOf(rows[i]) !in old(presence)
      ensures r.Ok? ==> presence == PutAll(old(presence), rows, PresenceKeyOf)
      ensures r.Raised? ==> exists n ::
        && 0 <= n < |rows| && presence == PutAll(old(presence), rows[..n], PresenceKeyOf)
          && PresenceKeyOf(rows[n]) in presence
    {
      hide PutAll, PresenceKeyOf;
      PutAllNothing(presence, rows, PresenceKeyOf);
      for n := 0 to |rows|
        invariant presence == PutAll(old(presence), rows[..n], PresenceKeyOf)
        invariant forall k :: k in presence <==>
          k in old(presence) || exists i :: 0 <= i < n && PresenceKeyOf(rows[i]) == k
        invariant forall i, j :: 0 <= i < j < n ==> PresenceKeyOf(rows[i]) != PresenceKeyOf(rows[j])
        invariant forall i :: 0 <= i < n ==> PresenceKeyOf(rows[i]) !in old(presence)
      {
        var row := rows[n];
        PutAllSnoc(old(presence), rows, n, PresenceKeyOf);
        if PresenceKeyOf(row) in presence {
          return Raised("duplicate key value");
        }
        presence := presence[PresenceKeyOf(row) := row];
      }
      assert rows[..|rows|] == rows;
      r := Ok(());
    }

    /** `execute_many` of the upsert. */
    method UpsertLatest(rows: seq<LatestRow>)
      modifies this`latest
      ensures latest == PutAll(old(latest), rows, LatestKeyOf)
    {
      hide PutAll, LatestKeyOf;
      PutAllNothing(latest, rows, LatestKeyOf);
      for n := 0 to |rows|
        invariant latest == PutAll(old(latest), rows[..n], LatestKeyOf)
      {
        PutAllSnoc(old(latest), rows, n, LatestKeyOf);
        latest := latest[LatestKeyOf(rows[n]) := rows[n]];
      }
      assert rows[..|rows|] == rows;
    }

    /** `INSERT ... SELECT` from the temporary table, refused on any repeated key. */
    method InsertPresenceFrom(tmp: seq<PresenceRow>) returns (r: Result<()>)
      modifies this`presence
      ensures r.Ok? <==> DistinctKeys(tmp, PresenceKeyOf) && TableOf(tmp, PresenceKeyOf).Keys !! old(presence).Keys
      ensures r.Ok? ==> presence == old(presence) + TableOf(tmp, PresenceKeyOf)
      ensures r.Raised? ==> presence == old(presence)
    {
      hide DistinctKeys, TableOf;
      if !DistinctKeys(tmp, PresenceKeyOf) {
        return Raised("duplicate key value");
      }
      var added := TableOf(tmp, PresenceKeyOf);
      if !(added.Keys !! presence.Keys) {
        return Raised("duplicate key value");
      }
      presence := presence + added;
      r := Ok(());
    }

    /** `INSERT ... SELECT ... ON CONFLICT DO UPDATE`, which may not touch one key twice. */
    method UpsertLatestFrom(tmp: seq<LatestRow>) returns (r: Result<()>)
      modifies this`latest
      ensures r.Ok? <==> DistinctKeys(tmp, LatestKeyOf)
      ensures latest == if r.Ok? then old(latest) + TableOf(tmp, LatestKeyOf) else old(latest)
    {
      hide DistinctKeys, TableOf;
      if !DistinctKeys(tmp, LatestKeyOf) {
        return Raised("ON CONFLICT DO UPDATE command cannot affect row a second time");
      }
      latest := latest + TableOf(tmp, LatestKeyOf);
      r := Ok(());
    }

    method DeleteRunPresence(run: RunKey)
      modifies this`presence
      ensures presence == WithoutRun(old(presence), run)
    {
      presence := map k | k in presence && k.run != run :: presence[k];
    }

    /** The API path: every block goes straight into the tables. */
    method IngestWithApi(batches: seq<seq<Record>>, run: RunKey, runTs: int, batchSize: int)
      returns (r: Result<(nat, nat)>)
      modifies this
      ensures presence == IngestedPresence(old(presence), Flatten(batches), run, runTs)
      ensures latest == IngestedLatest(old(latest), Flatten(batches), run, runTs)
      ensures r == Ok((|Kept(run, Flatten(batches), {})|, |Kept(run, Flatten(batches), {})|))
    {
      DeleteRunPresence(run);
      var presenceBlocks, latestBlocks, totalPresence, totalLatest := StreamRows(batches, run, runTs, batchSize);
      ghost var recs := Flatten(batches);
      hide Kept, PutAll, PresenceOf, LatestOf, TableOf, DistinctKeys, WithoutRun;
      KeptFrom(run, recs, {});
      KeptRowsHaveDistinctKeys(run, runTs, Kept(run, recs, {}));
      ghost var ps, ls := PresenceRows(run, runTs, Kept(run, recs, {})), LatestRows(run, runTs, Kept(run, recs, {}));
      KeptRowsAreNew(presence, old(presence), run, runTs, Kept(run, recs, {}));
      r := InsertBlocks(presenceBlocks, (totalPresence, totalLatest));
      PutAllIsMerge(WithoutRun(old(presence), run), ps, |ps|, PresenceKeyOf);
      assert ps[..|ps|] == ps;
      UpsertBlocks(latestBlocks);
      PutAllIsMerge(old(latest), ls, |ls|, LatestKeyOf);
      assert ls[..|ls|] == ls;
    }

    method InsertBlocks(blocks: seq<seq<PresenceRow>>, totals: (nat, nat)) returns (r: Result<(nat, nat)>)
      requires DistinctKeys(Flatten(blocks), PresenceKeyOf)
      requires forall i :: 0 <= i < |Flatten(blocks)| ==> PresenceKeyOf(Flatten(blocks)[i]) !in presence
      modifies this`presence
      ensures r == Ok(totals) && presence == PutAll(old(presence), Flatten(blocks), PresenceKeyOf)
    {
      hide PutAll, PresenceKeyOf;
      ghost var rows := Flatten(blocks);
      PutAllNothing(presence, rows, PresenceKeyOf);
      assert rows[..0] == [];
      for n := 0 to |blocks|
        invariant presence == PutAll(old(presence), Flatten(blocks[..n]), PresenceKeyOf)
      {
        BlockAt(blocks, n);
        BlockFits(old(presence), rows, Flatten(blocks[..n]), blocks[n], PresenceKeyOf);
        var inserted := InsertPresence(blocks[n]);
        assert inserted.Ok?;
        PutAllAppend(old(presence), Flatten(blocks[..n]), blocks[n], PresenceKeyOf);
      }
      assert blocks[..|blocks|] == blocks;
      r := Ok(totals);
    }

    method UpsertBlocks(blocks: seq<seq<LatestRow>>)
      modifies this`latest
      ensures latest == PutAll(old(latest), Flatten(blocks), LatestKeyOf)
    {
      hide PutAll, LatestKeyOf;
      PutAllNothing(latest, Flatten(blocks), LatestKeyOf);
      assert Flatten(blocks)[..0] == [];
      for n := 0 to |blocks|
        invariant latest == PutAll(old(latest), Flatten(blocks[..n]), LatestKeyOf)
      {
        BlockAt(blocks, n);
        PutAllAppend(old(latest), Flatten(blocks[..n]), blocks[n], LatestKeyOf);
        UpsertLatest(blocks[n]);
      }
      assert blocks[..|blocks|] == blocks;
    }

    /** The COPY path: the blocks are gathered in temporary tables and merged at the end. */
    method IngestWithCopy(batches: seq<seq<Record>>, run: RunKey, runTs: int, batchSize: int)
      returns (r: Result<(nat, nat)>)
      modifies this
      ensures presence == IngestedPresence(old(presence), Flatten(batches), run, runTs)
      ensures latest == IngestedLatest(old(latest), Flatten(batches), run, runTs)
      ensures r == Ok((|Kept(run, Flatten(batches), {})|, |Kept(run, Flatten(batches), {})|))
    {
      DeleteRunPresence(run);
      var presenceBlocks, latestBlocks, totalPresence, totalLatest := StreamRows(batches, run, runTs, batchSize);
      ghost var recs := Flatten(batches);
      hide Kept, PresenceOf, LatestOf, TableOf, DistinctKeys, WithoutRun;
      KeptFrom(run, recs, {});
      KeptRowsHaveDistinctKeys(run, runTs, Kept(run, recs, {}));
      KeptRowsAreNew(presence, old(presence), run, runTs, Kept(run, recs, {}));
      TableFacts(Flatten(presenceBlocks), PresenceKeyOf);
      var inserted := InsertPresenceFrom(Flatten(presenceBlocks));
      var upserted := UpsertLatestFrom(Flatten(latestBlocks));
      r := Ok((totalPresence, totalLatest));
    }
  }

  lemma KeptRowsAreNew(presence: Presence, before: Presence, run: RunKey, runTs: int, xs: seq<Item>)
    requires presence == WithoutRun(before, run)
    ensures var rows := PresenceRows(run, runTs, xs);
      forall i :: 0 <= i < |rows| ==> PresenceKeyOf(rows[i]) !in presence
  {
  }

  lemma {:induction false} PutAllKeys<K(!new), V>(m: map<K, V>, rows: seq<V>, key: V -> K)
    ensures forall k :: k in PutAll(m, rows, key) <==> k in m || exists i :: 0 <= i < |rows| && key(rows[i]) == k
  {
    if rows != [] {
      PutAllKeys(m, rows[..|rows| - 1], key);
    }
  }

  /** The next block of rows with distinct new keys meets no key put before it. */
  lemma BlockFits<K(!new), V(!new)>(m: map<K, V>, rows: seq<V>, before: seq<V>, block: seq<V>, key: V -> K)
    requires DistinctKeys(rows, key) && before + block <= rows
    requires forall i :: 0 <= i < |rows| ==> key(rows[i]) !in m
    ensures DistinctKeys(block, key)
    ensures forall i :: 0 <= i < |block| ==> key(block[i]) !in PutAll(m, before, key)
  {
    hide PutAll;
    PutAllKeys(m, before, key);
    assert forall i :: 0 <= i < |before| ==> before[i] == rows[i];
    assert forall i :: 0 <= i < |block| ==> block[i] == rows[|before| + i];
  }

  lemma {:induction false} BlockAt<T>(blocks: seq<seq<T>>, n: nat)
    requires n < |blocks|
    ensures Flatten(blocks[..n + 1]) == Flatten(blocks[..n]) + blocks[n]
    ensures Flatten(blocks[..n]) + blocks[n] <= Flatten(blocks)
  {
    assert blocks[..n + 1] == blocks[..n] + [blocks[n]];
    FlattenAppend(blocks[..n], blocks[n]);
    FlattenPrefix(blocks, n + 1);
  }

  lemma {:induction false} FlattenPrefix<T>(blocks: seq<seq<T>>, n: nat)
    requires n <= |blocks|
    ensures Flatten(blocks[..n]) <= Flatten(blocks)
    decreases |blocks| - n
  {
    if n == |blocks| {
      assert blocks[..n] == blocks;
    } else {
      assert blocks[..n + 1] == blocks[..n] + [blocks[n]];
      FlattenAppend(blocks[..n], blocks[n]);
      FlattenPrefix(blocks, n + 1);
    }
  }

  lemma PutAllNothing<K, V>(m: map<K, V>, rows: seq<V>, key: V -> K)
    ensures PutAll(m, rows[..0], key) == m
  {
  }
}
