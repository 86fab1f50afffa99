/** The partitioned batch writer (pipeline/writer_parquet.py): check money, cast, buffer, group by
    partition and write files of bounded size. The files written are a sequence of row groups; whether a
    file write fails is decided by the caller of each method. */
module ParquetWriter {
  import opened Prelude
  import opened StorageCast

  /** An ISO date, never empty. */
  type Day = d: string | d != "" witness "1970-01-01"

  /** A cast record with the partition it belongs to. */
  datatype Row = Row(tenant: string, runDate: Day, fields: seq<Entry>)

  /** What casting one wire record gives: a row, an error of the kinds the writer handles, or an
      exception it lets through. */
  datatype Wire =
    | Castable(row: Row)
    | CastFails(message: string)
    | Escapes(message: string)

  datatype Partition = Partition(tenant: string, runDate: Day)

  datatype File = File(partition: Partition, rows: seq<Row>)

  datatype Config = Config(maxRowsPerFile: int, maxBufferedRows: int, dropInvalidOnCast: bool, maxErrorSamples: int)

  datatype State = State(
    buffer: seq<Row>, received: nat, written: nat, droppedCastErrors: nat, castErrors: seq<string>, files: seq<File>)

  function PartitionOf(r: Row): Partition {
    Partition(r.tenant, r.runDate)
  }

  // ---------- From the wire record to the row ----------

  /** What the cast of a writer depends on: the schema, the partition fields, and how a day and an
      exception read as text. */
  datatype Casting = Casting(
    py: Python, schema: seq<Field>, tenantField: string, dateField: string, isoDate: int -> Day,
    complaint: seq<Entry> -> string)

  const ESTIMATED := ["monthly_savings", "monthly_cost", "one_time_savings"]
  const ACTUAL := ["cost_7d", "cost_30d", "cost_mtd", "cost_prev_month", "savings_7d", "savings_30d"]

  /** Money is a number or None; a boolean is no number. */
  predicate IsMoney(v: Value) {
    v.VNone? || v.VInt? || v.VFloat? || v.VDecimal?
  }

  /** The money fields of one part of the record; a part that is no mapping is not looked at. */
  predicate PartIsNumeric(part: Value, keys: seq<string>) {
    part.VDict? ==> forall k :: k in keys ==> IsMoney(Lookup(part.entries, VStr(k)))
  }

  predicate MoneyIsNumeric(record: seq<Entry>) {
    && PartIsNumeric(Lookup(record, VStr("estimated")), ESTIMATED)
    && PartIsNumeric(Lookup(record, VStr("actual")), ACTUAL)
  }

  /** The day of `run_ts` if that is a time, else today. */
  function RunDate(c: Casting, storage: seq<Entry>, today: Day): Day {
    match Lookup(storage, VStr("run_ts"))
    case VDatetime(wall, _) => c.isoDate(wall / SECONDS_PER_DAY)
    case _ => today
  }

  function SafeText(py: Python, v: Value): string {
    if v.VNone? then "" else if v.VStr? then v.s else py.str(v)
  }

  /** The storage record with its derived date column. */
  function RowFrom(c: Casting, storage: seq<Entry>, today: Day): Row {
    var runDate := RunDate(c, storage, today);
    var fields := Put(storage, VStr(c.dateField), VStr(runDate));
    Row(SafeText(c.py, Lookup(fields, VStr(c.tenantField))), runDate, fields)
  }

  function WireOf(c: Casting, record: seq<Entry>, today: Day): Wire {
    if !MoneyIsNumeric(record) then Escapes(c.complaint(record))
    else match CastForStorage(c.py, record, c.schema)
      case Done(storage) => Castable(RowFrom(c, storage, today))
      case CastError => CastFails(c.complaint(record))
      case Overflow => Escapes(c.complaint(record))
  }

  lemma WireIs(c: Casting, record: seq<Entry>, today: Day)
    ensures var wire, storage := WireOf(c, record, today), CastForStorage(c.py, record, c.schema);
      && (!MoneyIsNumeric(record) || storage.Overflow? ==> wire == Escapes(c.complaint(record)))
      && (MoneyIsNumeric(record) && storage.CastError? ==> wire == CastFails(c.complaint(record)))
      && (MoneyIsNumeric(record) && storage.Done? ==> wire == Castable(RowFrom(c, storage.value, today)))
  {
    hide MoneyIsNumeric, CastForStorage, RowFrom;
  }

  /** The derived date column is the date of the partition. */
  lemma DateColumnIsPartition(c: Casting, storage: seq<Entry>, today: Day)
    ensures var row := RowFrom(c, storage, today); Lookup(row.fields, VStr(c.dateField)) == VStr(row.runDate)
    ensures c.tenantField != c.dateField ==>
      RowFrom(c, storage, today).tenant == SafeText(c.py, Lookup(storage, VStr(c.tenantField)))
  {
    var runDate := RunDate(c, storage, today);
    LookupPut(storage, VStr(c.dateField), VStr(runDate), VStr(c.dateField));
    LookupPut(storage, VStr(c.dateField), VStr(runDate), VStr(c.tenantField));
  }

  // ---------- What a flush writes ----------

  /** The rows of one partition, in order. */
  function RowsOf(rows: seq<Row>, p: Partition): seq<Row> {
    if rows == [] then []
    else RowsOf(rows[..|rows| - 1], p) + if PartitionOf(rows[|rows| - 1]) == p then [rows[|rows| - 1]] else []
  }

  /** The partitions in the order in which they first occur. */
  function PartitionsOf(rows: seq<Row>): seq<Partition> {
    if rows == [] then []
    else
      var before, p := PartitionsOf(rows[..|rows| - 1]), PartitionOf(rows[|rows| - 1]);
      if p in before then before else before + [p]
  }

  /** The rows of one partition cut into files of at most `max` rows. */
  function FilesOf(p: Partition, rows: seq<Row>, max: int): seq<File>
    requires max >= 1
    decreases |rows|
  {
    if rows == [] then []
    else
      var n := Min(max, |rows|);
      [File(p, rows[..n])] + FilesOf(p, rows[n..], max)
  }

  function FilesForAll(ps: seq<Partition>, rows: seq<Row>, max: int): seq<File>
    requires max >= 1
  {
    if ps == [] then []
    else FilesForAll(ps[..|ps| - 1], rows, max) + FilesOf(ps[|ps| - 1], RowsOf(rows, ps[|ps| - 1]), max)
  }

  function FlushedFiles(rows: seq<Row>, max: int): seq<File>
    requires max >= 1
  {
    FilesForAll(PartitionsOf(rows), rows, max)
  }

  function CountRows(files: seq<File>): nat {
    if files == [] then 0 else CountRows(files[..|files| - 1]) + |files[|files| - 1].rows|
  }

  /** How many of `n` file writes come to pass when number `fault` fails. */
  function Written(n: nat, fault: Option<nat>): nat {
    if fault.Some? && fault.value < n then fault.value else n
  }

  function AfterFlush(s: State, cfg: Config, fault: Option<nat>): State
    requires cfg.maxRowsPerFile >= 1
  {
    var files := FlushedFiles(s.buffer, cfg.maxRowsPerFile);
    var done := files[..Written(|files|, fault)];
    s.(buffer := [], files := s.files + done, written := s.written + CountRows(done))
  }

  predicate FlushFails(s: State, cfg: Config, fault: Option<nat>)
    requires cfg.maxRowsPerFile >= 1
  {
    fault.Some? && fault.value < |FlushedFiles(s.buffer, cfg.maxRowsPerFile)|
  }

  function Buffered(s: State, wire: Wire): State
    requires wire.Castable?
  {
    s.(received := s.received + 1, buffer := s.buffer + [wire.row])
  }

  function AfterAppend(s: State, cfg: Config, wire: Wire, fault: Option<nat>): State
    requires cfg.maxRowsPerFile >= 1
  {
    match wire
    case Escapes(_) => s.(received := s.received + 1)
    case CastFails(message) =>
      s.(received := s.received + 1, droppedCastErrors := s.droppedCastErrors + 1,
         castErrors := if |s.castErrors| < cfg.maxErrorSamples then s.castErrors + [message] else s.castErrors)
    case Castable(_) =>
      var b := Buffered(s, wire);
      if |b.buffer| >= cfg.maxBufferedRows then AfterFlush(b, cfg, fault) else b
  }

  // ---------- The writer ----------

  class FindingsParquetWriter {
    const cfg: Config
    var buffer: seq<Row>
    var received: nat
    var written: nat
    var droppedCastErrors: nat
    var castErrors: seq<string>
    var files: seq<File>

    function View(): State
      reads this
    {
      State(buffer, received, written, droppedCastErrors, castErrors, files)
    }

    constructor (cfg: Config)
      ensures this.cfg == cfg && View() == State([], 0, 0, 0, [], [])
    {
      this.cfg := cfg;
      buffer, received, written, droppedCastErrors, castErrors, files := [], 0, 0, 0, [], [];
    }

    method Append(c: Casting, record: seq<Entry>, today: Day, fault: Option<nat>) returns (r: Result<()>)
      requires cfg.maxRowsPerFile >= 1
      modifies this
      ensures View() == AfterAppend(old(View()), cfg, WireOf(c, record, today), fault)
      ensures var wire := WireOf(c, record, today);
        r.Raised? <==>
          || wire.Escapes? || (wire.CastFails? && !cfg.dropInvalidOnCast)
          || (wire.Castable? && |old(buffer)| + 1 >= cfg.maxBufferedRows
              && FlushFails(Buffered(old(View()), wire), cfg, fault))
    {
      hide MoneyIsNumeric, CastForStorage, RowFrom, WireOf, AfterFlush, FlushFails;
      WireIs(c, record, today);
      received := received + 1;
      if !MoneyIsNumeric(record) {
        return Raised(c.complaint(record));
      }
      var storage := CastForStorage(c.py, record, c.schema);
      if storage.Overflow? {
        return Raised(c.complaint(record));
      }
      if storage.CastError? {
        var message := c.complaint(record);
        if |castErrors| < cfg.maxErrorSamples {
          castErrors := castErrors + [message];
        }
        droppedCastErrors := droppedCastErrors + 1;
        return if cfg.dropInvalidOnCast then Ok(()) else Raised("Storage cast failed: " + message);
      }
      buffer := buffer + [RowFrom(c, storage.value, today)];
      r := Ok(());
      if |buffer| >= cfg.maxBufferedRows {
        r := Flush(fault);
      }
    }

    method Flush(fault: Option<nat>) returns (r: Result<()>)
      requires cfg.maxRowsPerFile >= 1
      modifies this`buffer, this`files, this`written
      ensures View() == AfterFlush(old(View()), cfg, fault)
      ensures r.Raised? <==> FlushFails(old(View()), cfg, fault)
    {
      hide RowsOf, FilesOf, FilesForAll, CountRows, PartitionsOf;
      if buffer == [] {
        Nothing(buffer, cfg.maxRowsPerFile);
        assert buffer[..0] == buffer;
        return Ok(());
      }
      var rows := buffer;
      var order, groups := Group(rows);
      buffer := [];
      ghost var max, all := cfg.maxRowsPerFile, FlushedFiles(rows, cfg.maxRowsPerFile);
      var writes := 0;
      NoFilesYet(order, rows, max, files);
      for i := 0 to |order|
        invariant unchanged(`received) && unchanged(`droppedCastErrors) && unchanged(`castErrors) && buffer == []
        invariant writes == |FilesForAll(order[..i], rows, max)|
        invariant fault.Some? ==> writes <= fault.value
        invariant files == old(files) + FilesForAll(order[..i], rows, max)
        invariant written == old(written) + CountRows(FilesForAll(order[..i], rows, max))
      {
        FilesForAllAt(order, i, rows, max);
        ghost var before, group := FilesForAll(order[..i], rows, max), FilesOf(order[i], RowsOf(rows, order[i]), max);
        var left := if fault.None? then None else Some(fault.value - writes);
        var ok, wrote := WritePartitionGroup(order[i], groups[order[i]], left);
        CountConcat(before, group[..wrote]);
        writes := writes + wrote;
        if !ok {
          assert all[..writes] == before + group[..wrote];
          return Raised("write failed");
        }
        assert group[..wrote] == group;
      }
      assert order[..|order|] == order;
      assert all[..|all|] == all;
      r := Ok(());
    }

    /** Group rows by partition, keeping the order of rows and of first occurrence. */
    static method Group(rows: seq<Row>) returns (order: seq<Partition>, groups: map<Partition, seq<Row>>)
      ensures order == PartitionsOf(rows)
      ensures forall p :: p in order ==> p in groups && groups[p] == RowsOf(rows, p)
    {
      hide RowsOf, PartitionOf, PartitionsOf;
      order, groups := [], map[];
      Nothing(rows, 1);
      for i := 0 to |rows|
        invariant order == PartitionsOf(rows[..i])
        invariant forall p :: p in order <==> p in groups
        invariant forall p :: (if p in groups then groups[p] else []) == RowsOf(rows[..i], p)
      {
        GroupStep(rows, i);
        var p := PartitionOf(rows[i]);
        if p !in groups {
          order := order + [p];
          groups := groups[p := []];
        }
        groups := groups[p := groups[p] + [rows[i]]];
      }
      assert rows[..|rows|] == rows;
    }

    /** Files of at most `max_rows_per_file` rows until one write fails. */
    method WritePartitionGroup(p: Partition, rows: seq<Row>, fault: Option<nat>) returns (ok: bool, wrote: nat)
      requires cfg.maxRowsPerFile >= 1
      modifies this`files, this`written
      ensures var all := FilesOf(p, rows, cfg.maxRowsPerFile);
        && wrote == Written(|all|, fault) && (ok <==> wrote == |all|)
        && files == old(files) + all[..wrote]
        && written == old(written) + CountRows(all[..wrote])
    {
      hide RowsOf, FilesOf, CountRows;
      var start, total := 0, |rows|;
      wrote := 0;
      ghost var max, all := cfg.maxRowsPerFile, FilesOf(p, rows, cfg.maxRowsPerFile);
      assert rows[0..] == rows;
      CountUpTo(all, 0);
      while start < total
        invariant 0 <= start <= total
        invariant wrote <= |all| && all[wrote..] == FilesOf(p, rows[start..], max)
        invariant fault.Some? ==> wrote <= fault.value
        invariant files == old(files) + all[..wrote]
        invariant written == old(written) + CountRows(all[..wrote])
        decreases total - start
      {
        var end := Min(start + cfg.maxRowsPerFile, total);
        var chunk := rows[start..end];
        NextFile(p, rows, start, max, all, wrote);
        if fault == Some(wrote) {
          return false, wrote;
        }
        files := files + [File(p, chunk)];
        written := written + |chunk|;
        CountUpTo(all, wrote + 1);
        wrote := wrote + 1;
        start := end;
      }
      NoFile(p, rows[start..], max);
      ok := true;
    }

    method Close(fault: Option<nat>) returns (r: Result<()>)
      requires cfg.maxRowsPerFile >= 1
      modifies this`buffer, this`files, this`written
      ensures View() == AfterFlush(old(View()), cfg, fault) && buffer == []
      ensures r.Raised? <==> FlushFails(old(View()), cfg, fault)
    {
      r := Flush(fault);
    }
  }

  lemma Nothing(rows: seq<Row>, max: int)
    requires max >= 1
    ensures PartitionsOf(rows[..0]) == [] && PartitionsOf([]) == []
    ensures forall p :: RowsOf(rows[..0], p) == [] && RowsOf([], p) == []
    ensures FilesForAll([], rows, max) == [] && CountRows([]) == 0
  {
  }

  lemma NoFilesYet(order: seq<Partition>, rows: seq<Row>, max: int, files: seq<File>)
    requires max >= 1
    ensures FilesForAll(order[..0], rows, max) == [] && CountRows(FilesForAll(order[..0], rows, max)) == 0
    ensures files + FilesForAll(order[..0], rows, max) == files
  {
  }

  lemma CountUpTo(all: seq<File>, n: nat)
    requires n <= |all|
    ensures n == 0 ==> all[..n] == [] && CountRows(all[..n]) == 0
    ensures n > 0 ==> all[..n] == all[..n - 1] + [all[n - 1]]
    ensures n > 0 ==> CountRows(all[..n]) == CountRows(all[..n - 1]) + |all[n - 1].rows|
  {
    if n > 0 {
      assert all[..n][..n - 1] == all[..n - 1];
    }
  }

  lemma NoFile(p: Partition, rows: seq<Row>, max: int)
    requires max >= 1
    ensures FilesOf(p, rows, max) == [] <==> rows == []
  {
  }

  /** The file at place `k` starts at row `start`. */
  lemma NextFile(p: Partition, rows: seq<Row>, start: nat, max: int, all: seq<File>, k: nat)
    requires max >= 1 && start < |rows| && k <= |all| && all[k..] == FilesOf(p, rows[start..], max)
    ensures var end := Min(start + max, |rows|);
      k < |all| && all[k] == File(p, rows[start..end]) && all[k + 1..] == FilesOf(p, rows[end..], max)
  {
    var end := Min(start + max, |rows|);
    assert rows[start..][..end - start] == rows[start..end] && rows[start..][end - start..] == rows[end..];
    assert all[k] == all[k..][0] && all[k + 1..] == all[k..][1..];
  }

  lemma GroupStep(rows: seq<Row>, i: nat)
    requires i < |rows|
    ensures var before, p := PartitionsOf(rows[..i]), PartitionOf(rows[i]);
      PartitionsOf(rows[..i + 1]) == if p in before then before else before + [p]
    ensures forall p ::
      RowsOf(rows[..i + 1], p) == RowsOf(rows[..i], p) + if PartitionOf(rows[i]) == p then [rows[i]] else []
  {
    assert rows[..i + 1][..i] == rows[..i];
  }

  lemma {:induction false} FilesForAllAt(ps: seq<Partition>, i: nat, rows: seq<Row>, max: int)
    requires i < |ps| && max >= 1
    ensures FilesForAll(ps[..i + 1], rows, max) ==
      FilesForAll(ps[..i], rows, max) + FilesOf(ps[i], RowsOf(rows, ps[i]), max)
    ensures FilesForAll(ps[..i + 1], rows, max) <= FilesForAll(ps, rows, max)
    decreases |ps|
  {
    hide FilesOf, RowsOf;
    assert ps[..i + 1][..i] == ps[..i];
    if i + 1 == |ps| {
      assert ps[..i + 1] == ps;
    } else {
      var init := ps[..|ps| - 1];
      FilesForAllAt(init, i, rows, max);
      assert init[..i + 1] == ps[..i + 1];
    }
  }

  lemma {:induction false} CountConcat(a: seq<File>, b: seq<File>)
    ensures CountRows(a + b) == CountRows(a) + CountRows(b)
  {
    if b == [] {
      assert a + b == a;
    } else {
      assert (a + b)[..|a + b| - 1] == a + b[..|b| - 1];
      CountConcat(a, b[..|b| - 1]);
    }
  }

  // ---------- Conservation over every sequence of calls ----------

  /** One call of the writer; `close` is a flush. */
  datatype Call = AppendCall(wire: Wire, fault: Option<nat>) | FlushCall(fault: Option<nat>)

  function After(s: State, cfg: Config, calls: seq<Call>): State
    requires cfg.maxRowsPerFile >= 1
  {
    if calls == [] then s
    else
      var before, c := After(s, cfg, calls[..|calls| - 1]), calls[|calls| - 1];
      if c.FlushCall? then AfterFlush(before, cfg, c.fault) else AfterAppend(before, cfg, c.wire, c.fault)
  }

  const FRESH := State([], 0, 0, 0, [], [])

  /** The row of a castable record. */
  function AcceptedRow(c: Call): seq<Row> {
    if c.AppendCall? && c.wire.Castable? then [c.wire.row] else []
  }

  /** The rows of the castable records, in append order. */
  function AcceptedRows(calls: seq<Call>): seq<Row> {
    if calls == [] then []
    else
      var c := calls[|calls| - 1];
      AcceptedRows(calls[..|calls| - 1])
      + AcceptedRow(c)
  }

  /** How many records were refused by an exception that the writer does not count. */
  function Escaped(calls: seq<Call>): nat {
    if calls == [] then 0
    else
      var c := calls[|calls| - 1];
      Escaped(calls[..|calls| - 1]) + if c.AppendCall? && c.wire.Escapes? then 1 else 0
  }

  /** The rows of a partition in the files written. */
  function RowsIn(files: seq<File>, p: Partition): seq<Row> {
    if files == [] then []
    else RowsIn(files[..|files| - 1], p) + if files[|files| - 1].partition == p then files[|files| - 1].rows else []
  }

  lemma {:induction false} RowsInConcat(a: seq<File>, b: seq<File>, p: Partition)
    ensures RowsIn(a + b, p) == RowsIn(a, p) + RowsIn(b, p)
  {
    if b == [] {
      assert a + b == a;
    } else {
      assert (a + b)[..|a + b| - 1] == a + b[..|b| - 1];
      RowsInConcat(a, b[..|b| - 1], p);
    }
  }

  lemma {:induction false} FilesOfHold(q: Partition, rows: seq<Row>, max: int, p: Partition)
    requires max >= 1
    ensures RowsIn(FilesOf(q, rows, max), p) == if p == q then rows else []
    ensures CountRows(FilesOf(q, rows, max)) == |rows|
    ensures forall f :: f in FilesOf(q, rows, max) ==> 1 <= |f.rows| <= max && f.partition == q
    decreases |rows|
  {
    hide RowsIn, CountRows;
    if rows == [] {
      RowsInOne(File(q, []), p);
    } else {
      var n := Min(max, |rows|);
      var first, rest := File(q, rows[..n]), FilesOf(q, rows[n..], max);
      FilesOfHold(q, rows[n..], max, p);
      RowsInConcat([first], rest, p);
      CountConcat([first], rest);
      RowsInOne(first, p);
      assert rows[..n] + rows[n..] == rows;
    }
  }

  lemma RowsInOne(f: File, p: Partition)
    ensures RowsIn([], p) == [] && CountRows([]) == 0
    ensures RowsIn([f], p) == (if f.partition == p then f.rows else []) && CountRows([f]) == |f.rows|
  {
    assert [f][..0] == [];
  }

  lemma {:induction false} FilesForAllHold(ps: seq<Partition>, rows: seq<Row>, max: int, p: Partition)
    requires max >= 1 && forall i, j :: 0 <= i < j < |ps| ==> ps[i] != ps[j]
    ensures RowsIn(FilesForAll(ps, rows, max), p) == if p in ps then RowsOf(rows, p) else []
    ensures forall f :: f in FilesForAll(ps, rows, max) ==> 1 <= |f.rows| <= max
  {
    hide RowsOf, FilesOf, RowsIn, FilesForAll;
    if ps == [] {
      Nothing(rows, max);
      RowsInOne(File(p, []), p);
    } else {
      var init, q := ps[..|ps| - 1], ps[|ps| - 1];
      var before, group := FilesForAll(init, rows, max), FilesOf(q, RowsOf(rows, q), max);
      FilesForAllHold(init, rows, max, p);
      FilesOfHold(q, RowsOf(rows, q), max, p);
      RowsInConcat(before, group, p);
      FilesForAllAt(ps, |init|, rows, max);
      assert ps[..|init| + 1] == ps;
      assert p in ps <==> p in init || p == q;
    }
  }

  lemma {:induction false} PartitionsCover(rows: seq<Row>)
    ensures forall i, j :: 0 <= i < j < |PartitionsOf(rows)| ==> PartitionsOf(rows)[i] != PartitionsOf(rows)[j]
    ensures forall p :: p !in PartitionsOf(rows) ==> RowsOf(rows, p) == []
  {
    if rows != [] {
      PartitionsCover(rows[..|rows| - 1]);
    }
  }

  /** A flush that meets no failed write files every row once, under its partition, in order. */
  lemma FlushFilesEveryRow(rows: seq<Row>, max: int, p: Partition)
    requires max >= 1
    ensures RowsIn(FlushedFiles(rows, max), p) == RowsOf(rows, p)
    ensures forall f :: f in FlushedFiles(rows, max) ==> 1 <= |f.rows| <= max
  {
    PartitionsCover(rows);
    FilesForAllHold(PartitionsOf(rows), rows, max, p);
  }

  lemma {:induction false} RowsOfConcat(a: seq<Row>, b: seq<Row>, p: Partition)
    ensures RowsOf(a + b, p) == RowsOf(a, p) + RowsOf(b, p)
  {
    if b == [] {
      assert a + b == a;
    } else {
      assert (a + b)[..|a + b| - 1] == a + b[..|b| - 1];
      RowsOfConcat(a, b[..|b| - 1], p);
    }
  }

  /** No file write fails. */
  ghost predicate WritesSucceed(calls: seq<Call>) {
    forall c :: c in calls ==> c.fault.None?
  }

  lemma FlushMovesRows(s: State, cfg: Config, p: Partition)
    requires cfg.maxRowsPerFile >= 1
    ensures var s' := AfterFlush(s, cfg, None);
      RowsIn(s'.files, p) + RowsOf(s'.buffer, p) == RowsIn(s.files, p) + RowsOf(s.buffer, p)
  {
    hide RowsIn, FlushedFiles;
    var all := FlushedFiles(s.buffer, cfg.maxRowsPerFile);
    assert all[..|all|] == all;
    FlushFilesEveryRow(s.buffer, cfg.maxRowsPerFile, p);
    RowsInConcat(s.files, all, p);
  }

  /** Per partition, the files written, put together, and then the rows still buffered are the
      accepted records of that partition in append order. */
  lemma {:induction false} PartitionsKeepAppendOrder(cfg: Config, calls: seq<Call>, p: Partition)
    requires cfg.maxRowsPerFile >= 1 && WritesSucceed(calls)
    ensures var s := After(FRESH, cfg, calls);
      RowsIn(s.files, p) + RowsOf(s.buffer, p) == RowsOf(AcceptedRows(calls), p)
  {
    hide RowsIn, RowsOf, AfterFlush;
    if calls == [] {
      RowsInOne(File(p, []), p);
      Nothing([], 1);
    } else {
      var init, c := calls[..|calls| - 1], calls[|calls| - 1];
      assert c in calls && forall d :: d in init ==> d in calls;
      PartitionsKeepAppendOrder(cfg, init, p);
      OneCallMovesRows(After(FRESH, cfg, init), cfg, c, p);
      var more := AcceptedRow(c);
      RowsOfConcat(AcceptedRows(init), more, p);
    }
  }

  /** The rows of `p` in files and buffer, after one more call. */
  lemma OneCallMovesRows(s: State, cfg: Config, c: Call, p: Partition)
    requires cfg.maxRowsPerFile >= 1 && c.fault.None?
    ensures var s' :=
        if c.FlushCall? then AfterFlush(s, cfg, c.fault) else AfterAppend(s, cfg, c.wire, c.fault);
      var more := AcceptedRow(c);
      RowsIn(s'.files, p) + RowsOf(s'.buffer, p) == RowsIn(s.files, p) + RowsOf(s.buffer, p) + RowsOf(more, p)
  {
    hide RowsIn, RowsOf, AfterFlush;
    Nothing([], 1);
    var have := RowsIn(s.files, p) + RowsOf(s.buffer, p);
    if c.FlushCall? {
      FlushMovesRows(s, cfg, p);
      assert have + RowsOf([], p) == have;
    } else if c.wire.Castable? {
      var row := c.wire.row;
      RowsOfConcat(s.buffer, [row], p);
      assert have + RowsOf([row], p) == RowsIn(s.files, p) + (RowsOf(s.buffer, p) + RowsOf([row], p));
      FlushMovesRows(Buffered(s, c.wire), cfg, p);
    } else {
      assert have + RowsOf([], p) == have;
    }
  }

  /** The rows that flushes took from the buffer and never wrote. */
  function Lost(s: State, cfg: Config, calls: seq<Call>): nat
    requires cfg.maxRowsPerFile >= 1
  {
    if calls == [] then 0
    else
      var before, c := After(s, cfg, calls[..|calls| - 1]), calls[|calls| - 1];
      Lost(s, cfg, calls[..|calls| - 1]) +
      if c.FlushCall? then LostByFlush(before, cfg, c.fault)
      else if c.wire.Castable? && |before.buffer| + 1 >= cfg.maxBufferedRows then
        LostByFlush(Buffered(before, c.wire), cfg, c.fault)
      else 0
  }

  function LostByFlush(s: State, cfg: Config, fault: Option<nat>): nat
    requires cfg.maxRowsPerFile >= 1
  {
    var all := FlushedFiles(s.buffer, cfg.maxRowsPerFile);
    CountRows(all[Written(|all|, fault)..])
  }

  lemma {:induction false} FlushedRowCount(ps: seq<Partition>, rows: seq<Row>, max: int)
    requires max >= 1
    ensures CountRows(FilesForAll(ps, rows, max)) == SizeOf(ps, rows)
  {
    hide RowsOf, FilesOf, CountRows;
    if ps == [] {
      Nothing(rows, max);
    } else {
      var init, q := ps[..|ps| - 1], ps[|ps| - 1];
      FlushedRowCount(init, rows, max);
      FilesOfHold(q, RowsOf(rows, q), max, q);
      CountConcat(FilesForAll(init, rows, max), FilesOf(q, RowsOf(rows, q), max));
    }
  }

  /** The rows of the partitions `ps`, counted. */
  function SizeOf(ps: seq<Partition>, rows: seq<Row>): nat {
    if ps == [] then 0 else SizeOf(ps[..|ps| - 1], rows) + |RowsOf(rows, ps[|ps| - 1])|
  }

  lemma {:induction false} SizeOfSnoc(ps: seq<Partition>, rows: seq<Row>, row: Row)
    requires forall i, j :: 0 <= i < j < |ps| ==> ps[i] != ps[j]
    ensures SizeOf(ps, rows + [row]) == SizeOf(ps, rows) + if PartitionOf(row) in ps then 1 else 0
  {
    if ps != [] {
      SizeOfSnoc(ps[..|ps| - 1], rows, row);
      assert (rows + [row])[..|rows|] == rows;
      var q := ps[|ps| - 1];
      assert PartitionOf(row) in ps <==> PartitionOf(row) in ps[..|ps| - 1] || PartitionOf(row) == q;
    }
  }

  lemma {:induction false} PartitionsCountAll(rows: seq<Row>)
    ensures SizeOf(PartitionsOf(rows), rows) == |rows|
  {
    hide SizeOf, RowsOf;
    if rows == [] {
      assert SizeOf([], rows) == 0 by { SizeOfStep([], rows); }
    } else {
      var init, row := rows[..|rows| - 1], rows[|rows| - 1];
      assert rows == init + [row];
      PartitionsCountAll(init);
      PartitionsCover(init);
      SizeOfSnoc(PartitionsOf(init), init, row);
      var ps := PartitionsOf(rows);
      if PartitionOf(row) !in PartitionsOf(init) {
        assert ps[..|ps| - 1] == PartitionsOf(init);
        SizeOfStep(ps, rows);
        RowsOfConcat(init, [row], PartitionOf(row));
        assert RowsOf(init, PartitionOf(row)) == [];
        RowsOfOne(row);
      }
    }
  }

  lemma SizeOfStep(ps: seq<Partition>, rows: seq<Row>)
    ensures SizeOf(ps, rows) == if ps == [] then 0 else SizeOf(ps[..|ps| - 1], rows) + |RowsOf(rows, ps[|ps| - 1])|
  {
  }

  lemma RowsOfOne(row: Row)
    ensures RowsOf([row], PartitionOf(row)) == [row]
  {
    assert [row][..0] == [];
  }

  lemma FlushAccounts(s: State, cfg: Config, fault: Option<nat>)
    requires cfg.maxRowsPerFile >= 1
    ensures AfterFlush(s, cfg, fault).written + LostByFlush(s, cfg, fault) == s.written + |s.buffer|
    ensures fault.None? ==> LostByFlush(s, cfg, fault) == 0
  {
    hide FlushedFiles, CountRows;
    var all := FlushedFiles(s.buffer, cfg.maxRowsPerFile);
    var n := Written(|all|, fault);
    CountConcat(all[..n], all[n..]);
    assert all[..n] + all[n..] == all;
    CountFlushed(s.buffer, cfg.maxRowsPerFile);
    if fault.None? {
      assert all[n..] == [];
      RowsInOne(File(Partition("", "x"), []), Partition("", "x"));
    }
  }

  lemma CountFlushed(rows: seq<Row>, max: int)
    requires max >= 1
    ensures CountRows(FlushedFiles(rows, max)) == |rows|
  {
    FlushedRowCount(PartitionsOf(rows), rows, max);
    PartitionsCountAll(rows);
  }

  /** Conservation: over every sequence of calls, each record received is written, dropped as a
      cast error or buffered, except those refused by an uncounted exception and those lost when a
      file write failed after the buffer was cleared. */
  lemma {:induction false} RecordsAreConserved(cfg: Config, calls: seq<Call>)
    requires cfg.maxRowsPerFile >= 1
    ensures var s := After(FRESH, cfg, calls);
      s.received == s.written + s.droppedCastErrors + |s.buffer| + Escaped(calls) + Lost(FRESH, cfg, calls)
    ensures WritesSucceed(calls) ==> Lost(FRESH, cfg, calls) == 0
    ensures |After(FRESH, cfg, calls).castErrors| <= Max(0, cfg.maxErrorSamples)
  {
    hide AfterFlush, LostByFlush;
    if calls != [] {
      var init, c := calls[..|calls| - 1], calls[|calls| - 1];
      var s := After(FRESH, cfg, init);
      RecordsAreConserved(cfg, init);
      assert c in calls && forall d :: d in init ==> d in calls;
      if c.FlushCall? {
        FlushAccounts(s, cfg, c.fault);
        FlushKeeps(s, cfg, c.fault);
      } else if c.wire.Castable? {
        FlushAccounts(Buffered(s, c.wire), cfg, c.fault);
        FlushKeeps(Buffered(s, c.wire), cfg, c.fault);
      }
    }
  }

  lemma FlushKeeps(s: State, cfg: Config, fault: Option<nat>)
    requires cfg.maxRowsPerFile >= 1
    ensures var s' := AfterFlush(s, cfg, fault);
      s'.buffer == [] && s'.received == s.received && s'.droppedCastErrors == s.droppedCastErrors
        && s'.castErrors == s.castErrors
  {
  }

  /** A file write fails in the flush that the call triggers. */
  predicate FlushOfCallFails(s: State, cfg: Config, c: Call)
    requires cfg.maxRowsPerFile >= 1
  {
    if c.FlushCall? then FlushFails(s, cfg, c.fault)
    else
      c.wire.Castable? && |s.buffer| + 1 >= cfg.maxBufferedRows
        && FlushFails(Buffered(s, c.wire), cfg, c.fault)
  }

  /** The call raises an exception that the counters do not take into account. */
  predicate GoesUncounted(s: State, cfg: Config, c: Call)
    requires cfg.maxRowsPerFile >= 1
  {
    (c.AppendCall? && c.wire.Escapes?) || FlushOfCallFails(s, cfg, c)
  }

  lemma {:induction false} FilesHoldRows(files: seq<File>)
    requires forall f :: f in files ==> |f.rows| >= 1
    ensures CountRows(files) == 0 <==> files == []
  {
    if files != [] {
      assert files[|files| - 1] in files;
      FilesHoldRows(files[..|files| - 1]);
    }
  }

  /** A flush loses rows exactly when one of its writes fails. */
  lemma LostExactlyOnFailure(s: State, cfg: Config, fault: Option<nat>)
    requires cfg.maxRowsPerFile >= 1
    ensures LostByFlush(s, cfg, fault) == 0 <==> !FlushFails(s, cfg, fault)
  {
    hide FlushedFiles, CountRows;
    var all := FlushedFiles(s.buffer, cfg.maxRowsPerFile);
    FlushFilesEveryRow(s.buffer, cfg.maxRowsPerFile, Partition("", "x"));
    var rest := all[Written(|all|, fault)..];
    assert forall f :: f in rest ==> f in all;
    FilesHoldRows(rest);
  }

  lemma {:induction false} NothingMissingExactly(cfg: Config, calls: seq<Call>)
    requires cfg.maxRowsPerFile >= 1
    ensures Escaped(calls) + Lost(FRESH, cfg, calls) == 0 <==>
      forall i :: 0 <= i < |calls| ==> !GoesUncounted(After(FRESH, cfg, calls[..i]), cfg, calls[i])
  {
    hide LostByFlush, FlushFails, After, Buffered;
    if calls != [] {
      var init, c := calls[..|calls| - 1], calls[|calls| - 1];
      var s := After(FRESH, cfg, init);
      NothingMissingExactly(cfg, init);
      assert forall i :: 0 <= i < |init| ==> init[..i] == calls[..i] && init[i] == calls[i];
      if c.FlushCall? {
        LostExactlyOnFailure(s, cfg, c.fault);
      } else if c.wire.Castable? {
        LostExactlyOnFailure(Buffered(s, c.wire), cfg, c.fault);
      }
    }
  }

  /** The four counters agree exactly when no call raised an exception that they do not take into
      account: no record escaped the cast, and no flush met a failing file write. */
  lemma CountersAgreeExactly(cfg: Config, calls: seq<Call>)
    requires cfg.maxRowsPerFile >= 1
    ensures var s := After(FRESH, cfg, calls);
      s.received == s.written + s.droppedCastErrors + |s.buffer| <==>
        forall i :: 0 <= i < |calls| ==> !GoesUncounted(After(FRESH, cfg, calls[..i]), cfg, calls[i])
  {
    hide After, GoesUncounted;
    RecordsAreConserved(cfg, calls);
    NothingMissingExactly(cfg, calls);
  }

  /** One use of the writer by its caller. */
  datatype Use = Append(record: seq<Entry>, today: Day, fault: Option<nat>) | Flush(fault: Option<nat>)

  function CallOf(c: Casting, use: Use): Call {
    match use
    case Append(record, today, fault) => AppendCall(WireOf(c, record, today), fault)
    case Flush(fault) => FlushCall(fault)
  }

  function CallsOf(c: Casting, uses: seq<Use>): (calls: seq<Call>)
    ensures |calls| == |uses|
  {
    seq(|uses|, i requires 0 <= i < |uses| => CallOf(c, uses[i]))
  }

  /** The record is one that the counters take into account: its money fields are numbers, and its cast
      does not overflow. */
  predicate Counted(c: Casting, record: seq<Entry>) {
    MoneyIsNumeric(record) && !CastForStorage(c.py, record, c.schema).Overflow?
  }

  /** In terms of the records given to the writer: the counters agree exactly when every record is one
      that they take into account and no flush met a failing file write. */
  lemma CountersAgreeOnRecords(c: Casting, cfg: Config, uses: seq<Use>)
    requires cfg.maxRowsPerFile >= 1
    ensures var calls := CallsOf(c, uses);
      var s := After(FRESH, cfg, calls);
      s.received == s.written + s.droppedCastErrors + |s.buffer| <==>
        forall i :: 0 <= i < |uses| ==>
          && (uses[i].Append? ==> Counted(c, uses[i].record))
          && !FlushOfCallFails(After(FRESH, cfg, calls[..i]), cfg, calls[i])
  {
    hide After, FlushOfCallFails, MoneyIsNumeric, CastForStorage, RowFrom;
    var calls := CallsOf(c, uses);
    CountersAgreeExactly(cfg, calls);
    forall i | 0 <= i < |uses|
      ensures GoesUncounted(After(FRESH, cfg, calls[..i]), cfg, calls[i]) <==>
        ((uses[i].Append? && !Counted(c, uses[i].record))
         || FlushOfCallFails(After(FRESH, cfg, calls[..i]), cfg, calls[i]))
    {
      assert calls[i] == CallOf(c, uses[i]);
    }
  }

  /** It happens: a record whose estimated savings are written as text is received and then in no other
      counter. */
  lemma MoneyErrorGoesUncounted(c: Casting, cfg: Config, amount: string, today: Day)
    requires cfg.maxRowsPerFile >= 1
    ensures var part := VDict([Entry(VStr("monthly_savings"), VStr(amount))]);
      var s := After(FRESH, cfg, CallsOf(c, [Append([Entry(VStr("estimated"), part)], today, None)]));
      s.received == 1 && s.written + s.droppedCastErrors + |s.buffer| == 0
  {
    var part := VDict([Entry(VStr("monthly_savings"), VStr(amount))]);
    var record := [Entry(VStr("estimated"), part)];
    assert ESTIMATED[0] in ESTIMATED && Lookup(part.entries, VStr(ESTIMATED[0])) == VStr(amount);
    assert !MoneyIsNumeric(record);
    var calls := CallsOf(c, [Append(record, today, None)]);
    assert calls == [AppendCall(Escapes(c.complaint(record)), None)];
    assert calls[..0] == [] && After(FRESH, cfg, []) == FRESH;
  }

  /** Every file ever written holds between one row and the limit. */
  lemma {:induction false} FileSizesAreBounded(cfg: Config, calls: seq<Call>)
    requires cfg.maxRowsPerFile >= 1
    ensures forall f :: f in After(FRESH, cfg, calls).files ==> 1 <= |f.rows| <= cfg.maxRowsPerFile
  {
    hide AfterFlush;
    if calls != [] {
      var init, c := calls[..|calls| - 1], calls[|calls| - 1];
      var s := After(FRESH, cfg, init);
      FileSizesAreBounded(cfg, init);
      FlushSizes(if c.AppendCall? && c.wire.Castable? then Buffered(s, c.wire) else s, cfg, c.fault);
    }
  }

  lemma FlushSizes(s: State, cfg: Config, fault: Option<nat>)
    requires cfg.maxRowsPerFile >= 1 && forall f :: f in s.files ==> 1 <= |f.rows| <= cfg.maxRowsPerFile
    ensures forall f :: f in AfterFlush(s, cfg, fault).files ==> 1 <= |f.rows| <= cfg.maxRowsPerFile
  {
    hide FlushedFiles;
    FlushFilesEveryRow(s.buffer, cfg.maxRowsPerFile, Partition("", "x"));
  }
}
