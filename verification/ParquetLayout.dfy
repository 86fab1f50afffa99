/** What the batch writer does with one record and how it lays out its files (pipeline/writer_parquet.py). */
module ParquetLayout {
  import opened Prelude
  import opened StorageCast
  import opened ParquetWriter

  // ---------- One record ----------

  /** A field of one part of the record, if the part is a mapping. */
  function MoneyField(record: seq<Entry>, part: string, key: string): Value {
    match Lookup(record, VStr(part))
    case VDict(entries) => Lookup(entries, VStr(key))
    case _ => VNone
  }

  predicate IsNumberOrMissing(v: Value) {
    match v
    case VNone => true
    case VInt(_) => true
    case VFloat(_) => true
    case VDecimal(_) => true
    case _ => false
  }

  /** The record passes the money check exactly when all nine amounts are numbers or missing. */
  lemma MoneyExactly(record: seq<Entry>)
    ensures MoneyIsNumeric(record) <==>
      && IsNumberOrMissing(MoneyField(record, "estimated", "monthly_savings"))
      && IsNumberOrMissing(MoneyField(record, "estimated", "monthly_cost"))
      && IsNumberOrMissing(MoneyField(record, "estimated", "one_time_savings"))
      && IsNumberOrMissing(MoneyField(record, "actual", "cost_7d"))
      && IsNumberOrMissing(MoneyField(record, "actual", "cost_30d"))
      && IsNumberOrMissing(MoneyField(record, "actual", "cost_mtd"))
      && IsNumberOrMissing(MoneyField(record, "actual", "cost_prev_month"))
      && IsNumberOrMissing(MoneyField(record, "actual", "savings_7d"))
      && IsNumberOrMissing(MoneyField(record, "actual", "savings_30d"))
  {
    PartExactly(record, "estimated", ESTIMATED);
    PartExactly(record, "actual", ACTUAL);
    hide MoneyField, IsNumberOrMissing, PartIsNumeric, IsMoney;
    assert ESTIMATED[0] in ESTIMATED && ESTIMATED[1] in ESTIMATED && ESTIMATED[2] in ESTIMATED;
    assert ACTUAL[0] in ACTUAL && ACTUAL[1] in ACTUAL && ACTUAL[2] in ACTUAL;
    assert ACTUAL[3] in ACTUAL && ACTUAL[4] in ACTUAL && ACTUAL[5] in ACTUAL;
  }

  lemma PartExactly(record: seq<Entry>, part: string, keys: seq<string>)
    ensures PartIsNumeric(Lookup(record, VStr(part)), keys) <==>
      forall k :: k in keys ==> IsNumberOrMissing(MoneyField(record, part, k))
  {
    hide Lookup;
  }

  /** What becomes of a record: it is refused uncounted when an amount is no number or the cast overflows,
      it fails when the cast does, and else it is stored with its columns and the date of its partition,
      which is the day of its run timestamp, or the day of the call if it has none. */
  lemma RecordExactly(c: Casting, record: seq<Entry>, today: Day)
    ensures var wire, cast := WireOf(c, record, today), CastForStorage(c.py, record, c.schema);
      && (wire.Escapes? <==> !MoneyIsNumeric(record) || cast == Overflow)
      && (wire.CastFails? <==> MoneyIsNumeric(record) && cast == CastError)
      && (wire.Castable? ==> cast.Done? && FiledUnder(c, cast.value, today, wire.row))
  {
    hide CastForStorage, MoneyIsNumeric;
    var cast := CastForStorage(c.py, record, c.schema);
    if cast.Done? {
      RowIsFiled(c, cast.value, today);
    }
  }

  /** The row has the stored columns, and its date is that of its run. */
  ghost predicate FiledUnder(c: Casting, storage: seq<Entry>, today: Day, row: Row) {
    && (forall k :: k != VStr(c.dateField) ==> Lookup(row.fields, k) == Lookup(storage, k))
    && Lookup(row.fields, VStr(c.dateField)) == VStr(row.runDate)
    && (match Lookup(storage, VStr("run_ts"))
        case VDatetime(wall, _) =>
          exists day :: day * 86400 <= wall < (day + 1) * 86400 && row.runDate == c.isoDate(day)
        case _ => row.runDate == today)
    && (match Lookup(row.fields, VStr(c.tenantField))
        case VNone => row.tenant == ""
        case VStr(s) => row.tenant == s
        case v => row.tenant == c.py.str(v))
  }

  lemma RowIsFiled(c: Casting, storage: seq<Entry>, today: Day)
    ensures FiledUnder(c, storage, today, RowFrom(c, storage, today))
  {
    hide Lookup, Put;
    var runDate := RunDate(c, storage, today);
    forall k
      ensures Lookup(Put(storage, VStr(c.dateField), VStr(runDate)), k) ==
        if k == VStr(c.dateField) then VStr(runDate) else Lookup(storage, k)
    {
      LookupPut(storage, VStr(c.dateField), VStr(runDate), k);
    }
    match Lookup(storage, VStr("run_ts"))
    case VDatetime(wall, _) =>
      var day := wall / 86400;
      assert day * 86400 <= wall < (day + 1) * 86400 && runDate == c.isoDate(day);
    case _ =>
  }

  /** One append counts the record as received, and besides: nothing more when it is refused; one more
      dropped, and a sample as long as there is room, when its cast fails; a row more in the buffer when
      it is stored, and that is written out exactly when the buffer has reached its size. */
  lemma AppendExactly(s: State, cfg: Config, wire: Wire)
    requires cfg.maxRowsPerFile >= 1
    ensures var s' := AfterAppend(s, cfg, wire, None);
      && s'.received == s.received + 1
      && s'.droppedCastErrors == s.droppedCastErrors + (if wire.CastFails? then 1 else 0)
      && (wire.CastFails? && |s.castErrors| < cfg.maxErrorSamples ==> s'.castErrors == s.castErrors + [wire.message])
      && (!wire.CastFails? || |s.castErrors| >= cfg.maxErrorSamples ==> s'.castErrors == s.castErrors)
      && (!wire.Castable? ==> (s'.buffer, s'.files, s'.written) == (s.buffer, s.files, s.written))
      && (wire.Castable? && |s.buffer| + 1 < cfg.maxBufferedRows ==>
        (s'.buffer, s'.files, s'.written) == (s.buffer + [wire.row], s.files, s.written))
      && (wire.Castable? && |s.buffer| + 1 >= cfg.maxBufferedRows ==>
        && s'.buffer == [] && s.files <= s'.files && s'.written == s.written + |s.buffer| + 1
        && forall p :: RowsIn(s'.files[|s.files|..], p) == RowsOf(s.buffer + [wire.row], p))
  {
    hide FlushedFiles, CountRows, RowsIn, RowsOf;
    if wire.Castable? {
      var rows := s.buffer + [wire.row];
      var files := FlushedFiles(rows, cfg.maxRowsPerFile);
      assert files[..|files|] == files;
      CountFlushed(rows, cfg.maxRowsPerFile);
      forall p
        ensures RowsIn(files, p) == RowsOf(rows, p)
      {
        FlushFilesEveryRow(rows, cfg.maxRowsPerFile, p);
      }
      assert (s.files + files)[|s.files|..] == files;
    }
  }

  /** The buffer never reaches its size between two calls. */
  lemma {:induction false} BufferIsBounded(cfg: Config, calls: seq<Call>)
    requires cfg.maxRowsPerFile >= 1
    ensures |After(FRESH, cfg, calls).buffer| < Max(1, cfg.maxBufferedRows)
  {
    hide FlushedFiles;
    if calls != [] {
      BufferIsBounded(cfg, calls[..|calls| - 1]);
    }
  }

  // ---------- The files of one flush ----------

  /** Some row of `p` comes before every row of `q`. */
  ghost predicate OccursBefore(rows: seq<Row>, p: Partition, q: Partition) {
    exists k :: 0 <= k < |rows| && PartitionOf(rows[k]) == p && forall m :: 0 <= m <= k ==> PartitionOf(rows[m]) != q
  }

  lemma {:induction false} PartitionsInOrder(rows: seq<Row>)
    ensures forall p :: p in PartitionsOf(rows) <==> exists k :: 0 <= k < |rows| && PartitionOf(rows[k]) == p
    ensures forall i, j :: 0 <= i < j < |PartitionsOf(rows)| ==>
      OccursBefore(rows, PartitionsOf(rows)[i], PartitionsOf(rows)[j])
  {
    if rows != [] {
      var init, q := rows[..|rows| - 1], PartitionOf(rows[|rows| - 1]);
      var before, ps := PartitionsOf(init), PartitionsOf(rows);
      PartitionsInOrder(init);
      forall i, j | 0 <= i < j < |ps|
        ensures OccursBefore(rows, ps[i], ps[j])
      {
        if j < |before| {
          assert OccursBefore(init, before[i], before[j]);
          var k :| 0 <= k < |init| && PartitionOf(init[k]) == before[i]
            && forall m :: 0 <= m <= k ==> PartitionOf(init[m]) != before[j];
          assert forall m :: 0 <= m <= k ==> PartitionOf(rows[m]) == PartitionOf(init[m]);
        } else {
          assert before[i] in before;
          var k :| 0 <= k < |init| && PartitionOf(init[k]) == before[i];
          assert forall m :: 0 <= m < |init| ==> PartitionOf(rows[m]) == PartitionOf(init[m]);
          assert PartitionOf(rows[k]) == ps[i];
        }
      }
      forall p
        ensures p in ps <==> exists k :: 0 <= k < |rows| && PartitionOf(rows[k]) == p
      {
        if p in before {
          var k :| 0 <= k < |init| && PartitionOf(init[k]) == p;
          assert PartitionOf(rows[k]) == p;
        }
        if k :| 0 <= k < |rows| && PartitionOf(rows[k]) == p {
          assert k < |init| ==> PartitionOf(init[k]) == p;
        }
      }
    }
  }

  lemma {:induction false} ChunksAreFull(p: Partition, rows: seq<Row>, max: int)
    requires max >= 1
    ensures forall i :: 0 <= i < |FilesOf(p, rows, max)| ==> FilesOf(p, rows, max)[i].partition == p
    ensures forall i :: 0 <= i < |FilesOf(p, rows, max)| - 1 ==> |FilesOf(p, rows, max)[i].rows| == max
    decreases |rows|
  {
    if rows != [] {
      var n := Min(max, |rows|);
      ChunksAreFull(p, rows[n..], max);
      if n == |rows| {
        assert FilesOf(p, rows[n..], max) == [];
      }
    }
  }

  /** File `f` before file `g`: full when both are of one partition, else of an earlier one. */
  ghost predicate Placed(ps: seq<Partition>, max: int, f: File, g: File) {
    if f.partition == g.partition then |f.rows| == max
    else exists a, b :: 0 <= a < b < |ps| && ps[a] == f.partition && ps[b] == g.partition
  }

  ghost predicate AllPlaced(ps: seq<Partition>, max: int, files: seq<File>) {
    && (forall f :: f in files ==> f.partition in ps)
    && forall i, j :: 0 <= i < j < |files| ==> Placed(ps, max, files[i], files[j])
  }

  /** The files follow the partitions of `ps`, and only the last of each may be short. */
  lemma {:induction false} FilesFollow(ps: seq<Partition>, rows: seq<Row>, max: int)
    requires max >= 1 && forall i, j :: 0 <= i < j < |ps| ==> ps[i] != ps[j]
    ensures AllPlaced(ps, max, FilesForAll(ps, rows, max))
  {
    hide FilesOf, RowsOf, AllPlaced;
    if ps == [] {
      assert AllPlaced([], max, []) by { NothingPlaced(max); }
    } else {
      var init, q := ps[..|ps| - 1], ps[|ps| - 1];
      var group := FilesOf(q, RowsOf(rows, q), max);
      FilesFollow(init, rows, max);
      ChunksAreFull(q, RowsOf(rows, q), max);
      MorePlaced(ps, FilesForAll(init, rows, max), group, max);
    }
  }

  lemma NothingPlaced(max: int)
    ensures AllPlaced([], max, [])
  {
  }

  lemma MorePlaced(ps: seq<Partition>, before: seq<File>, group: seq<File>, max: int)
    requires ps != [] && (forall a, b :: 0 <= a < b < |ps| ==> ps[a] != ps[b])
    requires AllPlaced(ps[..|ps| - 1], max, before)
    requires forall k :: 0 <= k < |group| ==> group[k].partition == ps[|ps| - 1]
    requires forall k :: 0 <= k < |group| - 1 ==> |group[k].rows| == max
    ensures AllPlaced(ps, max, before + group)
  {
    var init, files := ps[..|ps| - 1], before + group;
    forall i, j | 0 <= i < j < |files|
      ensures Placed(ps, max, files[i], files[j])
    {
      if j < |before| {
        assert Placed(init, max, before[i], before[j]);
        if before[i].partition != before[j].partition {
          var a, b :| 0 <= a < b < |init| && init[a] == before[i].partition && init[b] == before[j].partition;
          assert ps[a] == files[i].partition && ps[b] == files[j].partition;
        }
      } else if i < |before| {
        assert before[i] in before && files[j] == group[j - |before|];
        var a :| 0 <= a < |init| && init[a] == files[i].partition;
        assert ps[a] == files[i].partition && ps[|ps| - 1] == files[j].partition;
      } else {
        assert files[i] == group[i - |before|] && files[j] == group[j - |before|];
      }
    }
  }

  /** The files of a flush: those of one partition together, all full but the last of them, and the
      partitions in the order in which their first rows were appended. */
  lemma FlushLayout(rows: seq<Row>, max: int, i: nat, j: nat)
    requires max >= 1 && i < j < |FlushedFiles(rows, max)|
    ensures var f, g := FlushedFiles(rows, max)[i], FlushedFiles(rows, max)[j];
      if f.partition == g.partition then |f.rows| == max else OccursBefore(rows, f.partition, g.partition)
  {
    hide PartitionsOf, FilesForAll, OccursBefore;
    var ps, files := PartitionsOf(rows), FlushedFiles(rows, max);
    PartitionsInOrder(rows);
    PartitionsCover(rows);
    FilesFollow(ps, rows, max);
    assert Placed(ps, max, files[i], files[j]);
  }
}
