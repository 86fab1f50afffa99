/** The cast from wire records to storage types (contracts/storage_cast.py): structural recursion
    over a value and an Arrow type. */
module StorageCast {
  import opened Prelude
  import opened PyText

  /** A float or a decimal; finite ones by their value. */
  datatype Number = Finite(x: real) | NaN | Infinite

  datatype Value =
    | VNone
    | VStr(s: string)
    | VBool(b: bool)
    | VInt(n: int)
    | VFloat(f: Number)
    | VDecimal(d: Number)
    | VDatetime(wall: int, offset: Option<int>)  // seconds on the wall clock; no offset: naive
    | VDate(day: int)
    | VList(items: seq<Value>)
    | VDict(entries: seq<Entry>)                 // in insertion order
    | VOther(id: int)

  datatype Entry = Entry(key: Value, value: Value)

  datatype Type =
    | TString | TBool | TInt | TDecimal | TTimestamp | TDate
    | TStruct(fields: seq<Field>)
    | TList(item: Type)
    | TMap(key: Type, value: Type)
    | TOther

  datatype Field = Field(name: string, typ: Type)

  /** A cast value, a StorageCastError, or the OverflowError of `int` on an infinity. */
  datatype Outcome<+T> = Done(value: T) | CastError | Overflow {
    predicate IsFailure() {
      !Done?
    }
    function PropagateFailure<U>(): Outcome<U>
      requires !Done?
    {
      if CastError? then CastError else Overflow
    }
    function Extract(): T
      requires Done?
    {
      value
    }
  }

  /** The conversions of Python's own types that the cast relies on. */
  datatype Python = Python(
    str: Value -> string,
    lower: string -> string,
    parseInt: string -> Option<int>,
    parseDecimal: string -> Option<Number>,
    decimalOfFloat: Number -> Number,
    parseDatetime: string -> Option<(int, Option<int>)>,
    parseDate: string -> Option<int>)

  const SECONDS_PER_DAY := 86400

  // ---------- Scalars ----------

  function Truncate(x: real): int {
    if x >= 0.0 then x.Floor else -((-x).Floor)
  }

  function CastString(py: Python, v: Value): Outcome<Value> {
    Done(VStr(if v.VStr? then v.s else py.str(v)))
  }

  function CastBool(py: Python, v: Value): Outcome<Value> {
    match v
    case VBool(b) => Done(v)
    case VInt(n) => Done(VBool(n != 0))
    case VStr(s) =>
      var txt := py.lower(Strip(s));
      if txt in {"true", "1", "yes", "y"} then Done(VBool(true))
      else if txt in {"false", "0", "no", "n"} then Done(VBool(false))
      else CastError
    case _ => CastError
  }

  function IntOfNumber(x: Number): Outcome<Value> {
    match x
    case Finite(r) => Done(VInt(Truncate(r)))
    case NaN => CastError
    case Infinite => Overflow
  }

  function CastInt(py: Python, v: Value): Outcome<Value> {
    match v
    case VInt(n) => Done(v)
    case VBool(b) => Done(VInt(if b then 1 else 0))
    case VFloat(f) => IntOfNumber(f)
    case VDecimal(d) => IntOfNumber(d)
    case VStr(s) => if py.parseInt(s).Some? then Done(VInt(py.parseInt(s).value)) else CastError
    case _ => CastError
  }

  function CastDecimal(py: Python, v: Value): Outcome<Value> {
    match v
    case VDecimal(d) => Done(v)
    case VInt(n) => Done(VDecimal(Finite(n as real)))
    case VBool(b) => Done(VDecimal(Finite(if b then 1.0 else 0.0)))
    case VFloat(f) => Done(VDecimal(py.decimalOfFloat(f)))
    case VStr(s) =>
      var txt := Strip(s);
      if txt != "" && py.parseDecimal(txt).Some? then Done(VDecimal(py.parseDecimal(txt).value)) else CastError
    case _ => CastError
  }

  /** A naive time is taken as UTC, any other is converted to UTC. */
  function Utc(wall: int, offset: Option<int>): Value {
    VDatetime(wall - offset.GetOr(0), Some(0))
  }

  function CastTimestamp(py: Python, v: Value): Outcome<Value> {
    match v
    case VDatetime(wall, offset) => Done(Utc(wall, offset))
    case VStr(s) =>
      var txt := Strip(s);
      if txt == "" then CastError
      else
        var parsed := py.parseDatetime(if txt[|txt| - 1] == 'Z' then txt[..|txt| - 1] + "+00:00" else txt);
        if parsed.Some? then Done(Utc(parsed.value.0, parsed.value.1)) else CastError
    case _ => CastError
  }

  function CastDate(py: Python, v: Value): Outcome<Value> {
    match v
    case VDate(day) => Done(v)
    case VDatetime(wall, _) => Done(VDate(wall / SECONDS_PER_DAY))
    case VStr(s) =>
      var txt := Strip(s);
      if txt != "" && py.parseDate(txt).Some? then Done(VDate(py.parseDate(txt).value)) else CastError
    case _ => CastError
  }

  // ---------- Dictionaries ----------

  /** `d.get(key)` */
  function Lookup(entries: seq<Entry>, key: Value): Value {
    if entries == [] then VNone
    else if entries[0].key == key then entries[0].value
    else Lookup(entries[1..], key)
  }

  /** `d[key] = value`: an old key keeps its place. */
  function Put(entries: seq<Entry>, key: Value, value: Value): seq<Entry> {
    if entries == [] then [Entry(key, value)]
    else if entries[0].key == key then [Entry(key, value)] + entries[1..]
    else [entries[0]] + Put(entries[1..], key, value)
  }

  // ---------- The cast ----------

  /** Outside string fields an empty string counts as no value. */
  function EmptyToNone(v: Value, t: Type): Value {
    if v == VStr("") && !t.TString? then VNone else v
  }

  function CastValue(py: Python, given: Value, t: Type): Outcome<Value>
    decreases t, 2
  {
    var v := EmptyToNone(given, t);
    if v == VNone then Done(VNone)
    else match t
      case TString => CastString(py, v)
      case TBool => CastBool(py, v)
      case TInt => CastInt(py, v)
      case TDecimal => CastDecimal(py, v)
      case TTimestamp => CastTimestamp(py, v)
      case TDate => CastDate(py, v)
      case TStruct(fields) =>
        if !v.VDict? then CastError
        else
          var out :- CastFields(py, v.entries, fields, []);
          Done(VDict(out))
      case TList(item) =>
        if !v.VList? then CastError
        else
          var out :- CastItems(py, v.items, item);
          Done(VList(out))
      case TMap(key, value) =>
        if !v.VDict? then CastError
        else
          var out :- CastEntries(py, v.entries, key, value, []);
          Done(VDict(out))
      case TOther => Done(v)
  }

  function CastFields(py: Python, record: seq<Entry>, fields: seq<Field>, out: seq<Entry>): Outcome<seq<Entry>>
    decreases fields, 1
  {
    if fields == [] then Done(out)
    else
      var v :- CastValue(py, Lookup(record, VStr(fields[0].name)), fields[0].typ);
      CastFields(py, record, fields[1..], Put(out, VStr(fields[0].name), v))
  }

  function CastItems(py: Python, items: seq<Value>, item: Type): Outcome<seq<Value>>
    decreases item, 3, |items|
  {
    if items == [] then Done([])
    else
      var v :- CastValue(py, items[0], item);
      var rest :- CastItems(py, items[1..], item);
      Done([v] + rest)
  }

  function CastEntries(py: Python, entries: seq<Entry>, key: Type, value: Type, out: seq<Entry>): Outcome<seq<Entry>>
    decreases TMap(key, value), 1, |entries|
  {
    if entries == [] then Done(out)
    else
      var k :- CastValue(py, entries[0].key, key);
      var v :- CastValue(py, entries[0].value, value);
      CastEntries(py, entries[1..], key, value, Put(out, k, v))
  }

  /** `cast_for_storage`: one column per field of the schema. */
  function CastForStorage(py: Python, record: seq<Entry>, schema: seq<Field>): Outcome<seq<Entry>> {
    CastFields(py, record, schema, [])
  }

  // ---------- Shapes ----------

  ghost predicate DistinctNames(fields: seq<Field>) {
    forall i, j :: 0 <= i < j < |fields| ==> fields[i].name != fields[j].name
  }

  /** No struct at any depth has two fields of one name. */
  ghost predicate WellFormed(t: Type) {
    match t
    case TStruct(fields) => DistinctNames(fields) && forall i :: 0 <= i < |fields| ==> WellFormed(fields[i].typ)
    case TList(item) => WellFormed(item)
    case TMap(key, value) => WellFormed(key) && WellFormed(value)
    case _ => true
  }

  /** Two fields make a struct exactly when their names differ and their types are well-formed. */
  lemma StructOfTwo(f: Field, g: Field)
    ensures WellFormed(TStruct([f, g])) <==> f.name != g.name && WellFormed(f.typ) && WellFormed(g.typ)
  {
    hide WellFormed;
    assert [f, g][0] == f && [f, g][1] == g;
    TwoFields(f, g);
  }

  lemma TwoFields(f: Field, g: Field)
    ensures WellFormed(TStruct([f, g])) <==>
      DistinctNames([f, g]) && forall i :: 0 <= i < 2 ==> WellFormed([f, g][i].typ)
  {
  }

  ghost predicate DistinctKeys(entries: seq<Entry>) {
    forall i, j :: 0 <= i < j < |entries| ==> entries[i].key != entries[j].key
  }

  /** The value is None or of the type, at every level. */
  ghost predicate HasShape(v: Value, t: Type)
    decreases t, 1
  {
    v == VNone ||
    match t
    case TString => v.VStr?
    case TBool => v.VBool?
    case TInt => v.VInt?
    case TDecimal => v.VDecimal?
    case TTimestamp => v.VDatetime? && v.offset == Some(0)
    case TDate => v.VDate?
    case TStruct(fields) => v.VDict? && RecordShape(v.entries, fields)
    case TList(item) => v.VList? && forall i :: 0 <= i < |v.items| ==> HasShape(v.items[i], item)
    case TMap(key, value) =>
      v.VDict? && DistinctKeys(v.entries)
      && forall i :: 0 <= i < |v.entries| ==> HasShape(v.entries[i].key, key) && HasShape(v.entries[i].value, value)
    case TOther => v != VStr("")
  }

  /** One entry per field, in the order of the fields. */
  ghost predicate RecordShape(entries: seq<Entry>, fields: seq<Field>)
    decreases fields, 0
  {
    |entries| == |fields| &&
    forall i :: 0 <= i < |fields| ==>
      entries[i].key == VStr(fields[i].name) && HasShape(entries[i].value, fields[i].typ)
  }

  // ---------- The cast is shape-sound ----------

  lemma {:induction false} PutNew(entries: seq<Entry>, key: Value, value: Value)
    requires forall i :: 0 <= i < |entries| ==> entries[i].key != key
    ensures Put(entries, key, value) == entries + [Entry(key, value)]
  {
    if entries != [] {
      PutNew(entries[1..], key, value);
      assert entries == [entries[0]] + entries[1..];
    }
  }

  lemma {:induction false} LookupPut(entries: seq<Entry>, key: Value, value: Value, k: Value)
    ensures Lookup(Put(entries, key, value), k) == if k == key then value else Lookup(entries, k)
  {
    if entries != [] && entries[0].key != key {
      LookupPut(entries[1..], key, value, k);
    }
  }

  lemma {:induction false} PutKeeps(entries: seq<Entry>, key: Value, value: Value)
    requires DistinctKeys(entries)
    ensures DistinctKeys(Put(entries, key, value))
    ensures forall e :: e in Put(entries, key, value) ==> e in entries || e == Entry(key, value)
  {
    if entries != [] && entries[0].key != key {
      PutKeeps(entries[1..], key, value);
      var rest := Put(entries[1..], key, value);
      assert forall e :: e in entries[1..] ==> e in entries;
      forall i | 0 <= i < |rest|
        ensures rest[i].key != entries[0].key
      {
        assert rest[i] in rest;
      }
    }
  }

  lemma ScalarShape(py: Python, given: Value, t: Type)
    requires !t.TStruct? && !t.TList? && !t.TMap? && CastValue(py, given, t).Done?
    ensures HasShape(CastValue(py, given, t).value, t)
  {
  }

  /** Whatever is cast has the shape of the type at every level, or is None. */
  lemma {:induction false} CastHasShape(py: Python, given: Value, t: Type)
    requires WellFormed(t) && CastValue(py, given, t).Done?
    ensures HasShape(CastValue(py, given, t).value, t)
    decreases t, 2
  {
    var v := EmptyToNone(given, t);
    if v != VNone {
      match t
      case TStruct(fields) => FieldsHaveShape(py, v.entries, fields, 0, []);
      case TList(item) => ItemsHaveShape(py, v.items, item);
      case TMap(key, value) => EntriesHaveShape(py, v.entries, key, value, []);
      case _ => ScalarShape(py, given, t);
    }
  }

  lemma {:induction false} FieldsHaveShape(py: Python, record: seq<Entry>, fields: seq<Field>, n: nat, out: seq<Entry>)
    requires DistinctNames(fields) && forall i :: 0 <= i < |fields| ==> WellFormed(fields[i].typ)
    requires n <= |fields| && RecordShape(out, fields[..n]) && CastFields(py, record, fields[n..], out).Done?
    ensures RecordShape(CastFields(py, record, fields[n..], out).value, fields)
    decreases fields, 1, |fields| - n
  {
    hide CastValue, Lookup;
    if n == |fields| {
      assert fields[..n] == fields;
    } else {
      var f := fields[n];
      var v := CastValue(py, Lookup(record, VStr(f.name)), f.typ).value;
      CastHasShape(py, Lookup(record, VStr(f.name)), f.typ);
      PutNew(out, VStr(f.name), v);
      assert fields[n..][1..] == fields[n + 1..];
      assert fields[..n + 1] == fields[..n] + [f];
      FieldsHaveShape(py, record, fields, n + 1, Put(out, VStr(f.name), v));
    }
  }

  lemma {:induction false} ItemsHaveShape(py: Python, items: seq<Value>, item: Type)
    requires WellFormed(item) && CastItems(py, items, item).Done?
    ensures var out := CastItems(py, items, item).value;
      |out| == |items| && forall i :: 0 <= i < |out| ==> HasShape(out[i], item)
    decreases item, 3, |items|
  {
    hide CastValue;
    if items != [] {
      CastHasShape(py, items[0], item);
      ItemsHaveShape(py, items[1..], item);
    }
  }

  ghost predicate MapShape(entries: seq<Entry>, key: Type, value: Type) {
    DistinctKeys(entries) && forall e :: e in entries ==> HasShape(e.key, key) && HasShape(e.value, value)
  }

  lemma {:induction false} EntriesHaveShape(py: Python, entries: seq<Entry>, key: Type, value: Type, out: seq<Entry>)
    requires WellFormed(key) && WellFormed(value) && MapShape(out, key, value)
      && CastEntries(py, entries, key, value, out).Done?
    ensures MapShape(CastEntries(py, entries, key, value, out).value, key, value)
    decreases TMap(key, value), 1, |entries|
  {
    hide CastValue, HasShape;
    if entries != [] {
      CastHasShape(py, entries[0].key, key);
      CastHasShape(py, entries[0].value, value);
      var k, v := CastValue(py, entries[0].key, key).value, CastValue(py, entries[0].value, value).value;
      PutKeeps(out, k, v);
      EntriesHaveShape(py, entries[1..], key, value, Put(out, k, v));
    }
  }

  // ---------- Values of the right shape are fixed ----------

  lemma {:induction false} LookupAt(entries: seq<Entry>, i: nat)
    requires DistinctKeys(entries) && i < |entries|
    ensures Lookup(entries, entries[i].key) == entries[i].value
  {
    if i > 0 {
      assert entries[0].key != entries[i].key;
      LookupAt(entries[1..], i - 1);
    }
  }

  /** A value that already has the shape is returned unchanged. */
  lemma {:induction false} ShapedIsFixed(py: Python, v: Value, t: Type)
    requires WellFormed(t) && HasShape(v, t)
    ensures CastValue(py, v, t) == Done(v)
    decreases t, 2
  {
    if v != VNone {
      match t
      case TStruct(fields) =>
        FieldsAreFixed(py, v.entries, fields, 0);
        assert v.entries[..0] == [] && fields[0..] == fields;
      case TList(item) => ItemsAreFixed(py, v.items, item);
      case TMap(key, value) =>
        EntriesAreFixed(py, v.entries, key, value, 0);
        assert v.entries[..0] == [] && v.entries[0..] == v.entries;
      case _ =>
    }
  }

  lemma {:induction false} FieldsAreFixed(py: Python, record: seq<Entry>, fields: seq<Field>, n: nat)
    requires DistinctNames(fields) && forall i :: 0 <= i < |fields| ==> WellFormed(fields[i].typ)
    requires RecordShape(record, fields) && n <= |fields|
    ensures CastFields(py, record, fields[n..], record[..n]) == Done(record)
    decreases fields, 1, |fields| - n
  {
    hide CastValue, Lookup;
    if n == |fields| {
      assert record[..n] == record;
    } else {
      var f := fields[n];
      LookupAt(record, n);
      ShapedIsFixed(py, record[n].value, f.typ);
      PutNew(record[..n], VStr(f.name), record[n].value);
      assert record[..n + 1] == record[..n] + [record[n]];
      assert fields[n..][1..] == fields[n + 1..];
      FieldsAreFixed(py, record, fields, n + 1);
    }
  }

  lemma {:induction false} ItemsAreFixed(py: Python, items: seq<Value>, item: Type)
    requires WellFormed(item) && forall i :: 0 <= i < |items| ==> HasShape(items[i], item)
    ensures CastItems(py, items, item) == Done(items)
    decreases item, 3, |items|
  {
    hide CastValue;
    if items != [] {
      ShapedIsFixed(py, items[0], item);
      ItemsAreFixed(py, items[1..], item);
      assert items == [items[0]] + items[1..];
    }
  }

  lemma {:induction false} EntriesAreFixed(py: Python, entries: seq<Entry>, key: Type, value: Type, n: nat)
    requires WellFormed(key) && WellFormed(value) && DistinctKeys(entries) && n <= |entries|
    requires forall i :: 0 <= i < |entries| ==> HasShape(entries[i].key, key) && HasShape(entries[i].value, value)
    ensures CastEntries(py, entries[n..], key, value, entries[..n]) == Done(entries)
    decreases TMap(key, value), 1, |entries| - n
  {
    hide CastValue;
    if n == |entries| {
      assert entries[..n] == entries;
    } else {
      ShapedIsFixed(py, entries[n].key, key);
      ShapedIsFixed(py, entries[n].value, value);
      PutNew(entries[..n], entries[n].key, entries[n].value);
      assert entries[..n + 1] == entries[..n] + [entries[n]];
      assert entries[n..][1..] == entries[n + 1..];
      EntriesAreFixed(py, entries, key, value, n + 1);
    }
  }

  /** The values that the cast leaves alone are exactly those of the shape of the type. */
  lemma FixedExactlyWhenShaped(py: Python, v: Value, t: Type)
    requires WellFormed(t)
    ensures CastValue(py, v, t) == Done(v) <==> HasShape(v, t)
  {
    hide CastValue, HasShape;
    if CastValue(py, v, t) == Done(v) {
      CastHasShape(py, v, t);
    }
    if HasShape(v, t) {
      ShapedIsFixed(py, v, t);
    }
  }

  /** Casting is idempotent, colliding map keys included. */
  lemma CastIsIdempotent(py: Python, v: Value, t: Type)
    requires WellFormed(t) && CastValue(py, v, t).Done?
    ensures CastValue(py, CastValue(py, v, t).value, t) == CastValue(py, v, t)
  {
    hide CastValue, HasShape;
    CastHasShape(py, v, t);
    ShapedIsFixed(py, CastValue(py, v, t).value, t);
  }

  /** The cast of a whole record gives one column per field of the schema, each of its shape, and
      casting what it gave changes nothing. */
  lemma RecordCastHasShape(py: Python, record: seq<Entry>, schema: seq<Field>)
    requires WellFormed(TStruct(schema)) && CastForStorage(py, record, schema).Done?
    ensures RecordShape(CastForStorage(py, record, schema).value, schema)
    ensures CastForStorage(py, CastForStorage(py, record, schema).value, schema) == CastForStorage(py, record, schema)
  {
    assert schema[0..] == schema;
    FieldsHaveShape(py, record, schema, 0, []);
    var out := CastForStorage(py, record, schema).value;
    assert out[..0] == [];
    FieldsAreFixed(py, out, schema, 0);
  }

  // ---------- What the schema does not name does not matter ----------

  /** The two values agree on everything that type `t` names, at every level. */
  ghost predicate AgreeOn(v: Value, w: Value, t: Type)
    decreases t, 1
  {
    v == w ||
    match t
    case TStruct(fields) => v.VDict? && w.VDict? && RecordsAgree(v.entries, w.entries, fields)
    case TList(item) =>
      v.VList? && w.VList? && |v.items| == |w.items|
      && forall i :: 0 <= i < |v.items| ==> AgreeOn(v.items[i], w.items[i], item)
    case TMap(key, value) =>
      v.VDict? && w.VDict? && |v.entries| == |w.entries|
      && forall i :: 0 <= i < |v.entries| ==>
        AgreeOn(v.entries[i].key, w.entries[i].key, key) && AgreeOn(v.entries[i].value, w.entries[i].value, value)
    case _ => false
  }

  ghost predicate RecordsAgree(r: seq<Entry>, q: seq<Entry>, fields: seq<Field>)
    decreases fields, 0
  {
    forall i :: 0 <= i < |fields| ==>
      AgreeOn(Lookup(r, VStr(fields[i].name)), Lookup(q, VStr(fields[i].name)), fields[i].typ)
  }

  lemma {:induction false} AgreeingValuesCastAlike(py: Python, v: Value, w: Value, t: Type)
    requires AgreeOn(v, w, t)
    ensures CastValue(py, v, t) == CastValue(py, w, t)
    decreases t, 2
  {
    if v != w {
      match t
      case TStruct(fields) => AgreeingRecordsCastAlike(py, v.entries, w.entries, fields, []);
      case TList(item) => AgreeingItemsCastAlike(py, v.items, w.items, item);
      case TMap(key, value) => AgreeingEntriesCastAlike(py, v.entries, w.entries, key, value, []);
    }
  }

  /** Fields outside the schema, at the top or inside any nested struct, never affect the result. */
  lemma {:induction false} AgreeingRecordsCastAlike(py: Python, r: seq<Entry>, q: seq<Entry>, fields: seq<Field>,
                                                    out: seq<Entry>)
    requires RecordsAgree(r, q, fields)
    ensures CastFields(py, r, fields, out) == CastFields(py, q, fields, out)
    decreases fields, 1
  {
    hide CastValue, AgreeOn;
    if fields != [] {
      var name := VStr(fields[0].name);
      AgreeingValuesCastAlike(py, Lookup(r, name), Lookup(q, name), fields[0].typ);
      var v := CastValue(py, Lookup(r, name), fields[0].typ);
      if v.Done? {
        AgreeingRecordsCastAlike(py, r, q, fields[1..], Put(out, name, v.value));
      }
    }
  }

  /** So a field that the schema does not name may be added to any record, at the top or in a struct. */
  lemma ExtraFieldDoesNotMatter(py: Python, record: seq<Entry>, extra: Entry, fields: seq<Field>)
    requires forall i :: 0 <= i < |fields| ==> extra.key != VStr(fields[i].name)
    ensures CastForStorage(py, record + [extra], fields) == CastForStorage(py, record, fields)
    ensures CastValue(py, VDict(record + [extra]), TStruct(fields)) == CastValue(py, VDict(record), TStruct(fields))
  {
    hide CastValue, CastFields;
    forall i | 0 <= i < |fields|
      ensures AgreeOn(Lookup(record + [extra], VStr(fields[i].name)), Lookup(record, VStr(fields[i].name)),
        fields[i].typ)
    {
      LookupBefore(record, extra, VStr(fields[i].name));
    }
    AgreeingRecordsCastAlike(py, record + [extra], record, fields, []);
    AgreeingValuesCastAlike(py, VDict(record + [extra]), VDict(record), TStruct(fields));
  }

  lemma {:induction false} LookupBefore(record: seq<Entry>, extra: Entry, key: Value)
    requires extra.key != key
    ensures Lookup(record + [extra], key) == Lookup(record, key)
  {
    if record == [] {
      assert (record + [extra])[1..] == [];
    } else {
      assert (record + [extra])[1..] == record[1..] + [extra];
      LookupBefore(record[1..], extra, key);
    }
  }

  lemma {:induction false} AgreeingItemsCastAlike(py: Python, xs: seq<Value>, ys: seq<Value>, item: Type)
    requires |xs| == |ys| && forall i :: 0 <= i < |xs| ==> AgreeOn(xs[i], ys[i], item)
    ensures CastItems(py, xs, item) == CastItems(py, ys, item)
    decreases item, 3, |xs|
  {
    hide CastValue, AgreeOn;
    if xs != [] {
      AgreeingValuesCastAlike(py, xs[0], ys[0], item);
      AgreeingItemsCastAlike(py, xs[1..], ys[1..], item);
    }
  }

  lemma {:induction false} AgreeingEntriesCastAlike(py: Python, xs: seq<Entry>, ys: seq<Entry>, key: Type, value: Type,
                                                    out: seq<Entry>)
    requires |xs| == |ys|
    requires forall i :: 0 <= i < |xs| ==>
      AgreeOn(xs[i].key, ys[i].key, key) && AgreeOn(xs[i].value, ys[i].value, value)
    ensures CastEntries(py, xs, key, value, out) == CastEntries(py, ys, key, value, out)
    decreases TMap(key, value), 1, |xs|
  {
    hide CastValue, AgreeOn;
    if xs != [] {
      AgreeingValuesCastAlike(py, xs[0].key, ys[0].key, key);
      AgreeingValuesCastAlike(py, xs[0].value, ys[0].value, value);
      var k, v := CastValue(py, xs[0].key, key), CastValue(py, xs[0].value, value);
      if k.Done? && v.Done? {
        AgreeingEntriesCastAlike(py, xs[1..], ys[1..], key, value, Put(out, k.value, v.value));
      }
    }
  }
}
