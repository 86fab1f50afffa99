/** Two laws of the storage cast: when casting a second time changes nothing, for every type, and that
    a stored value survives the way through its wire form. */
module StorageCastLaws {
  import opened Prelude
  import opened PyText
  import opened StorageCast

  // ---------- Casting a second time ----------

  /** No later field has the name of field `i`. */
  predicate IsLast(fields: seq<Field>, i: nat)
    requires i < |fields|
  {
    forall j :: i < j < |fields| ==> fields[j].name != fields[i].name
  }

  /** `v`, itself a result of the cast, can be cast again without a change: in every struct each field
      that a later one of the same name overwrote must also be able to read what that one left. */
  ghost predicate Recasts(py: Python, v: Value, t: Type)
    decreases t, 1
  {
    v == VNone ||
    match t
    case TStruct(fields) => v.VDict? && RecordRecasts(py, v.entries, fields)
    case TList(item) => v.VList? && forall i :: 0 <= i < |v.items| ==> Recasts(py, v.items[i], item)
    case TMap(key, value) =>
      v.VDict?
      && forall i :: 0 <= i < |v.entries| ==>
        Recasts(py, v.entries[i].key, key) && Recasts(py, v.entries[i].value, value)
    case _ => true
  }

  ghost predicate RecordRecasts(py: Python, entries: seq<Entry>, fields: seq<Field>)
    decreases fields, 0
  {
    forall i :: 0 <= i < |fields| ==>
      var x := Lookup(entries, VStr(fields[i].name));
      if IsLast(fields, i) then Recasts(py, x, fields[i].typ) else CastValue(py, x, fields[i].typ).Done?
  }

  // ---------- Both dictionary loops are repeated `Put`s ----------

  function PutAll(out: seq<Entry>, pairs: seq<Entry>): seq<Entry>
    decreases |pairs|
  {
    if pairs == [] then out else PutAll(Put(out, pairs[0].key, pairs[0].value), pairs[1..])
  }

  /** What the loop over the fields puts. */
  function FieldPairs(py: Python, record: seq<Entry>, fields: seq<Field>): seq<Entry>
    requires FieldsCast(py, record, fields)
  {
    seq(|fields|, i requires 0 <= i < |fields| =>
      Entry(VStr(fields[i].name), CastValue(py, Lookup(record, VStr(fields[i].name)), fields[i].typ).value))
  }

  predicate FieldsCast(py: Python, record: seq<Entry>, fields: seq<Field>) {
    forall i :: 0 <= i < |fields| ==> CastValue(py, Lookup(record, VStr(fields[i].name)), fields[i].typ).Done?
  }

  /** What the loop over the entries of a map puts. */
  function EntryPairs(py: Python, entries: seq<Entry>, key: Type, value: Type): seq<Entry>
    requires EntriesCast(py, entries, key, value)
  {
    seq(|entries|, i requires 0 <= i < |entries| =>
      Entry(CastValue(py, entries[i].key, key).value, CastValue(py, entries[i].value, value).value))
  }

  predicate EntriesCast(py: Python, entries: seq<Entry>, key: Type, value: Type) {
    forall i :: 0 <= i < |entries| ==>
      CastValue(py, entries[i].key, key).Done? && CastValue(py, entries[i].value, value).Done?
  }

  lemma {:induction false} FieldsArePut(py: Python, record: seq<Entry>, fields: seq<Field>, out: seq<Entry>)
    ensures CastFields(py, record, fields, out).Done? <==> FieldsCast(py, record, fields)
    ensures FieldsCast(py, record, fields) ==>
      CastFields(py, record, fields, out).value == PutAll(out, FieldPairs(py, record, fields))
    decreases |fields|
  {
    hide CastValue, Lookup, Put;
    if fields != [] {
      var v := CastValue(py, Lookup(record, VStr(fields[0].name)), fields[0].typ);
      if v.Done? {
        FieldsArePut(py, record, fields[1..], Put(out, VStr(fields[0].name), v.value));
        FieldsCastTail(py, record, fields);
      }
    }
  }

  lemma FieldsCastTail(py: Python, record: seq<Entry>, fields: seq<Field>)
    requires fields != [] && CastValue(py, Lookup(record, VStr(fields[0].name)), fields[0].typ).Done?
    ensures FieldsCast(py, record, fields) <==> FieldsCast(py, record, fields[1..])
    ensures FieldsCast(py, record, fields) ==>
      FieldPairs(py, record, fields)[1..] == FieldPairs(py, record, fields[1..])
  {
    hide CastValue, Lookup;
    if FieldsCast(py, record, fields[1..]) {
      forall i | 0 <= i < |fields|
        ensures CastValue(py, Lookup(record, VStr(fields[i].name)), fields[i].typ).Done?
      {
        if i > 0 {
          assert fields[i] == fields[1..][i - 1];
        }
      }
    }
  }

  lemma {:induction false} EntriesArePut(py: Python, entries: seq<Entry>, key: Type, value: Type, out: seq<Entry>)
    ensures CastEntries(py, entries, key, value, out).Done? <==> EntriesCast(py, entries, key, value)
    ensures EntriesCast(py, entries, key, value) ==>
      CastEntries(py, entries, key, value, out).value == PutAll(out, EntryPairs(py, entries, key, value))
    decreases |entries|
  {
    hide CastValue, Put;
    if entries != [] {
      var k, v := CastValue(py, entries[0].key, key), CastValue(py, entries[0].value, value);
      if k.Done? && v.Done? {
        EntriesArePut(py, entries[1..], key, value, Put(out, k.value, v.value));
        EntriesCastTail(py, entries, key, value);
      }
    }
  }

  lemma EntriesCastTail(py: Python, entries: seq<Entry>, key: Type, value: Type)
    requires entries != [] && CastValue(py, entries[0].key, key).Done? && CastValue(py, entries[0].value, value).Done?
    ensures EntriesCast(py, entries, key, value) <==> EntriesCast(py, entries[1..], key, value)
    ensures EntriesCast(py, entries, key, value) ==>
      EntryPairs(py, entries, key, value)[1..] == EntryPairs(py, entries[1..], key, value)
  {
    hide CastValue;
    assert forall i :: 0 <= i < |entries| - 1 ==> entries[1..][i] == entries[i + 1];
    if EntriesCast(py, entries[1..], key, value) {
      forall i | 0 <= i < |entries|
        ensures CastValue(py, entries[i].key, key).Done? && CastValue(py, entries[i].value, value).Done?
      {
        assert i > 0 ==> entries[i] == entries[1..][i - 1];
      }
    }
  }

  // ---------- What repeated `Put`s leave ----------

  predicate SameKeys(a: seq<Entry>, b: seq<Entry>) {
    |a| == |b| && forall i :: 0 <= i < |a| ==> a[i].key == b[i].key
  }

  lemma {:induction false} PutSameKeys(a: seq<Entry>, b: seq<Entry>, key: Value, v: Value, w: Value)
    requires SameKeys(a, b)
    ensures SameKeys(Put(a, key, v), Put(b, key, w))
  {
    if a != [] && a[0].key != key {
      PutSameKeys(a[1..], b[1..], key, v, w);
    }
  }

  lemma {:induction false} PutAllSameKeys(a: seq<Entry>, b: seq<Entry>, p: seq<Entry>, q: seq<Entry>)
    requires SameKeys(a, b) && SameKeys(p, q)
    ensures SameKeys(PutAll(a, p), PutAll(b, q))
    decreases |p|
  {
    hide Put;
    if p != [] {
      PutSameKeys(a, b, p[0].key, p[0].value, q[0].value);
      PutAllSameKeys(Put(a, p[0].key, p[0].value), Put(b, q[0].key, q[0].value), p[1..], q[1..]);
    }
  }

  lemma {:induction false} PutAllOther(out: seq<Entry>, pairs: seq<Entry>, k: Value)
    requires forall i :: 0 <= i < |pairs| ==> pairs[i].key != k
    ensures Lookup(PutAll(out, pairs), k) == Lookup(out, k)
    decreases |pairs|
  {
    hide Put, Lookup;
    if pairs != [] {
      LookupPut(out, pairs[0].key, pairs[0].value, k);
      PutAllOther(Put(out, pairs[0].key, pairs[0].value), pairs[1..], k);
    }
  }

  /** The last pair put under a key is the one found there. */
  lemma {:induction false} PutAllLast(out: seq<Entry>, pairs: seq<Entry>, i: nat)
    requires i < |pairs| && forall j :: i < j < |pairs| ==> pairs[j].key != pairs[i].key
    ensures Lookup(PutAll(out, pairs), pairs[i].key) == pairs[i].value
    decreases |pairs|
  {
    hide Put, Lookup;
    var next := Put(out, pairs[0].key, pairs[0].value);
    if i == 0 {
      PutAllOther(next, pairs[1..], pairs[0].key);
      LookupPut(out, pairs[0].key, pairs[0].value, pairs[0].key);
    } else {
      PutAllLast(next, pairs[1..], i - 1);
    }
  }

  lemma {:induction false} PutAllKeeps(out: seq<Entry>, pairs: seq<Entry>)
    requires DistinctKeys(out)
    ensures DistinctKeys(PutAll(out, pairs))
    ensures forall e :: e in PutAll(out, pairs) ==> e in out || e in pairs
    decreases |pairs|
  {
    hide Put, DistinctKeys;
    if pairs != [] {
      PutKeeps(out, pairs[0].key, pairs[0].value);
      PutAllKeeps(Put(out, pairs[0].key, pairs[0].value), pairs[1..]);
      assert pairs == [pairs[0]] + pairs[1..];
    }
  }

  lemma {:induction false} PutSize(entries: seq<Entry>, key: Value, value: Value)
    ensures |Put(entries, key, value)| <= |entries| + 1
    ensures |Put(entries, key, value)| == |entries| + 1 ==> Put(entries, key, value) == entries + [Entry(key, value)]
  {
    if entries != [] && entries[0].key != key {
      PutSize(entries[1..], key, value);
      assert entries == [entries[0]] + entries[1..];
    }
  }

  /** As many entries as pairs: nothing collided, and the pairs stand as they were put. */
  lemma {:induction false} PutAllSize(out: seq<Entry>, pairs: seq<Entry>)
    ensures |PutAll(out, pairs)| <= |out| + |pairs|
    ensures |PutAll(out, pairs)| == |out| + |pairs| ==> PutAll(out, pairs) == out + pairs
    decreases |pairs|
  {
    hide Put;
    if pairs == [] {
      assert out + pairs == out;
    } else {
      PutSize(out, pairs[0].key, pairs[0].value);
      PutAllSize(Put(out, pairs[0].key, pairs[0].value), pairs[1..]);
      assert out + [pairs[0]] + pairs[1..] == out + pairs;
    }
  }

  lemma {:induction false} PutAllDistinct(out: seq<Entry>, pairs: seq<Entry>)
    requires DistinctKeys(out + pairs)
    ensures PutAll(out, pairs) == out + pairs
    decreases |pairs|
  {
    if pairs == [] {
      assert out + pairs == out;
    } else {
      assert forall i :: 0 <= i < |out| ==> (out + pairs)[i] == out[i] && (out + pairs)[|out|] == pairs[0];
      PutNew(out, pairs[0].key, pairs[0].value);
      assert out + [pairs[0]] + pairs[1..] == out + pairs;
      PutAllDistinct(out + [pairs[0]], pairs[1..]);
    }
  }

  lemma {:induction false} LookupOf(entries: seq<Entry>, e: Entry)
    requires DistinctKeys(entries) && e in entries
    ensures Lookup(entries, e.key) == e.value
  {
    var i :| 0 <= i < |entries| && entries[i] == e;
    LookupAt(entries, i);
  }

  /** The last pair with the key of pair `i`. */
  lemma {:induction false} LastOf(pairs: seq<Entry>, i: nat) returns (l: nat)
    requires i < |pairs|
    ensures i <= l < |pairs| && pairs[l].key == pairs[i].key
    ensures forall j :: l < j < |pairs| ==> pairs[j].key != pairs[l].key
    decreases |pairs| - i
  {
    l := i;
    if j :| i < j < |pairs| && pairs[j].key == pairs[i].key {
      l := LastOf(pairs, j);
    }
  }

  /** Pairs with the same keys leave the same entries exactly when the last pairs of each key agree. */
  lemma SameEntriesExactly(p: seq<Entry>, q: seq<Entry>)
    requires SameKeys(p, q)
    ensures PutAll([], p) == PutAll([], q) <==>
      forall i :: 0 <= i < |p| && (forall j :: i < j < |p| ==> p[j].key != p[i].key) ==> p[i].value == q[i].value
  {
    hide PutAll, Lookup;
    var a, b := PutAll([], p), PutAll([], q);
    forall i | 0 <= i < |p| && (forall j :: i < j < |p| ==> p[j].key != p[i].key)
      ensures Lookup(a, p[i].key) == p[i].value && Lookup(b, p[i].key) == q[i].value
    {
      PutAllLast([], p, i);
      PutAllLast([], q, i);
    }
    PutAllSameKeys([], [], p, q);
    PutAllKeeps([], p);
    PutAllKeeps([], q);
    if forall i :: 0 <= i < |p| && (forall j :: i < j < |p| ==> p[j].key != p[i].key) ==> p[i].value == q[i].value {
      forall n | 0 <= n < |a|
        ensures a[n] == b[n]
      {
        assert a[n] in a && b[n] in b;
        LookupOf(a, a[n]);
        LookupOf(b, b[n]);
        var i :| 0 <= i < |p| && p[i] == a[n];
        var l := LastOf(p, i);
        assert p[l].key == a[n].key;
      }
    }
  }

  // ---------- The exact condition ----------

  /** For every type, repeated field names included: casting a result again gives the same exactly
      when it recasts. */
  lemma {:induction false} RecastExactly(py: Python, given: Value, t: Type)
    requires CastValue(py, given, t).Done?
    ensures var v := CastValue(py, given, t).value;
      CastValue(py, v, t) == Done(v) <==> Recasts(py, v, t)
    decreases t, 2
  {
    var v := EmptyToNone(given, t);
    if v != VNone {
      match t
      case TStruct(fields) => RecordRecastExactly(py, v.entries, fields);
      case TList(item) => ItemsRecastExactly(py, v.items, item);
      case TMap(key, value) => MapRecastExactly(py, v.entries, key, value);
      case _ =>
        ScalarShape(py, given, t);
        ShapedIsFixed(py, CastValue(py, given, t).value, t);
    }
  }

  /** The same of a whole record. */
  lemma {:induction false} RecordRecastExactly(py: Python, record: seq<Entry>, fields: seq<Field>)
    requires CastForStorage(py, record, fields).Done?
    ensures var out := CastForStorage(py, record, fields).value;
      CastForStorage(py, out, fields) == Done(out) <==> RecordRecasts(py, out, fields)
    decreases fields, 1
  {
    hide CastValue, Lookup, Recasts, PutAll, CastFields;
    var out := CastForStorage(py, record, fields).value;
    FieldsArePut(py, record, fields, []);
    FieldsArePut(py, out, fields, []);
    var first := FieldPairs(py, record, fields);
    forall i | 0 <= i < |fields| && IsLast(fields, i)
      ensures Lookup(out, VStr(fields[i].name)) == first[i].value
      ensures CastValue(py, first[i].value, fields[i].typ) == Done(first[i].value) <==>
        Recasts(py, first[i].value, fields[i].typ)
    {
      PutAllLast([], first, i);
      RecastExactly(py, Lookup(record, VStr(fields[i].name)), fields[i].typ);
    }
    if FieldsCast(py, out, fields) {
      var second := FieldPairs(py, out, fields);
      SameEntriesExactly(first, second);
      LastPairsAgree(py, out, fields, first, second);
    }
  }

  lemma LastPairsAgree(py: Python, out: seq<Entry>, fields: seq<Field>, first: seq<Entry>, second: seq<Entry>)
    requires FieldsCast(py, out, fields) && second == FieldPairs(py, out, fields) && SameKeys(first, second)
    requires forall i :: 0 <= i < |fields| && IsLast(fields, i) ==>
      && Lookup(out, VStr(fields[i].name)) == first[i].value
      && (CastValue(py, first[i].value, fields[i].typ) == Done(first[i].value) <==>
        Recasts(py, first[i].value, fields[i].typ))
    ensures RecordRecasts(py, out, fields) <==>
      forall i :: 0 <= i < |first| && (forall j :: i < j < |first| ==> first[j].key != first[i].key) ==>
        first[i].value == second[i].value
  {
    hide CastValue, Lookup, Recasts;
    forall i | 0 <= i < |fields|
      ensures IsLast(fields, i) <==> forall j :: i < j < |first| ==> first[j].key != first[i].key
    {
      assert forall j :: 0 <= j < |fields| ==> first[j].key == VStr(fields[j].name);
    }
  }

  lemma {:induction false} ItemsRecastExactly(py: Python, items: seq<Value>, item: Type)
    requires CastItems(py, items, item).Done?
    ensures var out := CastItems(py, items, item).value;
      CastItems(py, out, item) == Done(out) <==> forall i :: 0 <= i < |out| ==> Recasts(py, out[i], item)
    decreases item, 3, |items|
  {
    hide CastValue, Recasts;
    if items != [] {
      var out := CastItems(py, items, item).value;
      var rest := CastItems(py, items[1..], item).value;
      RecastExactly(py, items[0], item);
      ItemsRecastExactly(py, items[1..], item);
      assert out[1..] == rest;
      assert out == [out[0]] + rest;
      if CastItems(py, out, item).Done? {
        assert CastItems(py, out, item).value[1..] == CastItems(py, rest, item).value;
      }
      assert (forall i :: 0 <= i < |out| ==> Recasts(py, out[i], item)) <==>
        (Recasts(py, out[0], item) && forall i :: 0 <= i < |rest| ==> Recasts(py, rest[i], item)) by {
        assert forall i :: 0 < i < |out| ==> out[i] == rest[i - 1];
      }
    }
  }

  lemma {:induction false} MapRecastExactly(py: Python, entries: seq<Entry>, key: Type, value: Type)
    requires CastEntries(py, entries, key, value, []).Done?
    ensures var out := CastEntries(py, entries, key, value, []).value;
      CastEntries(py, out, key, value, []) == Done(out) <==>
        forall i :: 0 <= i < |out| ==> Recasts(py, out[i].key, key) && Recasts(py, out[i].value, value)
    decreases TMap(key, value), 1
  {
    hide CastValue, Recasts, PutAll, CastEntries, DistinctKeys;
    var out := CastEntries(py, entries, key, value, []).value;
    EntriesArePut(py, entries, key, value, []);
    var first := EntryPairs(py, entries, key, value);
    assert DistinctKeys([]) by { NoKeys(); }
    PutAllKeeps([], first);
    EntriesUnchangedExactly(py, out, key, value);
    forall n | 0 <= n < |out|
      ensures Unchanged(py, out[n], key, value) <==> Recasts(py, out[n].key, key) && Recasts(py, out[n].value, value)
    {
      assert out[n] in out;
      var i :| 0 <= i < |first| && first[i] == out[n];
      RecastExactly(py, entries[i].key, key);
      RecastExactly(py, entries[i].value, value);
    }
  }

  lemma NoKeys()
    ensures DistinctKeys([])
  {
  }

  /** Key and value are each cast to themselves. */
  predicate Unchanged(py: Python, e: Entry, key: Type, value: Type) {
    CastValue(py, e.key, key) == Done(e.key) && CastValue(py, e.value, value) == Done(e.value)
  }

  lemma EntriesUnchangedExactly(py: Python, out: seq<Entry>, key: Type, value: Type)
    requires DistinctKeys(out)
    ensures CastEntries(py, out, key, value, []) == Done(out) <==>
      forall n :: 0 <= n < |out| ==> Unchanged(py, out[n], key, value)
  {
    hide CastValue, PutAll, CastEntries, DistinctKeys, EntriesCast, Unchanged;
    EntriesArePut(py, out, key, value, []);
    UnchangedPairs(py, out, key, value);
    if EntriesCast(py, out, key, value) {
      PutAllFixed(out, EntryPairs(py, out, key, value));
    }
  }

  lemma UnchangedPairs(py: Python, out: seq<Entry>, key: Type, value: Type)
    ensures (forall n :: 0 <= n < |out| ==> Unchanged(py, out[n], key, value)) <==>
      (EntriesCast(py, out, key, value) && EntryPairs(py, out, key, value) == out)
  {
    hide CastValue;
    if EntriesCast(py, out, key, value) {
      var pairs := EntryPairs(py, out, key, value);
      assert forall n :: 0 <= n < |out| ==> (Unchanged(py, out[n], key, value) <==> pairs[n] == out[n]);
    }
  }

  lemma PutAllFixed(out: seq<Entry>, pairs: seq<Entry>)
    requires DistinctKeys(out) && |pairs| == |out|
    ensures PutAll([], pairs) == out <==> pairs == out
  {
    hide PutAll, DistinctKeys;
    assert [] + out == out && [] + pairs == pairs;
    PutAllSize([], pairs);
    PutAllDistinct([], out);
  }

  /** A struct type with two fields of one name breaks idempotence: the later field overwrites
      what the earlier one is then asked to read. */
  lemma DuplicateNamesBreakIdempotence(py: Python)
    requires py.str(VInt(7)) == "7" && py.lower("7") == "7"
    ensures var t := TStruct([Field("a", TBool), Field("a", TString)]);
      var v := VDict([Entry(VStr("a"), VInt(7))]);
      && CastValue(py, v, t) == Done(VDict([Entry(VStr("a"), VStr("7"))]))
      && CastValue(py, VDict([Entry(VStr("a"), VStr("7"))]), t) == CastError
  {
    hide CastValue, Lookup, Put;
    var flag, text := Field("a", TBool), Field("a", TString);
    var seven, one, str7 := [Entry(VStr("a"), VInt(7))], [Entry(VStr("a"), VBool(true))], [Entry(VStr("a"), VStr("7"))];
    SevenAsFlagAndText(py);
    OnlyEntry(VStr("a"), VInt(7), VBool(true));
    OnlyEntry(VStr("a"), VBool(true), VStr("7"));
    OnlyEntry(VStr("a"), VStr("7"), VStr("7"));
    FieldStep(py, seven, flag, [text], []);
    FieldStep(py, seven, text, [], one);
    FieldStep(py, str7, flag, [text], []);
    assert [flag] + [text] == [flag, text] && [text] + [] == [text];
    StructCast(py, seven, [flag, text]);
    StructCast(py, str7, [flag, text]);
  }

  lemma SevenAsFlagAndText(py: Python)
    requires py.str(VInt(7)) == "7" && py.lower("7") == "7"
    ensures CastValue(py, VInt(7), TBool) == Done(VBool(true)) && CastValue(py, VInt(7), TString) == Done(VStr("7"))
    ensures CastValue(py, VStr("7"), TBool) == CastError
  {
    hide Strip, CastFields, CastItems, CastEntries;
    TrimmedStays("7");
    SevenIsNoFlag(py);
  }

  lemma SevenIsNoFlag(py: Python)
    requires py.lower("7") == "7" && Strip("7") == "7"
    ensures CastBool(py, VStr("7")) == CastError
  {
    hide Strip;
    assert "7"[0] != "1"[0] && "7"[0] != "0"[0];
  }

  lemma OnlyEntry(key: Value, before: Value, after: Value)
    ensures Lookup([Entry(key, before)], key) == before
    ensures Put([], key, before) == [Entry(key, before)] && Put([Entry(key, before)], key, after) == [Entry(key, after)]
  {
  }

  lemma StructCast(py: Python, record: seq<Entry>, fields: seq<Field>)
    ensures var out := CastFields(py, record, fields, []);
      CastValue(py, VDict(record), TStruct(fields)) ==
        if out.Done? then Done(VDict(out.value)) else out.PropagateFailure()
  {
    hide CastFields;
  }

  lemma FieldStep(py: Python, record: seq<Entry>, f: Field, rest: seq<Field>, out: seq<Entry>)
    ensures var v := CastValue(py, Lookup(record, VStr(f.name)), f.typ);
      CastFields(py, record, [f] + rest, out) ==
        if v.Done? then CastFields(py, record, rest, Put(out, VStr(f.name), v.value)) else v.PropagateFailure()
    ensures CastFields(py, record, [], out) == Done(out)
  {
    hide CastValue, Lookup, Put;
    assert ([f] + rest)[1..] == rest;
  }

  // ---------- Wire text is read back ----------

  ghost predicate PlainText(txt: string) {
    txt != "" && Strip(txt) == txt
  }

  predicate IsScalar(t: Type) {
    t.TBool? || t.TInt? || t.TDecimal? || t.TTimestamp? || t.TDate?
  }

  /** A time as the cast hands it to the parser: a final Z means UTC. */
  function Iso(txt: string): string
    requires txt != ""
  {
    if txt[|txt| - 1] == 'Z' then txt[..|txt| - 1] + "+00:00" else txt
  }

  /** Python reads the scalar `v` in the text; a time may be written in any offset. */
  ghost predicate Spells(py: Python, txt: string, v: Value) {
    match v
    case VBool(b) => PlainText(txt) && py.lower(txt) == if b then "true" else "false"
    case VInt(n) => txt != "" && py.parseInt(txt) == Some(n)
    case VDecimal(d) => PlainText(txt) && py.parseDecimal(txt) == Some(d)
    case VDatetime(wall, offset) =>
      && PlainText(txt) && offset == Some(0)
      && exists shift :: py.parseDatetime(Iso(txt)) == Some((wall + shift, Some(shift)))
    case VDate(day) => PlainText(txt) && py.parseDate(txt) == Some(day)
    case _ => false
  }

  /** `w` is a wire form of the storage value `v`: at any level a scalar may be written as a text
      that spells it and a missing value as an empty string, and records may have their fields in
      any order among others that the schema does not name. */
  ghost predicate WireForm(py: Python, w: Value, v: Value, t: Type)
    decreases t, 1
  {
    || w == v
    || (v == VNone && w == VStr("") && !t.TString?)
    || (v != VNone && IsScalar(t) && w.VStr? && Spells(py, w.s, v))
    || match t
       case TStruct(fields) => v.VDict? && w.VDict? && WireRecord(py, w.entries, v.entries, fields)
       case TList(item) =>
         v.VList? && w.VList? && |v.items| == |w.items|
         && forall i :: 0 <= i < |v.items| ==> WireForm(py, w.items[i], v.items[i], item)
       case TMap(key, value) =>
         v.VDict? && w.VDict? && |v.entries| == |w.entries|
         && forall i :: 0 <= i < |v.entries| ==>
           && WireForm(py, w.entries[i].key, v.entries[i].key, key)
           && WireForm(py, w.entries[i].value, v.entries[i].value, value)
       case _ => false
  }

  ghost predicate WireRecord(py: Python, record: seq<Entry>, stored: seq<Entry>, fields: seq<Field>)
    decreases fields, 0
  {
    |stored| == |fields|
    && forall i :: 0 <= i < |fields| ==>
      WireForm(py, Lookup(record, VStr(fields[i].name)), stored[i].value, fields[i].typ)
  }

  lemma BoolTextIsRead(py: Python, txt: string, b: bool)
    requires Spells(py, txt, VBool(b))
    ensures CastBool(py, VStr(txt)) == Done(VBool(b))
  {
    hide Strip;
  }

  lemma TextIsRead(py: Python, txt: string, v: Value)
    requires Spells(py, txt, v)
    ensures match v
      case VInt(n) => CastInt(py, VStr(txt)) == Done(v)
      case VDecimal(d) => CastDecimal(py, VStr(txt)) == Done(v)
      case VDatetime(wall, offset) => CastTimestamp(py, VStr(txt)) == Done(v)
      case VDate(day) => CastDate(py, VStr(txt)) == Done(v)
      case _ => true
  {
    hide Strip;
  }

  /** A text that is not empty reaches the cast of its own type. */
  lemma CastOfText(py: Python, txt: string, t: Type)
    requires txt != ""
    ensures t.TBool? ==> CastValue(py, VStr(txt), t) == CastBool(py, VStr(txt))
    ensures t.TInt? ==> CastValue(py, VStr(txt), t) == CastInt(py, VStr(txt))
    ensures t.TDecimal? ==> CastValue(py, VStr(txt), t) == CastDecimal(py, VStr(txt))
    ensures t.TTimestamp? ==> CastValue(py, VStr(txt), t) == CastTimestamp(py, VStr(txt))
    ensures t.TDate? ==> CastValue(py, VStr(txt), t) == CastDate(py, VStr(txt))
  {
    hide CastBool, CastInt, CastDecimal, CastTimestamp, CastDate, CastFields, CastItems, CastEntries;
  }

  lemma ScalarTextIsRead(py: Python, txt: string, v: Value, t: Type)
    requires IsScalar(t) && HasShape(v, t) && Spells(py, txt, v)
    ensures CastValue(py, VStr(txt), t) == Done(v)
  {
    assert txt != "" && v != VNone;
    hide Spells, CastValue, CastBool, CastInt, CastDecimal, CastTimestamp, CastDate;
    TextIsRead(py, txt, v);
    if t.TBool? {
      BoolTextIsRead(py, txt, v.b);
    }
    CastOfText(py, txt, t);
  }

  /** Casting any wire form of a storage value gives that value: what is stored survives the way
      through its wire form, at every level. */
  lemma {:induction false} WireFormIsRead(py: Python, w: Value, v: Value, t: Type)
    requires WellFormed(t) && HasShape(v, t) && WireForm(py, w, v, t)
    ensures CastValue(py, w, t) == Done(v)
    decreases t, 2
  {
    hide Spells;
    if w == v {
      ShapedIsFixed(py, v, t);
    } else if v != VNone && IsScalar(t) {
      ScalarTextIsRead(py, w.s, v, t);
    } else if v != VNone {
      match t
      case TStruct(fields) =>
        WireRecordIsRead(py, w.entries, v.entries, fields, 0);
        assert v.entries[..0] == [] && fields[0..] == fields;
      case TList(item) => WireItemsAreRead(py, w.items, v.items, item);
      case TMap(key, value) =>
        WireEntriesAreRead(py, w.entries, v.entries, key, value, 0);
        assert v.entries[..0] == [] && w.entries[0..] == w.entries;
    }
  }

  lemma {:induction false} WireRecordIsRead(py: Python, record: seq<Entry>, stored: seq<Entry>, fields: seq<Field>,
                                            n: nat)
    requires DistinctNames(fields) && forall i :: 0 <= i < |fields| ==> WellFormed(fields[i].typ)
    requires RecordShape(stored, fields) && WireRecord(py, record, stored, fields) && n <= |fields|
    ensures CastFields(py, record, fields[n..], stored[..n]) == Done(stored)
    decreases fields, 1, |fields| - n
  {
    hide CastValue, Lookup, WireForm;
    if n == |fields| {
      assert stored[..n] == stored;
    } else {
      var f := fields[n];
      WireFormIsRead(py, Lookup(record, VStr(f.name)), stored[n].value, f.typ);
      PutNew(stored[..n], VStr(f.name), stored[n].value);
      assert stored[..n + 1] == stored[..n] + [stored[n]];
      assert fields[n..][1..] == fields[n + 1..];
      WireRecordIsRead(py, record, stored, fields, n + 1);
    }
  }

  lemma {:induction false} WireItemsAreRead(py: Python, ws: seq<Value>, vs: seq<Value>, item: Type)
    requires WellFormed(item) && |ws| == |vs|
    requires forall i :: 0 <= i < |vs| ==> HasShape(vs[i], item) && WireForm(py, ws[i], vs[i], item)
    ensures CastItems(py, ws, item) == Done(vs)
    decreases item, 3, |ws|
  {
    hide CastValue, WireForm;
    if ws != [] {
      WireFormIsRead(py, ws[0], vs[0], item);
      WireItemsAreRead(py, ws[1..], vs[1..], item);
      assert vs == [vs[0]] + vs[1..];
    }
  }

  lemma {:induction false} WireEntriesAreRead(py: Python, ws: seq<Entry>, vs: seq<Entry>, key: Type, value: Type,
                                              n: nat)
    requires WellFormed(key) && WellFormed(value) && DistinctKeys(vs) && |ws| == |vs| && n <= |vs|
    requires forall i :: 0 <= i < |vs| ==> HasShape(vs[i].key, key) && HasShape(vs[i].value, value)
    requires forall i :: 0 <= i < |vs| ==>
      WireForm(py, ws[i].key, vs[i].key, key) && WireForm(py, ws[i].value, vs[i].value, value)
    ensures CastEntries(py, ws[n..], key, value, vs[..n]) == Done(vs)
    decreases TMap(key, value), 1, |vs| - n
  {
    hide CastValue, WireForm;
    if n == |vs| {
      assert vs[..n] == vs;
    } else {
      WireFormIsRead(py, ws[n].key, vs[n].key, key);
      WireFormIsRead(py, ws[n].value, vs[n].value, value);
      PutNew(vs[..n], vs[n].key, vs[n].value);
      assert vs[..n + 1] == vs[..n] + [vs[n]];
      assert ws[n..][1..] == ws[n + 1..];
      WireEntriesAreRead(py, ws, vs, key, value, n + 1);
    }
  }

  /** A whole record in wire form is stored as the record it stands for. */
  lemma WireRecordIsStored(py: Python, record: seq<Entry>, stored: seq<Entry>, schema: seq<Field>)
    requires WellFormed(TStruct(schema)) && RecordShape(stored, schema) && WireRecord(py, record, stored, schema)
    ensures CastForStorage(py, record, schema) == Done(stored)
  {
    assert stored[..0] == [] && schema[0..] == schema;
    WireRecordIsRead(py, record, stored, schema, 0);
  }

  /** Wire forms other than the stored value exist: a number in a struct may be written as text. */
  lemma NumberAsText(py: Python, n: int, txt: string)
    requires txt != "" && py.parseInt(txt) == Some(n)
    ensures WireForm(py, VDict([Entry(VStr("n"), VStr(txt))]), VDict([Entry(VStr("n"), VInt(n))]),
      TStruct([Field("n", TInt)]))
  {
    OnlyEntry(VStr("n"), VStr(txt), VStr(txt));
    assert WireForm(py, VStr(txt), VInt(n), TInt);
  }
}
