/**
 What a generated struct reader makes of its input's shape: the map form looks
 fields up by name, whatever order they come in; a repeated field is reported
 before any absent one; the first absent required field in declaration order is
 the one named; and supplying every field gives what the sequence form gives.
 */
module StructForms {
  import opened Wrappers
  import opened Schema
  import opened OwnedReader
  import opened MirrorReader
  import opened ArenaReader
  import opened ArenaAgreement
  import opened ArenaGaps

  predicate Known(fields: seq<Field>, key: string) {
    FieldIndex(fields, key) < |fields|
  }

  predicate AllKnown(fields: seq<Field>, entries: seq<Entry>) {
    forall i | 0 <= i < |entries| :: Known(fields, entries[i].key)
  }

  /** The entries whose key names a field, in document order. */
  function KnownEntries(fields: seq<Field>, entries: seq<Entry>): (known: seq<Entry>)
    ensures AllKnown(fields, known)
  {
    if entries == [] then []
    else if Known(fields, entries[0].key) then [entries[0]] + KnownEntries(fields, entries[1..])
    else KnownEntries(fields, entries[1..])
  }

  predicate DistinctKeys(entries: seq<Entry>) {
    forall i, j | 0 <= i < j < |entries| :: entries[i].key != entries[j].key
  }

  function Lookup(entries: seq<Entry>, key: string): (j: Option<Json>)
    ensures j.Some? ==> exists i :: 0 <= i < |entries| && entries[i] == Entry(key, j.value)
    ensures j.None? ==> forall i | 0 <= i < |entries| :: entries[i].key != key
  {
    if entries == [] then None
    else if entries[0].key == key then
      assert entries[0] == Entry(key, entries[0].value);
      Some(entries[0].value)
    else
      assert forall i | 0 <= i < |entries[1..]| :: entries[1..][i] == entries[i + 1];
      assert forall i | 0 < i < |entries| :: entries[i] == entries[1..][i - 1];
      Lookup(entries[1..], key)
  }

  /** What a known entry's value reads as. */
  function ReadEntry(env: Env, fields: seq<Field>, e: Entry): (r: Read<Value>)
    requires Compiles(env) && AllCompile(env, fields) && Known(fields, e.key)
  {
    ReadMirror(env, FieldMirror(fields[FieldIndex(fields, e.key)]), e.value)
  }

  /** Every known value reads. */
  predicate ValuesRead(env: Env, fields: seq<Field>, known: seq<Entry>)
    requires Compiles(env) && AllCompile(env, fields) && AllKnown(fields, known)
  {
    forall i | 0 <= i < |known| :: ReadEntry(env, fields, known[i]).Ok?
  }

  // ---------------------------------------------------------------------
  // Unknown keys

  /** The generated key loop passes over unknown keys without a trace, in its slots and in the arena. */
  lemma {:induction false} UnknownKeysAreIgnored(env: Env, admits: Policy, fields: seq<Field>, entries: seq<Entry>,
                                                 slots: seq<Option<Mirrored>>, cells: seq<Cell>)
    requires Compiles(env) && AllCompile(env, fields) && |slots| == |fields|
    ensures ReadEntriesIn(env, admits, fields, entries, slots, cells)
         == ReadEntriesIn(env, admits, fields, KnownEntries(fields, entries), slots, cells)
    decreases |entries|
  {
    hide Compiles, AllCompile, ReadIn, MirrorType;
    if entries == [] { return; }
    var rest := KnownEntries(fields, entries[1..]);
    var i := FieldIndex(fields, entries[0].key);
    if i == |fields| {
      UnknownKeysAreIgnored(env, admits, fields, entries[1..], slots, cells);
      return;
    }
    assert ([entries[0]] + rest)[1..] == rest;
    if slots[i].None? {
      FieldOf(env, fields, i);
      var o := ReadIn(env, admits, FieldMirror(fields[i]), entries[0].value, cells);
      if o.result.Ok? {
        UnknownKeysAreIgnored(env, admits, fields, entries[1..], slots[i := Some(o.result.value)], o.cells);
      }
    }
  }

  lemma FieldOf(env: Env, fields: seq<Field>, i: nat)
    requires AllCompile(env, fields) && i < |fields|
    ensures FieldCompiles(env, fields[i])
  {
  }

  /** The same of what the loop reads. */
  lemma {:induction false} UnknownKeysReadNothing(env: Env, fields: seq<Field>, entries: seq<Entry>,
      slots: seq<Option<Value>>)
    requires Compiles(env) && AllCompile(env, fields) && |slots| == |fields|
    ensures ReadMirrorEntries(env, fields, entries, slots) ==
            ReadMirrorEntries(env, fields, KnownEntries(fields, entries), slots)
    decreases |entries|
  {
    hide Compiles, AllCompile, ReadMirror, MirrorType;
    if entries == [] { return; }
    var rest := KnownEntries(fields, entries[1..]);
    var i := FieldIndex(fields, entries[0].key);
    if i == |fields| {
      UnknownKeysReadNothing(env, fields, entries[1..], slots);
      return;
    }
    assert ([entries[0]] + rest)[1..] == rest;
    if slots[i].None? {
      FieldOf(env, fields, i);
      var v := ReadMirror(env, FieldMirror(fields[i]), entries[0].value);
      if v.Ok? {
        UnknownKeysReadNothing(env, fields, entries[1..], slots[i := Some(v.value)]);
      }
    }
  }

  // ---------------------------------------------------------------------
  // The scan as a lookup

  /** The slots a scan of distinct keys leaves: each field's value is looked up by name. */
  function LookedUp(env: Env, fields: seq<Field>, known: seq<Entry>): (slots: seq<Option<Value>>)
    requires Compiles(env) && AllCompile(env, fields)
    ensures |slots| == |fields|
    ensures forall i | 0 <= i < |fields| :: slots[i] == SlotOf(env, fields[i], Lookup(known, fields[i].name))
  {
    seq(|fields|, i requires 0 <= i < |fields| => SlotOf(env, fields[i], Lookup(known, fields[i].name)))
  }

  function SlotOf(env: Env, field: Field, j: Option<Json>): (slot: Option<Value>)
    requires Compiles(env) && FieldCompiles(env, field)
  {
    if j.None? then None else
    var r := ReadMirror(env, FieldMirror(field), j.value);
    if r.Ok? then Some(r.value) else None
  }

  ghost predicate Scanned(env: Env, fields: seq<Field>, known: seq<Entry>, slots: seq<Option<Value>>,
      after: seq<Option<Value>>)
    requires Compiles(env) && AllCompile(env, fields) && |slots| == |fields|
  {
    |after| == |fields| && forall i | 0 <= i < |fields| ::
      after[i] == if Lookup(known, fields[i].name).Some? then LookedUp(env, fields, known)[i] else slots[i]
  }

  lemma {:induction false} ScanLooksUp(env: Env, fields: seq<Field>, known: seq<Entry>, slots: seq<Option<Value>>)
    requires Compiles(env) && AllCompile(env, fields) && |slots| == |fields| && DistinctNames(fields) &&
             DistinctKeys(known)
    requires AllKnown(fields, known) && ValuesRead(env, fields, known)
    requires forall i | 0 <= i < |known| :: slots[FieldIndex(fields, known[i].key)].None?
    ensures var r := ReadMirrorEntries(env, fields, known, slots);
            r.Ok? && Scanned(env, fields, known, slots, r.value)
    decreases |known|
  {
    hide Compiles, AllCompile, ReadMirror, MirrorType, FieldCompiles, Lookup;
    if known == [] { NothingLookedUp(); return; }
    var e, rest := known[0], known[1..];
    var k := FieldIndex(fields, e.key);
    assert ReadEntry(env, fields, known[0]).Ok?;
    assert forall i | 0 <= i < |rest| :: rest[i] == known[i + 1];
    FieldOf(env, fields, k);
    var v := ReadMirror(env, FieldMirror(fields[k]), e.value).value;
    ScanLooksUp(env, fields, rest, slots[k := Some(v)]);
    var after := ReadMirrorEntries(env, fields, rest, slots[k := Some(v)]).value;
    forall i | 0 <= i < |fields|
      ensures after[i] == if Lookup(known, fields[i].name).Some? then LookedUp(env, fields, known)[i] else slots[i]
    {
      LookupStep(fields, known, i);
    }
  }

  lemma NothingLookedUp()
    ensures forall key :: Lookup([], key) == None
  {
  }

  lemma LookupStep(fields: seq<Field>, known: seq<Entry>, i: nat)
    requires DistinctNames(fields) && DistinctKeys(known) && known != [] && i < |fields| && Known(fields, known[0].key)
    ensures i == FieldIndex(fields, known[0].key) ==>
              Lookup(known, fields[i].name) == Some(known[0].value) && Lookup(known[1..], fields[i].name).None?
    ensures i != FieldIndex(fields, known[0].key) ==>
            Lookup(known, fields[i].name) == Lookup(known[1..], fields[i].name)
  {
    var k := FieldIndex(fields, known[0].key);
    if i != k {
      assert fields[i].name != fields[k].name;
    }
  }

  /** The map form of distinct, readable fields: a function of the looked-up values alone. */
  lemma MapFormLooksUp(env: Env, expecting: string, fields: seq<Field>, entries: seq<Entry>)
    requires Compiles(env) && AllCompile(env, fields) && DistinctNames(fields)
    requires DistinctKeys(KnownEntries(fields, entries)) && ValuesRead(env, fields, KnownEntries(fields, entries))
    ensures ReadMirrorStruct(env, expecting, fields, JObject(entries))
         == FinishMirror(env, fields, LookedUp(env, fields, KnownEntries(fields, entries)))
  {
    hide Compiles, AllCompile, DistinctNames, DistinctKeys, ValuesRead;
    hide ReadMirrorEntries, FinishMirror, KnownEntries, Lookup;
    var known, none := KnownEntries(fields, entries), EmptySlots<Value>(|fields|);
    UnknownKeysReadNothing(env, fields, entries, none);
    ScanLooksUp(env, fields, known, none);
    assert ReadMirrorEntries(env, fields, known, none).value == LookedUp(env, fields, known);
  }

  lemma {:induction false} LookupFinds(entries: seq<Entry>, i: nat)
    requires DistinctKeys(entries) && i < |entries|
    ensures Lookup(entries, entries[i].key) == Some(entries[i].value)
  {
    if i > 0 {
      assert entries[0].key != entries[i].key;
      LookupFinds(entries[1..], i - 1);
    }
  }

  lemma LookupFollows(a: seq<Entry>, b: seq<Entry>, key: string)
    requires DistinctKeys(b) && multiset(a) == multiset(b)
    ensures Lookup(a, key).Some? ==> Lookup(b, key) == Lookup(a, key)
  {
    var x := Lookup(a, key);
    if x.Some? {
      var i :| 0 <= i < |a| && a[i] == Entry(key, x.value);
      assert a[i] in multiset(b);
      var j :| 0 <= j < |b| && b[j] == a[i];
      LookupFinds(b, j);
    }
  }

  lemma ValuesReadFollow(env: Env, fields: seq<Field>, a: seq<Entry>, b: seq<Entry>)
    requires Compiles(env) && AllCompile(env, fields) && AllKnown(fields, a) && AllKnown(fields, b)
    requires multiset(a) == multiset(b) && ValuesRead(env, fields, a)
    ensures ValuesRead(env, fields, b)
  {
    hide Compiles, AllCompile, ReadEntry;
    forall i | 0 <= i < |b|
      ensures ReadEntry(env, fields, b[i]).Ok?
    {
      assert b[i] in multiset(a);
      var k :| 0 <= k < |a| && a[k] == b[i];
    }
  }

  /** Permuting distinct keys and interleaving unknown ones changes nothing that is read. */
  lemma MapFormIgnoresOrder(env: Env, expecting: string, fields: seq<Field>, a: seq<Entry>, b: seq<Entry>)
    requires Compiles(env) && AllCompile(env, fields) && DistinctNames(fields)
    requires multiset(KnownEntries(fields, a)) == multiset(KnownEntries(fields, b))
    requires DistinctKeys(KnownEntries(fields, a)) && DistinctKeys(KnownEntries(fields, b))
    requires ValuesRead(env, fields, KnownEntries(fields, a))
    ensures ReadMirrorStruct(env, expecting, fields, JObject(a)) == ReadMirrorStruct(env, expecting, fields, JObject(b))
  {
    hide Compiles, AllCompile, DistinctNames, DistinctKeys, ValuesRead, KnownEntries, Lookup, ReadMirrorStruct, SlotOf;
    var x, y := KnownEntries(fields, a), KnownEntries(fields, b);
    ValuesReadFollow(env, fields, x, y);
    MapFormLooksUp(env, expecting, fields, a);
    MapFormLooksUp(env, expecting, fields, b);
    forall i | 0 <= i < |fields|
      ensures LookedUp(env, fields, x)[i] == LookedUp(env, fields, y)[i]
    {
      LookupFollows(x, y, fields[i].name);
      LookupFollows(y, x, fields[i].name);
    }
    assert LookedUp(env, fields, x) == LookedUp(env, fields, y);
  }

  // ---------------------------------------------------------------------
  // The two forms

  /** The slots from field `at` on are what the items read as. */
  ghost predicate Supplied(env: Env, fields: seq<Field>, at: nat, items: seq<Json>, slots: seq<Option<Value>>)
    requires Compiles(env) && AllCompile(env, fields) && at <= |fields| && |items| == |slots| == |fields| - at
  {
    forall i | 0 <= i < |items| :: slots[i].Some? && slots[i] == SlotOf(env, fields[at + i], Some(items[i]))
  }

  lemma {:induction false} SuppliedSequence(env: Env, expecting: string, fields: seq<Field>, at: nat, items: seq<Json>,
                                            slots: seq<Option<Value>>)
    requires Compiles(env) && AllCompile(env, fields) && at <= |fields| && |items| == |slots| == |fields| - at
    requires Supplied(env, fields, at, items, slots)
    ensures ReadMirrorSequence(env, expecting, fields, true, at, items) == FinishMirror(env, fields[at..], slots)
    decreases |fields| - at
  {
    hide Compiles, ReadMirror, MirrorType, FieldCompiles;
    if at == |fields| { return; }
    assert slots[0] == SlotOf(env, fields[at + 0], Some(items[0]));
    assert fields[at..][1..] == fields[at + 1..];
    forall i | 0 <= i < |items[1..]|
      ensures slots[1..][i].Some? && slots[1..][i] == SlotOf(env, fields[at + 1 + i], Some(items[1..][i]))
    {
      assert slots[i + 1] == SlotOf(env, fields[at + (i + 1)], Some(items[i + 1]));
    }
    SuppliedSequence(env, expecting, fields, at + 1, items[1..], slots[1..]);
  }

  lemma LookedUpReads(env: Env, fields: seq<Field>, known: seq<Entry>, i: nat, j: Json)
    requires Compiles(env) && AllCompile(env, fields) && DistinctNames(fields)
    requires i < |fields| && Lookup(known, fields[i].name) == Some(j)
    requires AllKnown(fields, known) && ValuesRead(env, fields, known)
    ensures LookedUp(env, fields, known)[i].Some?
  {
    hide Compiles, AllCompile, MirrorType, FieldCompiles, ReadMirror;
    var k :| 0 <= k < |known| && known[k] == Entry(fields[i].name, j);
    assert ReadEntry(env, fields, known[k]).Ok?;
    assert FieldIndex(fields, fields[i].name) == i;
  }

  /** Supplying every field by name reads what supplying them in declaration order reads. */
  lemma FormsAgree(env: Env, expecting: string, fields: seq<Field>, entries: seq<Entry>, items: seq<Json>)
    requires Compiles(env) && AllCompile(env, fields) && DistinctNames(fields) && |items| == |fields|
    requires DistinctKeys(KnownEntries(fields, entries)) && ValuesRead(env, fields, KnownEntries(fields, entries))
    requires forall i | 0 <= i < |fields| :: Lookup(KnownEntries(fields, entries), fields[i].name) == Some(items[i])
    ensures ReadMirrorStruct(env, expecting, fields, JObject(entries)) ==
            ReadMirrorStruct(env, expecting, fields, JArray(items))
  {
    hide Compiles, AllCompile, DistinctNames, DistinctKeys, ValuesRead, KnownEntries, Lookup, LookedUp, Supplied;
    hide ReadMirrorEntries, FinishMirror, ReadMirrorSequence;
    var known := KnownEntries(fields, entries);
    MapFormLooksUp(env, expecting, fields, entries);
    LookupsSupply(env, fields, known, items);
    assert fields[0..] == fields;
    SuppliedSequence(env, expecting, fields, 0, items, LookedUp(env, fields, known));
    NothingLeftOver(env, items, |fields|);
  }

  lemma LookupsSupply(env: Env, fields: seq<Field>, known: seq<Entry>, items: seq<Json>)
    requires Compiles(env) && AllCompile(env, fields) && DistinctNames(fields) && |items| == |fields|
    requires AllKnown(fields, known) && ValuesRead(env, fields, known)
    requires forall i | 0 <= i < |fields| :: Lookup(known, fields[i].name) == Some(items[i])
    ensures Supplied(env, fields, 0, items, LookedUp(env, fields, known))
  {
    hide Compiles, FieldCompiles, DistinctNames, ValuesRead, Lookup, SlotOf;
    forall i | 0 <= i < |items|
      ensures var slot := LookedUp(env, fields, known)[i];
              slot.Some? && slot == SlotOf(env, fields[0 + i], Some(items[i]))
    {
      LookedUpReads(env, fields, known, i, items[i]);
    }
  }

  lemma NothingLeftOver(env: Env, items: seq<Json>, n: nat)
    requires |items| == n
    ensures !Leftover(env, items, n)
  {
  }

  // ---------------------------------------------------------------------
  // The generated readers

  /** Two reads come to the same: one error, or mirrors of one owned value. */
  ghost predicate SameReading(a: Outcome<seq<Mirrored>>, b: Outcome<seq<Mirrored>>) {
    match a.result
    case Err(e) => b.result == Err(e)
    case Ok(ms) =>
      && b.result.Ok? && AllClosed(a.cells, |a.cells|, ms) && AllClosed(b.cells, |b.cells|, b.result.value)
      && AllOwned(a.cells, |a.cells|, ms) == AllOwned(b.cells, |b.cells|, b.result.value)
  }

  /** What reads the same comes to the same, wherever in the arena it is put. */
  lemma SameMeaning(env: Env, admits: Policy, expecting: string, fields: seq<Field>, a: Json, b: Json, cells: seq<Cell>)
    requires Compiles(env) && AllCompile(env, fields) && Unlimited(admits)
    requires ReadMirrorStruct(env, expecting, fields, a) == ReadMirrorStruct(env, expecting, fields, b)
    ensures SameReading(ReadStructIn(env, admits, expecting, fields, a, cells),
            ReadStructIn(env, admits, expecting, fields, b, cells))
  {
    hide ReadMirrorStruct, ReadStructIn, Compiles, AllCompile, AllClosed, AllOwned, Unlimited;
    StructsAgree(env, admits, expecting, fields, a, cells);
    StructsAgree(env, admits, expecting, fields, b, cells);
  }

  /**
   The generated map form is order-independent: permuting distinct keys or
   interleaving unknown ones changes nothing.
   */
  lemma GeneratedMapFormIgnoresOrder(env: Env, admits: Policy, expecting: string, fields: seq<Field>, a: seq<Entry>,
      b: seq<Entry>, cells: seq<Cell>)
    requires Compiles(env) && AllCompile(env, fields) && DistinctNames(fields) && Unlimited(admits)
    requires multiset(KnownEntries(fields, a)) == multiset(KnownEntries(fields, b))
    requires DistinctKeys(KnownEntries(fields, a)) && DistinctKeys(KnownEntries(fields, b))
    requires ValuesRead(env, fields, KnownEntries(fields, a))
    ensures SameReading(ReadStructIn(env, admits, expecting, fields, JObject(a), cells),
                        ReadStructIn(env, admits, expecting, fields, JObject(b), cells))
  {
    hide ReadMirrorStruct, ReadStructIn, Compiles, AllCompile, Unlimited;
    hide SameReading, KnownEntries, ValuesRead, DistinctKeys;
    hide DistinctNames;
    MapFormIgnoresOrder(env, expecting, fields, a, b);
    SameMeaning(env, admits, expecting, fields, JObject(a), JObject(b), cells);
  }

  /** The generated map form agrees with the generated sequence form whenever every field is supplied. */
  lemma GeneratedFormsAgree(env: Env, admits: Policy, expecting: string, fields: seq<Field>, entries: seq<Entry>,
      items: seq<Json>, cells: seq<Cell>)
    requires Compiles(env) && AllCompile(env, fields) && DistinctNames(fields) && Unlimited(admits) &&
             |items| == |fields|
    requires DistinctKeys(KnownEntries(fields, entries)) && ValuesRead(env, fields, KnownEntries(fields, entries))
    requires forall i | 0 <= i < |fields| :: Lookup(KnownEntries(fields, entries), fields[i].name) == Some(items[i])
    ensures SameReading(ReadStructIn(env, admits, expecting, fields, JObject(entries), cells),
                        ReadStructIn(env, admits, expecting, fields, JArray(items), cells))
  {
    hide ReadMirrorStruct, ReadStructIn, Compiles, AllCompile, Unlimited;
    hide SameReading, ValuesRead, DistinctKeys, DistinctNames;
    hide KnownEntries, Lookup;
    FormsAgree(env, expecting, fields, entries, items);
    SameMeaning(env, admits, expecting, fields, JObject(entries), JArray(items), cells);
  }

  // ---------------------------------------------------------------------
  // Which error is reported

  /**
   The key loop over known entries stops at the first that repeats one, before it
   reads that value or any later one.
   */
  lemma {:induction false} DuplicatesComeFirst(env: Env, admits: Policy, fields: seq<Field>, known: seq<Entry>,
                                               slots: seq<Option<Mirrored>>, k: nat, cells: seq<Cell>)
    requires Compiles(env) && AllCompile(env, fields) && |slots| == |fields| && Unlimited(admits)
    requires AllKnown(fields, known) && k < |known| && DistinctKeys(known[..k]) && ValuesRead(env, fields, known[..k])
    requires forall i | 0 <= i < k :: slots[FieldIndex(fields, known[i].key)].None?
    requires slots[FieldIndex(fields, known[k].key)].Some? || exists i :: 0 <= i < k && known[i].key == known[k].key
    ensures ReadEntriesIn(env, admits, fields, known, slots, cells).result == Err(DuplicateField(known[k].key))
    decreases |known|
  {
    hide Compiles, AllCompile, ReadIn, ReadMirror, MirrorType, FieldCompiles, Unlimited;
    if k == 0 { return; }
    var f := FieldIndex(fields, known[0].key);
    var rest := known[1..];
    assert rest[..k - 1] == known[..k][1..];
    assert ReadEntry(env, fields, known[..k][0]).Ok?;
    FieldOf(env, fields, f);
    ReadsIn(env, admits, fields[f], known[0].value, cells);
    var o := ReadIn(env, admits, FieldMirror(fields[f]), known[0].value, cells);
    assert forall i | 0 <= i < |rest| :: rest[i] == known[i + 1];
    ShiftedRead(env, fields, known, k);
    forall i | 0 <= i < k - 1
      ensures FieldIndex(fields, rest[i].key) != f
    {
      assert known[..k][i + 1].key != known[..k][0].key;
    }
    if i :| 0 <= i < k && known[i].key == known[k].key {
      assert i > 0 ==> rest[i - 1].key == rest[k - 1].key;
    }
    DuplicatesComeFirst(env, admits, fields, rest, slots[f := Some(o.result.value)], k - 1, o.cells);
  }

  lemma ShiftedRead(env: Env, fields: seq<Field>, known: seq<Entry>, k: nat)
    requires Compiles(env) && AllCompile(env, fields) && AllKnown(fields, known) && 0 < k < |known|
    requires ValuesRead(env, fields, known[..k])
    ensures AllKnown(fields, known[1..]) && ValuesRead(env, fields, known[1..][..k - 1])
  {
    hide Compiles, AllCompile, ReadEntry, Known;
    assert forall i | 0 <= i < |known[1..]| :: known[1..][i] == known[i + 1];
    var shifted := known[1..][..k - 1];
    forall i | 0 <= i < |shifted|
      ensures ReadEntry(env, fields, shifted[i]).Ok?
    {
      assert shifted[i] == known[..k][i + 1];
    }
  }

  /** With nothing refused by the allocator, a value that reads is read into the arena. */
  lemma ReadsIn(env: Env, admits: Policy, field: Field, j: Json, cells: seq<Cell>)
    requires Compiles(env) && FieldCompiles(env, field) && Unlimited(admits)
    ensures ReadIn(env, admits, FieldMirror(field), j, cells).result.Ok? <==> ReadMirror(env, FieldMirror(field), j).Ok?
  {
    hide Compiles, ReadIn, ReadMirror, Closed, IntoOwned, Unlimited;
    TypesAgree(env, admits, FieldMirror(field), j, cells);
  }

  /**
   A repeated known key is the generated reader's error, whatever is missing,
   whatever unknown keys are interleaved, and whatever follows it.
   */
  lemma GeneratedReportsDuplicates(env: Env, admits: Policy, expecting: string, fields: seq<Field>,
      entries: seq<Entry>, k: nat, cells: seq<Cell>)
    requires Compiles(env) && AllCompile(env, fields) && Unlimited(admits)
    requires var known := KnownEntries(fields, entries);
             && k < |known| && DistinctKeys(known[..k]) && ValuesRead(env, fields, known[..k])
             && exists i :: 0 <= i < k && known[i].key == known[k].key
    ensures ReadStructIn(env, admits, expecting, fields, JObject(entries), cells).result
         == Err(DuplicateField(KnownEntries(fields, entries)[k].key))
  {
    hide ReadEntriesIn, Compiles, AllCompile, Unlimited, ValuesRead, KnownEntries, DistinctKeys;
    var known := KnownEntries(fields, entries);
    UnknownKeysAreIgnored(env, admits, fields, entries, EmptySlots(|fields|), cells);
    DuplicatesComeFirst(env, admits, fields, known, EmptySlots(|fields|), k, cells);
  }

  /**
   The generated reader's missing-field error names the first absent field in
   declaration order that is neither defaulted nor an option, and only then is
   there one.
   */
  lemma {:induction false} MissingNamesTheFirst(env: Env, fields: seq<Field>, slots: seq<Option<Mirrored>>)
    requires AllCompile(env, fields) && |slots| == |fields|
    ensures var k := FirstRefused(fields, slots);
            if k == |fields| then FinishIn(env, fields, slots).Ok?
            else FinishIn(env, fields, slots) == Err(MissingField(fields[k].name))
    decreases |fields|
  {
    if fields != [] {
      MissingNamesTheFirst(env, fields[1..], slots[1..]);
    }
  }
}
