/**
 Where the generated readers part from serde's: a required field whose option is
 wrapped (in a box or an alias) and so is not recognised as one, and a tuple
 variant's `#[serde(default)]`. A gap is something an input shows: which fields
 it leaves out. Inputs without one read the same, and at each item the readers
 agree exactly when the input shows no gap there.
 */
module ArenaGaps {
  import opened Wrappers
  import opened Schema
  import opened OwnedReader
  import opened MirrorReader

  // ---------------------------------------------------------------------
  // Gaps

  predicate Refused<T>(field: Field, slot: Option<T>) {
    slot.None? && !field.default && !IsOption(field.ty)
  }

  /** The first absent field the generated reader reports as missing. */
  function FirstRefused<T>(fields: seq<Field>, slots: seq<Option<T>>): (k: nat)
    requires |slots| == |fields|
    ensures k <= |fields|
    ensures k < |fields| ==> Refused(fields[k], slots[k])
    ensures forall i | 0 <= i < k :: !Refused(fields[i], slots[i])
    decreases |fields|
  {
    if fields == [] then 0
    else if Refused(fields[0], slots[0]) then 0
    else 1 + FirstRefused(fields[1..], slots[1..])
  }

  /** The keys scan, and the first field the generated reader refuses is one serde makes something of. */
  predicate MapGap(env: Env, fields: seq<Field>, entries: seq<Entry>) {
    var r := ReadEntries(env, fields, entries, EmptySlots(|fields|));
    r.Ok? && SlotsGap(env, fields, r.value)
  }

  predicate SlotsGap(env: Env, fields: seq<Field>, slots: seq<Option<Value>>)
    requires |slots| == |fields|
  {
    var k := FirstRefused(fields, slots);
    k < |fields| && MissingOf(env, fields[k].ty).Some?
  }

  predicate AllSuppliedRead(env: Env, fields: seq<Field>, at: nat, items: seq<Json>)
    requires at <= |fields|
  {
    forall k | 0 <= k < |items| && at + k < |fields| :: ReadOwned(env, fields[at + k].ty, items[k]).Ok?
  }

  /** Every supplied element reads, and the first that is not supplied has a default. */
  predicate TupleGap(env: Env, fields: seq<Field>, at: nat, items: seq<Json>)
    requires at <= |fields|
  {
    at + |items| < |fields| && fields[at + |items|].default && AllSuppliedRead(env, fields, at, items)
  }

  predicate StructGap(env: Env, fields: seq<Field>, j: Json) {
    j.JObject? && MapGap(env, fields, j.entries)
  }

  predicate VariantGap(env: Env, content: VariantFields, payload: Option<Json>) {
    payload.Some? &&
    match content
    case Named(fields) => StructGap(env, fields, payload.value)
    case Tuple(fields) => payload.value.JArray? && TupleGap(env, fields, 0, payload.value.items)
    case _ => false
  }

  /** The input shows a gap at this item itself. */
  predicate GapAt(env: Env, name: string, item: Item, j: Json) {
    match item
    case Struct(fields) => StructGap(env, fields, j)
    case Validated(_, fields) => StructGap(env, fields, j)
    case Enum(variants) =>
      var split := SplitTag(name, j);
      split.Ok? &&
      var k := VariantIndex(variants, split.value.0);
      k < |variants| && VariantGap(env, variants[k].content, split.value.1)
  }

  // ---------------------------------------------------------------------
  // What an item reads of its input

  /** A value and the field it is read into. */
  datatype Part = Part(field: Field, json: Json)

  function EntryParts(fields: seq<Field>, entries: seq<Entry>): (parts: seq<Part>)
    ensures forall i | 0 <= i < |parts| :: exists k | 0 <= k < |entries| :: parts[i].json == entries[k].value
  {
    if entries == [] then [] else
    var i := FieldIndex(fields, entries[0].key);
    var rest := EntryParts(fields, entries[1..]);
    assert forall k | 0 <= k < |entries[1..]| :: entries[1..][k].value == entries[k + 1].value;
    if i == |fields| then rest else [Part(fields[i], entries[0].value)] + rest
  }

  function ElementParts(fields: seq<Field>, at: nat, items: seq<Json>): (parts: seq<Part>)
    requires at <= |fields|
    ensures |parts| <= |items| && forall i | 0 <= i < |parts| :: parts[i].json == items[i]
    decreases |items|
  {
    if at == |fields| || items == [] then []
    else [Part(fields[at], items[0])] + ElementParts(fields, at + 1, items[1..])
  }

  function StructParts(fields: seq<Field>, j: Json): (parts: seq<Part>)
    ensures forall i | 0 <= i < |parts| :: parts[i].json < j
  {
    match j
    case JObject(entries) => EntryParts(fields, entries)
    case JArray(items) => ElementParts(fields, 0, items)
    case _ => []
  }

  function VariantParts(content: VariantFields, j: Json, payload: Option<Json>): (parts: seq<Part>)
    requires payload.Some? ==> payload.value < j
    ensures forall i | 0 <= i < |parts| :: parts[i].json < j
  {
    if payload.None? then [] else
    match content
    case Unit => []
    case Newtype(field) => [Part(field, payload.value)]
    case Tuple(fields) => if payload.value.JArray? then ElementParts(fields, 0, payload.value.items) else []
    case Named(fields) => StructParts(fields, payload.value)
  }

  function Parts(name: string, item: Item, j: Json): (parts: seq<Part>)
    ensures forall i | 0 <= i < |parts| :: parts[i].json < j
  {
    match item
    case Struct(fields) => StructParts(fields, j)
    case Validated(_, fields) => StructParts(fields, j)
    case Enum(variants) =>
      var split := SplitTag(name, j);
      if split.Err? then [] else
      var k := VariantIndex(variants, split.value.0);
      if k == |variants| then [] else VariantParts(variants[k].content, j, split.value.1)
  }

  /** One value reads the same through the mirror and through serde. */
  predicate PartAgrees(env: Env, part: Part)
    requires Compiles(env)
  {
    FieldCompiles(env, part.field) &&
    ReadMirror(env, FieldMirror(part.field), part.json) == ReadOwned(env, part.field.ty, part.json)
  }

  predicate PartsAgree(env: Env, parts: seq<Part>)
    requires Compiles(env)
  {
    forall i | 0 <= i < |parts| :: PartAgrees(env, parts[i])
  }

  lemma PartsTail(env: Env, part: Part, rest: seq<Part>)
    requires Compiles(env) && PartsAgree(env, [part] + rest)
    ensures PartAgrees(env, part) && PartsAgree(env, rest)
  {
    var all := [part] + rest;
    assert all[0] == part;
    assert forall i | 0 <= i < |rest| :: rest[i] == all[i + 1];
  }

  // ---------------------------------------------------------------------
  // The exact condition, form by form

  /** Values that read the same fill the same slots. */
  lemma {:induction false} ScansAgree(env: Env, fields: seq<Field>, entries: seq<Entry>, slots: seq<Option<Value>>)
    requires Compiles(env) && AllCompile(env, fields) && |slots| == |fields| &&
             PartsAgree(env, EntryParts(fields, entries))
    ensures ReadMirrorEntries(env, fields, entries, slots) == ReadEntries(env, fields, entries, slots)
    decreases |entries|
  {
    hide ReadMirror, ReadOwned, Compiles, PartsAgree, AllCompile;
    if entries == [] { return; }
    var i := FieldIndex(fields, entries[0].key);
    if i == |fields| {
      ScansAgree(env, fields, entries[1..], slots);
      return;
    }
    PartsTail(env, Part(fields[i], entries[0].value), EntryParts(fields, entries[1..]));
    var v := ReadOwned(env, fields[i].ty, entries[0].value);
    if slots[i].None? && v.Ok? {
      ScansAgree(env, fields, entries[1..], slots[i := Some(v.value)]);
    }
  }

  lemma {:induction false} FinishError(env: Env, fields: seq<Field>, slots: seq<Option<Value>>)
    requires |slots| == |fields|
    ensures var q := Finish(env, fields, slots);
            q.Ok? || exists i :: 0 <= i < |fields| && q == Err(MissingField(fields[i].name))
    decreases |fields|
  {
    if fields != [] {
      FinishError(env, fields[1..], slots[1..]);
      var q := Finish(env, fields[1..], slots[1..]);
      if FieldValue(env, fields[0], slots[0]).Ok? && q.Err? {
        var i :| 0 <= i < |fields[1..]| && q == Err(MissingField(fields[1..][i].name));
        assert fields[1..][i] == fields[i + 1];
      }
    }
  }

  /** Filling absent fields agrees exactly when serde too refuses the first field the generated reader refuses. */
  lemma {:induction false} FinishAgreesIff(env: Env, fields: seq<Field>, slots: seq<Option<Value>>)
    requires DistinctNames(fields) && |slots| == |fields|
    ensures FinishMirror(env, fields, slots) == Finish(env, fields, slots) <==> !SlotsGap(env, fields, slots)
    decreases |fields|
  {
    if fields == [] { return; }
    FinishAgreesIff(env, fields[1..], slots[1..]);
    FinishError(env, fields[1..], slots[1..]);
    var q := Finish(env, fields[1..], slots[1..]);
    if q.Ok? && FinishMirror(env, fields[1..], slots[1..]).Ok? {
      var v := FieldValue(env, fields[0], slots[0]);
      if v.Ok? {
        assert ([v.value] + q.value)[1..] == q.value;
        var p := FinishMirror(env, fields[1..], slots[1..]).value;
        assert ([v.value] + p)[1..] == p;
      }
    }
  }

  /**
   The map form agrees exactly when the scan fails, nothing is refused, or serde
   refuses the first refused field too.
   */
  lemma MapFormAgreesIff(env: Env, expecting: string, fields: seq<Field>, entries: seq<Entry>)
    requires Compiles(env) && AllCompile(env, fields) && DistinctNames(fields)
    requires PartsAgree(env, EntryParts(fields, entries))
    ensures ReadMirrorStruct(env, expecting, fields, JObject(entries)) ==
            ReadStruct(env, expecting, fields, JObject(entries))
       <==> !MapGap(env, fields, entries)
  {
    hide Compiles, AllCompile, DistinctNames, PartsAgree, ReadEntries;
    hide ReadMirrorEntries, Finish, FinishMirror, SlotsGap;
    ScansAgree(env, fields, entries, EmptySlots(|fields|));
    var r := ReadEntries(env, fields, entries, EmptySlots(|fields|));
    if r.Ok? {
      FinishAgreesIff(env, fields, r.value);
    }
  }

  /** The struct sequence form honours defaults, so it always agrees. */
  lemma {:induction false} SequencesAgree(env: Env, expecting: string, fields: seq<Field>, at: nat, items: seq<Json>)
    requires Compiles(env) && AllCompile(env, fields) && at <= |fields| &&
             PartsAgree(env, ElementParts(fields, at, items))
    ensures ReadMirrorSequence(env, expecting, fields, true, at, items) ==
            ReadSequence(env, expecting, fields, at, items)
    decreases |fields| - at
  {
    hide ReadMirror, ReadOwned, Compiles, PartsAgree;
    if at == |fields| { return; }
    if items == [] {
      NoParts(env);
      SequencesAgree(env, expecting, fields, at + 1, items);
    } else {
      PartsTail(env, Part(fields[at], items[0]), ElementParts(fields, at + 1, items[1..]));
      SequencesAgree(env, expecting, fields, at + 1, items[1..]);
    }
  }

  lemma NoParts(env: Env)
    requires Compiles(env)
    ensures PartsAgree(env, [])
  {
  }

  lemma {:induction false} ExhaustedSequence(env: Env, expecting: string, fields: seq<Field>, at: nat)
    requires at <= |fields|
    ensures var q := ReadSequence(env, expecting, fields, at, []);
            q.Ok? || (q.error.InvalidLength? && q.error.length >= at)
    decreases |fields| - at
  {
    if at < |fields| {
      ExhaustedSequence(env, expecting, fields, at + 1);
    }
  }

  lemma SuppliedStep(env: Env, fields: seq<Field>, at: nat, items: seq<Json>)
    requires at < |fields| && items != []
    ensures AllSuppliedRead(env, fields, at, items)
       <==> ReadOwned(env, fields[at].ty, items[0]).Ok? && AllSuppliedRead(env, fields, at + 1, items[1..])
  {
    hide ReadOwned;
    if AllSuppliedRead(env, fields, at, items) {
      assert ReadOwned(env, fields[at + 0].ty, items[0]).Ok?;
      forall k | 0 <= k < |items[1..]| && at + 1 + k < |fields|
        ensures ReadOwned(env, fields[at + 1 + k].ty, items[1..][k]).Ok?
      {
        assert ReadOwned(env, fields[at + (k + 1)].ty, items[k + 1]).Ok?;
      }
    }
    if ReadOwned(env, fields[at].ty, items[0]).Ok? && AllSuppliedRead(env, fields, at + 1, items[1..]) {
      forall k | 0 <= k < |items| && at + k < |fields|
        ensures ReadOwned(env, fields[at + k].ty, items[k]).Ok?
      {
        assert k > 0 ==> ReadOwned(env, fields[at + 1 + (k - 1)].ty, items[1..][k - 1]).Ok?;
      }
    }
  }

  /** A tuple variant agrees unless all supplied elements read and the first absent one has a default. */
  lemma {:induction false} TupleFormAgreesIff(env: Env, expecting: string, fields: seq<Field>, at: nat,
      items: seq<Json>)
    requires Compiles(env) && AllCompile(env, fields) && at <= |fields| &&
             PartsAgree(env, ElementParts(fields, at, items))
    ensures ReadMirrorSequence(env, expecting, fields, false, at, items) ==
            ReadSequence(env, expecting, fields, at, items)
       <==> !TupleGap(env, fields, at, items)
    decreases |items|
  {
    hide ReadMirror, ReadOwned, Compiles, PartsAgree, AllSuppliedRead;
    if at == |fields| { return; }
    if items == [] {
      ExhaustedSequence(env, expecting, fields, at + 1);
      NothingSupplied(env, fields, at);
      return;
    }
    PartsTail(env, Part(fields[at], items[0]), ElementParts(fields, at + 1, items[1..]));
    SuppliedStep(env, fields, at, items);
    TupleFormAgreesIff(env, expecting, fields, at + 1, items[1..]);
    var v := ReadOwned(env, fields[at].ty, items[0]);
    var p := ReadMirrorSequence(env, expecting, fields, false, at + 1, items[1..]);
    var q := ReadSequence(env, expecting, fields, at + 1, items[1..]);
    if v.Ok? && p.Ok? && q.Ok? {
      assert ([v.value] + q.value)[1..] == q.value && ([v.value] + p.value)[1..] == p.value;
    }
  }

  lemma NothingSupplied(env: Env, fields: seq<Field>, at: nat)
    requires at <= |fields|
    ensures AllSuppliedRead(env, fields, at, [])
  {
  }

  // ---------------------------------------------------------------------
  // The exact condition at an item

  lemma StructAgreesIff(env: Env, expecting: string, fields: seq<Field>, j: Json)
    requires Compiles(env) && AllCompile(env, fields) && DistinctNames(fields) &&
             PartsAgree(env, StructParts(fields, j))
    ensures ReadMirrorStruct(env, expecting, fields, j) == ReadStruct(env, expecting, fields, j) <==>
            !StructGap(env, fields, j)
  {
    hide Compiles, AllCompile, DistinctNames, PartsAgree, MapGap;
    hide ReadSequence, ReadMirrorSequence, ReadEntries, ReadMirrorEntries;
    match j
    case JObject(entries) => MapFormAgreesIff(env, expecting, fields, entries);
    case JArray(items) => SequencesAgree(env, expecting, fields, 0, items);
    case _ =>
  }

  /** A tuple that is too short to fill is never too long. */
  lemma VariantAgreesIff(env: Env, name: string, variant: Variant, j: Json, payload: Option<Json>)
    requires Compiles(env) && ContentCompiles(env, variant.content) && (payload.Some? ==> payload.value < j)
    requires PartsAgree(env, VariantParts(variant.content, j, payload))
    ensures ReadMirrorVariant(env, name, variant, j, payload) == ReadVariant(env, name, variant, j, payload)
       <==> !VariantGap(env, variant.content, payload)
  {
    hide Compiles, AllCompile, DistinctNames, ReadMirror, ReadOwned;
    hide ReadSequence, ReadMirrorSequence, ReadStruct, ReadMirrorStruct;
    hide StructGap, AllSuppliedRead;
    if payload.None? { return; }
    var place := name + "::" + variant.ident;
    match variant.content
    case Unit =>
    case Newtype(field) => assert PartAgrees(env, VariantParts(variant.content, j, payload)[0]);
    case Tuple(fields) =>
      if payload.value.JArray? {
        TupleFormAgreesIff(env, "tuple variant " + place, fields, 0, payload.value.items);
      }
    case Named(fields) => StructAgreesIff(env, "struct variant " + place, fields, payload.value);
  }

  /**
   For every item of every schema that compiles and every input whose nested
   values read the same: the item reads the same exactly when the input shows
   no gap at it.
   */
  lemma ItemAgreesIff(env: Env, name: string, j: Json)
    requires Compiles(env) && name in env.items && PartsAgree(env, Parts(name, env.items[name], j))
    ensures ReadMirrorItem(env, name, j) == ReadItem(env, name, env.items[name], j) <==>
            !GapAt(env, name, env.items[name], j)
  {
    hide Compiles, AllCompile, ContentCompiles, DistinctNames, PartsAgree;
    hide ReadStruct, ReadMirrorStruct, ReadVariant, ReadMirrorVariant;
    hide VariantGap;
    CompiledItem(env, name);
    match env.items[name]
    case Struct(fields) => StructAgreesIff(env, "struct " + name, fields, j);
    case Validated(raw, fields) =>
      StructAgreesIff(env, "struct " + raw, fields, j);
      GapIsMissing(env, "struct " + raw, fields, j);
    case Enum(variants) =>
      var split := SplitTag(name, j);
      if split.Err? { return; }
      var k := VariantIndex(variants, split.value.0);
      if k < |variants| {
        VariantAgreesIff(env, name, variants[k], j, split.value.1);
      }
  }

  /** At a gap the generated reader reports a missing field, which no check does. */
  lemma GapIsMissing(env: Env, expecting: string, fields: seq<Field>, j: Json)
    requires Compiles(env) && AllCompile(env, fields) && PartsAgree(env, StructParts(fields, j))
    ensures StructGap(env, fields, j) ==>
              var r := ReadMirrorStruct(env, expecting, fields, j); r.Err? && r.error.MissingField?
  {
    hide Compiles, AllCompile, PartsAgree, ReadEntries, ReadMirrorEntries, FinishMirror;
    if StructGap(env, fields, j) {
      ScansAgree(env, fields, j.entries, EmptySlots(|fields|));
      RefusedIsMissing(env, fields, ReadEntries(env, fields, j.entries, EmptySlots(|fields|)).value);
    }
  }

  lemma {:induction false} RefusedIsMissing(env: Env, fields: seq<Field>, slots: seq<Option<Value>>)
    requires |slots| == |fields|
    ensures var k := FirstRefused(fields, slots);
            if k == |fields| then FinishMirror(env, fields, slots).Ok?
            else FinishMirror(env, fields, slots) == Err(MissingField(fields[k].name))
    decreases |fields|
  {
    if fields != [] {
      RefusedIsMissing(env, fields[1..], slots[1..]);
    }
  }

  // ---------------------------------------------------------------------
  // Inputs without a gap anywhere

  /** Reading `j` as a type meets no gap, at any depth. */
  predicate Clear(env: Env, ty: Ty, mode: Mode, j: Json)
    decreases j, 1, ty
  {
    if mode == Owned then true else
    match ty
    case Boxed(inner) => Clear(env, inner, mode, j)
    case Opt(inner) => j.JNull? || Clear(env, inner, mode, j)
    case Vector(inner) => j.JArray? ==> forall i | 0 <= i < |j.items| :: Clear(env, inner, mode, j.items[i])
    case BTree(_, value) =>
      j.JObject? ==> forall i | 0 <= i < |j.entries| :: Clear(env, value, mode, j.entries[i].value)
    case Pair(first, second) =>
      j.JArray? ==>
        && (|j.items| > 0 ==> Clear(env, first, mode, j.items[0]))
        && (|j.items| > 1 ==> Clear(env, second, mode, j.items[1]))
    case Path(name) => mode == Mirror && name !in PLAIN && name in env.items ==> ClearItem(env, name, j)
    case _ => true
  }

  predicate ClearItem(env: Env, name: string, j: Json)
    requires name in env.items
    decreases j, 0
  {
    && !GapAt(env, name, env.items[name], j)
    && var parts := Parts(name, env.items[name], j);
       forall i | 0 <= i < |parts| :: Clear(env, parts[i].field.ty, parts[i].field.mode, parts[i].json)
  }

  lemma {:induction false} ClearVectors(env: Env, ty: Ty, mode: Mode, items: seq<Json>)
    requires Compiles(env) && MirrorType(ty, mode).Some? && Resolves(env, MirrorType(ty, mode).value)
    requires forall i | 0 <= i < |items| :: Clear(env, ty, mode, items[i])
    ensures ReadMirrorItems(env, MirrorType(ty, mode).value, items) == ReadItems(env, ty, items)
    decreases items, 3
  {
    hide Compiles, Clear, MirrorType, Resolves, ReadMirror, ReadOwned;
    if items != [] {
      ClearReadsTheSame(env, ty, mode, items[0]);
      ClearVectors(env, ty, mode, items[1..]);
    }
  }

  lemma {:induction false} ClearMaps(env: Env, ty: Ty, mode: Mode, entries: seq<Entry>, seen: map<string, Value>)
    requires Compiles(env) && MirrorType(ty, mode).Some? && Resolves(env, MirrorType(ty, mode).value)
    requires forall i | 0 <= i < |entries| :: Clear(env, ty, mode, entries[i].value)
    ensures ReadMirrorMap(env, MirrorType(ty, mode).value, entries, seen) == ReadBTree(env, ty, entries, seen)
    decreases entries, 3
  {
    hide Compiles, Clear, MirrorType, Resolves, ReadMirror, ReadOwned;
    if entries != [] {
      ClearReadsTheSame(env, ty, mode, entries[0].value);
      var v := ReadOwned(env, ty, entries[0].value);
      if v.Ok? {
        ClearMaps(env, ty, mode, entries[1..], seen[entries[0].key := v.value]);
      }
    }
  }

  lemma {:induction false} ClearPairs(env: Env, first: Ty, second: Ty, mode: Mode, items: seq<Json>)
    requires Compiles(env)
    requires MirrorType(first, mode).Some? && Resolves(env, MirrorType(first, mode).value)
    requires MirrorType(second, mode).Some? && Resolves(env, MirrorType(second, mode).value)
    requires (|items| > 0 ==> Clear(env, first, mode, items[0])) && (|items| > 1 ==> Clear(env, second, mode, items[1]))
    ensures ReadMirrorPair(env, MirrorType(first, mode).value, MirrorType(second, mode).value, items)
         == ReadPair(env, first, second, items)
    decreases items, 3
  {
    hide Compiles, Clear, MirrorType, Resolves, ReadMirror, ReadOwned;
    if |items| > 0 {
      ClearReadsTheSame(env, first, mode, items[0]);
    }
    if |items| > 1 {
      ClearReadsTheSame(env, second, mode, items[1]);
    }
  }

  /** For every schema that compiles: where an input shows no gap, the mirror reads what serde reads. */
  lemma {:induction false} ClearReadsTheSame(env: Env, ty: Ty, mode: Mode, j: Json)
    requires Compiles(env) && MirrorType(ty, mode).Some? && Resolves(env, MirrorType(ty, mode).value)
    requires Clear(env, ty, mode, j)
    ensures ReadMirror(env, MirrorType(ty, mode).value, j) == ReadOwned(env, ty, j)
    decreases j, 2, ty
  {
    hide Compiles, ReadMirrorItem, ReadItem, ReadMirrorItems, ReadItems;
    hide ReadMirrorMap, ReadBTree, ReadMirrorPair, ReadPair;
    hide ClearItem;
    if mode == Owned { return; }
    match ty
    case Boxed(inner) => ClearReadsTheSame(env, inner, mode, j);
    case Opt(inner) => if !j.JNull? { ClearReadsTheSame(env, inner, mode, j); }
    case Vector(inner) => if j.JArray? { ClearVectors(env, inner, mode, j.items); }
    case BTree(_, value) => if j.JObject? { ClearMaps(env, value, mode, j.entries, map[]); }
    case Pair(first, second) => if j.JArray? { ClearPairs(env, first, second, mode, j.items); }
    case Path(name) =>
      if mode == Mirror && name !in PLAIN {
        ClearItemReadsTheSame(env, name, j);
      }
    case _ =>
  }

  lemma {:induction false} ClearItemReadsTheSame(env: Env, name: string, j: Json)
    requires Compiles(env) && name in env.items && ClearItem(env, name, j)
    ensures ReadMirrorItem(env, name, j) == ReadItem(env, name, env.items[name], j)
    decreases j, 1
  {
    hide Compiles, GapAt, Parts, Clear, MirrorType, Resolves;
    hide ReadMirror, ReadOwned, ReadMirrorItem, ReadItem, FieldCompiles;
    var parts := Parts(name, env.items[name], j);
    forall i | 0 <= i < |parts|
      ensures PartAgrees(env, parts[i])
    {
      PartCompiles(env, name, j, i);
      CompiledField(env, parts[i].field);
      ClearReadsTheSame(env, parts[i].field.ty, parts[i].field.mode, parts[i].json);
    }
    ItemAgreesIff(env, name, j);
  }

  lemma CompiledField(env: Env, field: Field)
    requires FieldCompiles(env, field)
    ensures MirrorType(field.ty, field.mode).Some? && Resolves(env, MirrorType(field.ty, field.mode).value)
  {
  }

  predicate PartsCompile(env: Env, parts: seq<Part>) {
    forall i | 0 <= i < |parts| :: FieldCompiles(env, parts[i].field)
  }

  lemma {:induction false} EntryPartsCompile(env: Env, fields: seq<Field>, entries: seq<Entry>)
    requires AllCompile(env, fields)
    ensures PartsCompile(env, EntryParts(fields, entries))
  {
    hide FieldCompiles;
    if entries != [] {
      EntryPartsCompile(env, fields, entries[1..]);
    }
  }

  lemma {:induction false} ElementPartsCompile(env: Env, fields: seq<Field>, at: nat, items: seq<Json>)
    requires AllCompile(env, fields) && at <= |fields|
    ensures PartsCompile(env, ElementParts(fields, at, items))
    decreases |items|
  {
    hide FieldCompiles;
    if at < |fields| && items != [] {
      ElementPartsCompile(env, fields, at + 1, items[1..]);
    }
  }

  lemma StructPartsCompile(env: Env, fields: seq<Field>, j: Json)
    requires AllCompile(env, fields)
    ensures PartsCompile(env, StructParts(fields, j))
  {
    hide FieldCompiles, AllCompile;
    match j
    case JObject(entries) => EntryPartsCompile(env, fields, entries);
    case JArray(items) => ElementPartsCompile(env, fields, 0, items);
    case _ =>
  }

  /** What an item reads, it reads into fields that compile. */
  lemma PartCompiles(env: Env, name: string, j: Json, i: nat)
    requires Compiles(env) && name in env.items && i < |Parts(name, env.items[name], j)|
    ensures FieldCompiles(env, Parts(name, env.items[name], j)[i].field)
  {
    hide Compiles, FieldCompiles, AllCompile;
    CompiledItem(env, name);
    match env.items[name]
    case Struct(fields) => StructPartsCompile(env, fields, j);
    case Validated(_, fields) => StructPartsCompile(env, fields, j);
    case Enum(variants) =>
      var (tag, payload) := SplitTag(name, j).value;
      match variants[VariantIndex(variants, tag)].content
      case Newtype(field) =>
      case Tuple(fields) => ElementPartsCompile(env, fields, 0, payload.value.items);
      case Named(fields) => StructPartsCompile(env, fields, payload.value);
  }

  // ---------------------------------------------------------------------
  // Schemas without gaps

  /** A required field whose reader would accept nothing is one the derive recognises as an option. */
  predicate FieldHonoured(env: Env, field: Field) {
    field.default || IsOption(field.ty) || MissingOf(env, field.ty).None?
  }

  predicate FieldsHonoured(env: Env, fields: seq<Field>) {
    forall i | 0 <= i < |fields| :: FieldHonoured(env, fields[i])
  }

  predicate NoDefaults(fields: seq<Field>) {
    forall i | 0 <= i < |fields| :: !fields[i].default
  }

  predicate ContentHonoured(env: Env, content: VariantFields) {
    match content
    case Unit => true
    case Newtype(_) => true
    case Tuple(fields) => NoDefaults(fields)
    case Named(fields) => FieldsHonoured(env, fields)
  }

  predicate ItemHonoured(env: Env, item: Item) {
    match item
    case Struct(fields) => FieldsHonoured(env, fields)
    case Validated(_, fields) => FieldsHonoured(env, fields)
    case Enum(variants) => forall i | 0 <= i < |variants| :: ContentHonoured(env, variants[i].content)
  }

  predicate Honoured(env: Env) {
    forall name {:trigger ItemHonoured(env, env.items[name])} | name in env.items :: ItemHonoured(env, env.items[name])
  }

  lemma HonouredItem(env: Env, name: string)
    requires Honoured(env) && name in env.items
    ensures ItemHonoured(env, env.items[name])
  {
  }

  lemma HonouredHasNoGap(env: Env, name: string, item: Item, j: Json)
    requires ItemHonoured(env, item)
    ensures !GapAt(env, name, item, j)
  {
    hide ReadEntries, ReadOwned, MissingOf;
  }

  /** On an honoured schema no input shows a gap. */
  lemma {:induction false} HonouredIsClear(env: Env, ty: Ty, mode: Mode, j: Json)
    requires Honoured(env)
    ensures Clear(env, ty, mode, j)
    decreases j, 1, ty
  {
    hide Honoured, ClearItem;
    if mode == Owned { return; }
    match ty
    case Boxed(inner) => HonouredIsClear(env, inner, mode, j);
    case Opt(inner) => HonouredIsClear(env, inner, mode, j);
    case Vector(inner) =>
      if j.JArray? {
        forall i | 0 <= i < |j.items| ensures Clear(env, inner, mode, j.items[i]) {
          HonouredIsClear(env, inner, mode, j.items[i]);
        }
      }
    case BTree(_, value) =>
      if j.JObject? {
        forall i | 0 <= i < |j.entries| ensures Clear(env, value, mode, j.entries[i].value) {
          HonouredIsClear(env, value, mode, j.entries[i].value);
        }
      }
    case Pair(first, second) =>
      if j.JArray? && |j.items| > 0 { HonouredIsClear(env, first, mode, j.items[0]); }
      if j.JArray? && |j.items| > 1 { HonouredIsClear(env, second, mode, j.items[1]); }
    case Path(name) => if name in env.items { HonouredItemIsClear(env, name, j); }
    case _ =>
  }

  lemma {:induction false} HonouredItemIsClear(env: Env, name: string, j: Json)
    requires Honoured(env) && name in env.items
    ensures ClearItem(env, name, j)
    decreases j, 0
  {
    hide Honoured, GapAt, Clear;
    HonouredItem(env, name);
    HonouredHasNoGap(env, name, env.items[name], j);
    var parts := Parts(name, env.items[name], j);
    forall i | 0 <= i < |parts|
      ensures Clear(env, parts[i].field.ty, parts[i].field.mode, parts[i].json)
    {
      HonouredIsClear(env, parts[i].field.ty, parts[i].field.mode, parts[i].json);
    }
  }
}
