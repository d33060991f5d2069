/**
 The wire format without a reader: which JSON stands for which value of a type,
 said of the finished value and the whole input. The owned reader accepts
 exactly that.
 */
module WireForm {
  import opened Wrappers
  import opened Schema
  import opened OwnedReader

  // ---------------------------------------------------------------------
  // Which input stands for which value

  ghost predicate Denotes(env: Env, ty: Ty, j: Json, v: Value)
    decreases j, 2, ty
  {
    match ty
    case Str => v.VString? && j == JString(v.text)
    case Boxed(inner) => v.VBox? && Denotes(env, inner, j, v.inner)
    case Opt(inner) => if j == JNull then v == VNone else v.VSome? && Denotes(env, inner, j, v.inner)
    case Vector(inner) =>
      && j.JArray? && v.VVec? && |v.items| == |j.items|
      && forall i | 0 <= i < |j.items| :: Denotes(env, inner, j.items[i], v.items[i])
    case BTree(key, value) =>
      if key != Str then env.foreign("BTreeMap", j) == Ok(v)
      else j.JObject? && v.VMap? && MapDenotes(env, value, j.entries, map[], v.entries)
    case Pair(first, second) =>
      && j.JArray? && v.VPair? && |j.items| >= 2 && (env.strictEnd ==> |j.items| == 2)
      && Denotes(env, first, j.items[0], v.first) && Denotes(env, second, j.items[1], v.second)
    case Path(name) =>
      if name in env.items then ItemDenotes(env, env.items[name], j, v) && Vetted(env, name, v)
      else env.foreign(name, j) == Ok(v)
    case Other(spelling) => env.foreign(spelling, j) == Ok(v)
  }

  /** A validated item's value passed its check. */
  predicate Vetted(env: Env, name: string, v: Value)
    requires name in env.items
  {
    env.items[name].Validated? ==> env.verdict(name, v) == None
  }

  predicate IsLast(entries: seq<Entry>, i: nat)
    requires i < |entries|
  {
    forall k | i < k < |entries| :: entries[k].key != entries[i].key
  }

  predicate HasKey(entries: seq<Entry>, key: string) {
    exists i | 0 <= i < |entries| :: entries[i].key == key
  }

  /** Every entry's value stands for something, and each key keeps its last one. */
  ghost predicate MapDenotes(env: Env, ty: Ty, entries: seq<Entry>, seen: map<string, Value>, m: map<string, Value>)
    decreases entries, 3
  {
    && (forall key :: key in m <==> key in seen || HasKey(entries, key))
    && (forall key | key in seen && !HasKey(entries, key) :: key in m && m[key] == seen[key])
    && EntriesDenote(env, ty, entries, m)
  }

  ghost predicate EntriesDenote(env: Env, ty: Ty, entries: seq<Entry>, m: map<string, Value>)
    decreases entries, 2
  {
    forall i | 0 <= i < |entries| :: EntryDenotes(env, ty, entries, i, m)
  }

  ghost predicate EntryDenotes(env: Env, ty: Ty, entries: seq<Entry>, i: nat, m: map<string, Value>)
    requires i < |entries|
    decreases entries, 1
  {
    var entry := entries[i];
    if IsLast(entries, i) then entry.key in m && Denotes(env, ty, entry.value, m[entry.key])
    else exists v :: Denotes(env, ty, entry.value, v)
  }

  ghost predicate ItemDenotes(env: Env, item: Item, j: Json, v: Value)
    decreases j, 1
  {
    match item
    case Struct(fields) => v.VStruct? && StructDenotes(env, fields, j, v.fields)
    case Validated(_, fields) => v.VStruct? && StructDenotes(env, fields, j, v.fields)
    case Enum(variants) =>
      && v.VVariant? && v.index < |variants|
      && (forall i | 0 <= i < v.index :: variants[i].name != variants[v.index].name)
      && var tag, content := variants[v.index].name, variants[v.index].content;
      || (j == JString(tag) && content.Unit? && v.fields == [])
      || (j.JObject? && |j.entries| == 1 && j.entries[0].key == tag
          && ContentDenotes(env, content, j.entries[0].value, v.fields))
  }

  ghost predicate ContentDenotes(env: Env, content: VariantFields, j: Json, vs: seq<Value>)
    decreases j, 3
  {
    match content
    case Unit => j == JNull && vs == []
    case Newtype(field) => |vs| == 1 && Denotes(env, field.ty, j, vs[0])
    case Tuple(fields) => j.JArray? && SequenceDenotes(env, fields, 0, j.items, vs) && Ends(env, fields, j.items)
    case Named(fields) => StructDenotes(env, fields, j, vs)
  }

  ghost predicate StructDenotes(env: Env, fields: seq<Field>, j: Json, vs: seq<Value>)
    decreases j, 0
  {
    match j
    case JObject(entries) =>
      |vs| == |fields| && forall k | 0 <= k < |fields| :: FieldDenotes(env, fields, k, entries, vs[k])
    case JArray(items) => SequenceDenotes(env, fields, 0, items, vs) && Ends(env, fields, items)
    case _ => false
  }

  predicate Ends(env: Env, fields: seq<Field>, items: seq<Json>) {
    env.strictEnd ==> |items| <= |fields|
  }

  /** Elements stand for fields in order, and the fields after them have defaults. */
  ghost predicate SequenceDenotes(env: Env, fields: seq<Field>, at: nat, items: seq<Json>, vs: seq<Value>)
    requires at <= |fields|
    decreases items, 4
  {
    |vs| == |fields| - at && forall k | 0 <= k < |vs| :: ElementDenotes(env, fields[at + k], items, k, vs[k])
  }

  ghost predicate ElementDenotes(env: Env, field: Field, items: seq<Json>, k: nat, v: Value)
    decreases items, 3
  {
    if k < |items| then Denotes(env, field.ty, items[k], v) else field.default && v == DefaultOf(env, field.ty)
  }

  /** The key names the field, and no field before it. */
  predicate Names(fields: seq<Field>, k: nat, key: string)
    requires k < |fields|
  {
    fields[k].name == key && forall l | 0 <= l < k :: fields[l].name != key
  }

  predicate IsOnly(fields: seq<Field>, k: nat, entries: seq<Entry>, i: nat)
    requires k < |fields| && i < |entries|
  {
    forall l | 0 <= l < |entries| :: Names(fields, k, entries[l].key) <==> l == i
  }

  predicate Absent(fields: seq<Field>, k: nat, entries: seq<Entry>)
    requires k < |fields|
  {
    forall l | 0 <= l < |entries| :: !Names(fields, k, entries[l].key)
  }

  /** One entry stands for the field, or none does and it has a default or may be missing. */
  ghost predicate FieldDenotes(env: Env, fields: seq<Field>, k: nat, entries: seq<Entry>, v: Value)
    requires k < |fields|
    decreases entries, 3
  {
    if Absent(fields, k, entries)
    then if fields[k].default then v == DefaultOf(env, fields[k].ty) else MissingOf(env, fields[k].ty) == Some(v)
    else OneDenotes(env, fields, k, entries, v)
  }

  ghost predicate OneDenotes(env: Env, fields: seq<Field>, k: nat, entries: seq<Entry>, v: Value)
    requires k < |fields|
    decreases entries, 2
  {
    exists i | 0 <= i < |entries| ::
      IsOnly(fields, k, entries, i) && Denotes(env, fields[k].ty, entries[i].value, v)
  }

  // ---------------------------------------------------------------------
  // The reader accepts exactly that

  lemma {:induction false} ItemsRead(env: Env, ty: Ty, items: seq<Json>, vs: seq<Value>)
    ensures ReadItems(env, ty, items) == Ok(vs) <==>
            |vs| == |items| && forall i | 0 <= i < |items| :: Denotes(env, ty, items[i], vs[i])
    decreases items, 3
  {
    hide Denotes, ReadOwned;
    if items == [] || vs == [] {
      return;
    }
    Reads(env, ty, items[0], vs[0]);
    ItemsRead(env, ty, items[1..], vs[1..]);
    assert vs == [vs[0]] + vs[1..];
    assert forall i | 0 <= i < |items| - 1 :: items[1..][i] == items[i + 1];
    assert forall i | 0 <= i < |vs| - 1 :: vs[1..][i] == vs[i + 1];
    assert forall i | 0 < i < |items| :: items[i] == items[1..][i - 1];
    assert forall i | 0 < i < |vs| :: vs[i] == vs[1..][i - 1];
  }

  lemma KeysShift(entries: seq<Entry>, key: string)
    requires entries != []
    ensures HasKey(entries, key) <==> entries[0].key == key || HasKey(entries[1..], key)
    ensures key == entries[0].key ==> (IsLast(entries, 0) <==> !HasKey(entries[1..], key))
  {
    var rest := entries[1..];
    assert forall i | 0 <= i < |rest| :: rest[i] == entries[i + 1];
    assert forall i | 0 < i < |entries| :: entries[i] == rest[i - 1];
  }

  lemma EntryShifts(env: Env, ty: Ty, entries: seq<Entry>, i: nat, m: map<string, Value>)
    requires i + 1 < |entries|
    ensures EntryDenotes(env, ty, entries, i + 1, m) <==> EntryDenotes(env, ty, entries[1..], i, m)
  {
    hide Denotes;
    var rest := entries[1..];
    assert forall k | 0 <= k < |rest| :: rest[k] == entries[k + 1];
    assert forall k | 0 < k < |entries| :: entries[k] == rest[k - 1];
  }

  lemma FirstEntry(env: Env, ty: Ty, entries: seq<Entry>, m: map<string, Value>, w: Value)
    requires entries != [] && forall v :: Denotes(env, ty, entries[0].value, v) <==> v == w
    ensures EntryDenotes(env, ty, entries, 0, m) <==>
            (IsLast(entries, 0) ==> entries[0].key in m && m[entries[0].key] == w)
  {
    hide Denotes, IsLast;
    assert Denotes(env, ty, entries[0].value, w);
  }

  lemma TailDenotes(env: Env, ty: Ty, entries: seq<Entry>, m: map<string, Value>)
    requires entries != [] && EntriesDenote(env, ty, entries, m)
    ensures EntryDenotes(env, ty, entries, 0, m) && EntriesDenote(env, ty, entries[1..], m)
  {
    hide Denotes, IsLast;
    forall i | 0 <= i < |entries[1..]|
      ensures EntryDenotes(env, ty, entries[1..], i, m)
    {
      assert EntryDenotes(env, ty, entries, i + 1, m);
      EntryShifts(env, ty, entries, i, m);
    }
  }

  lemma TailSuffices(env: Env, ty: Ty, entries: seq<Entry>, m: map<string, Value>)
    requires entries != [] && EntryDenotes(env, ty, entries, 0, m) && EntriesDenote(env, ty, entries[1..], m)
    ensures EntriesDenote(env, ty, entries, m)
  {
    hide Denotes, IsLast;
    forall i | 0 <= i < |entries|
      ensures EntryDenotes(env, ty, entries, i, m)
    {
      if i > 0 {
        assert EntryDenotes(env, ty, entries[1..], i - 1, m);
        EntryShifts(env, ty, entries, i - 1, m);
      }
    }
  }

  lemma SplitEntries(env: Env, ty: Ty, entries: seq<Entry>, m: map<string, Value>)
    requires entries != []
    ensures EntriesDenote(env, ty, entries, m) <==>
            EntryDenotes(env, ty, entries, 0, m) && EntriesDenote(env, ty, entries[1..], m)
  {
    hide EntriesDenote, EntryDenotes;
    if EntriesDenote(env, ty, entries, m) {
      TailDenotes(env, ty, entries, m);
    } else if EntryDenotes(env, ty, entries, 0, m) && EntriesDenote(env, ty, entries[1..], m) {
      TailSuffices(env, ty, entries, m);
    }
  }

  /** What the first entry asks of a map, once its value is known to stand for `w` alone. */
  lemma MapStep(env: Env, ty: Ty, entries: seq<Entry>, seen: map<string, Value>, m: map<string, Value>, w: Value)
    requires entries != [] && forall v :: Denotes(env, ty, entries[0].value, v) <==> v == w
    ensures MapDenotes(env, ty, entries, seen, m) <==> MapDenotes(env, ty, entries[1..], seen[entries[0].key := w], m)
  {
    hide Denotes, IsLast, HasKey, EntriesDenote, EntryDenotes;
    var e, rest := entries[0], entries[1..];
    forall key
      ensures HasKey(entries, key) <==> e.key == key || HasKey(rest, key)
    {
      KeysShift(entries, key);
    }
    KeysShift(entries, e.key);
    FirstEntry(env, ty, entries, m, w);
    SplitEntries(env, ty, entries, m);
  }

  lemma {:induction false} MapReads(env: Env, ty: Ty, entries: seq<Entry>, seen: map<string, Value>,
      m: map<string, Value>)
    ensures ReadBTree(env, ty, entries, seen) == Ok(m) <==> MapDenotes(env, ty, entries, seen, m)
    decreases entries, 3
  {
    hide Denotes, ReadOwned;
    if entries == [] {
      assert forall key :: !HasKey(entries, key);
      if MapDenotes(env, ty, entries, seen, m) {
        assert m == seen;
      }
      return;
    }
    forall v
      ensures ReadOwned(env, ty, entries[0].value) == Ok(v) <==> Denotes(env, ty, entries[0].value, v)
    {
      Reads(env, ty, entries[0].value, v);
    }
    var r := ReadOwned(env, ty, entries[0].value);
    if r.Ok? {
      MapStep(env, ty, entries, seen, m, r.value);
      MapReads(env, ty, entries[1..], seen[entries[0].key := r.value], m);
    } else if MapDenotes(env, ty, entries, seen, m) {
      SplitEntries(env, ty, entries, m);
    }
  }

  /** What the scan leaves in a slot: what was there if no entry names its field, and else the one entry's value. */
  ghost predicate SlotDenotes(env: Env, fields: seq<Field>, k: nat, entries: seq<Entry>, before: Option<Value>,
      after: Option<Value>)
    requires k < |fields|
  {
    if Absent(fields, k, entries) then after == before
    else before.None? && after.Some? && OneDenotes(env, fields, k, entries, after.value)
  }

  ghost predicate SlotsDenote(env: Env, fields: seq<Field>, entries: seq<Entry>, before: seq<Option<Value>>,
      after: seq<Option<Value>>)
    requires |before| == |fields|
  {
    |after| == |fields| && forall k | 0 <= k < |fields| :: SlotDenotes(env, fields, k, entries, before[k], after[k])
  }

  lemma AbsentShifts(fields: seq<Field>, k: nat, entries: seq<Entry>)
    requires k < |fields| && entries != []
    ensures Absent(fields, k, entries) <==> !Names(fields, k, entries[0].key) && Absent(fields, k, entries[1..])
  {
    hide Names;
    var rest := entries[1..];
    assert forall l | 0 <= l < |rest| :: rest[l] == entries[l + 1];
    assert forall l | 0 < l < |entries| :: entries[l] == rest[l - 1];
  }

  lemma OnlyShifts(fields: seq<Field>, k: nat, entries: seq<Entry>, i: nat)
    requires k < |fields| && i + 1 < |entries|
    ensures IsOnly(fields, k, entries, i + 1) <==>
            !Names(fields, k, entries[0].key) && IsOnly(fields, k, entries[1..], i)
  {
    hide Names;
    var rest := entries[1..];
    assert forall l | 0 <= l < |rest| :: rest[l] == entries[l + 1];
    assert forall l | 0 < l < |entries| :: entries[l] == rest[l - 1];
  }

  lemma OnlyFirst(fields: seq<Field>, k: nat, entries: seq<Entry>)
    requires k < |fields| && entries != []
    ensures IsOnly(fields, k, entries, 0) <==>
            Names(fields, k, entries[0].key) && Absent(fields, k, entries[1..])
  {
    hide Names;
    var rest := entries[1..];
    assert forall l | 0 <= l < |rest| :: rest[l] == entries[l + 1];
    assert forall l | 0 < l < |entries| :: entries[l] == rest[l - 1];
  }

  /** An entry that does not name the field leaves its slot to the rest. */
  lemma OneShifts(env: Env, fields: seq<Field>, k: nat, entries: seq<Entry>, v: Value)
    requires k < |fields| && entries != [] && !Names(fields, k, entries[0].key)
    ensures OneDenotes(env, fields, k, entries, v) <==> OneDenotes(env, fields, k, entries[1..], v)
  {
    hide Denotes, Names, IsOnly;
    var rest := entries[1..];
    if OneDenotes(env, fields, k, entries, v) {
      var i :| 0 <= i < |entries| && IsOnly(fields, k, entries, i) && Denotes(env, fields[k].ty, entries[i].value, v);
      OnlyFirst(fields, k, entries);
      OnlyShifts(fields, k, entries, i - 1);
      assert Denotes(env, fields[k].ty, rest[i - 1].value, v);
    }
    if OneDenotes(env, fields, k, rest, v) {
      var i :| 0 <= i < |rest| && IsOnly(fields, k, rest, i) && Denotes(env, fields[k].ty, rest[i].value, v);
      OnlyShifts(fields, k, entries, i);
      assert Denotes(env, fields[k].ty, entries[i + 1].value, v);
    }
  }

  /** An entry that names the field is the only one to. */
  lemma OneIsFirst(env: Env, fields: seq<Field>, k: nat, entries: seq<Entry>, v: Value)
    requires k < |fields| && entries != [] && Names(fields, k, entries[0].key)
    ensures OneDenotes(env, fields, k, entries, v) <==>
            Absent(fields, k, entries[1..]) && Denotes(env, fields[k].ty, entries[0].value, v)
  {
    hide Denotes, Names, IsOnly;
    OnlyFirst(fields, k, entries);
    if OneDenotes(env, fields, k, entries, v) {
      var i :| 0 <= i < |entries| && IsOnly(fields, k, entries, i) && Denotes(env, fields[k].ty, entries[i].value, v);
      if i > 0 {
        OnlyShifts(fields, k, entries, i - 1);
      }
    }
  }

  lemma NamesItsIndex(fields: seq<Field>, k: nat, key: string)
    requires k < |fields|
    ensures Names(fields, k, key) <==> FieldIndex(fields, key) == k
  {
  }

  lemma SlotShifts(env: Env, fields: seq<Field>, k: nat, entries: seq<Entry>, before: Option<Value>,
      after: Option<Value>)
    requires k < |fields| && entries != [] && !Names(fields, k, entries[0].key)
    ensures SlotDenotes(env, fields, k, entries, before, after)
       <==> SlotDenotes(env, fields, k, entries[1..], before, after)
  {
    hide OneDenotes, Names, Absent;
    AbsentShifts(fields, k, entries);
    if after.Some? {
      OneShifts(env, fields, k, entries, after.value);
    }
  }

  lemma SlotNamed(env: Env, fields: seq<Field>, k: nat, entries: seq<Entry>, before: Option<Value>,
      after: Option<Value>)
    requires k < |fields| && entries != [] && Names(fields, k, entries[0].key)
    ensures SlotDenotes(env, fields, k, entries, before, after) <==>
            && before.None? && after.Some? && Absent(fields, k, entries[1..])
            && Denotes(env, fields[k].ty, entries[0].value, after.value)
  {
    hide OneDenotes, Names, Absent, Denotes;
    AbsentShifts(fields, k, entries);
    if after.Some? {
      OneIsFirst(env, fields, k, entries, after.value);
    }
  }

  /** The slots other than one ask the same of all entries and of the rest. */
  lemma OthersShift(env: Env, fields: seq<Field>, entries: seq<Entry>, before: seq<Option<Value>>,
      later: seq<Option<Value>>, after: seq<Option<Value>>)
    requires |before| == |later| == |fields| == |after| && entries != []
    requires forall k | 0 <= k < |fields| && k != FieldIndex(fields, entries[0].key) :: later[k] == before[k]
    ensures var kk := FieldIndex(fields, entries[0].key);
            && (kk == |fields| ==> (SlotsDenote(env, fields, entries, before, after)
                                    <==> SlotsDenote(env, fields, entries[1..], later, after)))
            && (kk < |fields| && SlotDenotes(env, fields, kk, entries, before[kk], after[kk])
                              && SlotDenotes(env, fields, kk, entries[1..], later[kk], after[kk]) ==>
                  (SlotsDenote(env, fields, entries, before, after)
                   <==> SlotsDenote(env, fields, entries[1..], later, after)))
  {
    hide SlotDenotes;
    forall k | 0 <= k < |fields| && k != FieldIndex(fields, entries[0].key)
      ensures SlotDenotes(env, fields, k, entries, before[k], after[k])
         <==> SlotDenotes(env, fields, k, entries[1..], later[k], after[k])
    {
      NamesItsIndex(fields, k, entries[0].key);
      SlotShifts(env, fields, k, entries, before[k], after[k]);
    }
  }

  lemma {:induction false} EntriesRead(env: Env, fields: seq<Field>, entries: seq<Entry>, slots: seq<Option<Value>>,
      after: seq<Option<Value>>)
    requires |slots| == |fields|
    ensures ReadEntries(env, fields, entries, slots) == Ok(after) <==> SlotsDenote(env, fields, entries, slots, after)
    decreases entries, 3
  {
    hide Denotes, ReadOwned, SlotDenotes, Absent;
    if |after| != |fields| {
      return;
    }
    if entries == [] {
      NoEntries(env, fields, slots, after);
      return;
    }
    var e, rest := entries[0], entries[1..];
    var i := FieldIndex(fields, e.key);
    if i == |fields| {
      OthersShift(env, fields, entries, slots, slots, after);
      EntriesRead(env, fields, rest, slots, after);
      return;
    }
    NamesItsIndex(fields, i, e.key);
    SlotNamed(env, fields, i, entries, slots[i], after[i]);
    var r := ReadOwned(env, fields[i].ty, e.value);
    if after[i].Some? {
      Reads(env, fields[i].ty, e.value, after[i].value);
    }
    if slots[i].None? && r.Ok? {
      var later := slots[i := Some(r.value)];
      FullSlot(env, fields, i, rest, r.value, after[i]);
      EntriesRead(env, fields, rest, later, after);
      OthersShift(env, fields, entries, slots, later, after);
      if SlotsDenote(env, fields, entries, slots, after) { OneSlot(env, fields, entries, slots, after, i); }
      if SlotsDenote(env, fields, rest, later, after) { OneSlot(env, fields, rest, later, after, i); }
    } else if SlotsDenote(env, fields, entries, slots, after) {
      OneSlot(env, fields, entries, slots, after, i);
    }
  }

  lemma NoEntries(env: Env, fields: seq<Field>, slots: seq<Option<Value>>, after: seq<Option<Value>>)
    requires |slots| == |fields| == |after|
    ensures SlotsDenote(env, fields, [], slots, after) <==> after == slots
  {
    assert forall k | 0 <= k < |fields| :: Absent(fields, k, []);
  }

  lemma FullSlot(env: Env, fields: seq<Field>, k: nat, entries: seq<Entry>, v: Value, after: Option<Value>)
    requires k < |fields|
    ensures SlotDenotes(env, fields, k, entries, Some(v), after) <==> Absent(fields, k, entries) && after == Some(v)
  {
  }

  lemma OneSlot(env: Env, fields: seq<Field>, entries: seq<Entry>, slots: seq<Option<Value>>,
      after: seq<Option<Value>>, k: nat)
    requires |slots| == |fields| == |after| && k < |fields| && SlotsDenote(env, fields, entries, slots, after)
    ensures SlotDenotes(env, fields, k, entries, slots[k], after[k])
  {
  }

  // ---------------------------------------------------------------------
  // Structs

  lemma {:induction false} FinishReads(env: Env, fields: seq<Field>, slots: seq<Option<Value>>, vs: seq<Value>)
    requires |slots| == |fields|
    ensures Finish(env, fields, slots) == Ok(vs) <==>
            |vs| == |fields| && forall k | 0 <= k < |fields| :: FieldValue(env, fields[k], slots[k]) == Ok(vs[k])
    decreases |fields|
  {
    hide FieldValue;
    if fields == [] || vs == [] {
      return;
    }
    FinishReads(env, fields[1..], slots[1..], vs[1..]);
    assert vs == [vs[0]] + vs[1..];
    assert forall k | 0 <= k < |fields| - 1 :: fields[1..][k] == fields[k + 1] && slots[1..][k] == slots[k + 1];
    assert forall k | 0 < k < |fields| :: fields[k] == fields[1..][k - 1] && slots[k] == slots[1..][k - 1];
    assert forall k | 0 <= k < |vs| - 1 :: vs[1..][k] == vs[k + 1];
    assert forall k | 0 < k < |vs| :: vs[k] == vs[1..][k - 1];
  }

  /** The slots that the values of a struct come from. */
  function SlotsOf(fields: seq<Field>, entries: seq<Entry>, vs: seq<Value>): (slots: seq<Option<Value>>)
    requires |vs| == |fields|
    ensures |slots| == |fields|
    ensures forall k | 0 <= k < |fields| :: slots[k] == if Absent(fields, k, entries) then None else Some(vs[k])
  {
    seq(|fields|, k requires 0 <= k < |fields| => if Absent(fields, k, entries) then None else Some(vs[k]))
  }

  /** A slot and what becomes of it say what the field asks. */
  lemma FieldReads(env: Env, fields: seq<Field>, k: nat, entries: seq<Entry>, slot: Option<Value>, v: Value)
    requires k < |fields|
    requires SlotDenotes(env, fields, k, entries, None, slot) && FieldValue(env, fields[k], slot) == Ok(v)
    ensures FieldDenotes(env, fields, k, entries, v) && slot == if Absent(fields, k, entries) then None else Some(v)
  {
    hide OneDenotes, Absent;
  }

  lemma FieldFills(env: Env, fields: seq<Field>, k: nat, entries: seq<Entry>, v: Value)
    requires k < |fields| && FieldDenotes(env, fields, k, entries, v)
    ensures var slot := if Absent(fields, k, entries) then None else Some(v);
            SlotDenotes(env, fields, k, entries, None, slot) && FieldValue(env, fields[k], slot) == Ok(v)
  {
    hide OneDenotes, Absent;
  }

  lemma {:induction false} ObjectReads(env: Env, expecting: string, fields: seq<Field>, entries: seq<Entry>,
      vs: seq<Value>)
    ensures ReadStruct(env, expecting, fields, JObject(entries)) == Ok(vs) <==>
            StructDenotes(env, fields, JObject(entries), vs)
    decreases entries, 4
  {
    hide ReadEntries, Finish, FieldDenotes, FieldValue, SlotDenotes, Absent;
    var none := EmptySlots<Value>(|fields|);
    var scan := ReadEntries(env, fields, entries, none);
    if ReadStruct(env, expecting, fields, JObject(entries)) == Ok(vs) {
      EntriesRead(env, fields, entries, none, scan.value);
      FinishReads(env, fields, scan.value, vs);
      forall k | 0 <= k < |fields|
        ensures FieldDenotes(env, fields, k, entries, vs[k])
      {
        FieldReads(env, fields, k, entries, scan.value[k], vs[k]);
      }
    }
    if StructDenotes(env, fields, JObject(entries), vs) {
      var slots := SlotsOf(fields, entries, vs);
      forall k | 0 <= k < |fields|
        ensures SlotDenotes(env, fields, k, entries, none[k], slots[k])
        ensures FieldValue(env, fields[k], slots[k]) == Ok(vs[k])
      {
        assert FieldDenotes(env, fields, k, entries, vs[k]);
        FieldFills(env, fields, k, entries, vs[k]);
      }
      EntriesRead(env, fields, entries, none, slots);
      FinishReads(env, fields, slots, vs);
    }
  }

  lemma SequenceStep(env: Env, fields: seq<Field>, at: nat, items: seq<Json>, vs: seq<Value>)
    requires at < |fields| && vs != []
    ensures var rest := if items == [] then [] else items[1..];
            SequenceDenotes(env, fields, at, items, vs) <==>
            ElementDenotes(env, fields[at], items, 0, vs[0]) && SequenceDenotes(env, fields, at + 1, rest, vs[1..])
  {
    hide Denotes;
    var rest, tail := if items == [] then [] else items[1..], vs[1..];
    forall k | 0 <= k < |tail| && at + 1 + k < |fields|
      ensures ElementDenotes(env, fields[at + 1 + k], rest, k, tail[k])
         <==> ElementDenotes(env, fields[at + 1 + k], items, k + 1, vs[k + 1])
    {
    }
    if SequenceDenotes(env, fields, at, items, vs) {
      forall k | 0 <= k < |tail|
        ensures ElementDenotes(env, fields[at + 1 + k], rest, k, tail[k])
      {
        var n := k + 1;
        assert ElementDenotes(env, fields[at + n], items, n, vs[n]);
      }
    }
    if ElementDenotes(env, fields[at], items, 0, vs[0]) && SequenceDenotes(env, fields, at + 1, rest, tail) {
      forall k | 0 <= k < |vs|
        ensures ElementDenotes(env, fields[at + k], items, k, vs[k])
      {
        if k > 0 {
          var n := k - 1;
          assert ElementDenotes(env, fields[at + 1 + n], rest, n, tail[n]);
        }
      }
    }
  }

  lemma {:induction false} SequenceReads(env: Env, expecting: string, fields: seq<Field>, at: nat, items: seq<Json>,
      vs: seq<Value>)
    requires at <= |fields|
    ensures ReadSequence(env, expecting, fields, at, items) == Ok(vs) <==> SequenceDenotes(env, fields, at, items, vs)
    decreases items, |fields| - at
  {
    hide Denotes, ReadOwned;
    if at == |fields| || vs == [] {
      return;
    }
    SequenceStep(env, fields, at, items, vs);
    assert vs == [vs[0]] + vs[1..];
    if items == [] {
      SequenceReads(env, expecting, fields, at + 1, items, vs[1..]);
    } else {
      Reads(env, fields[at].ty, items[0], vs[0]);
      SequenceReads(env, expecting, fields, at + 1, items[1..], vs[1..]);
    }
  }

  lemma {:induction false} StructReads(env: Env, expecting: string, fields: seq<Field>, j: Json, vs: seq<Value>)
    ensures ReadStruct(env, expecting, fields, j) == Ok(vs) <==> StructDenotes(env, fields, j, vs)
    decreases j, 0
  {
    hide FieldDenotes, ReadSequence, SequenceDenotes, ReadEntries, Finish;
    match j
    case JObject(entries) => ObjectReads(env, expecting, fields, entries, vs);
    case JArray(items) => SequenceReads(env, expecting, fields, 0, items, vs);
    case _ =>
  }

  lemma {:induction false} ContentReads(env: Env, name: string, variant: Variant, j: Json, payload: Json,
      vs: seq<Value>)
    requires payload < j
    ensures ReadVariant(env, name, variant, j, Some(payload)) == Ok(vs) <==>
            ContentDenotes(env, variant.content, payload, vs)
    decreases j, 0
  {
    hide Denotes, ReadOwned, StructDenotes, ReadStruct, SequenceDenotes, ReadSequence;
    var place := name + "::" + variant.ident;
    match variant.content
    case Unit =>
    case Newtype(field) =>
      if |vs| == 1 {
        Reads(env, field.ty, payload, vs[0]);
        assert vs == [vs[0]];
      }
    case Tuple(fields) =>
      if payload.JArray? { SequenceReads(env, "tuple variant " + place, fields, 0, payload.items, vs); }
    case Named(fields) => StructReads(env, "struct variant " + place, fields, payload, vs);
  }

  lemma {:induction false} EnumReads(env: Env, name: string, variants: seq<Variant>, j: Json, v: Value)
    ensures ReadItem(env, name, Enum(variants), j) == Ok(v) <==> ItemDenotes(env, Enum(variants), j, v)
    decreases j, 1, 0
  {
    hide ReadVariant, ContentDenotes;
    var split := SplitTag(name, j);
    if split.Err? || !v.VVariant? {
      return;
    }
    var k := VariantIndex(variants, split.value.0);
    if v.index != k {
      return;
    }
    if k < |variants| {
      if j.JObject? {
        ContentReads(env, name, variants[k], j, j.entries[0].value, v.fields);
      } else {
        BareReads(env, name, variants[k], j, v.fields);
      }
    }
  }

  lemma BareReads(env: Env, name: string, variant: Variant, j: Json, vs: seq<Value>)
    ensures ReadVariant(env, name, variant, j, None) == Ok(vs) <==> variant.content.Unit? && vs == []
  {
    hide ReadOwned, ReadStruct, ReadSequence;
  }

  /** For every schema, type and input: the owned reader gives a value exactly when the input stands for it. */
  lemma {:induction false} Reads(env: Env, ty: Ty, j: Json, v: Value)
    ensures ReadOwned(env, ty, j) == Ok(v) <==> Denotes(env, ty, j, v)
    decreases j, 2, ty
  {
    hide ReadItems, ReadBTree, MapDenotes, ReadItem, ItemDenotes, ReadStruct, StructDenotes, Checked;
    match ty
    case Str =>
    case Boxed(inner) => if v.VBox? { Reads(env, inner, j, v.inner); }
    case Opt(inner) => if v.VSome? { Reads(env, inner, j, v.inner); }
    case Vector(inner) => if j.JArray? && v.VVec? { ItemsRead(env, inner, j.items, v.items); }
    case BTree(key, value) => if j.JObject? && v.VMap? { MapReads(env, value, j.entries, map[], v.entries); }
    case Pair(first, second) => if j.JArray? && v.VPair? { PairReads(env, first, second, j.items, v); }
    case Path(name) => if name in env.items { NamedReads(env, name, j, v); }
    case Other(_) =>
  }

  lemma {:induction false} PairReads(env: Env, first: Ty, second: Ty, items: seq<Json>, v: Value)
    requires v.VPair?
    ensures ReadPair(env, first, second, items) == Ok(v) <==>
            && |items| >= 2 && (env.strictEnd ==> |items| == 2)
            && Denotes(env, first, items[0], v.first) && Denotes(env, second, items[1], v.second)
    decreases items, 4
  {
    hide Denotes, ReadOwned;
    if |items| >= 2 {
      Reads(env, first, items[0], v.first);
      Reads(env, second, items[1], v.second);
    }
  }

  lemma {:induction false} NamedReads(env: Env, name: string, j: Json, v: Value)
    requires name in env.items
    ensures ReadItem(env, name, env.items[name], j) == Ok(v) <==>
            ItemDenotes(env, env.items[name], j, v) && Vetted(env, name, v)
    decreases j, 1, 1
  {
    hide ReadStruct, StructDenotes;
    match env.items[name]
    case Struct(fields) => if v.VStruct? { StructReads(env, "struct " + name, fields, j, v.fields); }
    case Validated(raw, fields) => if v.VStruct? { StructReads(env, "struct " + raw, fields, j, v.fields); }
    case Enum(variants) => EnumReads(env, name, variants, j, v);
  }

  /** A validated item: no value its check refuses is accepted, and the check's message is the error. */
  lemma ChecksAreMade(env: Env, name: string, j: Json)
    requires name in env.items && env.items[name].Validated?
    ensures ReadOwned(env, Path(name), j).Ok? ==> env.verdict(name, ReadOwned(env, Path(name), j).value) == None
    ensures var item := env.items[name];
            var raw := ReadStruct(env, "struct " + item.raw, item.fields, j);
            && (raw.Err? ==> ReadOwned(env, Path(name), j) == Err(raw.error))
            && (raw.Ok? && env.verdict(name, VStruct(raw.value)).Some? ==>
                  ReadOwned(env, Path(name), j) == Err(Foreign(env.verdict(name, VStruct(raw.value)).value)))
  {
    hide ReadStruct;
  }
}
