/**
 Reading owned request types from a JSON value tree: serde's impls for the
 standard types and, for derived items, the visitors serde_derive emits.
 */
module OwnedReader {
  import opened Wrappers
  import opened Schema

  datatype Json =
    | JNull
    | JBool(flag: bool)
    | JNumber(text: string)
    | JString(text: string)
    | JArray(items: seq<Json>)
    | JObject(entries: seq<Entry>)

  datatype Entry = Entry(key: string, value: Json)

  datatype Error =
    | InvalidType(got: Json, expecting: string)
    | InvalidLength(length: nat, expecting: string, expected: nat)
    | MissingField(name: string)
    | DuplicateField(name: string)
    | UnknownVariant(tag: string, known: seq<string>)
    | TrailingElements
    | Foreign(message: string)
    | AllocationLimit

  datatype Value =
    | VForeign(json: Json)
    | VString(text: string)
    | VBox(inner: Value)
    | VVec(items: seq<Value>)
    | VNone
    | VSome(inner: Value)
    | VMap(entries: map<string, Value>)
    | VPair(first: Value, second: Value)
    | VStruct(fields: seq<Value>)
    | VVariant(index: nat, fields: seq<Value>)

  /**
   What the readers depend on besides the input: the derived items, how a
   foreign (plain, aliased or hand-written) type reads a value, what it makes
   of a missing field and its default, what a validated item's check says of a
   value, and whether the input format rejects elements left over after a
   visitor stopped.
   */
  datatype Env = Env(
    items: map<string, Item>,
    foreign: (string, Json) -> Result<Value, Error>,
    missing: string -> Option<Value>,
    defaults: string -> Value,
    verdict: (string, Value) -> Option<string>,
    strictEnd: bool
  )

  type Read<T> = Result<T, Error>

  function EmptySlots<T>(n: nat): (slots: seq<Option<T>>)
    ensures |slots| == n
    ensures forall i | 0 <= i < n :: slots[i] == None
  {
    seq(n, i => None)
  }

  /** `Default::default()` of an owned type. */
  function DefaultOf(env: Env, ty: Ty): (v: Value)
  {
    match ty
    case Str => VString("")
    case Boxed(inner) => VBox(DefaultOf(env, inner))
    case Vector(_) => VVec([])
    case Opt(_) => VNone
    case BTree(_, _) => VMap(map[])
    case Pair(first, second) => VPair(DefaultOf(env, first), DefaultOf(env, second))
    case Path(name) => env.defaults(name)
    case Other(spelling) => env.defaults(spelling)
  }

  /**
   serde's `missing_field`: the field's own reader runs against a value that is
   absent, which only a reader asking for an option accepts. A box asks
   whatever its content asks.
   */
  function MissingOf(env: Env, ty: Ty): (v: Option<Value>)
  {
    match ty
    case Opt(_) => Some(VNone)
    case Boxed(inner) => (match MissingOf(env, inner) case Some(v) => Some(VBox(v)) case None => None)
    case Path(name) => if name in env.items then None else env.missing(name)
    case Other(spelling) => env.missing(spelling)
    case _ => None
  }

  function ReadOwned(env: Env, ty: Ty, j: Json): (r: Read<Value>)
    decreases j, 2, ty
  {
    match ty
    case Str => if j.JString? then Ok(VString(j.text)) else Err(InvalidType(j, "a string"))
    case Boxed(inner) =>
      var v :- ReadOwned(env, inner, j);
      Ok(VBox(v))
    case Opt(inner) =>
      if j.JNull? then Ok(VNone) else
      var v :- ReadOwned(env, inner, j);
      Ok(VSome(v))
    case Vector(inner) =>
      if !j.JArray? then Err(InvalidType(j, "a sequence")) else
      var vs :- ReadItems(env, inner, j.items);
      Ok(VVec(vs))
    case BTree(key, value) =>
      if key != Str then env.foreign("BTreeMap", j)
      else if !j.JObject? then Err(InvalidType(j, "a map"))
      else
        var m :- ReadBTree(env, value, j.entries, map[]);
        Ok(VMap(m))
    case Pair(first, second) =>
      if !j.JArray? then Err(InvalidType(j, "a tuple of size 2")) else ReadPair(env, first, second, j.items)
    case Path(name) => if name in env.items then ReadItem(env, name, env.items[name], j) else env.foreign(name, j)
    case Other(spelling) => env.foreign(spelling, j)
  }

  predicate Leftover(env: Env, items: seq<Json>, count: nat) {
    env.strictEnd && |items| > count
  }

  function ReadPair(env: Env, first: Ty, second: Ty, items: seq<Json>): (r: Read<Value>)
    decreases items, 4
  {
    if |items| == 0 then Err(InvalidLength(0, "a tuple of size 2", 2)) else
    var a :- ReadOwned(env, first, items[0]);
    if |items| == 1 then Err(InvalidLength(1, "a tuple of size 2", 2)) else
    var b :- ReadOwned(env, second, items[1]);
    if Leftover(env, items, 2) then Err(TrailingElements) else
    Ok(VPair(a, b))
  }

  function ReadItems(env: Env, ty: Ty, items: seq<Json>): (r: Read<seq<Value>>)
    decreases items, 3
  {
    if items == [] then Ok([]) else
    var v :- ReadOwned(env, ty, items[0]);
    var vs :- ReadItems(env, ty, items[1..]);
    Ok([v] + vs)
  }

  /** serde's `BTreeMap` visitor: each entry is inserted as it is read. */
  function ReadBTree(env: Env, ty: Ty, entries: seq<Entry>, seen: map<string, Value>): (r: Read<map<string, Value>>)
    decreases entries, 3
  {
    if entries == [] then Ok(seen) else
    var v :- ReadOwned(env, ty, entries[0].value);
    ReadBTree(env, ty, entries[1..], seen[entries[0].key := v])
  }

  function ReadItem(env: Env, name: string, item: Item, j: Json): (r: Read<Value>)
    decreases j, 1
  {
    match item
    case Struct(fields) =>
      var vs :- ReadStruct(env, "struct " + name, fields, j);
      Ok(VStruct(vs))
    case Validated(raw, fields) =>
      var vs :- ReadStruct(env, "struct " + raw, fields, j);
      Checked(env, name, VStruct(vs))
    case Enum(variants) =>
      var (tag, payload) :- SplitTag(name, j);
      var k := VariantIndex(variants, tag);
      if k == |variants| then Err(UnknownVariant(tag, VariantNames(variants))) else
      var vs :- ReadVariant(env, name, variants[k], j, payload);
      Ok(VVariant(k, vs))
  }

  /** A validated item's check: the value, or the check's error. */
  function Checked(env: Env, name: string, v: Value): (r: Read<Value>)
  {
    var refused := env.verdict(name, v);
    if refused.Some? then Err(Foreign(refused.value)) else Ok(v)
  }

  /** How JSON presents an externally tagged enum: a bare tag, or an object of one entry. */
  function SplitTag(name: string, j: Json): (r: Read<(string, Option<Json>)>)
  {
    if j.JString? then Ok((j.text, None))
    else if j.JObject? && |j.entries| == 1 then Ok((j.entries[0].key, Some(j.entries[0].value)))
    else Err(InvalidType(j, "enum " + name))
  }

  function ReadVariant(env: Env, name: string, variant: Variant, j: Json, payload: Option<Json>): (r: Read<seq<Value>>)
    requires payload.Some? ==> payload.value < j
    decreases j, 0
  {
    var place := name + "::" + variant.ident;
    match variant.content
    case Unit =>
      if payload.Some? && !payload.value.JNull? then Err(InvalidType(payload.value, "unit")) else Ok([])
    case Newtype(field) =>
      if payload.None? then Err(InvalidType(j, "newtype variant")) else
      var v :- ReadOwned(env, field.ty, payload.value);
      Ok([v])
    case Tuple(fields) =>
      if payload.None? || !payload.value.JArray? then Err(InvalidType(j, "tuple variant " + place)) else
      var vs :- ReadSequence(env, "tuple variant " + place, fields, 0, payload.value.items);
      if Leftover(env, payload.value.items, |fields|) then Err(TrailingElements) else Ok(vs)
    case Named(fields) =>
      if payload.None? then Err(InvalidType(j, "struct variant " + place)) else
      ReadStruct(env, "struct variant " + place, fields, payload.value)
  }

  function ReadStruct(env: Env, expecting: string, fields: seq<Field>, j: Json): (r: Read<seq<Value>>)
    decreases j, 0
  {
    match j
    case JObject(entries) =>
      var slots :- ReadEntries(env, fields, entries, EmptySlots(|fields|));
      Finish(env, fields, slots)
    case JArray(items) =>
      var vs :- ReadSequence(env, expecting, fields, 0, items);
      if Leftover(env, items, |fields|) then Err(TrailingElements) else Ok(vs)
    case _ => Err(InvalidType(j, expecting))
  }

  /** The sequence form: fields in declaration order, `items` holding what is left from field `at` on. */
  function ReadSequence(env: Env, expecting: string, fields: seq<Field>, at: nat,
      items: seq<Json>): (r: Read<seq<Value>>)
    requires at <= |fields|
    decreases items, |fields| - at
  {
    if at == |fields| then Ok([])
    else if items == [] then
      if !fields[at].default then Err(InvalidLength(at, expecting, |fields|)) else
      var vs :- ReadSequence(env, expecting, fields, at + 1, items);
      Ok([DefaultOf(env, fields[at].ty)] + vs)
    else
      var v :- ReadOwned(env, fields[at].ty, items[0]);
      var vs :- ReadSequence(env, expecting, fields, at + 1, items[1..]);
      Ok([v] + vs)
  }

  /** The map form's loop over keys, filling one slot per known key. */
  function ReadEntries(env: Env, fields: seq<Field>, entries: seq<Entry>,
      slots: seq<Option<Value>>): (r: Read<seq<Option<Value>>>)
    requires |slots| == |fields|
    ensures r.Ok? ==> |r.value| == |fields|
    decreases entries, 3
  {
    if entries == [] then Ok(slots) else
    var i := FieldIndex(fields, entries[0].key);
    if i == |fields| then ReadEntries(env, fields, entries[1..], slots)
    else if slots[i].Some? then Err(DuplicateField(fields[i].name))
    else
      var v :- ReadOwned(env, fields[i].ty, entries[0].value);
      ReadEntries(env, fields, entries[1..], slots[i := Some(v)])
  }

  /** The value of one field after the loop: its slot, its default, or what its reader makes of nothing. */
  function FieldValue(env: Env, field: Field, slot: Option<Value>): (r: Read<Value>)
  {
    if slot.Some? then Ok(slot.value)
    else if field.default then Ok(DefaultOf(env, field.ty))
    else match MissingOf(env, field.ty)
      case Some(v) => Ok(v)
      case None => Err(MissingField(field.name))
  }

  function Finish(env: Env, fields: seq<Field>, slots: seq<Option<Value>>): (r: Read<seq<Value>>)
    requires |slots| == |fields|
    decreases |fields|
  {
    if fields == [] then Ok([]) else
    var v :- FieldValue(env, fields[0], slots[0]);
    var vs :- Finish(env, fields[1..], slots[1..]);
    Ok([v] + vs)
  }
}
