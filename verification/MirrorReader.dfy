/**
 What the generated readers read, apart from where they put it: which schemas
 compile, and the owned value or error that each mirror type makes of an input.
 */
module MirrorReader {
  import opened Wrappers
  import opened Schema
  import opened OwnedReader

  // ---------------------------------------------------------------------
  // Schemas whose generated code compiles

  /** The mirror type has a `Default` impl. A leaf enum is its own mirror and so has its owned type's. */
  predicate HasDefault(env: Env, ty: MirrorTy) {
    match ty
    case Kept(_) => true
    case StrRef => true
    case SliceOf(_) => true
    case OptionOf(_) => true
    case PairOf(first, second) => HasDefault(env, first) && HasDefault(env, second)
    case ArenaNamed(name) => name in env.items && IsLeaf(env.items[name])
    case _ => false
  }

  /** Every `Arena` name this type mentions is a derived item. */
  predicate Resolves(env: Env, ty: MirrorTy) {
    match ty
    case ArenaNamed(name) => name in env.items
    case RefTo(inner) => Resolves(env, inner)
    case SliceOf(inner) => Resolves(env, inner)
    case OptionOf(inner) => Resolves(env, inner)
    case MapOf(value) => Resolves(env, value)
    case PairOf(first, second) => Resolves(env, first) && Resolves(env, second)
    case _ => true
  }

  predicate FieldCompiles(env: Env, field: Field) {
    var m := MirrorType(field.ty, field.mode);
    m.Some? && Resolves(env, m.value) && (field.default ==> HasDefault(env, m.value))
  }

  predicate AllCompile(env: Env, fields: seq<Field>) {
    forall i | 0 <= i < |fields| :: FieldCompiles(env, fields[i])
  }

  predicate ContentCompiles(env: Env, content: VariantFields) {
    match content
    case Unit => true
    case Newtype(field) => FieldCompiles(env, field)
    case Tuple(fields) => AllCompile(env, fields)
    case Named(fields) => DistinctNames(fields) && AllCompile(env, fields)
  }

  predicate ItemCompiles(env: Env, item: Item) {
    match item
    case Struct(fields) => DistinctNames(fields) && AllCompile(env, fields)
    case Enum(variants) => forall i | 0 <= i < |variants| :: ContentCompiles(env, variants[i].content)
    case Validated(_, fields) => DistinctNames(fields) && AllCompile(env, fields)
  }

  predicate Compiles(env: Env) {
    forall name {:trigger ItemCompiles(env, env.items[name])} | name in env.items :: ItemCompiles(env, env.items[name])
  }

  lemma CompiledItem(env: Env, name: string)
    requires Compiles(env) && name in env.items
    ensures ItemCompiles(env, env.items[name])
  {
  }

  function FieldMirror(field: Field): (ty: MirrorTy)
    requires MirrorType(field.ty, field.mode).Some?
  {
    MirrorType(field.ty, field.mode).value
  }

  // ---------------------------------------------------------------------
  // What is read

  function ReadMirror(env: Env, ty: MirrorTy, j: Json): (r: Read<Value>)
    requires Compiles(env) && Resolves(env, ty)
    decreases j, 2, ty
  {
    match ty
    case Kept(owned) => ReadOwned(env, owned, j)
    case StrRef => if j.JString? then Ok(VString(j.text)) else Err(InvalidType(j, "a string"))
    case RefTo(inner) =>
      var v :- ReadMirror(env, inner, j);
      Ok(VBox(v))
    case OptionOf(inner) =>
      if j.JNull? then Ok(VNone) else
      var v :- ReadMirror(env, inner, j);
      Ok(VSome(v))
    case SliceOf(inner) =>
      if !j.JArray? then Err(InvalidType(j, "a sequence")) else
      var vs :- ReadMirrorItems(env, inner, j.items);
      Ok(VVec(vs))
    case MapOf(value) =>
      if !j.JObject? then Err(InvalidType(j, "a map")) else
      var m :- ReadMirrorMap(env, value, j.entries, map[]);
      Ok(VMap(m))
    case PairOf(first, second) =>
      if !j.JArray? then Err(InvalidType(j, "a tuple of size 2")) else ReadMirrorPair(env, first, second, j.items)
    case ArenaNamed(name) => ReadMirrorItem(env, name, j)
  }

  function ReadMirrorItems(env: Env, ty: MirrorTy, items: seq<Json>): (r: Read<seq<Value>>)
    requires Compiles(env) && Resolves(env, ty)
    decreases items, 3
  {
    if items == [] then Ok([]) else
    var v :- ReadMirror(env, ty, items[0]);
    var vs :- ReadMirrorItems(env, ty, items[1..]);
    Ok([v] + vs)
  }

  function ReadMirrorMap(env: Env, ty: MirrorTy, entries: seq<Entry>, seen: map<string, Value>)
    : (r: Read<map<string, Value>>)
    requires Compiles(env) && Resolves(env, ty)
    decreases entries, 3
  {
    if entries == [] then Ok(seen) else
    var v :- ReadMirror(env, ty, entries[0].value);
    ReadMirrorMap(env, ty, entries[1..], seen[entries[0].key := v])
  }

  function ReadMirrorPair(env: Env, first: MirrorTy, second: MirrorTy, items: seq<Json>): (r: Read<Value>)
    requires Compiles(env) && Resolves(env, first) && Resolves(env, second)
    decreases items, 4
  {
    if |items| == 0 then Err(InvalidLength(0, "a tuple of size 2", 2)) else
    var a :- ReadMirror(env, first, items[0]);
    if |items| == 1 then Err(InvalidLength(1, "a tuple of size 2", 2)) else
    var b :- ReadMirror(env, second, items[1]);
    if Leftover(env, items, 2) then Err(TrailingElements) else
    Ok(VPair(a, b))
  }

  function ReadMirrorItem(env: Env, name: string, j: Json): (r: Read<Value>)
    requires Compiles(env) && name in env.items
    decreases j, 1
  {
    assert ItemCompiles(env, env.items[name]);
    match env.items[name]
    case Struct(fields) =>
      var vs :- ReadMirrorStruct(env, "struct " + name, fields, j);
      Ok(VStruct(vs))
    case Validated(raw, fields) =>
      var vs :- ReadMirrorStruct(env, "struct " + raw, fields, j);
      Checked(env, name, VStruct(vs))
    case Enum(variants) =>
      var (tag, payload) :- SplitTag(name, j);
      var k := VariantIndex(variants, tag);
      if k == |variants| then Err(UnknownVariant(tag, VariantNames(variants))) else
      var vs :- ReadMirrorVariant(env, name, variants[k], j, payload);
      Ok(VVariant(k, vs))
  }

  function ReadMirrorVariant(env: Env, name: string, variant: Variant, j: Json,
      payload: Option<Json>): (r: Read<seq<Value>>)
    requires Compiles(env) && ContentCompiles(env, variant.content)
    requires payload.Some? ==> payload.value < j
    decreases j, 0
  {
    var place := name + "::" + variant.ident;
    match variant.content
    case Unit =>
      if payload.Some? && !payload.value.JNull? then Err(InvalidType(payload.value, "unit")) else Ok([])
    case Newtype(field) =>
      if payload.None? then Err(InvalidType(j, "newtype variant")) else
      var v :- ReadMirror(env, FieldMirror(field), payload.value);
      Ok([v])
    case Tuple(fields) =>
      if payload.None? || !payload.value.JArray? then Err(InvalidType(j, "tuple variant " + place)) else
      var vs :- ReadMirrorSequence(env, "tuple variant " + place, fields, false, 0, payload.value.items);
      if Leftover(env, payload.value.items, |fields|) then Err(TrailingElements) else Ok(vs)
    case Named(fields) =>
      if payload.None? then Err(InvalidType(j, "struct variant " + place)) else
      ReadMirrorStruct(env, "struct variant " + place, fields, payload.value)
  }

  function ReadMirrorStruct(env: Env, expecting: string, fields: seq<Field>, j: Json): (r: Read<seq<Value>>)
    requires Compiles(env) && AllCompile(env, fields)
    decreases j, 0
  {
    match j
    case JObject(entries) =>
      var slots :- ReadMirrorEntries(env, fields, entries, EmptySlots(|fields|));
      FinishMirror(env, fields, slots)
    case JArray(items) =>
      var vs :- ReadMirrorSequence(env, expecting, fields, true, 0, items);
      if Leftover(env, items, |fields|) then Err(TrailingElements) else Ok(vs)
    case _ => Err(InvalidType(j, expecting))
  }

  /**
   The sequence form. `defaults` says whether an absent element takes its
   default: the struct visitor honours `#[serde(default)]`, the tuple-variant
   visitor does not look at it.
   */
  function ReadMirrorSequence(env: Env, expecting: string, fields: seq<Field>, defaults: bool, at: nat,
      items: seq<Json>)
    : (r: Read<seq<Value>>)
    requires Compiles(env) && AllCompile(env, fields) && at <= |fields|
    decreases items, |fields| - at
  {
    if at == |fields| then Ok([])
    else if items == [] then
      if !(defaults && fields[at].default) then Err(InvalidLength(at, expecting, |fields|)) else
      var vs :- ReadMirrorSequence(env, expecting, fields, defaults, at + 1, items);
      Ok([DefaultOf(env, fields[at].ty)] + vs)
    else
      var v :- ReadMirror(env, FieldMirror(fields[at]), items[0]);
      var vs :- ReadMirrorSequence(env, expecting, fields, defaults, at + 1, items[1..]);
      Ok([v] + vs)
  }

  function ReadMirrorEntries(env: Env, fields: seq<Field>, entries: seq<Entry>, slots: seq<Option<Value>>)
    : (r: Read<seq<Option<Value>>>)
    requires Compiles(env) && AllCompile(env, fields) && |slots| == |fields|
    ensures r.Ok? ==> |r.value| == |fields|
    decreases entries, 3
  {
    if entries == [] then Ok(slots) else
    var i := FieldIndex(fields, entries[0].key);
    if i == |fields| then ReadMirrorEntries(env, fields, entries[1..], slots)
    else if slots[i].Some? then Err(DuplicateField(fields[i].name))
    else
      var v :- ReadMirror(env, FieldMirror(fields[i]), entries[0].value);
      ReadMirrorEntries(env, fields, entries[1..], slots[i := Some(v)])
  }

  /** A field's value after the loop; an absent option is recognised by its type's outermost name. */
  function MirrorFieldValue(env: Env, field: Field, slot: Option<Value>): (r: Read<Value>)
  {
    if slot.Some? then Ok(slot.value)
    else if field.default then Ok(DefaultOf(env, field.ty))
    else if IsOption(field.ty) then Ok(VNone)
    else Err(MissingField(field.name))
  }

  function FinishMirror(env: Env, fields: seq<Field>, slots: seq<Option<Value>>): (r: Read<seq<Value>>)
    requires |slots| == |fields|
    decreases |fields|
  {
    if fields == [] then Ok([]) else
    var v :- MirrorFieldValue(env, fields[0], slots[0]);
    var vs :- FinishMirror(env, fields[1..], slots[1..]);
    Ok([v] + vs)
  }
}
