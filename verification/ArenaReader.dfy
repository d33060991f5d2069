/**
 The generated mirrors: values that borrow from an append-only arena, the
 readers that allocate in it, and the conversion back to owned values.
 */
module ArenaReader {
  import opened Wrappers
  import opened Schema
  import opened OwnedReader
  import opened MirrorReader
  import opened SortedEntries

  /** A mirror value; `at` is a reference into the arena. */
  datatype Mirrored =
    | MKept(value: Value)           // a type that is its own mirror, or an `#[arena(owned)]` field
    | MStr(at: nat)
    | MEmptyStr                     // `<&str>::default()`, which lives outside the arena
    | MRef(at: nat)
    | MSlice(at: nat)
    | MEmptySlice                   // `<&[T]>::default()`
    | MMap(at: nat)
    | MNone
    | MSome(inner: Mirrored)
    | MPair(first: Mirrored, second: Mirrored)
    | MStruct(fields: seq<Mirrored>)
    | MVariant(index: nat, fields: seq<Mirrored>)

  datatype MapEntry = MapEntry(key: nat, value: Mirrored)

  datatype Cell =
    | Text(text: string)
    | Boxed1(value: Mirrored)
    | Slice(values: seq<Mirrored>)
    | Entries(entries: seq<MapEntry>)
    | Reserved                      // room taken by a vector that may have been outgrown

  /** Whether the allocator grants one more allocation; any limit is such a policy. */
  type Policy = (seq<Cell>, Cell) -> bool

  /** The outcome of one read: its result and the arena it left behind. */
  datatype Outcome<T> = Outcome(result: Read<T>, cells: seq<Cell>)

  function Alloc<T>(admits: Policy, cells: seq<Cell>, cell: Cell, value: T): (o: Outcome<T>)
    ensures cells <= o.cells
  {
    if admits(cells, cell) then Outcome(Ok(value), cells + [cell]) else Outcome(Err(AllocationLimit), cells)
  }

  function Failed<T, U>(o: Outcome<T>): (f: Outcome<U>)
    requires o.result.Err?
  {
    Outcome(Err(o.result.error), o.cells)
  }

  // ---------------------------------------------------------------------
  // Conversion back to owned values

  /** Every reference below `bound` leads to a cell of the right kind, whose own references lead further down. */
  predicate Closed(cells: seq<Cell>, bound: nat, m: Mirrored)
    decreases bound, m
  {
    bound <= |cells| &&
    match m
    case MKept(_) => true
    case MStr(at) => at < bound && cells[at].Text?
    case MEmptyStr => true
    case MRef(at) => at < bound && cells[at].Boxed1? && Closed(cells, at, cells[at].value)
    case MSlice(at) =>
      at < bound && cells[at].Slice? && forall i | 0 <= i < |cells[at].values| :: Closed(cells, at, cells[at].values[i])
    case MEmptySlice => true
    case MMap(at) =>
      && at < bound && cells[at].Entries?
      && forall i | 0 <= i < |cells[at].entries| :: ClosedEntry(cells, at, cells[at].entries[i])
    case MNone => true
    case MSome(inner) => Closed(cells, bound, inner)
    case MPair(first, second) => Closed(cells, bound, first) && Closed(cells, bound, second)
    case MStruct(fields) => forall i | 0 <= i < |fields| :: Closed(cells, bound, fields[i])
    case MVariant(_, fields) => forall i | 0 <= i < |fields| :: Closed(cells, bound, fields[i])
  }

  predicate ClosedEntry(cells: seq<Cell>, bound: nat, e: MapEntry)
    decreases bound, e
  {
    bound <= |cells| && e.key < bound && cells[e.key].Text? && Closed(cells, bound, e.value)
  }

  predicate AllClosed(cells: seq<Cell>, bound: nat, ms: seq<Mirrored>) {
    bound <= |cells| && forall i | 0 <= i < |ms| :: Closed(cells, bound, ms[i])
  }

  predicate AllEntriesClosed(cells: seq<Cell>, bound: nat, es: seq<MapEntry>) {
    bound <= |cells| && forall i | 0 <= i < |es| :: ClosedEntry(cells, bound, es[i])
  }

  /** The generated and library `into_owned` impls. */
  function IntoOwned(cells: seq<Cell>, bound: nat, m: Mirrored): (v: Value)
    requires Closed(cells, bound, m)
    decreases bound, m
  {
    match m
    case MKept(value) => value
    case MStr(at) => VString(cells[at].text)
    case MEmptyStr => VString("")
    case MRef(at) => VBox(IntoOwned(cells, at, cells[at].value))
    case MSlice(at) => VVec(AllOwned(cells, at, cells[at].values))
    case MEmptySlice => VVec([])
    case MMap(at) => VMap(Collect(OwnedEntries(cells, at, cells[at].entries), map[]))
    case MNone => VNone
    case MSome(inner) => VSome(IntoOwned(cells, bound, inner))
    case MPair(first, second) => VPair(IntoOwned(cells, bound, first), IntoOwned(cells, bound, second))
    case MStruct(fields) => VStruct(AllOwned(cells, bound, fields))
    case MVariant(index, fields) => VVariant(index, AllOwned(cells, bound, fields))
  }

  function AllOwned(cells: seq<Cell>, bound: nat, ms: seq<Mirrored>): (vs: seq<Value>)
    requires AllClosed(cells, bound, ms)
    decreases bound, ms
  {
    if ms == [] then [] else [IntoOwned(cells, bound, ms[0])] + AllOwned(cells, bound, ms[1..])
  }

  function OwnedEntries(cells: seq<Cell>, bound: nat, es: seq<MapEntry>): (s: seq<Keyed<Value>>)
    requires AllEntriesClosed(cells, bound, es)
    decreases bound, es
  {
    if es == [] then [] else [OwnedEntry(cells, bound, es[0])] + OwnedEntries(cells, bound, es[1..])
  }

  function OwnedEntry(cells: seq<Cell>, bound: nat, e: MapEntry): (k: Keyed<Value>)
    requires ClosedEntry(cells, bound, e)
    decreases bound, e
  {
    Keyed(cells[e.key].text, IntoOwned(cells, bound, e.value))
  }

  // ---------------------------------------------------------------------
  // The readers

  /** `Default::default()` of a mirror type. */
  function MirrorDefault(env: Env, ty: MirrorTy): (m: Mirrored)
    requires HasDefault(env, ty)
  {
    match ty
    case Kept(owned) => MKept(DefaultOf(env, owned))
    case StrRef => MEmptyStr
    case SliceOf(_) => MEmptySlice
    case OptionOf(_) => MNone
    case PairOf(first, second) => MPair(MirrorDefault(env, first), MirrorDefault(env, second))
    case ArenaNamed(name) => MKept(env.defaults(name))
  }

  function ReadIn(env: Env, admits: Policy, ty: MirrorTy, j: Json, cells: seq<Cell>): (o: Outcome<Mirrored>)
    requires Compiles(env) && Resolves(env, ty)
    decreases j, 2, ty
  {
    match ty
    case Kept(owned) =>
      var r := ReadOwned(env, owned, j);
      Outcome(if r.Ok? then Ok(MKept(r.value)) else Err(r.error), cells)
    case StrRef =>
      if j.JString? then Alloc(admits, cells, Text(j.text), MStr(|cells|))
      else Outcome(Err(InvalidType(j, "a string")), cells)
    case RefTo(inner) =>
      var o := ReadIn(env, admits, inner, j, cells);
      if o.result.Err? then o else Alloc(admits, o.cells, Boxed1(o.result.value), MRef(|o.cells|))
    case SliceOf(inner) =>
      if !j.JArray? then Outcome(Err(InvalidType(j, "a sequence")), cells)
      else ReadSliceIn(env, admits, inner, j.items, cells)
    case OptionOf(inner) =>
      if j.JNull? then Outcome(Ok(MNone), cells) else
      var o := ReadIn(env, admits, inner, j, cells);
      if o.result.Err? then o else Outcome(Ok(MSome(o.result.value)), o.cells)
    case MapOf(value) =>
      if !j.JObject? then Outcome(Err(InvalidType(j, "a map")), cells)
      else ReadMapIn(env, admits, value, j.entries, cells)
    case PairOf(first, second) =>
      if !j.JArray? then Outcome(Err(InvalidType(j, "a tuple of size 2")), cells)
      else ReadPairIn(env, admits, first, second, j.items, cells)
    case ArenaNamed(name) => ReadItemIn(env, admits, name, j, cells)
  }

  /** The slice visitor reserves room up front and again before each push; the vector then becomes the slice. */
  function ReadSliceIn(env: Env, admits: Policy, ty: MirrorTy, items: seq<Json>,
      cells: seq<Cell>): (o: Outcome<Mirrored>)
    requires Compiles(env) && Resolves(env, ty)
    decreases items, 4
  {
    var room := Alloc(admits, cells, Reserved, ());
    if room.result.Err? then Failed(room) else
    var o := ReadItemsIn(env, admits, ty, items, room.cells);
    if o.result.Err? then Failed(o)
    else Outcome(Ok(MSlice(|o.cells|)), o.cells + [Slice(o.result.value)])
  }

  function ReadMapIn(env: Env, admits: Policy, ty: MirrorTy, entries: seq<Entry>,
      cells: seq<Cell>): (o: Outcome<Mirrored>)
    requires Compiles(env) && Resolves(env, ty)
    decreases entries, 4
  {
    var o := ReadKeysIn(env, admits, ty, entries, cells);
    if o.result.Err? then Failed(o)
    else Outcome(Ok(MMap(|o.cells|)), o.cells + [Entries(Undecorate(Normalize(o.result.value)))])
  }

  function ReadPairIn(env: Env, admits: Policy, first: MirrorTy, second: MirrorTy, items: seq<Json>, cells: seq<Cell>)
    : (o: Outcome<Mirrored>)
    requires Compiles(env) && Resolves(env, first) && Resolves(env, second)
    decreases items, 4
  {
    if |items| == 0 then Outcome(Err(InvalidLength(0, "a tuple of size 2", 2)), cells) else
    var a := ReadIn(env, admits, first, items[0], cells);
    if a.result.Err? then a
    else if |items| == 1 then Outcome(Err(InvalidLength(1, "a tuple of size 2", 2)), a.cells)
    else
      var b := ReadIn(env, admits, second, items[1], a.cells);
      if b.result.Err? then b
      else if Leftover(env, items, 2) then Outcome(Err(TrailingElements), b.cells)
      else Outcome(Ok(MPair(a.result.value, b.result.value)), b.cells)
  }

  function ReadItemsIn(env: Env, admits: Policy, ty: MirrorTy, items: seq<Json>,
      cells: seq<Cell>): (o: Outcome<seq<Mirrored>>)
    requires Compiles(env) && Resolves(env, ty)
    decreases items, 3
  {
    if items == [] then Outcome(Ok([]), cells) else
    var head := ReadIn(env, admits, ty, items[0], cells);
    if head.result.Err? then Failed(head) else
    var room := Alloc(admits, head.cells, Reserved, ());
    if room.result.Err? then Failed(room) else
    var tail := ReadItemsIn(env, admits, ty, items[1..], room.cells);
    if tail.result.Err? then tail
    else Outcome(Ok([head.result.value] + tail.result.value), tail.cells)
  }

  /** Entries as read, each with the text its key refers to. */
  function ReadKeysIn(env: Env, admits: Policy, ty: MirrorTy, entries: seq<Entry>, cells: seq<Cell>)
    : (o: Outcome<seq<Keyed<MapEntry>>>)
    requires Compiles(env) && Resolves(env, ty)
    decreases entries, 3
  {
    if entries == [] then Outcome(Ok([]), cells) else
    var key := Alloc(admits, cells, Text(entries[0].key), |cells|);
    if key.result.Err? then Failed(key) else
    var head := ReadIn(env, admits, ty, entries[0].value, key.cells);
    if head.result.Err? then Failed(head) else
    var room := Alloc(admits, head.cells, Reserved, ());
    if room.result.Err? then Failed(room) else
    var tail := ReadKeysIn(env, admits, ty, entries[1..], room.cells);
    if tail.result.Err? then tail
    else Outcome(Ok([Keyed(entries[0].key, MapEntry(key.result.value, head.result.value))] + tail.result.value),
      tail.cells)
  }

  function Undecorate(s: seq<Keyed<MapEntry>>): (es: seq<MapEntry>)
    ensures |es| == |s|
    ensures forall i | 0 <= i < |s| :: es[i] == s[i].value
  {
    seq(|s|, i requires 0 <= i < |s| => s[i].value)
  }

  function ReadItemIn(env: Env, admits: Policy, name: string, j: Json, cells: seq<Cell>): (o: Outcome<Mirrored>)
    requires Compiles(env) && name in env.items
    decreases j, 1
  {
    assert ItemCompiles(env, env.items[name]);
    if IsLeaf(env.items[name]) then
      var r := ReadItem(env, name, env.items[name], j);
      Outcome(if r.Ok? then Ok(MKept(r.value)) else Err(r.error), cells)
    else
      match env.items[name]
      case Struct(fields) =>
        var o := ReadStructIn(env, admits, "struct " + name, fields, j, cells);
        if o.result.Err? then Failed(o) else Outcome(Ok(MStruct(o.result.value)), o.cells)
      case Validated(raw, fields) =>
        var o := ReadStructIn(env, admits, "struct " + raw, fields, j, cells);
        if o.result.Err? then Failed(o) else Outcome(CheckedIn(env, name, o.cells, MStruct(o.result.value)), o.cells)
      case Enum(variants) =>
        var split := SplitTag(name, j);
        if split.Err? then Outcome(Err(split.error), cells) else
        var k := VariantIndex(variants, split.value.0);
        if k == |variants| then Outcome(Err(UnknownVariant(split.value.0, VariantNames(variants))), cells) else
        var o := ReadVariantIn(env, admits, name, variants[k], j, split.value.1, cells);
        if o.result.Err? then Failed(o) else Outcome(Ok(MVariant(k, o.result.value)), o.cells)
  }

  /** The check of a validated mirror, which says of it what the owned check says of its owned value. */
  function CheckedIn(env: Env, name: string, cells: seq<Cell>, m: Mirrored): (r: Read<Mirrored>)
  {
    if !Closed(cells, |cells|, m) then Ok(m) else
    var r := Checked(env, name, IntoOwned(cells, |cells|, m));
    if r.Err? then Err(r.error) else Ok(m)
  }

  function ReadVariantIn(env: Env, admits: Policy, name: string, variant: Variant, j: Json, payload: Option<Json>,
      cells: seq<Cell>)
    : (o: Outcome<seq<Mirrored>>)
    requires Compiles(env) && ContentCompiles(env, variant.content)
    requires payload.Some? ==> payload.value < j
    decreases j, 0
  {
    var place := name + "::" + variant.ident;
    match variant.content
    case Unit =>
      Outcome(if payload.Some? && !payload.value.JNull? then Err(InvalidType(payload.value, "unit")) else Ok([]), cells)
    case Newtype(field) =>
      if payload.None? then Outcome(Err(InvalidType(j, "newtype variant")), cells) else
      var o := ReadIn(env, admits, FieldMirror(field), payload.value, cells);
      if o.result.Err? then Failed(o) else Outcome(Ok([o.result.value]), o.cells)
    case Tuple(fields) =>
      if payload.None? || !payload.value.JArray? then Outcome(Err(InvalidType(j, "tuple variant " + place)), cells) else
      var o := ReadSequenceIn(env, admits, "tuple variant " + place, fields, false, 0, payload.value.items, cells);
      if o.result.Ok? && Leftover(env, payload.value.items, |fields|)
      then Outcome(Err(TrailingElements), o.cells) else o
    case Named(fields) =>
      if payload.None? then Outcome(Err(InvalidType(j, "struct variant " + place)), cells) else
      ReadStructIn(env, admits, "struct variant " + place, fields, payload.value, cells)
  }

  function ReadStructIn(env: Env, admits: Policy, expecting: string, fields: seq<Field>, j: Json, cells: seq<Cell>)
    : (o: Outcome<seq<Mirrored>>)
    requires Compiles(env) && AllCompile(env, fields)
    decreases j, 0
  {
    match j
    case JObject(entries) =>
      var o := ReadEntriesIn(env, admits, fields, entries, EmptySlots(|fields|), cells);
      if o.result.Err? then Failed(o) else Outcome(FinishIn(env, fields, o.result.value), o.cells)
    case JArray(items) =>
      var o := ReadSequenceIn(env, admits, expecting, fields, true, 0, items, cells);
      if o.result.Ok? && Leftover(env, items, |fields|) then Outcome(Err(TrailingElements), o.cells) else o
    case _ => Outcome(Err(InvalidType(j, expecting)), cells)
  }

  /**
   The sequence form. `defaults` says whether an absent element takes its
   default: the struct visitor honours `#[serde(default)]`, the tuple-variant
   visitor does not look at it.
   */
  function ReadSequenceIn(env: Env, admits: Policy, expecting: string, fields: seq<Field>, defaults: bool, at: nat,
                          items: seq<Json>, cells: seq<Cell>): (o: Outcome<seq<Mirrored>>)
    requires Compiles(env) && AllCompile(env, fields) && at <= |fields|
    decreases items, |fields| - at
  {
    if at == |fields| then Outcome(Ok([]), cells)
    else if items == [] then
      if !(defaults && fields[at].default) then Outcome(Err(InvalidLength(at, expecting, |fields|)), cells) else
      var tail := ReadSequenceIn(env, admits, expecting, fields, defaults, at + 1, items, cells);
      if tail.result.Err? then tail
      else Outcome(Ok([MirrorDefault(env, FieldMirror(fields[at]))] + tail.result.value), tail.cells)
    else
      var head := ReadIn(env, admits, FieldMirror(fields[at]), items[0], cells);
      if head.result.Err? then Failed(head) else
      var tail := ReadSequenceIn(env, admits, expecting, fields, defaults, at + 1, items[1..], head.cells);
      if tail.result.Err? then tail
      else Outcome(Ok([head.result.value] + tail.result.value), tail.cells)
  }

  function ReadEntriesIn(env: Env, admits: Policy, fields: seq<Field>, entries: seq<Entry>,
      slots: seq<Option<Mirrored>>, cells: seq<Cell>): (o: Outcome<seq<Option<Mirrored>>>)
    requires Compiles(env) && AllCompile(env, fields) && |slots| == |fields|
    ensures o.result.Ok? ==> |o.result.value| == |fields|
    decreases entries, 3
  {
    if entries == [] then Outcome(Ok(slots), cells) else
    var i := FieldIndex(fields, entries[0].key);
    if i == |fields| then ReadEntriesIn(env, admits, fields, entries[1..], slots, cells)
    else if slots[i].Some? then Outcome(Err(DuplicateField(fields[i].name)), cells)
    else
      var o := ReadIn(env, admits, FieldMirror(fields[i]), entries[0].value, cells);
      if o.result.Err? then Failed(o)
      else ReadEntriesIn(env, admits, fields, entries[1..], slots[i := Some(o.result.value)], o.cells)
  }

  /** A field's value after the loop; an absent option is recognised by its type's outermost name. */
  function FieldValueIn(env: Env, field: Field, slot: Option<Mirrored>): (r: Read<Mirrored>)
    requires FieldCompiles(env, field)
  {
    if slot.Some? then Ok(slot.value)
    else if field.default then Ok(MirrorDefault(env, FieldMirror(field)))
    else if IsOption(field.ty) then Ok(if field.mode == Owned then MKept(VNone) else MNone)
    else Err(MissingField(field.name))
  }

  function FinishIn(env: Env, fields: seq<Field>, slots: seq<Option<Mirrored>>): (r: Read<seq<Mirrored>>)
    requires AllCompile(env, fields) && |slots| == |fields|
    decreases |fields|
  {
    if fields == [] then Ok([]) else
    var m :- FieldValueIn(env, fields[0], slots[0]);
    var ms :- FinishIn(env, fields[1..], slots[1..]);
    Ok([m] + ms)
  }
}
