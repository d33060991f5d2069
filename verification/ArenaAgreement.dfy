/**
 The arena readers against what they read: every generated reader gives a mirror
 of the value `ReadMirror` gives or the same error, whatever the arena held
 before, and no later allocation changes what a mirror converts to.
 */
module ArenaAgreement {
  import opened Wrappers
  import opened Schema
  import opened OwnedReader
  import opened MirrorReader
  import opened SortedEntries
  import opened ArenaReader

  // ---------------------------------------------------------------------
  // Mirrors survive later allocations

  /** Growing the arena keeps every mirror valid and its owned value unchanged. */
  lemma {:induction false} MirrorsSurviveAllocation(cells: seq<Cell>, bound: nat, more: seq<Cell>, above: nat,
      m: Mirrored)
    requires Closed(cells, bound, m) && cells <= more && bound <= above <= |more|
    ensures Closed(more, above, m) && IntoOwned(more, above, m) == IntoOwned(cells, bound, m)
    decreases bound, m
  {
    match m
    case MRef(at) => MirrorsSurviveAllocation(cells, at, more, at, cells[at].value);
    case MSlice(at) => AllSurviveAllocation(cells, at, more, at, cells[at].values);
    case MMap(at) => EntriesSurviveAllocation(cells, at, more, at, cells[at].entries);
    case MSome(inner) => MirrorsSurviveAllocation(cells, bound, more, above, inner);
    case MPair(first, second) =>
      MirrorsSurviveAllocation(cells, bound, more, above, first);
      MirrorsSurviveAllocation(cells, bound, more, above, second);
    case MStruct(fields) => AllSurviveAllocation(cells, bound, more, above, fields);
    case MVariant(_, fields) => AllSurviveAllocation(cells, bound, more, above, fields);
    case _ =>
  }

  lemma {:induction false} AllSurviveAllocation(cells: seq<Cell>, bound: nat, more: seq<Cell>, above: nat,
      ms: seq<Mirrored>)
    requires AllClosed(cells, bound, ms) && cells <= more && bound <= above <= |more|
    ensures AllClosed(more, above, ms) && AllOwned(more, above, ms) == AllOwned(cells, bound, ms)
    decreases bound, ms
  {
    if ms != [] {
      MirrorsSurviveAllocation(cells, bound, more, above, ms[0]);
      AllSurviveAllocation(cells, bound, more, above, ms[1..]);
      assert ms == [ms[0]] + ms[1..];
    }
  }

  lemma {:induction false} EntriesSurviveAllocation(cells: seq<Cell>, bound: nat, more: seq<Cell>, above: nat,
      es: seq<MapEntry>)
    requires AllEntriesClosed(cells, bound, es) && cells <= more && bound <= above <= |more|
    ensures AllEntriesClosed(more, above, es) && OwnedEntries(more, above, es) == OwnedEntries(cells, bound, es)
    decreases bound, es
  {
    if es != [] {
      EntrySurvivesAllocation(cells, bound, more, above, es[0]);
      EntriesSurviveAllocation(cells, bound, more, above, es[1..]);
      assert es == [es[0]] + es[1..];
    }
  }

  lemma {:induction false} EntrySurvivesAllocation(cells: seq<Cell>, bound: nat, more: seq<Cell>, above: nat,
      e: MapEntry)
    requires ClosedEntry(cells, bound, e) && cells <= more && bound <= above <= |more|
    ensures ClosedEntry(more, above, e) && OwnedEntry(more, above, e) == OwnedEntry(cells, bound, e)
    decreases bound, e
  {
    MirrorsSurviveAllocation(cells, bound, more, above, e.value);
  }

  // ---------------------------------------------------------------------
  // Agreement of one read

  ghost predicate Unlimited(admits: Policy) {
    forall cells: seq<Cell>, cell: Cell :: admits(cells, cell)
  }

  /** An error the arena reader may report: the owned reader's, or a refused allocation. */
  ghost predicate SameError<T>(admits: Policy, e: Error, r: Read<T>) {
    r == Err(e) || (e == AllocationLimit && !Unlimited(admits))
  }

  ghost predicate Agrees(admits: Policy, before: seq<Cell>, o: Outcome<Mirrored>, r: Read<Value>) {
    before <= o.cells &&
    match o.result
    case Err(e) => SameError(admits, e, r)
    case Ok(m) => Closed(o.cells, |o.cells|, m) && r == Ok(IntoOwned(o.cells, |o.cells|, m))
  }

  ghost predicate AllAgree(admits: Policy, before: seq<Cell>, o: Outcome<seq<Mirrored>>, r: Read<seq<Value>>) {
    before <= o.cells &&
    match o.result
    case Err(e) => SameError(admits, e, r)
    case Ok(ms) => AllClosed(o.cells, |o.cells|, ms) && r == Ok(AllOwned(o.cells, |o.cells|, ms))
  }

  ghost predicate SlotAgrees(cells: seq<Cell>, m: Option<Mirrored>, v: Option<Value>) {
    match m
    case None => v == None
    case Some(w) => Closed(cells, |cells|, w) && v == Some(IntoOwned(cells, |cells|, w))
  }

  ghost predicate SlotsAgree(cells: seq<Cell>, ms: seq<Option<Mirrored>>, vs: seq<Option<Value>>) {
    |ms| == |vs| && forall i | 0 <= i < |ms| :: SlotAgrees(cells, ms[i], vs[i])
  }

  /** The mirror's default converts to the owned type's default. */
  lemma {:induction false} DefaultsAgree(env: Env, ty: Ty, mode: Mode, cells: seq<Cell>)
    requires MirrorType(ty, mode).Some? && HasDefault(env, MirrorType(ty, mode).value)
    ensures var m := MirrorDefault(env, MirrorType(ty, mode).value);
            Closed(cells, |cells|, m) && IntoOwned(cells, |cells|, m) == DefaultOf(env, ty)
  {
    if mode != Owned && ty.Pair? {
      DefaultsAgree(env, ty.first, mode, cells);
      DefaultsAgree(env, ty.second, mode, cells);
    }
  }

  // ---------------------------------------------------------------------
  // The induction over inputs

  /** Boxing what was read: one more allocation, one more level. */
  lemma BoxAgrees(admits: Policy, before: seq<Cell>, o: Outcome<Mirrored>, r: Read<Value>)
    requires Agrees(admits, before, o, r)
    ensures var b := if o.result.Err? then o else Alloc(admits, o.cells, Boxed1(o.result.value), MRef(|o.cells|));
            Agrees(admits, before, b, if r.Ok? then Ok(VBox(r.value)) else r)
  {
    if o.result.Ok? {
      var full := o.cells + [Boxed1(o.result.value)];
      MirrorsSurviveAllocation(o.cells, |o.cells|, full, |o.cells|, o.result.value);
      assert before <= full;
      assert Closed(full, |full|, MRef(|o.cells|));
    }
  }

  lemma SliceAgrees(admits: Policy, before: seq<Cell>, o: Outcome<seq<Mirrored>>, r: Read<seq<Value>>)
    requires AllAgree(admits, before, o, r) && o.result.Ok?
    ensures Agrees(admits, before, Outcome(Ok(MSlice(|o.cells|)), o.cells + [Slice(o.result.value)]), Ok(VVec(r.value)))
  {
    var full := o.cells + [Slice(o.result.value)];
    AllSurviveAllocation(o.cells, |o.cells|, full, |o.cells|, o.result.value);
    assert before <= full;
    assert Closed(full, |full|, MSlice(|o.cells|));
  }

  lemma PairAgrees(admits: Policy, before: seq<Cell>, a: Outcome<Mirrored>, b: Outcome<Mirrored>, x: Read<Value>,
      y: Read<Value>)
    requires Agrees(admits, before, a, x) && a.result.Ok? && Agrees(admits, a.cells, b, y) && b.result.Ok?
    ensures Agrees(admits, before, Outcome(Ok(MPair(a.result.value, b.result.value)), b.cells),
            Ok(VPair(x.value, y.value)))
  {
    MirrorsSurviveAllocation(a.cells, |a.cells|, b.cells, |b.cells|, a.result.value);
  }

  /** A pair against its parts, read one after the other. */
  lemma {:induction false} PairsAgree(env: Env, admits: Policy, first: MirrorTy, second: MirrorTy, items: seq<Json>,
      cells: seq<Cell>)
    requires Compiles(env) && Resolves(env, first) && Resolves(env, second)
    ensures Agrees(admits, cells, ReadPairIn(env, admits, first, second, items, cells),
            ReadMirrorPair(env, first, second, items))
    decreases items, 4
  {
    hide ReadIn, ReadMirror, Closed, IntoOwned, Compiles, Resolves, Unlimited;
    if |items| == 0 { return; }
    TypesAgree(env, admits, first, items[0], cells);
    var a, x := ReadIn(env, admits, first, items[0], cells), ReadMirror(env, first, items[0]);
    if a.result.Err? || |items| == 1 { return; }
    TypesAgree(env, admits, second, items[1], a.cells);
    var b, y := ReadIn(env, admits, second, items[1], a.cells), ReadMirror(env, second, items[1]);
    assert cells <= a.cells <= b.cells;
    if b.result.Err? || Leftover(env, items, 2) { return; }
    PairAgrees(admits, cells, a, b, x, y);
  }

  lemma {:induction false} VectorsAgree(env: Env, admits: Policy, ty: MirrorTy, items: seq<Json>, cells: seq<Cell>)
    requires Compiles(env) && Resolves(env, ty)
    ensures var r := ReadMirrorItems(env, ty, items);
            Agrees(admits, cells, ReadSliceIn(env, admits, ty, items, cells),
                   if r.Ok? then Ok(VVec(r.value)) else Err(r.error))
    decreases items, 4
  {
    hide ReadItemsIn, ReadMirrorItems, Closed, IntoOwned, Compiles, Resolves;
    var room := cells + [Reserved];
    if !admits(cells, Reserved) { return; }
    ItemsAgree(env, admits, ty, items, room);
    var o := ReadItemsIn(env, admits, ty, items, room);
    assert cells <= room <= o.cells;
    if o.result.Ok? {
      SliceAgrees(admits, cells, o, ReadMirrorItems(env, ty, items));
    }
  }

  /** The main induction, on the input and then on the type. */
  lemma {:induction false} TypesAgree(env: Env, admits: Policy, ty: MirrorTy, j: Json, cells: seq<Cell>)
    requires Compiles(env) && Resolves(env, ty)
    ensures Agrees(admits, cells, ReadIn(env, admits, ty, j, cells), ReadMirror(env, ty, j))
    decreases j, 2, ty
  {
    hide Compiles, ReadSliceIn, ReadMapIn, ReadPairIn, ReadItemIn;
    hide ReadMirrorItems, ReadMirrorMap, ReadMirrorPair, ReadMirrorItem;
    hide ReadOwned;
    match ty
    case RefTo(inner) =>
      TypesAgree(env, admits, inner, j, cells);
      BoxAgrees(admits, cells, ReadIn(env, admits, inner, j, cells), ReadMirror(env, inner, j));
    case OptionOf(inner) => if !j.JNull? { TypesAgree(env, admits, inner, j, cells); }
    case SliceOf(inner) => if j.JArray? { VectorsAgree(env, admits, inner, j.items, cells); }
    case MapOf(value) => if j.JObject? { MapsAgree(env, admits, value, j.entries, cells); }
    case PairOf(first, second) => if j.JArray? { PairsAgree(env, admits, first, second, j.items, cells); }
    case ArenaNamed(name) => NamedItemsAgree(env, admits, name, j, cells);
    case _ =>
  }

  lemma {:induction false} ItemsAgree(env: Env, admits: Policy, ty: MirrorTy, items: seq<Json>, cells: seq<Cell>)
    requires Compiles(env) && Resolves(env, ty)
    ensures AllAgree(admits, cells, ReadItemsIn(env, admits, ty, items, cells), ReadMirrorItems(env, ty, items))
    decreases items, 3
  {
    hide ReadIn, ReadMirror, Closed, IntoOwned, Compiles, Resolves;
    if items == [] { return; }
    TypesAgree(env, admits, ty, items[0], cells);
    var head := ReadIn(env, admits, ty, items[0], cells);
    if head.result.Err? || !admits(head.cells, Reserved) { return; }
    var room := head.cells + [Reserved];
    ItemsAgree(env, admits, ty, items[1..], room);
    var tail := ReadItemsIn(env, admits, ty, items[1..], room);
    MirrorsSurviveAllocation(head.cells, |head.cells|, tail.cells, |tail.cells|, head.result.value);
    if tail.result.Ok? {
      PrependAgrees(tail.cells, head.result.value, tail.result.value);
    }
  }

  lemma PrependAgrees(cells: seq<Cell>, m: Mirrored, ms: seq<Mirrored>)
    requires Closed(cells, |cells|, m) && AllClosed(cells, |cells|, ms)
    ensures AllClosed(cells, |cells|, [m] + ms)
    ensures AllOwned(cells, |cells|, [m] + ms) == [IntoOwned(cells, |cells|, m)] + AllOwned(cells, |cells|, ms)
  {
    assert ([m] + ms)[1..] == ms;
  }

  /** Entries read so far: each key text is the one its reference leads to. */
  ghost predicate Decorated(cells: seq<Cell>, ks: seq<Keyed<MapEntry>>) {
    forall i | 0 <= i < |ks| ::
      ClosedEntry(cells, |cells|, ks[i].value) && cells[ks[i].value.key].text == ks[i].key
  }

  ghost function Shown(cells: seq<Cell>, ks: seq<Keyed<MapEntry>>): (s: seq<Keyed<Value>>)
    requires Decorated(cells, ks)
  {
    if ks == [] then [] else [OwnedEntry(cells, |cells|, ks[0].value)] + Shown(cells, ks[1..])
  }

  lemma {:induction false} ShownSurvives(cells: seq<Cell>, more: seq<Cell>, ks: seq<Keyed<MapEntry>>)
    requires Decorated(cells, ks) && cells <= more
    ensures Decorated(more, ks) && Shown(more, ks) == Shown(cells, ks)
  {
    if ks != [] {
      EntrySurvivesAllocation(cells, |cells|, more, |more|, ks[0].value);
      ShownSurvives(cells, more, ks[1..]);
      assert ks == [ks[0]] + ks[1..];
    }
  }

  lemma {:induction false} ShownIsOwnedEntries(cells: seq<Cell>, ks: seq<Keyed<MapEntry>>)
    requires Decorated(cells, ks)
    ensures AllEntriesClosed(cells, |cells|, Undecorate(ks))
    ensures OwnedEntries(cells, |cells|, Undecorate(ks)) == Shown(cells, ks)
  {
    if ks != [] {
      ShownIsOwnedEntries(cells, ks[1..]);
      assert Undecorate(ks)[1..] == Undecorate(ks[1..]);
    }
  }

  /** Converting the values commutes with collecting the entries. */
  lemma {:induction false} CollectCommutes(cells: seq<Cell>, ks: seq<Keyed<MapEntry>>, raw: map<string, MapEntry>,
      owned: map<string, Value>)
    requires Decorated(cells, ks)
    requires raw.Keys == owned.Keys
    requires forall k | k in raw ::
               ClosedEntry(cells, |cells|, raw[k]) && owned[k] == OwnedEntry(cells, |cells|, raw[k]).value
    ensures var r, s := Collect(ks, raw), Collect(Shown(cells, ks), owned);
            r.Keys == s.Keys && forall k | k in r ::
              ClosedEntry(cells, |cells|, r[k]) && s[k] == OwnedEntry(cells, |cells|, r[k]).value
    decreases |ks|
  {
    if ks != [] {
      var v := OwnedEntry(cells, |cells|, ks[0].value);
      assert Shown(cells, ks)[1..] == Shown(cells, ks[1..]);
      CollectCommutes(cells, ks[1..], raw[ks[0].key := ks[0].value], owned[v.key := v.value]);
    }
  }

  lemma NormalizedMapAgrees(cells: seq<Cell>, ks: seq<Keyed<MapEntry>>)
    requires Decorated(cells, ks)
    ensures Decorated(cells, Normalize(ks))
    ensures Collect(Shown(cells, Normalize(ks)), map[]) == Collect(Shown(cells, ks), map[])
  {
    forall i | 0 <= i < |Normalize(ks)|
      ensures Normalize(ks)[i] in ks
    {
    }
    NormalizeIsTheBTreeMap(ks);
    CollectCommutes(cells, ks, map[], map[]);
    CollectCommutes(cells, Normalize(ks), map[], map[]);
  }

  lemma PrependEntry(cells: seq<Cell>, key: string, e: MapEntry, ks: seq<Keyed<MapEntry>>)
    requires ClosedEntry(cells, |cells|, e) && cells[e.key].text == key && Decorated(cells, ks)
    ensures Decorated(cells, [Keyed(key, e)] + ks)
    ensures Shown(cells, [Keyed(key, e)] + ks) == [OwnedEntry(cells, |cells|, e)] + Shown(cells, ks)
  {
    var all := [Keyed(key, e)] + ks;
    assert all[1..] == ks;
    forall i | 0 <= i < |all|
      ensures ClosedEntry(cells, |cells|, all[i].value) && cells[all[i].value.key].text == all[i].key
    {
      assert i > 0 ==> all[i] == ks[i - 1];
    }
  }

  /** The arena map reader against `BTreeMap` insertion, entry by entry. */
  ghost predicate MapAgrees(admits: Policy, before: seq<Cell>, o: Outcome<seq<Keyed<MapEntry>>>,
      seen: map<string, Value>, r: Read<map<string, Value>>)
  {
    before <= o.cells &&
    match o.result
    case Err(e) => SameError(admits, e, r)
    case Ok(ks) => Decorated(o.cells, ks) && r == Ok(Collect(Shown(o.cells, ks), seen))
  }

  lemma MapStepAgrees(admits: Policy, cells: seq<Cell>, key: string, head: Outcome<Mirrored>,
      tail: Outcome<seq<Keyed<MapEntry>>>, v: Value, seen: map<string, Value>, r: Read<map<string, Value>>)
    requires Agrees(admits, cells + [Text(key)], head, Ok(v)) && head.result.Ok?
    requires MapAgrees(admits, head.cells + [Reserved], tail, seen[key := v], r) && tail.result.Ok?
    ensures MapAgrees(admits, cells,
            Outcome(Ok([Keyed(key, MapEntry(|cells|, head.result.value))] + tail.result.value), tail.cells), seen, r)
  {
    var keyed, room := cells + [Text(key)], head.cells + [Reserved];
    assert cells <= keyed <= head.cells <= room <= tail.cells;
    assert keyed[|cells|] == head.cells[|cells|] == room[|cells|] == tail.cells[|cells|];
    MirrorsSurviveAllocation(head.cells, |head.cells|, tail.cells, |tail.cells|, head.result.value);
    var e := MapEntry(|cells|, head.result.value);
    PrependEntry(tail.cells, key, e, tail.result.value);
    var shown := [OwnedEntry(tail.cells, |tail.cells|, e)] + Shown(tail.cells, tail.result.value);
    assert shown[1..] == Shown(tail.cells, tail.result.value);
  }

  lemma {:induction false} EntriesReadAgree(env: Env, admits: Policy, ty: MirrorTy, entries: seq<Entry>,
      cells: seq<Cell>, seen: map<string, Value>)
    requires Compiles(env) && Resolves(env, ty)
    ensures MapAgrees(admits, cells, ReadKeysIn(env, admits, ty, entries, cells), seen,
            ReadMirrorMap(env, ty, entries, seen))
    decreases entries, 3
  {
    hide ReadIn, ReadMirror, Closed, IntoOwned, Compiles, Resolves;
    if entries == [] { return; }
    var key, keyed := entries[0].key, cells + [Text(entries[0].key)];
    if !admits(cells, Text(key)) { return; }
    TypesAgree(env, admits, ty, entries[0].value, keyed);
    var head := ReadIn(env, admits, ty, entries[0].value, keyed);
    assert cells <= keyed <= head.cells;
    if head.result.Err? || !admits(head.cells, Reserved) { return; }
    var v := IntoOwned(head.cells, |head.cells|, head.result.value);
    var room := head.cells + [Reserved];
    EntriesReadAgree(env, admits, ty, entries[1..], room, seen[key := v]);
    var tail := ReadKeysIn(env, admits, ty, entries[1..], room);
    assert cells <= room <= tail.cells;
    if tail.result.Ok? {
      MapStepAgrees(admits, cells, key, head, tail, v, seen, ReadMirrorMap(env, ty, entries, seen));
    }
  }

  lemma MapsAgree(env: Env, admits: Policy, ty: MirrorTy, entries: seq<Entry>, cells: seq<Cell>)
    requires Compiles(env) && Resolves(env, ty)
    ensures var r := ReadMirrorMap(env, ty, entries, map[]);
            Agrees(admits, cells, ReadMapIn(env, admits, ty, entries, cells),
                   if r.Ok? then Ok(VMap(r.value)) else Err(r.error))
    decreases entries, 4
  {
    hide ReadKeysIn, ReadMirrorMap, Compiles, Resolves, Normalize, Collect, Unlimited, Decorated, Shown;
    EntriesReadAgree(env, admits, ty, entries, cells, map[]);
    var o := ReadKeysIn(env, admits, ty, entries, cells);
    if o.result.Ok? {
      var ks := Normalize(o.result.value);
      NormalizedMapAgrees(o.cells, o.result.value);
      ShownIsOwnedEntries(o.cells, ks);
      var full := o.cells + [Entries(Undecorate(ks))];
      EntriesSurviveAllocation(o.cells, |o.cells|, full, |o.cells|, Undecorate(ks));
    }
  }

  /** An enum of unit variants reads as its owned type. */
  lemma LeafReadsOwned(env: Env, name: string, j: Json)
    requires Compiles(env) && name in env.items && IsLeaf(env.items[name])
    ensures ReadMirrorItem(env, name, j) == ReadItem(env, name, env.items[name], j)
  {
  }

  lemma StructWraps(admits: Policy, before: seq<Cell>, o: Outcome<seq<Mirrored>>, r: Read<seq<Value>>)
    requires AllAgree(admits, before, o, r)
    ensures Agrees(admits, before, if o.result.Err? then Failed(o) else Outcome(Ok(MStruct(o.result.value)), o.cells),
                   if r.Err? then Err(r.error) else Ok(VStruct(r.value)))
  {
  }

  lemma VariantWraps(admits: Policy, before: seq<Cell>, k: nat, o: Outcome<seq<Mirrored>>, r: Read<seq<Value>>)
    requires AllAgree(admits, before, o, r)
    ensures Agrees(admits, before,
                   if o.result.Err? then Failed(o) else Outcome(Ok(MVariant(k, o.result.value)), o.cells),
                   if r.Err? then Err(r.error) else Ok(VVariant(k, r.value)))
  {
  }

  /** The check of a mirror says what the check of its owned value says. */
  lemma CheckAgrees(env: Env, name: string, admits: Policy, before: seq<Cell>, o: Outcome<Mirrored>, r: Read<Value>)
    requires Agrees(admits, before, o, r) && o.result.Ok?
    ensures Agrees(admits, before, Outcome(CheckedIn(env, name, o.cells, o.result.value), o.cells),
            Checked(env, name, r.value))
  {
    hide Closed, IntoOwned;
  }

  lemma {:induction false} NamedItemsAgree(env: Env, admits: Policy, name: string, j: Json, cells: seq<Cell>)
    requires Compiles(env) && name in env.items
    ensures Agrees(admits, cells, ReadItemIn(env, admits, name, j, cells), ReadMirrorItem(env, name, j))
    decreases j, 1
  {
    hide Compiles, ReadStructIn, ReadMirrorStruct, ReadVariantIn, ReadMirrorVariant, AllCompile, ContentCompiles;
    hide CheckedIn, Checked, AllAgree, Closed, IntoOwned;
    CompiledItem(env, name);
    if IsLeaf(env.items[name]) {
      LeafReadsOwned(env, name, j);
      LeafAgrees(admits, cells, ReadMirrorItem(env, name, j));
      return;
    }
    match env.items[name]
    case Struct(fields) =>
      StructsAgree(env, admits, "struct " + name, fields, j, cells);
      StructWraps(admits, cells, ReadStructIn(env, admits, "struct " + name, fields, j, cells),
                  ReadMirrorStruct(env, "struct " + name, fields, j));
    case Validated(raw, fields) => ValidatedAgrees(env, admits, name, raw, fields, j, cells);
    case Enum(variants) =>
      var split := SplitTag(name, j);
      if split.Err? { return; }
      var k := VariantIndex(variants, split.value.0);
      if k < |variants| {
        VariantsAgree(env, admits, name, variants[k], j, split.value.1, cells);
        VariantWraps(admits, cells, k, ReadVariantIn(env, admits, name, variants[k], j, split.value.1, cells),
                     ReadMirrorVariant(env, name, variants[k], j, split.value.1));
      }
  }

  lemma LeafAgrees(admits: Policy, cells: seq<Cell>, r: Read<Value>)
    ensures Agrees(admits, cells, Outcome(if r.Ok? then Ok(MKept(r.value)) else Err(r.error), cells), r)
  {
  }

  lemma {:induction false} ValidatedAgrees(env: Env, admits: Policy, name: string, raw: string, fields: seq<Field>,
      j: Json, cells: seq<Cell>)
    requires Compiles(env) && AllCompile(env, fields)
    ensures var o := ReadStructIn(env, admits, "struct " + raw, fields, j, cells);
            var r := ReadMirrorStruct(env, "struct " + raw, fields, j);
            Agrees(admits, cells,
                   if o.result.Err? then Failed(o)
                   else Outcome(CheckedIn(env, name, o.cells, MStruct(o.result.value)), o.cells),
                   if r.Err? then Err(r.error) else Checked(env, name, VStruct(r.value)))
    decreases j, 0, 1
  {
    hide Compiles, ReadStructIn, ReadMirrorStruct, CheckedIn, Checked, AllAgree, Closed, IntoOwned;
    StructsAgree(env, admits, "struct " + raw, fields, j, cells);
    var o := ReadStructIn(env, admits, "struct " + raw, fields, j, cells);
    var r := ReadMirrorStruct(env, "struct " + raw, fields, j);
    StructWraps(admits, cells, o, r);
    if o.result.Ok? {
      CheckAgrees(env, name, admits, cells, Outcome(Ok(MStruct(o.result.value)), o.cells), Ok(VStruct(r.value)));
    }
  }

  lemma {:induction false} VariantsAgree(env: Env, admits: Policy, name: string, variant: Variant, j: Json,
      payload: Option<Json>, cells: seq<Cell>)
    requires Compiles(env) && ContentCompiles(env, variant.content)
    requires payload.Some? ==> payload.value < j
    ensures AllAgree(admits, cells, ReadVariantIn(env, admits, name, variant, j, payload, cells),
                     ReadMirrorVariant(env, name, variant, j, payload))
    decreases j, 0, 1
  {
    hide Compiles, ReadIn, ReadMirror, ReadSequenceIn, ReadMirrorSequence;
    hide ReadStructIn, ReadMirrorStruct, AllCompile, MirrorType;
    var place := name + "::" + variant.ident;
    match variant.content
    case Unit =>
    case Newtype(field) =>
      if payload.Some? {
        TypesAgree(env, admits, FieldMirror(field), payload.value, cells);
        var o := ReadIn(env, admits, FieldMirror(field), payload.value, cells);
        if o.result.Ok? {
          PrependAgrees(o.cells, o.result.value, []);
          var v := IntoOwned(o.cells, |o.cells|, o.result.value);
          assert [o.result.value] == [o.result.value] + [] && [v] == [v] + [];
        }
      }
    case Tuple(fields) =>
      if payload.Some? && payload.value.JArray? {
        SequencesAgree(env, admits, "tuple variant " + place, fields, false, 0, payload.value.items, cells);
      }
    case Named(fields) =>
      if payload.Some? {
        StructsAgree(env, admits, "struct variant " + place, fields, payload.value, cells);
      }
  }

  lemma {:induction false} StructsAgree(env: Env, admits: Policy, expecting: string, fields: seq<Field>, j: Json,
      cells: seq<Cell>)
    requires Compiles(env) && AllCompile(env, fields)
    ensures AllAgree(admits, cells, ReadStructIn(env, admits, expecting, fields, j, cells),
            ReadMirrorStruct(env, expecting, fields, j))
    decreases j, 0, 0
  {
    hide Compiles, AllCompile, ReadEntriesIn, ReadMirrorEntries;
    hide ReadSequenceIn, ReadMirrorSequence, FinishIn, FinishMirror;
    match j
    case JObject(entries) =>
      EntriesAgree(env, admits, fields, entries, EmptySlots(|fields|), EmptySlots(|fields|), cells);
      var o := ReadEntriesIn(env, admits, fields, entries, EmptySlots(|fields|), cells);
      if o.result.Ok? {
        var r := ReadMirrorEntries(env, fields, entries, EmptySlots(|fields|));
        FinishesAgree(env, fields, o.result.value, r.value, o.cells);
      }
    case JArray(items) => SequencesAgree(env, admits, expecting, fields, true, 0, items, cells);
    case _ =>
  }

  lemma {:induction false} SequencesAgree(env: Env, admits: Policy, expecting: string, fields: seq<Field>,
      defaults: bool, at: nat, items: seq<Json>, cells: seq<Cell>)
    requires Compiles(env) && AllCompile(env, fields) && at <= |fields|
    ensures AllAgree(admits, cells, ReadSequenceIn(env, admits, expecting, fields, defaults, at, items, cells),
                     ReadMirrorSequence(env, expecting, fields, defaults, at, items))
    decreases items, |fields| - at
  {
    hide Compiles, ReadIn, ReadMirror, Closed, IntoOwned, MirrorType, MirrorDefault, DefaultOf;
    if at == |fields| { return; }
    var f := fields[at];
    if items == [] {
      if !(defaults && f.default) { return; }
      SequencesAgree(env, admits, expecting, fields, defaults, at + 1, items, cells);
      var tail := ReadSequenceIn(env, admits, expecting, fields, defaults, at + 1, items, cells);
      if tail.result.Ok? {
        DefaultsAgree(env, f.ty, f.mode, tail.cells);
        PrependAgrees(tail.cells, MirrorDefault(env, FieldMirror(f)), tail.result.value);
      }
      return;
    }
    TypesAgree(env, admits, FieldMirror(f), items[0], cells);
    var head := ReadIn(env, admits, FieldMirror(f), items[0], cells);
    if head.result.Err? { return; }
    SequencesAgree(env, admits, expecting, fields, defaults, at + 1, items[1..], head.cells);
    var tail := ReadSequenceIn(env, admits, expecting, fields, defaults, at + 1, items[1..], head.cells);
    if tail.result.Ok? {
      MirrorsSurviveAllocation(head.cells, |head.cells|, tail.cells, |tail.cells|, head.result.value);
      PrependAgrees(tail.cells, head.result.value, tail.result.value);
    }
  }

  ghost predicate ScanAgrees(admits: Policy, before: seq<Cell>, o: Outcome<seq<Option<Mirrored>>>,
      r: Read<seq<Option<Value>>>) {
    before <= o.cells &&
    match o.result
    case Err(e) => SameError(admits, e, r)
    case Ok(slots) => r.Ok? && SlotsAgree(o.cells, slots, r.value)
  }

  lemma {:induction false} EntriesAgree(env: Env, admits: Policy, fields: seq<Field>, entries: seq<Entry>,
      ms: seq<Option<Mirrored>>, vs: seq<Option<Value>>, cells: seq<Cell>)
    requires Compiles(env) && AllCompile(env, fields) && |ms| == |fields| && SlotsAgree(cells, ms, vs)
    ensures ScanAgrees(admits, cells, ReadEntriesIn(env, admits, fields, entries, ms, cells),
            ReadMirrorEntries(env, fields, entries, vs))
    decreases entries, 3
  {
    hide Compiles, ReadIn, ReadMirror, Closed, IntoOwned, MirrorType;
    if entries == [] { return; }
    var i := FieldIndex(fields, entries[0].key);
    if i == |fields| {
      EntriesAgree(env, admits, fields, entries[1..], ms, vs, cells);
      return;
    }
    assert SlotAgrees(cells, ms[i], vs[i]);
    if ms[i].Some? { return; }
    TypesAgree(env, admits, FieldMirror(fields[i]), entries[0].value, cells);
    var o := ReadIn(env, admits, FieldMirror(fields[i]), entries[0].value, cells);
    if o.result.Ok? {
      var v := IntoOwned(o.cells, |o.cells|, o.result.value);
      SlotsSurvive(cells, o.cells, ms, vs);
      EntriesAgree(env, admits, fields, entries[1..], ms[i := Some(o.result.value)], vs[i := Some(v)], o.cells);
    }
  }

  lemma SlotsSurvive(cells: seq<Cell>, more: seq<Cell>, ms: seq<Option<Mirrored>>, vs: seq<Option<Value>>)
    requires SlotsAgree(cells, ms, vs) && cells <= more
    ensures SlotsAgree(more, ms, vs)
  {
    forall i | 0 <= i < |ms|
      ensures SlotAgrees(more, ms[i], vs[i])
    {
      assert SlotAgrees(cells, ms[i], vs[i]);
      if ms[i].Some? {
        MirrorsSurviveAllocation(cells, |cells|, more, |more|, ms[i].value);
      }
    }
  }

  lemma {:induction false} FinishesAgree(env: Env, fields: seq<Field>, ms: seq<Option<Mirrored>>,
      vs: seq<Option<Value>>, cells: seq<Cell>)
    requires AllCompile(env, fields) && |ms| == |fields| && SlotsAgree(cells, ms, vs)
    ensures match FinishIn(env, fields, ms)
            case Err(e) => FinishMirror(env, fields, vs) == Err(e)
            case Ok(ws) =>
              AllClosed(cells, |cells|, ws) && FinishMirror(env, fields, vs) == Ok(AllOwned(cells, |cells|, ws))
    decreases |fields|
  {
    hide FieldValueIn, MirrorFieldValue, Closed, IntoOwned, MirrorType;
    if fields != [] {
      assert SlotAgrees(cells, ms[0], vs[0]);
      FieldValuesAgree(env, fields[0], ms[0], vs[0], cells);
      FinishesAgree(env, fields[1..], ms[1..], vs[1..], cells);
      var r := FinishIn(env, fields, ms);
      if r.Ok? {
        PrependAgrees(cells, FieldValueIn(env, fields[0], ms[0]).value, FinishIn(env, fields[1..], ms[1..]).value);
      }
    }
  }

  lemma FieldValuesAgree(env: Env, field: Field, m: Option<Mirrored>, v: Option<Value>, cells: seq<Cell>)
    requires FieldCompiles(env, field) && SlotAgrees(cells, m, v)
    ensures match FieldValueIn(env, field, m)
            case Err(e) => MirrorFieldValue(env, field, v) == Err(e)
            case Ok(w) =>
              Closed(cells, |cells|, w) && MirrorFieldValue(env, field, v) == Ok(IntoOwned(cells, |cells|, w))
  {
    if m.None? && field.default {
      DefaultsAgree(env, field.ty, field.mode, cells);
    }
  }
}
