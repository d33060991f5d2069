/**
 The contract of the generated arena readers against serde's owned readers: one
 value or one error on every input without a gap, the exact condition at each
 item, and inputs on which the two differ.
 */
module ArenaContract {
  import opened Wrappers
  import opened Schema
  import opened OwnedReader
  import opened MirrorReader
  import opened ArenaReader
  import opened ArenaAgreement
  import opened ArenaGaps
  import opened WireForm

  /** What the arena reader of an item says, in the arena `more` after any later allocations. */
  ghost predicate Contract(env: Env, admits: Policy, name: string, j: Json, cells: seq<Cell>, more: seq<Cell>)
    requires Compiles(env) && name in env.items
  {
    match ReadItemIn(env, admits, name, j, cells).result
    case Ok(m) => Closed(more, |more|, m) && ReadOwned(env, Path(name), j) == Ok(IntoOwned(more, |more|, m))
    case Err(e) => ReadOwned(env, Path(name), j) == Err(e) || (e == AllocationLimit && !Unlimited(admits))
  }

  /**
   For every schema that compiles, every input that shows no gap and every
   allocation policy: the arena reader accepts what the owned reader accepts and
   reports the same errors, converting back gives the owned value, and later
   allocations change nothing.
   */
  lemma ArenaReaderContract(env: Env, admits: Policy, name: string, j: Json, cells: seq<Cell>, more: seq<Cell>)
    requires Compiles(env) && name in env.items && ClearItem(env, name, j)
    requires ReadItemIn(env, admits, name, j, cells).cells <= more
    ensures Contract(env, admits, name, j, cells, more)
  {
    hide Compiles, ReadItemIn, ReadMirrorItem, ReadItem, ClearItem, Closed, IntoOwned;
    NamedItemsAgree(env, admits, name, j, cells);
    ClearItemReadsTheSame(env, name, j);
    var o := ReadItemIn(env, admits, name, j, cells);
    if o.result.Ok? {
      MirrorsSurviveAllocation(o.cells, |o.cells|, more, |more|, o.result.value);
    }
  }

  /** On an honoured schema the contract holds on every input. */
  lemma HonouredContract(env: Env, admits: Policy, name: string, j: Json, cells: seq<Cell>, more: seq<Cell>)
    requires Compiles(env) && Honoured(env) && name in env.items
    requires ReadItemIn(env, admits, name, j, cells).cells <= more
    ensures Contract(env, admits, name, j, cells, more)
  {
    HonouredItemIsClear(env, name, j);
    ArenaReaderContract(env, admits, name, j, cells, more);
  }

  /**
   The exact condition: where the nested values read the same and no allocation
   is refused, the readers of an item agree exactly when the input shows no gap
   at it.
   */
  lemma ReadersAgreeIff(env: Env, admits: Policy, name: string, j: Json, cells: seq<Cell>)
    requires Compiles(env) && name in env.items && Unlimited(admits)
    requires PartsAgree(env, Parts(name, env.items[name], j))
    ensures Agrees(admits, cells, ReadItemIn(env, admits, name, j, cells), ReadOwned(env, Path(name), j))
       <==> !GapAt(env, name, env.items[name], j)
  {
    hide Compiles, ReadItemIn, ReadMirrorItem, ReadItem, PartsAgree, Parts, GapAt, Closed, IntoOwned, Unlimited;
    NamedItemsAgree(env, admits, name, j, cells);
    ItemAgreesIff(env, name, j);
  }

  // ---------------------------------------------------------------------
  // What the arena reader accepts

  /** What came out of the arena reader stands for this owned value. */
  ghost predicate Yields(o: Outcome<Mirrored>, v: Value) {
    && o.result.Ok? && Closed(o.cells, |o.cells|, o.result.value)
    && IntoOwned(o.cells, |o.cells|, o.result.value) == v
  }

  /**
   For every schema that compiles and every input that shows no gap: the arena
   reader yields a value exactly when the input stands for it on the wire.
   */
  lemma ArenaReadsTheWire(env: Env, admits: Policy, name: string, j: Json, cells: seq<Cell>, v: Value)
    requires Compiles(env) && name in env.items && ClearItem(env, name, j) && Unlimited(admits)
    ensures Yields(ReadItemIn(env, admits, name, j, cells), v) <==> Denotes(env, Path(name), j, v)
  {
    hide Compiles, ReadItemIn, ClearItem, Closed, IntoOwned, ReadOwned, Denotes, Unlimited;
    ArenaReaderContract(env, admits, name, j, cells, ReadItemIn(env, admits, name, j, cells).cells);
    Reads(env, Path(name), j, v);
  }

  /**
   A validated item in the arena: no mirror is made of a value its check refuses,
   and where the raw fields read, the check's message is the error.
   */
  lemma ArenaChecksAreMade(env: Env, admits: Policy, name: string, j: Json, cells: seq<Cell>)
    requires Compiles(env) && name in env.items && env.items[name].Validated?
    ensures var o := ReadItemIn(env, admits, name, j, cells);
            o.result.Ok? ==>
              && Closed(o.cells, |o.cells|, o.result.value)
              && env.verdict(name, IntoOwned(o.cells, |o.cells|, o.result.value)) == None
    ensures var item := env.items[name];
            && DistinctNames(item.fields) && AllCompile(env, item.fields)
            && var raw := ReadMirrorStruct(env, "struct " + item.raw, item.fields, j);
            raw.Ok? && env.verdict(name, VStruct(raw.value)).Some? && Unlimited(admits) ==>
              ReadItemIn(env, admits, name, j, cells).result
              == Err(Foreign(env.verdict(name, VStruct(raw.value)).value))
  {
    hide Compiles, ReadItemIn, ReadMirrorStruct, AllCompile, DistinctNames, Closed, IntoOwned, Unlimited;
    CompiledItem(env, name);
    NamedItemsAgree(env, admits, name, j, cells);
  }

  // ---------------------------------------------------------------------
  // Inputs on which they differ

  const NEXT := Field("next", Boxed(Opt(Str)), false, Mirror)

  lemma HolderCompiles(env: Env)
    requires env.items == map["Holder" := Struct([NEXT])]
    ensures Compiles(env)
  {
    assert MirrorType(Opt(Str), Mirror) == Some(OptionOf(StrRef));
    assert FieldCompiles(env, NEXT);
    assert ItemCompiles(env, Struct([NEXT]));
    assert forall name | name in env.items :: env.items[name] == Struct([NEXT]);
  }

  /** A boxed option that is absent: serde reads it as none, the mirror reports it missing. Supplied, they agree. */
  lemma BoxedOptionDiffers(env: Env, admits: Policy, text: string)
    requires env.items == map["Holder" := Struct([NEXT])]
    ensures Compiles(env)
    ensures ReadOwned(env, Path("Holder"), JObject([])) == Ok(VStruct([VBox(VNone)]))
    ensures ReadItemIn(env, admits, "Holder", JObject([]), []).result == Err(MissingField("next"))
    ensures ClearItem(env, "Holder", JObject([Entry("next", JString(text))]))
  {
    HolderCompiles(env);
    CompiledItem(env, "Holder");
    assert MissingOf(env, NEXT.ty) == Some(VBox(VNone)) by { assert MissingOf(env, Opt(Str)) == Some(VNone); }
    var slots: seq<Option<Value>> := EmptySlots(1);
    assert Finish(env, [NEXT][1..], slots[1..]) == Ok([]);
    assert [VBox(VNone)] + [] == [VBox(VNone)];
    var empty: seq<Option<Mirrored>> := EmptySlots(1);
    assert FinishIn(env, [NEXT], empty) == Err(MissingField("next"));
    SuppliedIsClear(env, text);
  }

  lemma SuppliedIsClear(env: Env, text: string)
    requires env.items == map["Holder" := Struct([NEXT])]
    ensures ClearItem(env, "Holder", JObject([Entry("next", JString(text))]))
  {
    var fields, entries := [NEXT], [Entry("next", JString(text))];
    assert FieldIndex(fields, "next") == 0;
    assert entries[1..] == [];
    var slots: seq<Option<Value>> := EmptySlots(1);
    var v := VBox(VSome(VString(text)));
    assert ReadOwned(env, Opt(Str), JString(text)) == Ok(VSome(VString(text)));
    assert ReadOwned(env, NEXT.ty, JString(text)) == Ok(v);
    assert ReadEntries(env, fields, [], slots[0 := Some(v)]) == Ok(slots[0 := Some(v)]);
    assert ReadEntries(env, fields, entries, slots) == Ok(slots[0 := Some(v)]);
    assert FirstRefused(fields[1..], (slots[0 := Some(v)])[1..]) == 0;
    assert !MapGap(env, fields, entries);
    assert Clear(env, Str, Mirror, JString(text));
    assert Clear(env, Opt(Str), Mirror, JString(text));
    assert EntryParts(fields, entries) == [Part(NEXT, JString(text))] by { assert EntryParts(fields, []) == []; }
  }

  const DEFAULTED := [Field("", Str, true, Mirror), Field("", Vector(Str), true, Mirror)]

  const PAIR := Enum([Variant("V", "v", Tuple(DEFAULTED))])

  lemma DefaultedCompiles(env: Env)
    requires env.items == map["E" := PAIR]
    ensures Compiles(env)
  {
    assert MirrorType(Str, Mirror) == Some(StrRef);
    assert FieldCompiles(env, DEFAULTED[0]) && FieldCompiles(env, DEFAULTED[1]);
    assert AllCompile(env, DEFAULTED);
    assert ItemCompiles(env, PAIR);
    assert forall name | name in env.items :: env.items[name] == PAIR;
  }

  /** A tuple variant whose two fields have defaults, given no elements: serde fills them in, the mirror refuses. */
  lemma DefaultedTupleDiffers(env: Env, admits: Policy)
    requires env.items == map["E" := PAIR]
    ensures Compiles(env)
    ensures var j := JObject([Entry("v", JArray([]))]);
            && ReadOwned(env, Path("E"), j) == Ok(VVariant(0, [VString(""), VVec([])]))
            && ReadItemIn(env, admits, "E", j, []).result == Err(InvalidLength(0, "tuple variant E::V", 2))
  {
    DefaultedCompiles(env);
    var place := "tuple variant " + ("E" + "::" + "V");
    assert place == "tuple variant E::V";
    assert ReadSequence(env, place, DEFAULTED, 2, []) == Ok([]);
    assert ReadSequence(env, place, DEFAULTED, 1, []) == Ok([VVec([])] + []);
    assert [VString("")] + ([VVec([])] + []) == [VString(""), VVec([])];
    assert VariantIndex(PAIR.variants, "v") == 0;
  }
}
