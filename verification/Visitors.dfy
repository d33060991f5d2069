/**
 The visitors that loop: the generated `visit_map` of a struct and the slice
 visitor, both allocating in a shared bump arena, proved against the readers.
 */
module Visitors {
  import opened Wrappers
  import opened Schema
  import opened OwnedReader
  import opened MirrorReader
  import opened ArenaReader
  import opened ArenaAgreement

  /** A bump arena under an allocation policy. */
  class Bump {
    var cells: seq<Cell>
    const admits: Policy

    constructor (admits: Policy)
      ensures this.cells == [] && this.admits == admits
    {
      this.cells := [];
      this.admits := admits;
    }

    /** The owned value of a mirror that lives in this arena. */
    ghost function Shows(m: Mirrored): (v: Option<Value>)
      reads this
    {
      if Closed(cells, |cells|, m) then Some(IntoOwned(cells, |cells|, m)) else None
    }

    /**
     `try_alloc`: a reference that leads to the new cell and that no mirror
     given out before holds, or nothing when the allocation is refused. Every
     mirror given out before keeps its owned value.
     */
    method TryAlloc(cell: Cell) returns (at: Option<nat>)
      modifies this
      ensures at.Some? <==> old(admits(cells, cell))
      ensures at.Some? ==> at == Some(|old(cells)|) && cells == old(cells) + [cell] && old(Shows(MRef(at.value)).None?)
      ensures at.None? ==> cells == old(cells)
      ensures forall m: Mirrored | old(Shows(m)).Some? :: Shows(m) == old(Shows(m))
    {
      if !admits(cells, cell) {
        return None;
      }
      forall m: Mirrored | Closed(cells, |cells|, m)
        ensures Closed(cells + [cell], |cells| + 1, m) &&
                IntoOwned(cells + [cell], |cells| + 1, m) == IntoOwned(cells, |cells|, m)
      {
        MirrorsSurviveAllocation(cells, |cells|, cells + [cell], |cells| + 1, m);
      }
      at := Some(|cells|);
      cells := cells + [cell];
    }
  }

  /** The generated `visit_map`: one slot per field, filled in a loop over the keys. */
  method VisitMap(env: Env, fields: seq<Field>, entries: seq<Entry>, bump: Bump) returns (r: Read<seq<Mirrored>>)
    requires Compiles(env) && AllCompile(env, fields)
    modifies bump
    ensures Outcome(r, bump.cells) == ReadStructIn(env, bump.admits, "", fields, JObject(entries), old(bump.cells))
  {
    var slots: seq<Option<Mirrored>> := EmptySlots(|fields|);
    var next := 0;
    while next < |entries|
      invariant 0 <= next <= |entries| && |slots| == |fields|
      invariant ReadEntriesIn(env, bump.admits, fields, entries, EmptySlots(|fields|), old(bump.cells))
             == ReadEntriesIn(env, bump.admits, fields, entries[next..], slots, bump.cells)
    {
      var entry := entries[next];
      assert entries[next..][1..] == entries[next + 1..];
      var i := FieldIndex(fields, entry.key);
      if i < |fields| {
        if slots[i].Some? {
          return Err(DuplicateField(fields[i].name));
        }
        var o := ReadIn(env, bump.admits, FieldMirror(fields[i]), entry.value, bump.cells);
        bump.cells := o.cells;
        if o.result.Err? {
          return Err(o.result.error);
        }
        slots := slots[i := Some(o.result.value)];
      }
      next := next + 1;
    }
    r := FinishIn(env, fields, slots);
  }

  ghost function Prepended(values: seq<Mirrored>, o: Outcome<seq<Mirrored>>): (p: Outcome<seq<Mirrored>>)
  {
    if o.result.Err? then o else Outcome(Ok(values + o.result.value), o.cells)
  }

  lemma PrependedTwice(values: seq<Mirrored>, m: Mirrored, o: Outcome<seq<Mirrored>>)
    ensures Prepended(values, Prepended([m], o)) == Prepended(values + [m], o)
    ensures Prepended([], o) == o
  {
    if o.result.Ok? {
      assert values + ([m] + o.result.value) == values + [m] + o.result.value;
      assert [] + o.result.value == o.result.value;
    }
  }

  /** One turn of the slice visitor's loop. */
  lemma ItemsStep(env: Env, admits: Policy, ty: MirrorTy, items: seq<Json>, cells: seq<Cell>)
    requires Compiles(env) && Resolves(env, ty) && items != []
    ensures var head := ReadIn(env, admits, ty, items[0], cells);
            ReadItemsIn(env, admits, ty, items, cells)
            == if head.result.Err? then Failed(head)
               else if !admits(head.cells, Reserved) then Outcome(Err(AllocationLimit), head.cells)
               else Prepended([head.result.value], ReadItemsIn(env, admits, ty, items[1..], head.cells + [Reserved]))
  {
    hide ReadIn, Resolves, Compiles;
  }

  /** The slice visitor: reserve, then read and push until the sequence ends. */
  method VisitSlice(env: Env, ty: MirrorTy, items: seq<Json>, bump: Bump) returns (r: Read<Mirrored>)
    requires Compiles(env) && Resolves(env, ty)
    modifies bump
    ensures Outcome(r, bump.cells) == ReadSliceIn(env, bump.admits, ty, items, old(bump.cells))
  {
    hide ReadIn, ReadItemsIn, Prepended, Compiles, Resolves;
    var room := bump.TryAlloc(Reserved);
    if room.None? {
      return Err(AllocationLimit);
    }
    ghost var all := ReadItemsIn(env, bump.admits, ty, items, bump.cells);
    assert items[0..] == items;
    PrependedTwice([], MNone, all);
    var values: seq<Mirrored> := [];
    var next := 0;
    while next < |items|
      invariant 0 <= next <= |items|
      invariant all == Prepended(values, ReadItemsIn(env, bump.admits, ty, items[next..], bump.cells))
      invariant all == ReadItemsIn(env, bump.admits, ty, items, old(bump.cells) + [Reserved])
    {
      ItemsStep(env, bump.admits, ty, items[next..], bump.cells);
      assert items[next..][1..] == items[next + 1..];
      var o := ReadIn(env, bump.admits, ty, items[next], bump.cells);
      bump.cells := o.cells;
      if o.result.Err? {
        PrependedError(values, Failed(o));
        return Err(o.result.error);
      }
      room := bump.TryAlloc(Reserved);
      if room.None? {
        PrependedError(values, Outcome(Err(AllocationLimit), bump.cells));
        return Err(AllocationLimit);
      }
      PrependedTwice(values, o.result.value, ReadItemsIn(env, bump.admits, ty, items[next + 1..], bump.cells));
      values := values + [o.result.value];
      next := next + 1;
    }
    assert items[next..] == [];
    ItemsEnd(env, bump.admits, ty, bump.cells, values);
    r := Ok(MSlice(|bump.cells|));
    bump.cells := bump.cells + [Slice(values)];
  }

  lemma PrependedError(values: seq<Mirrored>, o: Outcome<seq<Mirrored>>)
    requires o.result.Err?
    ensures Prepended(values, o) == o
  {
  }

  lemma ItemsEnd(env: Env, admits: Policy, ty: MirrorTy, cells: seq<Cell>, values: seq<Mirrored>)
    requires Compiles(env) && Resolves(env, ty)
    ensures Prepended(values, ReadItemsIn(env, admits, ty, [], cells)) == Outcome(Ok(values), cells)
  {
    assert values + [] == values;
  }
}
