/** Storing a request in the arena, and reading it back: every batch has a mirror, and its owned value is the batch. */
module ArenaStore {
  import opened Wrappers
  import opened Syntax
  import opened Batch
  import opened ArenaBatch

  // ---------------------------------------------------------------------
  // Later allocations change nothing

  ghost predicate Grows(a: Arena, b: Arena) {
    Allocated(a) && Allocated(b) && a.steps <= b.steps && a.slices <= b.slices
  }

  lemma {:induction false} StepSurvives(a: Arena, b: Arena, h: Handle)
    requires Grows(a, b) && h < |a.steps|
    ensures OwnedStep(a, h) == OwnedStep(b, h)
    decreases h, 0
  {
    var cell := a.steps[h];
    assert Earlier(cell, h) && b.steps[h] == cell;
    if Below(cell).Some? {
      StepSurvives(a, b, Below(cell).value);
    }
    match cell
    case Repeat(_, body, _, _) =>
      assert Roots(cell)[0] == body;
      StepSurvives(a, b, body);
    case Branching(_, _, traversals) =>
      assert Roots(cell) == traversals;
      StepsSurvive(a, b, traversals, h);
    case Choose(_, _, onTrue, onFalse) =>
      assert Roots(cell)[0] == onTrue;
      StepSurvives(a, b, onTrue);
      if onFalse.Some? {
        assert Roots(cell)[1] == onFalse.value;
        StepSurvives(a, b, onFalse.value);
      }
    case Optional(_, body) =>
      assert Roots(cell)[0] == body;
      StepSurvives(a, b, body);
    case _ =>
  }

  lemma {:induction false} StepsSurvive(a: Arena, b: Arena, hs: seq<Handle>, limit: nat)
    requires Grows(a, b) && limit <= |a.steps| && forall i | 0 <= i < |hs| :: hs[i] < limit
    ensures OwnedSteps(a, hs, limit) == OwnedSteps(b, hs, limit)
    decreases limit, 0, |hs|
  {
    if hs != [] {
      StepSurvives(a, b, hs[0]);
      StepsSurvive(a, b, hs[1..], limit);
    }
  }

  // ---------------------------------------------------------------------
  // Storing a step

  datatype Stored = Stored(arena: Arena, handle: Handle)

  datatype StoredAll = StoredAll(arena: Arena, handles: seq<Handle>)

  /** Allocate one cell. */
  function Push(a: Arena, cell: ArenaStep): (r: Stored)
  {
    Stored(a.(steps := a.steps + [cell]), |a.steps|)
  }

  function StorePrior(a: Arena, prior: Option<Step>): (r: (Arena, Option<Handle>))
    decreases prior, 1
  {
    if prior.None? then (a, None) else
    var p := Store(a, prior.value);
    (p.arena, Some(p.handle))
  }

  /** A step's mirror: what it embeds is stored before it. */
  function Store(a: Arena, s: Step): (r: Stored)
    decreases s, 0
  {
    match s
    case Source(kind) => Push(a, ArenaStep.Source(kind))
    case Filtered(kind, guard) => Push(a, ArenaStep.Filtered(kind, guard))
    case Search(kind, tenant, query, k) => Push(a, ArenaStep.Search(kind, tenant, query, k))
    case SearchWithin(kind, input, tenant, query, k) =>
      var i := Store(a, input);
      Push(i.arena, ArenaStep.SearchWithin(kind, i.handle, tenant, query, k))
    case Unary(kind, input) =>
      var i := Store(a, input);
      Push(i.arena, ArenaStep.Unary(kind, i.handle))
    case Detached(kind, prior) =>
      var p := StorePrior(a, prior);
      Push(p.0, ArenaStep.Detached(kind, p.1))
    case Valued(kind, input, value) =>
      var i := Store(a, input);
      Push(i.arena, ArenaStep.Valued(kind, i.handle, value))
    case Where(input, guard) =>
      var i := Store(a, input);
      Push(i.arena, ArenaStep.Where(i.handle, guard))
    case Assigned(kind, input, assignment) =>
      var i := Store(a, input);
      Push(i.arena, ArenaStep.Assigned(kind, i.handle, assignment))
    case Bounded(kind, input, bound) =>
      var i := Store(a, input);
      Push(i.arena, ArenaStep.Bounded(kind, i.handle, bound))
    case Range(input, start, end) =>
      var i := Store(a, input);
      Push(i.arena, ArenaStep.Range(i.handle, start, end))
    case Project(input, projections) =>
      var i := Store(a, input);
      Push(i.arena, ArenaStep.Project(i.handle, projections))
    case AddN(prior, properties) =>
      var p := StorePrior(a, prior);
      Push(p.0, ArenaStep.AddN(p.1, properties))
    case AddE(input, properties) =>
      var i := Store(a, input);
      Push(i.arena, ArenaStep.AddE(i.handle, properties))
    case Repeat(input, body, until, emit) =>
      var i := Store(a, input);
      var b := Store(i.arena, body);
      Push(b.arena, ArenaStep.Repeat(i.handle, b.handle, until, emit))
    case Branching(kind, input, traversals) =>
      var i := Store(a, input);
      var ts := StoreAll(i.arena, traversals);
      Push(ts.arena, ArenaStep.Branching(kind, i.handle, ts.handles))
    case Choose(input, condition, onTrue, onFalse) =>
      var i := Store(a, input);
      var t := Store(i.arena, onTrue);
      var f := StorePrior(t.arena, onFalse);
      Push(f.0, ArenaStep.Choose(i.handle, condition, t.handle, f.1))
    case Optional(input, body) =>
      var i := Store(a, input);
      var b := Store(i.arena, body);
      Push(b.arena, ArenaStep.Optional(i.handle, b.handle))
  }

  function StoreAll(a: Arena, steps: seq<Step>): (r: StoredAll)
    decreases steps, 0
  {
    if steps == [] then StoredAll(a, []) else
    var first := Store(a, steps[0]);
    var rest := StoreAll(first.arena, steps[1..]);
    StoredAll(rest.arena, [first.handle] + rest.handles)
  }

  // ---------------------------------------------------------------------
  // Reading it back

  lemma Pushed(a: Arena, cell: ArenaStep)
    requires Allocated(a) && Earlier(cell, |a.steps|)
    ensures Grows(a, Push(a, cell).arena)
  {
    hide Earlier;
    var b := Push(a, cell).arena;
    assert forall h | 0 <= h < |a.steps| :: b.steps[h] == a.steps[h];
    forall h | 0 <= h < |b.slices|
      ensures SliceEarlier(b, b.slices[h], h)
    {
      SliceStays(a, b, a.slices[h], h);
    }
  }

  lemma SliceStays(a: Arena, b: Arena, slice: seq<ArenaEntry>, limit: nat)
    requires SliceEarlier(a, slice, limit) && |a.steps| <= |b.steps|
    ensures SliceEarlier(b, slice, limit)
  {
    forall i | 0 <= i < |slice|
      ensures EntryEarlier(b, slice[i], limit)
    {
      assert EntryEarlier(a, slice[i], limit);
    }
  }

  lemma GrowsOn(a: Arena, b: Arena, c: Arena)
    requires Grows(a, b) && Grows(b, c)
    ensures Grows(a, c)
  {
    hide Allocated;
  }

  /** A step stored in `r` since `a`. */
  ghost predicate Keeps(a: Arena, r: Stored, s: Step) {
    Grows(a, r.arena) && r.handle < |r.arena.steps| && OwnedStep(r.arena, r.handle) == s
  }

  ghost predicate KeepsPrior(a: Arena, r: (Arena, Option<Handle>), prior: Option<Step>) {
    && Grows(a, r.0) && r.1.Some? == prior.Some?
    && (prior.Some? ==> r.1.value < |r.0.steps| && OwnedStep(r.0, r.1.value) == prior.value)
  }

  ghost predicate KeepsAll(a: Arena, r: StoredAll, steps: seq<Step>) {
    && Grows(a, r.arena) && (forall i | 0 <= i < |r.handles| :: r.handles[i] < |r.arena.steps|)
    && OwnedSteps(r.arena, r.handles, |r.arena.steps|) == steps
  }

  /** A cell without embedded roots, over the step below it. */
  lemma PushOver(a: Arena, r: Stored, below: Step, cell: ArenaStep)
    requires Keeps(a, r, below) && Below(cell) == Some(r.handle) && Roots(cell) == []
    ensures var p := Push(r.arena, cell); Grows(a, p.arena) && OwnedStep(p.arena, r.handle) == below
  {
    hide OwnedStep, Allocated;
    var p := Push(r.arena, cell);
    Pushed(r.arena, cell);
    StepSurvives(r.arena, p.arena, r.handle);
    GrowsOn(a, r.arena, p.arena);
  }

  lemma {:induction false} StorePriorKeeps(a: Arena, prior: Option<Step>)
    requires Allocated(a)
    ensures KeepsPrior(a, StorePrior(a, prior), prior)
    decreases prior, 1
  {
    hide OwnedStep, Store, Allocated;
    if prior.Some? {
      StoreKeeps(a, prior.value);
    }
  }

  lemma {:induction false} StoreAllKeeps(a: Arena, steps: seq<Step>)
    requires Allocated(a)
    ensures KeepsAll(a, StoreAll(a, steps), steps)
    decreases steps, 0
  {
    hide OwnedStep, Store, Allocated;
    if steps != [] {
      var first := Store(a, steps[0]);
      StoreKeeps(a, steps[0]);
      StoreAllKeeps(first.arena, steps[1..]);
      var rest := StoreAll(first.arena, steps[1..]);
      GrowsOn(a, first.arena, rest.arena);
      StepSurvives(first.arena, rest.arena, first.handle);
      assert ([first.handle] + rest.handles)[1..] == rest.handles;
    }
  }

  /** The steps that embed no root. */
  lemma {:induction false} StoreOver(a: Arena, s: Step)
    requires Allocated(a)
    requires s.SearchWithin? || s.Unary? || s.Valued? || s.Where? || s.Assigned? || s.Bounded? || s.Range?
             || s.Project? || s.AddE?
    ensures Keeps(a, Store(a, s), s)
    decreases s, 0
  {
    hide Allocated;
    StoreKeeps(a, s.input);
    var i, r := Store(a, s.input), Store(a, s);
    PushOver(a, i, s.input, r.arena.steps[|i.arena.steps|]);
  }

  lemma StoreLeaf(a: Arena, s: Step)
    requires Allocated(a) && (s.Source? || s.Filtered? || s.Search?)
    ensures Keeps(a, Store(a, s), s)
  {
    hide Allocated;
    Pushed(a, Store(a, s).arena.steps[|a.steps|]);
  }

  lemma {:induction false} StoreDetached(a: Arena, s: Step)
    requires Allocated(a) && (s.Detached? || s.AddN?)
    ensures Keeps(a, Store(a, s), s)
    decreases s, 0
  {
    hide Allocated;
    StorePriorKeeps(a, s.prior);
    var p, r := StorePrior(a, s.prior), Store(a, s);
    Pushed(p.0, r.arena.steps[|p.0.steps|]);
    GrowsOn(a, p.0, r.arena);
    if s.prior.Some? {
      StepSurvives(p.0, r.arena, p.1.value);
    }
  }

  lemma {:induction false} StoreTwo(a: Arena, s: Step)
    requires Allocated(a) && (s.Repeat? || s.Optional?)
    ensures Keeps(a, Store(a, s), s)
    decreases s, 0
  {
    hide Allocated;
    StoreKeeps(a, s.input);
    var i := Store(a, s.input);
    StoreKeeps(i.arena, s.body);
    var b, r := Store(i.arena, s.body), Store(a, s);
    Pushed(b.arena, r.arena.steps[|b.arena.steps|]);
    GrowsOn(a, i.arena, b.arena);
    GrowsOn(a, b.arena, r.arena);
    GrowsOn(i.arena, b.arena, r.arena);
    StepSurvives(i.arena, r.arena, i.handle);
    StepSurvives(b.arena, r.arena, b.handle);
  }

  lemma {:induction false} StoreBranching(a: Arena, s: Step)
    requires Allocated(a) && s.Branching?
    ensures Keeps(a, Store(a, s), s)
    decreases s, 0
  {
    hide Allocated;
    StoreKeeps(a, s.input);
    var i := Store(a, s.input);
    StoreAllKeeps(i.arena, s.traversals);
    var ts, r := StoreAll(i.arena, s.traversals), Store(a, s);
    Pushed(ts.arena, r.arena.steps[|ts.arena.steps|]);
    GrowsOn(a, i.arena, ts.arena);
    GrowsOn(a, ts.arena, r.arena);
    GrowsOn(i.arena, ts.arena, r.arena);
    StepSurvives(i.arena, r.arena, i.handle);
    StepsSurvive(ts.arena, r.arena, ts.handles, |ts.arena.steps|);
  }

  lemma {:induction false} StoreChoose(a: Arena, s: Step)
    requires Allocated(a) && s.Choose?
    ensures Keeps(a, Store(a, s), s)
    decreases s, 0
  {
    hide Allocated;
    StoreKeeps(a, s.input);
    var i := Store(a, s.input);
    StoreKeeps(i.arena, s.onTrue);
    var t := Store(i.arena, s.onTrue);
    StorePriorKeeps(t.arena, s.onFalse);
    var f, r := StorePrior(t.arena, s.onFalse), Store(a, s);
    Pushed(f.0, r.arena.steps[|f.0.steps|]);
    GrowsOn(a, i.arena, t.arena);
    GrowsOn(a, t.arena, f.0);
    GrowsOn(a, f.0, r.arena);
    GrowsOn(t.arena, f.0, r.arena);
    GrowsOn(i.arena, t.arena, r.arena);
    StepSurvives(i.arena, r.arena, i.handle);
    StepSurvives(t.arena, r.arena, t.handle);
    if s.onFalse.Some? {
      StepSurvives(f.0, r.arena, f.1.value);
    }
  }

  /** Every step's mirror converts back to the step, and storing it disturbs nothing stored before. */
  lemma {:induction false} StoreKeeps(a: Arena, s: Step)
    requires Allocated(a)
    ensures Keeps(a, Store(a, s), s)
    decreases s, 1
  {
    hide Keeps, Store, Allocated;
    match s
    case Source(_) => StoreLeaf(a, s);
    case Filtered(_, _) => StoreLeaf(a, s);
    case Search(_, _, _, _) => StoreLeaf(a, s);
    case Detached(_, _) => StoreDetached(a, s);
    case AddN(_, _) => StoreDetached(a, s);
    case Repeat(_, _, _, _) => StoreTwo(a, s);
    case Optional(_, _) => StoreTwo(a, s);
    case Branching(_, _, _) => StoreBranching(a, s);
    case Choose(_, _, _, _) => StoreChoose(a, s);
    case _ => StoreOver(a, s);
  }

  // ---------------------------------------------------------------------
  // Entries

  datatype StoredEntries = StoredEntries(arena: Arena, slice: seq<ArenaEntry>)

  datatype StoredEntry = StoredEntry(arena: Arena, entry: ArenaEntry)

  function StoreEntry(a: Arena, e: Entry): (r: StoredEntry)
    decreases e, 0
  {
    match e
    case Query(name, root, condition) =>
      var r := Store(a, root);
      StoredEntry(r.arena, ArenaEntry.Query(name, r.handle, condition))
    case ForEach(param, body) =>
      var b := StoreEntries(a, body);
      StoredEntry(b.arena.(slices := b.arena.slices + [b.slice]), ArenaEntry.ForEach(param, |b.arena.slices|))
  }

  function StoreEntries(a: Arena, entries: seq<Entry>): (r: StoredEntries)
    decreases entries, 0
  {
    if entries == [] then StoredEntries(a, []) else
    var first := StoreEntry(a, entries[0]);
    var rest := StoreEntries(first.arena, entries[1..]);
    StoredEntries(rest.arena, [first.entry] + rest.slice)
  }

  ghost predicate KeepsEntry(a: Arena, r: StoredEntry, e: Entry) {
    && Grows(a, r.arena) && EntryEarlier(r.arena, r.entry, |r.arena.slices|)
    && OwnedEntry(r.arena, r.entry, |r.arena.slices|) == e
  }

  ghost predicate KeepsEntries(a: Arena, r: StoredEntries, entries: seq<Entry>) {
    && Grows(a, r.arena) && SliceEarlier(r.arena, r.slice, |r.arena.slices|)
    && OwnedEntries(r.arena, r.slice, |r.arena.slices|) == entries
  }

  /** An entry's owned value depends neither on later allocations nor on how far slices may reach. */
  lemma {:induction false} EntrySurvives(a: Arena, b: Arena, e: ArenaEntry, low: nat, high: nat)
    requires Grows(a, b) && low <= |a.slices| && low <= high <= |b.slices| && EntryEarlier(a, e, low)
    ensures EntryEarlier(b, e, high) && OwnedEntry(a, e, low) == OwnedEntry(b, e, high)
    decreases low, 0
  {
    match e
    case Query(_, root, _) => StepSurvives(a, b, root);
    case ForEach(_, body) =>
      assert a.slices[body] == b.slices[body];
      EntriesSurvive(a, b, a.slices[body], body, body);
  }

  lemma {:induction false} EntriesSurvive(a: Arena, b: Arena, slice: seq<ArenaEntry>, low: nat, high: nat)
    requires Grows(a, b) && low <= |a.slices| && low <= high <= |b.slices| && SliceEarlier(a, slice, low)
    ensures SliceEarlier(b, slice, high) && OwnedEntries(a, slice, low) == OwnedEntries(b, slice, high)
    decreases low, 1
  {
    forall i | 0 <= i < |slice|
      ensures EntryEarlier(b, slice[i], high) && OwnedEntry(a, slice[i], low) == OwnedEntry(b, slice[i], high)
    {
      assert EntryEarlier(a, slice[i], low);
      EntrySurvives(a, b, slice[i], low, high);
    }
  }

  lemma {:induction false} StoreEntryKeeps(a: Arena, e: Entry)
    requires Allocated(a)
    ensures KeepsEntry(a, StoreEntry(a, e), e)
    decreases e, 0
  {
    hide Allocated, OwnedStep;
    match e
    case Query(_, root, _) => StoreKeeps(a, root);
    case ForEach(_, body) =>
      StoreEntriesKeep(a, body);
      var b, r := StoreEntries(a, body), StoreEntry(a, e);
      SlicePushed(b.arena, b.slice);
      GrowsOn(a, b.arena, r.arena);
      EntriesSurvive(b.arena, r.arena, b.slice, |b.arena.slices|, |b.arena.slices|);
  }

  lemma SlicePushed(a: Arena, slice: seq<ArenaEntry>)
    requires Allocated(a) && SliceEarlier(a, slice, |a.slices|)
    ensures Grows(a, a.(slices := a.slices + [slice]))
  {
    var b := a.(slices := a.slices + [slice]);
    forall h | 0 <= h < |b.slices|
      ensures SliceEarlier(b, b.slices[h], h)
    {
      SliceStays(a, b, b.slices[h], h);
    }
  }

  /** Every batch's mirror converts back to the batch. */
  lemma {:induction false} StoreEntriesKeep(a: Arena, entries: seq<Entry>)
    requires Allocated(a)
    ensures KeepsEntries(a, StoreEntries(a, entries), entries)
    decreases entries, 0
  {
    hide Allocated, OwnedEntry, StoreEntry;
    if entries != [] {
      var first := StoreEntry(a, entries[0]);
      StoreEntryKeeps(a, entries[0]);
      StoreEntriesKeep(first.arena, entries[1..]);
      var rest := StoreEntries(first.arena, entries[1..]);
      GrowsOn(a, first.arena, rest.arena);
      EntrySurvives(first.arena, rest.arena, first.entry, |first.arena.slices|, |rest.arena.slices|);
      var slice := [first.entry] + rest.slice;
      assert forall i | 0 < i < |slice| :: slice[i] == rest.slice[i - 1];
      assert SliceEarlier(rest.arena, slice, |rest.arena.slices|);
      assert slice[1..] == rest.slice;
    }
  }

  /** The arena validator gives on every batch's mirror the verdict and path that the owned one gives on the batch. */
  lemma StoredValidates(a: Arena, entries: seq<Entry>)
    requires Allocated(a)
    ensures var r := StoreEntries(a, entries);
            && KeepsEntries(a, r, entries)
            && ArenaValidate(r.arena, r.slice, |r.arena.slices|, 0, "entries") == Validate(entries, 0, "entries")
  {
    hide Allocated, OwnedEntries, ArenaValidate, Validate, StoreEntries;
    StoreEntriesKeep(a, entries);
    var r := StoreEntries(a, entries);
    ValidatorsAgree(r.arena, r.slice, |r.arena.slices|, 0, "entries");
  }
}
