/**
 The arena copy of the read-only check and validator. A mirrored step refers to
 other steps by handles into an append-only arena.
 */
module ArenaBatch {
  import opened Wrappers
  import opened Syntax
  import opened ReadOnly
  import opened Batch

  type Handle = nat

  datatype ArenaStep =
    | Source(source: SourceKind)
    | Filtered(filtered: FilteredKind, guard: Predicate)
    | Search(search: SearchKind, tenant: Option<Input>, query: Input, k: Bound)
    | SearchWithin(search: SearchKind, input: Handle, tenant: Option<Input>, query: Input, k: Bound)
    | Unary(unary: UnaryKind, input: Handle)
    | Detached(detached: DetachedKind, prior: Option<Handle>)
    | Valued(valued: ValuedKind, input: Handle, value: Value)
    | Where(input: Handle, guard: Predicate)
    | Assigned(assigns: AssignedKind, input: Handle, assignment: Input)
    | Bounded(bounded: BoundedKind, input: Handle, bound: Bound)
    | Range(input: Handle, start: Bound, end: Bound)
    | Project(input: Handle, projections: seq<Projection>)
    | AddN(prior: Option<Handle>, properties: seq<Input>)
    | AddE(input: Handle, properties: seq<Input>)
    | Repeat(input: Handle, body: Handle, until: Option<Predicate>, emit: Option<Predicate>)
    | Branching(branching: BranchingKind, input: Handle, traversals: seq<Handle>)
    | Choose(input: Handle, condition: Predicate, onTrue: Handle, onFalse: Option<Handle>)
    | Optional(input: Handle, body: Handle)

  datatype ArenaEntry =
    | Query(name: Option<string>, root: Handle, condition: Option<Condition>)
    | ForEach(param: string, body: Handle)

  /** The steps and the entry slices allocated so far. */
  datatype Arena = Arena(steps: seq<ArenaStep>, slices: seq<seq<ArenaEntry>>)

  /** The handle of the step below, if any. */
  function Below(s: ArenaStep): (h: Option<Handle>)
  {
    match s
    case Source(_) => None
    case Filtered(_, _) => None
    case Search(_, _, _, _) => None
    case Detached(_, prior) => prior
    case AddN(prior, _) => prior
    case _ => Some(s.input)
  }

  /** The handles of the embedded roots. */
  function Roots(s: ArenaStep): (hs: seq<Handle>)
  {
    match s
    case Repeat(_, body, _, _) => [body]
    case Branching(_, _, traversals) => traversals
    case Choose(_, _, onTrue, None) => [onTrue]
    case Choose(_, _, onTrue, Some(onFalse)) => [onTrue, onFalse]
    case Optional(_, body) => [body]
    case _ => []
  }

  /** A cell only refers to cells allocated before it. */
  predicate Earlier(s: ArenaStep, limit: nat) {
    && (Below(s).Some? ==> Below(s).value < limit)
    && forall i | 0 <= i < |Roots(s)| :: Roots(s)[i] < limit
  }

  predicate EntryEarlier(a: Arena, e: ArenaEntry, limit: nat) {
    match e
    case Query(_, root, _) => root < |a.steps|
    case ForEach(_, body) => body < limit
  }

  predicate SliceEarlier(a: Arena, slice: seq<ArenaEntry>, limit: nat) {
    forall i | 0 <= i < |slice| :: EntryEarlier(a, slice[i], limit)
  }

  ghost predicate Allocated(a: Arena) {
    && (forall h | 0 <= h < |a.steps| :: Earlier(a.steps[h], h))
    && (forall h | 0 <= h < |a.slices| :: SliceEarlier(a, a.slices[h], h))
  }

  // ---------------------------------------------------------------------
  // `into_owned`

  function OwnedStep(a: Arena, h: Handle): (s: Step)
    requires Allocated(a) && h < |a.steps|
    decreases h, 0
  {
    var cell := a.steps[h];
    assert Earlier(cell, h);
    match cell
    case Source(kind) => Syntax.Source(kind)
    case Filtered(kind, guard) => Syntax.Filtered(kind, guard)
    case Search(kind, tenant, query, k) => Syntax.Search(kind, tenant, query, k)
    case SearchWithin(kind, input, tenant, query, k) => Syntax.SearchWithin(kind, OwnedStep(a, input), tenant, query, k)
    case Unary(kind, input) => Syntax.Unary(kind, OwnedStep(a, input))
    case Detached(kind, None) => Syntax.Detached(kind, None)
    case Detached(kind, Some(prior)) => Syntax.Detached(kind, Some(OwnedStep(a, prior)))
    case Valued(kind, input, value) => Syntax.Valued(kind, OwnedStep(a, input), value)
    case Where(input, guard) => Syntax.Where(OwnedStep(a, input), guard)
    case Assigned(kind, input, assignment) => Syntax.Assigned(kind, OwnedStep(a, input), assignment)
    case Bounded(kind, input, bound) => Syntax.Bounded(kind, OwnedStep(a, input), bound)
    case Range(input, start, end) => Syntax.Range(OwnedStep(a, input), start, end)
    case Project(input, projections) => Syntax.Project(OwnedStep(a, input), projections)
    case AddN(None, properties) => Syntax.AddN(None, properties)
    case AddN(Some(prior), properties) => Syntax.AddN(Some(OwnedStep(a, prior)), properties)
    case AddE(input, properties) => Syntax.AddE(OwnedStep(a, input), properties)
    case Repeat(input, body, until, emit) =>
      assert Roots(cell)[0] == body;
      Syntax.Repeat(OwnedStep(a, input), OwnedStep(a, body), until, emit)
    case Branching(kind, input, traversals) =>
      Syntax.Branching(kind, OwnedStep(a, input), OwnedSteps(a, traversals, h))
    case Choose(input, condition, onTrue, None) =>
      assert Roots(cell)[0] == onTrue;
      Syntax.Choose(OwnedStep(a, input), condition, OwnedStep(a, onTrue), None)
    case Choose(input, condition, onTrue, Some(onFalse)) =>
      assert Roots(cell)[0] == onTrue && Roots(cell)[1] == onFalse;
      Syntax.Choose(OwnedStep(a, input), condition, OwnedStep(a, onTrue), Some(OwnedStep(a, onFalse)))
    case Optional(input, body) =>
      assert Roots(cell)[0] == body;
      Syntax.Optional(OwnedStep(a, input), OwnedStep(a, body))
  }

  function OwnedSteps(a: Arena, hs: seq<Handle>, limit: nat): (steps: seq<Step>)
    requires Allocated(a) && limit <= |a.steps|
    requires forall i | 0 <= i < |hs| :: hs[i] < limit
    ensures |steps| == |hs|
    decreases limit, 0, |hs|
  {
    if hs == [] then [] else [OwnedStep(a, hs[0])] + OwnedSteps(a, hs[1..], limit)
  }

  function OwnedEntry(a: Arena, e: ArenaEntry, limit: nat): (r: Entry)
    requires Allocated(a) && limit <= |a.slices| && EntryEarlier(a, e, limit)
    decreases limit, 0
  {
    match e
    case Query(name, root, condition) => Syntax.Query(name, OwnedStep(a, root), condition)
    case ForEach(param, body) => Syntax.ForEach(param, OwnedEntries(a, a.slices[body], body))
  }

  function OwnedEntries(a: Arena, slice: seq<ArenaEntry>, limit: nat): (entries: seq<Entry>)
    requires Allocated(a) && limit <= |a.slices| && SliceEarlier(a, slice, limit)
    ensures |entries| == |slice|
    ensures forall i | 0 <= i < |slice| :: entries[i] == OwnedEntry(a, slice[i], limit)
    decreases limit, 1, |slice|
  {
    if slice == [] then []
    else
      assert EntryEarlier(a, slice[0], limit);
      [OwnedEntry(a, slice[0], limit)] + OwnedEntries(a, slice[1..], limit)
  }

  // ---------------------------------------------------------------------
  // The arena copies

  /** `ArenaAstNode::is_read_only`. */
  predicate ArenaReadOnly(a: Arena, h: Handle)
    requires Allocated(a) && h < |a.steps|
    decreases h, 0
  {
    var cell := a.steps[h];
    assert Earlier(cell, h);
    match cell
    case Source(kind) =>
      !(kind.CreateIndex? || kind.DropIndex? || kind.RetryIndexOperation? || kind.AbortIndexOperation?)
    case Filtered(_, _) => true
    case Search(_, _, _, _) => true
    case AddN(_, _) => false
    case AddE(_, _) => false
    case Assigned(kind, input, _) => kind.EdgeHas? && ArenaReadOnly(a, input)
    case Detached(kind, prior) => kind.Inject? && (prior.None? || ArenaReadOnly(a, prior.value))
    case Unary(kind, input) =>
      && !(kind.RemoveProperty? || kind.Drop? || kind.DropEdge? || kind.DropEdgeLabeled?)
      && ArenaReadOnly(a, input)
    case SearchWithin(_, input, _, _, _) => ArenaReadOnly(a, input)
    case Valued(_, input, _) => ArenaReadOnly(a, input)
    case Where(input, _) => ArenaReadOnly(a, input)
    case Bounded(_, input, _) => ArenaReadOnly(a, input)
    case Range(input, _, _) => ArenaReadOnly(a, input)
    case Project(input, _) => ArenaReadOnly(a, input)
    case Repeat(input, body, _, _) =>
      assert Roots(cell)[0] == body;
      ArenaReadOnly(a, input) && ArenaReadOnly(a, body)
    case Branching(_, input, traversals) => ArenaReadOnly(a, input) && ArenaAllReadOnly(a, traversals, h)
    case Choose(input, _, onTrue, onFalse) =>
      assert Roots(cell)[0] == onTrue;
      assert onFalse.Some? ==> Roots(cell)[1] == onFalse.value;
      ArenaReadOnly(a, input) && ArenaReadOnly(a, onTrue) && (onFalse.None? || ArenaReadOnly(a, onFalse.value))
    case Optional(input, body) =>
      assert Roots(cell)[0] == body;
      ArenaReadOnly(a, input) && ArenaReadOnly(a, body)
  }

  predicate ArenaAllReadOnly(a: Arena, hs: seq<Handle>, limit: nat)
    requires Allocated(a) && limit <= |a.steps|
    requires forall i | 0 <= i < |hs| :: hs[i] < limit
    decreases limit, 0, |hs|
  {
    hs == [] || (ArenaReadOnly(a, hs[0]) && ArenaAllReadOnly(a, hs[1..], limit))
  }

  /** `validate_arena_read_entries` from one index on. */
  function ArenaValidate(a: Arena, slice: seq<ArenaEntry>, limit: nat, index: nat,
      path: string): (offender: Option<string>)
    requires Allocated(a) && limit <= |a.slices| && SliceEarlier(a, slice, limit) && index <= |slice|
    decreases limit, |slice| - index
  {
    if index == |slice| then None else
    assert EntryEarlier(a, slice[index], limit);
    match slice[index]
    case Query(_, root, _) =>
      if ArenaReadOnly(a, root) then ArenaValidate(a, slice, limit, index + 1, path) else Some(Place(path, index))
    case ForEach(_, body) =>
      var nested := ArenaValidate(a, a.slices[body], body, 0, Body(path, index));
      if nested.Some? then nested else ArenaValidate(a, slice, limit, index + 1, path)
  }

  // ---------------------------------------------------------------------
  // They agree

  /** The arena check decides what the owned check decides about the mirrored step. */
  lemma {:induction false} ReadOnlyAgrees(a: Arena, h: Handle)
    requires Allocated(a) && h < |a.steps|
    ensures ArenaReadOnly(a, h) <==> IsReadOnly(OwnedStep(a, h))
    decreases h, 0
  {
    var cell := a.steps[h];
    assert Earlier(cell, h);
    if Below(cell).Some? {
      ReadOnlyAgrees(a, Below(cell).value);
    }
    match cell
    case Repeat(_, body, _, _) =>
      assert Roots(cell)[0] == body;
      ReadOnlyAgrees(a, body);
    case Branching(_, _, traversals) =>
      assert Roots(cell) == traversals;
      AllReadOnlyAgrees(a, traversals, h);
    case Choose(_, _, onTrue, onFalse) =>
      assert Roots(cell)[0] == onTrue;
      ReadOnlyAgrees(a, onTrue);
      if onFalse.Some? {
        assert Roots(cell)[1] == onFalse.value;
        ReadOnlyAgrees(a, onFalse.value);
      }
    case Optional(_, body) =>
      assert Roots(cell)[0] == body;
      ReadOnlyAgrees(a, body);
    case _ =>
  }

  lemma {:induction false} AllReadOnlyAgrees(a: Arena, hs: seq<Handle>, limit: nat)
    requires Allocated(a) && limit <= |a.steps|
    requires forall i | 0 <= i < |hs| :: hs[i] < limit
    ensures ArenaAllReadOnly(a, hs, limit) <==> AllReadOnly(OwnedSteps(a, hs, limit))
    decreases limit, 0, |hs|
  {
    if hs != [] {
      ReadOnlyAgrees(a, hs[0]);
      AllReadOnlyAgrees(a, hs[1..], limit);
      assert OwnedSteps(a, hs, limit)[1..] == OwnedSteps(a, hs[1..], limit);
    }
  }

  /** The two validators give one verdict and one path on mirrored entries. */
  lemma {:induction false} ValidatorsAgree(a: Arena, slice: seq<ArenaEntry>, limit: nat, index: nat, path: string)
    requires Allocated(a) && limit <= |a.slices| && SliceEarlier(a, slice, limit) && index <= |slice|
    ensures ArenaValidate(a, slice, limit, index, path) == Validate(OwnedEntries(a, slice, limit), index, path)
    decreases limit, |slice| - index
  {
    hide ArenaReadOnly, IsReadOnly, OwnedStep, Place, Body;
    if index < |slice| {
      assert EntryEarlier(a, slice[index], limit);
      var entries := OwnedEntries(a, slice, limit);
      assert entries[index] == OwnedEntry(a, slice[index], limit);
      ValidatorsAgree(a, slice, limit, index + 1, path);
      match slice[index]
      case Query(_, root, _) => ReadOnlyAgrees(a, root);
      case ForEach(_, body) => ValidatorsAgree(a, a.slices[body], body, 0, Body(path, index));
    }
  }
}
