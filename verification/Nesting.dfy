/** The iterative nesting bound, against the recursive height of the request syntax. */
module Nesting {
  import opened Wrappers
  import opened Syntax

  /** One nested part of a request. */
  datatype Part =
    | OfEntry(entry: Entry)
    | OfStep(step: Step)
    | OfPredicate(guard: Predicate)
    | OfExpr(expr: Expr)
    | OfInput(input: Input)
    | OfValue(value: Value)

  // ---------------------------------------------------------------------
  // The recursive height and size of each part

  /** The levels of a group of parts and how many parts it holds in all. */
  datatype Dim = Dim(height: nat, size: nat)

  const NOTHING := Dim(0, 0)

  function Beside(a: Dim, b: Dim): (d: Dim)
  {
    Dim(if a.height < b.height then b.height else a.height, a.size + b.size)
  }

  function Under(a: Dim): (d: Dim)
  {
    Dim(a.height + 1, a.size + 1)
  }

  function ValueDim(v: Value): (d: Dim)
    ensures d.height > 0 && d.size > 0
  {
    match v
    case Scalar(_) => Under(NOTHING)
    case Array(values) => Under(ValuesDim(values))
    case Object(members) => Under(MembersDim(members))
  }

  function ValuesDim(values: seq<Value>): (d: Dim)
  {
    if values == [] then NOTHING else Beside(ValueDim(values[0]), ValuesDim(values[1..]))
  }

  function MembersDim(members: seq<Member>): (d: Dim)
  {
    if members == [] then NOTHING else Beside(ValueDim(members[0].value), MembersDim(members[1..]))
  }

  function ExprDim(e: Expr): (d: Dim)
    ensures d.height > 0 && d.size > 0
  {
    match e
    case Binary(_, left, right) => Under(Beside(ExprDim(left), ExprDim(right)))
    case Neg(expr) => Under(ExprDim(expr))
    case Case(branches, None) => Under(BranchesDim(branches))
    case Case(branches, Some(otherwise)) => Under(Beside(BranchesDim(branches), ExprDim(otherwise)))
    case Constant(value) => Under(ValueDim(value))
    case Atom(_) => Under(NOTHING)
  }

  function BranchesDim(branches: seq<Branch>): (d: Dim)
  {
    if branches == [] then NOTHING else Beside(BranchDim(branches[0]), BranchesDim(branches[1..]))
  }

  function BranchDim(b: Branch): (d: Dim)
  {
    Beside(PredicateDim(b.condition), ExprDim(b.result))
  }

  function PredicateDim(p: Predicate): (d: Dim)
    ensures d.height > 0 && d.size > 0
  {
    match p
    case Pair(_, left, right) => Under(Beside(ExprDim(left), ExprDim(right)))
    case Between(value, min, max) => Under(Beside(ExprDim(value), Beside(ExprDim(min), ExprDim(max))))
    case Junction(_, guards) => Under(PredicatesDim(guards))
    case Not(guard) => Under(PredicateDim(guard))
    case OnKey(_) => Under(NOTHING)
  }

  function PredicatesDim(guards: seq<Predicate>): (d: Dim)
  {
    if guards == [] then NOTHING else Beside(PredicateDim(guards[0]), PredicatesDim(guards[1..]))
  }

  function InputDim(i: Input): (d: Dim)
    ensures d.height > 0 && d.size > 0
  {
    match i
    case Literal(value) => Under(ValueDim(value))
    case Computed(expr) => Under(ExprDim(expr))
  }

  function InputsDim(inputs: seq<Input>): (d: Dim)
  {
    if inputs == [] then NOTHING else Beside(InputDim(inputs[0]), InputsDim(inputs[1..]))
  }

  /** A bound is not a level of its own. */
  function BoundDim(b: Bound): (d: Dim)
  {
    match b
    case Fixed(_) => NOTHING
    case Evaluated(expr) => ExprDim(expr)
  }

  function ProjectionsDim(projections: seq<Projection>): (d: Dim)
  {
    if projections == [] then NOTHING
    else if projections[0].Calculated? then Beside(ExprDim(projections[0].expr), ProjectionsDim(projections[1..]))
    else ProjectionsDim(projections[1..])
  }

  function TenantDim(tenant: Option<Input>): (d: Dim)
  {
    if tenant.None? then NOTHING else InputDim(tenant.value)
  }

  function GuardDim(guard: Option<Predicate>): (d: Dim)
  {
    if guard.None? then NOTHING else PredicateDim(guard.value)
  }

  function SearchDim(tenant: Option<Input>, query: Input, k: Bound): (d: Dim)
  {
    Beside(TenantDim(tenant), Beside(InputDim(query), BoundDim(k)))
  }

  function StepDim(s: Step): (d: Dim)
    ensures d.height > 0 && d.size > 0
  {
    match s
    case Source(_) => Under(NOTHING)
    case Filtered(_, guard) => Under(PredicateDim(guard))
    case Search(_, tenant, query, k) => Under(SearchDim(tenant, query, k))
    case SearchWithin(_, input, tenant, query, k) => Under(Beside(StepDim(input), SearchDim(tenant, query, k)))
    case Unary(_, input) => Under(StepDim(input))
    case Detached(_, None) => Under(NOTHING)
    case Detached(_, Some(prior)) => Under(StepDim(prior))
    case Valued(_, input, value) => Under(Beside(StepDim(input), ValueDim(value)))
    case Where(input, guard) => Under(Beside(StepDim(input), PredicateDim(guard)))
    case Assigned(_, input, assignment) => Under(Beside(StepDim(input), InputDim(assignment)))
    case Bounded(_, input, bound) => Under(Beside(StepDim(input), BoundDim(bound)))
    case Range(input, start, end) => Under(Beside(StepDim(input), Beside(BoundDim(start), BoundDim(end))))
    case Project(input, projections) => Under(Beside(StepDim(input), ProjectionsDim(projections)))
    case AddN(None, properties) => Under(InputsDim(properties))
    case AddN(Some(prior), properties) => Under(Beside(StepDim(prior), InputsDim(properties)))
    case AddE(input, properties) => Under(Beside(StepDim(input), InputsDim(properties)))
    case Repeat(input, body, until, emit) =>
      Under(Beside(Beside(StepDim(input), StepDim(body)), Beside(GuardDim(until), GuardDim(emit))))
    case Branching(_, input, traversals) => Under(Beside(StepDim(input), StepsDim(traversals)))
    case Choose(input, condition, onTrue, None) =>
      Under(Beside(Beside(StepDim(input), PredicateDim(condition)), StepDim(onTrue)))
    case Choose(input, condition, onTrue, Some(onFalse)) =>
      Under(Beside(Beside(StepDim(input), PredicateDim(condition)), Beside(StepDim(onTrue), StepDim(onFalse))))
    case Optional(input, body) => Under(Beside(StepDim(input), StepDim(body)))
  }

  function StepsDim(steps: seq<Step>): (d: Dim)
  {
    if steps == [] then NOTHING else Beside(StepDim(steps[0]), StepsDim(steps[1..]))
  }

  function EntryDim(e: Entry): (d: Dim)
    ensures d.height > 0 && d.size > 0
  {
    match e
    case Query(_, root, _) => Under(StepDim(root))
    case ForEach(_, body) => Under(EntriesDim(body))
  }

  function EntriesDim(entries: seq<Entry>): (d: Dim)
  {
    if entries == [] then NOTHING else Beside(EntryDim(entries[0]), EntriesDim(entries[1..]))
  }

  function PartDim(part: Part): (d: Dim)
    ensures d.height > 0 && d.size > 0
  {
    match part
    case OfEntry(entry) => EntryDim(entry)
    case OfStep(step) => StepDim(step)
    case OfPredicate(guard) => PredicateDim(guard)
    case OfExpr(expr) => ExprDim(expr)
    case OfInput(input) => InputDim(input)
    case OfValue(value) => ValueDim(value)
  }

  // ---------------------------------------------------------------------
  // What the walk pushes below a part

  function ValueParts(values: seq<Value>): (parts: seq<Part>)
    ensures forall i | 0 <= i < |parts| :: parts[i].OfValue?
  {
    if values == [] then [] else [OfValue(values[0])] + ValueParts(values[1..])
  }

  function MemberParts(members: seq<Member>): (parts: seq<Part>)
    ensures forall i | 0 <= i < |parts| :: parts[i].OfValue?
  {
    if members == [] then [] else [OfValue(members[0].value)] + MemberParts(members[1..])
  }

  function BranchParts(branches: seq<Branch>): (parts: seq<Part>)
    ensures forall i | 0 <= i < |parts| :: parts[i].OfPredicate? || parts[i].OfExpr?
  {
    if branches == [] then []
    else [OfPredicate(branches[0].condition), OfExpr(branches[0].result)] + BranchParts(branches[1..])
  }

  function PredicateParts(guards: seq<Predicate>): (parts: seq<Part>)
    ensures forall i | 0 <= i < |parts| :: parts[i].OfPredicate?
  {
    if guards == [] then [] else [OfPredicate(guards[0])] + PredicateParts(guards[1..])
  }

  function InputParts(inputs: seq<Input>): (parts: seq<Part>)
  {
    if inputs == [] then [] else [OfInput(inputs[0])] + InputParts(inputs[1..])
  }

  function ProjectionParts(projections: seq<Projection>): (parts: seq<Part>)
  {
    if projections == [] then []
    else (if projections[0].Calculated? then [OfExpr(projections[0].expr)] else []) + ProjectionParts(projections[1..])
  }

  function StepParts(steps: seq<Step>): (parts: seq<Part>)
  {
    if steps == [] then [] else [OfStep(steps[0])] + StepParts(steps[1..])
  }

  function EntryParts(entries: seq<Entry>): (parts: seq<Part>)
  {
    if entries == [] then [] else [OfEntry(entries[0])] + EntryParts(entries[1..])
  }

  function BoundParts(bound: Bound): (parts: seq<Part>)
  {
    if bound.Evaluated? then [OfExpr(bound.expr)] else []
  }

  function GuardParts(guard: Option<Predicate>): (parts: seq<Part>)
  {
    if guard.Some? then [OfPredicate(guard.value)] else []
  }

  function PriorParts(prior: Option<Step>): (parts: seq<Part>)
  {
    if prior.Some? then [OfStep(prior.value)] else []
  }

  function SearchParts(tenant: Option<Input>, query: Input, k: Bound): (parts: seq<Part>)
  {
    (if tenant.Some? then [OfInput(tenant.value)] else []) + [OfInput(query)] + BoundParts(k)
  }

  /** `ast_children`. */
  function StepChildren(s: Step): (parts: seq<Part>)
  {
    match s
    case Source(_) => []
    case Filtered(_, guard) => [OfPredicate(guard)]
    case Search(_, tenant, query, k) => SearchParts(tenant, query, k)
    case SearchWithin(_, input, tenant, query, k) => [OfStep(input)] + SearchParts(tenant, query, k)
    case Unary(_, input) => [OfStep(input)]
    case Detached(_, prior) => PriorParts(prior)
    case Valued(_, input, value) => [OfStep(input), OfValue(value)]
    case Where(input, guard) => [OfStep(input), OfPredicate(guard)]
    case Assigned(_, input, assignment) => [OfStep(input), OfInput(assignment)]
    case Bounded(_, input, bound) => [OfStep(input)] + BoundParts(bound)
    case Range(input, start, end) => [OfStep(input)] + BoundParts(start) + BoundParts(end)
    case Project(input, projections) => [OfStep(input)] + ProjectionParts(projections)
    case AddN(prior, properties) => PriorParts(prior) + InputParts(properties)
    case AddE(input, properties) => [OfStep(input)] + InputParts(properties)
    case Repeat(input, body, until, emit) => [OfStep(input), OfStep(body)] + (GuardParts(until) + GuardParts(emit))
    case Branching(_, input, traversals) => [OfStep(input)] + StepParts(traversals)
    case Choose(input, condition, onTrue, onFalse) =>
      [OfStep(input), OfPredicate(condition), OfStep(onTrue)] + PriorParts(onFalse)
    case Optional(input, body) => [OfStep(input), OfStep(body)]
  }

  function PredicateChildren(p: Predicate): (parts: seq<Part>)
  {
    match p
    case Pair(_, left, right) => [OfExpr(left), OfExpr(right)]
    case Between(value, min, max) => [OfExpr(value), OfExpr(min), OfExpr(max)]
    case Junction(_, guards) => PredicateParts(guards)
    case Not(guard) => [OfPredicate(guard)]
    case OnKey(_) => []
  }

  function ExprChildren(e: Expr): (parts: seq<Part>)
  {
    match e
    case Binary(_, left, right) => [OfExpr(left), OfExpr(right)]
    case Neg(expr) => [OfExpr(expr)]
    case Case(branches, otherwise) =>
      BranchParts(branches) + (if otherwise.Some? then [OfExpr(otherwise.value)] else [])
    case Constant(value) => [OfValue(value)]
    case Atom(_) => []
  }

  /** The parts one turn of the walk pushes, in push order. */
  function Children(part: Part): (parts: seq<Part>)
  {
    match part
    case OfEntry(Query(_, root, _)) => [OfStep(root)]
    case OfEntry(ForEach(_, body)) => EntryParts(body)
    case OfStep(step) => StepChildren(step)
    case OfPredicate(guard) => PredicateChildren(guard)
    case OfExpr(expr) => ExprChildren(expr)
    case OfInput(Literal(value)) => [OfValue(value)]
    case OfInput(Computed(expr)) => [OfExpr(expr)]
    case OfValue(Array(values)) => ValueParts(values)
    case OfValue(Object(members)) => MemberParts(members)
    case OfValue(Scalar(_)) => []
  }

  function PartsDim(parts: seq<Part>): (d: Dim)
  {
    if parts == [] then NOTHING else Beside(PartDim(parts[0]), PartsDim(parts[1..]))
  }

  // ---------------------------------------------------------------------
  // Every embedded part is pushed, and pushed once

  lemma {:induction false} PartsJoin(a: seq<Part>, b: seq<Part>)
    ensures PartsDim(a + b) == Beside(PartsDim(a), PartsDim(b))
  {
    if a == [] {
      assert a + b == b;
    } else {
      assert (a + b)[1..] == a[1..] + b;
      PartsJoin(a[1..], b);
    }
  }

  lemma OnePart(a: Part)
    ensures PartsDim([a]) == PartDim(a)
  {
    assert [a][1..] == [];
    assert PartsDim([]) == NOTHING;
  }

  lemma TwoParts(a: Part, b: Part)
    ensures PartsDim([a, b]) == Beside(PartDim(a), PartDim(b))
  {
    assert [a, b] == [a] + [b];
    PartsJoin([a], [b]);
    OnePart(a);
    OnePart(b);
  }

  lemma ThreeParts(a: Part, b: Part, c: Part)
    ensures PartsDim([a, b, c]) == Beside(Beside(PartDim(a), PartDim(b)), PartDim(c))
  {
    assert [a, b, c] == [a, b] + [c];
    PartsJoin([a, b], [c]);
    TwoParts(a, b);
    OnePart(c);
  }

  lemma {:induction false} ValuesPushed(values: seq<Value>)
    ensures PartsDim(ValueParts(values)) == ValuesDim(values)
  {
    if values != [] {
      ValuesPushed(values[1..]);
      PartsJoin([OfValue(values[0])], ValueParts(values[1..]));
      OnePart(OfValue(values[0]));
    }
  }

  lemma {:induction false} MembersPushed(members: seq<Member>)
    ensures PartsDim(MemberParts(members)) == MembersDim(members)
  {
    if members != [] {
      MembersPushed(members[1..]);
      PartsJoin([OfValue(members[0].value)], MemberParts(members[1..]));
      OnePart(OfValue(members[0].value));
    }
  }

  lemma {:induction false} BranchesPushed(branches: seq<Branch>)
    ensures PartsDim(BranchParts(branches)) == BranchesDim(branches)
  {
    if branches != [] {
      var when, result := OfPredicate(branches[0].condition), OfExpr(branches[0].result);
      BranchesPushed(branches[1..]);
      PartsJoin([when, result], BranchParts(branches[1..]));
      TwoParts(when, result);
    }
  }

  lemma {:induction false} PredicatesPushed(guards: seq<Predicate>)
    ensures PartsDim(PredicateParts(guards)) == PredicatesDim(guards)
  {
    if guards != [] {
      PredicatesPushed(guards[1..]);
      PartsJoin([OfPredicate(guards[0])], PredicateParts(guards[1..]));
      OnePart(OfPredicate(guards[0]));
    }
  }

  lemma {:induction false} InputsPushed(inputs: seq<Input>)
    ensures PartsDim(InputParts(inputs)) == InputsDim(inputs)
  {
    if inputs != [] {
      InputsPushed(inputs[1..]);
      PartsJoin([OfInput(inputs[0])], InputParts(inputs[1..]));
      OnePart(OfInput(inputs[0]));
    }
  }

  lemma {:induction false} ProjectionsPushed(projections: seq<Projection>)
    ensures PartsDim(ProjectionParts(projections)) == ProjectionsDim(projections)
  {
    if projections != [] {
      ProjectionsPushed(projections[1..]);
      if projections[0].Calculated? {
        PartsJoin([OfExpr(projections[0].expr)], ProjectionParts(projections[1..]));
        OnePart(OfExpr(projections[0].expr));
      } else {
        assert ProjectionParts(projections) == ProjectionParts(projections[1..]);
      }
    }
  }

  lemma {:induction false} StepsPushed(steps: seq<Step>)
    ensures PartsDim(StepParts(steps)) == StepsDim(steps)
  {
    if steps != [] {
      StepsPushed(steps[1..]);
      PartsJoin([OfStep(steps[0])], StepParts(steps[1..]));
      OnePart(OfStep(steps[0]));
    }
  }

  lemma {:induction false} EntriesPushed(entries: seq<Entry>)
    ensures PartsDim(EntryParts(entries)) == EntriesDim(entries)
  {
    if entries != [] {
      EntriesPushed(entries[1..]);
      PartsJoin([OfEntry(entries[0])], EntryParts(entries[1..]));
      OnePart(OfEntry(entries[0]));
    }
  }

  lemma BoundPushed(bound: Bound)
    ensures PartsDim(BoundParts(bound)) == BoundDim(bound)
  {
    if bound.Evaluated? {
      OnePart(OfExpr(bound.expr));
    }
  }

  lemma GuardPushed(guard: Option<Predicate>)
    ensures PartsDim(GuardParts(guard)) == GuardDim(guard)
  {
    if guard.Some? {
      OnePart(OfPredicate(guard.value));
    }
  }

  lemma SearchPushed(tenant: Option<Input>, query: Input, k: Bound)
    ensures PartsDim(SearchParts(tenant, query, k)) == SearchDim(tenant, query, k)
  {
    hide PartsDim, InputDim, BoundDim, BoundParts;
    BoundPushed(k);
    OnePart(OfInput(query));
    if tenant.Some? {
      TwoParts(OfInput(tenant.value), OfInput(query));
      PartsJoin([OfInput(tenant.value), OfInput(query)], BoundParts(k));
      assert SearchParts(tenant, query, k) == [OfInput(tenant.value), OfInput(query)] + BoundParts(k);
    } else {
      PartsJoin([OfInput(query)], BoundParts(k));
      assert SearchParts(tenant, query, k) == [OfInput(query)] + BoundParts(k);
    }
  }

  /** A step with one input and a group of embedded parts. */
  lemma InputThen(input: Step, rest: seq<Part>)
    ensures PartsDim([OfStep(input)] + rest) == Beside(StepDim(input), PartsDim(rest))
  {
    OnePart(OfStep(input));
    PartsJoin([OfStep(input)], rest);
  }

  lemma RangePushed(input: Step, start: Bound, end: Bound)
    ensures PartsDim([OfStep(input)] + BoundParts(start) + BoundParts(end))
         == Beside(StepDim(input), Beside(BoundDim(start), BoundDim(end)))
  {
    hide PartsDim, BoundParts, BoundDim, StepDim;
    BoundPushed(start);
    BoundPushed(end);
    InputThen(input, BoundParts(start));
    PartsJoin([OfStep(input)] + BoundParts(start), BoundParts(end));
  }

  lemma AddNPushed(prior: Option<Step>, properties: seq<Input>)
    ensures StepDim(AddN(prior, properties)) == Under(PartsDim(PriorParts(prior) + InputParts(properties)))
  {
    InputsPushed(properties);
    if prior.Some? {
      InputThen(prior.value, InputParts(properties));
    } else {
      assert PriorParts(prior) + InputParts(properties) == InputParts(properties);
    }
  }

  lemma RepeatPushed(input: Step, body: Step, until: Option<Predicate>, emit: Option<Predicate>)
    ensures PartsDim([OfStep(input), OfStep(body)] + (GuardParts(until) + GuardParts(emit)))
         == Beside(Beside(StepDim(input), StepDim(body)), Beside(GuardDim(until), GuardDim(emit)))
  {
    hide PartsDim, GuardParts, GuardDim, StepDim;
    TwoParts(OfStep(input), OfStep(body));
    GuardPushed(until);
    GuardPushed(emit);
    PartsJoin(GuardParts(until), GuardParts(emit));
    PartsJoin([OfStep(input), OfStep(body)], GuardParts(until) + GuardParts(emit));
  }

  lemma ChoosePushed(input: Step, condition: Predicate, onTrue: Step, onFalse: Option<Step>)
    ensures StepDim(Choose(input, condition, onTrue, onFalse))
         == Under(PartsDim([OfStep(input), OfPredicate(condition), OfStep(onTrue)] + PriorParts(onFalse)))
  {
    hide PartsDim, PredicateDim;
    var three := [OfStep(input), OfPredicate(condition), OfStep(onTrue)];
    ThreeParts(OfStep(input), OfPredicate(condition), OfStep(onTrue));
    if onFalse.Some? {
      PartsJoin(three, [OfStep(onFalse.value)]);
      OnePart(OfStep(onFalse.value));
    } else {
      assert three + PriorParts(onFalse) == three;
    }
  }

  lemma SmallStepPushed(s: Step)
    requires s.Source? || s.Filtered? || s.Unary? || s.Detached? || s.Valued? || s.Where? || s.Assigned? || s.Optional?
    ensures StepDim(s) == Under(PartsDim(StepChildren(s)))
  {
    hide PartsDim, PredicateDim, InputDim, ValueDim;
    match s
    case Source(_) => NoParts();
    case Filtered(_, guard) => OnePart(OfPredicate(guard));
    case Unary(_, input) => OnePart(OfStep(input));
    case Detached(_, prior) =>
      NoParts();
      if prior.Some? { OnePart(OfStep(prior.value)); }
    case Valued(_, input, value) => TwoParts(OfStep(input), OfValue(value));
    case Where(input, guard) => TwoParts(OfStep(input), OfPredicate(guard));
    case Assigned(_, input, assignment) => TwoParts(OfStep(input), OfInput(assignment));
    case Optional(input, body) => TwoParts(OfStep(input), OfStep(body));
  }

  lemma StepPushed(s: Step)
    ensures StepDim(s) == Under(PartsDim(StepChildren(s)))
  {
    hide PartsDim, SearchDim, SearchParts, BoundParts, BoundDim, InputsDim, StepsDim, ProjectionsDim;
    hide InputParts, StepParts, ProjectionParts;
    match s
    case Search(_, tenant, query, k) => SearchPushed(tenant, query, k);
    case SearchWithin(_, input, tenant, query, k) =>
      SearchPushed(tenant, query, k);
      InputThen(input, SearchParts(tenant, query, k));
    case Bounded(_, input, bound) =>
      BoundPushed(bound);
      InputThen(input, BoundParts(bound));
    case Range(input, start, end) => RangePushed(input, start, end);
    case Project(input, projections) =>
      ProjectionsPushed(projections);
      InputThen(input, ProjectionParts(projections));
    case AddN(prior, properties) => AddNPushed(prior, properties);
    case AddE(input, properties) =>
      InputsPushed(properties);
      InputThen(input, InputParts(properties));
    case Repeat(input, body, until, emit) => RepeatPushed(input, body, until, emit);
    case Branching(_, input, traversals) =>
      StepsPushed(traversals);
      InputThen(input, StepParts(traversals));
    case Choose(input, condition, onTrue, onFalse) => ChoosePushed(input, condition, onTrue, onFalse);
    case _ => SmallStepPushed(s);
  }

  lemma NoParts()
    ensures PartsDim([]) == NOTHING
  {
  }

  lemma PredicatePushed(p: Predicate)
    ensures PredicateDim(p) == Under(PartsDim(PredicateChildren(p)))
  {
    match p
    case Pair(_, left, right) => TwoParts(OfExpr(left), OfExpr(right));
    case Between(value, min, max) => ThreeParts(OfExpr(value), OfExpr(min), OfExpr(max));
    case Junction(_, guards) => PredicatesPushed(guards);
    case Not(guard) => OnePart(OfPredicate(guard));
    case OnKey(_) =>
  }

  lemma ExprPushed(e: Expr)
    ensures ExprDim(e) == Under(PartsDim(ExprChildren(e)))
  {
    match e
    case Binary(_, left, right) => TwoParts(OfExpr(left), OfExpr(right));
    case Neg(expr) => OnePart(OfExpr(expr));
    case Case(branches, otherwise) =>
      BranchesPushed(branches);
      if otherwise.Some? {
        OnePart(OfExpr(otherwise.value));
        PartsJoin(BranchParts(branches), [OfExpr(otherwise.value)]);
      } else {
        assert ExprChildren(e) == BranchParts(branches);
      }
    case Constant(value) => OnePart(OfValue(value));
    case Atom(_) =>
  }

  /**
   What the walk pushes below any part is that part without its own level: its
   height comes from the pushed parts, and its size says each is pushed once.
   */
  lemma ChildrenArePushed(part: Part)
    ensures PartDim(part) == Under(PartsDim(Children(part)))
  {
    match part
    case OfEntry(Query(_, root, _)) => OnePart(OfStep(root));
    case OfEntry(ForEach(_, body)) => EntriesPushed(body);
    case OfStep(step) => StepPushed(step);
    case OfPredicate(guard) => PredicatePushed(guard);
    case OfExpr(expr) => ExprPushed(expr);
    case OfInput(Literal(value)) => OnePart(OfValue(value));
    case OfInput(Computed(expr)) => OnePart(OfExpr(expr));
    case OfValue(Array(values)) => ValuesPushed(values);
    case OfValue(Object(members)) => MembersPushed(members);
    case OfValue(Scalar(_)) =>
  }

  // ---------------------------------------------------------------------
  // The walk

  datatype Pending = Pending(part: Part, depth: nat)

  function At(parts: seq<Part>, depth: nat): (pending: seq<Pending>)
    ensures |pending| == |parts|
    ensures forall i | 0 <= i < |parts| :: pending[i] == Pending(parts[i], depth)
  {
    seq(|parts|, i requires 0 <= i < |parts| => Pending(parts[i], depth))
  }

  function PendingSize(pending: seq<Pending>): (n: nat)
  {
    if pending == [] then 0 else PendingSize(pending[..|pending| - 1]) + PartDim(pending[|pending| - 1].part).size
  }

  /** No pending part reaches below the last allowed level. */
  ghost predicate Fits(pending: seq<Pending>, maximum: nat) {
    forall i | 0 <= i < |pending| :: PartFits(pending[i], maximum)
  }

  predicate PartFits(pending: Pending, maximum: nat) {
    pending.depth + PartDim(pending.part).height <= maximum + 1
  }

  lemma OnePending(pending: seq<Pending>, next: Pending)
    ensures PendingSize(pending + [next]) == PendingSize(pending) + PartDim(next.part).size
  {
    hide PartDim;
    assert (pending + [next])[..|pending|] == pending;
  }

  lemma {:induction false} SizePushed(pending: seq<Pending>, parts: seq<Part>, depth: nat)
    ensures PendingSize(pending + At(parts, depth)) == PendingSize(pending) + PartsDim(parts).size
    decreases |parts|
  {
    hide PartDim, PartsDim, PendingSize;
    if parts == [] {
      NoParts();
      assert pending + At(parts, depth) == pending;
      return;
    }
    var front, last := parts[..|parts| - 1], parts[|parts| - 1];
    SizePushed(pending, front, depth);
    assert pending + At(parts, depth) == pending + At(front, depth) + [Pending(last, depth)];
    OnePending(pending + At(front, depth), Pending(last, depth));
    assert parts == front + [last];
    PartsJoin(front, [last]);
    OnePart(last);
  }

  lemma {:induction false} HeightBounds(parts: seq<Part>, n: nat)
    ensures PartsDim(parts).height <= n <==> forall i | 0 <= i < |parts| :: PartDim(parts[i]).height <= n
  {
    if parts != [] {
      HeightBounds(parts[1..], n);
      assert forall i | 0 <= i < |parts| - 1 :: parts[1..][i] == parts[i + 1];
      assert forall i | 1 <= i < |parts| :: parts[i] == parts[1..][i - 1];
    }
  }

  /** Popping a part and pushing what is below it keeps whether the pending parts fit. */
  lemma FitsBelow(pending: seq<Pending>, part: Part, depth: nat, maximum: nat)
    requires depth <= maximum
    ensures Fits(pending + [Pending(part, depth)], maximum) <==> Fits(pending + At(Children(part), depth + 1), maximum)
  {
    hide PartDim, PartsDim, Children;
    var children := Children(part);
    ChildrenArePushed(part);
    HeightBounds(children, maximum - depth);
    var pushed, popped := pending + At(children, depth + 1), pending + [Pending(part, depth)];
    assert popped[|pending|] == Pending(part, depth);
    assert forall i | 0 <= i < |pending| :: popped[i] == pending[i] == pushed[i];
    assert forall i | 0 <= i < |children| :: pushed[|pending| + i] == Pending(children[i], depth + 1);
    assert PartFits(Pending(part, depth), maximum) <==>
           forall i | 0 <= i < |children| :: PartDim(children[i]).height <= maximum - depth;
  }

  /** `within`: whether no root nests more than `maximum` levels deep. */
  method Within(roots: seq<Part>, maximum: nat) returns (ok: bool)
    ensures ok <==> forall i | 0 <= i < |roots| :: PartDim(roots[i]).height <= maximum
  {
    hide PartDim, Children;
    var pending := At(roots, 1);
    assert Fits(pending, maximum) <==> forall i | 0 <= i < |roots| :: PartDim(roots[i]).height <= maximum by {
      assert forall i | 0 <= i < |roots| :: PartFits(pending[i], maximum) <==> PartDim(roots[i]).height <= maximum;
    }
    while pending != []
      invariant Fits(pending, maximum) <==> forall i | 0 <= i < |roots| :: PartDim(roots[i]).height <= maximum
      decreases PendingSize(pending)
    {
      var next := pending[|pending| - 1];
      if next.depth > maximum {
        assert !PartFits(pending[|pending| - 1], maximum);
        return false;
      }
      var rest := pending[..|pending| - 1];
      assert pending == rest + [next];
      FitsBelow(rest, next.part, next.depth, maximum);
      SizePushed(rest, Children(next.part), next.depth + 1);
      ChildrenArePushed(next.part);
      pending := rest + At(Children(next.part), next.depth + 1);
    }
    return true;
  }

  // ---------------------------------------------------------------------
  // The levels the comment on `within` counts

  /** Entries, steps, predicates, expressions and list or map values; not inputs or scalars. */
  predicate Counts(part: Part) {
    !part.OfInput? && !(part.OfValue? && part.value.Scalar?)
  }

  /** The height in levels that the comment counts. */
  function Documented(part: Part): (levels: nat)
    decreases PartDim(part).size, 0
  {
    ChildrenArePushed(part);
    (if Counts(part) then 1 else 0) + DocumentedBelow(Children(part))
  }

  function DocumentedBelow(parts: seq<Part>): (levels: nat)
    decreases PartsDim(parts).size, 1
  {
    if parts == [] then 0 else
    var first, rest := Documented(parts[0]), DocumentedBelow(parts[1..]);
    if first < rest then rest else first
  }

  lemma NothingDocumented()
    ensures DocumentedBelow([]) == 0
  {
  }

  lemma OneDocumented(part: Part)
    ensures DocumentedBelow([part]) == Documented(part)
  {
    hide Documented;
    assert [part][1..] == [];
    NothingDocumented();
  }

  /** How many levels on one path the comment leaves out: a scalar at its end, and an input on the way. */
  function Uncounted(part: Part): (n: nat)
  {
    if part.OfValue? || part.OfExpr? || part.OfPredicate? then 1 else 2
  }

  /** A part and those below it leave out no more than it. */
  lemma UncountedBelow(part: Part, i: nat)
    requires i < |Children(part)|
    ensures Uncounted(Children(part)[i]) + (if Counts(part) then 0 else 1) <= Uncounted(part)
  {
    hide StepChildren;
  }

  lemma {:induction false} DocumentedBelowBounds(parts: seq<Part>, slack: nat)
    requires forall i | 0 <= i < |parts| :: Uncounted(parts[i]) <= slack
    ensures DocumentedBelow(parts) <= PartsDim(parts).height <= DocumentedBelow(parts) + slack
    decreases PartsDim(parts).size, 1
  {
    hide PartDim, Documented, Uncounted;
    if parts != [] {
      var rest := parts[1..];
      assert forall i | 0 <= i < |rest| :: rest[i] == parts[i + 1];
      DocumentedBounds(parts[0]);
      DocumentedBelowBounds(rest, slack);
    }
  }

  /** The code's height is at least the documented one and at most two levels more. */
  lemma {:induction false} DocumentedBounds(part: Part)
    ensures Documented(part) <= PartDim(part).height <= Documented(part) + Uncounted(part)
    decreases PartDim(part).size, 0
  {
    hide PartDim, PartsDim, DocumentedBelow;
    var children := Children(part);
    ChildrenArePushed(part);
    if children == [] {
      NoParts();
      NothingDocumented();
      return;
    }
    forall i | 0 <= i < |children|
      ensures Uncounted(children[i]) + (if Counts(part) then 0 else 1) <= Uncounted(part)
    {
      UncountedBelow(part, i);
    }
    assert Uncounted(children[0]) + (if Counts(part) then 0 else 1) <= Uncounted(part);
    DocumentedBelowBounds(children, Uncounted(part) - if Counts(part) then 0 else 1);
  }

  /** The two bounds are met: one step is one level either way, and a step that sets a scalar is three and one. */
  lemma DocumentedDiffers(source: SourceKind, scalar: ScalarKind)
    ensures var part := OfStep(Step.Source(source)); Documented(part) == PartDim(part).height == 1
    ensures var part := OfStep(AddN(None, [Literal(Scalar(scalar))]));
            Documented(part) == 1 && PartDim(part).height == 3
  {
    hide DocumentedBelow, PartsDim, PartDim;
    NothingDocumented();
    NoParts();
    ChildrenArePushed(OfStep(Step.Source(source)));
    var value, input := OfValue(Scalar(scalar)), OfInput(Literal(Scalar(scalar)));
    var inputs := [Literal(Scalar(scalar))];
    assert Children(OfStep(AddN(None, inputs))) == [input] by {
      assert inputs[1..] == [];
      assert InputParts(inputs) == [input] + InputParts([]);
      assert PriorParts(None) == [];
    }
    ChildrenArePushed(value);
    ChildrenArePushed(input);
    ChildrenArePushed(OfStep(AddN(None, inputs)));
    OnePart(value);
    OnePart(input);
    OneDocumented(value);
    OneDocumented(input);
  }
}
