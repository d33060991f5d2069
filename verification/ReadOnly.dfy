/** Read safety of a traversal: the recursive check, and what it means over everything nested below the root. */
module ReadOnly {
  import opened Wrappers
  import opened Syntax
  import opened Nesting

  /** The steps that change persistent graph or index state. */
  predicate Mutates(s: Step) {
    match s
    case Source(kind) => kind.CreateIndex? || kind.DropIndex? || kind.RetryIndexOperation? || kind.AbortIndexOperation?
    case Unary(kind, _) => kind.RemoveProperty? || kind.Drop? || kind.DropEdge? || kind.DropEdgeLabeled?
    case Detached(kind, _) => kind.DropEdgeById?
    case Assigned(kind, _, _) => kind.SetProperty?
    case AddN(_, _) => true
    case AddE(_, _) => true
    case _ => false
  }

  /** `AstNode::is_read_only`. */
  predicate IsReadOnly(s: Step) {
    match s
    case Source(kind) =>
      !(kind.CreateIndex? || kind.DropIndex? || kind.RetryIndexOperation? || kind.AbortIndexOperation?)
    case Filtered(_, _) => true
    case Search(_, _, _, _) => true
    case AddN(_, _) => false
    case AddE(_, _) => false
    case Assigned(kind, input, _) => kind.EdgeHas? && IsReadOnly(input)
    case Detached(kind, prior) => kind.Inject? && (prior.None? || IsReadOnly(prior.value))
    case Unary(kind, input) =>
      !(kind.RemoveProperty? || kind.Drop? || kind.DropEdge? || kind.DropEdgeLabeled?) && IsReadOnly(input)
    case SearchWithin(_, input, _, _, _) => IsReadOnly(input)
    case Valued(_, input, _) => IsReadOnly(input)
    case Where(input, _) => IsReadOnly(input)
    case Bounded(_, input, _) => IsReadOnly(input)
    case Range(input, _, _) => IsReadOnly(input)
    case Project(input, _) => IsReadOnly(input)
    case Repeat(input, body, _, _) => IsReadOnly(input) && IsReadOnly(body)
    case Branching(_, input, traversals) => IsReadOnly(input) && AllReadOnly(traversals)
    case Choose(input, _, onTrue, onFalse) =>
      IsReadOnly(input) && IsReadOnly(onTrue) && (onFalse.None? || IsReadOnly(onFalse.value))
    case Optional(input, body) => IsReadOnly(input) && IsReadOnly(body)
  }

  predicate AllReadOnly(steps: seq<Step>) {
    steps == [] || (IsReadOnly(steps[0]) && AllReadOnly(steps[1..]))
  }

  // ---------------------------------------------------------------------
  // No mutation is nested anywhere below the root

  /** No part reachable from this one through what the nesting walk pushes is a mutation. */
  ghost predicate Clean(part: Part)
    decreases PartDim(part).size, 0
  {
    ChildrenArePushed(part);
    (part.OfStep? ==> !Mutates(part.step)) && AllClean(Children(part))
  }

  ghost predicate AllClean(parts: seq<Part>)
    decreases PartsDim(parts).size, |parts| + 1
  {
    parts == [] || (Clean(parts[0]) && AllClean(parts[1..]))
  }

  /** Parts that are neither entries nor steps. */
  predicate Passive(part: Part) {
    !part.OfEntry? && !part.OfStep?
  }

  predicate AllPassive(parts: seq<Part>) {
    forall i | 0 <= i < |parts| :: Passive(parts[i])
  }

  lemma {:induction false} PassiveLists(values: seq<Value>, members: seq<Member>)
    ensures AllPassive(ValueParts(values)) && AllPassive(MemberParts(members))
    decreases |values| + |members|
  {
    if values != [] {
      PassiveLists(values[1..], members);
    } else if members != [] {
      PassiveLists(values, members[1..]);
    }
  }

  lemma {:induction false} PassiveGuards(guards: seq<Predicate>)
    ensures AllPassive(PredicateParts(guards))
  {
    if guards != [] {
      PassiveGuards(guards[1..]);
    }
  }

  lemma {:induction false} PassiveBranches(branches: seq<Branch>)
    ensures AllPassive(BranchParts(branches))
  {
    if branches != [] {
      PassiveBranches(branches[1..]);
    }
  }

  lemma {:induction false} PassiveInputs(inputs: seq<Input>)
    ensures AllPassive(InputParts(inputs))
  {
    if inputs != [] {
      PassiveInputs(inputs[1..]);
    }
  }

  lemma {:induction false} PassiveProjections(projections: seq<Projection>)
    ensures AllPassive(ProjectionParts(projections))
  {
    if projections != [] {
      PassiveProjections(projections[1..]);
    }
  }

  /** Expressions, predicates and values embed no steps. */
  lemma PassiveBelow(part: Part)
    requires Passive(part)
    ensures AllPassive(Children(part))
  {
    match part
    case OfPredicate(guard) => if guard.Junction? { PassiveGuards(guard.guards); }
    case OfExpr(expr) => if expr.Case? { PassiveBranches(expr.branches); }
    case OfInput(input) =>
    case OfValue(value) =>
      PassiveLists(if value.Array? then value.values else [], if value.Object? then value.members else []);
  }

  lemma {:induction false} PassiveIsClean(part: Part)
    requires Passive(part)
    ensures Clean(part)
    decreases PartDim(part).size, 0
  {
    ChildrenArePushed(part);
    PassiveBelow(part);
    PassiveAreClean(Children(part));
  }

  lemma {:induction false} PassiveAreClean(parts: seq<Part>)
    requires AllPassive(parts)
    ensures AllClean(parts)
    decreases PartsDim(parts).size, |parts| + 1
  {
    if parts != [] {
      PassiveIsClean(parts[0]);
      PassiveAreClean(parts[1..]);
    }
  }

  lemma {:induction false} CleanJoins(a: seq<Part>, b: seq<Part>)
    ensures AllClean(a + b) <==> AllClean(a) && AllClean(b)
  {
    if a == [] {
      assert a + b == b;
    } else {
      assert (a + b)[1..] == a[1..] + b;
      CleanJoins(a[1..], b);
    }
  }

  lemma CleanOne(part: Part)
    ensures AllClean([part]) <==> Clean(part)
  {
    assert [part][1..] == [];
    assert AllClean([]);
  }

  /** A step over one input and parts that embed no steps. */
  lemma CleanOver(input: Step, rest: seq<Part>)
    requires AllPassive(rest)
    ensures AllClean([OfStep(input)] + rest) <==> Clean(OfStep(input))
  {
    CleanOne(OfStep(input));
    PassiveAreClean(rest);
    CleanJoins([OfStep(input)], rest);
  }

  lemma CleanTwo(a: Part, b: Part)
    ensures AllClean([a, b]) <==> Clean(a) && Clean(b)
  {
    assert [a, b] == [a] + [b];
    CleanOne(a);
    CleanOne(b);
    CleanJoins([a], [b]);
  }

  lemma CleanAlone(part: Part)
    ensures Clean(part) <==> (part.OfStep? ==> !Mutates(part.step)) && AllClean(Children(part))
  {
  }

  lemma NothingIsClean()
    ensures AllClean([])
  {
  }

  lemma PassiveSearch(tenant: Option<Input>, query: Input, k: Bound)
    ensures AllPassive(SearchParts(tenant, query, k))
  {
  }

  /** A step that embeds no traversal of its own is clean when it is no mutation and its input is clean. */
  lemma PlainStep(s: Step)
    requires !Mutates(s) && Embedded(s) == []
    ensures Clean(OfStep(s)) <==> InputOf(s).None? || Clean(OfStep(InputOf(s).value))
  {
    hide Clean, AllClean, SearchParts;
    CleanAlone(OfStep(s));
    NothingIsClean();
    match s
    case Source(_) =>
    case Filtered(_, guard) => PassiveAreClean([OfPredicate(guard)]);
    case Search(_, tenant, query, k) =>
      PassiveSearch(tenant, query, k);
      PassiveAreClean(SearchParts(tenant, query, k));
    case SearchWithin(_, input, tenant, query, k) =>
      PassiveSearch(tenant, query, k);
      CleanOver(input, SearchParts(tenant, query, k));
    case Unary(_, input) => CleanOne(OfStep(input));
    case Detached(_, prior) => if prior.Some? { CleanOne(OfStep(prior.value)); }
    case Valued(_, input, value) =>
      CleanOver(input, [OfValue(value)]);
      assert StepChildren(s) == [OfStep(input)] + [OfValue(value)];
    case Where(input, guard) =>
      CleanOver(input, [OfPredicate(guard)]);
      assert StepChildren(s) == [OfStep(input)] + [OfPredicate(guard)];
    case Assigned(_, input, assignment) =>
      CleanOver(input, [OfInput(assignment)]);
      assert StepChildren(s) == [OfStep(input)] + [OfInput(assignment)];
    case Bounded(_, input, bound) => CleanOver(input, BoundParts(bound));
    case Range(input, start, end) =>
      CleanOver(input, BoundParts(start) + BoundParts(end));
      assert StepChildren(s) == [OfStep(input)] + (BoundParts(start) + BoundParts(end));
    case Project(input, projections) =>
      PassiveProjections(projections);
      CleanOver(input, ProjectionParts(projections));
    case Branching(_, input, traversals) => CleanOver(input, []);
  }

  /** The step below a step: what the traversal builder appended it to. */
  function InputOf(s: Step): (r: Option<Step>)
    ensures r.Some? ==> r.value < s
  {
    match s
    case Source(_) => None
    case Filtered(_, _) => None
    case Search(_, _, _, _) => None
    case Detached(_, prior) => prior
    case AddN(prior, _) => prior
    case SearchWithin(_, input, _, _, _) => Some(input)
    case Unary(_, input) => Some(input)
    case Valued(_, input, _) => Some(input)
    case Where(input, _) => Some(input)
    case Assigned(_, input, _) => Some(input)
    case Bounded(_, input, _) => Some(input)
    case Range(input, _, _) => Some(input)
    case Project(input, _) => Some(input)
    case AddE(input, _) => Some(input)
    case Repeat(input, _, _, _) => Some(input)
    case Branching(_, input, _) => Some(input)
    case Choose(input, _, _, _) => Some(input)
    case Optional(input, _) => Some(input)
  }

  /** The roots of the sub-traversals a step embeds. */
  function Embedded(s: Step): (roots: seq<Step>)
    ensures forall i | 0 <= i < |roots| :: roots[i] < s
  {
    match s
    case Repeat(_, body, _, _) => [body]
    case Branching(_, _, traversals) => traversals
    case Choose(_, _, onTrue, None) => [onTrue]
    case Choose(_, _, onTrue, Some(onFalse)) => [onTrue, onFalse]
    case Optional(_, body) => [body]
    case _ => []
  }

  lemma {:induction false} CleanSteps(steps: seq<Step>)
    requires forall i | 0 <= i < |steps| :: Clean(OfStep(steps[i])) <==> IsReadOnly(steps[i])
    ensures AllClean(StepParts(steps)) <==> AllReadOnly(steps)
  {
    if steps != [] {
      CleanSteps(steps[1..]);
      CleanOne(OfStep(steps[0]));
      CleanJoins([OfStep(steps[0])], StepParts(steps[1..]));
    }
  }

  lemma OneReadOnly(s: Step)
    ensures AllReadOnly([s]) <==> IsReadOnly(s)
  {
    assert [s][1..] == [];
    assert AllReadOnly([]);
  }

  /** The recursive check, one step at a time. */
  lemma ReadOnlyStep(s: Step)
    ensures IsReadOnly(s) <==>
            !Mutates(s) && (InputOf(s).None? || IsReadOnly(InputOf(s).value)) && AllReadOnly(Embedded(s))
  {
    match s
    case Repeat(_, body, _, _) => OneReadOnly(body);
    case Optional(_, body) => OneReadOnly(body);
    case Choose(_, _, onTrue, onFalse) =>
      OneReadOnly(onTrue);
      if onFalse.Some? {
        OneReadOnly(onFalse.value);
        assert [onTrue, onFalse.value][1..] == [onFalse.value];
      }
    case _ =>
  }

  /** Cleanness, one step at a time. */
  lemma CleanStep(s: Step)
    ensures Clean(OfStep(s)) <==>
            && !Mutates(s)
            && (InputOf(s).None? || Clean(OfStep(InputOf(s).value)))
            && AllClean(StepParts(Embedded(s)))
  {
    CleanAlone(OfStep(s));
    NothingIsClean();
    if !Mutates(s) && Embedded(s) == [] {
      PlainStep(s);
    } else if !Mutates(s) {
      CleanEmbedding(s);
    }
  }

  lemma CleanEmbedding(s: Step)
    requires Embedded(s) != []
    ensures AllClean(StepChildren(s)) <==>
            Clean(OfStep(InputOf(s).value)) && AllClean(StepParts(Embedded(s)))
  {
    hide Clean, AllClean;
    match s
    case Repeat(input, body, until, emit) =>
      var guards := GuardParts(until) + GuardParts(emit);
      PassiveAreClean(guards);
      CleanTwo(OfStep(input), OfStep(body));
      CleanJoins([OfStep(input), OfStep(body)], guards);
      CleanOne(OfStep(body));
      assert StepParts([body]) == [OfStep(body)];
    case Branching(_, input, traversals) =>
      CleanOne(OfStep(input));
      CleanJoins([OfStep(input)], StepParts(traversals));
    case Choose(input, condition, onTrue, onFalse) => CleanChoice(input, condition, onTrue, onFalse);
    case Optional(input, body) =>
      CleanTwo(OfStep(input), OfStep(body));
      CleanOne(OfStep(body));
      assert StepParts([body]) == [OfStep(body)];
  }

  lemma CleanChoice(input: Step, condition: Predicate, onTrue: Step, onFalse: Option<Step>)
    ensures var s := Choose(input, condition, onTrue, onFalse);
            AllClean(StepChildren(s)) <==> Clean(OfStep(input)) && AllClean(StepParts(Embedded(s)))
  {
    hide Clean, AllClean;
    var s := Choose(input, condition, onTrue, onFalse);
    var front, back := [OfStep(input), OfPredicate(condition)], [OfStep(onTrue)] + PriorParts(onFalse);
    CleanOver(input, [OfPredicate(condition)]);
    assert front == [OfStep(input)] + [OfPredicate(condition)];
    CleanJoins(front, back);
    assert StepChildren(s) == front + back;
    assert StepParts(Embedded(s)) == back by {
      if onFalse.Some? {
        assert [onTrue, onFalse.value][1..] == [onFalse.value];
        assert StepParts([onFalse.value]) == [OfStep(onFalse.value)];
      } else {
        assert StepParts([onTrue]) == [OfStep(onTrue)];
      }
    }
  }

  /**
   `is_read_only` holds exactly when no mutation is nested below the root,
   through inputs or embedded traversals, at any depth.
   */
  lemma {:induction false} ReadOnlyIsClean(s: Step)
    ensures IsReadOnly(s) <==> Clean(OfStep(s))
  {
    hide IsReadOnly, Clean, AllClean, AllReadOnly;
    ReadOnlyStep(s);
    CleanStep(s);
    if InputOf(s).Some? {
      ReadOnlyIsClean(InputOf(s).value);
    }
    var roots := Embedded(s);
    forall i | 0 <= i < |roots|
      ensures Clean(OfStep(roots[i])) <==> IsReadOnly(roots[i])
    {
      ReadOnlyIsClean(roots[i]);
    }
    CleanSteps(roots);
  }

  // ---------------------------------------------------------------------
  // What the builder's type parameter tracks

  /** No mutation among the steps appended one after the other: what a read-only traversal type records. */
  predicate SpineReadOnly(s: Step) {
    !Mutates(s) && (InputOf(s).None? || SpineReadOnly(InputOf(s).value))
  }

  /** The sub-traversals embedded along those steps are read-only. */
  predicate BranchesReadOnly(s: Step) {
    AllReadOnly(Embedded(s)) && (InputOf(s).None? || BranchesReadOnly(InputOf(s).value))
  }

  /** The type covers the appended steps only: the check holds exactly when the embedded roots pass too. */
  lemma {:induction false} SpineAndBranches(s: Step)
    ensures IsReadOnly(s) <==> SpineReadOnly(s) && BranchesReadOnly(s)
  {
    hide IsReadOnly;
    ReadOnlyStep(s);
    if InputOf(s).Some? {
      SpineAndBranches(InputOf(s).value);
    }
  }
}
