/** The Go SDK's fold of a step list into a nested request. */
module GoFold {
  import opened Wrappers

  type Payload = string

  /** A recorded step; `encodable` says whether its payload marshals to an object. */
  datatype Step = Step(kind: string, payload: Payload, encodable: bool)

  datatype Node = Node(name: string, payload: Payload, input: Option<Node>)

  datatype Error = NeedsSource | Unknown(kind: string) | Encoding | NoSteps

  /** How a kind of step treats the request built so far. */
  datatype Role = Starts | MayExtend | Extends | Unheard

  const SOURCES: seq<string> := [
    "N", "NWhere", "ShortestPath", "E", "EWhere", "VectorSearchNodes", "TextSearchNodes", "VectorSearchEdges",
    "TextSearchEdges", "CreateIndex", "DropIndex", "GetIndexOperation", "RetryIndexOperation", "AbortIndexOperation"]

  const DETACHABLE: seq<string> := ["Inject", "AddN", "DropEdgeById"]

  const UNARY: seq<string> := [
    "VectorSearchNodesWithin", "VectorSearchEdgesWithin", "TextSearchNodesWithin", "TextSearchEdgesWithin",
    "Out", "In", "Both", "OutE", "InE", "BothE", "OutN", "InN", "OtherN", "Dedup", "Count", "Exists", "Id", "Label",
    "EdgeProperties", "Fold", "Unfold", "Path", "SimplePath", "SackGet", "Has", "HasLabel", "HasKey", "Where", "Within",
    "Without", "EdgeHas", "EdgeHasLabel", "Limit", "LimitBy", "Skip", "SkipBy", "Range", "RangeBy", "As", "Store",
    "Select", "Bind", "Values", "ValueMap", "Project", "ProjectBindings", "AddE", "SetProperty", "RemoveProperty",
    "Drop", "DropEdge", "DropEdgeLabeled", "OrderBy", "OrderByMultiple", "Repeat", "Union", "Choose", "Coalesce",
    "Optional", "Group", "GroupCount", "AggregateBy", "WithSack", "SackSet", "SackAdd"]

  /** The kinds whose payload is marshalled before it is nested. */
  const MARSHALLED: seq<string> := [
    "ShortestPath", "VectorSearchNodes", "TextSearchNodes", "VectorSearchEdges", "TextSearchEdges",
    "VectorSearchNodesWithin", "VectorSearchEdgesWithin", "TextSearchNodesWithin", "TextSearchEdgesWithin",
    "ProjectBindings", "CreateIndex", "DropIndex", "GetIndexOperation", "RetryIndexOperation", "AbortIndexOperation",
    "AddN", "AddE", "DropEdgeLabeled", "Choose"]

  function RoleOf(kind: string): (r: Role)
  {
    if kind in SOURCES then Starts
    else if kind in DETACHABLE then MayExtend
    else if kind in UNARY then Extends
    else Unheard
  }

  /** The request node a kind becomes. */
  function NameOf(kind: string): (name: string)
  {
    if kind == "N" then "Nodes" else if kind == "NWhere" then "NodesWhere"
    else if kind == "E" then "Edges" else if kind == "EWhere" then "EdgesWhere"
    else if kind == "LimitBy" then "Limit" else if kind == "SkipBy" then "Skip" else if kind == "RangeBy" then "Range"
    else kind
  }

  /** Seven kinds of step are nodes of another name; every other kind is the node's own name. */
  lemma NodeNames(kind: string)
    ensures NameOf("N") == "Nodes" && NameOf("NWhere") == "NodesWhere"
    ensures NameOf("E") == "Edges" && NameOf("EWhere") == "EdgesWhere"
    ensures NameOf("LimitBy") == NameOf("Limit") == "Limit" && NameOf("SkipBy") == NameOf("Skip") == "Skip"
    ensures NameOf("RangeBy") == NameOf("Range") == "Range"
    ensures kind !in {"N", "NWhere", "E", "EWhere", "LimitBy", "SkipBy", "RangeBy"} ==> NameOf(kind) == kind
  {
  }

  /** `Step.ToAST`. */
  function ToAst(s: Step, input: Option<Node>): (r: Result<Node, Error>)
  {
    if RoleOf(s.kind).Unheard? then Err(Unknown(s.kind))
    else if s.kind in MARSHALLED && !s.encodable then Err(Encoding)
    else if RoleOf(s.kind).Starts? then Ok(Node(NameOf(s.kind), s.payload, None))
    else if RoleOf(s.kind).Extends? && input.None? then Err(NeedsSource)
    else Ok(Node(NameOf(s.kind), s.payload, input))
  }

  /** What goes wrong at a step, given only whether something was built before it. */
  function Fault(s: Step, built: bool): (e: Option<Error>)
  {
    if RoleOf(s.kind).Unheard? then Some(Unknown(s.kind))
    else if s.kind in MARSHALLED && !s.encodable then Some(Encoding)
    else if RoleOf(s.kind).Extends? && !built then Some(NeedsSource)
    else None
  }

  function FirstFault(steps: seq<Step>, built: bool): (e: Option<Error>)
  {
    if steps == [] then None
    else if Fault(steps[0], built).Some? then Fault(steps[0], built)
    else FirstFault(steps[1..], true)
  }

  /** Where the spine of the result begins: the last step that ignores what was built, or the front. */
  function LastSource(steps: seq<Step>): (i: nat)
    ensures i <= |steps| && (steps != [] ==> i < |steps|)
  {
    if steps == [] then 0
    else if RoleOf(steps[|steps| - 1].kind).Starts? then |steps| - 1
    else LastSource(steps[..|steps| - 1])
  }

  predicate Restarts(steps: seq<Step>) {
    exists i | 0 <= i < |steps| :: RoleOf(steps[i].kind).Starts?
  }

  datatype Mark = Mark(name: string, payload: Payload)

  /** The steps as the request shows them. */
  function Marks(steps: seq<Step>): (marks: seq<Mark>)
    ensures |marks| == |steps|
    ensures forall i | 0 <= i < |steps| :: marks[i] == Mark(NameOf(steps[i].kind), steps[i].payload)
  {
    seq(|steps|, i requires 0 <= i < |steps| => Mark(NameOf(steps[i].kind), steps[i].payload))
  }

  /** The request read back from its innermost input outwards. */
  function Spine(node: Option<Node>): (marks: seq<Mark>)
  {
    if node.None? then [] else Spine(node.value.input) + [Mark(node.value.name, node.value.payload)]
  }

  /** What the spine should be after some steps. */
  function Kept(steps: seq<Step>, initial: Option<Node>): (marks: seq<Mark>)
  {
    (if Restarts(steps) then [] else Spine(initial)) + Marks(steps[LastSource(steps)..])
  }

  lemma FaultsAgree(s: Step, input: Option<Node>)
    ensures ToAst(s, input).Err? <==> Fault(s, input.Some?).Some?
    ensures ToAst(s, input).Err? ==> Fault(s, input.Some?) == Some(ToAst(s, input).error)
    ensures ToAst(s, input).Ok? ==>
              Spine(Some(ToAst(s, input).value)) ==
              (if RoleOf(s.kind).Starts? then [] else Spine(input)) + [Mark(NameOf(s.kind), s.payload)]
  {
    hide RoleOf, NameOf;
  }

  lemma MarksAppend(steps: seq<Step>, from: nat, s: Step)
    requires from <= |steps|
    ensures Marks((steps + [s])[from..]) == Marks(steps[from..]) + [Mark(NameOf(s.kind), s.payload)]
  {
    hide NameOf;
    assert (steps + [s])[from..] == steps[from..] + [s];
  }

  lemma SourcesAppend(steps: seq<Step>, s: Step)
    ensures Restarts(steps + [s]) <==> Restarts(steps) || RoleOf(s.kind).Starts?
    ensures LastSource(steps + [s]) == if RoleOf(s.kind).Starts? then |steps| else LastSource(steps)
  {
    hide RoleOf;
    var all := steps + [s];
    assert all[..|all| - 1] == steps && all[|steps|] == s;
    assert forall i | 0 <= i < |steps| :: all[i] == steps[i];
  }

  lemma KeptStep(steps: seq<Step>, s: Step, initial: Option<Node>)
    ensures Kept(steps + [s], initial) ==
            (if RoleOf(s.kind).Starts? then [] else Kept(steps, initial)) + [Mark(NameOf(s.kind), s.payload)]
  {
    hide RoleOf, NameOf, Marks, LastSource, Restarts, Spine;
    SourcesAppend(steps, s);
    var from := LastSource(steps + [s]);
    MarksAppend(steps, from, s);
    if RoleOf(s.kind).Starts? {
      assert steps[from..] == [];
      assert Marks([]) == [] by { NoMarks(); }
    }
  }

  lemma NoMarks()
    ensures Marks([]) == []
  {
  }

  lemma {:induction false} FaultAppend(steps: seq<Step>, s: Step, built: bool)
    ensures FirstFault(steps + [s], built) ==
            if FirstFault(steps, built).Some? then FirstFault(steps, built) else Fault(s, built || steps != [])
  {
    hide Fault;
    if steps == [] {
      assert [s][1..] == [];
      assert FirstFault([], true) == None;
    } else {
      assert (steps + [s])[1..] == steps[1..] + [s];
      FaultAppend(steps[1..], s, true);
    }
  }

  lemma {:induction false} FaultOfPrefix(a: seq<Step>, b: seq<Step>, built: bool)
    requires FirstFault(a, built).Some?
    ensures FirstFault(a + b, built) == FirstFault(a, built)
  {
    hide Fault;
    if Fault(a[0], built).None? {
      assert (a + b)[1..] == a[1..] + b;
      FaultOfPrefix(a[1..], b, true);
    }
  }

  /** `stepsToAST`: the request, whose spine is what the steps kept, or the first step's fault. */
  method StepsToAst(steps: seq<Step>, initial: Option<Node>) returns (r: Result<Node, Error>)
    ensures FirstFault(steps, initial.Some?).Some? ==> r == Err(FirstFault(steps, initial.Some?).value)
    ensures FirstFault(steps, initial.Some?).None? && steps == [] && initial.None? ==> r == Err(NoSteps)
    ensures FirstFault(steps, initial.Some?).None? && (steps != [] || initial.Some?) ==>
              r.Ok? && Spine(Some(r.value)) == Kept(steps, initial)
  {
    hide Fault, ToAst, RoleOf, NameOf, Spine, Kept, FirstFault;
    var root := initial;
    NothingKept(initial);
    for i := 0 to |steps|
      invariant FirstFault(steps[..i], initial.Some?) == None
      invariant root.Some? <==> initial.Some? || i > 0
      invariant Spine(root) == Kept(steps[..i], initial)
    {
      assert steps[..i + 1] == steps[..i] + [steps[i]];
      FaultAppend(steps[..i], steps[i], initial.Some?);
      FaultsAgree(steps[i], root);
      var next := ToAst(steps[i], root);
      if next.Err? {
        assert steps == steps[..i + 1] + steps[i + 1..];
        FaultOfPrefix(steps[..i + 1], steps[i + 1..], initial.Some?);
        return Err(next.error);
      }
      KeptStep(steps[..i], steps[i], initial);
      root := Some(next.value);
    }
    assert steps[..|steps|] == steps;
    if root.None? {
      return Err(NoSteps);
    }
    return Ok(root.value);
  }

  lemma NothingKept(initial: Option<Node>)
    ensures Kept([], initial) == Spine(initial)
    ensures FirstFault([], initial.Some?) == None
  {
    assert Spine(initial) + [] == Spine(initial);
  }

  predicate Sound(s: Step) {
    !RoleOf(s.kind).Unheard? && (s.kind in MARSHALLED ==> s.encodable)
  }

  lemma {:induction false} FaultlessIff(steps: seq<Step>, built: bool)
    ensures FirstFault(steps, built).None? <==>
            && (forall i | 0 <= i < |steps| :: Sound(steps[i]))
            && (steps != [] && !built ==> !RoleOf(steps[0].kind).Extends?)
  {
    hide RoleOf;
    if steps != [] {
      FaultlessIff(steps[1..], true);
      assert forall i | 1 <= i < |steps| :: steps[i] == steps[1..][i - 1];
      assert forall i | 0 <= i < |steps| - 1 :: steps[1..][i] == steps[i + 1];
    }
  }

  /** With no initial input, the fold succeeds exactly on a nonempty list of known steps whose first needs no input. */
  lemma FoldSucceedsIff(steps: seq<Step>)
    ensures steps != [] && FirstFault(steps, false).None? <==>
            && steps != [] && (forall i | 0 <= i < |steps| :: Sound(steps[i]))
            && !RoleOf(steps[0].kind).Extends?
  {
    hide RoleOf, Sound, FirstFault;
    FaultlessIff(steps, false);
  }

  /** The spine is then exactly the suffix of the steps from the last source step, or all of them. */
  lemma SpineIsSuffix(steps: seq<Step>)
    ensures Kept(steps, None) == Marks(steps[LastSource(steps)..])
    ensures forall i | LastSource(steps) < i < |steps| :: !RoleOf(steps[i].kind).Starts?
    ensures Restarts(steps) ==> steps != [] && RoleOf(steps[LastSource(steps)].kind).Starts?
    ensures !Restarts(steps) ==> LastSource(steps) == 0
  {
    hide RoleOf, NameOf, Marks, LastSource, Restarts;
    LastSourceIsLast(steps);
    var marks := Marks(steps[LastSource(steps)..]);
    assert [] + marks == marks;
  }

  lemma {:induction false} LastSourceIsLast(steps: seq<Step>)
    ensures forall i | LastSource(steps) < i < |steps| :: !RoleOf(steps[i].kind).Starts?
    ensures Restarts(steps) ==> steps != [] && RoleOf(steps[LastSource(steps)].kind).Starts?
    ensures !Restarts(steps) ==> LastSource(steps) == 0
  {
    hide RoleOf;
    if steps != [] && !RoleOf(steps[|steps| - 1].kind).Starts? {
      var front := steps[..|steps| - 1];
      LastSourceIsLast(front);
      assert forall i | 0 <= i < |front| :: front[i] == steps[i];
    }
  }
}
