/**
 The request syntax, grouped by the shape of what each form embeds. Payloads
 that hold no nested part (labels, names, literals) are dropped.
 */
module Syntax {
  import opened Wrappers

  datatype ScalarKind =
    | Null | Bool | I64 | DateTime | F64 | F32 | String | Bytes
    | I64Array | F64Array | F32Array | StringArray

  datatype Value = Scalar(scalar: ScalarKind) | Array(values: seq<Value>) | Object(members: seq<Member>)

  datatype Member = Member(key: string, value: Value)

  datatype Operator = Add | Sub | Mul | Div | Mod

  datatype AtomKind = Property | Id | Timestamp | DateTimeNow | Param

  datatype Expr =
    | Binary(operator: Operator, left: Expr, right: Expr)
    | Neg(expr: Expr)
    | Case(branches: seq<Branch>, otherwise: Option<Expr>)
    | Constant(value: Value)
    | Atom(atom: AtomKind)

  datatype Branch = Branch(condition: Predicate, result: Expr)

  datatype PairKind =
    | Eq | Neq | Gt | Gte | Lt | Lte | Compare | StartsWith | EndsWith | Contains | IsIn

  datatype JunctionKind = And | Or

  datatype KeyKind = HasKey | IsNull | IsNotNull

  datatype Predicate =
    | Pair(pair: PairKind, left: Expr, right: Expr)
    | Between(value: Expr, min: Expr, max: Expr)
    | Junction(junction: JunctionKind, guards: seq<Predicate>)
    | Not(guard: Predicate)
    | OnKey(onKey: KeyKind)

  datatype Input = Literal(value: Value) | Computed(expr: Expr)

  datatype Bound = Fixed(count: nat) | Evaluated(expr: Expr)

  datatype Projection = Renamed(name: string) | Calculated(expr: Expr)

  datatype SourceKind =
    | Context | Nodes | Edges | CreateIndex | DropIndex | GetIndexOperation
    | RetryIndexOperation | AbortIndexOperation | ShortestPath

  datatype FilteredKind = NodesWhere | EdgesWhere

  datatype SearchKind = VectorSearchNodes | TextSearchNodes | VectorSearchEdges | TextSearchEdges

  datatype UnaryKind =
    | Out | In | Both | OutE | InE | BothE | OutN | InN | OtherN | HasLabel | HasKeyOf | Dedup
    | WithinVariable | WithoutVariable | EdgeHasLabel | As | Store | Select | Bind | Count | Exists
    | IdOf | LabelOf | Values | ValueMap | ProjectBindings | EdgeProperties | RemoveProperty | Drop
    | DropEdge | DropEdgeLabeled | OrderBy | OrderByMultiple | Group | GroupCount | AggregateBy
    | Fold | Unfold | Path | SimplePath | SackSet | SackAdd | SackGet

  datatype DetachedKind = Inject | DropEdgeById

  datatype ValuedKind = Has | WithSack

  datatype AssignedKind = EdgeHas | SetProperty

  datatype BoundedKind = Limit | Skip

  datatype BranchingKind = Union | Coalesce

  datatype Step =
    | Source(source: SourceKind)
    | Filtered(filtered: FilteredKind, guard: Predicate)
    | Search(search: SearchKind, tenant: Option<Input>, query: Input, k: Bound)
    | SearchWithin(search: SearchKind, input: Step, tenant: Option<Input>, query: Input, k: Bound)
    | Unary(unary: UnaryKind, input: Step)
    | Detached(detached: DetachedKind, prior: Option<Step>)
    | Valued(valued: ValuedKind, input: Step, value: Value)
    | Where(input: Step, guard: Predicate)
    | Assigned(assigns: AssignedKind, input: Step, assignment: Input)
    | Bounded(bounded: BoundedKind, input: Step, bound: Bound)
    | Range(input: Step, start: Bound, end: Bound)
    | Project(input: Step, projections: seq<Projection>)
    | AddN(prior: Option<Step>, properties: seq<Input>)
    | AddE(input: Step, properties: seq<Input>)
    | Repeat(input: Step, body: Step, until: Option<Predicate>, emit: Option<Predicate>)
    | Branching(branching: BranchingKind, input: Step, traversals: seq<Step>)
    | Choose(input: Step, condition: Predicate, onTrue: Step, onFalse: Option<Step>)
    | Optional(input: Step, body: Step)

  datatype Condition =
    | VarNotEmpty(name: string)
    | VarEmpty(name: string)
    | VarMinSize(name: string, size: nat)
    | PrevNotEmpty

  datatype Entry =
    | Query(name: Option<string>, root: Step, condition: Option<Condition>)
    | ForEach(param: string, body: seq<Entry>)
}
