/** The schema of the repository's own request types. */
module RequestSchema {
  import opened Wrappers
  import opened Schema
  import opened OwnedReader
  import opened MirrorReader
  import opened ArenaReader
  import opened ArenaAgreement
  import opened ArenaGaps
  import opened ArenaContract
  import opened WireForm
  import opened FittingSchema

  // ---------------------------------------------------------------------
  // Fields and field lists that several variants share

  const INPUT: FittingField := Needs("input", Boxed(Path("AstNode")))
  const PRIOR: FittingField := Fills("input", Opt(Boxed(Path("AstNode"))))
  const LABEL: FittingField := Needs("label", Str)
  const MAYBE_LABEL: FittingField := Fills("label", Opt(Str))
  const PROPERTY: FittingField := Needs("property", Str)
  const TENANT: FittingField := Fills("tenant_value", Opt(Path("PropertyInput")))
  const TENANT_PROPERTY: FittingField := Fills("tenant_property", Opt(Str))
  const TOP: FittingField := Needs("k", Path("StreamBound"))
  const LEFT: FittingField := Needs("left", Path("Expr"))
  const RIGHT: FittingField := Needs("right", Path("Expr"))
  const BOXED_LEFT: FittingField := Needs("left", Boxed(Path("Expr")))
  const BOXED_RIGHT: FittingField := Needs("right", Boxed(Path("Expr")))
  const VALUE: FittingField := Needs("value", Path("Expr"))

  const STEP: FittingFields := [INPUT]
  const HOP: FittingFields := [INPUT, MAYBE_LABEL]
  const LABELLED: FittingFields := [INPUT, LABEL]
  const BY_PROPERTY: FittingFields := [INPUT, PROPERTY]
  const BY_VARIABLE: FittingFields := [INPUT, Needs("variable", Str)]
  const NAMED: FittingFields := [INPUT, Needs("name", Str)]
  const COUNTED: FittingFields := [INPUT, Needs("count", Path("StreamBound"))]
  const VECTOR_SEARCH: FittingFields := [LABEL, PROPERTY, TENANT, Needs("query_vector", Path("PropertyInput")), TOP]
  const TEXT_SEARCH: FittingFields := [LABEL, PROPERTY, TENANT, Needs("query_text", Path("PropertyInput")), TOP]
  const TEXT_SEARCH_WITHIN: FittingFields :=
    [INPUT, LABEL, PROPERTY, TENANT, Needs("query_text", Path("PropertyInput")), TOP]
  const VECTOR_SEARCH_WITHIN: FittingFields :=
    [INPUT, LABEL, PROPERTY, TENANT, Needs("query_vector", Path("PropertyInput")), TOP]
  const BRANCHES: FittingFields := [INPUT, Needs("traversals", Vector(Path("SubTraversal")))]
  const NEW_EDGE: FittingFields :=
    [INPUT, LABEL, Needs("to", Path("NodeRef")), Needs("properties", Vector(Pair(Str, Path("PropertyInput"))))]
  const CHOICE: FittingFields :=
    [INPUT, Needs("condition", Path("Predicate")), Needs("then_traversal", Path("SubTraversal")),
    Fills("else_traversal", Opt(Path("SubTraversal")))]
  const SIDES: FittingFields := [LEFT, RIGHT]
  const BOXED_SIDES: FittingFields := [BOXED_LEFT, BOXED_RIGHT]
  const OPERATION: FittingFields := [Needs("operation_id", Str)]
  const FILTER: FittingFields := [Needs("predicate", Path("Predicate"))]
  const ON_PROPERTY: FittingFields := [PROPERTY]
  const ALTERNATIVES: FittingFields := [Needs("predicates", Vector(Path("Predicate")))]
  const RANGE_INDEX: FittingFields := [LABEL, PROPERTY, Fills("direction", Path("RangeIndexDirection"))]
  const TEXT_INDEX: FittingFields := [LABEL, PROPERTY, TENANT_PROPERTY]
  const VECTOR_INDEX: FittingFields :=
    [LABEL, PROPERTY, Needs("dimension", Path("NonZeroUsize")), Needs("metric", Path("VectorDistanceMetric")),
    TENANT_PROPERTY]

  // ---------------------------------------------------------------------
  // The types

  function BatchCondition(): (variants: seq<FittingVariant>)
  {
    [
      Wraps("VarNotEmpty", Str),
      Wraps("VarEmpty", Str),
      Tupled("VarMinSize", [Holds(Str), Holds(Path("usize"))]),
      Bare("PrevNotEmpty")
    ]
  }

  function NamedQuery(): (item: FittingItem)
  {
    StructOf([
      Fills("name", Opt(Str)), Needs("root", Path("AstNode")), Fills("condition", Opt(Path("BatchCondition")))])
  }

  function BatchEntry(): (variants: seq<FittingVariant>)
  {
    [
      Wraps("Query", Boxed(Path("NamedQuery"))),
      Shaped("ForEach", [Needs("param", Str), Needs("body", Vector(Path("BatchEntry")))])
    ]
  }

  function ReadBatch(): (item: FittingItem)
  {
    Validated("RawReadBatch", [Needs("entries", Vector(Path("BatchEntry"))), Fills("returns", Vector(Str))])
  }

  function RawReadBatch(): (item: FittingItem)
  {
    StructOf([Needs("entries", Vector(Path("BatchEntry"))), Fills("returns", Vector(Str))])
  }

  function WriteBatch(): (item: FittingItem)
  {
    StructOf([Needs("entries", Vector(Path("BatchEntry"))), Fills("returns", Vector(Str))])
  }

  function BatchQuery(): (variants: seq<FittingVariant>)
  {
    [
      Wraps("Read", Path("ReadBatch")),
      Wraps("Write", Path("WriteBatch"))
    ]
  }

  function Expr1(): (variants: seq<FittingVariant>)
  {
    [
      Wraps("Property", Str),
      Bare("Id"),
      Bare("Timestamp"),
      Bare("DateTimeNow"),
      Wraps("Constant", Path("PropertyValue")),
      Wraps("Param", Str),
      Shaped("Add", BOXED_SIDES),
      Shaped("Sub", BOXED_SIDES),
      Shaped("Mul", BOXED_SIDES),
      Shaped("Div", BOXED_SIDES)
    ]
  }

  function Expr2(): (variants: seq<FittingVariant>)
  {
    [
      Shaped("Mod", BOXED_SIDES),
      Shaped("Neg", [Needs("expr", Boxed(Path("Expr")))]),
      Shaped("Case", [
        Needs("when_then", Vector(Path("WhenThen"))), Fills("else_expr", Opt(Boxed(Path("Expr"))))])
    ]
  }

  function Expr(): (variants: seq<FittingVariant>)
  {
    Expr1() + Expr2()
  }

  function WhenThen(): (item: FittingItem)
  {
    StructOf([Needs("when", Path("Predicate")), Needs("then", Path("Expr"))])
  }

  function StreamBound(): (variants: seq<FittingVariant>)
  {
    [
      Wraps("Literal", Path("usize")),
      Wraps("Expr", Path("Expr"))
    ]
  }

  function CompareOp(): (variants: seq<FittingVariant>)
  {
    [
      Bare("Eq"),
      Bare("Neq"),
      Bare("Gt"),
      Bare("Gte"),
      Bare("Lt"),
      Bare("Lte")
    ]
  }

  function Predicate1(): (variants: seq<FittingVariant>)
  {
    [
      Shaped("Eq", SIDES),
      Shaped("Neq", SIDES),
      Shaped("Gt", SIDES),
      Shaped("Gte", SIDES),
      Shaped("Lt", SIDES),
      Shaped("Lte", SIDES),
      Shaped("Between", [VALUE, Needs("min", Path("Expr")), Needs("max", Path("Expr"))]),
      Shaped("HasKey", ON_PROPERTY),
      Shaped("IsNull", ON_PROPERTY),
      Shaped("IsNotNull", ON_PROPERTY)
    ]
  }

  function Predicate2(): (variants: seq<FittingVariant>)
  {
    [
      Shaped("StartsWith", [VALUE, Needs("prefix", Path("Expr"))]),
      Shaped("EndsWith", [VALUE, Needs("suffix", Path("Expr"))]),
      Shaped("Contains", [VALUE, Needs("substring", Path("Expr"))]),
      Shaped("IsIn", [VALUE, Needs("values", Path("Expr"))]),
      Shaped("And", ALTERNATIVES),
      Shaped("Or", ALTERNATIVES),
      Shaped("Not", [Needs("predicate", Boxed(Path("Predicate")))]),
      Shaped("Compare", [LEFT, Needs("op", Path("CompareOp")), RIGHT])
    ]
  }

  function Predicate(): (variants: seq<FittingVariant>)
  {
    Predicate1() + Predicate2()
  }

  function NodeRef(): (variants: seq<FittingVariant>)
  {
    [
      Bare("All"),
      Copies("Ids", Field("", Vector(Path("NodeId")), false, Copy)),
      Wraps("Var", Str),
      Wraps("Param", Str)
    ]
  }

  function EdgeRef(): (variants: seq<FittingVariant>)
  {
    [
      Bare("All"),
      Copies("Ids", Field("", Vector(Path("EdgeId")), false, Copy)),
      Wraps("Var", Str),
      Wraps("Param", Str)
    ]
  }

  function RangeIndexDirection(): (variants: seq<FittingVariant>)
  {
    [
      Bare("Asc"),
      Bare("Desc")
    ]
  }

  function VectorDistanceMetric(): (variants: seq<FittingVariant>)
  {
    [
      Bare("Cosine"),
      Bare("Euclidean"),
      Bare("Manhattan")
    ]
  }

  function IndexSpec(): (variants: seq<FittingVariant>)
  {
    [
      Shaped("NodeEquality", [LABEL, PROPERTY, Fills("unique", Path("bool"))]),
      Shaped("NodeRange", RANGE_INDEX),
      Shaped("EdgeEquality", [LABEL, PROPERTY]),
      Shaped("EdgeRange", RANGE_INDEX),
      Shaped("NodeVector", VECTOR_INDEX),
      Shaped("NodeText", TEXT_INDEX),
      Shaped("EdgeVector", VECTOR_INDEX),
      Shaped("EdgeText", TEXT_INDEX)
    ]
  }

  function PropertyProjection(): (item: FittingItem)
  {
    StructOf([Needs("source", Str), Needs("alias", Str)])
  }

  function ExprProjection(): (item: FittingItem)
  {
    StructOf([Needs("alias", Str), Needs("expr", Path("Expr"))])
  }

  function Projection(): (variants: seq<FittingVariant>)
  {
    [
      Wraps("Property", Path("PropertyProjection")),
      Wraps("Expr", Path("ExprProjection"))
    ]
  }

  function BindingTarget(): (variants: seq<FittingVariant>)
  {
    [
      Bare("Current"),
      Wraps("Binding", Str)
    ]
  }

  function BindingValueRef(): (item: FittingItem)
  {
    StructOf([Needs("target", Path("BindingTarget")), Needs("source", Str)])
  }

  function BindingProjection(): (variants: seq<FittingVariant>)
  {
    [
      Shaped("Property", [
        Needs("target", Path("BindingTarget")), Needs("source", Str), Needs("alias", Str)]),
      Shaped("Coalesce", [Needs("refs", Vector(Path("BindingValueRef"))), Needs("alias", Str)])
    ]
  }

  function QueryRequestType(): (variants: seq<FittingVariant>)
  {
    [
      Bare("Read"),
      Bare("Write")
    ]
  }

  function SearchConsistency(): (variants: seq<FittingVariant>)
  {
    [
      Bare("Strong"),
      Bare("Eventual")
    ]
  }

  const REQUEST_TYPE: FittingField := Needs("request_type", Path("QueryRequestType"))
  const QUERY_NAME: FittingField := Fills("query_name", Opt(Str))
  const QUERY: FittingField := Needs("query", Path("BatchQuery"))
  const PARAMETERS: FittingField := Field("parameters", Opt(Other("UniqueMap<QueryValue>")), true, Owned)
  const PARAMETER_TYPES: FittingField := Field("parameter_types", Opt(Other("UniqueMap<QueryParamType>")), true, Owned)
  const CONSISTENCY: FittingField := Fills("search_consistency", Opt(Path("SearchConsistency")))

  function RawQueryRequest(): (item: FittingItem)
  {
    StructOf([REQUEST_TYPE, QUERY_NAME, QUERY, PARAMETERS, PARAMETER_TYPES, CONSISTENCY])
  }

  function Order(): (variants: seq<FittingVariant>)
  {
    [
      Bare("Asc"),
      Bare("Desc")
    ]
  }

  function ShortestPathDirection(): (variants: seq<FittingVariant>)
  {
    [
      Bare("Out"),
      Bare("In"),
      Bare("Both")
    ]
  }

  function EmitBehavior(): (variants: seq<FittingVariant>)
  {
    [
      Bare("None"),
      Bare("Before"),
      Bare("After"),
      Bare("All")
    ]
  }

  function AggregateFunction(): (variants: seq<FittingVariant>)
  {
    [
      Bare("Count"),
      Bare("Sum"),
      Bare("Min"),
      Bare("Max"),
      Bare("Mean")
    ]
  }

  function AstNode1(): (variants: seq<FittingVariant>)
  {
    [
      Bare("Context"),
      Shaped("Nodes", [Needs("reference", Path("NodeRef"))]),
      Shaped("NodesWhere", FILTER),
      Shaped("Edges", [Needs("reference", Path("EdgeRef"))]),
      Shaped("EdgesWhere", FILTER)
    ]
  }

  function AstNode2(): (variants: seq<FittingVariant>)
  {
    [
      Shaped("VectorSearchNodes", VECTOR_SEARCH),
      Shaped("TextSearchNodes", TEXT_SEARCH),
      Shaped("VectorSearchEdges", VECTOR_SEARCH),
      Shaped("TextSearchEdges", TEXT_SEARCH),
      Shaped("TextSearchNodesWithin", TEXT_SEARCH_WITHIN)
    ]
  }

  function AstNode3(): (variants: seq<FittingVariant>)
  {
    [
      Shaped("TextSearchEdgesWithin", TEXT_SEARCH_WITHIN),
      Shaped("VectorSearchNodesWithin", VECTOR_SEARCH_WITHIN),
      Shaped("VectorSearchEdgesWithin", VECTOR_SEARCH_WITHIN),
      Shaped("Out", HOP),
      Shaped("In", HOP)
    ]
  }

  function AstNode4(): (variants: seq<FittingVariant>)
  {
    [
      Shaped("Both", HOP),
      Shaped("OutE", HOP),
      Shaped("InE", HOP),
      Shaped("BothE", HOP),
      Shaped("OutN", STEP)
    ]
  }

  function AstNode5(): (variants: seq<FittingVariant>)
  {
    [
      Shaped("InN", STEP),
      Shaped("OtherN", STEP),
      Shaped("Has", [INPUT, PROPERTY, Needs("value", Path("PropertyValue"))]),
      Shaped("HasLabel", LABELLED),
      Shaped("HasKey", BY_PROPERTY)
    ]
  }

  function AstNode6(): (variants: seq<FittingVariant>)
  {
    [
      Shaped("Where", [INPUT, Needs("predicate", Path("Predicate"))]),
      Shaped("Dedup", STEP),
      Shaped("Within", BY_VARIABLE),
      Shaped("Without", BY_VARIABLE),
      Shaped("EdgeHas", [INPUT, PROPERTY, Needs("value", Path("PropertyInput"))])
    ]
  }

  function AstNode7(): (variants: seq<FittingVariant>)
  {
    [
      Shaped("EdgeHasLabel", LABELLED),
      Shaped("Limit", COUNTED),
      Shaped("Skip", COUNTED),
      Shaped("Range", [INPUT, Needs("start", Path("StreamBound")), Needs("end", Path("StreamBound"))]),
      Shaped("As", NAMED)
    ]
  }

  function AstNode8(): (variants: seq<FittingVariant>)
  {
    [
      Shaped("Store", NAMED),
      Shaped("Select", NAMED),
      Shaped("Bind", NAMED),
      Shaped("Inject", [PRIOR, Needs("variable", Str)]),
      Shaped("Count", STEP)
    ]
  }

  function AstNode9(): (variants: seq<FittingVariant>)
  {
    [
      Shaped("Exists", STEP),
      Shaped("Id", STEP),
      Shaped("Label", STEP),
      Shaped("Values", [INPUT, Needs("properties", Vector(Str))]),
      Shaped("ValueMap", [INPUT, Fills("properties", Opt(Vector(Str)))])
    ]
  }

  function AstNode10(): (variants: seq<FittingVariant>)
  {
    [
      Shaped("Project", [INPUT, Needs("projections", Vector(Path("Projection")))]),
      Shaped("ProjectBindings", [
        INPUT, Needs("projections", Vector(Path("BindingProjection"))), Needs("distinct", Path("bool"))]),
      Shaped("EdgeProperties", STEP),
      Shaped("CreateIndex", [Needs("spec", Path("IndexSpec")), Needs("if_not_exists", Path("bool"))]),
      Shaped("DropIndex", [Needs("spec", Path("IndexSpec"))])
    ]
  }

  function AstNode11(): (variants: seq<FittingVariant>)
  {
    [
      Shaped("GetIndexOperation", OPERATION),
      Shaped("RetryIndexOperation", OPERATION),
      Shaped("AbortIndexOperation", OPERATION),
      Shaped("AddN", [PRIOR, LABEL, Needs("properties", Vector(Pair(Str, Path("PropertyInput"))))]),
      Shaped("AddE", NEW_EDGE)
    ]
  }

  function AstNode12(): (variants: seq<FittingVariant>)
  {
    [
      Shaped("SetProperty", [INPUT, Needs("name", Str), Needs("value", Path("PropertyInput"))]),
      Shaped("RemoveProperty", NAMED),
      Shaped("Drop", STEP),
      Shaped("DropEdge", [INPUT, Needs("to", Path("NodeRef"))]),
      Shaped("DropEdgeLabeled", [INPUT, Needs("to", Path("NodeRef")), LABEL])
    ]
  }

  function AstNode13(): (variants: seq<FittingVariant>)
  {
    [
      Shaped("DropEdgeById", [PRIOR, Needs("edges", Path("EdgeRef"))]),
      Shaped("OrderBy", [INPUT, PROPERTY, Needs("order", Path("Order"))]),
      Shaped("OrderByMultiple", [INPUT, Needs("orderings", Vector(Pair(Str, Path("Order"))))]),
      Shaped("Repeat", [INPUT, Needs("config", Path("RepeatConfig"))]),
      Shaped("Union", BRANCHES)
    ]
  }

  function AstNode14(): (variants: seq<FittingVariant>)
  {
    [
      Shaped("Choose", CHOICE),
      Shaped("Coalesce", BRANCHES),
      Shaped("Optional", [INPUT, Needs("traversal", Path("SubTraversal"))]),
      Shaped("Group", BY_PROPERTY),
      Shaped("GroupCount", BY_PROPERTY)
    ]
  }

  function AstNode15(): (variants: seq<FittingVariant>)
  {
    [
      Shaped("AggregateBy", [INPUT, Needs("function", Path("AggregateFunction")), PROPERTY]),
      Shaped("Fold", STEP),
      Shaped("Unfold", STEP),
      Shaped("Path", STEP),
      Shaped("SimplePath", STEP)
    ]
  }

  function AstNode16(): (variants: seq<FittingVariant>)
  {
    [
      Shaped("WithSack", [INPUT, Needs("initial", Path("PropertyValue"))]),
      Shaped("SackSet", BY_PROPERTY),
      Shaped("SackAdd", BY_PROPERTY),
      Shaped("SackGet", STEP),
      Shaped("ShortestPath", [
        Needs("source", Path("NodeRef")), Needs("target", Path("NodeRef")), MAYBE_LABEL,
        Needs("direction", Path("ShortestPathDirection")), Needs("max_depth", Path("usize"))])
    ]
  }

  function AstNode(): (variants: seq<FittingVariant>)
  {
    AstNode1() + AstNode2() + AstNode3() + AstNode4() + AstNode5() + AstNode6() + AstNode7() + AstNode8()
    + AstNode9() + AstNode10() + AstNode11() + AstNode12() + AstNode13() + AstNode14() + AstNode15() + AstNode16()
  }

  function SubTraversal(): (item: FittingItem)
  {
    StructOf([Needs("root", Boxed(Path("AstNode")))])
  }

  const REPEATED: FittingField := Needs("traversal", Path("SubTraversal"))
  const TIMES: FittingField := Fills("times", Opt(Path("usize")))
  const UNTIL: FittingField := Fills("until", Opt(Path("Predicate")))
  const EMIT: FittingField := Needs("emit", Path("EmitBehavior"))
  const EMIT_WHEN: FittingField := Fills("emit_predicate", Opt(Path("Predicate")))
  const MAX_DEPTH: FittingField := Needs("max_depth", Path("usize"))

  function RepeatConfig(): (item: FittingItem)
  {
    StructOf([REPEATED, TIMES, UNTIL, EMIT, EMIT_WHEN, MAX_DEPTH])
  }

  function PropertyValue1(): (variants: seq<FittingVariant>)
  {
    [
      Bare("Null"),
      Wraps("Bool", Path("bool")),
      Wraps("I64", Path("i64")),
      Wraps("DateTime", Path("i64")),
      Wraps("F64", Path("f64")),
      Wraps("F32", Path("f32")),
      Wraps("String", Str),
      Wraps("Bytes", Vector(Path("u8"))),
      Wraps("I64Array", Vector(Path("i64"))),
      Wraps("F64Array", Vector(Path("f64")))
    ]
  }

  function PropertyValue2(): (variants: seq<FittingVariant>)
  {
    [
      Wraps("F32Array", Vector(Path("f32"))),
      Wraps("StringArray", Vector(Str)),
      Wraps("Array", Vector(Path("PropertyValue"))),
      Wraps("Object", BTree(Str, Path("PropertyValue")))
    ]
  }

  function PropertyValue(): (variants: seq<FittingVariant>)
  {
    PropertyValue1() + PropertyValue2()
  }

  function PropertyInput(): (variants: seq<FittingVariant>)
  {
    [
      Wraps("Value", Path("PropertyValue")),
      Wraps("Expr", Path("Expr"))
    ]
  }

  function BatchTypes(): (items: map<string, Item>)
  {
    map[
      "BatchCondition" := EnumOf(BatchCondition()),
      "NamedQuery" := NamedQuery(),
      "BatchEntry" := EnumOf(BatchEntry()),
      "ReadBatch" := ReadBatch(),
      "RawReadBatch" := RawReadBatch(),
      "WriteBatch" := WriteBatch(),
      "BatchQuery" := EnumOf(BatchQuery())
    ]
  }

  function ExpressionTypes(): (items: map<string, Item>)
  {
    map[
      "Expr" := EnumOf(Expr()),
      "WhenThen" := WhenThen(),
      "StreamBound" := EnumOf(StreamBound())
    ]
  }

  function PredicateTypes(): (items: map<string, Item>)
  {
    map[
      "CompareOp" := EnumOf(CompareOp()),
      "Predicate" := EnumOf(Predicate())
    ]
  }

  function ValueTypes(): (items: map<string, Item>)
  {
    map[
      "PropertyValue" := EnumOf(PropertyValue()),
      "PropertyInput" := EnumOf(PropertyInput())
    ]
  }

  function ProjectionTypes(): (items: map<string, Item>)
  {
    map[
      "PropertyProjection" := PropertyProjection(),
      "ExprProjection" := ExprProjection(),
      "Projection" := EnumOf(Projection()),
      "BindingTarget" := EnumOf(BindingTarget()),
      "BindingValueRef" := BindingValueRef(),
      "BindingProjection" := EnumOf(BindingProjection())
    ]
  }

  function QueryTypes(): (items: map<string, Item>)
  {
    map[
      "QueryRequestType" := EnumOf(QueryRequestType()),
      "SearchConsistency" := EnumOf(SearchConsistency()),
      "RawQueryRequest" := RawQueryRequest()
    ]
  }

  function StepTypes(): (items: map<string, Item>)
  {
    map[
      "Order" := EnumOf(Order()),
      "ShortestPathDirection" := EnumOf(ShortestPathDirection()),
      "EmitBehavior" := EnumOf(EmitBehavior()),
      "AggregateFunction" := EnumOf(AggregateFunction())
    ]
  }

  function TraversalTypes(): (items: map<string, Item>)
  {
    map[
      "AstNode" := EnumOf(AstNode()),
      "SubTraversal" := SubTraversal(),
      "RepeatConfig" := RepeatConfig()
    ]
  }

  function GraphTypes(): (items: map<string, Item>)
  {
    map[
      "NodeRef" := EnumOf(NodeRef()),
      "EdgeRef" := EnumOf(EdgeRef()),
      "RangeIndexDirection" := EnumOf(RangeIndexDirection()),
      "VectorDistanceMetric" := EnumOf(VectorDistanceMetric()),
      "IndexSpec" := EnumOf(IndexSpec())
    ]
  }

  function Requests(): (items: map<string, Item>)
  {
    BatchTypes() + ExpressionTypes() + PredicateTypes() + ValueTypes()
    + ProjectionTypes() + QueryTypes() + StepTypes() + TraversalTypes() + GraphTypes()
  }

  // ---------------------------------------------------------------------
  // The derive honours them

  lemma BatchTypesFit(name: string)
    ensures IsBatchType(name) ==> name in BatchTypes()
    ensures name in BatchTypes() ==> ItemFits(BatchTypes()[name])
  {
    hide ItemFits, EnumOf, BatchCondition, NamedQuery, BatchEntry, ReadBatch, RawReadBatch, WriteBatch, BatchQuery;
    assert ItemFits(EnumOf(BatchCondition()));
    assert ItemFits(NamedQuery());
    assert ItemFits(EnumOf(BatchEntry()));
    assert ItemFits(ReadBatch());
    assert ItemFits(RawReadBatch());
    assert ItemFits(WriteBatch());
    assert ItemFits(EnumOf(BatchQuery()));
  }

  lemma ExpressionTypesFit(name: string)
    ensures IsExpressionType(name) ==> name in ExpressionTypes()
    ensures name in ExpressionTypes() ==> ItemFits(ExpressionTypes()[name])
  {
    hide ItemFits, EnumOf, Expr, WhenThen, StreamBound;
    assert ItemFits(EnumOf(Expr()));
    assert ItemFits(WhenThen());
    assert ItemFits(EnumOf(StreamBound()));
  }

  lemma PredicateTypesFit(name: string)
    ensures IsPredicateType(name) ==> name in PredicateTypes()
    ensures name in PredicateTypes() ==> ItemFits(PredicateTypes()[name])
  {
    hide ItemFits, EnumOf, CompareOp, Predicate;
    assert ItemFits(EnumOf(CompareOp()));
    assert ItemFits(EnumOf(Predicate()));
  }

  lemma ValueTypesFit(name: string)
    ensures IsValueType(name) ==> name in ValueTypes()
    ensures name in ValueTypes() ==> ItemFits(ValueTypes()[name])
  {
    hide ItemFits, EnumOf, PropertyValue, PropertyInput;
    assert ItemFits(EnumOf(PropertyValue()));
    assert ItemFits(EnumOf(PropertyInput()));
  }

  lemma ProjectionTypesFit(name: string)
    ensures IsProjectionType(name) ==> name in ProjectionTypes()
    ensures name in ProjectionTypes() ==> ItemFits(ProjectionTypes()[name])
  {
    hide ItemFits, EnumOf, PropertyProjection, ExprProjection, Projection;
    hide BindingTarget, BindingValueRef, BindingProjection;
    assert ItemFits(PropertyProjection());
    assert ItemFits(ExprProjection());
    assert ItemFits(EnumOf(Projection()));
    assert ItemFits(EnumOf(BindingTarget()));
    assert ItemFits(BindingValueRef());
    assert ItemFits(EnumOf(BindingProjection()));
  }

  lemma QueryTypesFit(name: string)
    ensures IsQueryType(name) ==> name in QueryTypes()
    ensures name in QueryTypes() ==> ItemFits(QueryTypes()[name])
  {
    hide ItemFits, EnumOf, QueryRequestType, SearchConsistency, RawQueryRequest;
    assert ItemFits(EnumOf(QueryRequestType()));
    assert ItemFits(EnumOf(SearchConsistency()));
    assert ItemFits(RawQueryRequest());
  }

  lemma StepTypesFit(name: string)
    ensures IsStepType(name) ==> name in StepTypes()
    ensures name in StepTypes() ==> ItemFits(StepTypes()[name])
  {
    hide ItemFits, EnumOf, Order, ShortestPathDirection, EmitBehavior, AggregateFunction;
    assert ItemFits(EnumOf(Order()));
    assert ItemFits(EnumOf(ShortestPathDirection()));
    assert ItemFits(EnumOf(EmitBehavior()));
    assert ItemFits(EnumOf(AggregateFunction()));
  }

  lemma TraversalTypesFit(name: string)
    ensures IsTraversalType(name) ==> name in TraversalTypes()
    ensures name in TraversalTypes() ==> ItemFits(TraversalTypes()[name])
  {
    hide ItemFits, EnumOf, AstNode, SubTraversal, RepeatConfig;
    assert ItemFits(EnumOf(AstNode()));
    assert ItemFits(SubTraversal());
    assert ItemFits(RepeatConfig());
  }

  lemma GraphTypesFit(name: string)
    ensures IsGraphType(name) ==> name in GraphTypes()
    ensures name in GraphTypes() ==> ItemFits(GraphTypes()[name])
  {
    hide ItemFits, EnumOf, NodeRef, EdgeRef, RangeIndexDirection, VectorDistanceMetric, IndexSpec;
    assert ItemFits(EnumOf(NodeRef()));
    assert ItemFits(EnumOf(EdgeRef()));
    assert ItemFits(EnumOf(RangeIndexDirection()));
    assert ItemFits(EnumOf(VectorDistanceMetric()));
    assert ItemFits(EnumOf(IndexSpec()));
  }

  lemma RequestsFit(name: string)
    ensures IsItem(name) ==> name in Requests()
    ensures name in Requests() ==> ItemFits(Requests()[name])
  {
    hide ItemFits;
    hide IsBatchType, IsExpressionType, IsPredicateType, IsValueType, IsProjectionType;
    hide IsQueryType, IsStepType, IsTraversalType, IsGraphType;
    hide BatchTypes, ExpressionTypes, PredicateTypes, ValueTypes;
    hide ProjectionTypes, QueryTypes, StepTypes, TraversalTypes, GraphTypes;
    BatchTypesFit(name);
    ExpressionTypesFit(name);
    PredicateTypesFit(name);
    ValueTypesFit(name);
    ProjectionTypesFit(name);
    QueryTypesFit(name);
    StepTypesFit(name);
    TraversalTypesFit(name);
    GraphTypesFit(name);
  }

  /** The repository's request types, with plain types that refuse an absent value. */
  ghost predicate IsRepository(env: Env) {
    && env.items == Requests()
    && forall name {:trigger env.missing(name)} | name in PLAIN :: env.missing(name) == None
  }

  lemma DirectionIsLeaf()
    ensures "RangeIndexDirection" in Requests() && IsLeaf(Requests()["RangeIndexDirection"])
  {
    hide BatchTypes, ExpressionTypes, PredicateTypes, ValueTypes;
    hide ProjectionTypes, QueryTypes, StepTypes, TraversalTypes;
    hide IndexSpec, NodeRef, EdgeRef;
    assert "RangeIndexDirection" in GraphTypes();
  }

  lemma RepositoryServes(env: Env)
    requires IsRepository(env)
    ensures Serves(env)
  {
    hide IsItem, ItemFits, IsLeaf, Requests;
    forall name
      ensures IsItem(name) ==> name in env.items
      ensures name in env.items ==> ItemFits(env.items[name])
    {
      RequestsFit(name);
    }
    DirectionIsLeaf();
  }

  /** Every request type of the repository reads the same through the arena, on every input. */
  lemma RequestsReadTheSame(env: Env, admits: Policy, name: string, j: Json, cells: seq<Cell>, more: seq<Cell>)
    requires IsRepository(env) && name in env.items
    ensures Compiles(env)
    ensures ReadItemIn(env, admits, name, j, cells).cells <= more ==> Contract(env, admits, name, j, cells, more)
  {
    hide IsRepository, Serves, Compiles, Contract, ReadItemIn;
    RepositoryServes(env);
    FittingReadsTheSame(env, admits, name, j, cells, more);
  }

  /** Every request type of the repository: the arena reader yields a value exactly when the input stands for it. */
  lemma RequestsReadTheWire(env: Env, admits: Policy, name: string, j: Json, cells: seq<Cell>, v: Value)
    requires IsRepository(env) && name in env.items && Unlimited(admits)
    ensures Compiles(env)
    ensures Yields(ReadItemIn(env, admits, name, j, cells), v) <==> Denotes(env, Path(name), j, v)
  {
    hide IsRepository, Serves, Compiles, Yields, ReadItemIn, Denotes, Unlimited, Honoured;
    RepositoryServes(env);
    FittingIsHonoured(env);
    HonouredItemIsClear(env, name, j);
    ArenaReadsTheWire(env, admits, name, j, cells, v);
  }
}
