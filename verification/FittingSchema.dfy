/**
 A syntactic condition on the request types' schema under which it compiles and
 the derive honours all of it.
 */
module FittingSchema {
  import opened Wrappers
  import Names
  import opened Schema
  import opened OwnedReader
  import opened MirrorReader
  import opened ArenaReader
  import opened ArenaGaps
  import opened ArenaContract

  // ---------------------------------------------------------------------
  // A syntactic condition on a schema

  predicate IsBatchType(name: string) {
    name == "BatchCondition" || name == "NamedQuery" || name == "BatchEntry" || name == "ReadBatch"
    || name == "RawReadBatch" || name == "WriteBatch" || name == "BatchQuery"
  }

  predicate IsExpressionType(name: string) {
    name == "Expr" || name == "WhenThen" || name == "StreamBound"
  }

  predicate IsPredicateType(name: string) {
    name == "CompareOp" || name == "Predicate"
  }

  predicate IsValueType(name: string) {
    name == "PropertyValue" || name == "PropertyInput"
  }

  predicate IsProjectionType(name: string) {
    name == "PropertyProjection" || name == "ExprProjection" || name == "Projection" || name == "BindingTarget"
    || name == "BindingValueRef" || name == "BindingProjection"
  }

  predicate IsQueryType(name: string) {
    name == "QueryRequestType" || name == "SearchConsistency" || name == "RawQueryRequest"
  }

  predicate IsStepType(name: string) {
    name == "Order" || name == "ShortestPathDirection" || name == "EmitBehavior" || name == "AggregateFunction"
  }

  predicate IsTraversalType(name: string) {
    name == "AstNode" || name == "SubTraversal" || name == "RepeatConfig"
  }

  predicate IsGraphType(name: string) {
    name == "NodeRef" || name == "EdgeRef" || name == "RangeIndexDirection" || name == "VectorDistanceMetric"
    || name == "IndexSpec"
  }

  predicate IsItem(name: string) {
    IsBatchType(name) || IsExpressionType(name) || IsPredicateType(name) || IsValueType(name)
    || IsProjectionType(name) || IsQueryType(name) || IsStepType(name) || IsTraversalType(name) || IsGraphType(name)
  }

  /** A mirrored type: strings, the plain types, derived items, and what is built from them. */
  predicate Mirrors(ty: Ty) {
    match ty
    case Str => true
    case Boxed(inner) => Mirrors(inner)
    case Vector(inner) => Mirrors(inner)
    case Opt(inner) => Mirrors(inner)
    case BTree(key, value) => key == Str && Mirrors(value)
    case Pair(first, second) => Mirrors(first) && Mirrors(second)
    case Path(name) => IsItem(name) || name in PLAIN
    case Other(_) => false
  }

  /** The field's reader refuses an absent value. */
  predicate Required(ty: Ty) {
    match ty
    case Opt(_) => false
    case Boxed(inner) => Required(inner)
    case Other(_) => false
    case _ => true
  }

  /** A type whose default the derive can write: the direction enum is its own mirror. */
  predicate Defaults(ty: Ty) {
    ty.Str? || ty.Opt? || ty.Vector? || (ty.Path? && (ty.name in PLAIN || ty.name == "RangeIndexDirection"))
  }

  predicate FieldFits(f: Field) {
    match f.mode
    case Mirror => Mirrors(f.ty) && if f.default then Defaults(f.ty) else f.ty.Opt? || Required(f.ty)
    case Owned => f.default
    case Copy => f.ty == Vector(Path("NodeId")) || f.ty == Vector(Path("EdgeId"))
  }

  predicate FieldsFit(fields: seq<Field>) {
    DistinctNames(fields) && forall i | 0 <= i < |fields| :: FieldFits(fields[i]) && fields[i].mode != Copy
  }

  predicate VariantFits(v: Variant) {
    match v.content
    case Unit => true
    case Newtype(field) => FieldFits(field)
    case Tuple(fields) => forall i | 0 <= i < |fields| :: FieldFits(fields[i]) && !fields[i].default
    case Named(fields) => FieldsFit(fields)
  }

  predicate ItemFits(item: Item) {
    match item
    case Struct(fields) => FieldsFit(fields)
    case Validated(_, fields) => FieldsFit(fields)
    case Enum(variants) => forall i | 0 <= i < |variants| :: VariantFits(variants[i])
  }

  type FittingField = f: Field | FieldFits(f) && f.mode != Copy witness Field("", Str, false, Mirror)

  type FittingFields = fields: seq<Field> | FieldsFit(fields) witness []

  type FittingVariant = v: Variant | VariantFits(v) witness Variant("", "", Unit)

  type FittingItem = item: Item | ItemFits(item) witness Enum([])

  // Variants by what they hold, before their enum renames them

  function Shaped(ident: string, fields: FittingFields): (v: FittingVariant)
  {
    Variant(ident, "", Named(fields))
  }

  function Wraps(ident: string, ty: Ty): (v: FittingVariant)
    requires FieldFits(Holds(ty))
  {
    Variant(ident, "", Newtype(Holds(ty)))
  }

  /** A wrapped value whose named types are kept. */
  function Copies(ident: string, field: Field): (v: FittingVariant)
    requires FieldFits(field)
  {
    Variant(ident, "", Newtype(field))
  }

  function Tupled(ident: string, fields: seq<Field>): (v: FittingVariant)
    requires forall i | 0 <= i < |fields| :: FieldFits(fields[i]) && !fields[i].default
  {
    Variant(ident, "", Tuple(fields))
  }

  function Bare(ident: string): (v: FittingVariant)
  {
    Variant(ident, "", Unit)
  }

  function StructOf(fields: FittingFields): (item: FittingItem)
  {
    Struct(fields)
  }

  /** An enum with every variant renamed to snake case. */
  function EnumOf(variants: seq<FittingVariant>): (item: FittingItem)
    ensures item.Enum? && |item.variants| == |variants|
    ensures forall i | 0 <= i < |variants| ::
              item.variants[i] == Variant(variants[i].ident, Names.Serde(variants[i].ident, 0), variants[i].content)
  {
    var renamed := seq(|variants|, i requires 0 <= i < |variants| => Renamed(variants[i]));
    Enum(renamed)
  }

  function Renamed(v: FittingVariant): (r: FittingVariant)
  {
    v.(name := Names.Serde(v.ident, 0))
  }

  function Needs(name: string, ty: Ty): (f: Field)
  {
    Field(name, ty, false, Mirror)
  }

  function Fills(name: string, ty: Ty): (f: Field)
  {
    Field(name, ty, true, Mirror)
  }

  function Holds(ty: Ty): (f: Field)
  {
    Field("", ty, false, Mirror)
  }

  // ---------------------------------------------------------------------
  // The derive honours it

  /** An environment of fitting items, whose plain types refuse an absent value as serde's do. */
  ghost predicate Serves(env: Env) {
    && (forall name {:trigger IsItem(name)} :: IsItem(name) ==> name in env.items)
    && (forall name {:trigger env.items[name]} | name in env.items :: ItemFits(env.items[name]))
    && "RangeIndexDirection" in env.items && IsLeaf(env.items["RangeIndexDirection"])
    && forall name {:trigger env.missing(name)} | name in PLAIN :: env.missing(name) == None
  }

  lemma {:induction false} MirrorsResolve(env: Env, ty: Ty)
    requires Serves(env) && Mirrors(ty)
    ensures MirrorType(ty, Mirror).Some? && Resolves(env, MirrorType(ty, Mirror).value)
  {
    hide IsItem, Serves;
    match ty
    case Boxed(inner) => MirrorsResolve(env, inner);
    case Vector(inner) => MirrorsResolve(env, inner);
    case Opt(inner) => MirrorsResolve(env, inner);
    case BTree(_, value) => MirrorsResolve(env, value);
    case Pair(first, second) =>
      MirrorsResolve(env, first);
      MirrorsResolve(env, second);
    case Path(name) => ServesItem(env, name);
    case _ =>
  }

  lemma ServesItem(env: Env, name: string)
    requires Serves(env)
    ensures IsItem(name) ==> name in env.items
    ensures name in PLAIN ==> env.missing(name) == None
  {
    hide IsItem, ItemFits, IsLeaf;
  }

  lemma {:induction false} RequiredIsRefused(env: Env, ty: Ty)
    requires Serves(env) && Mirrors(ty) && Required(ty)
    ensures MissingOf(env, ty).None?
  {
    hide IsItem, Serves;
    match ty
    case Boxed(inner) => RequiredIsRefused(env, inner);
    case Path(name) => ServesItem(env, name);
    case _ =>
  }

  lemma DirectionIsLeaf(env: Env)
    requires Serves(env)
    ensures "RangeIndexDirection" in env.items && IsLeaf(env.items["RangeIndexDirection"])
  {
    hide IsItem, ItemFits, IsLeaf;
  }

  lemma FieldHolds(env: Env, f: Field)
    requires Serves(env) && FieldFits(f)
    ensures FieldCompiles(env, f) && (f.mode != Copy ==> FieldHonoured(env, f))
  {
    hide IsItem, Serves, IsLeaf, Mirrors, Required;
    if f.mode == Mirror {
      MirrorsResolve(env, f.ty);
      DirectionIsLeaf(env);
      if !f.default && !f.ty.Opt? {
        RequiredIsRefused(env, f.ty);
      }
    } else if f.mode == Copy {
      var element := f.ty.inner;
      assert MirrorType(element, Copy) == Some(Kept(element));
      assert MirrorType(f.ty, Copy) == Some(SliceOf(Kept(element)));
      assert Resolves(env, Kept(element));
    }
  }

  lemma FieldsHold(env: Env, fields: seq<Field>)
    requires Serves(env) && forall i | 0 <= i < |fields| :: FieldFits(fields[i])
    ensures AllCompile(env, fields)
    ensures (forall i | 0 <= i < |fields| :: fields[i].mode != Copy) ==> FieldsHonoured(env, fields)
  {
    hide Serves, FieldFits, FieldCompiles, FieldHonoured;
    forall i | 0 <= i < |fields|
      ensures FieldCompiles(env, fields[i]) && (fields[i].mode != Copy ==> FieldHonoured(env, fields[i]))
    {
      FieldHolds(env, fields[i]);
    }
  }

  lemma VariantHolds(env: Env, v: Variant)
    requires Serves(env) && VariantFits(v)
    ensures ContentCompiles(env, v.content) && ContentHonoured(env, v.content)
  {
    hide Serves, FieldFits, FieldCompiles, FieldHonoured, AllCompile, FieldsHonoured, DistinctNames;
    match v.content
    case Unit =>
    case Newtype(field) => FieldHolds(env, field);
    case Tuple(fields) => FieldsHold(env, fields);
    case Named(fields) => FieldsHold(env, fields);
  }

  lemma ItemHolds(env: Env, item: Item)
    requires Serves(env) && ItemFits(item)
    ensures ItemCompiles(env, item) && ItemHonoured(env, item)
  {
    hide Serves, FieldFits, VariantFits, ContentCompiles, ContentHonoured, AllCompile, FieldsHonoured, DistinctNames;
    match item
    case Struct(fields) => FieldsHold(env, fields);
    case Validated(_, fields) => FieldsHold(env, fields);
    case Enum(variants) =>
      forall i | 0 <= i < |variants|
        ensures ContentCompiles(env, variants[i].content) && ContentHonoured(env, variants[i].content)
      {
        VariantHolds(env, variants[i]);
      }
  }

  lemma ItemsFit(env: Env, name: string)
    requires Serves(env) && name in env.items
    ensures ItemFits(env.items[name])
  {
    hide IsItem, ItemFits, IsLeaf;
  }

  /** Such a schema compiles, and the derive honours all of it. */
  lemma FittingIsHonoured(env: Env)
    requires Serves(env)
    ensures Compiles(env) && Honoured(env)
  {
    hide Serves, ItemFits, ItemCompiles, ItemHonoured;
    forall name | name in env.items
      ensures ItemCompiles(env, env.items[name]) && ItemHonoured(env, env.items[name])
    {
      ItemsFit(env, name);
      ItemHolds(env, env.items[name]);
    }
  }

  /** Every item of such a schema reads the same through the arena, on every input. */
  lemma FittingReadsTheSame(env: Env, admits: Policy, name: string, j: Json, cells: seq<Cell>, more: seq<Cell>)
    requires Serves(env) && name in env.items
    ensures Compiles(env)
    ensures ReadItemIn(env, admits, name, j, cells).cells <= more ==> Contract(env, admits, name, j, cells, more)
  {
    hide Serves, Compiles, Honoured, Contract, ReadItemIn;
    FittingIsHonoured(env);
    if ReadItemIn(env, admits, name, j, cells).cells <= more {
      HonouredContract(env, admits, name, j, cells, more);
    }
  }
}
