/**
 The schema language of the `ArenaMirror` derive: owned field types, the modes a
 field may be given, and the syntactic rewrite of an owned type to its mirror.
 */
module Schema {
  import opened Wrappers

  /** An owned field type, as the derive sees it syntactically. */
  datatype Ty =
    | Path(name: string)            // a path without arguments: a plain, foreign or derived type
    | Str
    | Boxed(inner: Ty)
    | Vector(inner: Ty)
    | Opt(inner: Ty)
    | BTree(key: Ty, value: Ty)
    | Pair(first: Ty, second: Ty)
    | Other(spelling: string)       // any other type syntax

  datatype Mode = Mirror | Copy | Owned

  datatype Field = Field(name: string, ty: Ty, default: bool, mode: Mode)

  datatype VariantFields = Unit | Newtype(field: Field) | Tuple(fields: seq<Field>) | Named(fields: seq<Field>)

  datatype Variant = Variant(ident: string, name: string, content: VariantFields)

  /** A derived item. A validated item reads the fields of the struct `raw` and then checks the value. */
  datatype Item =
    | Struct(fields: seq<Field>)
    | Enum(variants: seq<Variant>)
    | Validated(raw: string, fields: seq<Field>)

  /** The mirror of a field type: where the owned type holds heap data, this one borrows. */
  datatype MirrorTy =
    | Kept(ty: Ty)                  // the owned type itself
    | StrRef
    | RefTo(inner: MirrorTy)
    | SliceOf(inner: MirrorTy)
    | OptionOf(inner: MirrorTy)
    | MapOf(value: MirrorTy)
    | PairOf(first: MirrorTy, second: MirrorTy)
    | ArenaNamed(name: string)      // `Arena{name}<'a>`

  const PLAIN: set<string> :=
    { "bool", "u8", "u16", "u32", "u64", "usize", "i8", "i16", "i32", "i64", "isize", "f32", "f64", "NonZeroUsize" }

  /** The derive's `mirror_type`: `None` where it reports an unsupported type. */
  function MirrorType(ty: Ty, mode: Mode): (m: Option<MirrorTy>)
  {
    if mode == Owned then Some(Kept(ty)) else
    match ty
    case Str => Some(StrRef)
    case Boxed(inner) => (match MirrorType(inner, mode) case Some(m) => Some(RefTo(m)) case None => None)
    case Vector(inner) => (match MirrorType(inner, mode) case Some(m) => Some(SliceOf(m)) case None => None)
    case Opt(inner) => (match MirrorType(inner, mode) case Some(m) => Some(OptionOf(m)) case None => None)
    case BTree(key, value) =>
      if key != Str then None else
      (match MirrorType(value, mode) case Some(m) => Some(MapOf(m)) case None => None)
    case Pair(first, second) =>
      (match (MirrorType(first, mode), MirrorType(second, mode))
       case (Some(a), Some(b)) => Some(PairOf(a, b))
       case _ => None)
    case Path(name) => Some(if mode == Copy || name in PLAIN then Kept(ty) else ArenaNamed(name))
    case Other(_) => None
  }

  /** The derive's `is_option`: it looks at the outermost type only. */
  predicate IsOption(ty: Ty) {
    ty.Opt?
  }

  /** An enum of unit variants only is its own mirror. */
  predicate IsLeaf(item: Item) {
    item.Enum? && forall i | 0 <= i < |item.variants| :: item.variants[i].content.Unit?
  }

  predicate DistinctNames(fields: seq<Field>) {
    forall i, j | 0 <= i < j < |fields| :: fields[i].name != fields[j].name
  }

  function VariantNames(variants: seq<Variant>): (names: seq<string>)
  {
    if variants == [] then [] else [variants[0].name] + VariantNames(variants[1..])
  }

  /** The slot of the first field named `key`, or `|fields|` for an ignored key. */
  function FieldIndex(fields: seq<Field>, key: string): (i: nat)
    ensures i <= |fields|
    ensures i < |fields| ==> fields[i].name == key
    ensures forall k | 0 <= k < i :: fields[k].name != key
  {
    if fields == [] then 0
    else if fields[0].name == key then 0
    else 1 + FieldIndex(fields[1..], key)
  }

  /** The first variant tagged `tag`, or `|variants|` for an unknown tag. */
  function VariantIndex(variants: seq<Variant>, tag: string): (i: nat)
    ensures i <= |variants|
    ensures i < |variants| ==> variants[i].name == tag
    ensures forall k | 0 <= k < i :: variants[k].name != tag
  {
    if variants == [] then 0
    else if variants[0].name == tag then 0
    else 1 + VariantIndex(variants[1..], tag)
  }
}
