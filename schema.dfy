/** The linked schema that graphql-js's `parse` and `buildASTSchema` hand to the
    fragment compiler: the type map in key order, each field with the syntactic
    type reference it was declared with, and the three root operation types. */
module Schema {
  import opened Wrappers

  /** The runtime class of a named type (`GraphQLScalarType`, `GraphQLEnumType`,
      `GraphQLObjectType`, ...), which the source reads through `constructor.name`. */
  datatype Kind = Scalar | Enum | Object | Interface | Union | InputObject

  /** A type reference as written in the schema document: `T`, `[T]` or `T!`,
      nested to any depth. */
  datatype TypeNode =
    | Named(name: string)
    | ListOf(elem: TypeNode)
    | NonNullOf(inner: TypeNode)

  datatype FieldDef = FieldDef(name: string, typeRef: TypeNode)

  datatype TypeDef = TypeDef(name: string, kind: Kind, fields: seq<FieldDef>)

  /** `types` is `ast.getTypeMap()` in key order; a root is `None` when the schema
      does not define that operation type. */
  datatype Schema = Schema(
    types: seq<TypeDef>,
    queryRoot: Option<string>,
    mutationRoot: Option<string>,
    subscriptionRoot: Option<string>)

  /** What makes the compile throw instead of returning text. */
  datatype Failure =
    | MissingQueryRoot                  // `ast.getQueryType().name` on a schema without a query type
    | NullDereference(property: string) // reading `property` of `null` or `undefined`

  /** `ast.getType(name)`: the first entry of the type map with that name. */
  function TypeDefOf(types: seq<TypeDef>, name: string): (r: Option<TypeDef>)
    ensures r.None? <==> forall i :: 0 <= i < |types| ==> types[i].name != name
    ensures r.Some? ==> exists i :: 0 <= i < |types| && types[i] == r.value && r.value.name == name
                                  && forall j :: 0 <= j < i ==> types[j].name != name
  {
    if |types| == 0 then None
    else if types[0].name == name then Some(types[0])
    else
      var r := TypeDefOf(types[1..], name);
      assert forall i :: 1 <= i < |types| ==> types[i] == types[1..][i - 1];
      r
  }

  /** `ast.getType(name).constructor.name`, or `None` where `getType` yields `undefined`. */
  function KindOf(types: seq<TypeDef>, name: string): (r: Option<Kind>)
    ensures r.Some? <==> exists i :: 0 <= i < |types| && types[i].name == name
    ensures r.Some? ==> exists t :: t in types && t.name == name && t.kind == r.value
  {
    match TypeDefOf(types, name)
    case None => None
    case Some(t) => Some(t.kind)
  }

  /** The named type at the bottom of any stack of list and non-null wrappers. */
  function Innermost(t: TypeNode): string
  {
    match t
    case Named(n) => n
    case ListOf(e) => Innermost(e)
    case NonNullOf(i) => Innermost(i)
  }

  /** Keys of a JavaScript object are unique: the type map has one entry per name. */
  predicate UniqueNames(types: seq<TypeDef>)
  {
    forall i, j :: 0 <= i < j < |types| ==> types[i].name != types[j].name
  }
}
