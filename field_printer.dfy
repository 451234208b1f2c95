/** `printField` (GenerateFragments.ts lines 329-388): what one field contributes
    to a fragment body — its bare name, a nested fragment spread, or nothing —
    or the exception it throws. The source inspects `field.type` (the runtime
    type, whose class name says List, NonNull or the named type's kind) and
    `field.astNode.type` (the syntactic type node); both are read here off the
    declared `TypeNode`, from which graphql-js builds the runtime type. */
module FieldPrinter {
  import opened Wrappers
  import opened Schema
  import opened Layout

  /** What the unwrapping at lines 330-359 leaves in `constructorName`: `null`, or
      the class of a named type together with the name lines 372-374 read. */
  datatype Reached = Unclassified | Classified(kind: Kind, typeName: string)

  /** `ast.getType(n).constructor.name`; `getType` yields `undefined` for a name
      outside the type map, and reading `constructor` off it throws. */
  function Lookup(types: seq<TypeDef>, n: string): (r: Result<Reached, Failure>)
    ensures r.Ok? <==> exists i :: 0 <= i < |types| && types[i].name == n
    ensures r.Ok? ==> r.value.Classified? && r.value.typeName == n &&
                      exists i :: 0 <= i < |types| && types[i].name == n && types[i].kind == r.value.kind
                                  && forall j :: 0 <= j < i ==> types[j].name != n
    ensures r.Err? ==> r.error == NullDereference("constructor")
  {
    match TypeDefOf(types, n)
    case None => Err(NullDereference("constructor"))
    case Some(t) => Ok(Classified(t.kind, n))
  }

  /** Lines 330-359, as the source walks the nodes (not the intended
      strip-every-wrapper algorithm: see `Reaches` for the shapes it handles).
      Whatever it classifies is the innermost named type, on a handled shape;
      what it throws is a property read of `null` or `undefined`. */
  function Unwrap(types: seq<TypeDef>, t: TypeNode): (r: Result<Reached, Failure>)
    ensures r.Ok? && r.value.Classified? ==>
              Reaches(t) && r.value.typeName == Innermost(t) && KindOf(types, Innermost(t)) == Some(r.value.kind)
    ensures r.Err? ==> r.error in {NullDereference("name"), NullDereference("value"), NullDereference("constructor")}
  {
    match t
    // Line 331 reads the named type's class; line 374 falls back to `field.type.name`.
    case Named(n) => Lookup(types, n)
    // Line 340 takes `astNode.type.type.type`, i.e. the node two levels down, or null.
    case ListOf(u) =>
      (match u
       case Named(_) => Err(NullDereference("name"))  // line 341 reads `null.name`
       case ListOf(Named(n)) => assert Innermost(u) == Innermost(u.elem); Lookup(types, n)
       case NonNullOf(Named(n)) => assert Innermost(u) == Innermost(u.inner); Lookup(types, n)
       case _ => Err(NullDereference("value")))       // a wrapper node has no `name`
    // Line 347 keeps the NonNull node; line 349 looks one level down, line 355 two.
    case NonNullOf(u) =>
      (match u
       case Named(n) => Lookup(types, n)
       case ListOf(Named(n)) => assert Innermost(u) == Innermost(u.elem); Lookup(types, n)
       case NonNullOf(Named(n)) => assert Innermost(u) == Innermost(u.inner); Lookup(types, n)
       case _ => Ok(Unclassified))                    // `constructorName` stays null
  }

  /** Line 381. `(fragmentType === DEFAULT) && typeName + "NoNesting" || typeName + DEFAULT`:
      the concatenation is a non-empty string, hence truthy, so the standard
      variant spreads the `NoNesting` fragment and every other variant spreads
      the STANDARD fragment of the related type, never its `DeepNesting` one. */
  function SpreadTarget(typeName: string, v: Variant): (r: string)
    ensures v == Default ==> r == typeName + "NoNesting"
    ensures v != Default ==> r == typeName
    ensures r != typeName + Suffix(Deep)
  {
    if v == Default then typeName + Suffix(NoRelations) else typeName + Suffix(Default)
  }

  /** Lines 361-387: the text a classified field contributes, `None` for `null`.
      Scalars and enums give their bare name; objects a nested selection
      starting with the name, except in the `NoNesting` variant. */
  function Emit(reached: Reached, fieldName: string, v: Variant): (r: Option<string>)
    ensures r.Some? <==> reached.Classified? &&
                         (reached.kind in {Scalar, Enum} || (reached.kind == Object && v != NoRelations))
    ensures r.Some? ==> IsPrefix(fieldName, r.value)
    ensures r.Some? && reached.kind != Object ==> r.value == fieldName
  {
    match reached
    case Classified(Scalar, _) => Some(fieldName)
    case Classified(Enum, _) => Some(fieldName)
    case Classified(Object, n) =>
      if v == NoRelations then None
      else Some(fieldName + " {" + Indent(2) + "..." + SpreadTarget(n, v) + Indent(1) + "}")
    case _ => None
  }

  /** `printField(fieldName, field, ast, fragmentType)` with the default `indent` of 1.
      Every printed selection starts with the field's name, and the `NoNesting`
      variant prints bare names only, which is why the standard variant's spread
      reaches exactly one relation deep. */
  function PrintField(types: seq<TypeDef>, f: FieldDef, v: Variant): (r: Result<Option<string>, Failure>)
    ensures r.Err? ==> r.error.NullDereference?
    ensures r.Ok? && r.value.Some? ==> IsPrefix(f.name, r.value.value)
    ensures v == NoRelations && r.Ok? && r.value.Some? ==> r.value.value == f.name
  {
    match Unwrap(types, f.typeRef)
    case Err(e) => Err(e)
    case Ok(r) => Ok(Emit(r, f.name, v))
  }

  /** The declared shapes whose named type the source reaches: `T`, `T!`, `[T!]`,
      `[T]!`, `[[T]]`, and `T!!`, which the schema parser never produces. */
  predicate Reaches(t: TypeNode)
  {
    match t
    case Named(_) => true
    case ListOf(NonNullOf(Named(_))) => true
    case ListOf(ListOf(Named(_))) => true
    case NonNullOf(Named(_)) => true
    case NonNullOf(ListOf(Named(_))) => true
    case NonNullOf(NonNullOf(Named(_))) => true
    case _ => false
  }

  /** Where the source reaches a named type, it is the innermost one, as the
      intended strip-every-wrapper resolution would find it. */
  lemma UnwrapFindsInnermost(types: seq<TypeDef>, t: TypeNode)
    requires Reaches(t)
    ensures Unwrap(types, t) == Lookup(types, Innermost(t))
  {
    if !t.Named? {
      var u := if t.ListOf? then t.elem else t.inner;
      assert Innermost(t) == Innermost(u);
      if !u.Named? {
        assert Innermost(u) == Innermost(if u.ListOf? then u.elem else u.inner);
      }
    }
  }

  /** A list whose element is neither `T!` nor `[T]` (so `[T]`, `[[T!]]`, `[[T]!]`,
      `[[[T]]]`, ...) makes line 341 read a property of null or undefined. */
  lemma ListShapesThatThrow(types: seq<TypeDef>, f: FieldDef, v: Variant)
    requires f.typeRef.ListOf? && !Reaches(f.typeRef)
    ensures PrintField(types, f, v) ==
            Err(NullDereference(if f.typeRef.elem.Named? then "name" else "value"))
  {
  }

  /** A non-null wrapper around a list that is not `[T]` (so `[T!]!`, `[[T]]!`, ...)
      leaves `constructorName` null: the field is left out of every variant. */
  lemma NonNullShapesLeftOut(types: seq<TypeDef>, f: FieldDef, v: Variant)
    requires f.typeRef.NonNullOf? && !Reaches(f.typeRef)
    ensures PrintField(types, f, v) == Ok(None)
  {
  }

  /** Lines 361-366: a scalar or enum field prints its bare name in every variant. */
  lemma ScalarAndEnumPrintName(types: seq<TypeDef>, f: FieldDef, v: Variant)
    requires Reaches(f.typeRef)
    requires KindOf(types, Innermost(f.typeRef)) in {Some(Scalar), Some(Enum)}
    ensures PrintField(types, f, v) == Ok(Some(f.name))
  {
    UnwrapFindsInnermost(types, f.typeRef);
  }

  /** Lines 376-384: in the standard variant an object field spreads the
      `NoNesting` fragment of its type inside a nested selection. */
  lemma ObjectStandardSpread(types: seq<TypeDef>, f: FieldDef)
    requires Reaches(f.typeRef)
    requires KindOf(types, Innermost(f.typeRef)) == Some(Object)
    ensures PrintField(types, f, Default) ==
            Ok(Some(f.name + " {" + Indent(2) + "..." + Innermost(f.typeRef) + "NoNesting" + Indent(1) + "}"))
  {
    UnwrapFindsInnermost(types, f.typeRef);
    var n := Innermost(f.typeRef);
    assert SpreadTarget(n, Default) == n + "NoNesting";
    assert f.name + " {" + Indent(2) + "..." + SpreadTarget(n, Default)
        == f.name + " {" + Indent(2) + "..." + n + "NoNesting";
  }

  /** Line 381: in the deep variant an object field spreads the standard fragment
      `...T`, so no `DeepNesting` fragment spreads itself. */
  lemma ObjectDeepSpread(types: seq<TypeDef>, f: FieldDef)
    requires Reaches(f.typeRef)
    requires KindOf(types, Innermost(f.typeRef)) == Some(Object)
    ensures PrintField(types, f, Deep) ==
            Ok(Some(f.name + " {" + Indent(2) + "..." + Innermost(f.typeRef) + Indent(1) + "}"))
  {
    UnwrapFindsInnermost(types, f.typeRef);
    var n := Innermost(f.typeRef);
    assert SpreadTarget(n, Deep) == n;
  }

  /** Line 369: the `NoNesting` variant leaves object fields out. */
  lemma ObjectOmittedWithoutRelations(types: seq<TypeDef>, f: FieldDef)
    requires Reaches(f.typeRef)
    requires KindOf(types, Innermost(f.typeRef)) == Some(Object)
    ensures PrintField(types, f, NoRelations) == Ok(None)
  {
    UnwrapFindsInnermost(types, f.typeRef);
  }

  /** Line 387: interface, union and input-object fields are left out of every variant. */
  lemma OtherKindsOmitted(types: seq<TypeDef>, f: FieldDef, v: Variant)
    requires Reaches(f.typeRef)
    requires KindOf(types, Innermost(f.typeRef)) in {Some(Interface), Some(Union), Some(InputObject)}
    ensures PrintField(types, f, v) == Ok(None)
  {
    UnwrapFindsInnermost(types, f.typeRef);
  }

  /** Whether a field throws, and with what, does not depend on the variant. */
  lemma FailureIndependentOfVariant(types: seq<TypeDef>, f: FieldDef, v: Variant, w: Variant)
    ensures PrintField(types, f, v).Err? <==> PrintField(types, f, w).Err?
    ensures PrintField(types, f, v).Err? ==> PrintField(types, f, v).error == PrintField(types, f, w).error
  {
  }
}
