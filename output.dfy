/** The whole compile of `makeFragments` (GenerateFragments.ts lines 178-327)
    and the dialect choice of `processFragments` (line 146): candidate
    selection, the three fragment lists, and the rendering either as a GraphQL
    document or as JavaScript `export const` bindings. */
module Output {
  import opened Wrappers
  import opened Schema
  import opened Layout
  import opened FieldPrinter
  import opened Selection
  import opened Fragments

  /** Line 146: the output file's extension, which also selects the dialect. */
  function Extension(generator: string): (r: string)
    ensures r == "js" <==> EndsWith(generator, "js")
    ensures r != "js" ==> r == "graphql"
  {
    if EndsWith(generator, "js") then "js" else "graphql"
  }

  const JsHeader: string :=
    "// " + "THIS FILE HAS BEEN AUTO-GENERATED BY \"graphql-cli-generate-fragments\"\n" +
    "// DO NOT EDIT THIS FILE DIRECTLY\n"

  /** Lines 276-278, 283-285, 290-292: one binding holding the fragment in backticks. */
  function JsBinding(f: NamedFragment, v: Variant): (r: string)
    ensures IsPrefix("\nexport const " + f.name + Suffix(v) + "Fragment = `", r)
    ensures OccursAt(r, f.fragment, |"\nexport const " + f.name + Suffix(v) + "Fragment = `"|)
    ensures EndsWith(r, "`\n")
  {
    var head := "\nexport const " + f.name + Suffix(v) + "Fragment = `";
    var r := head + f.fragment + "`\n";
    assert r[..|head|] == head;
    assert r[|head|..|head| + |f.fragment|] == f.fragment;
    assert r[|r| - 2..] == "`\n";
    r
  }

  function JsBindings(fs: seq<NamedFragment>, v: Variant): (r: seq<string>)
    ensures |r| == |fs| && forall i :: 0 <= i < |fs| ==> r[i] == JsBinding(fs[i], v)
  {
    seq(|fs|, i requires 0 <= i < |fs| => JsBinding(fs[i], v))
  }

  /** The `.map(...).join("")` of lines 274-280: binding `i` stands in the
      section text after the bindings of the fragments before it and before
      those of the fragments after it. */
  lemma JsBindingsInOrder(fs: seq<NamedFragment>, v: Variant, i: nat)
    requires i < |fs|
    ensures Concat(JsBindings(fs, v))
            == Concat(JsBindings(fs[..i], v)) + JsBinding(fs[i], v) + Concat(JsBindings(fs[i + 1..], v))
  {
    var bs := JsBindings(fs, v);
    ConcatAt(bs, i);
    assert bs[..i] == JsBindings(fs[..i], v);
    assert bs[i + 1..] == JsBindings(fs[i + 1..], v);
  }

  /** Lines 274-295: the three sections of bindings after the header. */
  function JsBody(std: seq<NamedFragment>, noRel: seq<NamedFragment>, deep: seq<NamedFragment>): (r: string)
    ensures IsPrefix(Concat(JsBindings(std, Default)), r)
    ensures EndsWith(r, "\n" + Concat(JsBindings(deep, Deep)) + "\n")
  {
    SixPieces(Concat(JsBindings(std, Default)), "\n", Concat(JsBindings(noRel, NoRelations)), "\n", Concat(JsBindings(deep, Deep)), "\n");
    Concat(JsBindings(std, Default)) + "\n" + Concat(JsBindings(noRel, NoRelations)) + "\n" + Concat(JsBindings(deep, Deep)) + "\n"
  }

  const GraphqlHeader: string :=
    "# " + "THIS FILE HAS BEEN AUTO-GENERATED BY \"graphql-cli-generate-fragments\"\n" +
    "# DO NOT EDIT THIS FILE DIRECTLY\n\n" +
    "# Standard Fragments\n# Nested fragments will spread one layer deep\n\n"

  const NoRelationsHeading: string :=
    "\n\n# No Relational objects\n# No nested fragments\n\n"

  const DeepHeading: string :=
    "\n\n# Deeply nested Fragments\n# Will include n nested fragments\n" +
    "# If there is a recursive relation you will receive a\n" +
    "# \"Cannot spread fragment within itself\" error when using\n\n"

  /** Lines 304-305, 312-313, 322-323: each fragment on a fresh line. */
  function GraphqlEntries(fs: seq<NamedFragment>): (r: seq<string>)
    ensures |r| == |fs| && forall i :: 0 <= i < |fs| ==> r[i] == "\n" + fs[i].fragment
  {
    seq(|fs|, i requires 0 <= i < |fs| => "\n" + fs[i].fragment)
  }

  /** The `.map(...).join("")` of lines 303-306: entry `i` stands in the
      section text after the entries of the fragments before it and before
      those of the fragments after it. */
  lemma GraphqlEntriesInOrder(fs: seq<NamedFragment>, i: nat)
    requires i < |fs|
    ensures Concat(GraphqlEntries(fs))
            == Concat(GraphqlEntries(fs[..i])) + "\n" + fs[i].fragment + Concat(GraphqlEntries(fs[i + 1..]))
  {
    var es := GraphqlEntries(fs);
    ConcatAt(es, i);
    assert es[..i] == GraphqlEntries(fs[..i]);
    assert es[i + 1..] == GraphqlEntries(fs[i + 1..]);
  }

  /** Lines 303-325: the three commented sections after the header. */
  function GraphqlBody(std: seq<NamedFragment>, noRel: seq<NamedFragment>, deep: seq<NamedFragment>): (r: string)
    ensures IsPrefix(Concat(GraphqlEntries(std)), r)
    ensures EndsWith(r, DeepHeading + Concat(GraphqlEntries(deep)) + "\n")
  {
    SixPieces(Concat(GraphqlEntries(std)), NoRelationsHeading, Concat(GraphqlEntries(noRel)), DeepHeading, Concat(GraphqlEntries(deep)), "\n");
    Concat(GraphqlEntries(std)) + NoRelationsHeading + Concat(GraphqlEntries(noRel)) + DeepHeading + Concat(GraphqlEntries(deep)) + "\n"
  }

  /** Lines 271-325: line 271 compares the extension of line 146 with "js". */
  function Render(extension: string, std: seq<NamedFragment>, noRel: seq<NamedFragment>, deep: seq<NamedFragment>): (r: string)
    ensures extension == "js" ==> IsPrefix(JsHeader, r)
    ensures extension != "js" ==> IsPrefix(GraphqlHeader, r)
  {
    PrefixOfConcat(JsHeader, JsBody(std, noRel, deep));
    PrefixOfConcat(GraphqlHeader, GraphqlBody(std, noRel, deep));
    if extension == "js" then JsHeader + JsBody(std, noRel, deep)
    else GraphqlHeader + GraphqlBody(std, noRel, deep)
  }

  /** `makeFragments` on the linked schema; `extension` is what line 146 computed. */
  function MakeFragments(s: Schema, extension: string): (r: Result<string, Failure>)
    ensures Candidates(s).Err? ==> r == Err(MissingQueryRoot)
    ensures r.Err? ==> r.error == MissingQueryRoot || r.error.NullDereference?
    ensures r.Ok? ==> IsPrefix(if extension == "js" then JsHeader else GraphqlHeader, r.value)
  {
    match Candidates(s)
    case Err(e) => Err(e)
    case Ok(names) =>
      match FragmentList(s.types, names, Default)
      case Err(e) => Err(e)
      case Ok(std) =>
        match FragmentList(s.types, names, NoRelations)
        case Err(e) => Err(e)
        case Ok(noRel) =>
          match FragmentList(s.types, names, Deep)
          case Err(e) => Err(e)
          case Ok(deep) => Ok(Render(extension, std, noRel, deep))
  }

  /** No text begins with both headers: one opens with `//`, the other with `#`. */
  lemma HeadersExclusive(t: string)
    ensures !(IsPrefix(JsHeader, t) && IsPrefix(GraphqlHeader, t))
  {
    assert JsHeader[0] == "// "[0] == '/';
    assert GraphqlHeader[0] == "# "[0] == '#';
  }

  /** Lines 144-151 without the file system: a generator ending in "js" yields
      the JavaScript module, any other the GraphQL document. */
  function GenerateFragments(s: Schema, generator: string): (r: Result<string, Failure>)
    ensures r.Ok? ==> (EndsWith(generator, "js") <==> IsPrefix(JsHeader, r.value))
    ensures r.Ok? ==> (!EndsWith(generator, "js") <==> IsPrefix(GraphqlHeader, r.value))
  {
    var r := MakeFragments(s, Extension(generator));
    if r.Ok? then HeadersExclusive(r.value); r else r
  }

  /** A successful compile is the rendering of the three lists built for the candidates. */
  lemma MakeFragmentsParts(s: Schema, extension: string)
    requires MakeFragments(s, extension).Ok?
    ensures Candidates(s).Ok?
    ensures FragmentList(s.types, Candidates(s).value, Default).Ok?
    ensures FragmentList(s.types, Candidates(s).value, NoRelations).Ok?
    ensures FragmentList(s.types, Candidates(s).value, Deep).Ok?
    ensures MakeFragments(s, extension).value ==
            Render(extension, FragmentList(s.types, Candidates(s).value, Default).value,
                   FragmentList(s.types, Candidates(s).value, NoRelations).value,
                   FragmentList(s.types, Candidates(s).value, Deep).value)
  {
  }

  /** Every candidate has its entry in the type map. */
  lemma CandidatesAreDefined(s: Schema, i: nat)
    requires Candidates(s).Ok? && i < |Candidates(s).value|
    ensures TypeDefOf(s.types, Candidates(s).value[i]).Some?
  {
    assert Candidates(s).value[i] in Candidates(s).value;
  }

  /** The type map has an entry `name` none of whose fields throws. */
  predicate FieldsPrint(types: seq<TypeDef>, name: string)
  {
    TypeDefOf(types, name).Some? && PrintFields(types, TypeDefOf(types, name).value.fields, Default).Ok?
  }

  /** The compile succeeds exactly when the schema has a query root (or no
      visible object type) and no field of a candidate type throws; the dialect
      plays no part. */
  lemma CompileSucceedsIff(s: Schema, extension: string)
    ensures MakeFragments(s, extension).Ok? <==>
            Candidates(s).Ok? &&
            forall i :: 0 <= i < |Candidates(s).value| ==> FieldsPrint(s.types, Candidates(s).value[i])
  {
    if Candidates(s).Ok? {
      var names := Candidates(s).value;
      forall i | 0 <= i < |names|
        ensures TypeDefOf(s.types, names[i]).Some?
        ensures PrintFields(s.types, TypeDefOf(s.types, names[i]).value.fields, Default).Ok? <==>
                PrintFields(s.types, TypeDefOf(s.types, names[i]).value.fields, NoRelations).Ok?
        ensures PrintFields(s.types, TypeDefOf(s.types, names[i]).value.fields, Default).Ok? <==>
                PrintFields(s.types, TypeDefOf(s.types, names[i]).value.fields, Deep).Ok?
      {
        CandidatesAreDefined(s, i);
        var fields := TypeDefOf(s.types, names[i]).value.fields;
        PrintFieldsFailIndependentOfVariant(s.types, fields, Default, NoRelations);
        PrintFieldsFailIndependentOfVariant(s.types, fields, Default, Deep);
      }
    }
  }

  /** A candidate type with a field of a shape that makes line 341 throw
      (`[T]`, `[[T!]]`, ...) aborts the whole compile. */
  lemma ThrowingFieldAbortsCompile(s: Schema, extension: string, i: nat, j: nat)
    requires Candidates(s).Ok? && i < |Candidates(s).value|
    requires TypeDefOf(s.types, Candidates(s).value[i]).Some?
    requires j < |TypeDefOf(s.types, Candidates(s).value[i]).value.fields|
    requires TypeDefOf(s.types, Candidates(s).value[i]).value.fields[j].typeRef.ListOf?
    requires !Reaches(TypeDefOf(s.types, Candidates(s).value[i]).value.fields[j].typeRef)
    ensures MakeFragments(s, extension).Err?
  {
    var fields := TypeDefOf(s.types, Candidates(s).value[i]).value.fields;
    ListShapesThatThrow(s.types, fields[j], Default);
    CompileSucceedsIff(s, extension);
  }

  /** Lines 182-188: a schema without a query root but with some visible object
      type throws before any fragment is built. */
  lemma MissingQueryRootAborts(s: Schema, extension: string, k: nat)
    requires s.queryRoot.None?
    requires k < |s.types| && IsVisibleObject(s.types[k])
    ensures MakeFragments(s, extension) == Err(MissingQueryRoot)
  {
  }

  function Pick(v: Variant, std: seq<NamedFragment>, noRel: seq<NamedFragment>, deep: seq<NamedFragment>): seq<NamedFragment>
  {
    match v
    case Default => std
    case NoRelations => noRel
    case Deep => deep
  }

  /** Each binding of each section stands in the JavaScript text. */
  lemma JsTextHasBinding(std: seq<NamedFragment>, noRel: seq<NamedFragment>, deep: seq<NamedFragment>, v: Variant, i: nat)
    requires i < |Pick(v, std, noRel, deep)|
    ensures Contains(JsHeader + JsBody(std, noRel, deep), JsBinding(Pick(v, std, noRel, deep)[i], v))
  {
    var t := JsBinding(Pick(v, std, noRel, deep)[i], v);
    var c1, c2, c3 := Concat(JsBindings(std, Default)), Concat(JsBindings(noRel, NoRelations)), Concat(JsBindings(deep, Deep));
    ConcatContains(JsBindings(Pick(v, std, noRel, deep), v), i);
    match v {
      case Default =>
        ContainsBefore(c1, "\n", t);
        ContainsBefore(c1 + "\n", c2, t);
        ContainsBefore(c1 + "\n" + c2, "\n", t);
        ContainsBefore(c1 + "\n" + c2 + "\n", c3, t);
        ContainsBefore(c1 + "\n" + c2 + "\n" + c3, "\n", t);
      case NoRelations =>
        ContainsAfter(c1 + "\n", c2, t);
        ContainsBefore(c1 + "\n" + c2, "\n", t);
        ContainsBefore(c1 + "\n" + c2 + "\n", c3, t);
        ContainsBefore(c1 + "\n" + c2 + "\n" + c3, "\n", t);
      case Deep =>
        ContainsAfter(c1 + "\n" + c2 + "\n", c3, t);
        ContainsBefore(c1 + "\n" + c2 + "\n" + c3, "\n", t);
    }
    ContainsAfter(JsHeader, JsBody(std, noRel, deep), t);
  }

  /** Each fragment of each section stands, on a fresh line, in the GraphQL text. */
  lemma GraphqlTextHasFragment(std: seq<NamedFragment>, noRel: seq<NamedFragment>, deep: seq<NamedFragment>, v: Variant, i: nat)
    requires i < |Pick(v, std, noRel, deep)|
    ensures Contains(GraphqlHeader + GraphqlBody(std, noRel, deep), "\n" + Pick(v, std, noRel, deep)[i].fragment)
  {
    var t := "\n" + Pick(v, std, noRel, deep)[i].fragment;
    var c1, c2, c3 := Concat(GraphqlEntries(std)), Concat(GraphqlEntries(noRel)), Concat(GraphqlEntries(deep));
    var h2, h3 := NoRelationsHeading, DeepHeading;
    ConcatContains(GraphqlEntries(Pick(v, std, noRel, deep)), i);
    match v {
      case Default =>
        ContainsBefore(c1, h2, t);
        ContainsBefore(c1 + h2, c2, t);
        ContainsBefore(c1 + h2 + c2, h3, t);
        ContainsBefore(c1 + h2 + c2 + h3, c3, t);
        ContainsBefore(c1 + h2 + c2 + h3 + c3, "\n", t);
      case NoRelations =>
        ContainsAfter(c1 + h2, c2, t);
        ContainsBefore(c1 + h2 + c2, h3, t);
        ContainsBefore(c1 + h2 + c2 + h3, c3, t);
        ContainsBefore(c1 + h2 + c2 + h3 + c3, "\n", t);
      case Deep =>
        ContainsAfter(c1 + h2 + c2 + h3, c3, t);
        ContainsBefore(c1 + h2 + c2 + h3 + c3, "\n", t);
    }
    ContainsAfter(GraphqlHeader, GraphqlBody(std, noRel, deep), t);
  }

  /** The JavaScript module exports the three fragments of every candidate, as
      `{N}Fragment`, `{N}NoNestingFragment` and `{N}DeepNestingFragment`. */
  lemma JsExportsEveryFragment(s: Schema, i: nat, v: Variant)
    requires MakeFragments(s, "js").Ok?
    requires Candidates(s).Ok? && i < |Candidates(s).value|
    ensures TypeDefOf(s.types, Candidates(s).value[i]).Some?
    ensures Fragment(s.types, TypeDefOf(s.types, Candidates(s).value[i]).value, v).Ok?
    ensures Contains(MakeFragments(s, "js").value,
                     "\nexport const " + Candidates(s).value[i] + Suffix(v) + "Fragment = `" +
                     Fragment(s.types, TypeDefOf(s.types, Candidates(s).value[i]).value, v).value + "`\n")
  {
    MakeFragmentsParts(s, "js");
    var names := Candidates(s).value;
    var std := FragmentList(s.types, names, Default).value;
    var noRel := FragmentList(s.types, names, NoRelations).value;
    var deep := FragmentList(s.types, names, Deep).value;
    assert Pick(v, std, noRel, deep) == FragmentList(s.types, names, v).value;
    FragmentListEntries(s.types, names, v);
    assert Pick(v, std, noRel, deep)[i] == NamedFragment(names[i], FragmentOf(s.types, names[i], v));
    JsTextHasBinding(std, noRel, deep, v, i);
  }

  /** The GraphQL document holds the three fragments of every candidate, each
      on a fresh line. */
  lemma GraphqlListsEveryFragment(s: Schema, extension: string, i: nat, v: Variant)
    requires extension != "js" && MakeFragments(s, extension).Ok?
    requires Candidates(s).Ok? && i < |Candidates(s).value|
    ensures TypeDefOf(s.types, Candidates(s).value[i]).Some?
    ensures Fragment(s.types, TypeDefOf(s.types, Candidates(s).value[i]).value, v).Ok?
    ensures Contains(MakeFragments(s, extension).value,
                     "\n" + Fragment(s.types, TypeDefOf(s.types, Candidates(s).value[i]).value, v).value)
  {
    MakeFragmentsParts(s, extension);
    var names := Candidates(s).value;
    var std := FragmentList(s.types, names, Default).value;
    var noRel := FragmentList(s.types, names, NoRelations).value;
    var deep := FragmentList(s.types, names, Deep).value;
    assert Pick(v, std, noRel, deep) == FragmentList(s.types, names, v).value;
    FragmentListEntries(s.types, names, v);
    assert Pick(v, std, noRel, deep)[i] == NamedFragment(names[i], FragmentOf(s.types, names[i], v));
    GraphqlTextHasFragment(std, noRel, deep, v, i);
  }
}
