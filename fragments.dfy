/** The three fragment lists of `makeFragments` (GenerateFragments.ts lines
    211-269): for each candidate type, `printField` over its fields in declared
    order, `null` results filtered out, the rest joined one per line. */
module Fragments {
  import opened Wrappers
  import opened Schema
  import opened Layout
  import opened FieldPrinter

  /** The `{ name, fragment }` records the three lists hold. */
  datatype NamedFragment = NamedFragment(name: string, fragment: string)

  function Present(line: Option<string>): seq<string>
  {
    if line.Some? then [line.value] else []
  }

  /** `.filter(field => field != null)`: the present values, in order. */
  function Somes(xs: seq<Option<string>>): seq<string>
  {
    if |xs| == 0 then [] else Present(xs[0]) + Somes(xs[1..])
  }

  /** `Object.keys(fields).map(printField)` for fields none of which throws. */
  function Printed(types: seq<TypeDef>, fields: seq<FieldDef>, v: Variant): seq<Option<string>>
    requires forall i :: 0 <= i < |fields| ==> PrintField(types, fields[i], v).Ok?
  {
    seq(|fields|, i requires 0 <= i < |fields| => PrintField(types, fields[i], v).value)
  }

  /** `Object.keys(fields).map(printField).filter(field => field != null)`
      (lines 219-222, 238-243, 258-263), where the first exception ends the
      compile. */
  function PrintFields(types: seq<TypeDef>, fields: seq<FieldDef>, v: Variant): (r: Result<seq<string>, Failure>)
    ensures r.Ok? <==> forall i :: 0 <= i < |fields| ==> PrintField(types, fields[i], v).Ok?
    ensures r.Err? ==> exists i :: 0 <= i < |fields| && PrintField(types, fields[i], v) == Err(r.error)
                                  && forall j :: 0 <= j < i ==> PrintField(types, fields[j], v).Ok?
    ensures r.Ok? ==> |r.value| <= |fields|
    ensures r.Ok? ==> forall line :: line in r.value <==>
                        exists i :: 0 <= i < |fields| && PrintField(types, fields[i], v) == Ok(Some(line))
  {
    if |fields| == 0 then Ok([])
    else
      assert forall i :: 1 <= i < |fields| ==> fields[i] == fields[1..][i - 1];
      match PrintField(types, fields[0], v)
      case Err(e) => Err(e)
      case Ok(first) =>
        match PrintFields(types, fields[1..], v)
        case Err(e) => Err(e)
        case Ok(rest) => Ok(Present(first) + rest)
  }

  /** Lines 218-225, 237-246, 257-266: `fragment {N}{suffix} on {N} {`, the
      selections one per line indented by two spaces, and `}`. */
  function FragmentText(name: string, v: Variant, lines: seq<string>): (r: string)
    ensures IsPrefix("fragment " + name + Suffix(v) + " on " + name + " {" + Indent(1), r)
    ensures EndsWith(r, "\n}\n")
  {
    var head := "fragment " + name + Suffix(v) + " on " + name + " {" + Indent(1);
    PrefixOfConcat(head, Join(lines, Indent(1)) + "\n}\n");
    SuffixOfConcat(head + Join(lines, Indent(1)), "\n}\n");
    head + Join(lines, Indent(1)) + "\n}\n"
  }

  /** The fragment of one type in one variant: it builds iff no field throws,
      and then lays out the printed fields in declared order. */
  function Fragment(types: seq<TypeDef>, t: TypeDef, v: Variant): (r: Result<string, Failure>)
    ensures r.Ok? <==> forall i :: 0 <= i < |t.fields| ==> PrintField(types, t.fields[i], v).Ok?
    ensures r.Ok? ==> r.value == FragmentText(t.name, v, PrintFields(types, t.fields, v).value)
  {
    match PrintFields(types, t.fields, v)
    case Err(e) => Err(e)
    case Ok(lines) => Ok(FragmentText(t.name, v, lines))
  }

  /** `ast.getType(name)` is defined and its fragment in variant `v` builds. */
  predicate Builds(types: seq<TypeDef>, name: string, v: Variant)
  {
    TypeDefOf(types, name).Some? && Fragment(types, TypeDefOf(types, name).value, v).Ok?
  }

  /** The fragment text of the type named `name`. */
  function FragmentOf(types: seq<TypeDef>, name: string, v: Variant): string
    requires Builds(types, name, v)
  {
    Fragment(types, TypeDefOf(types, name).value, v).value
  }

  /** `typeNames.map(typeName => ...)` for one variant: lines 211-228, 230-249 and
      250-269. Destructuring `ast.getType(typeName)` throws for an unknown name. */
  function FragmentList(types: seq<TypeDef>, names: seq<string>, v: Variant): (r: Result<seq<NamedFragment>, Failure>)
    ensures r.Ok? <==> forall i :: 0 <= i < |names| ==> Builds(types, names[i], v)
    ensures r.Ok? ==> |r.value| == |names|
  {
    if |names| == 0 then Ok([])
    else
      match TypeDefOf(types, names[0])
      case None => assert !Builds(types, names[0], v); Err(NullDereference("name"))
      case Some(t) =>
        match Fragment(types, t, v)
        case Err(e) => assert !Builds(types, names[0], v); Err(e)
        case Ok(text) =>
          assert Builds(types, names[0], v) && FragmentOf(types, names[0], v) == text && t.name == names[0];
          match FragmentList(types, names[1..], v)
          case Err(e) =>
            var j :| 0 <= j < |names[1..]| && !Builds(types, names[1..][j], v);
            assert names[1..][j] == names[j + 1];
            Err(e)
          case Ok(rest) =>
            assert forall i :: 1 <= i < |names| ==> names[i] == names[1..][i - 1];
            Ok([NamedFragment(t.name, text)] + rest)
  }

  /** Entry `i` of a built list is the fragment of the `i`-th name, under that name. */
  lemma {:induction false} FragmentListEntries(types: seq<TypeDef>, names: seq<string>, v: Variant)
    requires FragmentList(types, names, v).Ok?
    ensures forall i :: 0 <= i < |names| ==>
              FragmentList(types, names, v).value[i] == NamedFragment(names[i], FragmentOf(types, names[i], v))
  {
    if |names| > 0 {
      FragmentListEntries(types, names[1..], v);
      var r := FragmentList(types, names, v).value;
      var rest := FragmentList(types, names[1..], v).value;
      var t := TypeDefOf(types, names[0]).value;
      assert r == [NamedFragment(t.name, Fragment(types, t, v).value)] + rest;
      forall i | 0 <= i < |names|
        ensures r[i] == NamedFragment(names[i], FragmentOf(types, names[i], v))
      {
        if i > 0 {
          assert r[i] == rest[i - 1] && names[1..][i - 1] == names[i];
        }
      }
    }
  }

  /** The selections are the printed fields in declared order, `null`s left out:
      `map` then `filter`, as lines 219-222 chain them. */
  lemma {:induction false} PrintFieldsInDeclaredOrder(types: seq<TypeDef>, fields: seq<FieldDef>, v: Variant)
    requires PrintFields(types, fields, v).Ok?
    ensures PrintFields(types, fields, v).value == Somes(Printed(types, fields, v))
  {
    if |fields| > 0 {
      PrintFieldsInDeclaredOrder(types, fields[1..], v);
      assert Printed(types, fields, v)[1..] == Printed(types, fields[1..], v);
    }
  }

  /** A type's fragment lays out its printed fields in declared order. */
  lemma FragmentInDeclaredOrder(types: seq<TypeDef>, t: TypeDef, v: Variant)
    requires Fragment(types, t, v).Ok?
    ensures Fragment(types, t, v).value == FragmentText(t.name, v, Somes(Printed(types, t.fields, v)))
  {
    PrintFieldsInDeclaredOrder(types, t.fields, v);
  }

  /** Whether a type's fields throw, and with what, does not depend on the variant. */
  lemma {:induction false} PrintFieldsFailIndependentOfVariant(
    types: seq<TypeDef>, fields: seq<FieldDef>, v: Variant, w: Variant)
    ensures PrintFields(types, fields, v).Err? <==> PrintFields(types, fields, w).Err?
    ensures PrintFields(types, fields, v).Err? ==>
            PrintFields(types, fields, v).error == PrintFields(types, fields, w).error
  {
    if |fields| > 0 {
      FailureIndependentOfVariant(types, fields[0], v, w);
      PrintFieldsFailIndependentOfVariant(types, fields[1..], v, w);
    }
  }

  /** A field whose type is a scalar or enum, reached through the shapes the source handles. */
  predicate IsScalarField(types: seq<TypeDef>, f: FieldDef)
  {
    Reaches(f.typeRef) && KindOf(types, Innermost(f.typeRef)) in {Some(Scalar), Some(Enum)}
  }

  function FieldNames(fields: seq<FieldDef>): (r: seq<string>)
    ensures |r| == |fields|
    ensures forall i :: 0 <= i < |fields| ==> r[i] == fields[i].name
  {
    if |fields| == 0 then [] else [fields[0].name] + FieldNames(fields[1..])
  }

  /** A type with only scalar and enum fields selects all of them, by name and in
      declared order, in every variant. */
  lemma {:induction false} ScalarFieldsSelectedInOrder(types: seq<TypeDef>, fields: seq<FieldDef>, v: Variant)
    requires forall i :: 0 <= i < |fields| ==> IsScalarField(types, fields[i])
    ensures PrintFields(types, fields, v) == Ok(FieldNames(fields))
  {
    if |fields| > 0 {
      ScalarAndEnumPrintName(types, fields[0], v);
      ScalarFieldsSelectedInOrder(types, fields[1..], v);
    }
  }

  /** The `NoNesting` selections are the standard ones with the nested spreads taken out. */
  lemma {:induction false} NoNestingIsSubsequenceOfStandard(types: seq<TypeDef>, fields: seq<FieldDef>)
    requires PrintFields(types, fields, Default).Ok?
    ensures PrintFields(types, fields, NoRelations).Ok?
    ensures IsSubsequence(PrintFields(types, fields, NoRelations).value, PrintFields(types, fields, Default).value)
  {
    PrintFieldsFailIndependentOfVariant(types, fields, Default, NoRelations);
    if |fields| > 0 {
      NoNestingIsSubsequenceOfStandard(types, fields[1..]);
      var nr := PrintFields(types, fields[1..], NoRelations).value;
      var st := PrintFields(types, fields[1..], Default).value;
      var a := PrintField(types, fields[0], NoRelations).value;
      var b := PrintField(types, fields[0], Default).value;
      assert PrintFields(types, fields, NoRelations).value == Present(a) + nr;
      assert PrintFields(types, fields, Default).value == Present(b) + st;
      if a.Some? {
        assert b == a;
        assert ([a.value] + nr)[1..] == nr && ([a.value] + st)[1..] == st;
      } else if b.Some? {
        assert Present(a) + nr == nr;
        SubsequenceCons(nr, b.value, st);
      } else {
        assert Present(a) + nr == nr && Present(b) + st == st;
      }
    }
  }

  /** The standard and the deep variant select the same number of fields: they
      differ only in the spread target. */
  lemma {:induction false} StandardAndDeepSelectAlike(types: seq<TypeDef>, fields: seq<FieldDef>)
    requires PrintFields(types, fields, Default).Ok?
    ensures PrintFields(types, fields, Deep).Ok?
    ensures |PrintFields(types, fields, Deep).value| == |PrintFields(types, fields, Default).value|
  {
    PrintFieldsFailIndependentOfVariant(types, fields, Default, Deep);
    if |fields| > 0 {
      StandardAndDeepSelectAlike(types, fields[1..]);
    }
  }

  /** Every selection sits on a line of its own, indented by two spaces. */
  lemma SelectionOnOwnLine(name: string, v: Variant, lines: seq<string>, i: nat)
    requires i < |lines|
    ensures Contains(FragmentText(name, v, lines), Indent(1) + lines[i])
  {
    LaidOutAfterSeparator("fragment " + name + Suffix(v) + " on " + name + " {", lines, Indent(1), "\n}\n", i);
  }

  /** A scalar or enum field appears by name, on its own line, in the fragment
      of every variant. */
  lemma ScalarFieldInEveryVariant(types: seq<TypeDef>, t: TypeDef, i: nat, v: Variant)
    requires i < |t.fields| && IsScalarField(types, t.fields[i])
    requires Fragment(types, t, v).Ok?
    ensures Contains(Fragment(types, t, v).value, Indent(1) + t.fields[i].name)
  {
    ScalarAndEnumPrintName(types, t.fields[i], v);
    var lines := PrintFields(types, t.fields, v).value;
    var k :| 0 <= k < |lines| && lines[k] == t.fields[i].name;
    SelectionOnOwnLine(t.name, v, lines, k);
  }

  /** An object field is spread one hop deep in the standard fragment. */
  lemma ObjectFieldInStandard(types: seq<TypeDef>, t: TypeDef, i: nat)
    requires i < |t.fields| && Reaches(t.fields[i].typeRef)
    requires KindOf(types, Innermost(t.fields[i].typeRef)) == Some(Object)
    requires Fragment(types, t, Default).Ok?
    ensures Contains(Fragment(types, t, Default).value,
                     Indent(1) + (t.fields[i].name + " {" + Indent(2) + "..." +
                                  Innermost(t.fields[i].typeRef) + "NoNesting" + Indent(1) + "}"))
  {
    var f := t.fields[i];
    ObjectStandardSpread(types, f);
    var lines := PrintFields(types, t.fields, Default).value;
    var line := f.name + " {" + Indent(2) + "..." + Innermost(f.typeRef) + "NoNesting" + Indent(1) + "}";
    assert PrintField(types, t.fields[i], Default) == Ok(Some(line));
    assert line in lines;
    var k :| 0 <= k < |lines| && lines[k] == line;
    SelectionOnOwnLine(t.name, Default, lines, k);
  }

  /** An object field of the deep fragment spreads the related type's standard fragment. */
  lemma ObjectFieldInDeep(types: seq<TypeDef>, t: TypeDef, i: nat)
    requires i < |t.fields| && Reaches(t.fields[i].typeRef)
    requires KindOf(types, Innermost(t.fields[i].typeRef)) == Some(Object)
    requires Fragment(types, t, Deep).Ok?
    ensures Contains(Fragment(types, t, Deep).value,
                     Indent(1) + (t.fields[i].name + " {" + Indent(2) + "..." +
                                  Innermost(t.fields[i].typeRef) + Indent(1) + "}"))
  {
    var f := t.fields[i];
    ObjectDeepSpread(types, f);
    var lines := PrintFields(types, t.fields, Deep).value;
    var line := f.name + " {" + Indent(2) + "..." + Innermost(f.typeRef) + Indent(1) + "}";
    assert PrintField(types, t.fields[i], Deep) == Ok(Some(line));
    assert line in lines;
    var k :| 0 <= k < |lines| && lines[k] == line;
    SelectionOnOwnLine(t.name, Deep, lines, k);
  }

  /** The `NoNesting` fragment selects only the names of fields the source
      classifies as scalar or enum: no object field, no spread. */
  lemma NoNestingSelectsOnlyScalars(types: seq<TypeDef>, t: TypeDef, line: string)
    requires PrintFields(types, t.fields, NoRelations).Ok?
    requires line in PrintFields(types, t.fields, NoRelations).value
    ensures exists i :: 0 <= i < |t.fields| && line == t.fields[i].name &&
                        Unwrap(types, t.fields[i].typeRef) in
                          {Ok(Classified(Scalar, Innermost(t.fields[i].typeRef))),
                           Ok(Classified(Enum, Innermost(t.fields[i].typeRef)))}
  {
    var i :| 0 <= i < |t.fields| && PrintField(types, t.fields[i], NoRelations) == Ok(Some(line));
  }
}
