# graphql-cli-generate-fragments: the fragment compiler

A Dafny model of the compiler inside the `generate-fragments` command
(`src/GenerateFragments.ts`). The command reads a GraphQL schema and writes
three fragments for every object type that is not a root operation type:

- `T`: scalar and enum fields by name. Object fields spread `...TNoNesting` of
  the related type.
- `TNoNesting`: scalar and enum fields only.
- `TDeepNesting`: like `T`, except that object fields spread `...T`, the
  related type's standard fragment (see "Where the code departs from its
  evident intent" below).

The result is rendered as a GraphQL document or as a JavaScript module of
`export const …Fragment` bindings. Line 146 chooses between them: the
generator's name either ends in `js` or it does not.

The modules follow the stages of the compile:

- `Schema`: the linked schema (`ast.getTypeMap()`, the root types, and each
  field's declared type node as the schema parser builds it), plus type lookup.
- `Layout`: the `fragmentType` suffixes, `indentedLine`, and the string
  utilities the proofs rely on (joining, containment, subsequences).
- `Selection`: the candidate filter of `makeFragments` (lines 182-206).
- `FieldPrinter`: `printField` (lines 329-388), following the source's walk over
  the field's type node.
- `Fragments`: the three fragment lists (lines 211-269).
- `Output`: the two dialects (lines 271-325), the whole `makeFragments`, and the
  extension choice of line 146.
- `Scenarios`: a book/author schema worked through the compiler.

Exceptions in the source are values of `Failure`:

- `MissingQueryRoot`: `ast.getQueryType()` is null at line 188.
- `NullDereference(p)`: property `p` is read from `null` or `undefined`.

The first exception aborts the whole compile, so `MakeFragments` returns a
`Result`.

### Where the code departs from its evident intent

The model follows the code in each of these cases:

- Line 381 evaluates `(fragmentType === this.fragmentType.DEFAULT) &&
  typeName + "NoNesting" || typeName + this.fragmentType.DEFAULT`. Outside the
  standard variant the comparison is false and the result is `T + ""`, so the
  deep fragment spreads `...T`, not `...TDeepNesting`. The comments the source
  writes into the GraphQL output (lines 316-319) promise "n nested fragments"
  and warn that a recursive relation makes a fragment spread itself. With the
  code as written no deep fragment spreads itself
  (`FieldPrinter.SpreadTarget`, `FieldPrinter.ObjectDeepSpread`).
- The source has no written description of how `printField` treats list and
  non-null wrappers. Its evident intent is to reach the named type under
  them. It does not strip wrappers until it reaches a named type. Three
  groups of shapes behave differently:
  - Resolved to the innermost type's kind: `T`, `T!`, `[T!]`, `[T]!` and `[[T]]`.
  - Throw at line 341: `[T]`, `[[T!]]` and `[[T]!]`.
  - Silently left out: `[T!]!` and `[[T]]!`.
  
  A bare list of a named type is therefore fatal, not an omission.
- Whether the missing query root throws depends on how far the filter chain
  gets. It throws only when some object type survives the first two filters.

## Model

| member | source | states |
|---|---|---|
| Layout.Suffix | src/GenerateFragments.ts:172-176 | the suffix is empty exactly for the standard variant |
| Layout.Indent | src/GenerateFragments.ts:164-170 | the indentation is a newline followed by exactly `2*level` spaces |
| Layout.IndentedLine | src/GenerateFragments.ts:164-170 | the loop that appends two spaces per level returns `Indent(level)` |
| Schema.TypeDefOf | src/GenerateFragments.ts:212-213 | `ast.getType(name)` is absent iff no type has that name, else the first type with that name |
| Schema.KindOf | src/GenerateFragments.ts:185 | a type's class is defined exactly when the name is in the type map, and is that entry's kind |
| Selection.VisibleObjectNames | src/GenerateFragments.ts:182-187 | exactly the object types not named `__…`, in type-map order, without duplicates when type names are unique |
| Selection.WithoutRoots | src/GenerateFragments.ts:188-200 | exactly the names that are not the query, mutation or subscription root, order kept |
| Selection.Candidates | src/GenerateFragments.ts:182-206 | fails with the missing query root iff there is no query root and some visible object type exists; otherwise exactly the visible non-root object types, in type-map order |
| Selection.RootNames | src/GenerateFragments.ts:188-200 | the set of root names the schema defines |
| Selection.CandidateCount | src/GenerateFragments.ts:182-200 | candidates plus the root types among the visible objects account for every visible object type |
| FieldPrinter.Lookup | src/GenerateFragments.ts:349-351 | succeeds iff some type in the map has the name; then it is classified under that name with the kind of the first such type; otherwise reading `constructor` throws |
| FieldPrinter.Unwrap | src/GenerateFragments.ts:330-359 | any classification is the kind of the innermost named type, on a shape the walk handles; every exception is a read of `name`, `value` or `constructor` off null or undefined |
| FieldPrinter.SpreadTarget | src/GenerateFragments.ts:381 | the standard variant spreads `TNoNesting`, every other variant the standard fragment `T`, never `TDeepNesting` |
| FieldPrinter.Emit | src/GenerateFragments.ts:361-387 | a selection is printed iff the field is a scalar, an enum, or an object outside the `NoNesting` variant; it starts with the field name and is the bare name unless the field is an object |
| FieldPrinter.PrintField | src/GenerateFragments.ts:329-388 | every exception is a null dereference; every printed selection starts with the field name; in the `NoNesting` variant it is the bare name |
| FieldPrinter.UnwrapFindsInnermost | src/GenerateFragments.ts:338-358 | on every shape the walk handles, the classification is the kind of the innermost named type |
| FieldPrinter.ListShapesThatThrow | src/GenerateFragments.ts:338-344 | a list shape other than `[T!]` and `[[T]]` throws, reading `name` of null for `[T]` and `value` of undefined otherwise |
| FieldPrinter.NonNullShapesLeftOut | src/GenerateFragments.ts:346-359 | a non-null shape other than `T!`, `[T]!` and `T!!` is left out of every variant |
| FieldPrinter.ScalarAndEnumPrintName | src/GenerateFragments.ts:361-366 | a scalar or enum field prints its bare name in every variant |
| FieldPrinter.ObjectStandardSpread | src/GenerateFragments.ts:368-384 | the standard variant prints an object field as a nested selection spreading `…TNoNesting` |
| FieldPrinter.ObjectDeepSpread | src/GenerateFragments.ts:376-384 | the deep variant prints an object field as a nested selection spreading `…T` |
| FieldPrinter.ObjectOmittedWithoutRelations | src/GenerateFragments.ts:368-369 | the `NoNesting` variant leaves object fields out |
| FieldPrinter.OtherKindsOmitted | src/GenerateFragments.ts:387 | interface, union and input-object fields are left out of every variant |
| FieldPrinter.FailureIndependentOfVariant | src/GenerateFragments.ts:329-359 | whether a field throws, and with what, is the same in every variant |
| Fragments.PrintFields | src/GenerateFragments.ts:219-223 | succeeds iff no field throws, else fails with the first failing field's error; on success holds at most one selection per field, and a line is among them iff some field prints exactly that line |
| Fragments.PrintFieldsInDeclaredOrder | src/GenerateFragments.ts:219-222 | the selections are the printed fields in declared order with the `null`s filtered out: `Somes` (the `filter`) of `Printed` (the `map`) |
| Fragments.FragmentText | src/GenerateFragments.ts:218-225 | the text opens with `fragment {N}{suffix} on {N} {` and a line indented by two spaces, and closes with `}` on a line of its own |
| Fragments.Fragment | src/GenerateFragments.ts:211-269 | a type's fragment builds iff none of its fields throws, and then is the fragment text over the printed selections |
| Fragments.FragmentInDeclaredOrder | src/GenerateFragments.ts:218-225 | a built fragment lays out the printed fields in declared order, `null`s left out |
| Fragments.FragmentList | src/GenerateFragments.ts:211-269 | succeeds iff every name is a defined type whose fragment builds; then has exactly one entry per name |
| Fragments.FragmentListEntries | src/GenerateFragments.ts:211-269 | entry `i` of a built list carries the `i`-th name and that type's fragment, so the list keeps the names' order |
| Fragments.PrintFieldsFailIndependentOfVariant | src/GenerateFragments.ts:219-263 | the three lists fail on the same types with the same error |
| Fragments.ScalarFieldsSelectedInOrder | src/GenerateFragments.ts:219-223 | a type of scalar and enum fields selects all of its field names in declared order |
| Fragments.NoNestingIsSubsequenceOfStandard | src/GenerateFragments.ts:219-244 | the `NoNesting` selections are the standard ones with some removed, order kept |
| Fragments.StandardAndDeepSelectAlike | src/GenerateFragments.ts:219-264 | the deep variant selects as many fields as the standard one |
| Fragments.SelectionOnOwnLine | src/GenerateFragments.ts:218-225 | every selection stands in the fragment text after a newline and two spaces |
| Fragments.ScalarFieldInEveryVariant | src/GenerateFragments.ts:211-269 | a scalar or enum field appears by name on its own line in every variant's fragment |
| Fragments.ObjectFieldInStandard | src/GenerateFragments.ts:211-228 | an object field appears in the standard fragment as a nested `…TNoNesting` spread |
| Fragments.ObjectFieldInDeep | src/GenerateFragments.ts:250-269 | an object field appears in the deep fragment as a nested `…T` spread |
| Fragments.NoNestingSelectsOnlyScalars | src/GenerateFragments.ts:230-249 | every `NoNesting` selection is the name of a field the walk classifies as scalar or enum |
| Output.Extension | src/GenerateFragments.ts:146 | the extension is `js` iff the generator ends in `js`, and `graphql` otherwise |
| Output.JsBinding | src/GenerateFragments.ts:276-278 | the binding is `export const {N}{suffix}Fragment` on a fresh line, holding the fragment between backticks |
| Output.JsBindingsInOrder | src/GenerateFragments.ts:274-280 | the bindings of a section stand in its text in list order: binding `i` comes right after the bindings of the fragments before it and right before those after it |
| Output.JsBody | src/GenerateFragments.ts:274-295 | the standard bindings come first and the deep bindings last, after a newline, followed by a newline |
| Output.GraphqlEntriesInOrder | src/GenerateFragments.ts:303-306 | the fragments of a section stand in its text in list order, each after a newline: fragment `i` comes right after the entries before it and right before those after it |
| Output.GraphqlBody | src/GenerateFragments.ts:303-325 | the standard fragments come first, the deep section with its heading last |
| Output.Render | src/GenerateFragments.ts:271-325 | the JavaScript text starts with the JavaScript header and any other with the GraphQL header |
| Output.MakeFragments | src/GenerateFragments.ts:178-327 | fails with the missing query root when the candidates fail; every failure is the missing root or a null dereference; a result starts with its dialect's header |
| Output.GenerateFragments | src/GenerateFragments.ts:144-151 | the text starts with the JavaScript header iff the generator ends in `js`, and with the GraphQL header iff it does not |
| Output.CandidatesAreDefined | src/GenerateFragments.ts:182-213 | every candidate name has an entry in the type map |
| Output.CompileSucceedsIff | src/GenerateFragments.ts:182-269 | the compile succeeds iff the candidates are computed and no field of a candidate type throws, in either dialect |
| Output.ThrowingFieldAbortsCompile | src/GenerateFragments.ts:338-344 | a candidate type with a throwing list field aborts the compile |
| Output.MissingQueryRootAborts | src/GenerateFragments.ts:182-188 | with no query root and some visible object type, the compile fails with the missing query root |
| Output.JsTextHasBinding | src/GenerateFragments.ts:274-294 | every binding of every section stands in the JavaScript text |
| Output.GraphqlTextHasFragment | src/GenerateFragments.ts:303-324 | every fragment of every section stands on a fresh line in the GraphQL text |
| Output.JsExportsEveryFragment | src/GenerateFragments.ts:271-295 | the JavaScript module exports each candidate's three fragments as `{N}{suffix}Fragment` |
| Output.GraphqlListsEveryFragment | src/GenerateFragments.ts:297-325 | the GraphQL document holds each candidate's three fragments, each on a fresh line |
| Scenarios.LibraryVisibleObjects | src/GenerateFragments.ts:183-187 | in the book schema, the object types that are not introspection types are `Query`, `Book` and `Author`, in that order |
| Scenarios.LibraryWithoutRoots | src/GenerateFragments.ts:188-200 | dropping the roots of the book schema leaves `Book` and `Author` |
| Scenarios.LibraryCandidates | src/GenerateFragments.ts:182-206 | in the book schema, the candidates are `Book` and `Author`, not the query root or the introspection type |
| Scenarios.AuthorFieldIsObject | src/GenerateFragments.ts:346-351 | `author: Author!` is classified as the object type `Author` |
| Scenarios.AuthorFieldStandard | src/GenerateFragments.ts:368-384 | `printField` in the standard variant prints `author { ...AuthorNoNesting }` |
| Scenarios.AuthorFieldWithoutRelations | src/GenerateFragments.ts:369 | `printField` in the `NoNesting` variant leaves out `author` |
| Scenarios.AuthorFieldDeep | src/GenerateFragments.ts:381 | `printField` in the deep variant prints `author { ...Author }` |
| Scenarios.ListShapes | src/GenerateFragments.ts:338-359 | `[String!]!` is left out, `[String!]` prints its name, and `[String]` throws |

## Left out

- The command driver: argument handling, project configuration, output-path
  and schema-path resolution, `importSchema`, writing the file and saving the
  configuration (lines 34-139, 147-150, 152-157 and 390 onward), and `src/index.ts`.
  They are file-system and configuration I/O around the compiler. The compiler
  receives the generator name and the linked schema as parameters.
- Parsing and linking the schema (`parse`, `buildASTSchema`, lines 179-180).
  These belong to the GraphQL library. The model starts from the linked schema:
  type names in type-map order, each type's kind and declared fields, and the
  root names.
- Selection.Candidates: the sort at lines 201-206 is modelled as keeping the
  filtered order. Every candidate is an object type, so the comparator never
  sees two different keys. It answers 1 for every pair, and the order it then
  produces depends on the JavaScript engine's sort algorithm.
- FieldPrinter.Unwrap: the branch at lines 332-336 (a field whose runtime type's
  class is plain `Object`) is not modelled. The schema library never builds
  such a type.
- Schemas whose fields name a type missing from the type map are outside the
  model. `buildASTSchema` rejects them. On such a schema `FieldPrinter.Lookup`
  throws `NullDereference("constructor")`, which line 331 would not do for a
  bare named type.
- Layout.IndentedLine: `level` is a natural number. The source is called only
  with 1 and 2.

Throughout this model, integers are unbounded and strings are sequences of
characters. The source only builds strings from its inputs, with no numeric
overflow and no encoding step.
