/** Candidate selection in `makeFragments` (GenerateFragments.ts lines 182-206):
    the names of the type map's object types that get fragments. */
module Selection {
  import opened Wrappers
  import opened Schema
  import opened Layout

  /** Filters one and two: an object type that is not an introspection type. */
  predicate IsVisibleObject(t: TypeDef)
  {
    t.kind == Object && !IsPrefix("__", t.name)
  }

  /** `name` names the root type `root`, when the schema defines that root. */
  predicate IsRoot(name: string, root: Option<string>)
  {
    root.Some? && root.value == name
  }

  predicate IsRootName(s: Schema, name: string)
  {
    IsRoot(name, s.queryRoot) || IsRoot(name, s.mutationRoot) || IsRoot(name, s.subscriptionRoot)
  }

  /** A type that gets the three fragments. */
  predicate IsCandidate(s: Schema, t: TypeDef)
  {
    IsVisibleObject(t) && !IsRootName(s, t.name)
  }

  /** `Object.keys(ast.getTypeMap())`. */
  function Names(types: seq<TypeDef>): seq<string>
  {
    if |types| == 0 then [] else [types[0].name] + Names(types[1..])
  }

  predicate Distinct(xs: seq<string>)
  {
    forall i, j :: 0 <= i < j < |xs| ==> xs[i] != xs[j]
  }

  /** Lines 182-187: the keys whose type is an object type, minus names starting with "__". */
  function VisibleObjectNames(types: seq<TypeDef>): (r: seq<string>)
    ensures forall n :: n in r <==> exists i :: 0 <= i < |types| && types[i].name == n && IsVisibleObject(types[i])
    ensures IsSubsequence(r, Names(types))
    ensures UniqueNames(types) ==> Distinct(r)
  {
    if |types| == 0 then []
    else
      var rest := VisibleObjectNames(types[1..]);
      assert forall i :: 1 <= i < |types| ==> types[i] == types[1..][i - 1];
      assert Names(types)[1..] == Names(types[1..]);
      if IsVisibleObject(types[0]) then
        assert ([types[0].name] + rest)[1..] == rest;
        assert UniqueNames(types) ==> UniqueNames(types[1..]) && types[0].name !in rest;
        [types[0].name] + rest
      else
        rest
  }

  /** Lines 188-200, once the query root is known to exist: drop the root type names. */
  function WithoutRoots(names: seq<string>, s: Schema): (r: seq<string>)
    ensures forall n :: n in r <==> n in names && !IsRootName(s, n)
    ensures IsSubsequence(r, names)
  {
    if |names| == 0 then []
    else
      var rest := WithoutRoots(names[1..], s);
      if !IsRoot(names[0], s.queryRoot) && !IsRoot(names[0], s.mutationRoot)
         && !IsRoot(names[0], s.subscriptionRoot) then
        assert ([names[0]] + rest)[1..] == rest;
        [names[0]] + rest
      else
        rest
  }

  /** The candidate type names, in type-map order (the sort at lines 201-206
      compares equal keys and is taken to keep that order). The filter at line 188
      reads `ast.getQueryType().name` once per surviving name, so a schema without
      a query root throws exactly when some visible object type reaches it. */
  function Candidates(s: Schema): (r: Result<seq<string>, Failure>)
    ensures r.Err? <==> s.queryRoot.None? && exists i :: 0 <= i < |s.types| && IsVisibleObject(s.types[i])
    ensures r.Err? ==> r.error == MissingQueryRoot
    ensures r.Ok? ==> forall n :: n in r.value <==>
                        exists i :: 0 <= i < |s.types| && s.types[i].name == n && IsCandidate(s, s.types[i])
    ensures r.Ok? ==> IsSubsequence(r.value, Names(s.types))
  {
    var visible := VisibleObjectNames(s.types);
    if |visible| > 0 && s.queryRoot.None? then
      assert visible[0] in visible;
      Err(MissingQueryRoot)
    else
      assert forall i :: 0 <= i < |s.types| && IsVisibleObject(s.types[i]) ==> s.types[i].name in visible;
      SubsequenceTrans(WithoutRoots(visible, s), visible, Names(s.types));
      Ok(WithoutRoots(visible, s))
  }

  /** The names of the root operation types the schema defines. */
  function RootNames(s: Schema): (r: set<string>)
    ensures forall n :: n in r <==> IsRootName(s, n)
  {
    (if s.queryRoot.Some? then {s.queryRoot.value} else {}) +
    (if s.mutationRoot.Some? then {s.mutationRoot.value} else {}) +
    (if s.subscriptionRoot.Some? then {s.subscriptionRoot.value} else {})
  }

  function Elements(xs: seq<string>): (r: set<string>)
    ensures forall n :: n in r <==> n in xs
  {
    if |xs| == 0 then {} else {xs[0]} + Elements(xs[1..])
  }

  lemma IntersectWithOneMore(roots: set<string>, rest: set<string>, a: string)
    requires a !in rest
    ensures |roots * ({a} + rest)| == |roots * rest| + (if a in roots then 1 else 0)
  {
    if a in roots {
      assert roots * ({a} + rest) == (roots * rest) + {a};
    } else {
      assert roots * ({a} + rest) == roots * rest;
    }
  }

  lemma {:induction false} WithoutRootsCount(names: seq<string>, s: Schema)
    requires Distinct(names)
    ensures |WithoutRoots(names, s)| + |RootNames(s) * Elements(names)| == |names|
  {
    if |names| > 0 {
      var a, rest := names[0], names[1..];
      assert Distinct(rest) by {
        forall i, j | 0 <= i < j < |rest| ensures rest[i] != rest[j] {
          assert rest[i] == names[i + 1] && rest[j] == names[j + 1];
        }
      }
      assert a !in Elements(rest) by {
        forall k | 0 <= k < |rest| ensures rest[k] != a {
          assert rest[k] == names[k + 1];
        }
      }
      IntersectWithOneMore(RootNames(s), Elements(rest), a);
      WithoutRootsCount(rest, s);
    }
  }

  /** The number of candidates is the number of visible object types minus the
      root operation types among them. */
  lemma CandidateCount(s: Schema)
    requires UniqueNames(s.types)
    requires Candidates(s).Ok?
    ensures |Candidates(s).value| + |RootNames(s) * Elements(VisibleObjectNames(s.types))|
            == |VisibleObjectNames(s.types)|
  {
    WithoutRootsCount(VisibleObjectNames(s.types), s);
  }
}
