/**
 * The read-only walks of `ModelUtils` over the model graph: which variables need an
 * instance because something in them is drawn, which variables of composite types
 * have a given metaType, and which variables a raw diff report carries.
 *
 * A slot that is still a raw `{$ref}`, or missing, has none of the methods the walks
 * call on a type, so reaching one throws a TypeError.
 */
module Walks {
  import opened Wrappers
  import opened Seqs
  import opened Strings
  import opened Meta
  import opened Graph
  import Types
  import Raw
  import Factory

  /** The dotted path of a child: just its id under the empty path. */
  function ChildPath(parentPath: string, id: string): string
  {
    if parentPath == "" then id else parentPath + "." + id
  }

  /** Two parts of a walk one after the other; the first throw ends it. */
  function Joined<T>(a: Result<seq<T>>, b: Result<seq<T>>): (r: Result<seq<T>>)
    ensures r.Success? <==> a.Success? && b.Success?
    ensures r.Success? ==> r.value == a.value + b.value
    ensures a.Failure? ==> r == a
  {
    if a.Failure? then a else if b.Failure? then b else Success(a.value + b.value)
  }

  // ------------------------------------------------------------ fetchVarsWithVisualTypes (specification)

  /** The paths of the variables in `vs` (and nested in them) that something makes visible. */
  function VisualPaths(vs: seq<Variable>, parentPath: string): Result<seq<string>>
    decreases vs, 0
  {
    if |vs| == 0 then Success([])
    else Joined(VisualPaths(vs[..|vs| - 1], parentPath), VisualPathsOfVariable(vs[|vs| - 1], parentPath))
  }

  function VisualPathsOfVariable(v: Variable, parentPath: string): Result<seq<string>>
    decreases v, 2
  {
    VisualPathsOfTypes(v, |v.types| + |v.anonymousTypes|, ChildPath(parentPath, v.id))
  }

  /** The first `k` entries of `getTypes()`: the declared types, then the anonymous ones. */
  function VisualPathsOfTypes(v: Variable, k: nat, path: string): Result<seq<string>>
    requires k <= |v.types| + |v.anonymousTypes|
    decreases v, 1, k
  {
    if k == 0 then Success([])
    else
      var here := if k - 1 < |v.types| then VisualPathsOfSlot(v.types[k - 1], path)
                  else VisualPathsOfType(v.anonymousTypes[k - 1 - |v.types|], path);
      Joined(VisualPathsOfTypes(v, k - 1, path), here)
  }

  function VisualPathsOfSlot(s: Slot, path: string): Result<seq<string>>
    decreases s, 0
  {
    if s.Obj? then VisualPathsOfType(s.t, path) else Failure(Graph.TYPE_ERROR)
  }

  /**
   * One type of a variable at `path`: the path is pushed when a plain or composite type
   * has a visual type, when an array's element type has one, or when the type is
   * itself visual; composite types and arrays of composites are then walked into.
   */
  function VisualPathsOfType(t: Type, path: string): Result<seq<string>>
    decreases t, 0
  {
    var own: Result<seq<string>> :=
      if t.metaType == SIMPLE_TYPE || t.metaType == COMPOSITE_TYPE then Success(if t.visualType != Undef then [path] else [])
      else if t.metaType == ARRAY_TYPE then
        if t.body.ArrayOf? && t.body.element.Obj? then Success(if t.body.element.t.visualType != Undef then [path] else [])
        else Failure(Graph.TYPE_ERROR)
      else if t.metaType == VISUAL_TYPE || t.metaType == COMPOSITE_VISUAL_TYPE then Success([path])
      else Success([]);
    var nested: Result<seq<string>> :=
      if t.metaType == COMPOSITE_TYPE then
        if IsCompositeClass(t) then VisualPaths(t.body.variables, path) else Success([])
      else if t.metaType == ARRAY_TYPE && t.body.ArrayOf? && t.body.element.Obj? then
        if t.body.element.t.metaType == COMPOSITE_TYPE && IsCompositeClass(t.body.element.t) then
          VisualPaths(t.body.element.t.body.variables, path)
        else Success([])
      else Success([]);
    Joined(own, nested)
  }

  // ------------------------------------------------------------ properties of the visual walk

  predicate AllStartWith(r: Result<seq<string>>, prefix: string)
  {
    r.Success? ==> forall p :: p in r.value ==> StartsWith(p, prefix)
  }

  lemma JoinedStartWith(a: Result<seq<string>>, b: Result<seq<string>>, prefix: string)
    requires AllStartWith(a, prefix) && AllStartWith(b, prefix)
    ensures AllStartWith(Joined(a, b), prefix)
  {
  }

  lemma StartsWithLonger(p: string, a: string, b: string)
    requires StartsWith(p, a + b)
    ensures StartsWith(p, a)
  {
    assert p[..|a|] == (a + b)[..|a|];
  }

  /** The prefix every nested path carries: `parentPath.`, or nothing under the empty path. */
  function Under(parentPath: string): string
  {
    if parentPath == "" then "" else parentPath + "."
  }

  /** Every path found under `parentPath` extends it by a dot and at least one more segment. */
  lemma {:induction false} VisualPathsUnder(vs: seq<Variable>, parentPath: string)
    ensures AllStartWith(VisualPaths(vs, parentPath), Under(parentPath))
    decreases vs, 0
  {
    if |vs| > 0 {
      var v := vs[|vs| - 1];
      VisualPathsUnder(vs[..|vs| - 1], parentPath);
      VisualPathsOfVariableUnder(v, parentPath);
      var r := VisualPathsOfVariable(v, parentPath);
      if r.Success? && parentPath != "" {
        forall p | p in r.value
          ensures StartsWith(p, Under(parentPath))
        {
          StartsWithLonger(p, parentPath + ".", v.id);
        }
      }
      JoinedStartWith(VisualPaths(vs[..|vs| - 1], parentPath), r, Under(parentPath));
    }
  }

  lemma VisualPathsOfVariableUnder(v: Variable, parentPath: string)
    ensures AllStartWith(VisualPathsOfVariable(v, parentPath), ChildPath(parentPath, v.id))
    decreases v, 2
  {
    VisualPathsOfTypesUnder(v, |v.types| + |v.anonymousTypes|, ChildPath(parentPath, v.id));
  }

  lemma {:induction false} VisualPathsOfTypesUnder(v: Variable, k: nat, path: string)
    requires k <= |v.types| + |v.anonymousTypes|
    ensures AllStartWith(VisualPathsOfTypes(v, k, path), path)
    decreases v, 1, k
  {
    if k > 0 {
      VisualPathsOfTypesUnder(v, k - 1, path);
      if k - 1 < |v.types| {
        VisualPathsOfSlotUnder(v.types[k - 1], path);
      } else {
        VisualPathsOfTypeUnder(v.anonymousTypes[k - 1 - |v.types|], path);
      }
    }
  }

  lemma VisualPathsOfSlotUnder(s: Slot, path: string)
    ensures AllStartWith(VisualPathsOfSlot(s, path), path)
    decreases s, 0
  {
    if s.Obj? {
      VisualPathsOfTypeUnder(s.t, path);
    }
  }

  lemma {:induction false} VisualPathsOfTypeUnder(t: Type, path: string)
    ensures AllStartWith(VisualPathsOfType(t, path), path)
    decreases t, 0
  {
    assert StartsWith(path, path) by {
      assert path[..|path|] == path;
    }
    var vs: seq<Variable> := [];
    var walked := false;
    if t.metaType == COMPOSITE_TYPE && IsCompositeClass(t) {
      vs, walked := t.body.variables, true;
    } else if t.metaType == ARRAY_TYPE && t.body.ArrayOf? && t.body.element.Obj? &&
              t.body.element.t.metaType == COMPOSITE_TYPE && IsCompositeClass(t.body.element.t) {
      vs, walked := t.body.element.t.body.variables, true;
    }
    if walked {
      VisualPathsUnder(vs, path);
      var r := VisualPaths(vs, path);
      if r.Success? && path != "" {
        forall p | p in r.value
          ensures StartsWith(p, path)
        {
          StartsWithLonger(p, path, ".");
        }
      }
    }
  }

  /** A visual or composite-visual type always makes its variable's path visible. */
  lemma VisualTypeIsVisible(t: Type, path: string)
    requires t.metaType == VISUAL_TYPE || t.metaType == COMPOSITE_VISUAL_TYPE
    ensures VisualPathsOfType(t, path) == Success([path])
  {
    assert |VISUAL_TYPE| != |SIMPLE_TYPE| && |VISUAL_TYPE| != |COMPOSITE_TYPE| && |VISUAL_TYPE| != |ARRAY_TYPE|;
    assert |COMPOSITE_VISUAL_TYPE| != |SIMPLE_TYPE| && |COMPOSITE_VISUAL_TYPE| != |COMPOSITE_TYPE| && |COMPOSITE_VISUAL_TYPE| != |ARRAY_TYPE|;
    assert [path] + [] == [path];
  }

  /** A plain or composite type is visible exactly when it has a visual type; its own path comes first. */
  lemma VisualTypeOfPlain(t: Type, path: string)
    requires t.metaType == SIMPLE_TYPE || t.metaType == COMPOSITE_TYPE
    ensures var r := VisualPathsOfType(t, path);
      r.Success? ==> ((|r.value| > 0 && r.value[0] == path) <== (t.visualType != Undef))
    ensures t.metaType == SIMPLE_TYPE ==> VisualPathsOfType(t, path) == Success(if t.visualType != Undef then [path] else [])
  {
    assert |SIMPLE_TYPE| != |COMPOSITE_TYPE| && |SIMPLE_TYPE| != |ARRAY_TYPE|;
    assert [path] + [] == [path];
  }

  /** What a successful walk returns contains what each of its parts returns. */
  lemma {:induction false} VariableListed(vs: seq<Variable>, parentPath: string, i: nat)
    requires i < |vs| && VisualPaths(vs, parentPath).Success?
    ensures VisualPathsOfVariable(vs[i], parentPath).Success?
    ensures forall p :: p in VisualPathsOfVariable(vs[i], parentPath).value ==> p in VisualPaths(vs, parentPath).value
    decreases |vs|
  {
    if i < |vs| - 1 {
      assert vs[..|vs| - 1][i] == vs[i];
      VariableListed(vs[..|vs| - 1], parentPath, i);
    }
  }

  lemma {:induction false} TypeListed(v: Variable, k: nat, j: nat, path: string)
    requires j < k <= |v.types| + |v.anonymousTypes| && VisualPathsOfTypes(v, k, path).Success?
    requires |v.types| <= j
    ensures VisualPathsOfType(v.anonymousTypes[j - |v.types|], path).Success?
    ensures forall p :: p in VisualPathsOfType(v.anonymousTypes[j - |v.types|], path).value ==> p in VisualPathsOfTypes(v, k, path).value
    decreases k
  {
    if j < k - 1 {
      TypeListed(v, k - 1, j, path);
    }
  }

  /**
   * Completeness: when the walk succeeds, a variable with an anonymous visual type is
   * among the paths it returns.
   */
  lemma VisualVariableListed(vs: seq<Variable>, parentPath: string, i: nat, j: nat)
    requires i < |vs| && j < |vs[i].anonymousTypes|
    requires vs[i].anonymousTypes[j].metaType == VISUAL_TYPE || vs[i].anonymousTypes[j].metaType == COMPOSITE_VISUAL_TYPE
    requires VisualPaths(vs, parentPath).Success?
    ensures ChildPath(parentPath, vs[i].id) in VisualPaths(vs, parentPath).value
  {
    var v := vs[i];
    var path := ChildPath(parentPath, v.id);
    VariableListed(vs, parentPath, i);
    TypeListed(v, |v.types| + |v.anonymousTypes|, |v.types| + j, path);
    VisualTypeIsVisible(v.anonymousTypes[j], path);
  }

  // ------------------------------------------------------------ fetchVarsWithVisualTypes (the loops)

  /** `fetchVarsWithVisualTypes(variables, parentPath)`. */
  method FetchVarsWithVisualTypes(variables: seq<Variable>, parentPath: string) returns (r: Result<seq<string>>)
    ensures r == VisualPaths(variables, parentPath)
    decreases variables, 0
  {
    var found: seq<string> := [];
    var i := 0;
    assert variables[..0] == [];
    while i < |variables|
      invariant 0 <= i <= |variables|
      invariant VisualPaths(variables[..i], parentPath) == Success(found)
    {
      assert variables[..i + 1][..i] == variables[..i];
      var more := FetchOfVariable(variables[i], parentPath);
      if more.Failure? {
        VisualPathsFailurePersists(variables, parentPath, i + 1);
        return more;
      }
      found := found + more.value;
      i := i + 1;
    }
    assert variables[..i] == variables;
    r := Success(found);
  }

  lemma {:induction false} VisualPathsFailurePersists(vs: seq<Variable>, parentPath: string, j: nat)
    requires j <= |vs| && VisualPaths(vs[..j], parentPath).Failure?
    ensures VisualPaths(vs, parentPath) == VisualPaths(vs[..j], parentPath)
    decreases |vs|
  {
    if j < |vs| {
      assert vs[..|vs| - 1][..j] == vs[..j];
      VisualPathsFailurePersists(vs[..|vs| - 1], parentPath, j);
    } else {
      assert vs[..j] == vs;
    }
  }

  /** The loop over one variable's `getTypes()`. */
  method FetchOfVariable(v: Variable, parentPath: string) returns (r: Result<seq<string>>)
    ensures r == VisualPathsOfVariable(v, parentPath)
    decreases v, 2
  {
    var path := if parentPath == "" then v.id else parentPath + "." + v.id;
    var found: seq<string> := [];
    var k := 0;
    while k < |v.types| + |v.anonymousTypes|
      invariant 0 <= k <= |v.types| + |v.anonymousTypes|
      invariant VisualPathsOfTypes(v, k, path) == Success(found)
    {
      var more: Result<seq<string>>;
      if k < |v.types| {
        more := FetchOfSlot(v.types[k], path);
      } else {
        more := FetchOfType(v.anonymousTypes[k - |v.types|], path);
      }
      if more.Failure? {
        VisualPathsOfTypesFailurePersists(v, path, k + 1);
        return more;
      }
      found := found + more.value;
      k := k + 1;
    }
    r := Success(found);
  }

  lemma {:induction false} VisualPathsOfTypesFailurePersists(v: Variable, path: string, k: nat)
    requires k <= |v.types| + |v.anonymousTypes| && VisualPathsOfTypes(v, k, path).Failure?
    ensures VisualPathsOfTypes(v, |v.types| + |v.anonymousTypes|, path) == VisualPathsOfTypes(v, k, path)
    decreases |v.types| + |v.anonymousTypes| - k
  {
    if k < |v.types| + |v.anonymousTypes| {
      VisualPathsOfTypesFailurePersists(v, path, k + 1);
    }
  }

  method FetchOfSlot(s: Slot, path: string) returns (r: Result<seq<string>>)
    ensures r == VisualPathsOfSlot(s, path)
    decreases s, 0
  {
    if s.Obj? {
      r := FetchOfType(s.t, path);
    } else {
      r := Failure(Graph.TYPE_ERROR);
    }
  }

  /** One iteration of the loop over the types: the visual test, then the recursion. */
  method FetchOfType(t: Type, path: string) returns (r: Result<seq<string>>)
    ensures r == VisualPathsOfType(t, path)
    decreases t, 0
  {
    var own: seq<string> := [];
    if t.metaType == SIMPLE_TYPE || t.metaType == COMPOSITE_TYPE {
      if t.visualType != Undef {
        own := [path];
      }
    } else if t.metaType == ARRAY_TYPE {
      if !(t.body.ArrayOf? && t.body.element.Obj?) {
        return Failure(Graph.TYPE_ERROR);
      }
      if t.body.element.t.visualType != Undef {
        own := [path];
      }
    } else if t.metaType == VISUAL_TYPE || t.metaType == COMPOSITE_VISUAL_TYPE {
      own := [path];
    }
    var nested: Result<seq<string>> := Success([]);
    if t.metaType == COMPOSITE_TYPE {
      if IsCompositeClass(t) {
        nested := FetchVarsWithVisualTypes(t.body.variables, path);
      }
    } else if t.metaType == ARRAY_TYPE {
      var e := t.body.element.t;
      if e.metaType == COMPOSITE_TYPE && IsCompositeClass(e) {
        nested := FetchVarsWithVisualTypes(e.body.variables, path);
      }
    }
    r := Joined(Success(own), nested);
  }

  // ------------------------------------------------------------ getAllVariablesOfMetaType

  /** A single argument is treated as a list of one. */
  function AsList<T>(x: OneOrMany<T>): (r: seq<T>)
    ensures x.One? ==> r == [x.item]
    ensures x.Many? ==> r == x.items
  {
    if x.One? then [x.item] else x.items
  }

  /** Every type whose metaType says composite carries its variable list. */
  predicate CompositesListVariables(ts: seq<Type>)
  {
    forall k :: 0 <= k < |ts| && ts[k].metaType == COMPOSITE_TYPE ==> IsCompositeClass(ts[k])
  }

  /** How many of the slots are resolved types of metaType `m`; a raw or missing slot throws. */
  function MatchingSlots(ss: seq<Slot>, m: string): Result<nat>
  {
    if |ss| == 0 then Success(0)
    else
      var front := MatchingSlots(ss[..|ss| - 1], m);
      var s := ss[|ss| - 1];
      if front.Failure? then front
      else if !s.Obj? then Failure(Graph.TYPE_ERROR)
      else Success(front.value + if s.t.metaType == m then 1 else 0)
  }

  function Repeat<T>(x: T, n: nat): (r: seq<T>)
    ensures |r| == n && forall k :: 0 <= k < n ==> r[k] == x
  {
    if n == 0 then [] else Repeat(x, n - 1) + [x]
  }

  /** The variables with a type of metaType `m`, each once per such type. */
  function VariablesWithMetaType(vs: seq<Variable>, m: string): Result<seq<Variable>>
  {
    if |vs| == 0 then Success([])
    else
      var v := vs[|vs| - 1];
      var n := MatchingSlots(GetTypes(v), m);
      Joined(VariablesWithMetaType(vs[..|vs| - 1], m), if n.Failure? then Failure(n.error) else Success(Repeat(v, n.value)))
  }

  /** The composite types' variables, all of them or only those with metaType `m`. */
  function VariablesOfMetaType(ts: seq<Type>, metaType: Option<string>): Result<seq<Variable>>
    requires CompositesListVariables(ts)
  {
    if |ts| == 0 then Success([])
    else
      var t := ts[|ts| - 1];
      var here := if t.metaType != COMPOSITE_TYPE then Success([])
                  else if metaType.None? then Success(t.body.variables)
                  else VariablesWithMetaType(t.body.variables, metaType.value);
      Joined(VariablesOfMetaType(ts[..|ts| - 1], metaType), here)
  }

  /** The variables of the composite types among `ts`, in order. */
  function CompositeVariables(ts: seq<Type>): seq<Variable>
    requires CompositesListVariables(ts)
  {
    if |ts| == 0 then []
    else
      var t := ts[|ts| - 1];
      CompositeVariables(ts[..|ts| - 1]) + (if t.metaType == COMPOSITE_TYPE then t.body.variables else [])
  }

  /** Without a metaType, every variable of every composite type, and nothing can throw. */
  lemma {:induction false} NoMetaTypeTakesAll(ts: seq<Type>)
    requires CompositesListVariables(ts)
    ensures VariablesOfMetaType(ts, None) == Success(CompositeVariables(ts))
  {
    if |ts| > 0 {
      NoMetaTypeTakesAll(ts[..|ts| - 1]);
    }
  }

  /** With a metaType, a variable is returned exactly when one of its types has it (when nothing throws). */
  lemma {:induction false} MatchingMeans(vs: seq<Variable>, m: string)
    ensures var r := VariablesWithMetaType(vs, m);
      r.Success? ==> forall x :: x in r.value <==> x in vs && exists s :: s in GetTypes(x) && s.Obj? && s.t.metaType == m
  {
    if |vs| > 0 {
      var v := vs[|vs| - 1];
      var front := vs[..|vs| - 1];
      MatchingMeans(front, m);
      var r := VariablesWithMetaType(vs, m);
      if r.Success? {
        var n := MatchingSlots(GetTypes(v), m);
        MatchingSlotsMeans(GetTypes(v), m);
        assert vs == front + [v];
        forall x
          ensures x in r.value <==> x in vs && exists s :: s in GetTypes(x) && s.Obj? && s.t.metaType == m
        {
          if x == v && n.value > 0 {
            assert Repeat(v, n.value)[0] == v;
          }
        }
      }
    }
  }

  lemma {:induction false} MatchingSlotsMeans(ss: seq<Slot>, m: string)
    ensures var n := MatchingSlots(ss, m);
      n.Success? ==> (forall s :: s in ss ==> s.Obj?) && (n.value > 0 <==> exists s :: s in ss && s.Obj? && s.t.metaType == m)
  {
    if |ss| > 0 {
      var front := ss[..|ss| - 1];
      MatchingSlotsMeans(front, m);
      assert ss == front + [ss[|ss| - 1]];
    }
  }

  /** `getAllVariablesOfMetaType(typesToSearch, metaType)`; an absent metaType is `None`. */
  method GetAllVariablesOfMetaType(typesToSearch: OneOrMany<Type>, metaType: Option<string>) returns (r: Result<seq<Variable>>)
    requires CompositesListVariables(AsList(typesToSearch))
    ensures r == VariablesOfMetaType(AsList(typesToSearch), metaType)
  {
    var ts := AsList(typesToSearch);
    var variables: seq<Variable> := [];
    var i := 0;
    while i < |ts|
      invariant 0 <= i <= |ts|
      invariant VariablesOfMetaType(ts[..i], metaType) == Success(variables)
    {
      assert ts[..i + 1][..i] == ts[..i];
      if ts[i].metaType == COMPOSITE_TYPE {
        var nested := ts[i].body.variables;
        if metaType.Some? {
          var more := VariablesOfType(nested, metaType.value);
          if more.Failure? {
            OfMetaTypeFailurePersists(ts, metaType, i + 1);
            return more;
          }
          variables := variables + more.value;
        } else {
          variables := variables + nested;
        }
      } else {
        assert variables + [] == variables;
      }
      i := i + 1;
    }
    assert ts[..i] == ts;
    r := Success(variables);
  }

  lemma {:induction false} OfMetaTypeFailurePersists(ts: seq<Type>, metaType: Option<string>, j: nat)
    requires CompositesListVariables(ts)
    requires j <= |ts| && VariablesOfMetaType(ts[..j], metaType).Failure?
    ensures VariablesOfMetaType(ts, metaType) == VariablesOfMetaType(ts[..j], metaType)
    decreases |ts|
  {
    if j < |ts| {
      assert ts[..|ts| - 1][..j] == ts[..j];
      OfMetaTypeFailurePersists(ts[..|ts| - 1], metaType, j);
    } else {
      assert ts[..j] == ts;
    }
  }

  /** The inner loops over the nested variables and each one's types. */
  method VariablesOfType(nested: seq<Variable>, m: string) returns (r: Result<seq<Variable>>)
    ensures r == VariablesWithMetaType(nested, m)
  {
    var variables: seq<Variable> := [];
    var j := 0;
    while j < |nested|
      invariant 0 <= j <= |nested|
      invariant VariablesWithMetaType(nested[..j], m) == Success(variables)
    {
      assert nested[..j + 1][..j] == nested[..j];
      var more := PushMatching(variables, nested[j], m);
      if more.Failure? {
        WithMetaTypeFailurePersists(nested, m, j + 1);
        return more;
      }
      variables := more.value;
      j := j + 1;
    }
    assert nested[..j] == nested;
    r := Success(variables);
  }

  /** The innermost loop: `v` is pushed once for each of its types with metaType `m`. */
  method PushMatching(variables: seq<Variable>, v: Variable, m: string) returns (r: Result<seq<Variable>>)
    ensures var n := MatchingSlots(GetTypes(v), m);
      r == if n.Failure? then Failure(n.error) else Success(variables + Repeat(v, n.value))
  {
    var varTypes := GetTypes(v);
    var pushed := variables;
    var x := 0;
    ghost var count := 0;
    while x < |varTypes|
      invariant 0 <= x <= |varTypes|
      invariant MatchingSlots(varTypes[..x], m) == Success(count)
      invariant pushed == variables + Repeat(v, count)
    {
      assert varTypes[..x + 1][..x] == varTypes[..x];
      if !varTypes[x].Obj? {
        SlotsFailurePersists(varTypes, m, x + 1);
        return Failure(Graph.TYPE_ERROR);
      }
      if varTypes[x].t.metaType == m {
        pushed := pushed + [v];
        count := count + 1;
      }
      x := x + 1;
    }
    assert varTypes[..x] == varTypes;
    r := Success(pushed);
  }

  lemma {:induction false} SlotsFailurePersists(ss: seq<Slot>, m: string, j: nat)
    requires j <= |ss| && MatchingSlots(ss[..j], m) == Failure(Graph.TYPE_ERROR)
    ensures MatchingSlots(ss, m) == Failure(Graph.TYPE_ERROR)
    decreases |ss|
  {
    if j < |ss| {
      assert ss[..|ss| - 1][..j] == ss[..j];
      SlotsFailurePersists(ss[..|ss| - 1], m, j);
    } else {
      assert ss[..j] == ss;
    }
  }

  lemma {:induction false} WithMetaTypeFailurePersists(vs: seq<Variable>, m: string, j: nat)
    requires j <= |vs| && VariablesWithMetaType(vs[..j], m).Failure?
    ensures VariablesWithMetaType(vs, m) == VariablesWithMetaType(vs[..j], m)
    decreases |vs|
  {
    if j < |vs| {
      assert vs[..|vs| - 1][..j] == vs[..j];
      WithMetaTypeFailurePersists(vs[..|vs| - 1], m, j);
    } else {
      assert vs[..j] == vs;
    }
  }

  // ------------------------------------------------------------ getVariables of a raw report

  /**
   * `getVariables(rawGeppettoModel)`: the model's own variables when it has no world,
   * else the first world's variables followed by the model's. A first world without
   * variables throws.
   */
  function GetVariables(raw: Factory.RawModel): (r: Result<Raw.RawVariables>)
    ensures (raw.worlds.None? || |raw.worlds.value| == 0) ==> r == Success(raw.variables)
    ensures raw.worlds.Some? && |raw.worlds.value| > 0 && raw.worlds.value[0].variables.NoVariables? ==> r.Failure?
    ensures raw.worlds.Some? && |raw.worlds.value| > 0 && raw.worlds.value[0].variables.VariableList? ==>
      r.Success? && r.value.VariableList? &&
      |r.value.list| == |raw.worlds.value[0].variables.list| + (if raw.variables.VariableList? then |raw.variables.list| else 0) &&
      r.value.list[..|raw.worlds.value[0].variables.list|] == raw.worlds.value[0].variables.list &&
      (raw.variables.VariableList? ==> r.value.list[|raw.worlds.value[0].variables.list|..] == raw.variables.list)
  {
    if raw.worlds.None? || |raw.worlds.value| == 0 then Success(raw.variables)
    else
      var world := raw.worlds.value[0];
      if world.variables.NoVariables? then Failure(Graph.TYPE_ERROR)
      else Success(Raw.VariableList(world.variables.list + if raw.variables.VariableList? then raw.variables.list else []))
  }
}
