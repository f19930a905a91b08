/**
 * `ModelFactory`'s builders: the serialised model becomes libraries of types,
 * variables and worlds. Construction filters out `synched` placeholders,
 * dispatches on each type's `eClass` and hands out the visual capability; the
 * reference pass that follows it lives in module Populate.
 */
module Factory {
  import opened Wrappers
  import opened Meta
  import opened Seqs
  import opened Graph
  import opened Raw
  import opened Worlds
  import opened Libraries
  import opened Models

  const NOT_A_MODEL: string := "Not a geppetto model"

  /** The serialised model root. */
  datatype RawModel = RawModel(
    eClass: string,
    variables: RawVariables,
    tags: Option<seq<RawTag>>,
    libraries: Option<seq<RawLibrary>>,
    dataSources: Option<seq<string>>,
    queries: Option<seq<string>>,
    worlds: Option<seq<RawWorld>>)

  predicate LiveType(r: RawType) { !r.synched }
  predicate LiveVariable(r: RawVariable) { !r.synched }
  predicate LiveLibrary(r: RawLibrary) { !r.synched }

  predicate HasElements(g: RawVisualGroup) { g.elements.Some? }

  function GroupOf(g: RawVisualGroup): VisualGroup
    requires g.elements.Some?
  {
    VisualGroup(g.id, g.name, g.elements.value, g.tags)
  }

  /** A raw group that `createVisualGroups` builds and whose tags it then resolves. */
  predicate TaggedGroup(g: RawVisualGroup) { g.elements.Some? && |g.tags| > 0 }

  /**
   * `createVisualGroups`: only the raw groups that list their elements become groups, in
   * order. Each tag is resolved with `this.geppettoModel.resolve`, and `this` is the class,
   * whose `geppettoModel` is never set: as written (`!staticWorks`) a built group with a
   * tag throws a TypeError; the evident intent keeps the group's tag references.
   */
  function VisualGroupsOf(gs: seq<RawVisualGroup>, staticWorks: bool): (r: Result<seq<VisualGroup>>)
    ensures r.Success? ==> |r.value| == |Filter(gs, HasElements)|
    ensures r.Failure? <==> !staticWorks && exists k :: 0 <= k < |gs| && TaggedGroup(gs[k])
    ensures r.Failure? ==> r.error == TYPE_ERROR
  {
    if |gs| == 0 then Success([])
    else
      var rest := VisualGroupsOf(gs[1..], staticWorks);
      assert forall k :: 0 <= k < |gs[1..]| ==> gs[1..][k] == gs[k + 1];
      assert !staticWorks && (exists k :: 0 <= k < |gs| && TaggedGroup(gs[k])) <==>
        !staticWorks && (TaggedGroup(gs[0]) || exists k :: 0 <= k < |gs[1..]| && TaggedGroup(gs[1..][k]));
      if gs[0].elements.None? then rest
      else if !staticWorks && |gs[0].tags| > 0 then Failure(TYPE_ERROR)
      else if rest.Failure? then rest
      else Success([GroupOf(gs[0])] + rest.value)
  }

  /** With tags made to resolve, every raw group that lists its elements is built, with its tag references. */
  lemma {:induction false} VisualGroupsKept(gs: seq<RawVisualGroup>)
    ensures var r := VisualGroupsOf(gs, true);
      r.Success? && |r.value| == |Filter(gs, HasElements)| &&
      forall k :: 0 <= k < |r.value| ==>
        HasElements(Filter(gs, HasElements)[k]) && r.value[k] == GroupOf(Filter(gs, HasElements)[k])
  {
    if |gs| > 0 {
      VisualGroupsKept(gs[1..]);
      var f := Filter(gs, HasElements);
      var rest := VisualGroupsOf(gs[1..], true);
      assert f == (if HasElements(gs[0]) then [gs[0]] else []) + Filter(gs[1..], HasElements);
      if HasElements(gs[0]) {
        assert VisualGroupsOf(gs, true) == Success([GroupOf(gs[0])] + rest.value);
        assert f == [gs[0]] + Filter(gs[1..], HasElements);
      } else {
        assert VisualGroupsOf(gs, true) == rest;
        assert f == Filter(gs[1..], HasElements);
      }
    }
  }

  /**
   * The capabilities a freshly built type receives: the visual one for a composite visual
   * type, for a plain type whose eClass is the visual type, and once more for any type that
   * has a visual type.
   */
  function TypeCapabilities(raw: RawType): (caps: seq<string>)
    ensures forall c :: c in caps ==> c == VISUAL_CAPABILITY
    ensures VISUAL_CAPABILITY in caps <==>
      raw.eClass == COMPOSITE_VISUAL_TYPE || raw.eClass == VISUAL_TYPE || !raw.visualType.Undef?
  {
    var byClass := if raw.eClass == COMPOSITE_VISUAL_TYPE || raw.eClass == VISUAL_TYPE then [VISUAL_CAPABILITY] else [];
    byClass + (if !raw.visualType.Undef? then [VISUAL_CAPABILITY] else [])
  }

  /**
   * `createTypes`' body for one raw type at position `pos` of the kept list. `staticWorks`
   * chooses between the static calls as written (`false`) and as evidently intended (`true`):
   * the client calls `ModelFactory.createImportType`, which is an instance method and so not
   * there when called on the class, and it resolves the tags of a plain type and of a visual
   * group with `this.geppettoModel.resolve`, where `this` is the class, whose `geppettoModel`
   * is never set. Intended are an import type that records `pos` and tags that are kept.
   */
  function BuiltType(raw: RawType, parentPath: string, pos: nat, anonymous: bool, staticWorks: bool): Result<Type>
    decreases raw, 1
  {
    var path := if anonymous then parentPath else parentPath + "." + raw.id;
    var base := Type(raw.id, raw.name, raw.eClass, path, raw.superType, raw.visualType,
                     TypeCapabilities(raw), [], [], None, None, Plain);
    if raw.eClass == COMPOSITE_TYPE || raw.eClass == CONNECTION_TYPE then
      // the composite constructor defaults a missing variable list to []
      var vs := match raw.variables
        case VariableList(rvs) => BuiltVariables(rvs, path, staticWorks)
        case NoVariables => Success([]);
      if vs.Failure? then Failure(vs.error) else Success(base.(body := Composite(vs.value)))
    else if raw.eClass == COMPOSITE_VISUAL_TYPE then
      // `createVariables(node.variables)` reads `.filter` of undefined when the list is missing
      match raw.variables
      case NoVariables => Failure(TYPE_ERROR)
      case VariableList(rvs) =>
        var vs := BuiltVariables(rvs, path, staticWorks);
        if vs.Failure? then Failure(vs.error)
        else
          var gs := if raw.visualGroups.Some? then VisualGroupsOf(raw.visualGroups.value, staticWorks) else Success([]);
          if gs.Failure? then Failure(gs.error) else Success(base.(body := CompositeVisual(vs.value, gs.value)))
    else if raw.eClass == IMPORT_TYPE then
      if staticWorks then Success(base.(importIndex := Some(pos))) else Failure(TYPE_ERROR)
    else if raw.eClass == ARRAY_TYPE then
      Success(base.(body := ArrayOf(raw.arrayType, raw.size)))
    else if |raw.tags| > 0 && !staticWorks then
      Failure(TYPE_ERROR)
    else
      Success(base.(tags := raw.tags))
  }

  /** What every type `createTypes` builds carries over from its raw entry, whatever its eClass. */
  lemma BuiltTypeCommon(raw: RawType, parentPath: string, pos: nat, anonymous: bool, w: bool)
    ensures var r := BuiltType(raw, parentPath, pos, anonymous, w);
      r.Success? ==>
        r.value.id == raw.id && r.value.name == raw.name && r.value.metaType == raw.eClass &&
        r.value.path == (if anonymous then parentPath else parentPath + "." + raw.id) &&
        r.value.superType == raw.superType && r.value.visualType == raw.visualType &&
        r.value.capabilities == TypeCapabilities(raw) &&
        r.value.variableReferences == [] && r.value.overrideType.None?
  {
    var path := if anonymous then parentPath else parentPath + "." + raw.id;
    var base := Type(raw.id, raw.name, raw.eClass, path, raw.superType, raw.visualType,
                     TypeCapabilities(raw), [], [], None, None, Plain);
    var r := BuiltType(raw, parentPath, pos, anonymous, w);
    assert r.Success? ==> r.value == base.(importIndex := r.value.importIndex, body := r.value.body, tags := r.value.tags);
  }

  /** The eClass decides the variant: composite (also for connection types), composite visual, import, array or plain. */
  lemma BuiltTypeVariant(raw: RawType, parentPath: string, pos: nat, anonymous: bool, w: bool)
    ensures var r := BuiltType(raw, parentPath, pos, anonymous, w);
      r.Success? ==>
        (r.value.importIndex.Some? <==> raw.eClass == IMPORT_TYPE) &&
        (raw.eClass == IMPORT_TYPE ==> r.value.importIndex == Some(pos)) &&
        (raw.eClass == COMPOSITE_TYPE || raw.eClass == CONNECTION_TYPE ==> r.value.body.Composite?) &&
        (raw.eClass == COMPOSITE_VISUAL_TYPE ==> r.value.body.CompositeVisual?) &&
        (raw.eClass == ARRAY_TYPE ==> r.value.body == ArrayOf(raw.arrayType, raw.size)) &&
        (!IsComposite(raw.eClass) && raw.eClass != ARRAY_TYPE ==> r.value.body == Plain) &&
        (r.value.tags == if IsPlainClass(raw.eClass) then raw.tags else [])
    ensures IsPlainClass(raw.eClass) && |raw.tags| > 0 ==> (BuiltType(raw, parentPath, pos, anonymous, w).Success? <==> w)
    ensures raw.eClass == IMPORT_TYPE ==> (BuiltType(raw, parentPath, pos, anonymous, w).Success? <==> w)
    ensures raw.eClass == COMPOSITE_VISUAL_TYPE && raw.variables.NoVariables? ==>
      BuiltType(raw, parentPath, pos, anonymous, w) == Failure(TYPE_ERROR)
  {
  }

  predicate IsComposite(eClass: string)
  {
    eClass == COMPOSITE_TYPE || eClass == CONNECTION_TYPE || eClass == COMPOSITE_VISUAL_TYPE
  }

  /** The eClasses `createTypes` builds with `createType`, the only builder that reads a type's tags. */
  predicate IsPlainClass(eClass: string)
  {
    !IsComposite(eClass) && eClass != ARRAY_TYPE && eClass != IMPORT_TYPE
  }

  /** A plain type with a tag: as written its build throws; with tags made to resolve it keeps them. */
  lemma TaggedTypeThrowsAsWritten(raw: RawType, parentPath: string, pos: nat, anonymous: bool)
    requires IsPlainClass(raw.eClass) && |raw.tags| > 0
    ensures BuiltType(raw, parentPath, pos, anonymous, false) == Failure(TYPE_ERROR)
    ensures BuiltType(raw, parentPath, pos, anonymous, true).Success?
    ensures BuiltType(raw, parentPath, pos, anonymous, true).value.tags == raw.tags
  {
  }

  /**
   * A composite visual type whose one visual group lists its elements and carries a tag: as
   * written its build throws; with tags made to resolve the group is built with that tag.
   */
  lemma TaggedGroupThrowsAsWritten(raw: RawType, g: RawVisualGroup, parentPath: string, pos: nat, anonymous: bool)
    requires raw.eClass == COMPOSITE_VISUAL_TYPE && raw.variables == VariableList([]) && raw.visualGroups == Some([g])
    requires TaggedGroup(g)
    ensures BuiltType(raw, parentPath, pos, anonymous, false) == Failure(TYPE_ERROR)
    ensures var r := BuiltType(raw, parentPath, pos, anonymous, true);
      r.Success? && r.value.body.CompositeVisual? && r.value.body.visualGroups == [GroupOf(g)]
  {
    var path := if anonymous then parentPath else parentPath + "." + raw.id;
    assert BuiltVariables([], path, false) == Success([]);
    assert BuiltVariables([], path, true) == Success([]);
    assert TaggedGroup([g][0]);
    VisualGroupsKept([g]);
    assert Filter([g], HasElements) == [g] by {
      assert [g][1..] == [];
    }
  }

  /** `createTypes`: a missing list gives `[]`; synched entries are dropped, the rest built in order. */
  function BuiltTypes(raws: seq<RawType>, parentPath: string, pos: nat, anonymous: bool, staticWorks: bool)
    : (r: Result<seq<Type>>)
    decreases raws, 0
  {
    if |raws| == 0 then Success([])
    else if raws[0].synched then BuiltTypes(raws[1..], parentPath, pos, anonymous, staticWorks)
    else
      var head := BuiltType(raws[0], parentPath, pos, anonymous, staticWorks);
      if head.Failure? then Failure(head.error)
      else
        var rest := BuiltTypes(raws[1..], parentPath, pos + 1, anonymous, staticWorks);
        if rest.Failure? then rest else Success([head.value] + rest.value)
  }

  /** `createVariable`: the variable takes its types, initial values and anonymous types from the raw entry. */
  function BuiltVariable(raw: RawVariable, parentPath: string, staticWorks: bool): (r: Result<Variable>)
    ensures r.Success? ==> r.value.id == raw.id && r.value.name == raw.name && r.value.path == parentPath + "." + raw.id
    ensures r.Success? ==> r.value.isStatic == raw.isStatic
    ensures r.Success? ==> r.value.types == (if raw.types.Some? then raw.types.value else [])
    ensures r.Success? ==> r.value.initialValues == raw.initialValues
    ensures r.Success? ==> r.value.values == (if raw.initialValues.Some? then raw.initialValues.value else [])
    ensures r.Success? ==> r.value.capabilities == [] && r.value.pointerValue.None?
    ensures r.Success? && raw.anonymousTypes.NoTypes? ==> r.value.anonymousTypes == []
    decreases raw, 1
  {
    var path := parentPath + "." + raw.id;
    var anon := match raw.anonymousTypes
      case TypeList(rts) => BuiltTypes(rts, path, 0, true, staticWorks)
      case NoTypes => Success([]);
    if anon.Failure? then Failure(anon.error)
    else
      Success(Variable(raw.id, raw.name, path, raw.isStatic,
                       if raw.types.Some? then raw.types.value else [],
                       anon.value, [], raw.initialValues,
                       if raw.initialValues.Some? then raw.initialValues.value else [], None, None))
  }

  /** `createVariables`: synched entries are dropped, the rest built in order. */
  function BuiltVariables(raws: seq<RawVariable>, parentPath: string, staticWorks: bool): (r: Result<seq<Variable>>)
    decreases raws, 0
  {
    if |raws| == 0 then Success([])
    else if raws[0].synched then BuiltVariables(raws[1..], parentPath, staticWorks)
    else
      var head := BuiltVariable(raws[0], parentPath, staticWorks);
      if head.Failure? then Failure(head.error)
      else
        var rest := BuiltVariables(raws[1..], parentPath, staticWorks);
        if rest.Failure? then rest else Success([head.value] + rest.value)
  }

  /** What the factory builds for a list of raw types, with the import fix applied. */
  function CreateTypes(raws: RawTypes, parentPath: string, anonymous: bool): Result<seq<Type>>
  {
    if raws.NoTypes? then Success([]) else BuiltTypes(raws.list, parentPath, 0, anonymous, true)
  }

  // ----------------------------------------------------------------- lemmas

  /**
   * Synched entries are never built: the types built are, one for one and in order, the
   * unsynched raw entries, the k-th of them built at position `pos + k` (its `_index`).
   */
  lemma {:induction false} TypesFollowLiveEntries(raws: seq<RawType>, parentPath: string, pos: nat, anonymous: bool, w: bool)
    ensures FollowsLive(raws, parentPath, pos, anonymous, w)
    decreases |raws|
  {
    if |raws| > 0 {
      if raws[0].synched {
        TypesFollowLiveEntries(raws[1..], parentPath, pos, anonymous, w);
        assert Filter(raws, LiveType) == Filter(raws[1..], LiveType);
      } else {
        TypesFollowLiveEntries(raws[1..], parentPath, pos + 1, anonymous, w);
        LiveHeadFollows(raws, parentPath, pos, anonymous, w);
      }
    }
  }

  predicate FollowsLive(raws: seq<RawType>, parentPath: string, pos: nat, anonymous: bool, w: bool)
  {
    var r := BuiltTypes(raws, parentPath, pos, anonymous, w);
    r.Success? ==> (|r.value| == |Filter(raws, LiveType)| &&
      forall k :: 0 <= k < |r.value| ==>
        Success(r.value[k]) == BuiltType(Filter(raws, LiveType)[k], parentPath, pos + k, anonymous, w))
  }

  lemma LiveHeadFollows(raws: seq<RawType>, parentPath: string, pos: nat, anonymous: bool, w: bool)
    requires |raws| > 0 && !raws[0].synched
    requires FollowsLive(raws[1..], parentPath, pos + 1, anonymous, w)
    ensures FollowsLive(raws, parentPath, pos, anonymous, w)
  {
    var r := BuiltTypes(raws, parentPath, pos, anonymous, w);
    var live := Filter(raws, LiveType);
    var liveRest := Filter(raws[1..], LiveType);
    assert live == [raws[0]] + liveRest;
    if r.Success? {
      var head := BuiltType(raws[0], parentPath, pos, anonymous, w);
      var tail := BuiltTypes(raws[1..], parentPath, pos + 1, anonymous, w);
      assert head.Success? && tail.Success? && r.value == [head.value] + tail.value;
      var ok := (t: Type, raw: RawType, n: nat) => Success(t) == BuiltType(raw, parentPath, n, anonymous, w);
      PrependFollows(head.value, tail.value, raws[0], liveRest, pos, ok);
    }
  }

  /** An entry in front of a pairing that holds position by position from `pos + 1` holds from `pos`. */
  lemma PrependFollows<A, B>(h: A, tail: seq<A>, x: B, liveRest: seq<B>, pos: nat, ok: (A, B, nat) -> bool)
    requires ok(h, x, pos)
    requires |tail| == |liveRest|
    requires forall k :: 0 <= k < |tail| ==> ok(tail[k], liveRest[k], pos + 1 + k)
    ensures forall k :: 0 <= k < |tail| + 1 ==> ok(([h] + tail)[k], ([x] + liveRest)[k], pos + k)
  {
    forall k | 0 <= k < |tail| + 1
      ensures ok(([h] + tail)[k], ([x] + liveRest)[k], pos + k)
    {
      if k > 0 {
        assert ([h] + tail)[k] == tail[k - 1] && ([x] + liveRest)[k] == liveRest[k - 1];
        assert pos + k == pos + 1 + (k - 1);
      }
    }
  }

  /** The same for variables: the built variables are the unsynched raw entries, in order. */
  lemma {:induction false} VariablesFollowLiveEntries(raws: seq<RawVariable>, parentPath: string, w: bool)
    ensures var r := BuiltVariables(raws, parentPath, w);
      r.Success? ==> (|r.value| == |Filter(raws, LiveVariable)| &&
        forall k :: 0 <= k < |r.value| ==>
          Success(r.value[k]) == BuiltVariable(Filter(raws, LiveVariable)[k], parentPath, w))
    decreases |raws|
  {
    if |raws| > 0 {
      var r := BuiltVariables(raws, parentPath, w);
      var live := Filter(raws, LiveVariable);
      VariablesFollowLiveEntries(raws[1..], parentPath, w);
      if raws[0].synched {
        assert live == Filter(raws[1..], LiveVariable);
      } else {
        assert live == [raws[0]] + Filter(raws[1..], LiveVariable);
        if r.Success? {
          var rest := BuiltVariables(raws[1..], parentPath, w).value;
          assert r.value == [r.value[0]] + rest;
          forall k | 1 <= k < |r.value|
            ensures Success(r.value[k]) == BuiltVariable(live[k], parentPath, w)
          {
            assert r.value[k] == rest[k - 1];
            assert live[k] == Filter(raws[1..], LiveVariable)[k - 1];
          }
        }
      }
    }
  }

  /** Each import type records its position among the library's built types. */
  lemma ImportIndexIsPosition(raws: seq<RawType>, parentPath: string)
    ensures var r := BuiltTypes(raws, parentPath, 0, false, true);
      r.Success? ==> forall k :: 0 <= k < |r.value| && r.value[k].metaType == IMPORT_TYPE ==>
        r.value[k].importIndex == Some(k)
  {
    TypesFollowLiveEntries(raws, parentPath, 0, false, true);
    var live := Filter(raws, LiveType);
    forall k | 0 <= k < |live|
      ensures var b := BuiltType(live[k], parentPath, k, false, true);
        b.Success? && b.value.metaType == IMPORT_TYPE ==> b.value.importIndex == Some(k)
    {
      BuiltTypeCommon(live[k], parentPath, k, false, true);
      BuiltTypeVariant(live[k], parentPath, k, false, true);
    }
  }

  /** Every composite visual type that is built carries the visual capability. */
  lemma CompositeVisualTypesAreVisual(raws: seq<RawType>, parentPath: string)
    ensures var r := BuiltTypes(raws, parentPath, 0, false, true);
      r.Success? ==> forall k :: 0 <= k < |r.value| && r.value[k].metaType == COMPOSITE_VISUAL_TYPE ==>
        r.value[k].body.CompositeVisual? && VISUAL_CAPABILITY in r.value[k].capabilities
  {
    TypesFollowLiveEntries(raws, parentPath, 0, false, true);
    var live := Filter(raws, LiveType);
    forall k | 0 <= k < |live|
      ensures var b := BuiltType(live[k], parentPath, k, false, true);
        b.Success? && b.value.metaType == COMPOSITE_VISUAL_TYPE ==>
          b.value.body.CompositeVisual? && VISUAL_CAPABILITY in b.value.capabilities
    {
      BuiltTypeCommon(live[k], parentPath, k, false, true);
      BuiltTypeVariant(live[k], parentPath, k, false, true);
    }
  }

  /**
   * As written, a library holding any unsynched import type cannot be built: the class has
   * no `createImportType`, so `createTypes` throws.
   */
  lemma ImportTypeThrowsAsWritten(raws: seq<RawType>, parentPath: string, k: nat)
    requires k < |raws| && !raws[k].synched && raws[k].eClass == IMPORT_TYPE
    ensures BuiltTypes(raws, parentPath, 0, false, false).Failure?
  {
    TypesFollowLiveEntries(raws, parentPath, 0, false, false);
    FilterComplete(raws, LiveType);
    assert raws[k] in Filter(raws, LiveType);
    var live := Filter(raws, LiveType);
    var j :| 0 <= j < |live| && live[j] == raws[k];
    BuiltTypeVariant(live[j], parentPath, j, false, false);
  }

  /** With the import fix, the same library is built, and the import type sits at its recorded index. */
  lemma ImportTypeIndexed(raws: seq<RawType>, parentPath: string, k: nat)
    requires k < |raws| && !raws[k].synched && raws[k].eClass == IMPORT_TYPE
    ensures var r := BuiltTypes(raws, parentPath, 0, false, true);
      r.Success? ==>
        exists j :: 0 <= j < |r.value| && r.value[j].id == raws[k].id &&
          r.value[j].metaType == IMPORT_TYPE && r.value[j].importIndex == Some(j)
  {
    var r := BuiltTypes(raws, parentPath, 0, false, true);
    TypesFollowLiveEntries(raws, parentPath, 0, false, true);
    FilterComplete(raws, LiveType);
    var live := Filter(raws, LiveType);
    assert raws[k] in live;
    var j :| 0 <= j < |live| && live[j] == raws[k];
    if r.Success? {
      BuiltTypeCommon(live[j], parentPath, j, false, true);
      BuiltTypeVariant(live[j], parentPath, j, false, true);
      assert Success(r.value[j]) == BuiltType(live[j], parentPath, j, false, true);
    }
  }

  // ---------------------------------------------------------------- builders

  /** `createLibrary`: a library at `modelPath.id` whose types are the built raw types, import types registered. */
  method CreateLibrary(raw: RawLibrary, modelPath: string) returns (r: Result<Library>)
    ensures CreateTypes(raw.types, modelPath + "." + raw.id, false).Failure? <==> r.Failure?
    ensures r.Success? ==> fresh(r.value) && r.value.id == raw.id && r.value.path == modelPath + "." + raw.id
    ensures r.Success? ==> Success(r.value.types) == CreateTypes(raw.types, modelPath + "." + raw.id, false)
    ensures r.Success? ==> r.value.importTypes == Filter(r.value.types, IsImportType)
  {
    var path := modelPath + "." + raw.id;
    var ts := CreateTypes(raw.types, path, false);
    if ts.Failure? {
      return Failure(ts.error);
    }
    var lib := new Library(raw.id, raw.name, path, []);
    lib.SetTypes(ts.value);
    return Success(lib);
  }

  /** `rawModel.libraries.filter(lib => !lib.synched).map(createLibrary)`. */
  method CreateLibraries(raws: seq<RawLibrary>, modelPath: string) returns (r: Result<seq<Library>>)
    ensures r.Success? ==> |r.value| == |Filter(raws, LiveLibrary)|
    ensures r.Success? ==> forall k :: 0 <= k < |r.value| ==>
      fresh(r.value[k]) && r.value[k].id == Filter(raws, LiveLibrary)[k].id &&
      r.value[k].path == modelPath + "." + Filter(raws, LiveLibrary)[k].id &&
      Success(r.value[k].types) == CreateTypes(Filter(raws, LiveLibrary)[k].types, r.value[k].path, false)
    ensures r.Success? ==> Distinct(r.value)
  {
    var live := Filter(raws, LiveLibrary);
    var libs: seq<Library> := [];
    var i := 0;
    while i < |live|
      invariant 0 <= i <= |live|
      invariant |libs| == i
      invariant forall k :: 0 <= k < i ==>
        fresh(libs[k]) && libs[k].id == live[k].id && libs[k].path == modelPath + "." + live[k].id &&
        Success(libs[k].types) == CreateTypes(live[k].types, libs[k].path, false)
      invariant Distinct(libs)
    {
      var lib := CreateLibrary(live[i], modelPath);
      if lib.Failure? {
        return Failure(lib.error);
      }
      libs := libs + [lib.value];
      i := i + 1;
    }
    return Success(libs);
  }

  /** A world holds what the factory builds from its raw form: its instances under the model, its variables under itself. */
  ghost predicate WorldBuiltFrom(w: World, raw: RawWorld, modelPath: string)
    reads w
  {
    w.id == raw.id && w.name == raw.name &&
    Success(w.instances) == CreateStaticInstances(raw.instances, modelPath) &&
    raw.variables.VariableList? && Success(w.variables) == BuiltVariables(raw.variables.list, modelPath + "." + raw.id, true)
  }

  /** `new World(raw, model)`: static instances first (under the model), then variables under the world. */
  method CreateWorld(raw: RawWorld, modelPath: string) returns (r: Result<World>)
    ensures CreateStaticInstances(raw.instances, modelPath).Failure? ==> r.Failure?
    ensures raw.variables.NoVariables? ==> r.Failure?
    ensures raw.variables.VariableList? && BuiltVariables(raw.variables.list, modelPath + "." + raw.id, true).Failure? ==>
      r.Failure?
    ensures r.Success? ==> fresh(r.value) && r.value.id == raw.id && r.value.name == raw.name
    ensures r.Success? ==> WorldBuiltFrom(r.value, raw, modelPath)
    ensures r.Success? ==> Success(r.value.instances) == CreateStaticInstances(raw.instances, modelPath)
    ensures r.Success? ==> raw.variables.VariableList?
    ensures r.Success? && raw.variables.VariableList? ==>
      Success(r.value.variables) == BuiltVariables(raw.variables.list, modelPath + "." + raw.id, true)
  {
    var insts := CreateStaticInstances(raw.instances, modelPath);
    if insts.Failure? {
      return Failure(insts.error);
    }
    if raw.variables.NoVariables? {
      return Failure(TYPE_ERROR);
    }
    var vs := BuiltVariables(raw.variables.list, modelPath + "." + raw.id, true);
    if vs.Failure? {
      return Failure(vs.error);
    }
    var w := new World(raw.id, raw.name, raw.instances, modelPath, vs.value);
    return Success(w);
  }

  /**
   * `createGeppettoModel(rawModel, …, populateRefs = false)`: anything but a GeppettoModel is
   * refused; the worlds are built by the model's constructor, which maps over the raw worlds
   * and so needs them; then the legacy variables, the tag names, the unsynched libraries, the
   * datasources and the queries. Every path starts at the model's id, which the client model
   * fixes to `MODEL_PREFIX_CLIENT` whatever the raw model's own id is.
   */
  method CreateGeppettoModel(raw: RawModel) returns (r: Result<GeppettoModel>)
    ensures raw.eClass != GEPPETTO_MODEL ==> r == Failure(NOT_A_MODEL)
    ensures raw.eClass == GEPPETTO_MODEL && raw.worlds.None? ==> r == Failure(TYPE_ERROR)
    ensures raw.eClass == GEPPETTO_MODEL && raw.libraries.None? ==> r.Failure?
    ensures r.Success? ==> fresh(r.value) && r.value.Valid()
    ensures r.Success? ==> r.value.currentWorldIdx == (if |raw.worlds.value| > 0 then 0 else -1)
    ensures r.Success? ==> |r.value.worlds| == |raw.worlds.value|
    ensures r.Success? && raw.variables.NoVariables? ==> r.value.variables == []
    ensures r.Success? && raw.variables.VariableList? ==>
      Success(r.value.variables) == BuiltVariables(raw.variables.list, MODEL_PREFIX_CLIENT, true)
    ensures r.Success? ==> raw.libraries.Some? && |r.value.libraries| == |Filter(raw.libraries.value, LiveLibrary)|
    ensures r.Success? ==> forall k :: 0 <= k < |r.value.libraries| ==>
      r.value.libraries[k].id == Filter(raw.libraries.value, LiveLibrary)[k].id &&
      r.value.libraries[k].path == MODEL_PREFIX_CLIENT + "." + Filter(raw.libraries.value, LiveLibrary)[k].id &&
      Success(r.value.libraries[k].types) ==
        CreateTypes(Filter(raw.libraries.value, LiveLibrary)[k].types, r.value.libraries[k].path, false)
    ensures r.Success? ==> r.value.rawTags == raw.tags
    ensures r.Success? ==> Distinct(r.value.libraries) && forall k :: 0 <= k < |r.value.libraries| ==> fresh(r.value.libraries[k])
    ensures r.Success? ==> forall k :: 0 <= k < |r.value.worlds| ==>
      fresh(r.value.worlds[k]) && WorldBuiltFrom(r.value.worlds[k], raw.worlds.value[k], MODEL_PREFIX_CLIENT)
  {
    if raw.eClass != GEPPETTO_MODEL {
      return Failure(NOT_A_MODEL);
    }
    if raw.worlds.None? {
      return Failure(TYPE_ERROR);
    }
    var worlds: seq<World> := [];
    var i := 0;
    while i < |raw.worlds.value|
      invariant 0 <= i <= |raw.worlds.value|
      invariant |worlds| == i
      invariant forall k :: 0 <= k < i ==> fresh(worlds[k]) && WorldBuiltFrom(worlds[k], raw.worlds.value[k], MODEL_PREFIX_CLIENT)
    {
      var w := CreateWorld(raw.worlds.value[i], MODEL_PREFIX_CLIENT);
      if w.Failure? {
        return Failure(w.error);
      }
      worlds := worlds + [w.value];
      i := i + 1;
    }
    var variables: seq<Variable> := [];
    if raw.variables.VariableList? {
      var vs := BuiltVariables(raw.variables.list, MODEL_PREFIX_CLIENT, true);
      if vs.Failure? {
        return Failure(vs.error);
      }
      variables := vs.value;
    }
    if raw.libraries.None? {
      return Failure(TYPE_ERROR);
    }
    var libs := CreateLibraries(raw.libraries.value, MODEL_PREFIX_CLIENT);
    if libs.Failure? {
      return Failure(libs.error);
    }
    var datasources := if raw.dataSources.Some? then raw.dataSources.value else [];
    var queries := if raw.queries.Some? then raw.queries.value else [];
    var m := new GeppettoModel(variables, libs.value, datasources, queries, worlds, raw.tags);
    return Success(m);
  }
}
