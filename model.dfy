/**
 * `GeppettoModel`, the root of the client model: libraries, worlds, legacy
 * variables, tags, world selection, and `resolve`, which follows a reference
 * string segment by segment through the named collections.
 */
module Models {
  import opened Wrappers
  import opened Strings
  import opened Seqs
  import opened Graph
  import opened Worlds
  import opened Libraries
  import opened References

  const WORLD_NOT_FOUND: string := "World not found in model"

  /** A raw tag of the serialised model; `tags` holds its sub-tags when present. */
  datatype RawTag = RawTag(name: string, tags: Option<seq<RawTag>>)

  /**
   * What `resolve` may hold in `reference` after a segment: nothing yet, a
   * library or world of this model (by position), a type, a still unresolved
   * `{$ref}` object, a variable, a raw tag, a tag name, a visual group or one
   * of its elements, or a static instance of a world.
   */
  datatype Target =
    | TUndefined
    | TLibrary(lib: nat)
    | TType(t: Type)
    | TRawRef(ref: string)
    | TVariable(v: Variable)
    | TRawTag(tag: RawTag)
    | TTagName(name: string)
    | TVisualGroup(g: VisualGroup)
    | TElement(element: string)
    | TWorld(world: nat)
    | TInstance(inst: StaticInstance)

  /** JavaScript truthiness of a reference: `undefined` and the empty string are falsy. */
  predicate Truthy(t: Target)
  {
    !t.TUndefined? && t != TTagName("")
  }

  /** The reference a type slot stands for. */
  function SlotTarget(s: Slot): Target
  {
    match s
    case Ref(r) => TRawRef(r)
    case Obj(t) => TType(t)
    case Undef => TUndefined
  }

  /** `list[index]` is defined: the index is a number inside the list. */
  predicate InRange(n: int, index: Option<int>)
  {
    index.Some? && 0 <= index.value < n
  }

  /** A child of the model, in `getChildren` order. */
  datatype ModelChild =
    | CVariable(v: Variable)
    | CLibrary(l: Library)
    | CDatasource(d: string)
    | CQuery(q: string)
    | CWorld(w: World)

  /** The argument of `activateWorld`: a number, a string, an object with or without an `id`, or nothing. */
  datatype WorldArg = ByIndex(n: int) | ByName(s: string) | ByObject(idProp: Option<string>) | Missing

  /** `worldOrIndex.id`: only an object argument can carry one. */
  function ArgId(arg: WorldArg): Option<string>
  {
    if arg.ByObject? then arg.idProp else None
  }

  /**
   * The index `activateWorld` ends with, as written: whatever the argument, the
   * final `findIndex` compares `world.id` with `worldOrIndex.id`. A world keeps
   * its id in the wrapped object and has no `id` property, so both sides are
   * `undefined` unless the argument carries an `id`.
   */
  function ActivatedIndexAsWritten(worlds: seq<World>, arg: WorldArg): int
    requires !arg.Missing?
  {
    FindIndex(worlds, (w: World) => ArgId(arg) == None)
  }

  /** Every argument but an id-less object is ignored, and an explicit id never matches. */
  lemma ActivateAsWrittenIgnoresArgument(worlds: seq<World>, arg: WorldArg)
    requires !arg.Missing?
    ensures ArgId(arg).None? && |worlds| > 0 ==> ActivatedIndexAsWritten(worlds, arg) == 0
    ensures ArgId(arg).Some? || |worlds| == 0 ==> ActivatedIndexAsWritten(worlds, arg) == -1
  {
  }

  /** The world index the argument names: by position, by id, or by the `id` of an object; -1 when none. */
  function ActivatedIndex(worlds: seq<World>, arg: WorldArg): int
  {
    match arg
    case ByIndex(n) => if 0 <= n < |worlds| then n else -1
    case ByName(s) => FindIndex(worlds, (w: World) => w.id == s)
    case ByObject(idProp) =>
      if idProp.None? then -1 else FindIndex(worlds, (w: World) => w.id == idProp.value)
    case Missing => -1
  }

  /** The selection picks exactly the world the argument names, the first one for an id. */
  lemma ActivatedIndexSelects(worlds: seq<World>, arg: WorldArg)
    ensures var k := ActivatedIndex(worlds, arg);
      -1 <= k < |worlds| &&
      (arg.ByIndex? && 0 <= arg.n < |worlds| ==> k == arg.n) &&
      (arg.ByIndex? && !(0 <= arg.n < |worlds|) ==> k == -1) &&
      (arg.ByName? && k >= 0 ==> worlds[k].id == arg.s && forall j :: 0 <= j < k ==> worlds[j].id != arg.s) &&
      (arg.ByName? ==> (k == -1 <==> forall j :: 0 <= j < |worlds| ==> worlds[j].id != arg.s)) &&
      (ArgId(arg).Some? && k >= 0 ==> worlds[k].id == ArgId(arg).value) &&
      (ArgId(arg).Some? ==> (k == -1 <==> forall j :: 0 <= j < |worlds| ==> worlds[j].id != ArgId(arg).value)) &&
      (arg.Missing? || arg == ByObject(None) ==> k == -1)
  {
  }

  /** The test `type.getMetaType() === m`. */
  function OfMetaType(m: string): Type -> bool
  {
    (t: Type) => t.metaType == m
  }

  /** The inner loop of `getAllTypesOfMetaType`: the types of one library with metaType `m`, in order. */
  method MatchingTypes(ts: seq<Type>, m: string) returns (found: seq<Type>)
    ensures found == Filter(ts, OfMetaType(m))
  {
    found := [];
    var j := 0;
    while j < |ts|
      invariant 0 <= j <= |ts|
      invariant found == Filter(ts[..j], OfMetaType(m))
    {
      FilterPrefixStep(ts, j, OfMetaType(m));
      if ts[j].metaType == m {
        found := found + [ts[j]];
      }
      j := j + 1;
    }
    assert ts[..j] == ts;
  }

  // ------------------------------------------------------------ reading segments

  lemma LibrariesSegment(k: nat)
    ensures var t := SegText(Seg("libraries", k));
      Contains(t, "libraries") && IndexOf(t) == Some(k as int)
  {
    SegHoldsFeature(Seg("libraries", k));
    IndexOfSegText(Seg("libraries", k));
  }

  lemma VariablesLacksLibraries()
    ensures !Contains("variables.", "libraries")
  {
    assert !Contains("riables.", "libraries");
    assert "ariables."[1..] == "riables.";
    assert "ariables."[..9] != "libraries" by { assert "ariables."[0] == 'a'; }
    assert !Contains("ariables.", "libraries");
    assert "variables."[1..] == "ariables.";
    assert "variables."[..9] != "libraries" by { assert "variables."[0] == 'v'; }
  }

  lemma VariablesSegment(k: nat)
    ensures var t := SegText(Seg("variables", k));
      !Contains(t, "libraries") && Contains(t, "variables") && IndexOf(t) == Some(k as int)
  {
    var s := Seg("variables", k);
    assert !Contains(SegText(s), "libraries") by {
      VariablesLacksLibraries();
      assert s.feature + "." == "variables.";
      SegLacks(s, "libraries");
    }
    assert Contains(SegText(s), s.feature) by { SegHoldsFeature(s); }
    assert IndexOf(SegText(s)) == Some(k as int) by { IndexOfSegText(s); }
  }

  lemma TypesSegment(k: nat)
    ensures var t := SegText(Seg("types", k));
      !Contains(t, "libraries") && !Contains(t, "variables") && Contains(t, "types") &&
      IndexOf(t) == Some(k as int)
  {
    SegLacks(Seg("types", k), "libraries");
    SegLacks(Seg("types", k), "variables");
    SegHoldsFeature(Seg("types", k));
    IndexOfSegText(Seg("types", k));
  }

  lemma TagsSegment(k: nat)
    ensures var t := SegText(Seg("tags", k));
      !Contains(t, "libraries") && !Contains(t, "variables") && !Contains(t, "types") &&
      !Contains(t, "anonymousTypes") && Contains(t, "tags") && IndexOf(t) == Some(k as int)
  {
    var s := Seg("tags", k);
    assert !Contains(SegText(s), "libraries") by { SegLacks(s, "libraries"); }
    assert !Contains(SegText(s), "variables") by { SegLacks(s, "variables"); }
    assert !Contains(SegText(s), "types") by { SegLacksChar(s, "types", 'y'); }
    assert !Contains(SegText(s), "anonymousTypes") by { SegLacks(s, "anonymousTypes"); }
    assert Contains(SegText(s), s.feature) by { SegHoldsFeature(s); }
    assert IndexOf(SegText(s)) == Some(k as int) by { IndexOfSegText(s); }
  }

  lemma WorldsSegment(k: nat)
    ensures var t := SegText(Seg("worlds", k));
      !Contains(t, "libraries") && !Contains(t, "variables") && !Contains(t, "types") &&
      !Contains(t, "anonymousTypes") && !Contains(t, "tags") && !Contains(t, "visualGroups") &&
      !Contains(t, "visualGroupElements") && Contains(t, "worlds") && !Contains(t, "instances") &&
      IndexOf(t) == Some(k as int)
  {
    var s := Seg("worlds", k);
    assert !Contains(SegText(s), "libraries") by { SegLacks(s, "libraries"); }
    assert !Contains(SegText(s), "variables") by { SegLacks(s, "variables"); }
    assert !Contains(SegText(s), "types") by { SegLacksChar(s, "types", 't'); }
    assert !Contains(SegText(s), "anonymousTypes") by { SegLacks(s, "anonymousTypes"); }
    assert !Contains(SegText(s), "tags") by { SegLacksChar(s, "tags", 't'); }
    assert !Contains(SegText(s), "visualGroups") by { SegLacks(s, "visualGroups"); }
    assert !Contains(SegText(s), "visualGroupElements") by { SegLacks(s, "visualGroupElements"); }
    assert !Contains(SegText(s), "instances") by { SegLacks(s, "instances"); }
    assert Contains(SegText(s), s.feature) by { SegHoldsFeature(s); }
    assert IndexOf(SegText(s)) == Some(k as int) by { IndexOfSegText(s); }
  }

  /** A segment `instances.k` holds none of the first names `resolve` tests... */
  lemma InstancesSegmentEarly(k: nat)
    ensures var t := SegText(Seg("instances", k));
      !Contains(t, "libraries") && !Contains(t, "variables") && !Contains(t, "types") &&
      !Contains(t, "anonymousTypes") && !Contains(t, "tags")
  {
    var s := Seg("instances", k);
    assert !Contains(SegText(s), "libraries") by { SegLacksChar(s, "libraries", 'l'); }
    assert !Contains(SegText(s), "variables") by { SegLacksChar(s, "variables", 'v'); }
    assert !Contains(SegText(s), "types") by { SegLacksChar(s, "types", 'y'); }
    assert !Contains(SegText(s), "anonymousTypes") by { SegLacks(s, "anonymousTypes"); }
    assert !Contains(SegText(s), "tags") by { SegLacksChar(s, "tags", 'g'); }
  }

  /** ...nor the later ones, and its index reads back. */
  lemma InstancesSegment(k: nat)
    ensures var t := SegText(Seg("instances", k));
      !Contains(t, "visualGroups") && !Contains(t, "visualGroupElements") && !Contains(t, "worlds") &&
      Contains(t, "instances") && IndexOf(t) == Some(k as int)
  {
    var s := Seg("instances", k);
    assert !Contains(SegText(s), "visualGroups") by { SegLacks(s, "visualGroups"); }
    assert !Contains(SegText(s), "visualGroupElements") by { SegLacks(s, "visualGroupElements"); }
    assert !Contains(SegText(s), "worlds") by { SegLacksChar(s, "worlds", 'w'); }
    assert Contains(SegText(s), s.feature) by { SegHoldsFeature(s); }
    assert IndexOf(SegText(s)) == Some(k as int) by { IndexOfSegText(s); }
  }

  class GeppettoModel {
    var variables: seq<Variable>
    var libraries: seq<Library>
    var datasources: seq<string>
    var queries: seq<string>
    var worlds: seq<World>
    var currentWorldIdx: int
    /** The tags of the serialised model, as read from the wrapped object. */
    const rawTags: Option<seq<RawTag>>
    /** The tag names the factory copies onto the model. */
    var tags: Option<seq<string>>

    /** The selected world, if any, is one of the model's worlds. */
    predicate Valid()
      reads this
    {
      -1 <= currentWorldIdx < |worlds|
    }

    /** The first world is selected when there is one; tag names are copied from the raw tags. */
    constructor (variables: seq<Variable>, libraries: seq<Library>, datasources: seq<string>,
                 queries: seq<string>, worlds: seq<World>, rawTags: Option<seq<RawTag>>)
      ensures Valid()
      ensures this.variables == variables && this.libraries == libraries
      ensures this.datasources == datasources && this.queries == queries && this.worlds == worlds
      ensures currentWorldIdx == (if |worlds| > 0 then 0 else -1)
      ensures this.rawTags == rawTags
      ensures rawTags.None? ==> tags.None?
      ensures rawTags.Some? ==> (tags.Some? && |tags.value| == |rawTags.value| &&
        forall k :: 0 <= k < |rawTags.value| ==> tags.value[k] == rawTags.value[k].name)
    {
      this.variables := variables;
      this.libraries := libraries;
      this.datasources := datasources;
      this.queries := queries;
      this.worlds := worlds;
      currentWorldIdx := if |worlds| > 0 then 0 else -1;
      this.rawTags := rawTags;
      tags := if rawTags.Some? then Some(Map(rawTags.value, (t: RawTag) => t.name)) else None;
    }

    function GetCurrentWorld(): (r: Option<World>)
      reads this
      requires Valid()
      ensures r.Some? <==> currentWorldIdx >= 0
      ensures r.Some? ==> r.value == worlds[currentWorldIdx]
    {
      if currentWorldIdx >= 0 then Some(worlds[currentWorldIdx]) else None
    }

    /** `getVariables(legacy)`: the current world's variables, unless no world is active or `legacy` is asked for. */
    function GetVariables(legacy: bool): (r: seq<Variable>)
      reads this, worlds
      requires Valid()
      ensures GetCurrentWorld().Some? && !legacy ==> r == GetCurrentWorld().value.variables
      ensures GetCurrentWorld().None? || legacy ==> r == variables
    {
      if currentWorldIdx >= 0 && !legacy then worlds[currentWorldIdx].GetVariables() else variables
    }

    /** `getAllVariables()`: the active world's variables followed by the legacy ones. */
    function GetAllVariables(): (r: seq<Variable>)
      reads this, worlds
      requires Valid()
    {
      if currentWorldIdx >= 0 then worlds[currentWorldIdx].GetVariables() + variables else variables
    }

    /** All variables are the current-scope ones, then the legacy ones unless those are the same list. */
    lemma AllVariablesExtendScope()
      requires Valid()
      ensures GetCurrentWorld().Some? ==> GetAllVariables() == GetVariables(false) + GetVariables(true)
      ensures GetCurrentWorld().None? ==> GetAllVariables() == GetVariables(false) == GetVariables(true)
      ensures forall v :: v in GetVariables(false) ==> v in GetAllVariables()
    {
    }

    function GetChildren(): (r: seq<ModelChild>)
      reads this
      ensures |r| == |variables| + |libraries| + |datasources| + |queries| + |worlds|
      ensures forall k :: 0 <= k < |variables| ==> r[k] == CVariable(variables[k])
      ensures forall k :: 0 <= k < |libraries| ==> r[|variables| + k] == CLibrary(libraries[k])
      ensures forall k :: 0 <= k < |datasources| ==>
        r[|variables| + |libraries| + k] == CDatasource(datasources[k])
      ensures forall k :: 0 <= k < |queries| ==>
        r[|variables| + |libraries| + |datasources| + k] == CQuery(queries[k])
      ensures forall k :: 0 <= k < |worlds| ==>
        r[|variables| + |libraries| + |datasources| + |queries| + k] == CWorld(worlds[k])
    {
      var vs := Map(variables, (v: Variable) => CVariable(v));
      var ls := Map(libraries, (l: Library) => CLibrary(l));
      var ds := Map(datasources, (d: string) => CDatasource(d));
      var qs := Map(queries, (q: string) => CQuery(q));
      var ws := Map(worlds, (w: World) => CWorld(w));
      var a1 := vs + ls;
      var a2 := a1 + ds;
      var a3 := a2 + qs;
      var r := a3 + ws;
      assert forall k :: 0 <= k < |a3| ==> r[k] == a3[k];
      assert forall k :: 0 <= k < |a2| ==> a3[k] == a2[k];
      assert forall k :: 0 <= k < |a1| ==> a2[k] == a1[k];
      r
    }

    // ------------------------------------------------------------ world selection

    /**
     * `activateWorld` as written: the index is overwritten by the final lookup on
     * `worldOrIndex.id`, and the call throws when it finds no world. A missing
     * argument throws before anything is assigned.
     */
    method ActivateWorldAsWritten(arg: WorldArg) returns (err: Option<string>)
      requires Valid()
      modifies this
      ensures Valid()
      ensures arg.Missing? ==> err == Some(TYPE_ERROR) && currentWorldIdx == old(currentWorldIdx)
      ensures !arg.Missing? ==> currentWorldIdx == ActivatedIndexAsWritten(worlds, arg)
      ensures !arg.Missing? ==> (err.None? <==> currentWorldIdx >= 0)
      ensures err.Some? && !arg.Missing? ==> err == Some(WORLD_NOT_FOUND)
      ensures worlds == old(worlds) && libraries == old(libraries) && variables == old(variables)
      ensures tags == old(tags) && datasources == old(datasources) && queries == old(queries)
    {
      if arg.Missing? {
        return Some(TYPE_ERROR);
      }
      currentWorldIdx := ActivatedIndexAsWritten(worlds, arg);
      err := None;
      if currentWorldIdx == -1 {
        err := Some(WORLD_NOT_FOUND);
      }
    }

    /** `activateWorld` selecting the world its argument names; a failed call leaves the selection alone. */
    method ActivateWorld(arg: WorldArg) returns (err: Option<string>)
      requires Valid()
      modifies this
      ensures Valid()
      ensures err.None? <==> ActivatedIndex(worlds, arg) >= 0
      ensures err.None? ==> currentWorldIdx == ActivatedIndex(worlds, arg)
      ensures err.Some? ==> currentWorldIdx == old(currentWorldIdx)
      ensures err.Some? ==> err == Some(if arg.Missing? then TYPE_ERROR else WORLD_NOT_FOUND)
      ensures worlds == old(worlds) && libraries == old(libraries) && variables == old(variables)
      ensures tags == old(tags) && datasources == old(datasources) && queries == old(queries)
    {
      var k := ActivatedIndex(worlds, arg);
      ActivatedIndexSelects(worlds, arg);
      if k == -1 {
        return Some(if arg.Missing? then TYPE_ERROR else WORLD_NOT_FOUND);
      }
      currentWorldIdx := k;
      err := None;
    }

    // ------------------------------------------------------------ types by metaType

    /** The types of libraries `k..` whose metaType is `m`, library by library, in order. */
    function TypesOfMetaTypeFrom(k: nat, m: string): seq<Type>
      reads this, libraries
      decreases |libraries| - k
    {
      if k >= |libraries| then []
      else Filter(libraries[k].types, OfMetaType(m)) + TypesOfMetaTypeFrom(k + 1, m)
    }

    /** A type is collected exactly when it belongs to one of the libraries `k..` and has metaType `m`. */
    lemma {:induction false} TypesOfMetaTypeMembers(k: nat, m: string)
      ensures forall t :: t in TypesOfMetaTypeFrom(k, m) <==>
        t.metaType == m && exists j :: k <= j < |libraries| && t in libraries[j].types
      decreases |libraries| - k
    {
      if k < |libraries| {
        TypesOfMetaTypeMembers(k + 1, m);
        FilterComplete(libraries[k].types, OfMetaType(m));
      }
    }

    /** Appending library `i`'s matching types moves the split point one library on. */
    lemma TypesOfMetaTypeStep(types: seq<Type>, found: seq<Type>, i: nat, m: string)
      requires i < |libraries| && found == Filter(libraries[i].types, OfMetaType(m))
      ensures (types + found) + TypesOfMetaTypeFrom(i + 1, m) == types + TypesOfMetaTypeFrom(i, m)
    {
      assert TypesOfMetaTypeFrom(i, m) == found + TypesOfMetaTypeFrom(i + 1, m);
    }

    /** `getAllTypesOfMetaType(m)`: the nested loop over libraries and their types. */
    method GetAllTypesOfMetaType(m: string) returns (types: seq<Type>)
      ensures types == TypesOfMetaTypeFrom(0, m)
      ensures forall t :: t in types <==>
        t.metaType == m && exists j :: 0 <= j < |libraries| && t in libraries[j].types
    {
      ghost var spec := TypesOfMetaTypeFrom(0, m);
      types := [];
      for i := 0 to |libraries|
        invariant types + TypesOfMetaTypeFrom(i, m) == spec
      {
        var found := MatchingTypes(libraries[i].GetTypes(), m);
        TypesOfMetaTypeStep(types, found, i, m);
        types := types + found;
      }
      TypesOfMetaTypeMembers(0, m);
    }

    // ------------------------------------------------------------ resolve

    /** Libraries and worlds named by a reference are this model's own. */
    predicate InModel(ref: Target)
      reads this
    {
      (ref.TLibrary? ==> ref.lib < |libraries|) && (ref.TWorld? ==> ref.world < |worlds|)
    }

    /**
     * One iteration of `resolve` on segment `seg` at position `i`, with the
     * reference so far in `ref`. The tests run in the order of the source; a
     * method the reference lacks, or a property read on `undefined`, throws a
     * TypeError, and an index outside its list yields `undefined`. When
     * `worldsNeedReference` holds, the `worlds` branch is taken only with a
     * truthy reference, as written; otherwise it is taken whenever the
     * segment names worlds.
     */
    function StepWith(seg: string, i: nat, ref: Target, worldsNeedReference: bool): (r: Result<Target>)
      reads this, libraries, worlds
      requires Valid() && InModel(ref)
      ensures r.Success? ==> InModel(r.value)
    {
      var index := IndexOf(seg);
      if Contains(seg, "libraries") then
        Success(if InRange(|libraries|, index) then TLibrary(index.value as nat) else TUndefined)
      else if Contains(seg, "variables") then
        var vars :=
          if ref.TUndefined? then Some(GetVariables(false))
          else if ref.TType? && IsCompositeClass(ref.t) then Some(ref.t.body.variables)
          else if ref.TWorld? then Some(worlds[ref.world].variables)
          else None;
        if vars.None? then Failure(TYPE_ERROR)
        else Success(if InRange(|vars.value|, index) then TVariable(vars.value[index.value]) else TUndefined)
      else if Contains(seg, "types") then
        if ref.TLibrary? then
          var ts := libraries[ref.lib].types;
          Success(if InRange(|ts|, index) then TType(ts[index.value]) else TUndefined)
        else if ref.TVariable? then
          var ss := GetTypes(ref.v);
          Success(if InRange(|ss|, index) then SlotTarget(ss[index.value]) else TUndefined)
        else if ref.TType? || ref.TWorld? || ref.TInstance? || ref.TVisualGroup? || ref.TElement? then
          Success(TUndefined)
        else Failure(TYPE_ERROR)
      else if Contains(seg, "anonymousTypes") then
        if ref.TVariable? then
          var ts := ref.v.anonymousTypes;
          Success(if InRange(|ts|, index) then TType(ts[index.value]) else TUndefined)
        else Failure(TYPE_ERROR)
      else if Contains(seg, "tags") && i == 1 then
        if rawTags.Some? && index.Some? && |rawTags.value| >= index.value then
          Success(if InRange(|rawTags.value|, index) then TRawTag(rawTags.value[index.value]) else TUndefined)
        else if tags.None? then Failure(TYPE_ERROR)
        else Success(if InRange(|tags.value|, index) then TTagName(tags.value[index.value]) else TUndefined)
      else if Truthy(ref) && Contains(seg, "tags") && i == 2 then
        if ref.TRawTag? && ref.tag.tags.Some? then
          var ts := ref.tag.tags.value;
          Success(if InRange(|ts|, index) then TRawTag(ts[index.value]) else TUndefined)
        else Failure(TYPE_ERROR)
      else if Truthy(ref) && Contains(seg, "visualGroups") then
        if ref.TType? && ref.t.body.CompositeVisual? then
          var gs := ref.t.body.visualGroups;
          Success(if InRange(|gs|, index) then TVisualGroup(gs[index.value]) else TUndefined)
        else Failure(TYPE_ERROR)
      else if Truthy(ref) && Contains(seg, "visualGroupElements") then
        if ref.TVisualGroup? then
          var es := ref.g.elements;
          Success(if InRange(|es|, index) then TElement(es[index.value]) else TUndefined)
        else Failure(TYPE_ERROR)
      else if (Truthy(ref) || !worldsNeedReference) && Contains(seg, "worlds") then
        Success(if InRange(|worlds|, index) then TWorld(index.value as nat) else TUndefined)
      else if Truthy(ref) && Contains(seg, "instances") then
        if ref.TWorld? then
          var ins := worlds[ref.world].instances;
          Success(if InRange(|ins|, index) then TInstance(ins[index.value]) else TUndefined)
        else Failure(TYPE_ERROR)
      else
        Success(ref)
    }

    /** The rest of the walk from segment `i` on; the first failure ends it. */
    function ResolveFromWith(raw: seq<string>, i: nat, ref: Target, worldsNeedReference: bool): (r: Result<Target>)
      reads this, libraries, worlds
      requires Valid() && InModel(ref)
      ensures r.Success? ==> InModel(r.value)
      decreases |raw| - i
    {
      if i >= |raw| then Success(ref)
      else
        var s := StepWith(raw[i], i, ref, worldsNeedReference);
        if s.Failure? then s else ResolveFromWith(raw, i + 1, s.value, worldsNeedReference)
    }

    /** What `resolve(refStr)` returns, with worlds reachable from the root. */
    function Resolved(refStr: string): Result<Target>
      reads this, libraries, worlds
      requires Valid()
    {
      ResolveFromWith(Segments(refStr), 0, TUndefined, false)
    }

    /** What `resolve(refStr)` returns as written. */
    function ResolvedAsWritten(refStr: string): Result<Target>
      reads this, libraries, worlds
      requires Valid()
    {
      ResolveFromWith(Segments(refStr), 0, TUndefined, true)
    }

    /** `resolve(refStr)`: the loop that replaces the reference segment by segment. */
    method Resolve(refStr: string) returns (r: Result<Target>)
      requires Valid()
      ensures r == Resolved(refStr)
    {
      var raw := Segments(refStr);
      var reference := TUndefined;
      var i := 0;
      while i < |raw|
        invariant 0 <= i <= |raw|
        invariant InModel(reference)
        invariant ResolveFromWith(raw, i, reference, false) == Resolved(refStr)
      {
        var s := StepWith(raw[i], i, reference, false);
        if s.Failure? {
          return s;
        }
        reference := s.value;
        i := i + 1;
      }
      return Success(reference);
    }

    /** A segment naming no feature leaves the reference as it is. */
    lemma StepWithoutFeature(seg: string, i: nat, ref: Target, g: bool)
      requires Valid() && InModel(ref)
      requires forall n :: n in FEATURES ==> !Contains(seg, n)
      ensures StepWith(seg, i, ref, g) == Success(ref)
    {
      assert !Contains(seg, FEATURES[0]) && !Contains(seg, FEATURES[1]) && !Contains(seg, FEATURES[2]);
      assert !Contains(seg, FEATURES[3]) && !Contains(seg, FEATURES[4]) && !Contains(seg, FEATURES[5]);
      assert !Contains(seg, FEATURES[6]) && !Contains(seg, FEATURES[7]) && !Contains(seg, FEATURES[8]);
    }

    /** The empty text before the first `@` leaves the reference as it is. */
    lemma EmptySegmentKeeps(ref: Target, g: bool)
      requires Valid() && InModel(ref)
      ensures StepWith("", 0, ref, g) == Success(ref)
    {
    }

    // Single steps on well-formed segments.

    lemma StepLibraries(k: nat, i: nat, ref: Target, g: bool)
      requires Valid() && InModel(ref)
      ensures StepWith(SegText(Seg("libraries", k)), i, ref, g) ==
        Success(if k < |libraries| then TLibrary(k) else TUndefined)
    {
      LibrariesSegment(k);
    }

    lemma StepTypesOfLibrary(j: nat, i: nat, lib: nat, g: bool)
      requires Valid() && lib < |libraries|
      ensures var ts := libraries[lib].types;
        StepWith(SegText(Seg("types", j)), i, TLibrary(lib), g) ==
          Success(if j < |ts| then TType(ts[j]) else TUndefined)
    {
      TypesSegment(j);
    }

    lemma StepTypesOfNothing(j: nat, i: nat, g: bool)
      requires Valid()
      ensures StepWith(SegText(Seg("types", j)), i, TUndefined, g) == Failure(TYPE_ERROR)
    {
      TypesSegment(j);
    }

    lemma StepScopeVariables(k: nat, i: nat, g: bool)
      requires Valid()
      ensures var vs := GetVariables(false);
        StepWith(SegText(Seg("variables", k)), i, TUndefined, g) ==
          Success(if k < |vs| then TVariable(vs[k]) else TUndefined)
    {
      VariablesSegment(k);
    }

    lemma StepVariablesOfType(m: nat, i: nat, t: Type, g: bool)
      requires Valid()
      ensures var r := StepWith(SegText(Seg("variables", m)), i, TType(t), g);
        (IsCompositeClass(t) && m < |t.body.variables| ==> r == Success(TVariable(t.body.variables[m]))) &&
        (IsCompositeClass(t) && m >= |t.body.variables| ==> r == Success(TUndefined)) &&
        (!IsCompositeClass(t) ==> r == Failure(TYPE_ERROR))
    {
      VariablesSegment(m);
    }

    lemma StepTopTag(k: nat, g: bool)
      requires Valid()
      ensures var r := StepWith(SegText(Seg("tags", k)), 1, TUndefined, g);
        (rawTags.Some? && k < |rawTags.value| ==> r == Success(TRawTag(rawTags.value[k]))) &&
        (rawTags.Some? && k == |rawTags.value| ==> r == Success(TUndefined)) &&
        (rawTags.None? && tags.Some? && k < |tags.value| ==> r == Success(TTagName(tags.value[k]))) &&
        (rawTags.None? && tags.None? ==> r == Failure(TYPE_ERROR))
    {
      TagsSegment(k);
    }

    lemma StepWorlds(k: nat, i: nat, ref: Target, g: bool)
      requires Valid() && InModel(ref)
      ensures var r := StepWith(SegText(Seg("worlds", k)), i, ref, g);
        (Truthy(ref) || !g ==> r == Success(if k < |worlds| then TWorld(k) else TUndefined)) &&
        (!Truthy(ref) && g ==> r == Success(ref))
    {
      WorldsSegment(k);
    }

    lemma StepInstances(j: nat, i: nat, ref: Target, g: bool)
      requires Valid() && InModel(ref)
      ensures var r := StepWith(SegText(Seg("instances", j)), i, ref, g);
        (ref.TWorld? ==> r == Success(if j < |worlds[ref.world].instances| then TInstance(worlds[ref.world].instances[j]) else TUndefined)) &&
        (ref == TUndefined ==> r == Success(TUndefined))
    {
      InstancesSegmentEarly(j);
      InstancesSegment(j);
    }

    /** A well-formed reference walks its own segments, after the empty one. */
    lemma SegmentsOf2(a: Seg, b: Seg)
      requires PlainName(a.feature) && PlainName(b.feature)
      ensures var raw := Segments(RefString([a, b]));
        |raw| == 3 && raw[0] == "" && raw[1] == SegText(a) && raw[2] == SegText(b)
    {
      SegmentsOfRefString([a, b]);
    }

    lemma SegmentsOf1(a: Seg)
      requires PlainName(a.feature)
      ensures var raw := Segments(RefString([a]));
        |raw| == 2 && raw[0] == "" && raw[1] == SegText(a)
    {
      SegmentsOfRefString([a]);
    }

    lemma SegmentsOf3(a: Seg, b: Seg, c: Seg)
      requires PlainName(a.feature) && PlainName(b.feature) && PlainName(c.feature)
      ensures var raw := Segments(RefString([a, b, c]));
        |raw| == 4 && raw[0] == "" && raw[1] == SegText(a) && raw[2] == SegText(b) && raw[3] == SegText(c)
    {
      SegmentsOfRefString([a, b, c]);
    }

    /** `//@libraries.k/@types.j` is type j of library k; a missing library throws, a missing type is `undefined`. */
    lemma ResolveLibraryType(k: nat, j: nat)
      requires Valid()
      ensures var r := Resolved(RefString([Seg("libraries", k), Seg("types", j)]));
        (k < |libraries| && j < |libraries[k].types| ==> r == Success(TType(libraries[k].types[j]))) &&
        (k < |libraries| && j >= |libraries[k].types| ==> r == Success(TUndefined)) &&
        (k >= |libraries| ==> r == Failure(TYPE_ERROR))
    {
      SegmentsOf2(Seg("libraries", k), Seg("types", j));
      WalkLibraryType(Segments(RefString([Seg("libraries", k), Seg("types", j)])), k, j);
    }

    lemma WalkLibraryType(raw: seq<string>, k: nat, j: nat)
      requires Valid()
      requires |raw| == 3 && raw[0] == "" && raw[1] == SegText(Seg("libraries", k)) && raw[2] == SegText(Seg("types", j))
      ensures var r := ResolveFromWith(raw, 0, TUndefined, false);
        (k < |libraries| && j < |libraries[k].types| ==> r == Success(TType(libraries[k].types[j]))) &&
        (k < |libraries| && j >= |libraries[k].types| ==> r == Success(TUndefined)) &&
        (k >= |libraries| ==> r == Failure(TYPE_ERROR))
    {
      EmptySegmentKeeps(TUndefined, false);
      StepLibraries(k, 1, TUndefined, false);
      var lib := if k < |libraries| then TLibrary(k) else TUndefined;
      assert ResolveFromWith(raw, 0, TUndefined, false) == ResolveFromWith(raw, 1, TUndefined, false);
      assert ResolveFromWith(raw, 1, TUndefined, false) == ResolveFromWith(raw, 2, lib, false);
      if k < |libraries| {
        StepTypesOfLibrary(j, 2, k, false);
        var ts := libraries[k].types;
        var tgt := if j < |ts| then TType(ts[j]) else TUndefined;
        assert ResolveFromWith(raw, 2, lib, false) == ResolveFromWith(raw, 3, tgt, false);
      } else {
        StepTypesOfNothing(j, 2, false);
      }
    }

    /** `//@variables.k` is variable k of the current scope: the active world's variables, else the legacy ones. */
    lemma ResolveScopeVariable(k: nat)
      requires Valid()
      ensures var vs := GetVariables(false);
        Resolved(RefString([Seg("variables", k)])) ==
          Success(if k < |vs| then TVariable(vs[k]) else TUndefined)
    {
      SegmentsOf1(Seg("variables", k));
      var raw := Segments(RefString([Seg("variables", k)]));
      EmptySegmentKeeps(TUndefined, false);
      StepScopeVariables(k, 1, false);
      assert ResolveFromWith(raw, 0, TUndefined, false) == ResolveFromWith(raw, 1, TUndefined, false);
    }

    /**
     * `//@libraries.k/@types.j/@variables.m` is variable m of that type when the
     * type is composite; any other type has no `getVariables` and the call throws.
     */
    lemma ResolveTypeVariable(k: nat, j: nat, m: nat)
      requires Valid()
      requires k < |libraries| && j < |libraries[k].types|
      ensures var t := libraries[k].types[j];
        var r := Resolved(RefString([Seg("libraries", k), Seg("types", j), Seg("variables", m)]));
        (IsCompositeClass(t) && m < |t.body.variables| ==> r == Success(TVariable(t.body.variables[m]))) &&
        (IsCompositeClass(t) && m >= |t.body.variables| ==> r == Success(TUndefined)) &&
        (!IsCompositeClass(t) ==> r == Failure(TYPE_ERROR))
    {
      SegmentsOf3(Seg("libraries", k), Seg("types", j), Seg("variables", m));
      WalkTypeVariable(Segments(RefString([Seg("libraries", k), Seg("types", j), Seg("variables", m)])), k, j, m);
    }

    lemma WalkTypeVariable(raw: seq<string>, k: nat, j: nat, m: nat)
      requires Valid()
      requires k < |libraries| && j < |libraries[k].types|
      requires |raw| == 4 && raw[0] == "" && raw[1] == SegText(Seg("libraries", k)) &&
        raw[2] == SegText(Seg("types", j)) && raw[3] == SegText(Seg("variables", m))
      ensures var t := libraries[k].types[j];
        var r := ResolveFromWith(raw, 0, TUndefined, false);
        (IsCompositeClass(t) && m < |t.body.variables| ==> r == Success(TVariable(t.body.variables[m]))) &&
        (IsCompositeClass(t) && m >= |t.body.variables| ==> r == Success(TUndefined)) &&
        (!IsCompositeClass(t) ==> r == Failure(TYPE_ERROR))
    {
      EmptySegmentKeeps(TUndefined, false);
      var t := libraries[k].types[j];
      StepLibraries(k, 1, TUndefined, false);
      StepTypesOfLibrary(j, 2, k, false);
      StepVariablesOfType(m, 3, t, false);
      assert ResolveFromWith(raw, 0, TUndefined, false) == ResolveFromWith(raw, 1, TUndefined, false);
      assert ResolveFromWith(raw, 1, TUndefined, false) == ResolveFromWith(raw, 2, TLibrary(k), false);
      assert ResolveFromWith(raw, 2, TLibrary(k), false) == ResolveFromWith(raw, 3, TType(t), false);
      if IsCompositeClass(t) {
        var vs := t.body.variables;
        var tgt := if m < |vs| then TVariable(vs[m]) else TUndefined;
        assert ResolveFromWith(raw, 3, TType(t), false) == ResolveFromWith(raw, 4, tgt, false);
      }
    }

    /**
     * `//@tags.k` reads the raw tags of the serialised model when it has at least
     * k of them, and otherwise the tag names; with neither, the read throws.
     */
    lemma ResolveTopTag(k: nat)
      requires Valid()
      ensures var r := Resolved(RefString([Seg("tags", k)]));
        (rawTags.Some? && k < |rawTags.value| ==> r == Success(TRawTag(rawTags.value[k]))) &&
        (rawTags.Some? && k == |rawTags.value| ==> r == Success(TUndefined)) &&
        (rawTags.None? && tags.Some? && k < |tags.value| ==> r == Success(TTagName(tags.value[k]))) &&
        (rawTags.None? && tags.None? ==> r == Failure(TYPE_ERROR))
    {
      SegmentsOf1(Seg("tags", k));
      var raw := Segments(RefString([Seg("tags", k)]));
      EmptySegmentKeeps(TUndefined, false);
      StepTopTag(k, false);
      assert ResolveFromWith(raw, 0, TUndefined, false) == ResolveFromWith(raw, 1, TUndefined, false);
      var r1 := StepWith(raw[1], 1, TUndefined, false);
      if r1.Success? {
        assert ResolveFromWith(raw, 1, TUndefined, false) == ResolveFromWith(raw, 2, r1.value, false);
      }
    }

    /**
     * As written, `//@worlds.k/@instances.j` never reaches an instance: with no
     * reference yet, the `worlds` branch is skipped, so `instances` is skipped too.
     */
    lemma WorldInstanceLostAsWritten(k: nat, j: nat)
      requires Valid()
      ensures ResolvedAsWritten(RefString([Seg("worlds", k), Seg("instances", j)])) == Success(TUndefined)
    {
      SegmentsOf2(Seg("worlds", k), Seg("instances", j));
      var raw := Segments(RefString([Seg("worlds", k), Seg("instances", j)]));
      EmptySegmentKeeps(TUndefined, true);
      StepWorlds(k, 1, TUndefined, true);
      StepInstances(j, 2, TUndefined, true);
      assert ResolveFromWith(raw, 0, TUndefined, true) == ResolveFromWith(raw, 1, TUndefined, true);
      assert ResolveFromWith(raw, 1, TUndefined, true) == ResolveFromWith(raw, 2, TUndefined, true);
      assert ResolveFromWith(raw, 2, TUndefined, true) == ResolveFromWith(raw, 3, TUndefined, true);
    }

    /** With worlds reachable from the root, `//@worlds.k/@instances.j` is instance j of world k. */
    lemma ResolveWorldInstance(k: nat, j: nat)
      requires Valid()
      requires k < |worlds|
      ensures var ins := worlds[k].instances;
        Resolved(RefString([Seg("worlds", k), Seg("instances", j)])) ==
          Success(if j < |ins| then TInstance(ins[j]) else TUndefined)
    {
      SegmentsOf2(Seg("worlds", k), Seg("instances", j));
      var raw := Segments(RefString([Seg("worlds", k), Seg("instances", j)]));
      EmptySegmentKeeps(TUndefined, false);
      StepWorlds(k, 1, TUndefined, false);
      StepInstances(j, 2, TWorld(k), false);
      assert ResolveFromWith(raw, 0, TUndefined, false) == ResolveFromWith(raw, 1, TUndefined, false);
      assert ResolveFromWith(raw, 1, TUndefined, false) == ResolveFromWith(raw, 2, TWorld(k), false);
      var ins := worlds[k].instances;
      var tgt := if j < |ins| then TInstance(ins[j]) else TUndefined;
      assert ResolveFromWith(raw, 2, TWorld(k), false) == ResolveFromWith(raw, 3, tgt, false);
    }
  }
}
