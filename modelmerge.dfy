/**
 * `mergeModel`: a raw model is built into a diff model, whose libraries, legacy variables
 * and current world are then merged into the existing model; the result reports what was
 * added or overridden.
 */
module ModelMerges {
  import opened Wrappers
  import opened Seqs
  import opened Graph
  import opened Meta
  import opened Raw
  import opened Worlds
  import opened Libraries
  import opened Models
  import opened Merge
  import opened LibraryMerges
  import Populate
  import Factory

  /** What the report says about one world: its id and name, and what was merged into it. */
  datatype WorldReport = WorldReport(id: string, name: string, variables: seq<Variable>, instances: seq<StaticInstance>)

  /** The diff report: new variables, new and overridden types, new libraries, and the worlds. */
  datatype DiffReport = DiffReport(
    variables: seq<Variable>,
    types: seq<Type>,
    libraries: seq<LibValue>,
    worlds: seq<WorldReport>)

  /** The value the factory gives a raw library of the model with id `modelId`. */
  function RawLibraryValue(modelId: string): RawLibrary -> Result<LibValue>
  {
    (l: RawLibrary) =>
      var p := modelId + "." + l.id;
      var ts := Factory.CreateTypes(l.types, p, false);
      if ts.Failure? then Failure(ts.error) else Success(LibValue(p, ts.value))
  }

  /** The libraries of the diff model: the unsynched raw libraries, each built. */
  function DiffLibraries(raw: Factory.RawModel): Result<seq<LibValue>>
    requires raw.libraries.Some?
  {
    Populate.Collect(RawLibraryValue(MODEL_PREFIX_CLIENT), Filter(raw.libraries.value, Factory.LiveLibrary))
  }

  /** The legacy variables of the diff model. */
  function DiffVariables(raw: Factory.RawModel): Result<seq<Variable>>
  {
    if raw.variables.NoVariables? then Success([]) else Factory.BuiltVariables(raw.variables.list, MODEL_PREFIX_CLIENT, true)
  }

  /** A world of the raw model as the report first lists it: nothing merged into it yet. */
  function BlankReport(w: RawWorld): WorldReport
  {
    WorldReport(w.id, w.name, [], [])
  }

  function BlankReports(ws: seq<RawWorld>): (r: seq<WorldReport>)
    ensures |r| == |ws| && forall k :: 0 <= k < |ws| ==> r[k] == BlankReport(ws[k])
  {
    Map(ws, BlankReport)
  }

  /**
   * The libraries the factory builds hold the values of `DiffLibraries`: the two agree
   * library by library.
   */
  lemma DiffLibrariesMirrored(raw: Factory.RawModel, libs: seq<Library>)
    requires raw.libraries.Some? && |libs| == |Filter(raw.libraries.value, Factory.LiveLibrary)|
    requires forall k :: 0 <= k < |libs| ==>
      libs[k].path == MODEL_PREFIX_CLIENT + "." + Filter(raw.libraries.value, Factory.LiveLibrary)[k].id &&
      Success(libs[k].types) == Factory.CreateTypes(Filter(raw.libraries.value, Factory.LiveLibrary)[k].types, libs[k].path, false)
    ensures DiffLibraries(raw).Success? && Mirrors(libs, DiffLibraries(raw).value)
  {
    var live := Filter(raw.libraries.value, Factory.LiveLibrary);
    forall k | 0 <= k < |live|
      ensures RawLibraryValue(MODEL_PREFIX_CLIENT)(live[k]) == Success(Value(libs[k]))
    {
    }
    Populate.CollectPointwise(RawLibraryValue(MODEL_PREFIX_CLIENT), live);
  }

  /**
   * Step 3b of `mergeModel` for the current world `w` and the diff model's world `diffW`:
   * the new variables are populated and appended, the new static instances appended, and
   * the world wires its connections — inside `mergeSimpleInstances` and again in
   * `initStaticInstances`, where the second pass changes nothing.
   */
  method MergeCurrentWorld(resolve: string -> Result<Target>, w: World, diffW: World, rw: RawWorld, refs: map<string, nat>)
    returns (r: Result<WorldReport>)
    requires w != diffW
    modifies w
    ensures var vs := Populate.PopulatedVariables(resolve, Added(old(w.variables), diffW.variables, VarPath));
      (vs.Failure? ==> r == Failure(vs.error)) &&
      (vs.Success? ==>
        r.Success? && r.value.id == rw.id && r.value.name == rw.name &&
        r.value.variables == vs.value && w.variables == old(w.variables) + vs.value)
    ensures r.Success? ==>
      r.value.instances == Added(old(w.instances), Unsynched(diffW.instances), InstPath) &&
      w.instances == WireFrom(old(w.instances) + r.value.instances, 0, refs) && Settled(w.instances, refs)
  {
    var vars := MergeWorldVariables(resolve, w, diffW.variables);
    if vars.Failure? {
      return Failure(vars.error);
    }
    var insts := MergeSimpleInstances(w, diffW.instances, refs);
    ghost var wired := w.instances;
    w.PopulateInstanceReferences(refs);
    WiringIdempotent(old(w.instances) + insts, refs);
    assert w.instances == wired;
    r := Success(WorldReport(rw.id, rw.name, vars.value, insts));
  }

  /** Step 2 of `mergeModel`: the diff model's libraries merged into the model's, in place. */
  method MergeDiffLibraries(resolve: string -> Result<Target>, raw: Factory.RawModel, m: GeppettoModel,
    diffLibs: seq<Library>, overrideTypes: bool) returns (r: Result<LibsMerge>)
    requires raw.libraries.Some? && DiffLibraries(raw).Success? && Mirrors(diffLibs, DiffLibraries(raw).value)
    requires Distinct(m.libraries) && Distinct(diffLibs)
    requires forall k :: 0 <= k < |diffLibs| ==> diffLibs[k] !in m.libraries
    modifies m, set l | l in m.libraries, set l | l in diffLibs
    ensures r == MergedLibraries(resolve, old(Values(m.libraries)), DiffLibraries(raw).value, overrideTypes)
    ensures r.Success? ==> Values(m.libraries) == r.value.libs
    ensures m.variables == old(m.variables) && m.worlds == old(m.worlds) && m.currentWorldIdx == old(m.currentWorldIdx)
  {
    MergerForRealizes(resolve, overrideTypes);
    r := MergeLibraries(resolve, MergerFor(resolve, overrideTypes), m, diffLibs, overrideTypes,
      Values(m.libraries), DiffLibraries(raw).value);
    if r.Success? {
      assert Values(m.libraries) == r.value.libs;
    }
  }

  /**
   * Step 3b of `mergeModel`: with a current world, the diff model must have one too (the
   * client reads its variables), and the report lists every raw world with the first one
   * holding what was merged into the current world.
   */
  method MergeWorlds(resolve: string -> Result<Target>, raw: Factory.RawModel, m: GeppettoModel,
    diff: GeppettoModel, refs: map<string, nat>) returns (r: Result<seq<WorldReport>>)
    requires m.Valid() && diff.Valid() && raw.worlds.Some? && |diff.worlds| == |raw.worlds.value|
    requires diff.currentWorldIdx == (if |diff.worlds| > 0 then 0 else -1)
    requires forall k :: 0 <= k < |diff.worlds| ==>
      diff.worlds[k] !in m.worlds && Factory.WorldBuiltFrom(diff.worlds[k], raw.worlds.value[k], MODEL_PREFIX_CLIENT)
    modifies set w | w in m.worlds
    ensures m.currentWorldIdx < 0 ==> r == Success([])
    ensures r.Success? && m.currentWorldIdx >= 0 ==>
      |raw.worlds.value| > 0 && |r.value| == |raw.worlds.value| &&
      (forall k :: 1 <= k < |raw.worlds.value| ==> r.value[k] == BlankReport(raw.worlds.value[k])) &&
      CurrentWorldMerged(resolve, raw.worlds.value[0], MODEL_PREFIX_CLIENT, m.worlds[m.currentWorldIdx],
        old(m.worlds[m.currentWorldIdx].variables), old(m.worlds[m.currentWorldIdx].instances), refs, r.value[0])
  {
    if m.currentWorldIdx < 0 {
      return Success([]);
    }
    if diff.currentWorldIdx < 0 {
      return Failure(TYPE_ERROR);
    }
    var w := m.worlds[m.currentWorldIdx];
    var dw := diff.worlds[diff.currentWorldIdx];
    var rw := raw.worlds.value[0];
    var merged := MergeCurrentWorld(resolve, w, dw, rw, refs);
    if merged.Failure? {
      return Failure(merged.error);
    }
    r := Success(BlankReports(raw.worlds.value)[0 := merged.value]);
  }

  /**
   * `mergeModel(rawModel, geppettoModel, overrideTypes)`. A raw model the factory refuses
   * makes the merge fail the same way. On success the model's libraries are those of the
   * library-level merge and the report holds the types it reported and the libraries it
   * appended; the legacy variables grow by the populated new ones; without a current world
   * no world is reported, and with one the raw model has at least one world, the report
   * lists every raw world, and the first one holds what was merged into the current world.
   * No world is added, removed or selected.
   */
  method MergeModel(resolve: string -> Result<Target>, raw: Factory.RawModel, m: GeppettoModel,
    overrideTypes: bool, refs: map<string, nat>) returns (r: Result<DiffReport>)
    requires m.Valid() && Distinct(m.libraries)
    modifies m, set l | l in m.libraries, set w | w in m.worlds
    ensures raw.eClass != GEPPETTO_MODEL ==> r == Failure(Factory.NOT_A_MODEL)
    ensures raw.eClass == GEPPETTO_MODEL && raw.worlds.None? ==> r == Failure(TYPE_ERROR)
    ensures m.Valid() && m.worlds == old(m.worlds) && m.currentWorldIdx == old(m.currentWorldIdx)
    ensures r.Success? ==>
      raw.libraries.Some? && DiffLibraries(raw).Success? &&
      MergedLibraries(resolve, old(Values(m.libraries)), DiffLibraries(raw).value, overrideTypes) ==
        Success(LibsMerge(Values(m.libraries), r.value.types, r.value.libraries))
    ensures r.Success? ==>
      DiffVariables(raw).Success? &&
      Populate.PopulatedVariables(resolve, Added(old(m.variables), DiffVariables(raw).value, VarPath)) ==
        Success(r.value.variables) &&
      m.variables == old(m.variables) + r.value.variables
    ensures r.Success? && m.currentWorldIdx < 0 ==> r.value.worlds == []
    ensures r.Success? && m.currentWorldIdx >= 0 ==>
      raw.worlds.Some? && |raw.worlds.value| > 0 && |r.value.worlds| == |raw.worlds.value| &&
      (forall k :: 1 <= k < |raw.worlds.value| ==> r.value.worlds[k] == BlankReport(raw.worlds.value[k])) &&
      CurrentWorldMerged(resolve, raw.worlds.value[0], MODEL_PREFIX_CLIENT, m.worlds[m.currentWorldIdx],
        old(m.worlds[m.currentWorldIdx].variables), old(m.worlds[m.currentWorldIdx].instances), refs, r.value.worlds[0])
  {
    var created := Factory.CreateGeppettoModel(raw);
    if created.Failure? {
      return Failure(created.error);
    }
    var diff := created.value;
    DiffLibrariesMirrored(raw, diff.libraries);
    r := MergeDiff(resolve, raw, m, diff, overrideTypes, refs);
  }

  /** Steps 2 and 3 of `mergeModel`, once the diff model `diff` is built from `raw`. */
  method MergeDiff(resolve: string -> Result<Target>, raw: Factory.RawModel, m: GeppettoModel, diff: GeppettoModel,
    overrideTypes: bool, refs: map<string, nat>) returns (r: Result<DiffReport>)
    requires m.Valid() && Distinct(m.libraries) && diff != m
    requires raw.libraries.Some? && DiffLibraries(raw).Success? && Mirrors(diff.libraries, DiffLibraries(raw).value)
    requires Distinct(diff.libraries) && forall k :: 0 <= k < |diff.libraries| ==> diff.libraries[k] !in m.libraries
    requires DiffVariables(raw) == Success(diff.variables)
    requires diff.Valid() && raw.worlds.Some? && |diff.worlds| == |raw.worlds.value|
    requires diff.currentWorldIdx == (if |diff.worlds| > 0 then 0 else -1)
    requires forall k :: 0 <= k < |diff.worlds| ==>
      diff.worlds[k] !in m.worlds && Factory.WorldBuiltFrom(diff.worlds[k], raw.worlds.value[k], MODEL_PREFIX_CLIENT)
    modifies m, set l | l in m.libraries, set l | l in diff.libraries, set w | w in m.worlds
    ensures m.Valid() && m.worlds == old(m.worlds) && m.currentWorldIdx == old(m.currentWorldIdx)
    ensures r.Success? ==>
      raw.libraries.Some? && DiffLibraries(raw).Success? &&
      MergedLibraries(resolve, old(Values(m.libraries)), DiffLibraries(raw).value, overrideTypes) ==
        Success(LibsMerge(Values(m.libraries), r.value.types, r.value.libraries))
    ensures r.Success? ==>
      DiffVariables(raw).Success? &&
      Populate.PopulatedVariables(resolve, Added(old(m.variables), DiffVariables(raw).value, VarPath)) ==
        Success(r.value.variables) &&
      m.variables == old(m.variables) + r.value.variables
    ensures r.Success? && m.currentWorldIdx < 0 ==> r.value.worlds == []
    ensures r.Success? && m.currentWorldIdx >= 0 ==>
      raw.worlds.Some? && |raw.worlds.value| > 0 && |r.value.worlds| == |raw.worlds.value| &&
      (forall k :: 1 <= k < |raw.worlds.value| ==> r.value.worlds[k] == BlankReport(raw.worlds.value[k])) &&
      CurrentWorldMerged(resolve, raw.worlds.value[0], MODEL_PREFIX_CLIENT, m.worlds[m.currentWorldIdx],
        old(m.worlds[m.currentWorldIdx].variables), old(m.worlds[m.currentWorldIdx].instances), refs, r.value.worlds[0])
  {
    var libs := MergeDiffLibraries(resolve, raw, m, diff.libraries, overrideTypes);
    if libs.Failure? {
      return Failure(libs.error);
    }
    ghost var merged := Values(m.libraries);
    var rest := MergeVariablesAndWorlds(resolve, raw, m, diff, refs);
    if rest.Failure? {
      return Failure(rest.error);
    }
    assert Values(m.libraries) == merged;
    r := Success(DiffReport(rest.value.0, libs.value.types, libs.value.added, rest.value.1));
  }

  /** Step 3 of `mergeModel`: the legacy variables, then the current world. */
  method MergeVariablesAndWorlds(resolve: string -> Result<Target>, raw: Factory.RawModel, m: GeppettoModel,
    diff: GeppettoModel, refs: map<string, nat>) returns (r: Result<(seq<Variable>, seq<WorldReport>)>)
    requires m.Valid() && diff != m
    requires DiffVariables(raw) == Success(diff.variables)
    requires diff.Valid() && raw.worlds.Some? && |diff.worlds| == |raw.worlds.value|
    requires diff.currentWorldIdx == (if |diff.worlds| > 0 then 0 else -1)
    requires forall k :: 0 <= k < |diff.worlds| ==>
      diff.worlds[k] !in m.worlds && Factory.WorldBuiltFrom(diff.worlds[k], raw.worlds.value[k], MODEL_PREFIX_CLIENT)
    modifies m, set w | w in m.worlds
    ensures m.Valid() && m.worlds == old(m.worlds) && m.currentWorldIdx == old(m.currentWorldIdx)
    ensures m.libraries == old(m.libraries)
    ensures r.Success? ==>
      Populate.PopulatedVariables(resolve, Added(old(m.variables), DiffVariables(raw).value, VarPath)) ==
        Success(r.value.0) &&
      m.variables == old(m.variables) + r.value.0
    ensures r.Success? && m.currentWorldIdx < 0 ==> r.value.1 == []
    ensures r.Success? && m.currentWorldIdx >= 0 ==>
      |raw.worlds.value| > 0 && |r.value.1| == |raw.worlds.value| &&
      (forall k :: 1 <= k < |raw.worlds.value| ==> r.value.1[k] == BlankReport(raw.worlds.value[k])) &&
      CurrentWorldMerged(resolve, raw.worlds.value[0], MODEL_PREFIX_CLIENT, m.worlds[m.currentWorldIdx],
        old(m.worlds[m.currentWorldIdx].variables), old(m.worlds[m.currentWorldIdx].instances), refs, r.value.1[0])
  {
    var vars := MergeModelVariables(resolve, m, diff.variables);
    if vars.Failure? {
      return Failure(vars.error);
    }
    var worlds := MergeWorlds(resolve, raw, m, diff, refs);
    if worlds.Failure? {
      return Failure(worlds.error);
    }
    r := Success((vars.value, worlds.value));
  }

  /**
   * The report `rep` of the current world `w`, which held `vars` and `insts` before the
   * merge, for the raw world `rw` of a model with id `modelId`.
   */
  ghost predicate CurrentWorldMerged(resolve: string -> Result<Target>, rw: RawWorld, modelId: string, w: World,
    vars: seq<Variable>, insts: seq<StaticInstance>, refs: map<string, nat>, rep: WorldReport)
    reads w
  {
    rw.variables.VariableList? &&
    var dv := Factory.BuiltVariables(rw.variables.list, modelId + "." + rw.id, true);
    var di := CreateStaticInstances(rw.instances, modelId);
    dv.Success? && di.Success? &&
    rep.id == rw.id && rep.name == rw.name &&
    Populate.PopulatedVariables(resolve, Added(vars, dv.value, VarPath)) == Success(rep.variables) &&
    w.variables == vars + rep.variables &&
    rep.instances == Added(insts, Unsynched(di.value), InstPath) &&
    w.instances == WireFrom(insts + rep.instances, 0, refs)
  }
}
