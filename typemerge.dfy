/**
 * The type part of `mergeModel` for one library whose path matches a diff library:
 * the diff types whose path is not in the library yet are appended (and registered
 * when they are import types), then populated; with `overrideTypes`, every diff type
 * that matched an existing one is populated, remembers the type it replaces as its
 * `overrideType`, and is written at that type's `_index` in the library.
 */
module TypeMerges {
  import opened Wrappers
  import opened Seqs
  import opened Graph
  import opened Libraries
  import opened Merge
  import opened Models
  import Worlds
  import Populate

  function TypePath(t: Type): string { t.path }

  /** A diff type as `addType` re-parents it to the library at `libPath`. */
  function PlacedIn(libPath: string, t: Type): Type
  {
    t.(path := libPath + "." + t.id)
  }

  function Placed(libPath: string, ts: seq<Type>): (r: seq<Type>)
    ensures |r| == |ts|
    ensures forall k :: 0 <= k < |ts| ==> r[k] == PlacedIn(libPath, ts[k])
  {
    Map(ts, (t: Type) => PlacedIn(libPath, t))
  }

  /** The populate step of one type, as a value. */
  function TypePopulator(resolve: string -> Result<Target>): Type -> Result<Type>
  {
    (t: Type) => Populate.PopulatedType(resolve, t)
  }

  /**
   * `types[index] = t`: only an index the list has changes an entry; a type without
   * `_index` (`undefined`) writes no element.
   */
  function WriteAt<T>(ts: seq<T>, idx: Option<nat>, t: T): (r: seq<T>)
    ensures |r| == |ts|
    ensures forall q :: 0 <= q < |ts| ==> r[q] == if idx == Some(q) then t else ts[q]
  {
    if idx.Some? && idx.value < |ts| then ts[idx.value := t] else ts
  }

  /** One override: the diff type, populated, with the type it replaces as its `overrideType`. */
  function Swapped(resolve: string -> Result<Target>, m: Match<Type>): (r: Result<Type>)
    ensures r.Success? ==> r.value.overrideType == Some(m.existing)
  {
    var p := Populate.PopulatedType(resolve, m.incoming);
    if p.Failure? then Failure(p.error) else Success(p.value.(overrideType := Some(m.existing)))
  }

  function Overrider(resolve: string -> Result<Target>): Match<Type> -> Result<Type>
  {
    (m: Match<Type>) => Swapped(resolve, m)
  }

  function ImportIndex(t: Type): Option<nat> { t.importIndex }

  /** The list after the first `k` overrides, and the swapped-in entries so far. */
  datatype Overridden<T> = Overridden(types: seq<T>, swapped: seq<T>)

  /**
   * The override loop over the first `k` matches: `step` makes the entry to swap in (it
   * may throw, which ends the loop), and it is written at the index `indexOf` gives the
   * entry it replaces.
   */
  function OverridesUpTo<T>(step: Match<T> -> Result<T>, indexOf: T -> Option<nat>, types: seq<T>,
    ms: seq<Match<T>>, k: nat): (r: Result<Overridden<T>>)
    requires k <= |ms|
    ensures r.Success? ==> |r.value.types| == |types| && |r.value.swapped| == k
  {
    if k == 0 then Success(Overridden(types, []))
    else
      var prev := OverridesUpTo(step, indexOf, types, ms, k - 1);
      var s := step(ms[k - 1]);
      if prev.Failure? then prev
      else if s.Failure? then Failure(s.error)
      else Success(Overridden(WriteAt(prev.value.types, indexOf(ms[k - 1].existing), s.value),
                              prev.value.swapped + [s.value]))
  }

  /** The last of the first `k` overrides that writes position `q`, or -1 if none does. */
  function LastWriter<T>(indexOf: T -> Option<nat>, ms: seq<Match<T>>, k: nat, q: nat): (j: int)
    requires k <= |ms|
    ensures -1 <= j < k
    ensures j >= 0 ==> indexOf(ms[j].existing) == Some(q)
    ensures forall i :: j < i < k ==> indexOf(ms[i].existing) != Some(q)
  {
    if k == 0 then -1
    else if indexOf(ms[k - 1].existing) == Some(q) then k - 1
    else LastWriter(indexOf, ms, k - 1, q)
  }

  /**
   * The overrides succeed exactly when every step succeeds; the swapped-in entries are then
   * the steps' results, in match order.
   */
  lemma {:induction false} OverridesReport<T>(step: Match<T> -> Result<T>, indexOf: T -> Option<nat>,
    types: seq<T>, ms: seq<Match<T>>, k: nat)
    requires k <= |ms|
    ensures var r := OverridesUpTo(step, indexOf, types, ms, k);
      (r.Success? <==> forall j :: 0 <= j < k ==> step(ms[j]).Success?) &&
      (r.Success? ==> forall j :: 0 <= j < k ==> step(ms[j]) == Success(r.value.swapped[j]))
  {
    if k > 0 {
      OverridesReport(step, indexOf, types, ms, k - 1);
      var prev := OverridesUpTo(step, indexOf, types, ms, k - 1);
      if prev.Success? && step(ms[k - 1]).Success? {
        assert OverridesUpTo(step, indexOf, types, ms, k).value.swapped == prev.value.swapped + [step(ms[k - 1]).value];
      }
    }
  }

  /**
   * Where the overrides write: a position no override names keeps its entry, and a position
   * several name holds the entry of the last of them.
   */
  lemma {:induction false} OverridesWriteBack<T>(step: Match<T> -> Result<T>, indexOf: T -> Option<nat>,
    types: seq<T>, ms: seq<Match<T>>, k: nat, q: nat)
    requires k <= |ms| && q < |types|
    ensures var r := OverridesUpTo(step, indexOf, types, ms, k);
      var j := LastWriter(indexOf, ms, k, q);
      r.Success? ==> r.value.types[q] == if j >= 0 then r.value.swapped[j] else types[q]
  {
    if k > 0 {
      OverridesWriteBack(step, indexOf, types, ms, k - 1, q);
      var prev := OverridesUpTo(step, indexOf, types, ms, k - 1);
      if prev.Success? && LastWriter(indexOf, ms, k, q) != k - 1 {
        assert LastWriter(indexOf, ms, k, q) == LastWriter(indexOf, ms, k - 1, q);
      }
    }
  }

  lemma {:induction false} OverridesFailurePersists<T>(step: Match<T> -> Result<T>, indexOf: T -> Option<nat>,
    types: seq<T>, ms: seq<Match<T>>, k: nat, n: nat)
    requires k <= n <= |ms| && OverridesUpTo(step, indexOf, types, ms, k).Failure?
    ensures OverridesUpTo(step, indexOf, types, ms, n) == OverridesUpTo(step, indexOf, types, ms, k)
    decreases n
  {
    if k < n {
      OverridesFailurePersists(step, indexOf, types, ms, k, n - 1);
    }
  }

  // ------------------------------------------------------------ the merge of one library's types

  /** What merging a library's types yields: its new type list and the reported types. */
  datatype TypeMerge = TypeMerge(types: seq<Type>, added: seq<Type>, overridden: seq<Type>)
  {
    /** `diffReport.types`: the appended types, then the swapped-in ones. */
    function Reported(): seq<Type> { added + overridden }
  }

  /** The diff types that matched one already in the library, with the type each matched. */
  function TypeMatches(types: seq<Type>, libPath: string, diffTypes: seq<Type>): seq<Match<Type>>
  {
    var diff := Placed(libPath, diffTypes);
    MatchedUpTo(types, diff, |diff|, TypePath)
  }

  /** The merge, with the helpers it calls doing what their names say. */
  function MergedTypes(resolve: string -> Result<Target>, types: seq<Type>, libPath: string,
    diffTypes: seq<Type>, overrideTypes: bool): Result<TypeMerge>
  {
    var pop := Populate.Collect(TypePopulator(resolve), Added(types, Placed(libPath, diffTypes), TypePath));
    if pop.Failure? then Failure(pop.error)
    else
      var grown := types + pop.value;
      if !overrideTypes then Success(TypeMerge(grown, pop.value, []))
      else
        var ms := TypeMatches(types, libPath, diffTypes);
        var o := OverridesUpTo(Overrider(resolve), ImportIndex, grown, ms, |ms|);
        if o.Failure? then Failure(o.error) else Success(TypeMerge(o.value.types, pop.value, o.value.swapped))
  }

  /** Populating keeps every path, so the appended types keep theirs. */
  lemma PopulatedTypesKeepPaths(resolve: string -> Result<Target>, xs: seq<Type>)
    ensures var r := Populate.Collect(TypePopulator(resolve), xs);
      r.Success? ==> forall k :: 0 <= k < |xs| ==> r.value[k].path == xs[k].path
  {
    Populate.CollectPointwise(TypePopulator(resolve), xs);
    forall k | 0 <= k < |xs|
      ensures var p := Populate.PopulatedType(resolve, xs[k]); p.Success? ==> p.value.path == xs[k].path
    {
      Populate.PopulatedTypeKeepsPath(resolve, xs[k]);
    }
  }

  /**
   * Without `overrideTypes` nothing already in the library changes: the list grows by the
   * populated diff types that were new, in diff order, each with a path the library did not
   * have and no two with the same path; every diff type's path is then in the library.
   */
  lemma MergedTypesAppend(resolve: string -> Result<Target>, types: seq<Type>, libPath: string, diffTypes: seq<Type>)
    ensures var r := MergedTypes(resolve, types, libPath, diffTypes, false);
      var novel := Novel(types, Placed(libPath, diffTypes), |diffTypes|, TypePath);
      r.Success? ==>
        r.value.types == types + r.value.added && r.value.overridden == [] &&
        |r.value.added| == |novel| &&
        (forall k :: 0 <= k < |novel| ==> TypePopulator(resolve)(novel[k]) == Success(r.value.added[k])) &&
        (forall k :: 0 <= k < |r.value.added| ==> !HasPath(types, r.value.added[k].path, TypePath)) &&
        (forall k :: 0 <= k < |diffTypes| ==> HasPath(r.value.types, libPath + "." + diffTypes[k].id, TypePath))
  {
    var diff := Placed(libPath, diffTypes);
    var a := Added(types, diff, TypePath);
    AddedIsNovel(types, diff, TypePath);
    MergeCovers(types, diff, TypePath);
    Populate.CollectPointwise(TypePopulator(resolve), a);
    PopulatedTypesKeepPaths(resolve, a);
    var pop := Populate.Collect(TypePopulator(resolve), a);
    if pop.Success? {
      forall k | 0 <= k < |pop.value|
        ensures !HasPath(types, pop.value[k].path, TypePath)
      {
        assert pop.value[k].path == TypePath(a[k]);
      }
      forall k | 0 <= k < |diffTypes|
        ensures HasPath(types + pop.value, libPath + "." + diffTypes[k].id, TypePath)
      {
        assert TypePath(diff[k]) == libPath + "." + diffTypes[k].id;
        assert HasPath(types + a, TypePath(diff[k]), TypePath);
        var q :| 0 <= q < |types + a| && TypePath((types + a)[q]) == TypePath(diff[k]);
        if q >= |types| {
          assert (types + pop.value)[q] == pop.value[q - |types|];
        }
        assert TypePath((types + pop.value)[q]) == TypePath(diff[k]);
      }
    }
  }

  /** Merging the same diff types a second time appends nothing. */
  lemma MergeTypesTwiceAddsNothing(resolve: string -> Result<Target>, types: seq<Type>, libPath: string,
    diffTypes: seq<Type>)
    ensures var r := MergedTypes(resolve, types, libPath, diffTypes, false);
      r.Success? ==> Added(r.value.types, Placed(libPath, diffTypes), TypePath) == []
  {
    var r := MergedTypes(resolve, types, libPath, diffTypes, false);
    if r.Success? {
      MergedTypesAppend(resolve, types, libPath, diffTypes);
      var diff := Placed(libPath, diffTypes);
      forall k | 0 <= k < |diff|
        ensures HasPath(r.value.types, TypePath(diff[k]), TypePath)
      {
      }
      KnownPathsAddNothing(r.value.types, diff, |diff|, TypePath);
    }
  }

  /**
   * With `overrideTypes` the list keeps the populated appended types at its end and its
   * length; each position ends with the type of the last override written there (or what
   * it held), and every swapped-in type remembers the type it replaced.
   */
  lemma MergedTypesOverride(resolve: string -> Result<Target>, types: seq<Type>, libPath: string,
    diffTypes: seq<Type>)
    ensures var r := MergedTypes(resolve, types, libPath, diffTypes, true);
      var ms := TypeMatches(types, libPath, diffTypes);
      r.Success? ==>
        |r.value.types| == |types| + |r.value.added| && |r.value.overridden| == |ms| &&
        (forall j :: 0 <= j < |ms| ==>
          r.value.overridden[j].overrideType == Some(ms[j].existing) &&
          Swapped(resolve, ms[j]) == Success(r.value.overridden[j])) &&
        (forall q :: 0 <= q < |r.value.types| ==>
          var j := LastWriter(ImportIndex, ms, |ms|, q);
          r.value.types[q] == if j >= 0 then r.value.overridden[j] else (types + r.value.added)[q])
  {
    var r := MergedTypes(resolve, types, libPath, diffTypes, true);
    var ms := TypeMatches(types, libPath, diffTypes);
    var pop := Populate.Collect(TypePopulator(resolve), Added(types, Placed(libPath, diffTypes), TypePath));
    if r.Success? {
      var grown := types + pop.value;
      OverridesReport(Overrider(resolve), ImportIndex, grown, ms, |ms|);
      forall q | 0 <= q < |r.value.types|
        ensures var j := LastWriter(ImportIndex, ms, |ms|, q);
          r.value.types[q] == if j >= 0 then r.value.overridden[j] else grown[q]
      {
        OverridesWriteBack(Overrider(resolve), ImportIndex, grown, ms, |ms|, q);
      }
    }
  }

  /** The matches name types the library held, and each is the first one with its diff type's path. */
  lemma TypeMatchesHold(types: seq<Type>, libPath: string, diffTypes: seq<Type>)
    ensures var diff := Placed(libPath, diffTypes);
      MatchesHold(types + Added(types, diff, TypePath), diff, TypeMatches(types, libPath, diffTypes), TypePath)
  {
    var diff := Placed(libPath, diffTypes);
    MatchedHaveTheirPath(types, diff, |diff|, TypePath);
  }

  // ------------------------------------------------------------ the merge as the client writes it

  /**
   * The type part of `mergeModel` as written. Right after the first new type is appended
   * it calls `ModelFactory.populateChildrenShortcuts`, which `ModelFactory` does not
   * define. The first override first populates the incoming type, then calls
   * `this.swapTypeInVariable` (an instance method, not reachable from the static
   * `mergeModel`) for each variable that used the replaced type, and after writing the
   * override calls `ModelFactory.addPotentialInstancePathsForTypeSwap`, which is defined
   * on `Instances`. Each of these throws a TypeError.
   */
  function MergedTypesAsWritten(resolve: string -> Result<Target>, types: seq<Type>, libPath: string,
    diffTypes: seq<Type>, overrideTypes: bool): Result<TypeMerge>
  {
    var ms := TypeMatches(types, libPath, diffTypes);
    if Added(types, Placed(libPath, diffTypes), TypePath) != [] then Failure(Graph.TYPE_ERROR)
    else if overrideTypes && |ms| > 0 then
      var s := Swapped(resolve, ms[0]);
      if s.Failure? then Failure(s.error) else Failure(Graph.TYPE_ERROR)
    else Success(TypeMerge(types, [], []))
  }

  /** Where nothing is new and nothing is overridden, the two agree. */
  lemma AsWrittenAgreesWithoutNewTypes(resolve: string -> Result<Target>, types: seq<Type>, libPath: string,
    diffTypes: seq<Type>, overrideTypes: bool)
    requires Added(types, Placed(libPath, diffTypes), TypePath) == []
    requires !overrideTypes || TypeMatches(types, libPath, diffTypes) == []
    ensures MergedTypesAsWritten(resolve, types, libPath, diffTypes, overrideTypes) ==
      MergedTypes(resolve, types, libPath, diffTypes, overrideTypes)
  {
    assert types + [] == types;
  }

  /**
   * A type that matches one already in the library, with overriding on: as written the merge
   * throws at its first override (a TypeError once the incoming type populates), where the
   * intended merge swaps every match in, as `MergedTypesOverride` states.
   */
  lemma OverrideThrowsAsWritten(resolve: string -> Result<Target>, types: seq<Type>, libPath: string,
    diffTypes: seq<Type>)
    requires Added(types, Placed(libPath, diffTypes), TypePath) == []
    requires |TypeMatches(types, libPath, diffTypes)| > 0
    ensures MergedTypesAsWritten(resolve, types, libPath, diffTypes, true).Failure?
    ensures Swapped(resolve, TypeMatches(types, libPath, diffTypes)[0]).Success? ==>
      MergedTypesAsWritten(resolve, types, libPath, diffTypes, true) == Failure(Graph.TYPE_ERROR)
  {
  }

  /** A plain type with nothing to resolve. */
  function Bare(id: string): Type
  {
    Type(id, id, "SimpleType", "", NoSuper, Undef, [], [], [], None, None, Plain)
  }

  /**
   * One new type in a matching library: the merge as written throws, while the intended
   * merge appends it to the library and reports it.
   */
  lemma NewTypeThrowsAsWritten(resolve: string -> Result<Target>, libPath: string)
    ensures MergedTypesAsWritten(resolve, [], libPath, [Bare("t")], false) == Failure(Graph.TYPE_ERROR)
    ensures var r := MergedTypes(resolve, [], libPath, [Bare("t")], false);
      r == Success(TypeMerge([PlacedIn(libPath, Bare("t"))], [PlacedIn(libPath, Bare("t"))], []))
  {
    var t := PlacedIn(libPath, Bare("t"));
    var diff := Placed(libPath, [Bare("t")]);
    assert diff == [t];
    AddedUpToStep([], diff, 0, TypePath);
    assert !HasPath([], TypePath(t), TypePath);
    assert Added([], diff, TypePath) == [t];
    assert Populate.PopulatedType(resolve, t) == Success(t);
    assert TypePopulator(resolve)(t) == Success(t);
    Populate.CollectSnoc(TypePopulator(resolve), [], t);
    assert [] + [t] == [t];
  }

  // ------------------------------------------------------------ the loops, in place on the library

  /** The state of the first loop after `k` diff types. */
  ghost predicate AppendedUpTo(start: seq<Type>, startImports: seq<Type>, diff: seq<Type>, k: nat,
    types: seq<Type>, imports: seq<Type>, ms: seq<Match<Type>>)
  {
    k <= |diff| &&
    types == start + AddedUpTo(start, diff, k, TypePath) &&
    imports == startImports + Filter(AddedUpTo(start, diff, k, TypePath), IsImportType) &&
    ms == MatchedUpTo(start, diff, k, TypePath)
  }

  /** One turn of the first loop: look the diff type up by path, append it when missing. */
  method AppendStep(lib: Library, ghost start: seq<Type>, ghost startImports: seq<Type>, diffTypes: seq<Type>, k: nat,
    ms: seq<Match<Type>>) returns (ms': seq<Match<Type>>)
    requires k < |diffTypes|
    requires AppendedUpTo(start, startImports, Placed(lib.path, diffTypes), k, lib.types, lib.importTypes, ms)
    modifies lib
    ensures AppendedUpTo(start, startImports, Placed(lib.path, diffTypes), k + 1, lib.types, lib.importTypes, ms')
  {
    ghost var diff := Placed(lib.path, diffTypes);
    ghost var a := AddedUpTo(start, diff, k, TypePath);
    AddedUpToStep(start, diff, k, TypePath);
    MatchedUpToStep(start, diff, k, TypePath);
    assert diff[k] == PlacedIn(lib.path, diffTypes[k]) && TypePath(diff[k]) == lib.path + "." + diffTypes[k].id;
    var found := Find(lib.types, lib.path + "." + diffTypes[k].id, TypePath);
    if found.Some? {
      ms' := ms + [Match(PlacedIn(lib.path, diffTypes[k]), found.value)];
    } else {
      lib.AddType(diffTypes[k]);
      FilterConcat(a, [diff[k]], IsImportType);
      assert lib.types == start + (a + [diff[k]]);
      ms' := ms;
    }
  }

  /**
   * The first loop over the diff types: each is looked up by path in the library as it
   * grows and appended by `addType` when missing; the matches are collected in order.
   */
  method AppendNewTypes(lib: Library, diffTypes: seq<Type>) returns (ms: seq<Match<Type>>)
    modifies lib
    ensures var diff := Placed(lib.path, diffTypes);
      lib.types == old(lib.types) + Added(old(lib.types), diff, TypePath) &&
      lib.importTypes == old(lib.importTypes) + Filter(Added(old(lib.types), diff, TypePath), IsImportType) &&
      ms == TypeMatches(old(lib.types), lib.path, diffTypes)
  {
    ghost var start := lib.types;
    ghost var startImports := lib.importTypes;
    ghost var diff := Placed(lib.path, diffTypes);
    ms := [];
    var k := 0;
    while k < |diffTypes|
      invariant 0 <= k <= |diffTypes| == |diff|
      invariant AppendedUpTo(start, startImports, diff, k, lib.types, lib.importTypes, ms)
    {
      ms := AppendStep(lib, start, startImports, diffTypes, k, ms);
      k := k + 1;
    }
    assert ms == MatchedUpTo(start, diff, |diff|, TypePath);
  }

  /** The state of the second loop after `j` appended types. */
  ghost predicate PopulatedUpTo(resolve: string -> Result<Target>, front: seq<Type>, appended: seq<Type>, j: nat,
    types: seq<Type>, done: seq<Type>)
  {
    j <= |appended| &&
    Populate.Collect(TypePopulator(resolve), appended[..j]) == Success(done) &&
    types == front + done + appended[j..]
  }

  /** One turn of the second loop: the appended type at `start + j` is populated in place. */
  method PopulateStep(resolve: string -> Result<Target>, lib: Library, start: nat, ghost front: seq<Type>,
    ghost appended: seq<Type>, j: nat, done: seq<Type>) returns (done': seq<Type>, err: Option<string>)
    requires j < |appended| && |front| == start
    requires PopulatedUpTo(resolve, front, appended, j, lib.types, done)
    modifies lib
    ensures err.None? ==> PopulatedUpTo(resolve, front, appended, j + 1, lib.types, done')
    ensures err.Some? ==> Populate.Collect(TypePopulator(resolve), appended) == Failure(err.value)
    ensures lib.importTypes == old(lib.importTypes)
  {
    Populate.CollectPrefixStep(TypePopulator(resolve), appended, j);
    assert lib.types[start + j] == appended[j];
    var p := Populate.PopulatedType(resolve, lib.types[start + j]);
    assert TypePopulator(resolve)(appended[j]) == p;
    if p.Failure? {
      Populate.CollectPrefixFailure(TypePopulator(resolve), appended, j + 1);
      return done, Some(p.error);
    }
    lib.types := lib.types[start + j := p.value];
    assert lib.types == front + (done + [p.value]) + appended[j + 1..];
    done' := done + [p.value];
    err := None;
  }

  /**
   * The second loop: each appended type, from position `start` on, is populated in place;
   * the first throw ends the loop.
   */
  method PopulateAppended(resolve: string -> Result<Target>, lib: Library, start: nat) returns (r: Result<seq<Type>>)
    requires start <= |lib.types|
    modifies lib
    ensures r == Populate.Collect(TypePopulator(resolve), old(lib.types)[start..])
    ensures r.Success? ==> lib.types == old(lib.types)[..start] + r.value
    ensures lib.importTypes == old(lib.importTypes)
  {
    ghost var appended := lib.types[start..];
    ghost var front := lib.types[..start];
    assert lib.types == front + [] + appended[0..];
    var n := |lib.types| - start;
    var done: seq<Type> := [];
    var j := 0;
    while j < n
      invariant 0 <= j <= n && |appended| == n
      invariant PopulatedUpTo(resolve, front, appended, j, lib.types, done)
      invariant lib.importTypes == old(lib.importTypes)
    {
      var err;
      done, err := PopulateStep(resolve, lib, start, front, appended, j, done);
      if err.Some? {
        return Failure(err.value);
      }
      j := j + 1;
    }
    assert appended[..n] == appended;
    assert lib.types == front + done;
    r := Success(done);
  }

  /** The override loop: each matched diff type is populated and written at the replaced type's `_index`. */
  method ApplyOverrides(resolve: string -> Result<Target>, lib: Library, ms: seq<Match<Type>>)
    returns (r: Result<Overridden<Type>>)
    modifies lib
    ensures r == OverridesUpTo(Overrider(resolve), ImportIndex, old(lib.types), ms, |ms|)
    ensures r.Success? ==> lib.types == r.value.types
    ensures lib.importTypes == old(lib.importTypes)
  {
    ghost var grown := lib.types;
    var swapped: seq<Type> := [];
    var k := 0;
    while k < |ms|
      invariant 0 <= k <= |ms|
      invariant OverridesUpTo(Overrider(resolve), ImportIndex, grown, ms, k) == Success(Overridden(lib.types, swapped))
      invariant lib.importTypes == old(lib.importTypes)
    {
      var err;
      swapped, err := OverrideStep(resolve, lib, grown, ms, k, swapped);
      if err.Some? {
        return Failure(err.value);
      }
      k := k + 1;
    }
    r := Success(Overridden(lib.types, swapped));
  }

  /** One turn of the override loop. */
  method OverrideStep(resolve: string -> Result<Target>, lib: Library, ghost grown: seq<Type>,
    ms: seq<Match<Type>>, k: nat, swapped: seq<Type>) returns (swapped': seq<Type>, err: Option<string>)
    requires k < |ms|
    requires OverridesUpTo(Overrider(resolve), ImportIndex, grown, ms, k) == Success(Overridden(lib.types, swapped))
    modifies lib
    ensures err.None? ==>
      OverridesUpTo(Overrider(resolve), ImportIndex, grown, ms, k + 1) == Success(Overridden(lib.types, swapped'))
    ensures err.Some? ==> OverridesUpTo(Overrider(resolve), ImportIndex, grown, ms, |ms|) == Failure(err.value)
    ensures lib.importTypes == old(lib.importTypes)
  {
    var s := Swapped(resolve, ms[k]);
    assert Overrider(resolve)(ms[k]) == s;
    if s.Failure? {
      OverridesFailurePersists(Overrider(resolve), ImportIndex, grown, ms, k + 1, |ms|);
      return swapped, Some(s.error);
    }
    var idx := ms[k].existing.importIndex;
    if idx.Some? && idx.value < |lib.types| {
      lib.types := lib.types[idx.value := s.value];
    }
    swapped' := swapped + [s.value];
    err := None;
  }

  /**
   * The type part of `mergeModel` for one matching library, in place: on success the
   * library holds the merged type list; the new import types are registered either way,
   * since they are appended before anything is populated.
   */
  method MergeLibraryTypes(resolve: string -> Result<Target>, lib: Library, diffTypes: seq<Type>, overrideTypes: bool)
    returns (r: Result<TypeMerge>)
    modifies lib
    ensures r == MergedTypes(resolve, old(lib.types), lib.path, diffTypes, overrideTypes)
    ensures r.Success? ==> lib.types == r.value.types
    ensures lib.importTypes ==
      old(lib.importTypes) + Filter(Added(old(lib.types), Placed(lib.path, diffTypes), TypePath), IsImportType)
  {
    ghost var types := lib.types;
    var start := |lib.types|;
    var ms := AppendNewTypes(lib, diffTypes);
    ghost var a := Added(types, Placed(lib.path, diffTypes), TypePath);
    assert lib.types[start..] == a && lib.types[..start] == types;
    var pop := PopulateAppended(resolve, lib, start);
    if pop.Failure? {
      return Failure(pop.error);
    }
    if !overrideTypes {
      return Success(TypeMerge(lib.types, pop.value, []));
    }
    var o := ApplyOverrides(resolve, lib, ms);
    if o.Failure? {
      return Failure(o.error);
    }
    r := Success(TypeMerge(lib.types, pop.value, o.value.swapped));
  }
}
