/**
 * The library loop of `mergeModel`: each diff library has its types merged into every
 * library of the model with the same path; one that matches none is appended to the
 * model's library list. The loop is stated over library values (a path and a type list),
 * which is exact as long as no library object occurs twice.
 */
module LibraryMerges {
  import opened Wrappers
  import opened Seqs
  import opened Graph
  import opened Libraries
  import opened Models
  import opened Merge
  import opened TypeMerges

  /** A library as the merge sees it. */
  datatype LibValue = LibValue(path: string, types: seq<Type>)

  function ValuePath(l: LibValue): string { l.path }

  function Value(l: Library): LibValue
    reads l
  {
    LibValue(l.path, l.types)
  }

  function Values(ls: seq<Library>): (r: seq<LibValue>)
    reads set l | l in ls
    ensures |r| == |ls| && forall k :: 0 <= k < |ls| ==> r[k] == Value(ls[k])
  {
    if |ls| == 0 then [] else Values(ls[..|ls| - 1]) + [Value(ls[|ls| - 1])]
  }

  /** The libraries after the inner loop has seen the first `j` of them, and the types reported. */
  datatype OneMerge = OneMerge(libs: seq<LibValue>, reported: seq<Type>)

  /** What merging one diff library's types does to a library of the model. */
  type Merger = LibValue -> Result<TypeMerge>

  /** The merge of `mergeModel`: the diff library's types merged into the library's own. */
  function TypesMerger(resolve: string -> Result<Target>, diffTypes: seq<Type>, overrideTypes: bool): Merger
  {
    (l: LibValue) => MergedTypes(resolve, l.types, l.path, diffTypes, overrideTypes)
  }

  function MergerFor(resolve: string -> Result<Target>, overrideTypes: bool): LibValue -> Merger
  {
    (d: LibValue) => TypesMerger(resolve, d.types, overrideTypes)
  }

  /** `f` is the merge of the diff types `diffTypes`, on every library. */
  ghost predicate Realizes(f: Merger, resolve: string -> Result<Target>, diffTypes: seq<Type>, overrideTypes: bool)
  {
    forall l: LibValue {:trigger MergedTypes(resolve, l.types, l.path, diffTypes, overrideTypes)} ::
      f(l) == MergedTypes(resolve, l.types, l.path, diffTypes, overrideTypes)
  }

  /** `mk` gives, for every diff library, the merge of its types. */
  ghost predicate RealizesAll(mk: LibValue -> Merger, resolve: string -> Result<Target>, overrideTypes: bool)
  {
    forall d: LibValue {:trigger mk(d)} :: Realizes(mk(d), resolve, d.types, overrideTypes)
  }

  lemma MergerForRealizes(resolve: string -> Result<Target>, overrideTypes: bool)
    ensures RealizesAll(MergerFor(resolve, overrideTypes), resolve, overrideTypes)
  {
  }

  /** The inner loop: the diff library with path `p` merged into each of the first `j` libraries with that path. */
  function MergedIntoUpTo(f: Merger, libs: seq<LibValue>, p: string, j: nat): (r: Result<OneMerge>)
    requires j <= |libs|
    ensures r.Success? ==> |r.value.libs| == |libs|
  {
    if j == 0 then Success(OneMerge(libs, []))
    else
      var prev := MergedIntoUpTo(f, libs, p, j - 1);
      var l := libs[j - 1];
      if prev.Failure? || l.path != p then prev
      else
        var t := f(l);
        if t.Failure? then Failure(t.error)
        else Success(OneMerge(prev.value.libs[j - 1 := LibValue(l.path, t.value.types)],
                              prev.value.reported + t.value.Reported()))
  }

  /** The library `l` after the diff library with path `p` is merged into it. */
  function MergedOne(f: Merger, l: LibValue, p: string): Result<LibValue>
  {
    if l.path != p then Success(l)
    else
      var t := f(l);
      if t.Failure? then Failure(t.error) else Success(LibValue(l.path, t.value.types))
  }

  /**
   * The inner loop succeeds exactly when every library with the diff library's path takes
   * its types; each of those then holds its merged types and every other library is as it was.
   */
  lemma {:induction false} MergedIntoFrame(f: Merger, libs: seq<LibValue>, p: string, j: nat)
    requires j <= |libs|
    ensures var r := MergedIntoUpTo(f, libs, p, j);
      (r.Success? <==> forall k :: 0 <= k < j ==> MergedOne(f, libs[k], p).Success?) &&
      (r.Success? ==> forall k :: 0 <= k < |libs| ==>
        r.value.libs[k] == if k < j then MergedOne(f, libs[k], p).value else libs[k])
  {
    if j > 0 {
      MergedIntoFrame(f, libs, p, j - 1);
    }
  }

  lemma {:induction false} MergedIntoFailurePersists(f: Merger, libs: seq<LibValue>, p: string, j: nat, n: nat)
    requires j <= n <= |libs| && MergedIntoUpTo(f, libs, p, j).Failure?
    ensures MergedIntoUpTo(f, libs, p, n) == MergedIntoUpTo(f, libs, p, j)
    decreases n
  {
    if j < n {
      MergedIntoFailurePersists(f, libs, p, j, n - 1);
    }
  }

  /** The library list so far, the types reported and the libraries appended. */
  datatype LibsMerge = LibsMerge(libs: seq<LibValue>, types: seq<Type>, added: seq<LibValue>)

  /** The outer loop over the first `i` diff libraries. */
  function MergedLibrariesUpTo(mk: LibValue -> Merger, libs: seq<LibValue>, diff: seq<LibValue>, i: nat): (r: Result<LibsMerge>)
    requires i <= |diff|
  {
    if i == 0 then Success(LibsMerge(libs, [], []))
    else
      var prev := MergedLibrariesUpTo(mk, libs, diff, i - 1);
      if prev.Failure? then prev
      else
        var d := diff[i - 1];
        var cur := prev.value.libs;
        if HasPath(cur, d.path, ValuePath) then
          var o := MergedIntoUpTo(mk(d), cur, d.path, |cur|);
          if o.Failure? then Failure(o.error)
          else Success(LibsMerge(o.value.libs, prev.value.types + o.value.reported, prev.value.added))
        else Success(LibsMerge(cur + [d], prev.value.types, prev.value.added + [d]))
  }

  /** The library loop of `mergeModel` over library values. */
  function MergedLibraries(resolve: string -> Result<Target>, libs: seq<LibValue>, diff: seq<LibValue>,
    overrideTypes: bool): Result<LibsMerge>
  {
    MergedLibrariesUpTo(MergerFor(resolve, overrideTypes), libs, diff, |diff|)
  }

  lemma {:induction false} MergedLibrariesFailurePersists(mk: LibValue -> Merger, libs: seq<LibValue>,
    diff: seq<LibValue>, i: nat, n: nat)
    requires i <= n <= |diff| && MergedLibrariesUpTo(mk, libs, diff, i).Failure?
    ensures MergedLibrariesUpTo(mk, libs, diff, n) == MergedLibrariesUpTo(mk, libs, diff, i)
    decreases n
  {
    if i < n {
      MergedLibrariesFailurePersists(mk, libs, diff, i, n - 1);
    }
  }

  /** Two lists whose entries have the same paths in the same order. */
  predicate SameLibPaths(xs: seq<LibValue>, ys: seq<LibValue>)
  {
    |xs| == |ys| && forall k :: 0 <= k < |xs| ==> xs[k].path == ys[k].path
  }

  lemma SameLibPathsHave(xs: seq<LibValue>, ys: seq<LibValue>, p: string)
    requires SameLibPaths(xs, ys)
    ensures HasPath(xs, p, ValuePath) <==> HasPath(ys, p, ValuePath)
  {
    if HasPath(xs, p, ValuePath) {
      var k :| 0 <= k < |xs| && ValuePath(xs[k]) == p;
      assert ValuePath(ys[k]) == p;
    }
    if HasPath(ys, p, ValuePath) {
      var k :| 0 <= k < |ys| && ValuePath(ys[k]) == p;
      assert ValuePath(xs[k]) == p;
    }
  }

  /**
   * The libraries appended are exactly the diff libraries whose path was new (the common
   * append-if-new rule), and the list keeps the paths of the old libraries followed by them.
   */
  lemma {:induction false} LibrariesAdded(mk: LibValue -> Merger, libs: seq<LibValue>, diff: seq<LibValue>, i: nat)
    requires i <= |diff|
    ensures var r := MergedLibrariesUpTo(mk, libs, diff, i);
      r.Success? ==>
        r.value.added == AddedUpTo(libs, diff, i, ValuePath) &&
        SameLibPaths(r.value.libs, libs + r.value.added)
  {
    if i > 0 {
      LibrariesAdded(mk, libs, diff, i - 1);
      var prev := MergedLibrariesUpTo(mk, libs, diff, i - 1);
      var r := MergedLibrariesUpTo(mk, libs, diff, i);
      if r.Success? {
        var d := diff[i - 1];
        var cur := prev.value.libs;
        var a := prev.value.added;
        AddedUpToStep(libs, diff, i - 1, ValuePath);
        SameLibPathsHave(cur, libs + a, d.path);
        if HasPath(cur, d.path, ValuePath) {
          MergedIntoFrame(mk(d), cur, d.path, |cur|);
        } else {
          assert libs + (a + [d]) == (libs + a) + [d];
        }
      }
    }
  }

  /** A library whose path no diff library has comes out as it went in. */
  lemma {:induction false} UntouchedLibraries(mk: LibValue -> Merger, libs: seq<LibValue>, diff: seq<LibValue>,
    i: nat, k: nat)
    requires i <= |diff| && k < |libs|
    requires forall j :: 0 <= j < i ==> diff[j].path != libs[k].path
    ensures var r := MergedLibrariesUpTo(mk, libs, diff, i);
      r.Success? ==> k < |r.value.libs| && r.value.libs[k] == libs[k]
  {
    if i > 0 {
      UntouchedLibraries(mk, libs, diff, i - 1, k);
      var prev := MergedLibrariesUpTo(mk, libs, diff, i - 1);
      if prev.Success? {
        var cur := prev.value.libs;
        var d := diff[i - 1];
        if HasPath(cur, d.path, ValuePath) {
          MergedIntoFrame(mk(d), cur, d.path, |cur|);
        } else {
          assert (cur + [d])[k] == cur[k];
        }
      }
    }
  }

  /** A merger that keeps each library's path and only appends to its types. */
  ghost predicate Grows(mk: LibValue -> Merger)
  {
    forall d, l :: mk(d)(l).Success? ==> l.types <= mk(d)(l).value.types
  }

  /** Without `overrideTypes` the merge of `mergeModel` only appends types. */
  lemma TypesMergerGrows(resolve: string -> Result<Target>)
    ensures Grows(MergerFor(resolve, false))
  {
    forall d, l | MergerFor(resolve, false)(d)(l).Success?
      ensures l.types <= MergerFor(resolve, false)(d)(l).value.types
    {
      MergedTypesAppend(resolve, l.types, l.path, d.types);
    }
  }

  /** With a merger that only appends, no library loses or changes a type, and none changes its path. */
  lemma {:induction false} LibrariesOnlyGrow(mk: LibValue -> Merger, libs: seq<LibValue>, diff: seq<LibValue>,
    i: nat, k: nat)
    requires i <= |diff| && k < |libs| && Grows(mk)
    ensures var r := MergedLibrariesUpTo(mk, libs, diff, i);
      r.Success? ==> k < |r.value.libs| && r.value.libs[k].path == libs[k].path && libs[k].types <= r.value.libs[k].types
  {
    if i > 0 {
      LibrariesOnlyGrow(mk, libs, diff, i - 1, k);
      var prev := MergedLibrariesUpTo(mk, libs, diff, i - 1);
      if prev.Success? {
        var cur := prev.value.libs;
        var d := diff[i - 1];
        if HasPath(cur, d.path, ValuePath) {
          MergedIntoFrame(mk(d), cur, d.path, |cur|);
        } else {
          assert (cur + [d])[k] == cur[k];
        }
      }
    }
  }

  /** Without `overrideTypes`, every library of the model keeps its path and its types, and may gain more. */
  lemma MergedLibrariesOnlyGrow(resolve: string -> Result<Target>, libs: seq<LibValue>, diff: seq<LibValue>, k: nat)
    requires k < |libs|
    ensures var r := MergedLibraries(resolve, libs, diff, false);
      r.Success? ==> k < |r.value.libs| && r.value.libs[k].path == libs[k].path && libs[k].types <= r.value.libs[k].types
  {
    TypesMergerGrows(resolve);
    LibrariesOnlyGrow(MergerFor(resolve, false), libs, diff, |diff|, k);
  }

  // ------------------------------------------------------------ the loops, in place

  /** The library objects hold, position by position, the values `cur`. */
  ghost predicate Mirrors(libs: seq<Library>, cur: seq<LibValue>)
    reads set l | l in libs
  {
    |libs| == |cur| && forall k :: 0 <= k < |libs| ==> Value(libs[k]) == cur[k]
  }

  /** One more turn of the inner loop, on values. */
  lemma MergedIntoNext(f: Merger, before: seq<LibValue>, p: string, j: nat, cur: seq<LibValue>, reported: seq<Type>)
    requires j < |before| && MergedIntoUpTo(f, before, p, j) == Success(OneMerge(cur, reported))
    ensures var o := MergedOne(f, before[j], p);
      MergedIntoUpTo(f, before, p, j + 1) ==
        if o.Failure? then Failure(o.error)
        else if before[j].path != p then Success(OneMerge(cur, reported))
        else Success(OneMerge(cur[j := o.value], reported + f(before[j]).value.Reported()))
  {
  }

  /** One turn of the inner loop: library `j` takes the diff library's types when the paths agree. */
  method MergeIntoStep(resolve: string -> Result<Target>, libs: seq<Library>, p: string, diffTypes: seq<Type>,
    overrideTypes: bool, ghost f: Merger, ghost cur: seq<LibValue>, j: nat)
    returns (ghost cur': seq<LibValue>, reported: seq<Type>, err: Option<string>)
    requires Realizes(f, resolve, diffTypes, overrideTypes)
    requires j < |libs| && Distinct(libs) && Mirrors(libs, cur)
    modifies libs[j]
    ensures var o := MergedOne(f, cur[j], p);
      (err.Some? <==> o.Failure?) && (err.Some? ==> err.value == o.error) &&
      (err.None? ==> cur' == cur[j := o.value] && Mirrors(libs, cur')) &&
      (err.None? ==> reported == if cur[j].path == p then f(cur[j]).value.Reported() else []) &&
      (err.None? && cur[j].path != p ==> cur' == cur)
  {
    var l := libs[j];
    if l.path != p {
      return cur, [], None;
    }
    ghost var lv := Value(l);
    var t := MergeLibraryTypes(resolve, l, diffTypes, overrideTypes);
    assert t == MergedTypes(resolve, lv.types, lv.path, diffTypes, overrideTypes);
    if t.Failure? {
      return cur, [], Some(t.error);
    }
    cur' := cur[j := LibValue(l.path, t.value.types)];
    forall k | 0 <= k < |libs|
      ensures Value(libs[k]) == cur'[k]
    {
      if k != j {
        assert libs[k] != libs[j];
      }
    }
    reported := t.value.Reported();
    err := None;
  }

  /**
   * The inner loop of `mergeModel` for one diff library, over the library list as it stands:
   * the libraries end up as the value-level loop says, and the result holds the types reported.
   */
  method MergeIntoMatching(resolve: string -> Result<Target>, libs: seq<Library>, p: string, diffTypes: seq<Type>,
    overrideTypes: bool, ghost f: Merger, ghost before: seq<LibValue>) returns (r: Result<seq<Type>>, ghost after: seq<LibValue>)
    requires Realizes(f, resolve, diffTypes, overrideTypes) && Distinct(libs) && Mirrors(libs, before)
    modifies set l | l in libs
    ensures var o := MergedIntoUpTo(f, before, p, |libs|);
      (o.Failure? ==> r == Failure(o.error)) &&
      (o.Success? ==> r == Success(o.value.reported) && after == o.value.libs && Mirrors(libs, after))
  {
    ghost var cur := before;
    var reported: seq<Type> := [];
    var j := 0;
    while j < |libs|
      invariant 0 <= j <= |libs| && Mirrors(libs, cur)
      invariant forall k :: j <= k < |libs| ==> cur[k] == before[k]
      invariant MergedIntoUpTo(f, before, p, j) == Success(OneMerge(cur, reported))
    {
      MergedIntoNext(f, before, p, j, cur, reported);
      assert cur[j] == before[j];
      ghost var prev := cur;
      var more, err;
      cur, more, err := MergeIntoStep(resolve, libs, p, diffTypes, overrideTypes, f, cur, j);
      if err.Some? {
        MergedIntoFailurePersists(f, before, p, j + 1, |libs|);
        return Failure(err.value), cur;
      }
      assert MergedIntoUpTo(f, before, p, j + 1) == Success(OneMerge(cur, reported + more)) by {
        if before[j].path == p {
          assert cur == prev[j := MergedOne(f, before[j], p).value];
        } else {
          assert cur == prev && more == [];
          assert reported + [] == reported;
        }
      }
      reported := reported + more;
      j := j + 1;
    }
    r, after := Success(reported), cur;
  }

  /** The state of the outer loop after `i` diff libraries. */
  ghost predicate LibrariesMergedUpTo(mk: LibValue -> Merger, m: GeppettoModel, start: seq<Library>,
    before: seq<LibValue>, diffLibs: seq<Library>, diff: seq<LibValue>, i: nat,
    cur: seq<LibValue>, types: seq<Type>, added: seq<LibValue>)
    reads m, set l | l in m.libraries, set l | l in diffLibs
  {
    i <= |diffLibs| == |diff| &&
    Distinct(m.libraries) && start <= m.libraries && Mirrors(m.libraries, cur) &&
    (forall l :: l in m.libraries ==> l in start || l in diffLibs) &&
    (forall k :: i <= k < |diffLibs| ==> diffLibs[k] !in m.libraries && Value(diffLibs[k]) == diff[k]) &&
    MergedLibrariesUpTo(mk, before, diff, i) == Success(LibsMerge(cur, types, added))
  }

  /** One more turn of the outer loop, on values. */
  lemma MergedLibrariesNext(mk: LibValue -> Merger, before: seq<LibValue>, diff: seq<LibValue>, i: nat,
    cur: seq<LibValue>, types: seq<Type>, added: seq<LibValue>)
    requires i < |diff| && MergedLibrariesUpTo(mk, before, diff, i) == Success(LibsMerge(cur, types, added))
    ensures var d := diff[i];
      MergedLibrariesUpTo(mk, before, diff, i + 1) ==
        if HasPath(cur, d.path, ValuePath) then
          var o := MergedIntoUpTo(mk(d), cur, d.path, |cur|);
          if o.Failure? then Failure(o.error) else Success(LibsMerge(o.value.libs, types + o.value.reported, added))
        else Success(LibsMerge(cur + [d], types, added + [d]))
  {
  }

  /** The model's library list has some library with path `p` exactly when its values do. */
  lemma MirrorsHasPath(libs: seq<Library>, cur: seq<LibValue>, p: string)
    requires Mirrors(libs, cur)
    ensures HasPath(libs, p, LibPath) <==> HasPath(cur, p, ValuePath)
  {
    if HasPath(libs, p, LibPath) {
      var k :| 0 <= k < |libs| && LibPath(libs[k]) == p;
      assert ValuePath(cur[k]) == p;
    }
    if HasPath(cur, p, ValuePath) {
      var k :| 0 <= k < |cur| && ValuePath(cur[k]) == p;
      assert Value(libs[k]).path == p;
    }
  }

  /** One turn of the outer loop: merge into the matching libraries, or append the diff library. */
  method MergeLibraryStep(resolve: string -> Result<Target>, ghost mk: LibValue -> Merger, m: GeppettoModel,
    ghost start: seq<Library>, ghost before: seq<LibValue>, diffLibs: seq<Library>, ghost diff: seq<LibValue>,
    overrideTypes: bool, i: nat, ghost cur: seq<LibValue>, types: seq<Type>, added: seq<LibValue>)
    returns (ghost cur': seq<LibValue>, types': seq<Type>, added': seq<LibValue>, err: Option<string>)
    requires RealizesAll(mk, resolve, overrideTypes) && i < |diffLibs| && Distinct(diffLibs)
    requires LibrariesMergedUpTo(mk, m, start, before, diffLibs, diff, i, cur, types, added)
    modifies m, set l | l in m.libraries
    ensures err.None? ==> LibrariesMergedUpTo(mk, m, start, before, diffLibs, diff, i + 1, cur', types', added')
    ensures err.Some? ==> MergedLibrariesUpTo(mk, before, diff, i + 1) == Failure(err.value) && m.libraries == old(m.libraries)
    ensures m.variables == old(m.variables) && m.worlds == old(m.worlds) && m.currentWorldIdx == old(m.currentWorldIdx)
  {
    MergedLibrariesNext(mk, before, diff, i, cur, types, added);
    var d := diffLibs[i];
    var found := Find(m.libraries, d.path, LibPath);
    MirrorsHasPath(m.libraries, cur, d.path);
    if found.Some? {
      assert Realizes(mk(diff[i]), resolve, d.types, overrideTypes);
      var o, after := MergeIntoMatching(resolve, m.libraries, d.path, d.types, overrideTypes, mk(diff[i]), cur);
      if o.Failure? {
        return cur, types, added, Some(o.error);
      }
      forall k | i + 1 <= k < |diffLibs|
        ensures Value(diffLibs[k]) == diff[k]
      {
        assert diffLibs[k] != d;
      }
      cur', types', added', err := after, types + o.value, added, None;
    } else {
      m.libraries := m.libraries + [d];
      forall k | i + 1 <= k < |diffLibs|
        ensures diffLibs[k] !in m.libraries
      {
        assert diffLibs[k] != d;
      }
      cur', types', added', err := cur + [diff[i]], types, added + [Value(d)], None;
    }
  }

  function LibPath(l: Library): string { l.path }

  /**
   * The library loop of `mergeModel`, in place, for library objects holding the values
   * `before` and diff library objects holding `diff`: the result is the value-level loop's,
   * and on success the model's libraries hold its library values, the old library objects
   * first and the appended diff libraries after them.
   */
  method MergeLibraries(resolve: string -> Result<Target>, ghost mk: LibValue -> Merger, m: GeppettoModel,
    diffLibs: seq<Library>, overrideTypes: bool, ghost before: seq<LibValue>, ghost diff: seq<LibValue>)
    returns (r: Result<LibsMerge>)
    requires RealizesAll(mk, resolve, overrideTypes)
    requires Distinct(m.libraries) && Distinct(diffLibs) && Mirrors(m.libraries, before) && Mirrors(diffLibs, diff)
    requires forall k :: 0 <= k < |diffLibs| ==> diffLibs[k] !in m.libraries
    modifies m, set l | l in m.libraries, set l | l in diffLibs
    ensures r == MergedLibrariesUpTo(mk, before, diff, |diffLibs|)
    ensures r.Success? ==> Mirrors(m.libraries, r.value.libs)
    ensures Distinct(m.libraries) && old(m.libraries) <= m.libraries
    ensures forall l :: l in m.libraries ==> l in old(m.libraries) || l in diffLibs
    ensures m.variables == old(m.variables) && m.worlds == old(m.worlds) && m.currentWorldIdx == old(m.currentWorldIdx)
  {
    ghost var start := m.libraries;
    ghost var cur := before;
    var types: seq<Type> := [];
    var added: seq<LibValue> := [];
    var i := 0;
    while i < |diffLibs|
      invariant 0 <= i <= |diffLibs|
      invariant LibrariesMergedUpTo(mk, m, start, before, diffLibs, diff, i, cur, types, added)
      invariant m.variables == old(m.variables) && m.worlds == old(m.worlds) && m.currentWorldIdx == old(m.currentWorldIdx)
    {
      var err;
      cur, types, added, err := MergeLibraryStep(resolve, mk, m, start, before, diffLibs, diff, overrideTypes, i, cur, types, added);
      if err.Some? {
        MergedLibrariesFailurePersists(mk, before, diff, i + 1, |diffLibs|);
        return Failure(err.value);
      }
      i := i + 1;
    }
    assert Values(m.libraries) == cur;
    r := Success(LibsMerge(Values(m.libraries), types, added));
  }
}
