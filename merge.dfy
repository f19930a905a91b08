/**
 * Merging a diff model into the model the client holds (`mergeModel` and its helpers):
 * libraries, types, variables and world instances are appended only when nothing with
 * the same path is there yet; with `overrideTypes` a type that is already there is
 * swapped in at the position of the import type it resolves.
 */
module Merge {
  import opened Wrappers
  import opened Seqs
  import opened Graph
  import opened Worlds
  import opened Libraries
  import opened Models
  import Populate
  import Factory
  import Raw

  // ------------------------------------------------------------ matching by path

  /** Some element of the list has path `p`. */
  predicate HasPath<T>(xs: seq<T>, p: string, pathOf: T -> string)
  {
    exists k :: 0 <= k < |xs| && pathOf(xs[k]) == p
  }

  lemma HasPathConcat<T>(xs: seq<T>, ys: seq<T>, p: string, pathOf: T -> string)
    ensures HasPath(xs + ys, p, pathOf) <==> HasPath(xs, p, pathOf) || HasPath(ys, p, pathOf)
  {
    if HasPath(xs + ys, p, pathOf) {
      var k :| 0 <= k < |xs + ys| && pathOf((xs + ys)[k]) == p;
      if k >= |xs| {
        assert ys[k - |xs|] == (xs + ys)[k];
      }
    }
    if HasPath(ys, p, pathOf) {
      var k :| 0 <= k < |ys| && pathOf(ys[k]) == p;
      assert (xs + ys)[|xs| + k] == ys[k];
    }
    if HasPath(xs, p, pathOf) {
      var k :| 0 <= k < |xs| && pathOf(xs[k]) == p;
      assert (xs + ys)[k] == xs[k];
    }
  }

  /** `list.find(x => x.getPath() === p)`: the first element with that path. */
  function Find<T(==)>(xs: seq<T>, p: string, pathOf: T -> string): (r: Option<T>)
    ensures r.Some? <==> HasPath(xs, p, pathOf)
    ensures r.Some? ==> r.value in xs && pathOf(r.value) == p
  {
    if |xs| == 0 then None
    else if pathOf(xs[0]) == p then Some(xs[0])
    else
      var r := Find(xs[1..], p, pathOf);
      assert r.Some? ==> HasPath(xs, p, pathOf) by {
        if r.Some? {
          var k :| 0 <= k < |xs[1..]| && pathOf(xs[1..][k]) == p;
          assert xs[k + 1] == xs[1..][k];
        }
      }
      assert HasPath(xs, p, pathOf) ==> r.Some? by {
        if HasPath(xs, p, pathOf) {
          var k :| 0 <= k < |xs| && pathOf(xs[k]) == p;
          assert xs[1..][k - 1] == xs[k];
        }
      }
      r
  }

  /** A diff entry that found an entry with its path, and the entry it found. */
  datatype Match<T> = Match(incoming: T, existing: T)

  /** The diff entries that are appended, and those that matched, each in diff order. */
  datatype Split<T> = Split(added: seq<T>, matched: seq<Match<T>>)

  /**
   * The merge loop over the first `i` entries of `diff`: each entry is looked up by path in
   * the list as it stands, which already holds the entries appended before it; a miss
   * appends the entry. These are the entries appended so far.
   */
  function AddedUpTo<T>(current: seq<T>, diff: seq<T>, i: nat, pathOf: T -> string): (r: seq<T>)
    requires i <= |diff|
    ensures |r| <= i
  {
    if i == 0 then []
    else
      var a := AddedUpTo(current, diff, i - 1, pathOf);
      if HasPath(current + a, pathOf(diff[i - 1]), pathOf) then a else a + [diff[i - 1]]
  }

  /** The same loop: the entries that found one with their path, and the entry `find` returned. */
  function MatchedUpTo<T(==)>(current: seq<T>, diff: seq<T>, i: nat, pathOf: T -> string): (r: seq<Match<T>>)
    requires i <= |diff|
    ensures |r| <= i
  {
    if i == 0 then []
    else
      var ms := MatchedUpTo(current, diff, i - 1, pathOf);
      var found := Find(current + AddedUpTo(current, diff, i - 1, pathOf), pathOf(diff[i - 1]), pathOf);
      if found.Some? then ms + [Match(diff[i - 1], found.value)] else ms
  }

  /** The whole merge loop. */
  function SplitByPath<T(==)>(current: seq<T>, diff: seq<T>, pathOf: T -> string): Split<T>
  {
    Split(AddedUpTo(current, diff, |diff|, pathOf), MatchedUpTo(current, diff, |diff|, pathOf))
  }

  /** The entries the merge appends. */
  function Added<T>(current: seq<T>, diff: seq<T>, pathOf: T -> string): seq<T>
  {
    AddedUpTo(current, diff, |diff|, pathOf)
  }

  /** Every diff entry is either appended or matched. */
  lemma {:induction false} SplitSizes<T>(current: seq<T>, diff: seq<T>, i: nat, pathOf: T -> string)
    requires i <= |diff|
    ensures |AddedUpTo(current, diff, i, pathOf)| + |MatchedUpTo(current, diff, i, pathOf)| == i
  {
    if i > 0 {
      SplitSizes(current, diff, i - 1, pathOf);
    }
  }

  /** One turn of the loop: entry `i` is appended exactly when the grown list lacks its path. */
  lemma AddedUpToStep<T>(current: seq<T>, diff: seq<T>, i: nat, pathOf: T -> string)
    requires i < |diff|
    ensures AddedUpTo(current, diff, i + 1, pathOf) ==
      var a := AddedUpTo(current, diff, i, pathOf);
      if HasPath(current + a, pathOf(diff[i]), pathOf) then a else a + [diff[i]]
  {
  }

  /** One turn of the loop: entry `i` is matched exactly when the grown list has its path, to the entry `find` returns. */
  lemma MatchedUpToStep<T>(current: seq<T>, diff: seq<T>, i: nat, pathOf: T -> string)
    requires i < |diff|
    ensures MatchedUpTo(current, diff, i + 1, pathOf) ==
      var ms := MatchedUpTo(current, diff, i, pathOf);
      var found := Find(current + AddedUpTo(current, diff, i, pathOf), pathOf(diff[i]), pathOf);
      if found.Some? then ms + [Match(diff[i], found.value)] else ms
  {
  }

  /** Every appended entry comes from the part of the diff already visited. */
  lemma {:induction false} AddedFromDiff<T>(current: seq<T>, diff: seq<T>, i: nat, pathOf: T -> string)
    requires i <= |diff|
    ensures var a := AddedUpTo(current, diff, i, pathOf);
      forall k :: 0 <= k < |a| ==> exists j :: 0 <= j < i && diff[j] == a[k]
  {
    if i > 0 {
      AddedFromDiff(current, diff, i - 1, pathOf);
      AddedUpToStep(current, diff, i - 1, pathOf);
    }
  }

  /** No appended entry has a path the list held before the merge. */
  lemma {:induction false} AddedAreNew<T>(current: seq<T>, diff: seq<T>, i: nat, pathOf: T -> string)
    requires i <= |diff|
    ensures var a := AddedUpTo(current, diff, i, pathOf);
      forall k :: 0 <= k < |a| ==> !HasPath(current, pathOf(a[k]), pathOf)
  {
    if i > 0 {
      AddedAreNew(current, diff, i - 1, pathOf);
      AddedUpToStep(current, diff, i - 1, pathOf);
      var a := AddedUpTo(current, diff, i - 1, pathOf);
      HasPathConcat(current, a, pathOf(diff[i - 1]), pathOf);
    }
  }

  /** No two appended entries share a path. */
  lemma {:induction false} AddedDistinct<T>(current: seq<T>, diff: seq<T>, i: nat, pathOf: T -> string)
    requires i <= |diff|
    ensures var a := AddedUpTo(current, diff, i, pathOf);
      forall k, l :: 0 <= k < l < |a| ==> pathOf(a[k]) != pathOf(a[l])
  {
    if i > 0 {
      AddedDistinct(current, diff, i - 1, pathOf);
      AddedUpToStep(current, diff, i - 1, pathOf);
      var a := AddedUpTo(current, diff, i - 1, pathOf);
      var d := diff[i - 1];
      if !HasPath(current + a, pathOf(d), pathOf) {
        forall k | 0 <= k < |a|
          ensures pathOf(a[k]) != pathOf(d)
        {
          assert (current + a)[|current| + k] == a[k];
        }
      }
    }
  }

  /** After `i` entries the list holds the path of each of them. */
  /** Appending an entry keeps every path and adds its own. */
  lemma HasPathSnoc<T>(xs: seq<T>, x: T, pathOf: T -> string)
    ensures HasPath(xs + [x], pathOf(x), pathOf)
    ensures forall p :: HasPath(xs, p, pathOf) ==> HasPath(xs + [x], p, pathOf)
  {
    assert (xs + [x])[|xs|] == x;
    forall p | HasPath(xs, p, pathOf)
      ensures HasPath(xs + [x], p, pathOf)
    {
      var k :| 0 <= k < |xs| && pathOf(xs[k]) == p;
      assert (xs + [x])[k] == xs[k];
    }
  }

  lemma {:induction false} AddedCovers<T>(current: seq<T>, diff: seq<T>, i: nat, pathOf: T -> string)
    requires i <= |diff|
    ensures var a := AddedUpTo(current, diff, i, pathOf);
      forall j :: 0 <= j < i ==> HasPath(current + a, pathOf(diff[j]), pathOf)
  {
    if i > 0 {
      AddedCovers(current, diff, i - 1, pathOf);
      AddedUpToStep(current, diff, i - 1, pathOf);
      var a := AddedUpTo(current, diff, i - 1, pathOf);
      var d := diff[i - 1];
      if !HasPath(current + a, pathOf(d), pathOf) {
        assert current + (a + [d]) == (current + a) + [d];
        HasPathSnoc(current + a, d, pathOf);
      }
    }
  }

  /**
   * An independent statement of which entries are appended: those whose path is neither in
   * the list nor carried by an earlier diff entry, in diff order.
   */
  predicate FirstNew<T>(current: seq<T>, diff: seq<T>, k: nat, pathOf: T -> string)
    requires k < |diff|
  {
    !HasPath(current, pathOf(diff[k]), pathOf) && forall j :: 0 <= j < k ==> pathOf(diff[j]) != pathOf(diff[k])
  }

  function Novel<T>(current: seq<T>, diff: seq<T>, i: nat, pathOf: T -> string): seq<T>
    requires i <= |diff|
  {
    if i == 0 then []
    else Novel(current, diff, i - 1, pathOf) + (if FirstNew(current, diff, i - 1, pathOf) then [diff[i - 1]] else [])
  }

  /** After `i` entries, the list holds a path exactly when it held it before or an entry carried it. */
  lemma NovelStep<T>(current: seq<T>, diff: seq<T>, i: nat, pathOf: T -> string)
    requires i < |diff|
    ensures var a := AddedUpTo(current, diff, i, pathOf);
      HasPath(current + a, pathOf(diff[i]), pathOf) <==> !FirstNew(current, diff, i, pathOf)
  {
    var a := AddedUpTo(current, diff, i, pathOf);
    var p := pathOf(diff[i]);
    HasPathConcat(current, a, p, pathOf);
    if HasPath(a, p, pathOf) {
      AddedFromDiff(current, diff, i, pathOf);
      var k :| 0 <= k < |a| && pathOf(a[k]) == p;
      assert a[k] == AddedUpTo(current, diff, i, pathOf)[k];
      var j :| 0 <= j < i && diff[j] == a[k];
      assert pathOf(diff[j]) == p;
    }
    if !FirstNew(current, diff, i, pathOf) && !HasPath(current, p, pathOf) {
      AddedCovers(current, diff, i, pathOf);
      var j :| 0 <= j < i && pathOf(diff[j]) == p;
    }
  }

  /** The merge appends, in diff order, exactly the entries that are new. */
  lemma {:induction false} AddedIsNovelUpTo<T>(current: seq<T>, diff: seq<T>, i: nat, pathOf: T -> string)
    requires i <= |diff|
    ensures AddedUpTo(current, diff, i, pathOf) == Novel(current, diff, i, pathOf)
  {
    if i > 0 {
      AddedIsNovelUpTo(current, diff, i - 1, pathOf);
      NovelStep(current, diff, i - 1, pathOf);
      AddedUpToStep(current, diff, i - 1, pathOf);
      var n := Novel(current, diff, i - 1, pathOf);
      var d := diff[i - 1];
      if FirstNew(current, diff, i - 1, pathOf) {
        assert Novel(current, diff, i, pathOf) == n + [d];
      } else {
        assert Novel(current, diff, i, pathOf) == n + [];
        assert n + [] == n;
      }
    }
  }

  lemma AddedIsNovel<T>(current: seq<T>, diff: seq<T>, pathOf: T -> string)
    ensures Added(current, diff, pathOf) == Novel(current, diff, |diff|, pathOf)
  {
    AddedIsNovelUpTo(current, diff, |diff|, pathOf);
  }

  /** After the merge the list holds every path of the diff, and each appended path only once. */
  lemma MergeCovers<T>(current: seq<T>, diff: seq<T>, pathOf: T -> string)
    ensures var a := Added(current, diff, pathOf);
      (forall k :: 0 <= k < |diff| ==> HasPath(current + a, pathOf(diff[k]), pathOf)) &&
      (forall k :: 0 <= k < |a| ==> !HasPath(current, pathOf(a[k]), pathOf)) &&
      (forall k, l :: 0 <= k < l < |a| ==> pathOf(a[k]) != pathOf(a[l]))
  {
    AddedCovers(current, diff, |diff|, pathOf);
    AddedAreNew(current, diff, |diff|, pathOf);
    AddedDistinct(current, diff, |diff|, pathOf);
  }

  /** A diff whose every path the list already holds appends nothing. */
  lemma {:induction false} KnownPathsAddNothing<T>(current: seq<T>, diff: seq<T>, i: nat, pathOf: T -> string)
    requires i <= |diff|
    requires forall k :: 0 <= k < |diff| ==> HasPath(current, pathOf(diff[k]), pathOf)
    ensures AddedUpTo(current, diff, i, pathOf) == []
  {
    if i > 0 {
      KnownPathsAddNothing(current, diff, i - 1, pathOf);
      AddedUpToStep(current, diff, i - 1, pathOf);
      assert current + [] == current;
    }
  }

  /** Merging the same fragment a second time appends nothing. */
  lemma SecondMergeAddsNothing<T>(current: seq<T>, diff: seq<T>, pathOf: T -> string)
    ensures Added(current + Added(current, diff, pathOf), diff, pathOf) == []
  {
    MergeCovers(current, diff, pathOf);
    KnownPathsAddNothing(current + Added(current, diff, pathOf), diff, |diff|, pathOf);
  }

  /** The matched pairs, in one predicate so that each induction step handles one of them. */
  predicate MatchesHold<T(==)>(all: seq<T>, diff: seq<T>, ms: seq<Match<T>>, pathOf: T -> string)
  {
    forall k :: 0 <= k < |ms| ==>
      ms[k].existing in all && ms[k].incoming in diff && pathOf(ms[k].existing) == pathOf(ms[k].incoming)
  }

  /** A matched diff entry is paired with the entry of the merged list that has its path. */
  lemma {:induction false} MatchedHaveTheirPath<T>(current: seq<T>, diff: seq<T>, i: nat, pathOf: T -> string)
    requires i <= |diff|
    ensures MatchesHold(current + AddedUpTo(current, diff, i, pathOf), diff, MatchedUpTo(current, diff, i, pathOf), pathOf)
  {
    if i > 0 {
      MatchedHaveTheirPath(current, diff, i - 1, pathOf);
      var a := AddedUpTo(current, diff, i - 1, pathOf);
      var a' := AddedUpTo(current, diff, i, pathOf);
      assert diff[i - 1] in diff;
      if a' != a {
        assert current + a' == (current + a) + [diff[i - 1]];
      }
    }
  }

  // ------------------------------------------------------------ variables and instances

  function VarPath(v: Variable): string { v.path }

  function InstPath(i: StaticInstance): string { i.path }

  /** Two lists whose entries have the same paths, position by position. */
  predicate SamePaths(xs: seq<Variable>, ys: seq<Variable>)
  {
    |xs| == |ys| && forall k :: 0 <= k < |xs| ==> xs[k].path == ys[k].path
  }

  lemma SamePathsConcat(c: seq<Variable>, xs: seq<Variable>, ys: seq<Variable>)
    requires SamePaths(xs, ys)
    ensures SamePaths(c + xs, c + ys)
  {
  }

  lemma SamePathsSnoc(xs: seq<Variable>, ys: seq<Variable>, x: Variable, y: Variable)
    requires SamePaths(xs, ys) && x.path == y.path
    ensures SamePaths(xs + [x], ys + [y])
  {
  }

  lemma SamePathsHave(xs: seq<Variable>, ys: seq<Variable>, p: string)
    requires SamePaths(xs, ys)
    ensures HasPath(xs, p, VarPath) <==> HasPath(ys, p, VarPath)
  {
    if HasPath(xs, p, VarPath) {
      var k :| 0 <= k < |xs| && VarPath(xs[k]) == p;
      assert VarPath(ys[k]) == p;
    }
    if HasPath(ys, p, VarPath) {
      var k :| 0 <= k < |ys| && VarPath(ys[k]) == p;
      assert VarPath(xs[k]) == p;
    }
  }

  /** Once populating what was appended throws, later turns of the loop keep that error. */
  lemma {:induction false} CollectFailurePersists<T, U>(f: T -> Result<U>, current: seq<T>, diff: seq<T>,
    i: nat, j: nat, pathOf: T -> string)
    requires i <= j <= |diff|
    requires Populate.Collect(f, AddedUpTo(current, diff, i, pathOf)).Failure?
    ensures Populate.Collect(f, AddedUpTo(current, diff, j, pathOf)) ==
      Populate.Collect(f, AddedUpTo(current, diff, i, pathOf))
    decreases j
  {
    if i < j {
      CollectFailurePersists(f, current, diff, i, j - 1, pathOf);
      AddedUpToStep(current, diff, j - 1, pathOf);
      Populate.CollectSnoc(f, AddedUpTo(current, diff, j - 1, pathOf), diff[j - 1]);
    }
  }

  /**
   * The state of the merge loop after `i` diff variables: the list has grown by `done`, the
   * form `f` gives to what was appended so far, which has the same paths.
   */
  ghost predicate VariablesMergedUpTo(f: Variable -> Result<Variable>, current: seq<Variable>, diff: seq<Variable>,
    i: nat, vars: seq<Variable>, done: seq<Variable>)
  {
    i <= |diff| && vars == current + done &&
    var added := AddedUpTo(current, diff, i, VarPath);
    SamePaths(done, added) && Populate.Collect(f, added) == Success(done)
  }

  /** `f` is `populateTypeReferences` on a variable, applied only where the model names it. */
  ghost predicate Populates(resolve: string -> Result<Target>, f: Variable -> Result<Variable>)
  {
    forall v {:trigger Populate.PopulatedVariable(resolve, v)} :: f(v) == Populate.PopulatedVariable(resolve, v)
  }

  /** The merge step that appends variable `i` and populates it. */
  lemma MergeVariableGrows(f: Variable -> Result<Variable>, current: seq<Variable>, diff: seq<Variable>,
    i: nat, vars: seq<Variable>, done: seq<Variable>, v: Variable)
    requires i < |diff| && VariablesMergedUpTo(f, current, diff, i, vars, done)
    requires !HasPath(current + AddedUpTo(current, diff, i, VarPath), diff[i].path, VarPath)
    requires f(diff[i]) == Success(v) && v.path == diff[i].path
    ensures VariablesMergedUpTo(f, current, diff, i + 1, vars + [v], done + [v])
  {
    var a := AddedUpTo(current, diff, i, VarPath);
    AddedUpToStep(current, diff, i, VarPath);
    assert AddedUpTo(current, diff, i + 1, VarPath) == a + [diff[i]];
    Populate.CollectSnoc(f, a, diff[i]);
    SamePathsSnoc(done, a, v, diff[i]);
    assert (current + done) + [v] == current + (done + [v]);
  }

  /** The turn whose populate throws: the whole loop throws that error. */
  lemma CollectFailsAt<T, U>(f: T -> Result<U>, current: seq<T>, diff: seq<T>, i: nat, pathOf: T -> string, e: string)
    requires i < |diff|
    requires !HasPath(current + AddedUpTo(current, diff, i, pathOf), pathOf(diff[i]), pathOf)
    requires Populate.Collect(f, AddedUpTo(current, diff, i, pathOf)).Success?
    requires f(diff[i]) == Failure(e)
    ensures Populate.Collect(f, Added(current, diff, pathOf)) == Failure(e)
  {
    var a := AddedUpTo(current, diff, i, pathOf);
    AddedUpToStep(current, diff, i, pathOf);
    assert AddedUpTo(current, diff, i + 1, pathOf) == a + [diff[i]];
    Populate.CollectSnoc(f, a, diff[i]);
    assert Populate.Collect(f, AddedUpTo(current, diff, i + 1, pathOf)) == Failure(e);
    CollectFailurePersists(f, current, diff, i + 1, |diff|, pathOf);
  }

  /**
   * One turn of the loop of `mergeVariables`: a diff variable whose path is not yet in the
   * list is pushed and then has its references populated; a throw ends the merge.
   */
  method MergeVariableAt(resolve: string -> Result<Target>, ghost f: Variable -> Result<Variable>,
    current: seq<Variable>, diff: seq<Variable>, i: nat, vars: seq<Variable>, done: seq<Variable>)
    returns (vars': seq<Variable>, done': seq<Variable>, r: Option<string>)
    requires Populates(resolve, f)
    requires i < |diff| && VariablesMergedUpTo(f, current, diff, i, vars, done)
    ensures r.None? ==> VariablesMergedUpTo(f, current, diff, i + 1, vars', done')
    ensures r.Some? ==> Populate.Collect(f, Added(current, diff, VarPath)) == Failure(r.value)
    ensures r.Some? ==> vars' == vars + [diff[i]]
  {
    var d := diff[i];
    ghost var added := AddedUpTo(current, diff, i, VarPath);
    SamePathsConcat(current, done, added);
    SamePathsHave(vars, current + added, d.path);
    var found := Find(vars, d.path, VarPath);
    if found.Some? {
      AddedUpToStep(current, diff, i, VarPath);
      return vars, done, None;
    }
    var p := Populate.PopulateVariable(resolve, d);
    assert f(d) == p;
    if p.Failure? {
      CollectFailsAt(f, current, diff, i, VarPath, p.error);
      return vars + [d], done, Some(p.error);
    }
    Populate.PopulatedVariableKeepsPath(resolve, d);
    MergeVariableGrows(f, current, diff, i, vars, done, p.value);
    vars' := vars + [p.value];
    done' := done + [p.value];
    r := None;
  }

  /** Before the first turn nothing has been merged. */
  lemma VariablesMergeStart(f: Variable -> Result<Variable>, current: seq<Variable>, diff: seq<Variable>)
    ensures VariablesMergedUpTo(f, current, diff, 0, current, [])
  {
    assert current + [] == current;
  }

  /** A list that starts with `current` and has grown still starts with it. */
  lemma PrefixGrows<T>(current: seq<T>, done: seq<T>)
    ensures current <= current + done
  {
    assert (current + done)[..|current|] == current;
  }

  /** What the loop collected is what populating the appended variables gives. */
  lemma VariablesMergeOutcome(resolve: string -> Result<Target>, current: seq<Variable>, diff: seq<Variable>,
    r: Result<seq<Variable>>)
    requires Populate.Collect(Populate.Populator(resolve), Added(current, diff, VarPath)) == r
    ensures Populate.PopulatedVariables(resolve, Added(current, diff, VarPath)) == r
  {
    Populate.CollectPopulates(resolve, Added(current, diff, VarPath));
  }

  /**
   * The loop of `mergeVariables` over the list `current` it appends to: on success the list
   * has grown by exactly the populated new variables, which are also what is reported; a
   * throw leaves the list with the failing variable pushed but not populated.
   */
  method MergeVariableList(resolve: string -> Result<Target>, current: seq<Variable>, diff: seq<Variable>)
    returns (vars: seq<Variable>, r: Result<seq<Variable>>)
    ensures r == Populate.PopulatedVariables(resolve, Added(current, diff, VarPath))
    ensures r.Success? ==> vars == current + r.value
    ensures |current| <= |vars| && vars[..|current|] == current
  {
    var done, failed;
    vars, done, failed := MergeVariableTurns(resolve, Populate.Populator(resolve), current, diff);
    if failed.Some? {
      r := Failure(failed.value);
    } else {
      r := Success(done);
      assert AddedUpTo(current, diff, |diff|, VarPath) == Added(current, diff, VarPath);
    }
    VariablesMergeOutcome(resolve, current, diff, r);
  }

  /** The turns of the loop of `mergeVariables`, each by `MergeVariableAt`. */
  method MergeVariableTurns(resolve: string -> Result<Target>, ghost f: Variable -> Result<Variable>,
    current: seq<Variable>, diff: seq<Variable>)
    returns (vars: seq<Variable>, done: seq<Variable>, failed: Option<string>)
    requires Populates(resolve, f)
    ensures failed.None? ==> VariablesMergedUpTo(f, current, diff, |diff|, vars, done)
    ensures failed.Some? ==> Populate.Collect(f, Added(current, diff, VarPath)) == Failure(failed.value)
    ensures current <= vars
  {
    vars := current;
    done := [];
    VariablesMergeStart(f, current, diff);
    var i := 0;
    while i < |diff|
      invariant VariablesMergedUpTo(f, current, diff, i, vars, done)
    {
      ghost var before := done;
      vars, done, failed := MergeVariableAt(resolve, f, current, diff, i, vars, done);
      if failed.Some? {
        assert vars == current + (before + [diff[i]]);
        PrefixGrows(current, before + [diff[i]]);
        return;
      }
      i := i + 1;
    }
    PrefixGrows(current, done);
    failed := None;
  }

  /** `mergeVariables(diffVars, geppettoModel)`: the legacy variables of the model grow. */
  method MergeModelVariables(resolve: string -> Result<Target>, m: GeppettoModel, diff: seq<Variable>)
    returns (r: Result<seq<Variable>>)
    modifies m
    ensures r == Populate.PopulatedVariables(resolve, Added(old(m.variables), diff, VarPath))
    ensures r.Success? ==> m.variables == old(m.variables) + r.value
    ensures old(m.variables) <= m.variables
    ensures m.libraries == old(m.libraries) && m.worlds == old(m.worlds)
    ensures m.currentWorldIdx == old(m.currentWorldIdx)
    ensures m.datasources == old(m.datasources) && m.queries == old(m.queries) && m.tags == old(m.tags)
  {
    var vars;
    vars, r := MergeVariableList(resolve, m.variables, diff);
    m.variables := vars;
  }

  /** `mergeVariables(diffVars, currentWorld)`: the variables of the world grow. */
  method MergeWorldVariables(resolve: string -> Result<Target>, w: World, diff: seq<Variable>)
    returns (r: Result<seq<Variable>>)
    modifies w
    ensures r == Populate.PopulatedVariables(resolve, Added(old(w.variables), diff, VarPath))
    ensures r.Success? ==> w.variables == old(w.variables) + r.value
    ensures old(w.variables) <= w.variables
    ensures w.instances == old(w.instances)
  {
    var vars;
    vars, r := MergeVariableList(resolve, w.variables, diff);
    w.variables := vars;
  }

  predicate IsLive(d: StaticInstance)
  {
    !d.synched
  }

  /** The diff instances `mergeSimpleInstances` looks at: those not marked `synched`, in order. */
  function Unsynched(diff: seq<StaticInstance>): seq<StaticInstance>
  {
    Filter(diff, IsLive)
  }

  /** The entries appended before one more diff entry depend only on the entries before it. */
  lemma {:induction false} AddedUpToPrefix<T>(current: seq<T>, diff: seq<T>, more: seq<T>, i: nat,
    pathOf: T -> string)
    requires i <= |diff|
    ensures AddedUpTo(current, diff, i, pathOf) == AddedUpTo(current, diff + more, i, pathOf)
  {
    if i > 0 {
      AddedUpToPrefix(current, diff, more, i - 1, pathOf);
      assert (diff + more)[i - 1] == diff[i - 1];
    }
  }

  /** Merging one more diff entry: it is appended exactly when the grown list lacks its path. */
  lemma AddedSnoc<T>(current: seq<T>, diff: seq<T>, d: T, pathOf: T -> string)
    ensures Added(current, diff + [d], pathOf) ==
      var a := Added(current, diff, pathOf);
      if HasPath(current + a, pathOf(d), pathOf) then a else a + [d]
  {
    AddedUpToPrefix(current, diff, [d], |diff|, pathOf);
    assert (diff + [d])[|diff|] == d;
  }

  /** No diff instance marked `synched` is ever appended by the merge. */
  lemma SynchedNeverAdded(current: seq<StaticInstance>, diff: seq<StaticInstance>)
    ensures forall k :: 0 <= k < |Added(current, Unsynched(diff), InstPath)| ==>
      !Added(current, Unsynched(diff), InstPath)[k].synched
  {
    var live := Unsynched(diff);
    AddedFromDiff(current, live, |live|, InstPath);
    assert Added(current, live, InstPath) == AddedUpTo(current, live, |live|, InstPath);
    forall k | 0 <= k < |Added(current, live, InstPath)|
      ensures !Added(current, live, InstPath)[k].synched
    {
      var j :| 0 <= j < |live| && live[j] == Added(current, live, InstPath)[k];
      assert live[j] in live;
    }
  }

  /** When no diff instance is marked `synched`, the merge looks at all of them. */
  lemma UnsynchedAll(diff: seq<StaticInstance>)
    requires forall k :: 0 <= k < |diff| ==> !diff[k].synched
    ensures Unsynched(diff) == diff
  {
    FilterAll(diff, IsLive);
  }

  /** The loop of `mergeSimpleInstances`: a `synched` diff instance is skipped, one with a new path is appended. */
  method MergeInstanceList(current: seq<StaticInstance>, diff: seq<StaticInstance>)
    returns (insts: seq<StaticInstance>, added: seq<StaticInstance>)
    ensures added == Added(current, Unsynched(diff), InstPath)
    ensures insts == current + added
  {
    insts := current;
    added := [];
    var i := 0;
    ghost var live: seq<StaticInstance> := [];
    assert diff[..0] == [];
    while i < |diff|
      invariant 0 <= i <= |diff|
      invariant live == Unsynched(diff[..i])
      invariant added == Added(current, live, InstPath)
      invariant insts == current + added
    {
      var d := diff[i];
      UnsynchedStep(diff, i);
      if !d.synched {
        AddedSnoc(current, live, d, InstPath);
        assert InstPath(d) == d.path;
        var found := Find(insts, d.path, InstPath);
        if found.None? {
          insts := insts + [d];
          added := added + [d];
        }
        live := live + [d];
      }
      i := i + 1;
    }
    assert diff[..|diff|] == diff;
  }

  lemma UnsynchedStep(diff: seq<StaticInstance>, i: nat)
    requires i < |diff|
    ensures Unsynched(diff[..i + 1]) == if diff[i].synched then Unsynched(diff[..i]) else Unsynched(diff[..i]) + [diff[i]]
  {
    FilterPrefixStep(diff, i, IsLive);
    assert Unsynched(diff[..i]) + [] == Unsynched(diff[..i]);
  }

  /**
   * `mergeSimpleInstances(diffInst, currentWorld)`: the new instances are appended (their
   * own populate step has nothing to resolve) and the world then wires its connections.
   */
  method MergeSimpleInstances(w: World, diff: seq<StaticInstance>, refs: map<string, nat>)
    returns (report: seq<StaticInstance>)
    modifies w
    ensures report == Added(old(w.instances), Unsynched(diff), InstPath)
    ensures w.instances == WireFrom(old(w.instances) + report, 0, refs)
    ensures Settled(w.instances, refs)
    ensures w.variables == old(w.variables)
  {
    var insts;
    insts, report := MergeInstanceList(w.instances, diff);
    w.instances := insts;
    w.PopulateInstanceReferences(refs);
  }
}

