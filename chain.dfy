/**
 * `buildPointerElementsChain`: the chain of pointer elements that leads from the root of
 * a branch of the instance tree down to the instance a connection points at. The walk
 * follows the dotted path segment by segment, prunes every branch whose id differs from
 * the segment, and pushes one element per matched node into an accumulator.
 */
module PointerChains {
  import opened Wrappers
  import opened Strings
  import opened Nodes
  import opened InstanceTree

  /**
   * A pushed element: the original element of the pointer (when its variable has the
   * segment's id), or a new element made from the matched instance's variable and type.
   */
  datatype PointerElement = Original | Made(node: nat)

  /** The element pushed for a matched node. */
  function ElementFor(ns: seq<Inst>, x: nat, originalId: string): PointerElement
    requires x < |ns|
  {
    if originalId == ns[x].id then Original else Made(x)
  }

  /** The elements the walk pushes from node `x` on the remaining segments `ids`. */
  function Chain(ns: seq<Inst>, ids: seq<string>, x: nat, originalId: string): seq<PointerElement>
    requires WF(ns) && x < |ns| && |ids| > 0
    decreases |ids|, 0
  {
    if ns[x].id != ids[0] then []
    else
      [ElementFor(ns, x, originalId)] +
      (if Join(ids[1..], '.') == "" then [] else ChainAll(ns, ids[1..], ns[x].children, originalId))
  }

  /** The walk over the children `xs`, in order. */
  function ChainAll(ns: seq<Inst>, ids: seq<string>, xs: seq<nat>, originalId: string): seq<PointerElement>
    requires WF(ns) && |ids| > 0 && forall k :: 0 <= k < |xs| ==> xs[k] < |ns|
    decreases |ids|, 1, |xs|
  {
    if |xs| == 0 then []
    else ChainAll(ns, ids, xs[..|xs| - 1], originalId) + Chain(ns, ids, xs[|xs| - 1], originalId)
  }

  /** The loop that rebuilds the path without its first segment. */
  method DropFirstSegment(ids: seq<string>) returns (newPath: string)
    requires |ids| >= 1
    ensures newPath == Join(ids[1..], '.')
  {
    newPath := "";
    var n := |ids|;
    for i := 0 to n
      invariant i < n ==> newPath == if i <= 1 then "" else Join(ids[1..i], '.') + "."
      invariant i == n ==> newPath == Join(ids[1..], '.')
    {
      if i != 0 {
        if i < n - 1 {
          if i > 1 {
            JoinSnoc(ids[1..i], ids[i], '.');
          }
          assert ids[1..i + 1] == ids[1..i] + [ids[i]];
          newPath := newPath + ids[i] + ".";
        } else {
          if i > 1 {
            JoinSnoc(ids[1..i], ids[i], '.');
          }
          assert ids[1..] == ids[1..i] + [ids[i]];
          newPath := newPath + ids[i];
        }
      }
    }
  }

  /** `buildPointerElementsChain(path, instance, pointerElements, originalElement)`. */
  method BuildPointerElementsChain(ns: seq<Inst>, path: string, x: nat, originalId: string, acc: seq<PointerElement>)
    returns (r: seq<PointerElement>)
    requires WF(ns) && x < |ns|
    ensures r == acc + Chain(ns, Split(path, '.'), x, originalId)
    decreases |Split(path, '.')|, 0
  {
    var ids := Split(path, '.');
    r := acc;
    if ns[x].id == ids[0] {
      if originalId == ids[0] {
        r := r + [Original];
      } else {
        r := r + [Made(x)];
      }
      var newPath := DropFirstSegment(ids);
      if newPath != "" {
        SplitPartsFree(path, '.');
        SplitJoin(ids[1..], '.');
        r := BuildUnderChildren(ns, newPath, ns[x].children, originalId, r);
      }
    }
  }

  /** The loop of `buildPointerElementsChain` that recurses into every child on the remaining path. */
  method BuildUnderChildren(ns: seq<Inst>, path: string, children: seq<nat>, originalId: string, acc: seq<PointerElement>)
    returns (r: seq<PointerElement>)
    requires WF(ns) && forall k :: 0 <= k < |children| ==> children[k] < |ns|
    ensures r == acc + ChainAll(ns, Split(path, '.'), children, originalId)
    decreases |Split(path, '.')|, 1
  {
    r := acc;
    var i := 0;
    while i < |children|
      invariant i <= |children|
      invariant r == acc + ChainAll(ns, Split(path, '.'), children[..i], originalId)
    {
      assert children[..i + 1][..i] == children[..i];
      r := BuildPointerElementsChain(ns, path, children[i], originalId, r);
      i := i + 1;
    }
    assert children[..i] == children;
  }

  // ------------------------------------------------ the chain down a branch

  /** Children listed with pairwise different ids. */
  ghost predicate DistinctIds(ns: seq<Inst>, xs: seq<nat>)
  {
    forall k1, k2 :: 0 <= k1 < k2 < |xs| && xs[k2] < |ns| ==> xs[k1] < |ns| ==> ns[xs[k1]].id != ns[xs[k2]].id
  }

  /** `ps` goes down the tree: each node after the first is a child of the one before. */
  ghost predicate Descends(ns: seq<Inst>, ps: seq<nat>)
  {
    |ps| >= 1 &&
    (forall j :: 0 <= j < |ps| ==> ps[j] < |ns|) &&
    (forall j :: 0 <= j < |ps| - 1 ==> ps[j + 1] in ns[ps[j]].children)
  }

  /** Along `ps` no id is empty, and the children of every node but the last have distinct ids. */
  ghost predicate Addressable(ns: seq<Inst>, ps: seq<nat>)
    requires Descends(ns, ps)
  {
    (forall j :: 0 <= j < |ps| ==> ns[ps[j]].id != "") &&
    (forall j :: 0 <= j < |ps| - 1 ==> DistinctIds(ns, ns[ps[j]].children))
  }

  function IdsOf(ns: seq<Inst>, ps: seq<nat>): (ids: seq<string>)
    requires forall j :: 0 <= j < |ps| ==> ps[j] < |ns|
    ensures |ids| == |ps| && forall j :: 0 <= j < |ps| ==> ids[j] == ns[ps[j]].id
  {
    if |ps| == 0 then [] else [ns[ps[0]].id] + IdsOf(ns, ps[1..])
  }

  /** One element per node of `ps`, in order. */
  function ElementsAlong(ns: seq<Inst>, ps: seq<nat>, originalId: string): (r: seq<PointerElement>)
    requires forall j :: 0 <= j < |ps| ==> ps[j] < |ns|
    ensures |r| == |ps| && forall j :: 0 <= j < |ps| ==> r[j] == ElementFor(ns, ps[j], originalId)
  {
    if |ps| == 0 then [] else [ElementFor(ns, ps[0], originalId)] + ElementsAlong(ns, ps[1..], originalId)
  }

  /** Dead branches: children whose ids all differ from the segment push nothing. */
  lemma {:induction false} ChainAllPruned(ns: seq<Inst>, ids: seq<string>, xs: seq<nat>, originalId: string)
    requires WF(ns) && |ids| > 0 && forall k :: 0 <= k < |xs| ==> xs[k] < |ns|
    requires forall k :: 0 <= k < |xs| ==> ns[xs[k]].id != ids[0]
    ensures ChainAll(ns, ids, xs, originalId) == []
    decreases |xs|
  {
    if |xs| > 0 {
      ChainAllPruned(ns, ids, xs[..|xs| - 1], originalId);
    }
  }

  /** With distinct ids among the children, the walk over them is the walk from the one that matches. */
  lemma {:induction false} ChainAllUnique(ns: seq<Inst>, ids: seq<string>, xs: seq<nat>, k: nat, originalId: string)
    requires WF(ns) && |ids| > 0 && forall i :: 0 <= i < |xs| ==> xs[i] < |ns|
    requires DistinctIds(ns, xs) && k < |xs| && ns[xs[k]].id == ids[0]
    ensures ChainAll(ns, ids, xs, originalId) == Chain(ns, ids, xs[k], originalId)
    decreases |xs|
  {
    var init := xs[..|xs| - 1];
    var last := xs[|xs| - 1];
    if k == |xs| - 1 {
      ChainAllPruned(ns, ids, init, originalId);
      assert ChainAll(ns, ids, xs, originalId) == [] + Chain(ns, ids, last, originalId);
    } else {
      assert DistinctIds(ns, init);
      ChainAllUnique(ns, ids, init, k, originalId);
      assert ns[last].id != ids[0];
      assert ChainAll(ns, ids, xs, originalId) == Chain(ns, ids, xs[k], originalId) + [];
    }
  }

  /** A path of non-empty segments joins to a non-empty string. */
  lemma JoinNonEmpty(parts: seq<string>, c: char)
    requires |parts| >= 1 && parts[0] != ""
    ensures Join(parts, c) != ""
  {
    if |parts| > 1 {
      assert |Join(parts, c)| >= |parts[0]|;
    }
  }

  lemma DescendsTail(ns: seq<Inst>, ps: seq<nat>)
    requires Descends(ns, ps) && Addressable(ns, ps) && |ps| > 1
    ensures Descends(ns, ps[1..]) && Addressable(ns, ps[1..])
  {
    var rest := ps[1..];
    assert forall j :: 0 <= j < |rest| ==> rest[j] == ps[j + 1];
    forall j | 0 <= j < |rest| - 1 ensures rest[j + 1] in ns[rest[j]].children {
      assert rest[j + 1] == ps[j + 2];
    }
  }

  /**
   * Walking the ids of a downward path from its first node yields exactly one element per
   * node of the path, in order: the chain down to the last node.
   */
  lemma {:induction false} ChainFollowsPath(ns: seq<Inst>, ps: seq<nat>, originalId: string)
    requires WF(ns) && Descends(ns, ps) && Addressable(ns, ps)
    ensures Chain(ns, IdsOf(ns, ps), ps[0], originalId) == ElementsAlong(ns, ps, originalId)
    decreases |ps|
  {
    var ids := IdsOf(ns, ps);
    if |ps| == 1 {
      assert ids[1..] == [];
      assert Chain(ns, ids, ps[0], originalId) == [ElementFor(ns, ps[0], originalId)] + [];
    } else {
      var rest := ps[1..];
      assert ids[1..] == IdsOf(ns, rest);
      JoinNonEmpty(ids[1..], '.');
      var children := ns[ps[0]].children;
      var k :| 0 <= k < |children| && children[k] == ps[1];
      ChainAllUnique(ns, ids[1..], children, k, originalId);
      DescendsTail(ns, ps);
      ChainFollowsPath(ns, rest, originalId);
      assert ElementsAlong(ns, ps, originalId) == [ElementFor(ns, ps[0], originalId)] + ElementsAlong(ns, rest, originalId);
    }
  }

  /** The raw instance path of the last node of a downward path from a top-level node joins the ids along it. */
  lemma {:induction false} RawPathAlong(ns: seq<Inst>, ps: seq<nat>)
    requires WF(ns) && Descends(ns, ps) && ns[ps[0]].parent.None?
    ensures RawPath(ns, ps[|ps| - 1]) == Join(IdsOf(ns, ps), '.')
    decreases |ps|
  {
    if |ps| > 1 {
      var init := ps[..|ps| - 1];
      var p, t := ps[|ps| - 2], ps[|ps| - 1];
      var k :| 0 <= k < |ns[p].children| && ns[p].children[k] == t;
      assert ns[t].parent == Some(p);
      assert Descends(ns, init) by {
        assert forall j :: 0 <= j < |init| ==> init[j] == ps[j];
      }
      RawPathAlong(ns, init);
      assert IdsOf(ns, ps) == IdsOf(ns, init) + [ns[t].id];
      JoinSnoc(IdsOf(ns, init), ns[t].id, '.');
    } else {
      assert Join(IdsOf(ns, ps), '.') == ns[ps[0]].id;
    }
  }

  /**
   * `augmentPointer`: the chain built from the raw instance path of the matching instance,
   * starting at its top-level ancestor, holds one element per instance on the way down, in
   * order, the original element standing for the instances that have its variable's id.
   */
  lemma AugmentedChain(ns: seq<Inst>, ps: seq<nat>, originalId: string)
    requires WF(ns) && Descends(ns, ps) && Addressable(ns, ps) && ns[ps[0]].parent.None?
    requires forall j :: 0 <= j < |ps| ==> '.' !in ns[ps[j]].id
    ensures Chain(ns, Split(RawPath(ns, ps[|ps| - 1]), '.'), ps[0], originalId) == ElementsAlong(ns, ps, originalId)
  {
    RawPathAlong(ns, ps);
    SplitJoin(IdsOf(ns, ps), '.');
    ChainFollowsPath(ns, ps, originalId);
  }
}
