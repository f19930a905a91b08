/**
 * The instance tree the client materialises from the model: plain instances, array
 * instances and their element instances, each pointing at the variable it instantiates.
 *
 * The tree is held as an arena: a sequence of nodes where a node names its parent and
 * its children by position. A parent always sits before its children, which is how
 * the builder creates them, and which gives every recursive walk a measure.
 */
module InstanceTree {
  import opened Wrappers
  import opened Meta
  import opened Graph
  import Types

  /** The message thrown when an element instance has more than one visual type. */
  const NOT_IMPLEMENTED: string := "Support for more than one visual type is not implemented."

  /**
   * What `getVisualType()` of an instance returns: nothing, one visual type (its id, and
   * whether it has visual groups), or a list of `count` visual types.
   */
  datatype VisualLook = NoVisual | SingleVisual(id: string, hasGroups: bool) | VisualList(count: nat)

  /**
   * What the capability tagging reads off an instance: its visual type, and the metaType
   * of `getType()`, absent when `getType()` is a list (reading its metaType then throws).
   */
  datatype Look = Look(visual: VisualLook, typeMeta: Option<string>)

  /** The three instance classes; an array instance records the size of its array type. */
  datatype Kind = PlainInst | ArrayInst(size: int) | ElementInst(index: nat)

  datatype Inst = Inst(
    id: string,
    name: string,
    kind: Kind,
    variable: Variable,
    parent: Option<nat>,
    children: seq<nat>,
    capabilities: seq<string>)

  /** `getVisualType()` returns something the tagging treats as drawable. */
  predicate IsVisual(l: VisualLook)
  {
    l.SingleVisual? || (l.VisualList? && l.count > 0)
  }

  /** Parents precede their children, and every child names its parent back. */
  ghost predicate WF(ns: seq<Inst>)
  {
    (forall i :: 0 <= i < |ns| && ns[i].parent.Some? ==> ns[i].parent.value < i) &&
    (forall i, k :: 0 <= i < |ns| && 0 <= k < |ns[i].children| ==>
      i < ns[i].children[k] < |ns| && ns[ns[i].children[k]].parent == Some(i))
  }

  /** Every listed node exists and sits at or after position `lo`. */
  ghost predicate Below(ns: seq<Inst>, xs: seq<nat>, lo: nat)
  {
    forall k :: 0 <= k < |xs| ==> lo <= xs[k] < |ns|
  }

  /** `getRawInstancePath()`: the ids from the top-level ancestor down, joined by dots. */
  function RawPath(ns: seq<Inst>, i: nat): string
    requires WF(ns) && i < |ns|
    decreases i
  {
    match ns[i].parent
    case None => ns[i].id
    case Some(p) => RawPath(ns, p) + "." + ns[i].id
  }

  /** The nodes of a forest in depth-first pre-order: each node, then its subtree, then its next sibling. */
  ghost function PreOrder(ns: seq<Inst>, xs: seq<nat>, lo: nat): seq<nat>
    requires WF(ns) && Below(ns, xs, lo)
    decreases |ns| - lo, |xs|
  {
    if |xs| == 0 then []
    else
      [xs[0]] + PreOrder(ns, ns[xs[0]].children, xs[0] + 1) + PreOrder(ns, xs[1..], lo)
  }

  /** The pre-order of a non-empty list: its first node, that node's subtree, then the rest of the list. */
  lemma PreOrderCons(ns: seq<Inst>, xs: seq<nat>, lo: nat)
    requires WF(ns) && Below(ns, xs, lo) && |xs| > 0
    ensures Below(ns, ns[xs[0]].children, xs[0] + 1) && Below(ns, xs[1..], lo)
    ensures PreOrder(ns, xs, lo) == [xs[0]] + PreOrder(ns, ns[xs[0]].children, xs[0] + 1) + PreOrder(ns, xs[1..], lo)
  {
  }

  /** The pre-order visits only existing nodes. */
  lemma {:induction false} PreOrderBelow(ns: seq<Inst>, xs: seq<nat>, lo: nat)
    requires WF(ns) && Below(ns, xs, lo)
    ensures Below(ns, PreOrder(ns, xs, lo), lo)
    decreases |ns| - lo, |xs|
  {
    if |xs| > 0 {
      PreOrderBelow(ns, ns[xs[0]].children, xs[0] + 1);
      PreOrderBelow(ns, xs[1..], lo);
    }
  }

  /**
   * The position in `order` of the first node with raw path `path`, or `|order|` when
   * there is none; positions that name no node never match.
   */
  function FirstAt(ns: seq<Inst>, order: seq<nat>, path: string): (k: nat)
    requires WF(ns)
    ensures k <= |order|
    ensures k < |order| ==> order[k] < |ns| && RawPath(ns, order[k]) == path
    ensures forall j :: 0 <= j < k && order[j] < |ns| ==> RawPath(ns, order[j]) != path
  {
    if |order| == 0 then 0
    else if order[0] < |ns| && RawPath(ns, order[0]) == path then 0
    else 1 + FirstAt(ns, order[1..], path)
  }

  /** The node at that position, if any. */
  function FirstWith(ns: seq<Inst>, order: seq<nat>, path: string): Option<nat>
    requires WF(ns)
  {
    var k := FirstAt(ns, order, path);
    if k < |order| then Some(order[k]) else None
  }

  /** Searching a concatenation: the first part is searched first. */
  lemma {:induction false} FirstAtConcat(ns: seq<Inst>, a: seq<nat>, b: seq<nat>, path: string)
    requires WF(ns)
    ensures FirstAt(ns, a + b, path) ==
      if FirstAt(ns, a, path) < |a| then FirstAt(ns, a, path) else |a| + FirstAt(ns, b, path)
  {
    if |a| > 0 {
      assert (a + b)[0] == a[0];
      assert (a + b)[1..] == a[1..] + b;
      FirstAtConcat(ns, a[1..], b, path);
    } else {
      assert a + b == b;
    }
  }

  /** One sibling of a search that did not match: its subtree is searched before the later siblings. */
  lemma FindStep(ns: seq<Inst>, xs: seq<nat>, i: nat, lo: nat, path: string)
    requires WF(ns) && Below(ns, xs, lo) && i < |xs|
    requires RawPath(ns, xs[i]) != path
    ensures Below(ns, xs[i..], lo) && Below(ns, xs[i + 1..], lo)
    ensures Below(ns, ns[xs[i]].children, xs[i] + 1)
    ensures FirstWith(ns, PreOrder(ns, xs[i..], lo), path) ==
      var inner := FirstWith(ns, PreOrder(ns, ns[xs[i]].children, xs[i] + 1), path);
      if inner.Some? then inner else FirstWith(ns, PreOrder(ns, xs[i + 1..], lo), path)
  {
    var x := xs[i];
    var ys := xs[i..];
    assert ys[0] == x && ys[1..] == xs[i + 1..];
    var sub := PreOrder(ns, ns[x].children, x + 1);
    var rest := PreOrder(ns, xs[i + 1..], lo);
    assert PreOrder(ns, ys, lo) == [x] + (sub + rest);
    FirstAtConcat(ns, sub, rest, path);
    FirstAtConcat(ns, [x], sub + rest, path);
    assert FirstAt(ns, [x], path) == 1;
  }

  /**
   * `findMatchingInstance(instancePath, instances)`: the first instance in depth-first
   * pre-order whose raw instance path equals the query, or none.
   */
  method FindMatchingInstance(ns: seq<Inst>, path: string, xs: seq<nat>, lo: nat) returns (r: Option<nat>)
    requires WF(ns) && Below(ns, xs, lo)
    ensures r == FirstWith(ns, PreOrder(ns, xs, lo), path)
    decreases |ns| - lo
  {
    var i := 0;
    while i < |xs|
      invariant 0 <= i <= |xs|
      invariant FirstWith(ns, PreOrder(ns, xs, lo), path) == FirstWith(ns, PreOrder(ns, xs[i..], lo), path)
    {
      if RawPath(ns, xs[i]) == path {
        assert xs[i..][0] == xs[i];
        return Some(xs[i]);
      }
      FindStep(ns, xs, i, lo, path);
      var inner := FindMatchingInstance(ns, path, ns[xs[i]].children, xs[i] + 1);
      if inner.Some? {
        return inner;
      }
      i := i + 1;
    }
    assert xs[i..] == [];
    return None;
  }

  /** The found instance is in the pre-order and has the queried raw path; none is found only when no node there has it. */
  lemma FoundMeans(ns: seq<Inst>, xs: seq<nat>, lo: nat, path: string)
    requires WF(ns) && Below(ns, xs, lo)
    ensures var r := FirstWith(ns, PreOrder(ns, xs, lo), path);
      (r.Some? ==> r.value in PreOrder(ns, xs, lo) && r.value < |ns| && RawPath(ns, r.value) == path) &&
      (r.None? <==> forall x :: x in PreOrder(ns, xs, lo) && x < |ns| ==> RawPath(ns, x) != path)
  {
    PreOrderBelow(ns, xs, lo);
    var order := PreOrder(ns, xs, lo);
    var k := FirstAt(ns, order, path);
    if k == |order| {
      forall x | x in order && x < |ns| ensures RawPath(ns, x) != path {
        var j :| 0 <= j < |order| && order[j] == x;
      }
    }
  }

  /**
   * `getInstanceCount(instances)`: the instances of the list plus, recursively, their
   * children's counts; that is the number of nodes of the forest.
   */
  method GetInstanceCount(ns: seq<Inst>, xs: seq<nat>, lo: nat) returns (count: nat)
    requires WF(ns) && Below(ns, xs, lo)
    ensures count == |PreOrder(ns, xs, lo)|
    decreases |ns| - lo
  {
    count := |xs|;
    var i := 0;
    while i < |xs|
      invariant 0 <= i <= |xs|
      invariant Below(ns, xs[i..], lo)
      invariant count + |PreOrder(ns, xs[i..], lo)| == |xs| - i + |PreOrder(ns, xs, lo)|
    {
      var x := xs[i];
      assert xs[i..][0] == x && xs[i..][1..] == xs[i + 1..];
      var c := GetInstanceCount(ns, ns[x].children, x + 1);
      count := count + c;
      i := i + 1;
    }
    assert xs[i..] == [];
  }

  /** Two trees that differ at most in the capabilities of their nodes. */
  ghost predicate SameShape(a: seq<Inst>, b: seq<Inst>)
  {
    |a| == |b| &&
    forall j :: 0 <= j < |a| ==> b[j] == a[j].(capabilities := b[j].capabilities)
  }

  /** Capabilities only grow: every node keeps the ones it had, in order. */
  ghost predicate CapsGrow(a: seq<Inst>, b: seq<Inst>)
    requires |a| <= |b|
  {
    forall j :: 0 <= j < |a| ==> a[j].capabilities <= b[j].capabilities
  }

  lemma SameShapeWF(a: seq<Inst>, b: seq<Inst>)
    requires WF(a) && SameShape(a, b)
    ensures WF(b)
  {
    forall i | 0 <= i < |b| && b[i].parent.Some? ensures b[i].parent.value < i {
      assert b[i].parent == a[i].parent;
    }
    forall i, k | 0 <= i < |b| && 0 <= k < |b[i].children|
      ensures i < b[i].children[k] < |b| && b[b[i].children[k]].parent == Some(i)
    {
      assert b[i].children == a[i].children;
      var c := a[i].children[k];
      assert b[c].parent == a[c].parent;
    }
  }

  lemma {:induction false} SameShapeRawPath(a: seq<Inst>, b: seq<Inst>, i: nat)
    requires WF(a) && SameShape(a, b) && i < |a|
    ensures WF(b) && RawPath(a, i) == RawPath(b, i)
    decreases i
  {
    SameShapeWF(a, b);
    assert b[i].parent == a[i].parent && b[i].id == a[i].id;
    if a[i].parent.Some? {
      SameShapeRawPath(a, b, a[i].parent.value);
    }
  }

  /** Adding a capability to one node keeps the shape and grows only that node's list. */
  function AddCapability(ns: seq<Inst>, q: nat, cap: string): (r: seq<Inst>)
    requires q < |ns|
    ensures SameShape(ns, r) && CapsGrow(ns, r)
    ensures r[q].capabilities == ns[q].capabilities + [cap]
    ensures forall j :: 0 <= j < |ns| && j != q ==> r[j] == ns[j]
  {
    ns[q := ns[q].(capabilities := ns[q].capabilities + [cap])]
  }

  /**
   * `propagateCapabilityToParents(capability, instance)` from the parent `p` upward: every
   * ancestor lacking the capability gets it, up to the first one that already has it.
   */
  ghost function Propagated(ns: seq<Inst>, p: Option<nat>, cap: string): (r: seq<Inst>)
    requires WF(ns) && (p.Some? ==> p.value < |ns|)
    ensures SameShape(ns, r) && CapsGrow(ns, r)
    ensures p.Some? ==> cap in r[p.value].capabilities
    decreases if p.Some? then p.value + 1 else 0
  {
    match p
    case None => ns
    case Some(q) =>
      if cap in ns[q].capabilities then ns
      else
        var ns' := AddCapability(ns, q, cap);
        SameShapeWF(ns, ns');
        var r := Propagated(ns', ns[q].parent, cap);
        assert ns'[q].capabilities <= r[q].capabilities;
        assert r[q].capabilities[|ns[q].capabilities|] == cap;
        r
  }

  /** A capability every holder's parent also holds. */
  ghost predicate UpClosed(ns: seq<Inst>, cap: string)
    requires WF(ns)
  {
    forall j :: 0 <= j < |ns| && ns[j].parent.Some? && cap in ns[j].capabilities ==>
      cap in ns[ns[j].parent.value].capabilities
  }

  /** The same, except possibly at node `i`, whose parent may still lack it. */
  ghost predicate UpClosedBut(ns: seq<Inst>, cap: string, i: nat)
    requires WF(ns)
  {
    forall j :: 0 <= j < |ns| && j != i && ns[j].parent.Some? && cap in ns[j].capabilities ==>
      cap in ns[ns[j].parent.value].capabilities
  }

  /**
   * Propagation repairs the one place a capability was just added: if every holder but
   * `i` had a holding parent, then after propagating from `i`'s parent every holder has.
   */
  lemma {:induction false} PropagationCloses(ns: seq<Inst>, i: nat, cap: string)
    requires WF(ns) && i < |ns|
    requires UpClosedBut(ns, cap, i)
    ensures WF(Propagated(ns, ns[i].parent, cap))
    ensures UpClosed(Propagated(ns, ns[i].parent, cap), cap)
    decreases i
  {
    var r := Propagated(ns, ns[i].parent, cap);
    SameShapeWF(ns, r);
    match ns[i].parent
    case None =>
    case Some(q) =>
      if cap !in ns[q].capabilities {
        var ns' := AddCapability(ns, q, cap);
        SameShapeWF(ns, ns');
        assert UpClosedBut(ns', cap, q) by {
          forall j | 0 <= j < |ns'| && j != q && ns'[j].parent.Some? && cap in ns'[j].capabilities
            ensures cap in ns'[ns'[j].parent.value].capabilities
          {
            assert ns'[j] == ns[j];
            var pj := ns[j].parent.value;
            if j != i && pj != q {
              assert ns'[pj] == ns[pj];
            }
          }
        }
        PropagationCloses(ns', q, cap);
      }
  }

  /** The tagging of a new instance: the capabilities it gets, whether the visual one is propagated, and what is thrown. */
  datatype Tagging = Tagging(caps: seq<string>, propagates: bool, err: Option<string>)

  /** The capability the metaType of `getType()` brings, if any. */
  function MetaCapability(m: string): (r: seq<string>)
    ensures |r| <= 1
    ensures (m == CONNECTION_TYPE <==> r == [CONNECTION_CAPABILITY])
    ensures (m == STATE_VARIABLE_TYPE <==> r == [STATE_VARIABLE_CAPABILITY])
    ensures (m == DERIVED_STATE_VARIABLE_TYPE <==> r == [DERIVED_STATE_VARIABLE_CAPABILITY])
    ensures (m == PARAMETER_TYPE <==> r == [PARAMETER_CAPABILITY])
  {
    assert |CONNECTION_CAPABILITY| != |STATE_VARIABLE_CAPABILITY| && |STATE_VARIABLE_CAPABILITY| != |DERIVED_STATE_VARIABLE_CAPABILITY|;
    assert |PARAMETER_CAPABILITY| != |CONNECTION_CAPABILITY| && |PARAMETER_CAPABILITY| != |STATE_VARIABLE_CAPABILITY|;
    assert |DERIVED_STATE_VARIABLE_CAPABILITY| != |CONNECTION_CAPABILITY| && |PARAMETER_CAPABILITY| != |DERIVED_STATE_VARIABLE_CAPABILITY|;
    if m == CONNECTION_TYPE then [CONNECTION_CAPABILITY]
    else if m == STATE_VARIABLE_TYPE then [STATE_VARIABLE_CAPABILITY]
    else if m == DERIVED_STATE_VARIABLE_TYPE then [DERIVED_STATE_VARIABLE_CAPABILITY]
    else if m == PARAMETER_TYPE then [PARAMETER_CAPABILITY]
    else []
  }

  /** The metaType checks that close every tagging; a list-valued `getType()` throws at the first. */
  function MetaTagging(caps: seq<string>, propagates: bool, typeMeta: Option<string>): Tagging
  {
    match typeMeta
    case None => Tagging(caps, propagates, Some(Graph.TYPE_ERROR))
    case Some(m) => Tagging(caps + MetaCapability(m), propagates, None)
  }

  /**
   * The tagging of a plain instance, with the visual capability propagated through
   * `ModelUtils.propagateCapabilityToParents`. A list of visual types throws at
   * `visualType.getId()`, before anything is propagated.
   */
  function PlainTagging(l: Look): (r: Tagging)
    ensures r.err.None? <==> !(l.visual.VisualList? && l.visual.count > 0) && l.typeMeta.Some?
    ensures r.propagates <==> l.visual.SingleVisual?
    ensures VISUAL_CAPABILITY in r.caps <==> IsVisual(l.visual)
    ensures PARTICLES_CAPABILITY in r.caps <==> l.visual.SingleVisual? && l.visual.id == PARTICLES_TYPE
    ensures VISUAL_GROUP_CAPABILITY in r.caps <==> l.visual.SingleVisual? && l.visual.hasGroups
    ensures r.err.None? ==> (CONNECTION_CAPABILITY in r.caps <==> l.typeMeta == Some(CONNECTION_TYPE))
    ensures r.err.None? ==> (PARAMETER_CAPABILITY in r.caps <==> l.typeMeta == Some(PARAMETER_TYPE))
  {
    assert PARAMETER_CAPABILITY[3] != PARTICLES_CAPABILITY[3];
    match l.visual
    case VisualList(n) =>
      if n > 0 then Tagging([VISUAL_CAPABILITY], false, Some(Graph.TYPE_ERROR))
      else MetaTagging([], false, l.typeMeta)
    case NoVisual => MetaTagging([], false, l.typeMeta)
    case SingleVisual(id, groups) =>
      var particles := if id == PARTICLES_TYPE then [PARTICLES_CAPABILITY] else [];
      var grouped := if groups then [VISUAL_GROUP_CAPABILITY] else [];
      MetaTagging([VISUAL_CAPABILITY] + particles + grouped, true, l.typeMeta)
  }

  /**
   * The plain-instance tagging as the builder writes it: the propagation is called as
   * `this.propagateCapabilityToParents`, a method neither the factory nor the instance
   * list defines, so every instance with a single visual type throws a TypeError there,
   * after receiving the visual (and particles) capability and before being attached.
   */
  function PlainTaggingAsWritten(l: Look): Tagging
  {
    match l.visual
    case SingleVisual(id, groups) =>
      var particles := if id == PARTICLES_TYPE then [PARTICLES_CAPABILITY] else [];
      Tagging([VISUAL_CAPABILITY] + particles, false, Some(Graph.TYPE_ERROR))
    case _ => PlainTagging(l)
  }

  /** As written, no instance with a visual type is ever tagged without a throw; the intended tagging throws only for a list-valued type. */
  lemma VisualPlainInstanceThrows(id: string, groups: bool, m: string)
    ensures PlainTaggingAsWritten(Look(SingleVisual(id, groups), Some(m))).err == Some(Graph.TYPE_ERROR)
    ensures PlainTagging(Look(SingleVisual(id, groups), Some(m))).err == None
    ensures PlainTagging(Look(SingleVisual(id, groups), Some(m))).propagates
  {
  }

  /**
   * The tagging of an array element: visual types are propagated, a list of more than
   * one throws after the propagation, and only a single visual type can bring groups.
   * Particles are not recognised here.
   */
  function ElementTagging(l: Look): (r: Tagging)
    ensures r.propagates <==> IsVisual(l.visual)
    ensures VISUAL_CAPABILITY in r.caps <==> IsVisual(l.visual)
    ensures PARTICLES_CAPABILITY !in r.caps
    ensures r.err == Some(NOT_IMPLEMENTED) <==> l.visual.VisualList? && l.visual.count > 1
    ensures r.err.None? <==> !(l.visual.VisualList? && l.visual.count > 1) && l.typeMeta.Some?
    ensures r.err.None? ==> (CONNECTION_CAPABILITY in r.caps <==> l.typeMeta == Some(CONNECTION_TYPE))
  {
    assert PARAMETER_CAPABILITY[3] != PARTICLES_CAPABILITY[3];
    assert |NOT_IMPLEMENTED| != |Graph.TYPE_ERROR|;
    match l.visual
    case VisualList(n) =>
      if n > 1 then Tagging([VISUAL_CAPABILITY], true, Some(NOT_IMPLEMENTED))
      else if n == 1 then MetaTagging([VISUAL_CAPABILITY], true, l.typeMeta)
      else MetaTagging([], false, l.typeMeta)
    case NoVisual => MetaTagging([], false, l.typeMeta)
    case SingleVisual(_, groups) =>
      MetaTagging([VISUAL_CAPABILITY] + (if groups then [VISUAL_GROUP_CAPABILITY] else []), true, l.typeMeta)
  }
}
