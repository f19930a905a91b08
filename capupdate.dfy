/**
 * `ModelFactory.updateInstancesCapabilities(instances)`: the capability pass over
 * instances that already exist. It walks the given instances and, recursively, their
 * children, and on each one adds whatever capability its types call for and it still
 * lacks: the visual capability (propagated to the ancestors) for a visual type, the
 * visual-group capability with it, and the capability of the metaType of `getType()`.
 *
 * Instances live in the arena of module InstanceTree; a pass changes capabilities only.
 */
module InstanceCapabilities {
  import opened Wrappers
  import opened Meta
  import opened Graph
  import opened InstanceTree
  import Types

  /** The instances after (part of) a pass, and what was thrown. */
  datatype Update = Update(ns: seq<Inst>, err: Option<string>)

  lemma ShapeTrans(a: seq<Inst>, b: seq<Inst>, c: seq<Inst>)
    requires SameShape(a, b) && CapsGrow(a, b) && SameShape(b, c) && CapsGrow(b, c)
    ensures SameShape(a, c) && CapsGrow(a, c)
  {
    forall j | 0 <= j < |a| ensures c[j] == a[j].(capabilities := c[j].capabilities) {
      assert b[j] == a[j].(capabilities := b[j].capabilities);
    }
  }

  /**
   * The visual block of one instance: only when it has a visual type and lacks the
   * capability, the capability is added and propagated; then a list of more than one
   * visual type throws, and a single visual type with visual groups adds the group
   * capability.
   */
  ghost function VisualUpdated(ns: seq<Inst>, j: nat, l: Look): (r: Update)
    requires WF(ns) && j < |ns|
    ensures SameShape(ns, r.ns) && CapsGrow(ns, r.ns)
  {
    if IsVisual(l.visual) && VISUAL_CAPABILITY !in ns[j].capabilities then
      var a := AddCapability(ns, j, VISUAL_CAPABILITY);
      SameShapeWF(ns, a);
      var p := Propagated(a, a[j].parent, VISUAL_CAPABILITY);
      ShapeTrans(ns, a, p);
      if l.visual.VisualList? && l.visual.count > 1 then Update(p, Some(NOT_IMPLEMENTED))
      else if l.visual.SingleVisual? && l.visual.hasGroups then
        var g := AddCapability(p, j, VISUAL_GROUP_CAPABILITY);
        ShapeTrans(ns, p, g);
        Update(g, None)
      else Update(p, None)
    else Update(ns, None)
  }

  /**
   * The metaType checks of one instance: a list-valued `getType()` has no metaType and
   * throws; otherwise the capability of its metaType, if any, is added unless present.
   */
  function MetaUpdated(ns: seq<Inst>, j: nat, typeMeta: Option<string>): (r: Update)
    requires j < |ns|
    ensures SameShape(ns, r.ns) && CapsGrow(ns, r.ns)
  {
    match typeMeta
    case None => Update(ns, Some(Graph.TYPE_ERROR))
    case Some(m) =>
      var c := MetaCapability(m);
      if |c| == 1 && c[0] !in ns[j].capabilities then Update(AddCapability(ns, j, c[0]), None)
      else Update(ns, None)
  }

  /** The body of the loop for instance `j`, before its children. */
  ghost function NodeUpdated(look: (Kind, Variable) -> Look, ns: seq<Inst>, j: nat): (r: Update)
    requires WF(ns) && j < |ns|
    ensures SameShape(ns, r.ns) && CapsGrow(ns, r.ns)
  {
    var l := look(ns[j].kind, ns[j].variable);
    var v := VisualUpdated(ns, j, l);
    if v.err.Some? then v
    else
      var m := MetaUpdated(v.ns, j, l.typeMeta);
      ShapeTrans(ns, v.ns, m.ns);
      m
  }

  /**
   * The pass over the instances `xs` (all at or after `lo`): each instance is updated,
   * then its children, then the next instance; the first throw ends the pass.
   */
  ghost function Capped(look: (Kind, Variable) -> Look, ns: seq<Inst>, xs: seq<nat>, lo: nat): (r: Update)
    requires WF(ns) && Below(ns, xs, lo)
    ensures SameShape(ns, r.ns) && CapsGrow(ns, r.ns)
    decreases |ns| - lo, |xs|
  {
    if |xs| == 0 then Update(ns, None)
    else
      var j := xs[0];
      var u := NodeUpdated(look, ns, j);
      if u.err.Some? then u
      else
        SameShapeWF(ns, u.ns);
        var c := Capped(look, u.ns, u.ns[j].children, j + 1);
        ShapeTrans(ns, u.ns, c.ns);
        if c.err.Some? then c
        else
          SameShapeWF(ns, c.ns);
          var r := Capped(look, c.ns, xs[1..], lo);
          ShapeTrans(ns, c.ns, r.ns);
          r
  }

  /** One iteration of the loop: instance `j`, then the pass over its children. */
  ghost function Subtree(look: (Kind, Variable) -> Look, ns: seq<Inst>, j: nat): (r: Update)
    requires WF(ns) && j < |ns|
    ensures SameShape(ns, r.ns) && CapsGrow(ns, r.ns)
  {
    var u := NodeUpdated(look, ns, j);
    if u.err.Some? then u
    else
      SameShapeWF(ns, u.ns);
      var c := Capped(look, u.ns, u.ns[j].children, j + 1);
      ShapeTrans(ns, u.ns, c.ns);
      c
  }

  /** The pass is the loop over `xs`: one iteration for `xs[0]`, then the rest unless it threw. */
  lemma CappedBySubtree(look: (Kind, Variable) -> Look, ns: seq<Inst>, xs: seq<nat>, lo: nat)
    requires WF(ns) && Below(ns, xs, lo) && |xs| > 0
    ensures var s := Subtree(look, ns, xs[0]);
      WF(s.ns) && Below(s.ns, xs[1..], lo) &&
      Capped(look, ns, xs, lo) == if s.err.Some? then s else Capped(look, s.ns, xs[1..], lo)
  {
    CappedCons(look, ns, xs, lo);
    SameShapeWF(ns, Subtree(look, ns, xs[0]).ns);
  }

  // ------------------------------------------------------------ what a pass achieves

  /** Instance `j` carries every capability its types call for, and its metaType can be read. */
  ghost predicate Done(look: (Kind, Variable) -> Look, ns: seq<Inst>, j: nat)
    requires j < |ns|
  {
    var l := look(ns[j].kind, ns[j].variable);
    (IsVisual(l.visual) ==> VISUAL_CAPABILITY in ns[j].capabilities) &&
    l.typeMeta.Some? &&
    (|MetaCapability(l.typeMeta.value)| == 1 ==> MetaCapability(l.typeMeta.value)[0] in ns[j].capabilities)
  }

  /** Capabilities only grow, so an instance once done stays done. */
  lemma DoneKept(look: (Kind, Variable) -> Look, a: seq<Inst>, b: seq<Inst>, j: nat)
    requires SameShape(a, b) && CapsGrow(a, b) && j < |a| && Done(look, a, j)
    ensures Done(look, b, j)
  {
    assert b[j].kind == a[j].kind && b[j].variable == a[j].variable;
  }

  /** The pre-order of a forest depends on its shape only. */
  lemma {:induction false} PreOrderSameShape(a: seq<Inst>, b: seq<Inst>, xs: seq<nat>, lo: nat)
    requires WF(a) && SameShape(a, b) && Below(a, xs, lo)
    ensures WF(b) && Below(b, xs, lo) && PreOrder(a, xs, lo) == PreOrder(b, xs, lo)
    decreases |a| - lo, |xs|
  {
    SameShapeWF(a, b);
    if |xs| > 0 {
      assert b[xs[0]].children == a[xs[0]].children;
      PreOrderSameShape(a, b, a[xs[0]].children, xs[0] + 1);
      PreOrderSameShape(a, b, xs[1..], lo);
    }
  }

  /** An instance whose own step does not throw is done after it. */
  lemma NodeUpdatedDone(look: (Kind, Variable) -> Look, ns: seq<Inst>, j: nat)
    requires WF(ns) && j < |ns| && NodeUpdated(look, ns, j).err.None?
    ensures Done(look, NodeUpdated(look, ns, j).ns, j)
  {
    var l := look(ns[j].kind, ns[j].variable);
    var v := VisualUpdated(ns, j, l);
    var m := MetaUpdated(v.ns, j, l.typeMeta);
    assert v.ns[j].kind == ns[j].kind && v.ns[j].variable == ns[j].variable;
    assert m.ns[j].kind == ns[j].kind && m.ns[j].variable == ns[j].variable;
    assert IsVisual(l.visual) ==> VISUAL_CAPABILITY in v.ns[j].capabilities by {
      if IsVisual(l.visual) && VISUAL_CAPABILITY !in ns[j].capabilities {
        var a := AddCapability(ns, j, VISUAL_CAPABILITY);
        SameShapeWF(ns, a);
        var p := Propagated(a, a[j].parent, VISUAL_CAPABILITY);
        assert VISUAL_CAPABILITY in a[j].capabilities;
        assert a[j].capabilities <= p[j].capabilities;
      }
    }
    assert v.ns[j].capabilities <= m.ns[j].capabilities;
  }

  /** One unfolding of the pass: instance `xs[0]`, then its children, then the rest. */
  lemma CappedCons(look: (Kind, Variable) -> Look, ns: seq<Inst>, xs: seq<nat>, lo: nat)
    requires WF(ns) && Below(ns, xs, lo) && |xs| > 0
    ensures var u := NodeUpdated(look, ns, xs[0]);
      WF(u.ns) && Below(u.ns, u.ns[xs[0]].children, xs[0] + 1) &&
      (u.err.Some? ==> Capped(look, ns, xs, lo) == u) &&
      (u.err.None? ==>
        var c := Capped(look, u.ns, u.ns[xs[0]].children, xs[0] + 1);
        WF(c.ns) && Below(c.ns, xs[1..], lo) &&
        Capped(look, ns, xs, lo) == if c.err.Some? then c else Capped(look, c.ns, xs[1..], lo))
  {
    var u := NodeUpdated(look, ns, xs[0]);
    SameShapeWF(ns, u.ns);
    if u.err.None? {
      var c := Capped(look, u.ns, u.ns[xs[0]].children, xs[0] + 1);
      SameShapeWF(u.ns, c.ns);
    }
  }

  /**
   * A pass that completes leaves every instance of the forest (the instances given and all
   * their descendants) with every capability its types call for.
   */
  lemma {:induction false} CappedDone(look: (Kind, Variable) -> Look, ns: seq<Inst>, xs: seq<nat>, lo: nat)
    requires WF(ns) && Below(ns, xs, lo) && Capped(look, ns, xs, lo).err.None?
    ensures forall x :: x in PreOrder(ns, xs, lo) ==> x < |ns| && Done(look, Capped(look, ns, xs, lo).ns, x)
    decreases |ns| - lo, |xs|, 1
  {
    if |xs| > 0 {
      PreOrderCons(ns, xs, lo);
      CappedDoneCons(look, ns, xs, lo);
      var a := PreOrder(ns, ns[xs[0]].children, xs[0] + 1);
      var b := PreOrder(ns, xs[1..], lo);
      assert Descendants(ns, xs[0]) == a;
      forall x | x in PreOrder(ns, xs, lo) ensures x < |ns| && Done(look, Capped(look, ns, xs, lo).ns, x) {
        assert x == xs[0] || x in a || x in b;
      }
    }
  }

  /** The instances below instance `j`, in the order the pass reaches them. */
  ghost function Descendants(ns: seq<Inst>, j: nat): seq<nat>
    requires WF(ns) && j < |ns|
  {
    ChildrenBelow(ns, j);
    PreOrder(ns, ns[j].children, j + 1)
  }

  /** Every instance listed in `s` exists in `r` and has the capabilities its types call for. */
  ghost predicate AllDone(look: (Kind, Variable) -> Look, r: seq<Inst>, s: seq<nat>)
  {
    forall x :: x in s ==> x < |r| && Done(look, r, x)
  }

  /** `CappedDone` for a non-empty list: the first instance, its subtree, then the rest. */
  lemma {:induction false} CappedDoneCons(look: (Kind, Variable) -> Look, ns: seq<Inst>, xs: seq<nat>, lo: nat)
    requires WF(ns) && Below(ns, xs, lo) && |xs| > 0 && Capped(look, ns, xs, lo).err.None?
    ensures Below(ns, ns[xs[0]].children, xs[0] + 1) && Below(ns, xs[1..], lo)
    ensures |Capped(look, ns, xs, lo).ns| == |ns|
    ensures Done(look, Capped(look, ns, xs, lo).ns, xs[0])
    ensures AllDone(look, Capped(look, ns, xs, lo).ns, Descendants(ns, xs[0]))
    ensures AllDone(look, Capped(look, ns, xs, lo).ns, PreOrder(ns, xs[1..], lo))
    decreases |ns| - lo, |xs|, 0
  {
    PreOrderCons(ns, xs, lo);
    CappedBySubtree(look, ns, xs, lo);
    var s := Subtree(look, ns, xs[0]);
    var r := Capped(look, s.ns, xs[1..], lo);
    assert s.err.None? && Capped(look, ns, xs, lo) == r;
    SubtreeDone(look, ns, xs[0]);
    CappedDone(look, s.ns, xs[1..], lo);
    PreOrderSameShape(ns, s.ns, xs[1..], lo);
    DoneKept(look, s.ns, r.ns, xs[0]);
    AllDoneKept(look, s.ns, r.ns, Descendants(ns, xs[0]));
  }

  /** An iteration that does not throw leaves its instance and all the instances below it done. */
  lemma {:induction false} SubtreeDone(look: (Kind, Variable) -> Look, ns: seq<Inst>, j: nat)
    requires WF(ns) && j < |ns| && Subtree(look, ns, j).err.None?
    ensures Done(look, Subtree(look, ns, j).ns, j)
    ensures AllDone(look, Subtree(look, ns, j).ns, Descendants(ns, j))
    decreases |ns| - j, 0, 0
  {
    ChildrenBelow(ns, j);
    var u := NodeUpdated(look, ns, j);
    SameShapeWF(ns, u.ns);
    var c := Capped(look, u.ns, u.ns[j].children, j + 1);
    assert Subtree(look, ns, j) == c;
    NodeUpdatedDone(look, ns, j);
    PreOrderSameShape(ns, u.ns, ns[j].children, j + 1);
    CappedDone(look, u.ns, u.ns[j].children, j + 1);
    DoneKept(look, u.ns, c.ns, j);
  }

  /** Instances that are done stay done under any later update. */
  lemma AllDoneKept(look: (Kind, Variable) -> Look, a: seq<Inst>, b: seq<Inst>, s: seq<nat>)
    requires SameShape(a, b) && CapsGrow(a, b) && AllDone(look, a, s)
    ensures AllDone(look, b, s)
  {
    forall x | x in s ensures x < |b| && Done(look, b, x) {
      DoneKept(look, a, b, x);
    }
  }

  /** An instance that is done is left as it is by its own step. */
  lemma NodeDoneUnchanged(look: (Kind, Variable) -> Look, ns: seq<Inst>, j: nat)
    requires WF(ns) && j < |ns| && Done(look, ns, j)
    ensures NodeUpdated(look, ns, j) == Update(ns, None)
  {
    var l := look(ns[j].kind, ns[j].variable);
    assert VisualUpdated(ns, j, l) == Update(ns, None);
  }

  /** The instances of a split pre-order are done when the whole one is. */
  lemma DoneParts(look: (Kind, Variable) -> Look, ns: seq<Inst>, j: nat, a: seq<nat>, b: seq<nat>)
    requires forall x :: x in [j] + a + b ==> x < |ns| && Done(look, ns, x)
    ensures j < |ns| && Done(look, ns, j)
    ensures forall x :: x in a ==> x < |ns| && Done(look, ns, x)
    ensures forall x :: x in b ==> x < |ns| && Done(look, ns, x)
  {
    assert j in [j] + a + b;
    forall x | x in a ensures x < |ns| && Done(look, ns, x) {
      assert x in [j] + a + b;
    }
    forall x | x in b ensures x < |ns| && Done(look, ns, x) {
      assert x in [j] + a + b;
    }
  }

  /** The children of a node sit after it. */
  lemma ChildrenBelow(ns: seq<Inst>, j: nat)
    requires WF(ns) && j < |ns|
    ensures Below(ns, ns[j].children, j + 1)
  {
    forall k | 0 <= k < |ns[j].children| ensures j + 1 <= ns[j].children[k] < |ns| {
    }
  }

  /** A forest whose instances are all done is left as it is, and nothing throws. */
  lemma {:induction false} DoneUnchanged(look: (Kind, Variable) -> Look, ns: seq<Inst>, xs: seq<nat>, lo: nat)
    requires WF(ns) && Below(ns, xs, lo)
    requires forall x :: x in PreOrder(ns, xs, lo) ==> x < |ns| && Done(look, ns, x)
    ensures Capped(look, ns, xs, lo) == Update(ns, None)
    decreases |ns| - lo, |xs|
  {
    if |xs| > 0 {
      var j := xs[0];
      ChildrenBelow(ns, j);
      var a := PreOrder(ns, ns[j].children, j + 1);
      var b := PreOrder(ns, xs[1..], lo);
      PreOrderCons(ns, xs, lo);
      DoneParts(look, ns, j, a, b);
      NodeDoneUnchanged(look, ns, j);
      DoneUnchanged(look, ns, ns[j].children, j + 1);
      assert Subtree(look, ns, j) == Update(ns, None);
      CappedBySubtree(look, ns, xs, lo);
      DoneUnchanged(look, ns, xs[1..], lo);
    }
  }

  /** Running the pass a second time over the same instances changes nothing and throws nothing. */
  lemma CappedIdempotent(look: (Kind, Variable) -> Look, ns: seq<Inst>, xs: seq<nat>, lo: nat)
    requires WF(ns) && Below(ns, xs, lo) && Capped(look, ns, xs, lo).err.None?
    ensures var r := Capped(look, ns, xs, lo).ns;
      WF(r) && Below(r, xs, lo) && Capped(look, r, xs, lo) == Update(r, None)
  {
    var r := Capped(look, ns, xs, lo).ns;
    CappedDone(look, ns, xs, lo);
    PreOrderSameShape(ns, r, xs, lo);
    DoneUnchanged(look, r, xs, lo);
  }

  // ------------------------------------------------------------ the visual capability stays closed upward

  /** A capability other than the visual one leaves the visual closure as it is. */
  lemma AddOtherKeepsClosed(ns: seq<Inst>, q: nat, cap: string)
    requires WF(ns) && q < |ns| && cap != VISUAL_CAPABILITY && UpClosed(ns, VISUAL_CAPABILITY)
    ensures WF(AddCapability(ns, q, cap)) && UpClosed(AddCapability(ns, q, cap), VISUAL_CAPABILITY)
  {
    var r := AddCapability(ns, q, cap);
    SameShapeWF(ns, r);
    forall j | 0 <= j < |r| && r[j].parent.Some? && VISUAL_CAPABILITY in r[j].capabilities
      ensures VISUAL_CAPABILITY in r[r[j].parent.value].capabilities
    {
      assert VISUAL_CAPABILITY in ns[j].capabilities;
    }
  }

  /** Adding the visual capability to `j` breaks the closure at most at `j`. */
  lemma AddVisualClosedBut(ns: seq<Inst>, j: nat)
    requires WF(ns) && j < |ns| && UpClosed(ns, VISUAL_CAPABILITY)
    ensures WF(AddCapability(ns, j, VISUAL_CAPABILITY)) &&
      UpClosedBut(AddCapability(ns, j, VISUAL_CAPABILITY), VISUAL_CAPABILITY, j)
  {
    var a := AddCapability(ns, j, VISUAL_CAPABILITY);
    SameShapeWF(ns, a);
    forall x | 0 <= x < |a| && x != j && a[x].parent.Some? && VISUAL_CAPABILITY in a[x].capabilities
      ensures VISUAL_CAPABILITY in a[a[x].parent.value].capabilities
    {
      assert ns[x] == a[x];
      assert ns[a[x].parent.value].capabilities <= a[a[x].parent.value].capabilities;
    }
  }

  lemma NodeUpdatedClosed(look: (Kind, Variable) -> Look, ns: seq<Inst>, j: nat)
    requires WF(ns) && j < |ns| && UpClosed(ns, VISUAL_CAPABILITY)
    ensures WF(NodeUpdated(look, ns, j).ns) && UpClosed(NodeUpdated(look, ns, j).ns, VISUAL_CAPABILITY)
  {
    var l := look(ns[j].kind, ns[j].variable);
    var v := VisualUpdated(ns, j, l);
    SameShapeWF(ns, v.ns);
    assert UpClosed(v.ns, VISUAL_CAPABILITY) by {
      if IsVisual(l.visual) && VISUAL_CAPABILITY !in ns[j].capabilities {
        var a := AddCapability(ns, j, VISUAL_CAPABILITY);
        AddVisualClosedBut(ns, j);
        PropagationCloses(a, j, VISUAL_CAPABILITY);
        var p := Propagated(a, a[j].parent, VISUAL_CAPABILITY);
        if l.visual.SingleVisual? && l.visual.hasGroups {
          assert |VISUAL_GROUP_CAPABILITY| != |VISUAL_CAPABILITY|;
          SameShapeWF(a, p);
          AddOtherKeepsClosed(p, j, VISUAL_GROUP_CAPABILITY);
        }
      }
    }
    if v.err.None? && l.typeMeta.Some? {
      var c := MetaCapability(l.typeMeta.value);
      if |c| == 1 && c[0] !in v.ns[j].capabilities {
        assert c[0] != VISUAL_CAPABILITY by {
          assert |VISUAL_CAPABILITY| != |CONNECTION_CAPABILITY| && |VISUAL_CAPABILITY| != |PARAMETER_CAPABILITY|;
          assert |VISUAL_CAPABILITY| != |STATE_VARIABLE_CAPABILITY| && |VISUAL_CAPABILITY| != |DERIVED_STATE_VARIABLE_CAPABILITY|;
        }
        AddOtherKeepsClosed(v.ns, j, c[0]);
      }
    }
  }

  /**
   * The pass keeps the visual capability closed upward: if every visual instance had a
   * visual parent before, it has one after, whether or not the pass throws.
   */
  lemma {:induction false} CappedClosed(look: (Kind, Variable) -> Look, ns: seq<Inst>, xs: seq<nat>, lo: nat)
    requires WF(ns) && Below(ns, xs, lo) && UpClosed(ns, VISUAL_CAPABILITY)
    ensures WF(Capped(look, ns, xs, lo).ns) && UpClosed(Capped(look, ns, xs, lo).ns, VISUAL_CAPABILITY)
    decreases |ns| - lo, |xs|
  {
    SameShapeWF(ns, Capped(look, ns, xs, lo).ns);
    if |xs| > 0 {
      var j := xs[0];
      CappedCons(look, ns, xs, lo);
      var u := NodeUpdated(look, ns, j);
      NodeUpdatedClosed(look, ns, j);
      if u.err.None? {
        var c := Capped(look, u.ns, u.ns[j].children, j + 1);
        CappedClosed(look, u.ns, u.ns[j].children, j + 1);
        if c.err.None? {
          CappedClosed(look, c.ns, xs[1..], lo);
        }
      }
    }
  }
}
