/**
 * Swapping one type for another wherever a variable uses it: `swapTypeInVariable`
 * and `swapTypeInTypes`. An entry is swapped when its metaType and id are those of
 * the outgoing type; a composite type that is not swapped itself has the swap
 * applied to each of its variables; every other entry is left as it is.
 */
module Swaps {
  import opened Graph
  import opened Meta

  /** The test `swapTypeInTypes` makes on each entry. */
  predicate Hits(t: Type, out: Type)
  {
    t.metaType == out.metaType && t.id == out.id
  }

  /** One entry of a type list after the swap. */
  function SwapType(t: Type, out: Type, incoming: Type): (r: Type)
    ensures Hits(t, out) ==> r == incoming
    ensures !Hits(t, out) ==> r.id == t.id && r.metaType == t.metaType && r.path == t.path
    decreases t, 0
  {
    if Hits(t, out) then incoming
    else if t.metaType == COMPOSITE_TYPE && t.body.Composite? then
      t.(body := Composite(SwapVariables(t.body.variables, out, incoming)))
    else t
  }

  /** The nested variables of a composite type, each swapped. */
  function SwapVariables(vs: seq<Variable>, out: Type, incoming: Type): (r: seq<Variable>)
    ensures |r| == |vs|
    decreases vs, 2
  {
    seq(|vs|, k requires 0 <= k < |vs| => SwapVariable(vs[k], out, incoming))
  }

  /** `swapTypeInVariable`: both the referenced and the anonymous types are swapped. */
  function SwapVariable(v: Variable, out: Type, incoming: Type): (r: Variable)
    ensures r.(types := v.types, anonymousTypes := v.anonymousTypes) == v
    decreases v, 0
  {
    v.(types := SwapSlots(v.types, out, incoming), anonymousTypes := SwapTypes(v.anonymousTypes, out, incoming))
  }

  /** A type position: only a resolved type can be swapped. */
  function SwapSlot(s: Slot, out: Type, incoming: Type): Slot
    decreases s, 0
  {
    match s
    case Obj(t) => Obj(SwapType(t, out, incoming))
    case _ => s
  }

  function SwapSlots(ss: seq<Slot>, out: Type, incoming: Type): (r: seq<Slot>)
    ensures |r| == |ss|
    decreases ss, 2
  {
    seq(|ss|, k requires 0 <= k < |ss| => SwapSlot(ss[k], out, incoming))
  }

  function SwapTypes(ts: seq<Type>, out: Type, incoming: Type): (r: seq<Type>)
    ensures |r| == |ts|
    decreases ts, 2
  {
    seq(|ts|, k requires 0 <= k < |ts| => SwapType(ts[k], out, incoming))
  }

  // ------------------------------------------------------------ where the outgoing type occurs

  /** The swap would change something in `t`: it is hit, or it is a composite one of whose variables uses `out`. */
  predicate TypeReaches(t: Type, out: Type)
    decreases t, 1
  {
    Hits(t, out) ||
    (t.metaType == COMPOSITE_TYPE && t.body.Composite? &&
     exists k :: 0 <= k < |t.body.variables| && VariableReaches(t.body.variables[k], out))
  }

  predicate VariableReaches(v: Variable, out: Type)
    decreases v, 1
  {
    (exists k :: 0 <= k < |v.types| && v.types[k].Obj? && TypeReaches(v.types[k].t, out)) ||
    (exists k :: 0 <= k < |v.anonymousTypes| && TypeReaches(v.anonymousTypes[k], out))
  }

  /** Where the outgoing type does not occur, the swap changes nothing. */
  lemma {:induction false} SwapAbsentType(t: Type, out: Type, incoming: Type)
    requires !TypeReaches(t, out)
    ensures SwapType(t, out, incoming) == t
    decreases t, 0
  {
    if t.metaType == COMPOSITE_TYPE && t.body.Composite? {
      var vs := t.body.variables;
      forall k | 0 <= k < |vs|
        ensures SwapVariable(vs[k], out, incoming) == vs[k]
      {
        SwapAbsentVariable(vs[k], out, incoming);
      }
      assert SwapVariables(vs, out, incoming) == vs;
    }
  }

  lemma {:induction false} SwapAbsentVariable(v: Variable, out: Type, incoming: Type)
    requires !VariableReaches(v, out)
    ensures SwapVariable(v, out, incoming) == v
    decreases v, 0
  {
    forall k | 0 <= k < |v.types|
      ensures SwapSlot(v.types[k], out, incoming) == v.types[k]
    {
      if v.types[k].Obj? {
        SwapAbsentType(v.types[k].t, out, incoming);
      }
    }
    forall k | 0 <= k < |v.anonymousTypes|
      ensures SwapType(v.anonymousTypes[k], out, incoming) == v.anonymousTypes[k]
    {
      SwapAbsentType(v.anonymousTypes[k], out, incoming);
    }
    assert SwapSlots(v.types, out, incoming) == v.types;
    assert SwapTypes(v.anonymousTypes, out, incoming) == v.anonymousTypes;
  }

  /** When the incoming type does not itself use the outgoing one, no use of it survives the swap. */
  lemma {:induction false} SwapRemovesType(t: Type, out: Type, incoming: Type)
    requires !TypeReaches(incoming, out)
    ensures !TypeReaches(SwapType(t, out, incoming), out)
    decreases t, 0
  {
    if !Hits(t, out) && t.metaType == COMPOSITE_TYPE && t.body.Composite? {
      var vs := t.body.variables;
      var ws := SwapVariables(vs, out, incoming);
      forall k | 0 <= k < |ws|
        ensures !VariableReaches(ws[k], out)
      {
        SwapRemovesVariable(vs[k], out, incoming);
      }
    }
  }

  lemma {:induction false} SwapRemovesVariable(v: Variable, out: Type, incoming: Type)
    requires !TypeReaches(incoming, out)
    ensures !VariableReaches(SwapVariable(v, out, incoming), out)
    decreases v, 0
  {
    var w := SwapVariable(v, out, incoming);
    assert w.types == SwapSlots(v.types, out, incoming);
    assert w.anonymousTypes == SwapTypes(v.anonymousTypes, out, incoming);
    forall k | 0 <= k < |w.types| && w.types[k].Obj?
      ensures !TypeReaches(w.types[k].t, out)
    {
      assert w.types[k] == SwapSlot(v.types[k], out, incoming);
      SwapRemovesType(v.types[k].t, out, incoming);
    }
    forall k | 0 <= k < |w.anonymousTypes|
      ensures !TypeReaches(w.anonymousTypes[k], out)
    {
      assert w.anonymousTypes[k] == SwapType(v.anonymousTypes[k], out, incoming);
      SwapRemovesType(v.anonymousTypes[k], out, incoming);
    }
  }

  /** Swapping a second time changes nothing, as long as the incoming type does not use the outgoing one. */
  lemma SwapVariableIdempotent(v: Variable, out: Type, incoming: Type)
    requires !TypeReaches(incoming, out)
    ensures SwapVariable(SwapVariable(v, out, incoming), out, incoming) == SwapVariable(v, out, incoming)
  {
    SwapRemovesVariable(v, out, incoming);
    SwapAbsentVariable(SwapVariable(v, out, incoming), out, incoming);
  }

  /**
   * The loop of `swapTypeInTypes` over a variable's type array, in place: each entry is
   * replaced by its swapped form.
   */
  method SwapTypeInTypes(types: array<Slot>, out: Type, incoming: Type)
    modifies types
    ensures types[..] == SwapSlots(old(types[..]), out, incoming)
  {
    var y := 0;
    while y < types.Length
      invariant 0 <= y <= types.Length
      invariant forall k :: 0 <= k < y ==> types[k] == SwapSlot(old(types[k]), out, incoming)
      invariant forall k :: y <= k < types.Length ==> types[k] == old(types[k])
    {
      var s := types[y];
      if s.Obj? {
        var t := s.t;
        if t.metaType == out.metaType && t.id == out.id {
          types[y] := Obj(incoming);
        } else if t.metaType == COMPOSITE_TYPE && t.body.Composite? {
          types[y] := Obj(t.(body := Composite(SwapVariables(t.body.variables, out, incoming))));
        }
      }
      y := y + 1;
    }
  }
}
