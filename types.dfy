/**
 * Operations of `Type` and `Variable` that relate the two: the inheritance test
 * `typeOf`, the back-links a variable leaves on its types (`setTypes`,
 * `addVariableReference`).
 */
module Types {
  import opened Wrappers
  import opened Graph
  import opened Seqs

  /**
   * `this.typeOf(t)`: true when `t` has the path of `this`, otherwise the first
   * entry of `t.superType` for which the test holds ends the scan.
   * Reading `length` of an absent `superType` or the path of an unresolved entry throws.
   */
  function TypeOf(self: Type, t: Type): Result<bool>
    decreases t, 1
  {
    if t.path == self.path then Success(true)
    else
      match t.superType
      case NoSuper => Failure(TYPE_ERROR)
      case OneSuper(_) => Success(false)
      case SuperList(_) => TypeOfFrom(self, t, 0)
  }

  /** The loop of `typeOf` over the super types of `t` from position `i`, stopping at the first match. */
  function TypeOfFrom(self: Type, t: Type, i: nat): Result<bool>
    requires t.superType.SuperList? && i <= |t.superType.ss|
    decreases t, 0, |t.superType.ss| - i
  {
    var ss := t.superType.ss;
    if i == |ss| then Success(false)
    else
      match ss[i]
      case Obj(st) =>
        assert ss[i] in ss;
        var m := TypeOf(self, st);
        if m.Failure? || m.value then m else TypeOfFrom(self, t, i + 1)
      case _ => Failure(TYPE_ERROR)
  }

  /** `t` is `self` or inherits from it through resolved super types: the reference relation. */
  predicate Descends(t: Type, p: string)
    decreases t
  {
    t.path == p ||
    (t.superType.SuperList? &&
     exists k :: 0 <= k < |t.superType.ss| && t.superType.ss[k].Obj? && Descends(t.superType.ss[k].t, p))
  }

  /** Every super-type list in the inheritance tree is present and resolved, so `typeOf` cannot throw. */
  predicate SupersResolved(t: Type)
    decreases t
  {
    t.superType.SuperList? &&
    forall k :: 0 <= k < |t.superType.ss| ==> t.superType.ss[k].Obj? && SupersResolved(t.superType.ss[k].t)
  }

  /** When `typeOf` answers, it answers whether `t` descends from `self`. */
  lemma {:induction false} TypeOfSound(self: Type, t: Type)
    ensures TypeOf(self, t).Success? ==> (TypeOf(self, t).value <==> Descends(t, self.path))
    decreases t, 1
  {
    if t.path != self.path && t.superType.SuperList? {
      TypeOfFromSound(self, t, 0);
    }
  }

  lemma {:induction false} TypeOfFromSound(self: Type, t: Type, i: nat)
    requires t.superType.SuperList? && i <= |t.superType.ss|
    requires t.path != self.path
    ensures TypeOfFrom(self, t, i).Success? ==>
      (TypeOfFrom(self, t, i).value <==>
       exists k :: i <= k < |t.superType.ss| && t.superType.ss[k].Obj? && Descends(t.superType.ss[k].t, self.path))
    decreases t, 0, |t.superType.ss| - i
  {
    var ss := t.superType.ss;
    if i < |ss| && ss[i].Obj? {
      assert ss[i] in ss;
      TypeOfSound(self, ss[i].t);
      TypeOfFromSound(self, t, i + 1);
    }
  }

  /** With every super-type list present and resolved, `typeOf` always answers. */
  lemma {:induction false} TypeOfTotal(self: Type, t: Type)
    requires SupersResolved(t)
    ensures TypeOf(self, t).Success?
    decreases t, 1
  {
    if t.path != self.path {
      TypeOfFromTotal(self, t, 0);
    }
  }

  lemma {:induction false} TypeOfFromTotal(self: Type, t: Type, i: nat)
    requires SupersResolved(t)
    requires t.superType.SuperList? && i <= |t.superType.ss|
    ensures TypeOfFrom(self, t, i).Success?
    decreases t, 0, |t.superType.ss| - i
  {
    var ss := t.superType.ss;
    if i < |ss| {
      assert ss[i] in ss;
      TypeOfTotal(self, ss[i].t);
      TypeOfFromTotal(self, t, i + 1);
    }
  }

  /** `addVariableReference(v)`: the variable's path is appended; nothing else changes. */
  function AddVariableReference(t: Type, variablePath: string): (r: Type)
    ensures r.variableReferences == t.variableReferences + [variablePath]
    ensures r.(variableReferences := t.variableReferences) == t
  {
    t.(variableReferences := t.variableReferences + [variablePath])
  }

  /** The back-link `setTypes` leaves on one entry: only resolved types have `addVariableReference`. */
  function LinkSlot(s: Slot, variablePath: string): Slot
  {
    if s.Obj? then Obj(AddVariableReference(s.t, variablePath)) else s
  }

  /**
   * `setTypes(types)`: the variable's types become `types`, each resolved one carrying
   * a back-link to the variable. The anonymous types are left as they were.
   */
  method SetTypes(v: Variable, types: seq<Slot>) returns (r: Variable)
    ensures r == v.(types := r.types)
    ensures |r.types| == |types|
    ensures forall k :: 0 <= k < |types| ==> r.types[k] == LinkSlot(types[k], v.path)
  {
    var linked: seq<Slot> := [];
    var i := 0;
    while i < |types|
      invariant 0 <= i <= |types|
      invariant |linked| == i
      invariant forall k :: 0 <= k < i ==> linked[k] == LinkSlot(types[k], v.path)
    {
      linked := linked + [LinkSlot(types[i], v.path)];
      i := i + 1;
    }
    r := v.(types := linked);
  }

  /** After `setTypes`, every resolved type of the variable lists the variable among its references. */
  lemma SetTypesLinksBack(types: seq<Slot>, variablePath: string, k: nat)
    requires k < |types| && types[k].Obj?
    ensures LinkSlot(types[k], variablePath).t.variableReferences ==
      types[k].t.variableReferences + [variablePath]
    ensures variablePath in LinkSlot(types[k], variablePath).t.variableReferences
    ensures LinkSlot(types[k], variablePath).t.path == types[k].t.path
  {
  }
}
