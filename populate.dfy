/**
 * `populateTypeReferences` of types and variables: the pass that runs once the
 * graph is built and replaces every `{$ref}` in a type position by what
 * `resolve` returns for it.
 *
 * The call first goes to a node's contained children (a composite type's
 * variables, a variable's anonymous types) and then does the node's own part:
 * a type resolves its visual type and its super types (an array type also its
 * element type); a variable resolves its referenced types, checks that a
 * pointer-typed variable has exactly one initial value, and gains a capability
 * per parameter or connection type.
 *
 * Types and variables are values here, so each populate returns the updated
 * node; a throw is a `Failure`.
 */
module Populate {
  import opened Wrappers
  import opened Meta
  import opened Seqs
  import opened Graph
  import Types
  import Worlds
  import opened Models

  /** Raised where a `$ref` in a type position leads to something that is not a type. */
  const NOT_A_TYPE: string := "Reference does not lead to a type"

  /** Raised by a connection-typed variable's populate as written: `Instance` is not in scope there. */
  const REFERENCE_ERROR: string := "ReferenceError: Instance is not defined"

  /** The message a pointer-typed variable without exactly one initial value throws. */
  function InitialValuesExpected(id: string): string
  {
    "The variable " + id + " does not have initial values. Initial values expected."
  }

  /** A list produced left to right: `xs` already collected, then what the rest of the loop gives. */
  function Prepend<T>(xs: seq<T>, rest: Result<seq<T>>): (r: Result<seq<T>>)
    ensures r.Success? <==> rest.Success?
    ensures r.Success? ==> r.value == xs + rest.value
    ensures r.Failure? ==> r == rest
  {
    if rest.Failure? then rest else Success(xs + rest.value)
  }

  lemma PrependNothing<T>(rest: Result<seq<T>>)
    ensures Prepend([], rest) == rest
  {
    if rest.Success? {
      assert [] + rest.value == rest.value;
    }
  }

  lemma PrependTwice<T>(xs: seq<T>, ys: seq<T>, rest: Result<seq<T>>)
    ensures Prepend(xs, Prepend(ys, rest)) == Prepend(xs + ys, rest)
  {
    if rest.Success? {
      assert xs + (ys + rest.value) == (xs + ys) + rest.value;
    }
  }

  /** `resolve(ref)` stored in a type position. */
  function ResolveToSlot(resolve: string -> Result<Target>, ref: string): (r: Result<Slot>)
    ensures r.Success? ==> r.value.Obj? || r.value.Undef?
  {
    var t := resolve(ref);
    if t.Failure? then Failure(t.error)
    else
      match t.value
      case TType(ty) => Success(Obj(ty))
      case TUndefined => Success(Undef)
      case _ => Failure(NOT_A_TYPE)
  }

  // ------------------------------------------------------------------ types

  /**
   * A `visualType` or an array's element type: an absent one stays absent; a present one
   * is replaced by `resolve(x.$ref)`, which throws when `x` is already a type (it has no `$ref`).
   */
  function PopulatedPosition(resolve: string -> Result<Target>, s: Slot): Result<Slot>
  {
    match s
    case Undef => Success(Undef)
    case Ref(r) => ResolveToSlot(resolve, r)
    case Obj(_) => Failure(Graph.TYPE_ERROR)
  }

  /** One super-type entry: a non-empty `$ref` is resolved, any other entry is kept, `undefined` throws. */
  function PopulatedSuper(resolve: string -> Result<Target>, s: Slot): Result<Slot>
  {
    match s
    case Ref(r) => if r != "" then ResolveToSlot(resolve, r) else Success(s)
    case Obj(_) => Success(s)
    case Undef => Failure(Graph.TYPE_ERROR)
  }

  /** The loop over the super-type list, left to right; the first throw ends it. */
  function PopulatedSupers(resolve: string -> Result<Target>, ss: seq<Slot>): (r: Result<seq<Slot>>)
    ensures r.Success? <==> forall k :: 0 <= k < |ss| ==> PopulatedSuper(resolve, ss[k]).Success?
    ensures r.Success? ==> |r.value| == |ss|
    ensures r.Success? ==> forall k :: 0 <= k < |ss| ==> PopulatedSuper(resolve, ss[k]) == Success(r.value[k])
    decreases |ss|
  {
    if |ss| == 0 then Success([])
    else
      var head := PopulatedSuper(resolve, ss[0]);
      if head.Failure? then Failure(head.error)
      else Prepend([head.value], PopulatedSupers(resolve, ss[1..]))
  }

  /**
   * The entries the pass loops over, read through `getSuperType()`: a one-entry list is
   * unwrapped to its entry and a single entry is wrapped back into a list. `None` when that
   * read gives `undefined` (no super type, or a one-entry list holding `undefined`), which
   * skips the pass.
   */
  function SuperEntries(st: SuperType): (r: Option<seq<Slot>>)
    ensures r.None? <==>
      st.NoSuper? || (st.OneSuper? && st.s.Undef?) || (st.SuperList? && st.ss == [Undef])
    ensures st.OneSuper? && r.Some? ==> r.value == [st.s]
    ensures st.SuperList? && r.Some? ==> r.value == st.ss
  {
    match st
    case NoSuper => None
    case OneSuper(s) => if s.Undef? then None else Some([s])
    case SuperList(ss) => if |ss| == 1 && ss[0].Undef? then None else Some(ss)
  }

  /** `superType`: left as stored when it reads as `undefined`, otherwise resolved entry by entry into a list. */
  function PopulatedSuperType(resolve: string -> Result<Target>, st: SuperType): Result<SuperType>
  {
    var ss := SuperEntries(st);
    if ss.None? then Success(st)
    else
      var r := PopulatedSupers(resolve, ss.value);
      if r.Failure? then Failure(r.error) else Success(SuperList(r.value))
  }

  /**
   * The type's own part (Type.js, then the ArrayType override, which runs the
   * type's part and then resolves the element type and the super types once more).
   */
  function TypeOwnPart(resolve: string -> Result<Target>, t: Type): Result<Type>
  {
    var vt := PopulatedPosition(resolve, t.visualType);
    if vt.Failure? then Failure(vt.error)
    else
      var st := PopulatedSuperType(resolve, t.superType);
      if st.Failure? then Failure(st.error)
      else
        var t1 := t.(visualType := vt.value, superType := st.value);
        if !t1.body.ArrayOf? then Success(t1)
        else
          var el := PopulatedPosition(resolve, t1.body.element);
          if el.Failure? then Failure(el.error)
          else
            var st2 := PopulatedSuperType(resolve, t1.superType);
            if st2.Failure? then Failure(st2.error)
            else Success(t1.(body := ArrayOf(el.value, t1.body.size), superType := st2.value))
  }

  /** `populateTypeReferences` of a type: its variables first, then its own part. */
  function PopulatedType(resolve: string -> Result<Target>, t: Type): Result<Type>
    decreases t, 1
  {
    var c :=
      match t.body
      case Composite(vs) =>
        var r := PopulatedVariables(resolve, vs);
        if r.Failure? then Failure(r.error) else Success(t.(body := Composite(r.value)))
      case CompositeVisual(vs, gs) =>
        var r := PopulatedVariables(resolve, vs);
        if r.Failure? then Failure(r.error) else Success(t.(body := CompositeVisual(r.value, gs)))
      case _ => Success(t);
    if c.Failure? then c else TypeOwnPart(resolve, c.value)
  }

  /** The `forEach` over a list of contained variables; the first throw ends it. */
  function PopulatedVariables(resolve: string -> Result<Target>, vs: seq<Variable>): (r: Result<seq<Variable>>)
    ensures r.Success? ==> |r.value| == |vs|
    decreases vs, 0
  {
    if |vs| == 0 then Success([])
    else
      var head := PopulatedVariable(resolve, vs[0]);
      if head.Failure? then Failure(head.error)
      else Prepend([head.value], PopulatedVariables(resolve, vs[1..]))
  }

  /** The `forEach` over a variable's anonymous types. */
  function PopulatedTypes(resolve: string -> Result<Target>, ts: seq<Type>): (r: Result<seq<Type>>)
    ensures r.Success? ==> |r.value| == |ts|
    decreases ts, 0
  {
    if |ts| == 0 then Success([])
    else
      var head := PopulatedType(resolve, ts[0]);
      if head.Failure? then Failure(head.error)
      else Prepend([head.value], PopulatedTypes(resolve, ts[1..]))
  }

  /** A super type that does not read as `undefined` resolves as the list of its entries. */
  lemma SuperTypeOfList(resolve: string -> Result<Target>, st: SuperType, ss: seq<Slot>)
    requires SuperEntries(st) == Some(ss)
    ensures var r := PopulatedSupers(resolve, ss);
      PopulatedSuperType(resolve, st) == if r.Failure? then Failure(r.error) else Success(SuperList(r.value))
  {
  }

  lemma PopulatedSupersStep(resolve: string -> Result<Target>, ss: seq<Slot>, i: nat)
    requires i < |ss|
    ensures PopulatedSupers(resolve, ss[i..]) ==
      var h := PopulatedSuper(resolve, ss[i]);
      if h.Failure? then Failure(h.error) else Prepend([h.value], PopulatedSupers(resolve, ss[i + 1..]))
  {
    var rest := ss[i..];
    assert rest[0] == ss[i] && rest[1..] == ss[i + 1..];
  }

  lemma PopulatedVariablesStep(resolve: string -> Result<Target>, vs: seq<Variable>, i: nat)
    requires i < |vs|
    ensures PopulatedVariables(resolve, vs[i..]) ==
      var h := PopulatedVariable(resolve, vs[i]);
      if h.Failure? then Failure(h.error) else Prepend([h.value], PopulatedVariables(resolve, vs[i + 1..]))
  {
    var rest := vs[i..];
    assert rest[0] == vs[i] && rest[1..] == vs[i + 1..];
  }

  /** Populating one more variable at the end: a failure earlier stays, otherwise its own result decides. */
  lemma {:induction false} PopulatedVariablesSnoc(resolve: string -> Result<Target>, vs: seq<Variable>, v: Variable)
    ensures PopulatedVariables(resolve, vs + [v]) ==
      var front := PopulatedVariables(resolve, vs);
      var h := PopulatedVariable(resolve, v);
      if front.Failure? then front
      else if h.Failure? then Failure(h.error)
      else Success(front.value + [h.value])
  {
    var h := PopulatedVariable(resolve, v);
    if |vs| == 0 {
      assert vs + [v] == [v];
      assert [v][1..] == [];
      if h.Success? {
        assert [h.value] + [] == [] + [h.value];
      }
    } else {
      var w := vs + [v];
      assert w[0] == vs[0] && w[1..] == vs[1..] + [v];
      PopulatedVariablesSnoc(resolve, vs[1..], v);
      var h0 := PopulatedVariable(resolve, vs[0]);
      var rest := PopulatedVariables(resolve, vs[1..]);
      var restW := PopulatedVariables(resolve, w[1..]);
      assert PopulatedVariables(resolve, w) == if h0.Failure? then Failure(h0.error) else Prepend([h0.value], restW);
      assert PopulatedVariables(resolve, vs) == if h0.Failure? then Failure(h0.error) else Prepend([h0.value], rest);
      if h0.Success? && rest.Success? && h.Success? {
        assert restW == Success(rest.value + [h.value]);
        assert [h0.value] + (rest.value + [h.value]) == ([h0.value] + rest.value) + [h.value];
      }
    }
  }

  /**
   * A list populated element by element with `f`, last element last: the first throw ends it.
   * Loops that populate as they append are stated with it.
   */
  function Collect<T, U>(f: T -> Result<U>, xs: seq<T>): (r: Result<seq<U>>)
    ensures r.Success? ==> |r.value| == |xs|
  {
    if |xs| == 0 then Success([])
    else
      var front := Collect(f, xs[..|xs| - 1]);
      var h := f(xs[|xs| - 1]);
      if front.Failure? then front
      else if h.Failure? then Failure(h.error)
      else Success(front.value + [h.value])
  }

  lemma CollectSnoc<T, U>(f: T -> Result<U>, xs: seq<T>, x: T)
    ensures Collect(f, xs + [x]) ==
      var front := Collect(f, xs);
      if front.Failure? then front
      else if f(x).Failure? then Failure(f(x).error)
      else Success(front.value + [f(x).value])
  {
    assert (xs + [x])[..|xs|] == xs;
  }

  /** The populate step of one variable, as a value. */
  function Populator(resolve: string -> Result<Target>): Variable -> Result<Variable>
  {
    (v: Variable) => PopulatedVariable(resolve, v)
  }

  /** Populating left to right, last element last, is the `forEach` over the list. */
  lemma {:induction false} CollectPopulates(resolve: string -> Result<Target>, vs: seq<Variable>)
    ensures Collect(Populator(resolve), vs) == PopulatedVariables(resolve, vs)
  {
    if |vs| > 0 {
      var init := vs[..|vs| - 1];
      var last := vs[|vs| - 1];
      CollectPopulates(resolve, init);
      assert init + [last] == vs;
      PopulatedVariablesSnoc(resolve, init, last);
      CollectSnoc(Populator(resolve), init, last);
      var h := PopulatedVariable(resolve, last);
      assert Populator(resolve)(last) == h;
      var front := PopulatedVariables(resolve, init);
      assert Collect(Populator(resolve), init) == front;
      assert Collect(Populator(resolve), vs) ==
        if front.Failure? then front else if h.Failure? then Failure(h.error) else Success(front.value + [h.value]);
    }
  }

  /** `Collect` over one more element of a prefix. */
  lemma CollectPrefixStep<T, U>(f: T -> Result<U>, xs: seq<T>, j: nat)
    requires j < |xs|
    ensures Collect(f, xs[..j + 1]) ==
      var front := Collect(f, xs[..j]);
      if front.Failure? then front
      else if f(xs[j]).Failure? then Failure(f(xs[j]).error)
      else Success(front.value + [f(xs[j]).value])
  {
    CollectSnoc(f, xs[..j], xs[j]);
    assert xs[..j] + [xs[j]] == xs[..j + 1];
  }

  /** A throw while populating a prefix is the throw of the whole list. */
  lemma {:induction false} CollectPrefixFailure<T, U>(f: T -> Result<U>, xs: seq<T>, j: nat)
    requires j <= |xs| && Collect(f, xs[..j]).Failure?
    ensures Collect(f, xs) == Collect(f, xs[..j])
    decreases |xs| - j
  {
    if j < |xs| {
      CollectPrefixStep(f, xs, j);
      CollectPrefixFailure(f, xs, j + 1);
    } else {
      assert xs[..j] == xs;
    }
  }

  /**
   * `Collect` succeeds exactly when every element's step succeeds, and then yields each
   * element's result at its position.
   */
  lemma {:induction false} CollectPointwise<T, U>(f: T -> Result<U>, xs: seq<T>)
    ensures Collect(f, xs).Success? <==> forall k :: 0 <= k < |xs| ==> f(xs[k]).Success?
    ensures Collect(f, xs).Success? ==> forall k :: 0 <= k < |xs| ==> f(xs[k]) == Success(Collect(f, xs).value[k])
  {
    if |xs| > 0 {
      var init := xs[..|xs| - 1];
      CollectPointwise(f, init);
      assert forall k :: 0 <= k < |init| ==> init[k] == xs[k];
    }
  }

  lemma PopulatedTypesStep(resolve: string -> Result<Target>, ts: seq<Type>, i: nat)
    requires i < |ts|
    ensures PopulatedTypes(resolve, ts[i..]) ==
      var h := PopulatedType(resolve, ts[i]);
      if h.Failure? then Failure(h.error) else Prepend([h.value], PopulatedTypes(resolve, ts[i + 1..]))
  {
    var rest := ts[i..];
    assert rest[0] == ts[i] && rest[1..] == ts[i + 1..];
  }

  // -------------------------------------------------------------- variables

  /** Where the first loop of a variable stops: the first entry that is already a type, or the end. */
  function FirstResolved(ts: seq<Slot>): (i: nat)
    ensures i <= |ts|
    ensures forall k :: 0 <= k < i ==> !ts[k].Obj?
    ensures i < |ts| ==> ts[i].Obj?
  {
    var j := FindIndex(ts, (s: Slot) => s.Obj?);
    if j == -1 then |ts| else j
  }

  /**
   * One entry of that loop: `resolve(type.$ref)` must give a type, since its metaType is read next
   * (`undefined` throws); an entry that is `undefined` throws on `.$ref`.
   */
  function ResolveTypeEntry(resolve: string -> Result<Target>, s: Slot): Result<Type>
  {
    match s
    case Ref(r) => TypeEntry(resolve(r))
    case _ => Failure(Graph.TYPE_ERROR)
  }

  /** What `resolve` returned, read as an entry of `referencedTypes`. */
  function TypeEntry(t: Result<Target>): Result<Type>
  {
    if t.Failure? then Failure(t.error)
    else if t.value.TType? then Success(t.value.t)
    else if t.value.TUndefined? then Failure(Graph.TYPE_ERROR)
    else Failure(NOT_A_TYPE)
  }

  /** The types the first loop collects into `referencedTypes`, in order; the first throw ends it. */
  function ResolveTypeEntries(resolve: string -> Result<Target>, ss: seq<Slot>): (r: Result<seq<Type>>)
    ensures r.Success? ==> |r.value| == |ss|
    ensures r.Success? ==> forall k :: 0 <= k < |ss| ==> ResolveTypeEntry(resolve, ss[k]) == Success(r.value[k])
    decreases |ss|
  {
    if |ss| == 0 then Success([])
    else
      var head := ResolveTypeEntry(resolve, ss[0]);
      if head.Failure? then Failure(head.error)
      else Prepend([head.value], ResolveTypeEntries(resolve, ss[1..]))
  }

  predicate HasPointerType(ts: seq<Type>)
  {
    exists k :: 0 <= k < |ts| && ts[k].metaType == POINTER_TYPE
  }

  lemma HasPointerTypeSnoc(ts: seq<Type>, t: Type)
    ensures HasPointerType(ts + [t]) <==> HasPointerType(ts) || t.metaType == POINTER_TYPE
  {
    assert forall k :: 0 <= k < |ts| ==> (ts + [t])[k] == ts[k];
    assert (ts + [t])[|ts|] == t;
  }

  lemma ResolveTypeEntriesStep(resolve: string -> Result<Target>, ss: seq<Slot>, i: nat)
    requires i < |ss|
    ensures ResolveTypeEntries(resolve, ss[i..]) ==
      var h := ResolveTypeEntry(resolve, ss[i]);
      if h.Failure? then Failure(h.error) else Prepend([h.value], ResolveTypeEntries(resolve, ss[i + 1..]))
  {
    var rest := ss[i..];
    assert rest[0] == ss[i] && rest[1..] == ss[i + 1..];
  }

  /** The capability one resolved type adds to its variable. */
  function CapabilityFor(t: Type): seq<string>
  {
    if t.metaType == PARAMETER_TYPE then [PARAMETER_CAPABILITY]
    else if t.metaType == CONNECTION_TYPE then [CONNECTION_CAPABILITY]
    else []
  }

  /** The capabilities the last loop adds, in order; an entry that is not a type throws on `getMetaType`. */
  function CapabilitiesFor(ss: seq<Slot>): (r: Result<seq<string>>)
    ensures r.Failure? ==> r.error == Graph.TYPE_ERROR
    decreases |ss|
  {
    if |ss| == 0 then Success([])
    else if !ss[0].Obj? then Failure(Graph.TYPE_ERROR)
    else Prepend(CapabilityFor(ss[0].t), CapabilitiesFor(ss[1..]))
  }

  lemma CapabilitiesForStep(ss: seq<Slot>, i: nat)
    requires i < |ss|
    ensures CapabilitiesFor(ss[i..]) ==
      if !ss[i].Obj? then Failure(Graph.TYPE_ERROR) else Prepend(CapabilityFor(ss[i].t), CapabilitiesFor(ss[i + 1..]))
  {
    var rest := ss[i..];
    assert rest[0] == ss[i] && rest[1..] == ss[i + 1..];
  }

  /**
   * The last loop as written: a connection type's `resolveConnectionValues` is the one every
   * model node inherits, whose first step tests `instanceof Instance` without `Instance` in
   * scope, so the first connection type throws a ReferenceError.
   */
  function CapabilitiesAsWritten(ss: seq<Slot>): (r: Result<seq<string>>)
    decreases |ss|
  {
    if |ss| == 0 then Success([])
    else if !ss[0].Obj? then Failure(Graph.TYPE_ERROR)
    else if ss[0].t.metaType == CONNECTION_TYPE then Failure(REFERENCE_ERROR)
    else Prepend(CapabilityFor(ss[0].t), CapabilitiesAsWritten(ss[1..]))
  }

  predicate HasConnectionType(ss: seq<Slot>)
  {
    exists k :: 0 <= k < |ss| && ss[k].Obj? && ss[k].t.metaType == CONNECTION_TYPE
  }

  lemma HasConnectionTypeStep(ss: seq<Slot>, j: nat)
    requires j < |ss|
    ensures HasConnectionType(ss[..j + 1]) <==>
      HasConnectionType(ss[..j]) || (ss[j].Obj? && ss[j].t.metaType == CONNECTION_TYPE)
  {
    assert forall k :: 0 <= k < j ==> ss[..j + 1][k] == ss[..j][k];
    assert ss[..j + 1][j] == ss[j];
  }

  /**
   * `resolveConnectionValues` as evidently intended: the first raw initial value holds ends
   * `a` and `b`, each made a pointer; a missing list, an empty one or a value without ends
   * throws a TypeError.
   */
  function ConnectionOf(v: Variable): (r: Result<Connection>)
    ensures r.Success? <==> v.initialValues.Some? && |v.initialValues.value| > 0 && v.initialValues.value[0].ends.Some?
    ensures r.Success? ==>
      r.value.a.source == v.initialValues.value[0].ends.value.a && r.value.b.source == v.initialValues.value[0].ends.value.b
    ensures r.Failure? ==> r.error == Graph.TYPE_ERROR
  {
    if v.initialValues.None? || |v.initialValues.value| == 0 || v.initialValues.value[0].ends.None? then
      Failure(Graph.TYPE_ERROR)
    else
      var ends := v.initialValues.value[0].ends.value;
      Success(Connection(Pointer(ends.a), Pointer(ends.b)))
  }

  /** The pointer built from the single initial value: a raw value is parsed, a pointer has no `value` to parse. */
  function PointerFrom(iv: InitialValue): Result<Pointer>
  {
    match iv
    case RawInitial(raw) => Success(Pointer(raw))
    case PointerTo(_) => Failure(Graph.TYPE_ERROR)
  }

  /** The pointer check: a pointer type needs exactly one initial value, from which the pointer is built. */
  function WithPointer(v: Variable, hasPointerType: bool): Result<Variable>
  {
    if !hasPointerType then Success(v)
    else if |GetInitialValues(v)| != 1 then Failure(InitialValuesExpected(v.id))
    else
      var ptr := PointerFrom(GetInitialValues(v)[0]);
      if ptr.Failure? then Failure(ptr.error) else Success(v.(pointerValue := Some(ptr.value)))
  }

  /**
   * The pointer check as written: the pointer is made with `this.createPointer`, which no
   * model node has (it is an instance method of the factory), so the one accepted case throws.
   */
  function WithPointerAsWritten(v: Variable, hasPointerType: bool): Result<Variable>
  {
    if !hasPointerType then Success(v)
    else if |GetInitialValues(v)| != 1 then Failure(InitialValuesExpected(v.id))
    else Failure(Graph.TYPE_ERROR)
  }

  /**
   * The capability loop over the variable's types, as they are after the swap; a connection
   * type also sets the variable's connection ends. Every throw in this loop is a TypeError, so
   * checking the ends after the loop gives the same result as checking them at the type.
   */
  function WithTypeCapabilities(v: Variable): Result<Variable>
  {
    var caps := CapabilitiesFor(GetTypes(v));
    if caps.Failure? then Failure(caps.error)
    else if !HasConnectionType(GetTypes(v)) then Success(v.(capabilities := v.capabilities + caps.value))
    else
      var c := ConnectionOf(v);
      if c.Failure? then Failure(c.error)
      else Success(v.(capabilities := v.capabilities + caps.value, connection := Some(c.value)))
  }

  /** The capability loop as written. */
  function WithTypeCapabilitiesAsWritten(v: Variable): Result<Variable>
  {
    var caps := CapabilitiesAsWritten(GetTypes(v));
    if caps.Failure? then Failure(caps.error)
    else Success(v.(capabilities := v.capabilities + caps.value))
  }

  /** The types `setTypes` installs: each resolved type, with a back-link to the variable. */
  function Linked(ts: seq<Type>, variablePath: string): (r: seq<Slot>)
    ensures |r| == |ts|
    ensures forall k :: 0 <= k < |ts| ==> r[k] == Obj(Types.AddVariableReference(ts[k], variablePath))
  {
    Map(ts, (t: Type) => Obj(Types.AddVariableReference(t, variablePath)))
  }

  /**
   * The variable's own part. Types are swapped for the resolved ones only when
   * no entry was already a type.
   */
  function VariableOwnPart(resolve: string -> Result<Target>, v: Variable): Result<Variable>
  {
    var ts := GetTypes(v);
    var stop := FirstResolved(ts);
    var referenced := ResolveTypeEntries(resolve, ts[..stop]);
    if referenced.Failure? then Failure(referenced.error)
    else
      var v1 := if stop == |ts| then v.(types := Linked(referenced.value, v.path)) else v;
      var v2 := WithPointer(v1, HasPointerType(referenced.value));
      if v2.Failure? then v2 else WithTypeCapabilities(v2.value)
  }

  /** The variable's own part as written, with the pointer and the connection steps that throw. */
  function VariableOwnPartAsWritten(resolve: string -> Result<Target>, v: Variable): Result<Variable>
  {
    var ts := GetTypes(v);
    var stop := FirstResolved(ts);
    var referenced := ResolveTypeEntries(resolve, ts[..stop]);
    if referenced.Failure? then Failure(referenced.error)
    else
      var v1 := if stop == |ts| then v.(types := Linked(referenced.value, v.path)) else v;
      var v2 := WithPointerAsWritten(v1, HasPointerType(referenced.value));
      if v2.Failure? then v2 else WithTypeCapabilitiesAsWritten(v2.value)
  }

  /** `populateTypeReferences` of a variable: its anonymous types first, then its own part. */
  function PopulatedVariable(resolve: string -> Result<Target>, v: Variable): Result<Variable>
    decreases v, 1
  {
    var at := PopulatedTypes(resolve, v.anonymousTypes);
    if at.Failure? then Failure(at.error) else VariableOwnPart(resolve, v.(anonymousTypes := at.value))
  }

  // ---------------------------------------------------------------- methods

  /** `resolve(ref)` stored in a type position. */
  method ResolveIntoSlot(resolve: string -> Result<Target>, ref: string) returns (r: Result<Slot>)
    ensures r == ResolveToSlot(resolve, ref)
  {
    var t := resolve(ref);
    if t.Failure? {
      return Failure(t.error);
    }
    match t.value
    case TType(ty) => r := Success(Obj(ty));
    case TUndefined => r := Success(Undef);
    case _ => r := Failure(NOT_A_TYPE);
  }

  method PopulatePosition(resolve: string -> Result<Target>, s: Slot) returns (r: Result<Slot>)
    ensures r == PopulatedPosition(resolve, s)
  {
    match s
    case Undef => r := Success(Undef);
    case Ref(ref) => r := ResolveIntoSlot(resolve, ref);
    case Obj(_) => r := Failure(Graph.TYPE_ERROR);
  }

  /** One pass of the super-type loop. */
  method PopulateSuper(resolve: string -> Result<Target>, s: Slot) returns (r: Result<Slot>)
    ensures r == PopulatedSuper(resolve, s)
  {
    match s {
      case Ref(ref) =>
        if ref != "" {
          r := ResolveIntoSlot(resolve, ref);
        } else {
          r := Success(s);
        }
      case Obj(_) => r := Success(s);
      case Undef => r := Failure(Graph.TYPE_ERROR);
    }
  }

  /** The super-type loop of Type.js and ArrayType.js: wrap a single entry, then resolve entry by entry. */
  method PopulateSuperType(resolve: string -> Result<Target>, st: SuperType) returns (r: Result<SuperType>)
    ensures r == PopulatedSuperType(resolve, st)
  {
    var entries := SuperEntries(st);
    if entries.None? {
      return Success(st);
    }
    var ss := entries.value;
    SuperTypeOfList(resolve, st, ss);
    var typeObjs := PopulateSupers(resolve, ss);
    if typeObjs.Failure? {
      return Failure(typeObjs.error);
    }
    return Success(SuperList(typeObjs.value));
  }

  /** The loop over the super-type entries: resolve each in order; the first throw ends it. */
  method PopulateSupers(resolve: string -> Result<Target>, ss: seq<Slot>) returns (r: Result<seq<Slot>>)
    ensures r == PopulatedSupers(resolve, ss)
  {
    var typeObjs: seq<Slot> := [];
    var a := 0;
    assert ss[a..] == ss;
    PrependNothing(PopulatedSupers(resolve, ss));
    while a < |ss|
      invariant 0 <= a <= |ss|
      invariant PopulatedSupers(resolve, ss) == Prepend(typeObjs, PopulatedSupers(resolve, ss[a..]))
      decreases |ss| - a
    {
      PopulatedSupersStep(resolve, ss, a);
      var next := PopulateSuper(resolve, ss[a]);
      if next.Failure? {
        return Failure(next.error);
      }
      PrependTwice(typeObjs, [next.value], PopulatedSupers(resolve, ss[a + 1..]));
      typeObjs := typeObjs + [next.value];
      a := a + 1;
    }
    assert ss[a..] == [];
    assert typeObjs + [] == typeObjs;
    return Success(typeObjs);
  }

  /** The type's own part: visual type, super types and, for an array type, element type and super types again. */
  method PopulateTypeOwnPart(resolve: string -> Result<Target>, t: Type) returns (r: Result<Type>)
    ensures r == TypeOwnPart(resolve, t)
  {
    var vt := PopulatePosition(resolve, t.visualType);
    if vt.Failure? {
      return Failure(vt.error);
    }
    var st := PopulateSuperType(resolve, t.superType);
    if st.Failure? {
      return Failure(st.error);
    }
    var t1 := t.(visualType := vt.value, superType := st.value);
    if !t1.body.ArrayOf? {
      return Success(t1);
    }
    var el := PopulatePosition(resolve, t1.body.element);
    if el.Failure? {
      return Failure(el.error);
    }
    var st2 := PopulateSuperType(resolve, t1.superType);
    if st2.Failure? {
      return Failure(st2.error);
    }
    r := Success(t1.(body := ArrayOf(el.value, t1.body.size), superType := st2.value));
  }

  /** `Type.populateTypeReferences()`. */
  method PopulateType(resolve: string -> Result<Target>, t: Type) returns (r: Result<Type>)
    ensures r == PopulatedType(resolve, t)
    decreases t, 1
  {
    var c := t;
    if t.body.Composite? || t.body.CompositeVisual? {
      var vs := PopulateVariables(resolve, t.body.variables);
      if vs.Failure? {
        return Failure(vs.error);
      }
      c := if t.body.Composite? then t.(body := Composite(vs.value))
           else t.(body := CompositeVisual(vs.value, t.body.visualGroups));
    }
    r := PopulateTypeOwnPart(resolve, c);
  }

  /** The children loop of a composite type. */
  method PopulateVariables(resolve: string -> Result<Target>, vs: seq<Variable>) returns (r: Result<seq<Variable>>)
    ensures r == PopulatedVariables(resolve, vs)
    decreases vs, 0
  {
    var done: seq<Variable> := [];
    var i := 0;
    assert vs[i..] == vs;
    PrependNothing(PopulatedVariables(resolve, vs));
    while i < |vs|
      invariant 0 <= i <= |vs|
      invariant PopulatedVariables(resolve, vs) == Prepend(done, PopulatedVariables(resolve, vs[i..]))
    {
      PopulatedVariablesStep(resolve, vs, i);
      assert vs[i] in vs;
      var next := PopulateVariable(resolve, vs[i]);
      if next.Failure? {
        return Failure(next.error);
      }
      PrependTwice(done, [next.value], PopulatedVariables(resolve, vs[i + 1..]));
      done := done + [next.value];
      i := i + 1;
    }
    assert vs[i..] == [];
    assert done + [] == done;
    return Success(done);
  }

  /** The children loop of a variable, over its anonymous types. */
  method PopulateTypes(resolve: string -> Result<Target>, ts: seq<Type>) returns (r: Result<seq<Type>>)
    ensures r == PopulatedTypes(resolve, ts)
    decreases ts, 0
  {
    var done: seq<Type> := [];
    var i := 0;
    assert ts[i..] == ts;
    PrependNothing(PopulatedTypes(resolve, ts));
    while i < |ts|
      invariant 0 <= i <= |ts|
      invariant PopulatedTypes(resolve, ts) == Prepend(done, PopulatedTypes(resolve, ts[i..]))
    {
      PopulatedTypesStep(resolve, ts, i);
      assert ts[i] in ts;
      var next := PopulateType(resolve, ts[i]);
      if next.Failure? {
        return Failure(next.error);
      }
      PrependTwice(done, [next.value], PopulatedTypes(resolve, ts[i + 1..]));
      done := done + [next.value];
      i := i + 1;
    }
    assert ts[i..] == [];
    assert done + [] == done;
    return Success(done);
  }

  /** `Variable.populateTypeReferences()`. */
  method PopulateVariable(resolve: string -> Result<Target>, v: Variable) returns (r: Result<Variable>)
    ensures r == PopulatedVariable(resolve, v)
    decreases v, 1
  {
    var at := PopulateTypes(resolve, v.anonymousTypes);
    if at.Failure? {
      return Failure(at.error);
    }
    r := PopulateVariableOwnPart(resolve, v.(anonymousTypes := at.value));
  }

  /** The first loop of the variable's own part: resolve entries until one already is a type. */
  method CollectReferencedTypes(resolve: string -> Result<Target>, ts: seq<Slot>)
      returns (r: Result<seq<Type>>, swapTypes: bool, hasPointerType: bool)
    ensures r == ResolveTypeEntries(resolve, ts[..FirstResolved(ts)])
    ensures r.Success? ==> (swapTypes <==> FirstResolved(ts) == |ts|)
    ensures r.Success? ==> (hasPointerType <==> HasPointerType(r.value))
  {
    ghost var stop := FirstResolved(ts);
    var referencedTypes: seq<Type> := [];
    hasPointerType := false;
    swapTypes := true;
    var i := 0;
    assert ts[i..stop] == ts[..stop];
    PrependNothing(ResolveTypeEntries(resolve, ts[..stop]));
    while i < |ts|
      invariant 0 <= i <= stop
      invariant swapTypes
      invariant ResolveTypeEntries(resolve, ts[..stop]) == Prepend(referencedTypes, ResolveTypeEntries(resolve, ts[i..stop]))
      invariant hasPointerType <==> HasPointerType(referencedTypes)
    {
      if ts[i].Obj? {
        swapTypes := false;
        break;
      }
      ResolveTypeEntriesStep(resolve, ts[..stop], i);
      assert ts[..stop][i..] == ts[i..stop] && ts[..stop][i + 1..] == ts[i + 1..stop];
      if ts[i].Undef? {
        return Failure(Graph.TYPE_ERROR), swapTypes, hasPointerType;
      }
      var typeObj := resolve(ts[i].ref);
      var entry := TypeEntry(typeObj);
      if entry.Failure? {
        return Failure(entry.error), swapTypes, hasPointerType;
      }
      if entry.value.metaType == POINTER_TYPE {
        hasPointerType := true;
      }
      PrependTwice(referencedTypes, [entry.value], ResolveTypeEntries(resolve, ts[i + 1..stop]));
      HasPointerTypeSnoc(referencedTypes, entry.value);
      referencedTypes := referencedTypes + [entry.value];
      i := i + 1;
    }
    assert i == stop;
    assert ts[i..stop] == [];
    assert referencedTypes + [] == referencedTypes;
    r := Success(referencedTypes);
  }

  /** The last loop: `extendApi` with the Parameter or Connection capability for each type. */
  method AddTypeCapabilities(v: Variable) returns (r: Result<Variable>)
    ensures r == WithTypeCapabilities(v)
  {
    var resolvedTypes := GetTypes(v);
    var capabilities := v.capabilities;
    var connection := v.connection;
    ghost var added: seq<string> := [];
    ghost var seen := false;
    var j := 0;
    assert resolvedTypes[j..] == resolvedTypes;
    PrependNothing(CapabilitiesFor(resolvedTypes));
    while j < |resolvedTypes|
      invariant 0 <= j <= |resolvedTypes|
      invariant CapabilitiesFor(resolvedTypes) == Prepend(added, CapabilitiesFor(resolvedTypes[j..]))
      invariant capabilities == v.capabilities + added
      invariant seen == HasConnectionType(resolvedTypes[..j])
      invariant seen ==> ConnectionOf(v).Success? && connection == Some(ConnectionOf(v).value)
      invariant !seen ==> connection == v.connection
    {
      CapabilitiesForStep(resolvedTypes, j);
      if !resolvedTypes[j].Obj? {
        CapabilitiesFailed(v);
        return Failure(Graph.TYPE_ERROR);
      }
      var t := resolvedTypes[j].t;
      ghost var seenNext := seen || t.metaType == CONNECTION_TYPE;
      SeenStep(resolvedTypes, j, seen);
      PrependTwice(added, CapabilityFor(t), CapabilitiesFor(resolvedTypes[j + 1..]));
      AppendAssoc(v.capabilities, added, CapabilityFor(t));
      if t.metaType == PARAMETER_TYPE {
        capabilities := capabilities + [PARAMETER_CAPABILITY];
      } else if t.metaType == CONNECTION_TYPE {
        capabilities := capabilities + [CONNECTION_CAPABILITY];
        // `resolveConnectionValues` reads the variable's raw initial values, which the loop leaves alone
        var ends := ConnectionOf(v);
        if ends.Failure? {
          assert resolvedTypes[j].Obj? && resolvedTypes[j].t.metaType == CONNECTION_TYPE;
          ConnectionFailed(v);
          return Failure(ends.error);
        }
        connection := Some(ends.value);
      } else {
        assert capabilities + CapabilityFor(t) == capabilities;
      }
      added := added + CapabilityFor(t);
      seen := seenNext;
      j := j + 1;
    }
    assert resolvedTypes[j..] == [];
    assert resolvedTypes[..j] == resolvedTypes;
    assert added + [] == added;
    CapabilitiesDone(v, added, connection);
    r := Success(v.(capabilities := capabilities, connection := connection));
  }

  /** One more type object seen: a connection type is among those seen so far exactly when it is now or was before. */
  lemma SeenStep(ss: seq<Slot>, j: nat, seen: bool)
    requires j < |ss| && ss[j].Obj? && seen == HasConnectionType(ss[..j])
    ensures (seen || ss[j].t.metaType == CONNECTION_TYPE) == HasConnectionType(ss[..j + 1])
  {
    HasConnectionTypeStep(ss, j);
  }

  /** A slot that is no type object makes the capability step throw. */
  lemma CapabilitiesFailed(v: Variable)
    requires CapabilitiesFor(GetTypes(v)).Failure?
    ensures WithTypeCapabilities(v) == Failure(Graph.TYPE_ERROR)
  {
  }

  /** A connection type without ends to read makes the capability step throw. */
  lemma ConnectionFailed(v: Variable)
    requires HasConnectionType(GetTypes(v)) && ConnectionOf(v).Failure?
    ensures WithTypeCapabilities(v) == Failure(Graph.TYPE_ERROR)
  {
  }

  /** Every slot a type object: the capabilities are appended, and the connection set when there is a connection type. */
  lemma CapabilitiesDone(v: Variable, caps: seq<string>, connection: Option<Connection>)
    requires CapabilitiesFor(GetTypes(v)) == Success(caps)
    requires HasConnectionType(GetTypes(v)) ==> ConnectionOf(v).Success? && connection == Some(ConnectionOf(v).value)
    requires !HasConnectionType(GetTypes(v)) ==> connection == v.connection
    ensures WithTypeCapabilities(v) == Success(v.(capabilities := v.capabilities + caps, connection := connection))
  {
    if !HasConnectionType(GetTypes(v)) {
      assert v.(capabilities := v.capabilities + caps, connection := connection) == v.(capabilities := v.capabilities + caps);
    }
  }

  /** The variable's own part: collect, swap through `setTypes`, check the pointer, add capabilities. */
  method PopulateVariableOwnPart(resolve: string -> Result<Target>, v: Variable) returns (r: Result<Variable>)
    ensures r == VariableOwnPart(resolve, v)
  {
    var ts := GetTypes(v);
    var referencedTypes, swapTypes, hasPointerType := CollectReferencedTypes(resolve, ts);
    if referencedTypes.Failure? {
      return Failure(referencedTypes.error);
    }
    var node := v;
    if swapTypes {
      node := Types.SetTypes(v, Map(referencedTypes.value, (t: Type) => Obj(t)));
      assert node.types == Linked(referencedTypes.value, v.path);
    }
    if hasPointerType {
      var initialValues := GetInitialValues(node);
      if |initialValues| != 1 {
        return Failure(InitialValuesExpected(node.id));
      }
      var pointer := PointerFrom(initialValues[0]);
      if pointer.Failure? {
        return Failure(pointer.error);
      }
      node := node.(pointerValue := Some(pointer.value));
    }
    r := AddTypeCapabilities(node);
  }

  // ----------------------------------------------------------------- lemmas

  /** Super types that are already types are kept: the super-type loop can run again without effect. */
  lemma {:induction false} ResolvedSupersKept(resolve: string -> Result<Target>, ss: seq<Slot>)
    requires forall k :: 0 <= k < |ss| ==> ss[k].Obj?
    ensures PopulatedSupers(resolve, ss) == Success(ss)
    decreases |ss|
  {
    if |ss| > 0 {
      ResolvedSupersKept(resolve, ss[1..]);
      assert [ss[0]] + ss[1..] == ss;
    }
  }

  /**
   * After the super-type pass the super type is a list, entry for entry: a type is kept, a `$ref`
   * is replaced by what it resolves to, an empty `$ref` is kept. An absent super type stays absent,
   * and so does any super type that `getSuperType()` reads as `undefined`.
   */
  lemma SuperTypeBecomesList(resolve: string -> Result<Target>, st: SuperType)
    ensures st.NoSuper? ==> PopulatedSuperType(resolve, st) == Success(NoSuper)
    ensures SuperEntries(st).None? ==> PopulatedSuperType(resolve, st) == Success(st)
    ensures st.OneSuper? && !st.s.Undef? && PopulatedSuperType(resolve, st).Success? ==>
      PopulatedSuperType(resolve, st) == Success(SuperList([PopulatedSuper(resolve, st.s).value]))
    ensures st.SuperList? && PopulatedSuperType(resolve, st).Success? ==>
      var r := PopulatedSuperType(resolve, st).value;
      r.SuperList? && |r.ss| == |st.ss| &&
      forall k :: 0 <= k < |st.ss| ==>
        (st.ss[k].Obj? ==> r.ss[k] == st.ss[k]) &&
        (st.ss[k] == Ref("") ==> r.ss[k] == st.ss[k]) &&
        (st.ss[k].Ref? && st.ss[k].ref != "" ==> Success(r.ss[k]) == ResolveToSlot(resolve, st.ss[k].ref))
  {
    if st.OneSuper? && !st.s.Undef? && PopulatedSuperType(resolve, st).Success? {
      var r := PopulatedSupers(resolve, [st.s]);
      assert r.value == [r.value[0]];
    }
  }

  /**
   * An array type runs the super-type pass twice; when the first pass leaves only types, or
   * a single `undefined` that `getSuperType()` reads as no super type, the second one changes nothing.
   */
  lemma ArraySecondSuperPassKeeps(resolve: string -> Result<Target>, t: Type, xs: seq<Slot>)
    requires t.body.ArrayOf?
    requires PopulatedSuperType(resolve, t.superType) == Success(SuperList(xs))
    requires (forall k :: 0 <= k < |xs| ==> xs[k].Obj?) || xs == [Undef]
    ensures TypeOwnPart(resolve, t).Success? ==> TypeOwnPart(resolve, t).value.superType == SuperList(xs)
  {
    if xs != [Undef] {
      ResolvedSupersKept(resolve, xs);
    }
  }

  /**
   * An array type whose single super `$ref` resolves to `undefined` is populated exactly as a
   * plain type with that super type: the second pass skips the `[undefined]` the first left.
   */
  lemma ArrayUndefinedSuperKept(resolve: string -> Result<Target>, t: Type, r: string)
    requires t.body.ArrayOf? && t.superType == OneSuper(Ref(r)) && r != "" && resolve(r) == Success(TUndefined)
    ensures TypeOwnPart(resolve, t).Success? <==>
      PopulatedPosition(resolve, t.visualType).Success? && PopulatedPosition(resolve, t.body.element).Success?
    ensures TypeOwnPart(resolve, t).Success? ==> TypeOwnPart(resolve, t).value.superType == SuperList([Undef])
  {
    assert PopulatedSupers(resolve, [Ref(r)]) == Success([Undef]) by {
      assert PopulatedSuper(resolve, Ref(r)) == Success(Undef);
      assert PopulatedSupers(resolve, [Ref(r)][1..]) == Success([]);
      assert [Undef] + [] == [Undef];
    }
  }

  /** A visual type that is already a type makes `populateTypeReferences` throw. */
  lemma ResolvedVisualTypeThrows(resolve: string -> Result<Target>, t: Type)
    requires t.visualType.Obj?
    ensures PopulatedType(resolve, t).Failure?
  {
  }

  /** A populated type's visual type is its populated visual position. */
  lemma PopulatedTypeVisual(resolve: string -> Result<Target>, t: Type)
    ensures PopulatedType(resolve, t).Success? ==>
      PopulatedPosition(resolve, t.visualType).Success? &&
      PopulatedType(resolve, t).value.visualType == PopulatedPosition(resolve, t.visualType).value
  {
    match t.body
    case Composite(vs) =>
      var r := PopulatedVariables(resolve, vs);
      if r.Success? {
        assert PopulatedType(resolve, t) == TypeOwnPart(resolve, t.(body := Composite(r.value)));
      }
    case CompositeVisual(vs, gs) =>
      var r := PopulatedVariables(resolve, vs);
      if r.Success? {
        assert PopulatedType(resolve, t) == TypeOwnPart(resolve, t.(body := CompositeVisual(r.value, gs)));
      }
    case _ =>
      assert PopulatedType(resolve, t) == TypeOwnPart(resolve, t);
  }

  /** So a type whose visual type was resolved to a type cannot be populated a second time. */
  lemma VisualTypeResolvedOnce(resolve: string -> Result<Target>, t: Type, t': Type)
    requires PopulatedType(resolve, t) == Success(t')
    requires t.visualType.Ref? && ResolveToSlot(resolve, t.visualType.ref).Success?
    requires ResolveToSlot(resolve, t.visualType.ref).value.Obj?
    ensures t'.visualType == ResolveToSlot(resolve, t.visualType.ref).value
    ensures PopulatedType(resolve, t').Failure?
  {
    PopulatedTypeVisual(resolve, t);
    ResolvedVisualTypeThrows(resolve, t');
  }

  /** The capability loop succeeds exactly when every type is resolved, and adds one id per parameter or connection type. */
  lemma {:induction false} CapabilitiesForMeans(ss: seq<Slot>)
    ensures CapabilitiesFor(ss).Success? <==> forall k :: 0 <= k < |ss| ==> ss[k].Obj?
    ensures CapabilitiesFor(ss).Success? ==>
      var caps := CapabilitiesFor(ss).value;
      (PARAMETER_CAPABILITY in caps <==> exists k :: 0 <= k < |ss| && ss[k].t.metaType == PARAMETER_TYPE) &&
      (CONNECTION_CAPABILITY in caps <==> exists k :: 0 <= k < |ss| && ss[k].t.metaType == CONNECTION_TYPE) &&
      (forall c :: c in caps ==> c == PARAMETER_CAPABILITY || c == CONNECTION_CAPABILITY)
    decreases |ss|
  {
    if |ss| > 0 {
      CapabilitiesForMeans(ss[1..]);
      assert forall k :: 1 <= k < |ss| ==> ss[k] == ss[1..][k - 1];
      if CapabilitiesFor(ss).Success? {
        var rest := CapabilitiesFor(ss[1..]).value;
        var tail := ss[1..];
        assert CapabilitiesFor(ss).value == CapabilityFor(ss[0].t) + rest;
        assert (exists k :: 0 <= k < |ss| && ss[k].t.metaType == PARAMETER_TYPE) <==>
          ss[0].t.metaType == PARAMETER_TYPE || exists k :: 0 <= k < |tail| && tail[k].t.metaType == PARAMETER_TYPE;
        assert (exists k :: 0 <= k < |ss| && ss[k].t.metaType == CONNECTION_TYPE) <==>
          ss[0].t.metaType == CONNECTION_TYPE || exists k :: 0 <= k < |tail| && tail[k].t.metaType == CONNECTION_TYPE;
      }
    }
  }

  /** A variable whose first type is already resolved keeps its types and its pointer: nothing is resolved again. */
  lemma ResolvedTypesKept(resolve: string -> Result<Target>, v: Variable)
    requires |GetTypes(v)| > 0 && GetTypes(v)[0].Obj?
    ensures PopulatedVariable(resolve, v).Success? ==>
      PopulatedVariable(resolve, v).value.types == v.types &&
      PopulatedVariable(resolve, v).value.pointerValue == v.pointerValue
  {
    var at := PopulatedTypes(resolve, v.anonymousTypes);
    if at.Success? {
      var v1 := v.(anonymousTypes := at.value);
      assert GetTypes(v1)[0].Obj?;
      assert FirstResolved(GetTypes(v1)) == 0;
    }
  }

  /** After a successful populate every type of the variable is a resolved type. */
  lemma PopulatedTypesResolved(resolve: string -> Result<Target>, v: Variable)
    requires PopulatedVariable(resolve, v).Success?
    ensures forall k :: 0 <= k < |GetTypes(PopulatedVariable(resolve, v).value)| ==>
      GetTypes(PopulatedVariable(resolve, v).value)[k].Obj?
  {
    var at := PopulatedTypes(resolve, v.anonymousTypes);
    var v1 := v.(anonymousTypes := at.value);
    assert PopulatedVariable(resolve, v) == VariableOwnPart(resolve, v1);
    OwnPartResolved(resolve, v1);
  }

  /** After its own part, every type of a variable is a type object. */
  lemma OwnPartResolved(resolve: string -> Result<Target>, v: Variable)
    requires VariableOwnPart(resolve, v).Success?
    ensures var w := VariableOwnPart(resolve, v).value;
      forall k :: 0 <= k < |GetTypes(w)| ==> GetTypes(w)[k].Obj?
  {
    var ts := GetTypes(v);
    var referenced := ResolveTypeEntries(resolve, ts[..FirstResolved(ts)]);
    var v2 := if FirstResolved(ts) == |ts| then v.(types := Linked(referenced.value, v.path)) else v;
    var p := WithPointer(v2, HasPointerType(referenced.value));
    assert VariableOwnPart(resolve, v) == WithTypeCapabilities(p.value);
    TypeCapabilitiesAdded(p.value);
    CapabilitiesForMeans(GetTypes(p.value));
    assert GetTypes(VariableOwnPart(resolve, v).value) == GetTypes(p.value);
  }

  /** Population of a variable is one-shot: populating the result again leaves its types and pointer as they are. */
  lemma PopulateOnce(resolve: string -> Result<Target>, v: Variable)
    requires PopulatedVariable(resolve, v).Success?
    requires |GetTypes(PopulatedVariable(resolve, v).value)| > 0
    ensures var w := PopulatedVariable(resolve, v).value;
      PopulatedVariable(resolve, w).Success? ==>
        PopulatedVariable(resolve, w).value.types == w.types &&
        PopulatedVariable(resolve, w).value.pointerValue == w.pointerValue
  {
    PopulatedTypesResolved(resolve, v);
    ResolvedTypesKept(resolve, PopulatedVariable(resolve, v).value);
  }

  /**
   * With no type resolved yet, the variable's types become the resolved types, in order, each
   * listing the variable among its references; capabilities follow the resolved metaTypes.
   */
  lemma UnresolvedTypesSwapped(resolve: string -> Result<Target>, v: Variable, rs: seq<Type>)
    requires FirstResolved(GetTypes(v)) == |GetTypes(v)|
    requires ResolveTypeEntries(resolve, GetTypes(v)) == Success(rs)
    ensures VariableOwnPart(resolve, v).Success? ==>
      var w := VariableOwnPart(resolve, v).value;
      w.types == Linked(rs, v.path) &&
      (forall k :: 0 <= k < |rs| ==> w.types[k].t.variableReferences == rs[k].variableReferences + [v.path]) &&
      (PARAMETER_CAPABILITY in w.capabilities <==>
        PARAMETER_CAPABILITY in v.capabilities || exists k :: 0 <= k < |rs| && rs[k].metaType == PARAMETER_TYPE)
  {
    var ts := GetTypes(v);
    assert ts[..|ts|] == ts;
    var v1 := v.(types := Linked(rs, v.path));
    var p := WithPointer(v1, HasPointerType(rs));
    assert VariableOwnPart(resolve, v) == if p.Failure? then p else WithTypeCapabilities(p.value);
    if VariableOwnPart(resolve, v).Success? {
      var v2 := p.value;
      PointerKeepsTypes(v1, HasPointerType(rs));
      TypeCapabilitiesAdded(v2);
      assert GetTypes(v2) == Linked(rs, v.path);
      LinkedParameter(rs, v.path);
    }
  }

  /** The linked types give the parameter capability exactly when one of the resolved types is a parameter type. */
  lemma LinkedParameter(rs: seq<Type>, variablePath: string)
    ensures var caps := CapabilitiesFor(Linked(rs, variablePath));
      caps.Success? && (PARAMETER_CAPABILITY in caps.value <==> exists k :: 0 <= k < |rs| && rs[k].metaType == PARAMETER_TYPE)
  {
    var l := Linked(rs, variablePath);
    assert forall k :: 0 <= k < |l| ==> l[k].Obj? && l[k].t.metaType == rs[k].metaType;
    CapabilitiesForMeans(l);
  }

  /** The pointer step changes neither the types nor the capabilities. */
  lemma PointerKeepsTypes(v: Variable, hasPointerType: bool)
    ensures WithPointer(v, hasPointerType).Success? ==>
      WithPointer(v, hasPointerType).value.types == v.types &&
      WithPointer(v, hasPointerType).value.anonymousTypes == v.anonymousTypes &&
      WithPointer(v, hasPointerType).value.capabilities == v.capabilities &&
      WithPointer(v, hasPointerType).value.id == v.id && WithPointer(v, hasPointerType).value.path == v.path
  {
  }

  /** The capability step keeps the types and appends the capabilities of the types. */
  lemma TypeCapabilitiesAdded(v: Variable)
    ensures WithTypeCapabilities(v).Success? ==>
      CapabilitiesFor(GetTypes(v)).Success? &&
      WithTypeCapabilities(v).value.types == v.types &&
      WithTypeCapabilities(v).value.anonymousTypes == v.anonymousTypes &&
      WithTypeCapabilities(v).value.id == v.id && WithTypeCapabilities(v).value.path == v.path &&
      WithTypeCapabilities(v).value.pointerValue == v.pointerValue &&
      WithTypeCapabilities(v).value.capabilities == v.capabilities + CapabilitiesFor(GetTypes(v)).value
    ensures WithTypeCapabilities(v).Failure? ==> WithTypeCapabilities(v).error == Graph.TYPE_ERROR
  {
    var caps := CapabilitiesFor(GetTypes(v));
    if caps.Success? && HasConnectionType(GetTypes(v)) {
      var c := ConnectionOf(v);
      if c.Success? {
        var w := v.(capabilities := v.capabilities + caps.value, connection := Some(c.value));
        assert WithTypeCapabilities(v) == Success(w);
        assert w.types == v.types && w.anonymousTypes == v.anonymousTypes && w.pointerValue == v.pointerValue;
        assert w.id == v.id && w.path == v.path;
      } else {
        assert WithTypeCapabilities(v) == Failure(c.error);
      }
    } else if caps.Success? {
      var w := v.(capabilities := v.capabilities + caps.value);
      assert WithTypeCapabilities(v) == Success(w);
      assert w.types == v.types && w.anonymousTypes == v.anonymousTypes && w.pointerValue == v.pointerValue;
      assert w.id == v.id && w.path == v.path;
    } else {
      assert WithTypeCapabilities(v) == Failure(caps.error);
    }
  }

  /** A pointer-typed variable without exactly one initial value throws "Initial values expected". */
  lemma PointerNeedsOneInitialValue(resolve: string -> Result<Target>, v: Variable, rs: seq<Type>)
    requires ResolveTypeEntries(resolve, GetTypes(v)[..FirstResolved(GetTypes(v))]) == Success(rs)
    requires HasPointerType(rs)
    requires |GetInitialValues(v)| != 1
    ensures VariableOwnPart(resolve, v) == Failure(InitialValuesExpected(v.id))
  {
  }

  /** As written, the pointer check lets the one-initial-value case through and then throws on `this.createPointer`. */
  lemma PointerVariableThrowsAsWritten(resolve: string -> Result<Target>, v: Variable, rs: seq<Type>)
    requires ResolveTypeEntries(resolve, GetTypes(v)[..FirstResolved(GetTypes(v))]) == Success(rs)
    requires HasPointerType(rs)
    requires |GetInitialValues(v)| == 1
    ensures VariableOwnPartAsWritten(resolve, v) == Failure(Graph.TYPE_ERROR)
  {
  }

  /**
   * As intended, a pointer-typed variable with one raw initial value gets the pointer parsed
   * from it, and whatever still throws afterwards is a TypeError of the capability loop.
   */
  lemma PointerBuilt(resolve: string -> Result<Target>, v: Variable, rs: seq<Type>)
    requires ResolveTypeEntries(resolve, GetTypes(v)[..FirstResolved(GetTypes(v))]) == Success(rs)
    requires HasPointerType(rs)
    requires v.pointerValue.None? && v.initialValues.Some? && |v.initialValues.value| == 1
    ensures var r := VariableOwnPart(resolve, v);
      (r.Success? ==> r.value.pointerValue == Some(Pointer(v.initialValues.value[0]))) &&
      (r.Failure? ==> r.error == Graph.TYPE_ERROR)
  {
    var ts := GetTypes(v);
    var v1 := if FirstResolved(ts) == |ts| then v.(types := Linked(rs, v.path)) else v;
    assert GetInitialValues(v1) == GetInitialValues(v) && GetInitialValues(v)[0] == RawInitial(v.initialValues.value[0]);
    var p := WithPointer(v1, true);
    assert p == Success(v1.(pointerValue := Some(Pointer(v.initialValues.value[0]))));
    assert VariableOwnPart(resolve, v) == WithTypeCapabilities(p.value);
    TypeCapabilitiesAdded(p.value);
  }

  /** As written, the capability loop over resolved types throws a ReferenceError once it meets a connection type. */
  lemma {:induction false} ConnectionThrowsAsWritten(ss: seq<Slot>)
    requires forall k :: 0 <= k < |ss| ==> ss[k].Obj?
    requires HasConnectionType(ss)
    ensures CapabilitiesAsWritten(ss) == Failure(REFERENCE_ERROR)
    decreases |ss|
  {
    if ss[0].t.metaType != CONNECTION_TYPE {
      var k :| 0 < k < |ss| && ss[k].Obj? && ss[k].t.metaType == CONNECTION_TYPE;
      assert ss[1..][k - 1] == ss[k];
      ConnectionThrowsAsWritten(ss[1..]);
    }
  }

  /** Without a connection type the as-written loop is the intended one. */
  lemma {:induction false} CapabilitiesAsWrittenAgree(ss: seq<Slot>)
    requires !HasConnectionType(ss)
    ensures CapabilitiesAsWritten(ss) == CapabilitiesFor(ss)
    decreases |ss|
  {
    if |ss| > 0 && ss[0].Obj? {
      assert forall k :: 0 <= k < |ss[1..]| ==> ss[1..][k] == ss[k + 1];
      CapabilitiesAsWrittenAgree(ss[1..]);
    }
  }

  /** As written, a variable whose types are resolved and include a connection type cannot be populated. */
  lemma ConnectionVariableThrowsAsWritten(resolve: string -> Result<Target>, v: Variable)
    requires |GetTypes(v)| > 0
    requires forall k :: 0 <= k < |GetTypes(v)| ==> GetTypes(v)[k].Obj?
    requires HasConnectionType(GetTypes(v))
    ensures VariableOwnPartAsWritten(resolve, v) == Failure(REFERENCE_ERROR)
  {
    var ts := GetTypes(v);
    assert FirstResolved(ts) == 0;
    assert ts[..0] == [];
    ConnectionThrowsAsWritten(ts);
  }

  /**
   * As intended, the capability loop over resolved types that include a connection type
   * succeeds exactly when the first initial value has both ends, and then sets the connection
   * to the two pointers and adds the connection capability.
   */
  lemma ConnectionResolved(v: Variable)
    requires forall k :: 0 <= k < |GetTypes(v)| ==> GetTypes(v)[k].Obj?
    requires HasConnectionType(GetTypes(v))
    ensures WithTypeCapabilities(v).Success? <==>
      v.initialValues.Some? && |v.initialValues.value| > 0 && v.initialValues.value[0].ends.Some?
    ensures WithTypeCapabilities(v).Success? ==>
      var ends := v.initialValues.value[0].ends.value;
      WithTypeCapabilities(v).value.connection == Some(Connection(Pointer(ends.a), Pointer(ends.b))) &&
      CONNECTION_CAPABILITY in WithTypeCapabilities(v).value.capabilities
  {
    CapabilitiesForMeans(GetTypes(v));
  }

  /** A `$ref` that cannot be resolved to a type, met before any resolved entry, makes the variable's populate throw. */
  lemma UnresolvableTypeThrows(resolve: string -> Result<Target>, v: Variable, k: nat)
    requires k < FirstResolved(GetTypes(v))
    requires ResolveTypeEntry(resolve, GetTypes(v)[k]).Failure?
    ensures VariableOwnPart(resolve, v).Failure?
  {
    var ts := GetTypes(v);
    assert ts[..FirstResolved(ts)][k] == ts[k];
  }

  /** Populating a variable changes what it refers to, never which variable it is. */
  lemma PopulatedVariableKeepsPath(resolve: string -> Result<Target>, v: Variable)
    ensures var r := PopulatedVariable(resolve, v);
      r.Success? ==> r.value.id == v.id && r.value.path == v.path
  {
    var at := PopulatedTypes(resolve, v.anonymousTypes);
    if at.Success? {
      var v1 := v.(anonymousTypes := at.value);
      assert PopulatedVariable(resolve, v) == VariableOwnPart(resolve, v1);
      var ts := GetTypes(v1);
      var referenced := ResolveTypeEntries(resolve, ts[..FirstResolved(ts)]);
      if referenced.Success? {
        var v2 := if FirstResolved(ts) == |ts| then v1.(types := Linked(referenced.value, v1.path)) else v1;
        var p := WithPointer(v2, HasPointerType(referenced.value));
        PointerKeepsTypes(v2, HasPointerType(referenced.value));
        if p.Success? {
          assert VariableOwnPart(resolve, v1) == WithTypeCapabilities(p.value);
          TypeCapabilitiesAdded(p.value);
        }
      }
    }
  }

  /** Populating a type changes what it refers to, never which type it is. */
  lemma PopulatedTypeKeepsPath(resolve: string -> Result<Target>, t: Type)
    ensures var r := PopulatedType(resolve, t);
      r.Success? ==> r.value.id == t.id && r.value.path == t.path && r.value.metaType == t.metaType
  {
  }
}
