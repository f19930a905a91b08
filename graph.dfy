/**
 * The built geppetto model graph: types in their variants (plain, composite,
 * composite-visual, array, import), variables, visual groups, and the
 * read-only queries the client offers on them.
 *
 * A reference that still has to be resolved is a `Ref` slot holding the raw
 * `$ref` string; a resolved one holds the type it points to.
 */
module Graph {
  import opened Wrappers
  import opened Meta
  import opened Seqs

  /** A type position: a raw `{$ref}` still to resolve, a resolved type, or `undefined`. */
  datatype Slot = Ref(ref: string) | Obj(t: Type) | Undef

  /** The `superType` field: absent, a single raw entry, or a list. */
  datatype SuperType = NoSuper | OneSuper(s: Slot) | SuperList(ss: seq<Slot>)

  /** The class-specific part of a type. */
  datatype Body =
    | Plain
    | Composite(variables: seq<Variable>)
    | CompositeVisual(variables: seq<Variable>, visualGroups: seq<VisualGroup>)
    | ArrayOf(element: Slot, size: int)

  datatype Type = Type(
    id: string,
    name: string,
    metaType: string,
    path: string,
    superType: SuperType,
    visualType: Slot,
    capabilities: seq<string>,
    tags: seq<string>,
    variableReferences: seq<string>,
    importIndex: Option<nat>,
    overrideType: Option<Type>,
    body: Body)

  /**
   * A raw initial value; `eClass` tells pointers from plain values. A connection's value
   * holds its two ends, `a` and `b`, each a raw pointer.
   */
  datatype RawValue = RawValue(eClass: string, text: string, ends: Option<Ends>)
  datatype Ends = Ends(a: RawValue, b: RawValue)

  /** A pointer built from a raw pointer value. */
  datatype Pointer = Pointer(source: RawValue)

  /** The two ends a connection variable's initial value is parsed into. */
  datatype Connection = Connection(a: Pointer, b: Pointer)

  datatype InitialValue = RawInitial(raw: RawValue) | PointerTo(p: Pointer)

  datatype Variable = Variable(
    id: string,
    name: string,
    path: string,
    isStatic: bool,
    types: seq<Slot>,
    anonymousTypes: seq<Type>,
    capabilities: seq<string>,
    initialValues: Option<seq<RawValue>>,
    values: seq<RawValue>,
    pointerValue: Option<Pointer>,
    connection: Option<Connection>)

  datatype VisualGroup = VisualGroup(id: string, name: string, elements: seq<string>, tags: seq<string>)

  /** A child of a composite-visual type. */
  datatype Member = MVariable(v: Variable) | MGroup(g: VisualGroup)

  /** The getter convention `list.length === 1 ? list[0] : list`. */
  function Sole<T>(xs: seq<T>): (r: OneOrMany<T>)
    ensures r.One? <==> |xs| == 1
    ensures r.One? ==> r.item == xs[0]
    ensures r.Many? ==> r.items == xs
  {
    if |xs| == 1 then One(xs[0]) else Many(xs)
  }

  /** The types of a variable: the referenced ones first, then the anonymous ones. */
  function GetTypes(v: Variable): (r: seq<Slot>)
    ensures |r| == |v.types| + |v.anonymousTypes|
    ensures r[..|v.types|] == v.types
    ensures forall j :: 0 <= j < |v.anonymousTypes| ==> r[|v.types| + j] == Obj(v.anonymousTypes[j])
  {
    v.types + Map(v.anonymousTypes, (t: Type) => Obj(t))
  }

  function GetType(v: Variable): OneOrMany<Slot>
  {
    Sole(GetTypes(v))
  }

  lemma GetTypeShape(v: Variable)
    ensures GetType(v).One? <==> |v.types| + |v.anonymousTypes| == 1
    ensures |v.types| == 1 && |v.anonymousTypes| == 0 ==> GetType(v) == One(v.types[0])
    ensures |v.types| == 0 && |v.anonymousTypes| == 1 ==> GetType(v) == One(Obj(v.anonymousTypes[0]))
  {
  }

  function GetValue(v: Variable): OneOrMany<RawValue>
  {
    Sole(v.values)
  }

  /** `[pointerValue]` once a pointer is set, else the raw initial values or `[]`. */
  function GetInitialValues(v: Variable): (r: seq<InitialValue>)
    ensures v.pointerValue.Some? ==> r == [PointerTo(v.pointerValue.value)]
    ensures v.pointerValue.None? && v.initialValues.None? ==> r == []
    ensures v.pointerValue.None? && v.initialValues.Some? ==>
      |r| == |v.initialValues.value| &&
      forall k :: 0 <= k < |r| ==> r[k] == RawInitial(v.initialValues.value[k])
  {
    if v.pointerValue.Some? then [PointerTo(v.pointerValue.value)]
    else if v.initialValues.None? then []
    else Map(v.initialValues.value, (x: RawValue) => RawInitial(x))
  }

  /** The contained children of a variable are its anonymous types. */
  function VariableChildren(v: Variable): seq<Type>
  {
    v.anonymousTypes
  }

  /** `getSuperType`: a one-element list is unwrapped, anything else is returned as stored. */
  function GetSuperType(t: Type): (r: Option<OneOrMany<Slot>>)
    ensures t.superType.NoSuper? <==> r.None?
    ensures t.superType.OneSuper? ==> r == Some(One(t.superType.s))
    ensures t.superType.SuperList? ==> r == Some(Sole(t.superType.ss))
  {
    match t.superType
    case NoSuper => None
    case OneSuper(s) => Some(One(s))
    case SuperList(ss) => Some(Sole(ss))
  }

  predicate IsCompositeClass(t: Type)
  {
    t.body.Composite? || t.body.CompositeVisual?
  }

  /** `getVariables` of a composite (or composite-visual) type. */
  function GetVariables(t: Type): seq<Variable>
    requires IsCompositeClass(t)
  {
    t.body.variables
  }

  /** `getChildren` of a composite-visual type: its variables, then its visual groups. */
  function CompositeVisualChildren(t: Type): (r: seq<Member>)
    requires t.body.CompositeVisual?
    ensures |r| == |t.body.variables| + |t.body.visualGroups|
    ensures forall k :: 0 <= k < |t.body.variables| ==> r[k] == MVariable(t.body.variables[k])
    ensures forall k :: 0 <= k < |t.body.visualGroups| ==>
      r[|t.body.variables| + k] == MGroup(t.body.visualGroups[k])
  {
    Map(t.body.variables, (v: Variable) => MVariable(v)) +
    Map(t.body.visualGroups, (g: VisualGroup) => MGroup(g))
  }

  /** The metaType `variable.getType().getMetaType()` reads, defined when the variable has one resolved type. */
  function SoleMetaType(v: Variable): Option<string>
  {
    var ts := GetTypes(v);
    if |ts| == 1 && ts[0].Obj? then Some(ts[0].t.metaType) else None
  }

  /** What the client throws when it calls a method on `undefined` or on an object without it. */
  const TYPE_ERROR: string := "TypeError"

  /** `variable.getType()` and `getMetaType()` can be called without a TypeError. */
  predicate SingleTyped(v: Variable)
  {
    SoleMetaType(v).Some?
  }

  predicate IsConnectionVariable(v: Variable)
  {
    SoleMetaType(v) == Some(CONNECTION_TYPE)
  }

  /** `hasVariable(id)`: scans every variable and reports whether one has that id. */
  method HasVariable(t: Type, id: string) returns (found: bool)
    requires IsCompositeClass(t)
    ensures found <==> exists k :: 0 <= k < |GetVariables(t)| && GetVariables(t)[k].id == id
  {
    var vars := GetVariables(t);
    found := false;
    var i := 0;
    while i < |vars|
      invariant 0 <= i <= |vars|
      invariant found <==> exists k :: 0 <= k < i && vars[k].id == id
    {
      if vars[i].id == id {
        found := true;
      }
      i := i + 1;
    }
  }

  /**
   * `getConnections()`: the variables whose single type is a connection type, in order.
   * `variable.getType().getMetaType()` throws a TypeError on the first variable that has
   * no type, several types, or a type still held as a `$ref`.
   */
  method GetConnections(t: Type) returns (r: Result<seq<Variable>>)
    requires IsCompositeClass(t)
    ensures r.Failure? <==> !AllSingleTyped(GetVariables(t))
    ensures r.Failure? ==> r.error == TYPE_ERROR
    ensures r.Success? ==> r.value == Filter(GetVariables(t), IsConnectionVariable)
  {
    r := ConnectionVariables(GetVariables(t));
  }

  /** The loop of `getConnections` over a list of variables. */
  method ConnectionVariables(vars: seq<Variable>) returns (r: Result<seq<Variable>>)
    ensures r.Failure? <==> !AllSingleTyped(vars)
    ensures r.Failure? ==> r.error == TYPE_ERROR
    ensures r.Success? ==> r.value == Filter(vars, IsConnectionVariable)
  {
    var conns := [];
    var i := 0;
    while i < |vars|
      invariant 0 <= i <= |vars|
      invariant conns == Filter(vars[..i], IsConnectionVariable)
      invariant AllSingleTyped(vars[..i])
    {
      if !SingleTyped(vars[i]) {
        assert !AllSingleTyped(vars);
        return Failure(TYPE_ERROR);
      }
      AllSingleTypedSnoc(vars, i);
      FilterPrefixStep(vars, i, IsConnectionVariable);
      if IsConnectionVariable(vars[i]) {
        conns := conns + [vars[i]];
      }
      i := i + 1;
    }
    assert vars[..i] == vars;
    return Success(conns);
  }

  predicate AllSingleTyped(vs: seq<Variable>)
  {
    forall k :: 0 <= k < |vs| ==> SingleTyped(vs[k])
  }

  lemma AllSingleTypedSnoc(vs: seq<Variable>, i: nat)
    requires i < |vs| && AllSingleTyped(vs[..i]) && SingleTyped(vs[i])
    ensures AllSingleTyped(vs[..i + 1])
  {
    assert forall k :: 0 <= k < i ==> vs[..i + 1][k] == vs[..i][k];
  }

  /** What `getConnections` returns: exactly the connection variables. */
  lemma ConnectionsExact(t: Type)
    requires IsCompositeClass(t)
    ensures forall v :: v in Filter(GetVariables(t), IsConnectionVariable) <==>
      v in GetVariables(t) && IsConnectionVariable(v)
  {
    FilterComplete(GetVariables(t), IsConnectionVariable);
  }
}
