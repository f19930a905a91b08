/**
 * `InstanceFactory.buildInstanceHierarchy` as a function of the instance tree: for the first
 * id of a dotted path it finds the variable, reuses the instance already at that path or
 * creates one (an array instance with its elements, or a plain instance), tags what it
 * creates with capabilities, attaches it, and recurses on the rest of the path.
 *
 * A thrown exception ends the whole build; what was changed before it stays changed, which
 * is why every result is an `Outcome`: the tree reached, and what was thrown, if anything.
 */
module InstanceBuild {
  import opened Wrappers
  import opened Meta
  import opened Graph
  import opened Strings
  import opened InstanceTree
  import Types

  // ------------------------------------------------------------ STEP 1: the variable

  /** Where the first id is looked up: the model's variables, or the types of a variable. */
  datatype Scope = ModelScope | VariableScope(v: Variable)

  /** The first variable with that id, if any. */
  function FirstWithId(vs: seq<Variable>, id: string): (r: Option<Variable>)
    ensures r.None? <==> forall k :: 0 <= k < |vs| ==> vs[k].id != id
    ensures r.Some? ==> exists k :: (0 <= k < |vs| && vs[k] == r.value && r.value.id == id &&
      forall j :: 0 <= j < k ==> vs[j].id != id)
  {
    if |vs| == 0 then None
    else if vs[0].id == id then Some(vs[0])
    else
      var r := FirstWithId(vs[1..], id);
      if r.Some? then
        var k :| 0 <= k < |vs[1..]| && vs[1..][k] == r.value && r.value.id == id &&
          forall j :: 0 <= j < k ==> vs[1..][j].id != id;
        assert vs[k + 1] == r.value;
        r
      else r
  }

  /**
   * The types searched under a variable: its types, plus the element type when its only
   * type is an array type. Reading the metaType of a raw or missing slot throws.
   */
  function ScopeTypes(m: Variable): (r: Result<seq<Slot>>)
    ensures r.Success? ==> GetTypes(m) <= r.value
    ensures r.Success? && |r.value| != |GetTypes(m)| ==>
      |GetTypes(m)| == 1 && GetTypes(m)[0].Obj? && GetTypes(m)[0].t.metaType == ARRAY_TYPE &&
      GetTypes(m)[0].t.body.ArrayOf? && r.value == GetTypes(m) + [GetTypes(m)[0].t.body.element]
  {
    var ts := GetTypes(m);
    if |ts| != 1 then Success(ts)
    else if !ts[0].Obj? then Failure(Graph.TYPE_ERROR)
    else if ts[0].t.metaType != ARRAY_TYPE then Success(ts)
    else if !ts[0].t.body.ArrayOf? then Failure(Graph.TYPE_ERROR)
    else Success(ts + [ts[0].t.body.element])
  }

  /** A slot holding a composite type (by metaType) that has the variable among its own. */
  predicate HoldsVariable(s: Slot, v: Variable)
  {
    s.Obj? && s.t.metaType == COMPOSITE_TYPE && IsCompositeClass(s.t) && v in s.t.body.variables
  }

  /**
   * The search of those types: only composite types are searched, in order, each for
   * its first variable with the id; the search stops at the first type that has one.
   * Every slot read before that must be a resolved type.
   */
  function VariableInTypes(ts: seq<Slot>, id: string): (r: Result<Option<Variable>>)
    ensures r.Success? && r.value.Some? ==> (r.value.value.id == id &&
      exists k :: 0 <= k < |ts| && HoldsVariable(ts[k], r.value.value))
    ensures r == Success(None) ==> forall k :: 0 <= k < |ts| ==> (ts[k].Obj? &&
      (ts[k].t.metaType == COMPOSITE_TYPE ==> (IsCompositeClass(ts[k].t) &&
        forall j :: 0 <= j < |ts[k].t.body.variables| ==> ts[k].t.body.variables[j].id != id)))
    ensures (forall k :: 0 <= k < |ts| ==> ts[k].Obj? && ts[k].t.metaType != COMPOSITE_TYPE) ==> r == Success(None)
  {
    if |ts| == 0 then Success(None)
    else if !ts[0].Obj? then Failure(Graph.TYPE_ERROR)
    else if ts[0].t.metaType != COMPOSITE_TYPE then
      var r := VariableInTypes(ts[1..], id);
      if r.Success? && r.value.Some? then
        var k :| 0 <= k < |ts[1..]| && HoldsVariable(ts[1..][k], r.value.value);
        assert HoldsVariable(ts[k + 1], r.value.value);
        r
      else r
    else if !IsCompositeClass(ts[0].t) then Failure(Graph.TYPE_ERROR)
    else
      var f := FirstWithId(ts[0].t.body.variables, id);
      if f.Some? then Success(f)
      else
        var r := VariableInTypes(ts[1..], id);
        if r.Success? && r.value.Some? then
          var k :| 0 <= k < |ts[1..]| && HoldsVariable(ts[1..][k], r.value.value);
          assert HoldsVariable(ts[k + 1], r.value.value);
          r
        else r
  }

  /**
   * STEP 1 of the builder. In the model scope: the first of the model's variables with
   * the id. In a variable's scope: the search of its types; when that finds nothing under
   * an array instance, the element's variable is the array variable itself.
   */
  function FindVariable(vars: seq<Variable>, id: string, scope: Scope, parentIsArray: bool): (r: Result<Option<Variable>>)
    ensures scope.ModelScope? ==> r == Success(FirstWithId(vars, id))
    ensures scope.VariableScope? && r.Success? && r.value.Some? && r.value.value.id != id ==>
      parentIsArray && r.value.value == scope.v
    ensures scope.VariableScope? && r.Success? && r.value.Some? && r.value.value != scope.v ==>
      r.value.value.id == id && ScopeTypes(scope.v).Success? && exists k :: 0 <= k < |ScopeTypes(scope.v).value| && HoldsVariable(ScopeTypes(scope.v).value[k], r.value.value)
    ensures scope.VariableScope? && r == Success(None) ==> !parentIsArray
  {
    match scope
    case ModelScope => Success(FirstWithId(vars, id))
    case VariableScope(m) =>
      var ts := ScopeTypes(m);
      if ts.Failure? then Failure(ts.error)
      else
        var f := VariableInTypes(ts.value, id);
        if f == Success(None) && parentIsArray then Success(Some(m)) else f
  }

  // ------------------------------------------------------------ STEP 2: the array type

  /** The size of the first array type among the slots, if any; a raw or missing slot before it throws. */
  function ArraySizeIn(ts: seq<Slot>): (r: Result<Option<int>>)
    ensures r.Success? && r.value.Some? ==> exists k :: (0 <= k < |ts| &&
      ts[k].Obj? && ts[k].t.metaType == ARRAY_TYPE && ts[k].t.body.ArrayOf? && ts[k].t.body.size == r.value.value &&
      forall j :: 0 <= j < k ==> ts[j].Obj? && ts[j].t.metaType != ARRAY_TYPE)
    ensures r == Success(None) <==> forall k :: 0 <= k < |ts| ==> ts[k].Obj? && ts[k].t.metaType != ARRAY_TYPE
  {
    if |ts| == 0 then Success(None)
    else if !ts[0].Obj? then Failure(Graph.TYPE_ERROR)
    else if ts[0].t.metaType == ARRAY_TYPE then
      if ts[0].t.body.ArrayOf? then Success(Some(ts[0].t.body.size)) else Failure(Graph.TYPE_ERROR)
    else
      var r := ArraySizeIn(ts[1..]);
      if r.Success? && r.value.Some? then
        var k :| 0 <= k < |ts[1..]| && ts[1..][k].Obj? && ts[1..][k].t.metaType == ARRAY_TYPE &&
          ts[1..][k].t.body.ArrayOf? && ts[1..][k].t.body.size == r.value.value &&
          forall j :: 0 <= j < k ==> ts[1..][j].Obj? && ts[1..][j].t.metaType != ARRAY_TYPE;
        assert ts[k + 1] == ts[1..][k];
        r
      else r
  }

  // ------------------------------------------------------------ the tree as a value

  /** The node arena and the list of top-level instances. */
  datatype St = St(nodes: seq<Inst>, top: seq<nat>)

  /** A well-formed tree whose top-level instances have no parent. */
  ghost predicate Sound(st: St)
  {
    WF(st.nodes) && Below(st.nodes, st.top, 0) &&
    forall k :: 0 <= k < |st.top| ==> st.nodes[st.top[k]].parent.None?
  }

  /** A node that kept everything but grew its children and capabilities. */
  predicate Kept(x: Inst, y: Inst)
  {
    y == x.(children := y.children, capabilities := y.capabilities) &&
    x.children <= y.children && x.capabilities <= y.capabilities
  }

  /** The builder only adds: new nodes, new children, new capabilities, new top-level instances. */
  ghost predicate Grows(a: St, b: St)
  {
    Sound(b) && |a.nodes| <= |b.nodes| && a.top <= b.top &&
    forall j :: 0 <= j < |a.nodes| ==> Kept(a.nodes[j], b.nodes[j])
  }

  lemma GrowsTrans(a: St, b: St, c: St)
    requires Grows(a, b) && Grows(b, c)
    ensures Grows(a, c)
  {
    forall j | 0 <= j < |a.nodes| ensures Kept(a.nodes[j], c.nodes[j]) {
      assert Kept(a.nodes[j], b.nodes[j]) && Kept(b.nodes[j], c.nodes[j]);
    }
  }

  /** Nodes that existed keep their raw instance path. */
  lemma {:induction false} GrowsRawPath(a: St, b: St, j: nat)
    requires Sound(a) && Grows(a, b) && j < |a.nodes|
    ensures RawPath(a.nodes, j) == RawPath(b.nodes, j)
    decreases j
  {
    assert Kept(a.nodes[j], b.nodes[j]);
    if a.nodes[j].parent.Some? {
      GrowsRawPath(a, b, a.nodes[j].parent.value);
    }
  }

  /** What a thrown exception or a completed step leaves behind. */
  datatype Outcome = Outcome(st: St, err: Option<string>)

  /** A new leaf at the end of the arena. */
  function AddNode(st: St, n: Inst): (r: St)
    requires Sound(st) && n.children == [] && (n.parent.Some? ==> n.parent.value < |st.nodes|)
    ensures Grows(st, r) && |r.nodes| == |st.nodes| + 1 && r.nodes[|st.nodes|] == n && r.top == st.top
  {
    var r := St(st.nodes + [n], st.top);
    assert forall j :: 0 <= j < |st.nodes| ==> r.nodes[j] == st.nodes[j];
    r
  }

  /** `parent.addChild(x)`, or `topLevelInstances.push(x)` when there is no parent. */
  function Attach(st: St, x: nat, parent: Option<nat>): (r: St)
    requires Sound(st) && x < |st.nodes| && st.nodes[x].parent == parent
    ensures Grows(st, r) && |r.nodes| == |st.nodes|
    ensures parent.None? ==> r == St(st.nodes, st.top + [x])
    ensures parent.Some? ==> (r.top == st.top &&
      r.nodes[parent.value].children == st.nodes[parent.value].children + [x] &&
      forall j :: 0 <= j < |st.nodes| && j != parent.value ==> r.nodes[j] == st.nodes[j])
  {
    match parent
    case None => St(st.nodes, st.top + [x])
    case Some(p) =>
      var ns := st.nodes[p := st.nodes[p].(children := st.nodes[p].children + [x])];
      assert WF(ns) by {
        forall i, k | 0 <= i < |ns| && 0 <= k < |ns[i].children|
          ensures i < ns[i].children[k] < |ns| && ns[ns[i].children[k]].parent == Some(i)
        {
          if i == p && k == |st.nodes[p].children| {
            assert ns[i].children[k] == x;
          } else {
            assert ns[i].children[k] == st.nodes[i].children[k];
          }
        }
      }
      St(ns, st.top)
  }

  /** Propagation only reaches the ancestors, which sit before the node propagated from. */
  lemma {:induction false} PropagatedLeaves(ns: seq<Inst>, p: Option<nat>, cap: string, j: nat)
    requires WF(ns) && (p.Some? ==> p.value < |ns|) && j < |ns| && (p.Some? ==> p.value < j)
    ensures Propagated(ns, p, cap)[j] == ns[j]
    decreases if p.Some? then p.value + 1 else 0
  {
    match p
    case None =>
    case Some(q) =>
      if cap !in ns[q].capabilities {
        var ns' := AddCapability(ns, q, cap);
        SameShapeWF(ns, ns');
        PropagatedLeaves(ns', ns[q].parent, cap, j);
      }
  }

  /** The tagging of node `x`: its capabilities, and the visual one propagated to its ancestors. */
  ghost function Tagged(st: St, x: nat, t: Tagging): (r: St)
    requires Sound(st) && x < |st.nodes|
    ensures Grows(st, r) && SameShape(st.nodes, r.nodes) && r.top == st.top
    ensures r.nodes[x] == st.nodes[x].(capabilities := st.nodes[x].capabilities + t.caps)
    ensures !t.propagates ==> forall j :: 0 <= j < |st.nodes| && j != x ==> r.nodes[j] == st.nodes[j]
  {
    var ns := st.nodes[x := st.nodes[x].(capabilities := st.nodes[x].capabilities + t.caps)];
    assert SameShape(st.nodes, ns);
    SameShapeWF(st.nodes, ns);
    var ns' := if t.propagates then Propagated(ns, ns[x].parent, VISUAL_CAPABILITY) else ns;
    assert ns'[x] == ns[x] by {
      if t.propagates {
        PropagatedLeaves(ns, ns[x].parent, VISUAL_CAPABILITY, x);
      }
    }
    SameShapeWF(ns, ns');
    assert forall j :: 0 <= j < |st.nodes| ==> Kept(st.nodes[j], ns'[j]) by {
      forall j | 0 <= j < |st.nodes| ensures Kept(st.nodes[j], ns'[j]) {
        assert ns'[j] == ns[j].(capabilities := ns'[j].capabilities);
        assert ns[j].capabilities <= ns'[j].capabilities;
      }
    }
    St(ns', st.top)
  }

  /**
   * A plain instance of `v` under `parent`: created, tagged, and attached unless the
   * tagging threw, in which case it stays out of the tree.
   */
  ghost function PlainCreated(look: (Kind, Variable) -> Look, st: St, v: Variable, parent: Option<nat>): (o: Outcome)
    requires Sound(st) && (parent.Some? ==> parent.value < |st.nodes|)
    ensures Grows(st, o.st) && |o.st.nodes| == |st.nodes| + 1
    ensures o.err == PlainTagging(look(PlainInst, v)).err
    ensures o.st.nodes[|st.nodes|] == Inst(v.id, v.name, PlainInst, v, parent, [], PlainTagging(look(PlainInst, v)).caps)
    ensures o.err.None? && parent.None? ==> o.st.top == st.top + [|st.nodes|]
    ensures o.err.None? && parent.Some? ==>
      o.st.nodes[parent.value].children == st.nodes[parent.value].children + [|st.nodes|]
    ensures o.err.Some? || parent.Some? ==> o.st.top == st.top
  {
    var x := |st.nodes|;
    var t := PlainTagging(look(PlainInst, v));
    var st1 := AddNode(st, Inst(v.id, v.name, PlainInst, v, parent, [], []));
    var st2 := Tagged(st1, x, t);
    GrowsTrans(st, st1, st2);
    if t.err.Some? then Outcome(st2, t.err)
    else
      var st3 := Attach(st2, x, parent);
      GrowsTrans(st, st2, st3);
      Outcome(st3, None)
  }

  /** The id (and name) of element `k` of an array instance with that id. */
  function ElementId(id: string, k: nat): string
  {
    id + "[" + NatToString(k) + "]"
  }

  /** Every element of an array instance is named after the array: element `k` of `id` is `id[k]`. */
  ghost predicate NamedElements(ns: seq<Inst>)
  {
    forall c :: 0 <= c < |ns| ==> NamedAt(ns, c)
  }

  ghost predicate NamedAt(ns: seq<Inst>, c: nat)
    requires c < |ns|
  {
    ns[c].kind.ElementInst? && ns[c].parent.Some? && ns[c].parent.value < |ns| ==>
      ns[c].id == ElementId(ns[ns[c].parent.value].id, ns[c].kind.index)
  }

  /** Element `k` of the array instance `arr` of `v`: created, tagged and stored in the array unless the tagging threw. */
  ghost function ElementCreated(look: (Kind, Variable) -> Look, st: St, arr: nat, v: Variable, k: nat): (o: Outcome)
    requires Sound(st) && arr < |st.nodes|
    ensures Grows(st, o.st) && |o.st.nodes| == |st.nodes| + 1 && o.st.top == st.top
    ensures o.err == ElementTagging(look(ElementInst(k), v)).err
    ensures o.st.nodes[|st.nodes|] ==
      Inst(ElementId(v.id, k), ElementId(v.name, k), ElementInst(k), v, Some(arr), [], ElementTagging(look(ElementInst(k), v)).caps)
    ensures o.err.None? ==> o.st.nodes[arr].children == st.nodes[arr].children + [|st.nodes|]
  {
    var x := |st.nodes|;
    var t := ElementTagging(look(ElementInst(k), v));
    var st1 := AddNode(st, Inst(ElementId(v.id, k), ElementId(v.name, k), ElementInst(k), v, Some(arr), [], []));
    var st2 := Tagged(st1, x, t);
    GrowsTrans(st, st1, st2);
    if t.err.Some? then Outcome(st2, t.err)
    else
      var st3 := Attach(st2, x, Some(arr));
      GrowsTrans(st, st2, st3);
      assert Kept(st.nodes[arr], st2.nodes[arr]);
      assert st2.nodes[arr].children == st.nodes[arr].children by {
        assert Kept(st.nodes[arr], st1.nodes[arr]) && st1.nodes[arr] == st.nodes[arr];
      }
      Outcome(st3, None)
  }

  /** `lo, lo + 1, …, lo + n - 1`. */
  function Range(lo: nat, n: nat): (r: seq<nat>)
    ensures |r| == n
  {
    if n == 0 then [] else Range(lo, n - 1) + [lo + n - 1]
  }

  lemma {:induction false} RangeAt(lo: nat, n: nat)
    ensures forall k :: 0 <= k < n ==> Range(lo, n)[k] == lo + k
  {
    if n > 0 {
      RangeAt(lo, n - 1);
    }
  }

  /** One more element index appended to a list that ends with a range. */
  lemma RangeSnoc(c: seq<nat>, a: seq<nat>, b: seq<nat>, lo: nat, n: nat)
    requires n > 0 && a == c + Range(lo, n - 1) && b == a + [lo + n - 1]
    ensures b == c + Range(lo, n)
  {
    assert Range(lo, n) == Range(lo, n - 1) + [lo + n - 1];
    assert (c + Range(lo, n - 1)) + [lo + n - 1] == c + (Range(lo, n - 1) + [lo + n - 1]);
  }

  /** Elements `k … n-1` of the array instance `arr`, created in order; the first throw ends the loop. */
  ghost function ElementsFrom(look: (Kind, Variable) -> Look, st: St, arr: nat, v: Variable, k: nat, n: nat): (o: Outcome)
    requires Sound(st) && arr < |st.nodes|
    ensures Grows(st, o.st) && o.st.top == st.top
    ensures o.err.None? && k <= n ==> |o.st.nodes| == |st.nodes| + (n - k)
    decreases n - k
  {
    if k >= n then Outcome(st, None)
    else
      var e := ElementCreated(look, st, arr, v, k);
      if e.err.Some? then e
      else
        var o := ElementsFrom(look, e.st, arr, v, k + 1, n);
        GrowsTrans(st, e.st, o.st);
        o
  }

  /** The size the element loop runs to: `i < size` is never true for a negative size. */
  function LoopCount(size: int): nat
  {
    if size > 0 then size else 0
  }

  /**
   * An array instance of `v` under `parent`, exploded into its elements; it is attached
   * only after all of them were created, so a throw leaves it out of the tree.
   */
  ghost function ArrayCreated(look: (Kind, Variable) -> Look, st: St, v: Variable, size: int, parent: Option<nat>): (o: Outcome)
    requires Sound(st) && (parent.Some? ==> parent.value < |st.nodes|)
    ensures Grows(st, o.st) && |o.st.nodes| > |st.nodes|
    ensures o.st.nodes[|st.nodes|].id == v.id && o.st.nodes[|st.nodes|].kind == ArrayInst(size) &&
      o.st.nodes[|st.nodes|].variable == v && o.st.nodes[|st.nodes|].parent == parent
    ensures o.err.None? ==> (|o.st.nodes| == |st.nodes| + 1 + LoopCount(size))
    ensures o.err.None? && parent.None? ==> o.st.top == st.top + [|st.nodes|]
    ensures o.err.Some? || parent.Some? ==> o.st.top == st.top
  {
    var a := |st.nodes|;
    var st1 := AddNode(st, Inst(v.id, v.name, ArrayInst(size), v, parent, [], []));
    var e := ElementsFrom(look, st1, a, v, 0, LoopCount(size));
    GrowsTrans(st, st1, e.st);
    assert Kept(st1.nodes[a], e.st.nodes[a]);
    if e.err.Some? then e
    else
      var st3 := Attach(e.st, a, parent);
      GrowsTrans(st, e.st, st3);
      assert st3.nodes[a] == e.st.nodes[a];
      Outcome(st3, None)
  }

  // ------------------------------------------------------------ the recursion

  /** `parentInstance.getInstancePath() + '.' + id`, or the id alone at the top. */
  function InstancePathOf(st: St, parent: Option<nat>, id: string): string
    requires WF(st.nodes) && (parent.Some? ==> parent.value < |st.nodes|)
  {
    if parent.None? then id else RawPath(st.nodes, parent.value) + "." + id
  }

  /** The instance of the tree (in depth-first pre-order) already at that path, if any. */
  ghost function Matching(st: St, path: string): Option<nat>
    requires Sound(st)
  {
    FirstWith(st.nodes, PreOrder(st.nodes, st.top, 0), path)
  }

  /** The preconditions every call of the builder has: a parent exactly when in a variable's scope. */
  ghost predicate CallOK(st: St, parent: Option<nat>, scope: Scope)
  {
    Sound(st) && (parent.Some? ==> parent.value < |st.nodes|) && (scope.VariableScope? <==> parent.Some?)
  }

  /**
   * `buildInstanceHierarchy(path, parent, model, topLevelInstances)` on the ids of `path`:
   * the variable lookup (STEP 1) and the array-type scan may throw; a missing variable
   * ends the build with nothing done.
   */
  ghost function Build(vars: seq<Variable>, look: (Kind, Variable) -> Look, st: St, ids: seq<string>,
                       parent: Option<nat>, scope: Scope): (o: Outcome)
    requires CallOK(st, parent, scope) && |ids| > 0
    ensures Grows(st, o.st)
    decreases |ids|, 3
  {
    var isArray := parent.Some? && st.nodes[parent.value].kind.ArrayInst?;
    var found := FindVariable(vars, ids[0], scope, isArray);
    if found.Failure? then Outcome(st, Some(found.error))
    else if found.value.None? then Outcome(st, None)
    else
      var size := ArraySizeIn(GetTypes(found.value.value));
      if size.Failure? then Outcome(st, Some(size.error))
      else Located(vars, look, st, ids, parent, found.value.value, size.value)
  }

  /**
   * STEP 2 once the variable `v` is known: an instance already at the path is reused;
   * otherwise an array variable is exploded, a static one is skipped, and any other gets
   * a plain instance.
   */
  ghost function Located(vars: seq<Variable>, look: (Kind, Variable) -> Look, st: St, ids: seq<string>,
                         parent: Option<nat>, v: Variable, size: Option<int>): (o: Outcome)
    requires Sound(st) && (parent.Some? ==> parent.value < |st.nodes|) && |ids| > 0
    ensures Grows(st, o.st)
    decreases |ids|, 2
  {
    var path := InstancePathOf(st, parent, ids[0]);
    var m := Matching(st, path);
    if m.Some? then
      FoundMeans(st.nodes, st.top, 0, path);
      if Join(ids[1..], '.') != "" then Build(vars, look, st, ids[1..], m, VariableScope(v)) else Outcome(st, None)
    else if size.Some? then ArrayBuilt(vars, look, st, ids, parent, v, size.value)
    else if v.isStatic then Outcome(st, None)
    else PlainBuilt(vars, look, st, ids, parent, v)
  }

  /** An exploded array; with more path to build, it is built under every element (STEP 3). */
  ghost function ArrayBuilt(vars: seq<Variable>, look: (Kind, Variable) -> Look, st: St, ids: seq<string>,
                            parent: Option<nat>, v: Variable, size: int): (o: Outcome)
    requires Sound(st) && (parent.Some? ==> parent.value < |st.nodes|) && |ids| > 0
    ensures Grows(st, o.st)
    decreases |ids|, 1
  {
    var a := ArrayCreated(look, st, v, size, parent);
    if a.err.Some? || Join(ids[1..], '.') == "" then a
    else
      RangeAt(|st.nodes| + 1, LoopCount(size));
      var e := BuildEach(vars, look, a.st, ids[1..], Range(|st.nodes| + 1, LoopCount(size)), v);
      GrowsTrans(st, a.st, e.st);
      e
  }

  /** A new plain instance; with more path to build, it is built under it (STEP 3). */
  ghost function PlainBuilt(vars: seq<Variable>, look: (Kind, Variable) -> Look, st: St, ids: seq<string>,
                            parent: Option<nat>, v: Variable): (o: Outcome)
    requires Sound(st) && (parent.Some? ==> parent.value < |st.nodes|) && |ids| > 0
    ensures Grows(st, o.st)
    decreases |ids|, 1
  {
    var c := PlainCreated(look, st, v, parent);
    if c.err.Some? || Join(ids[1..], '.') == "" then c
    else
      var b := Build(vars, look, c.st, ids[1..], Some(|st.nodes|), VariableScope(v));
      GrowsTrans(st, c.st, b.st);
      b
  }

  /** The rest of the path built under each new element in turn; the first throw ends it. */
  ghost function BuildEach(vars: seq<Variable>, look: (Kind, Variable) -> Look, st: St, ids: seq<string>,
                           xs: seq<nat>, v: Variable): (o: Outcome)
    requires Sound(st) && |ids| > 0 && forall k :: 0 <= k < |xs| ==> xs[k] < |st.nodes|
    ensures Grows(st, o.st)
    decreases |ids|, 4, |xs|
  {
    if |xs| == 0 then Outcome(st, None)
    else
      var b := Build(vars, look, st, ids, Some(xs[0]), VariableScope(v));
      if b.err.Some? then b
      else
        var e := BuildEach(vars, look, b.st, ids, xs[1..], v);
        GrowsTrans(st, b.st, e.st);
        e
  }

  /** Paths built one after the other from the top, as `addInstances` and `instantiateVariables` do; the first throw ends the loop. */
  ghost function BuildAll(vars: seq<Variable>, look: (Kind, Variable) -> Look, st: St, paths: seq<string>): (o: Outcome)
    requires Sound(st)
    ensures Grows(st, o.st)
    decreases |paths|
  {
    if |paths| == 0 then Outcome(st, None)
    else
      var o := Build(vars, look, st, Split(paths[0], '.'), None, ModelScope);
      if o.err.Some? then o
      else
        var r := BuildAll(vars, look, o.st, paths[1..]);
        GrowsTrans(st, o.st, r.st);
        r
  }

  // ------------------------------------------------------------ properties of the builder

  /** A listed node is visited by the pre-order. */
  lemma {:induction false} ListedInPreOrder(ns: seq<Inst>, xs: seq<nat>, lo: nat, k: nat)
    requires WF(ns) && Below(ns, xs, lo) && k < |xs|
    ensures xs[k] in PreOrder(ns, xs, lo)
    decreases k
  {
    PreOrderCons(ns, xs, lo);
    if k > 0 {
      ListedInPreOrder(ns, xs[1..], lo, k - 1);
    }
  }

  /** A top-level instance with that id is found by the search for the id. */
  lemma PresentAtTop(st: St, k: nat, id: string)
    requires Sound(st) && k < |st.top| && st.nodes[st.top[k]].id == id
    ensures Matching(st, id).Some?
  {
    var x := st.top[k];
    ListedInPreOrder(st.nodes, st.top, 0, k);
    assert RawPath(st.nodes, x) == id;
    FoundMeans(st.nodes, st.top, 0, id);
  }

  /** A one-id path whose instance already exists at the top leaves the tree as it is. */
  lemma ReusedAtTop(vars: seq<Variable>, look: (Kind, Variable) -> Look, st: St, id: string)
    requires Sound(st) && Matching(st, id).Some?
    ensures Build(vars, look, st, [id], None, ModelScope).st == st
  {
    assert [id][1..] == [];
  }

  /** A variable the lookup does not find creates nothing, and nothing is thrown. */
  lemma MissingCreatesNothing(vars: seq<Variable>, look: (Kind, Variable) -> Look, st: St, ids: seq<string>,
                              parent: Option<nat>, scope: Scope)
    requires CallOK(st, parent, scope) && |ids| > 0
    requires FindVariable(vars, ids[0], scope, parent.Some? && st.nodes[parent.value].kind.ArrayInst?) == Success(None)
    ensures Build(vars, look, st, ids, parent, scope) == Outcome(st, None)
  {
  }

  /**
   * A static variable that is not an array and has no instance yet yields no instance:
   * the build ends there, with nothing created and nothing thrown.
   */
  lemma StaticCreatesNothing(vars: seq<Variable>, look: (Kind, Variable) -> Look, st: St, ids: seq<string>,
                             parent: Option<nat>, scope: Scope, v: Variable)
    requires CallOK(st, parent, scope) && |ids| > 0
    requires FindVariable(vars, ids[0], scope, parent.Some? && st.nodes[parent.value].kind.ArrayInst?) == Success(Some(v))
    requires v.isStatic && ArraySizeIn(GetTypes(v)) == Success(None)
    requires Matching(st, InstancePathOf(st, parent, ids[0])).None?
    ensures Build(vars, look, st, ids, parent, scope) == Outcome(st, None)
  {
  }

  /**
   * Building a one-id path from the top a second time adds nothing: whatever the first
   * build created is attached at the top, where the second build finds and reuses it.
   */
  lemma BuildTwiceAtTop(vars: seq<Variable>, look: (Kind, Variable) -> Look, st: St, id: string)
    requires Sound(st)
    ensures var o := Build(vars, look, st, [id], None, ModelScope);
      o.err.None? ==> Build(vars, look, o.st, [id], None, ModelScope).st == o.st
  {
    var o := Build(vars, look, st, [id], None, ModelScope);
    var found := FirstWithId(vars, id);
    assert [id][1..] == [] && Join([], '.') == "";
    if o.err.None? && found.Some? {
      var v := found.value;
      var size := ArraySizeIn(GetTypes(v));
      if size.Success? && Matching(st, id).None? {
        assert o == Located(vars, look, st, [id], None, v, size.value);
        if size.value.Some? {
          var a := ArrayCreated(look, st, v, size.value.value, None);
          assert o == ArrayBuilt(vars, look, st, [id], None, v, size.value.value) == a;
          PresentAtTop(o.st, |st.top|, id);
          ReusedAtTop(vars, look, o.st, id);
        } else if !v.isStatic {
          var c := PlainCreated(look, st, v, None);
          assert o == PlainBuilt(vars, look, st, [id], None, v) == c;
          PresentAtTop(o.st, |st.top|, id);
          ReusedAtTop(vars, look, o.st, id);
        }
      }
    }
  }

  // ------------------------------------------------------------ elements are named after their arrays

  /** Growing keeps the names of the nodes that were there; new nodes bring their own. */
  lemma GrowsNames(a: St, b: St)
    requires Sound(a) && Grows(a, b) && NamedElements(a.nodes)
    requires forall c :: |a.nodes| <= c < |b.nodes| ==> NamedAt(b.nodes, c)
    ensures NamedElements(b.nodes)
  {
    forall c | 0 <= c < |a.nodes| ensures NamedAt(b.nodes, c) {
      assert NamedAt(a.nodes, c) && Kept(a.nodes[c], b.nodes[c]);
      if a.nodes[c].parent.Some? {
        var p := a.nodes[c].parent.value;
        assert Kept(a.nodes[p], b.nodes[p]);
      }
    }
  }

  lemma ElementCreatedNames(look: (Kind, Variable) -> Look, st: St, arr: nat, v: Variable, k: nat)
    requires Sound(st) && arr < |st.nodes| && st.nodes[arr].id == v.id && NamedElements(st.nodes)
    ensures NamedElements(ElementCreated(look, st, arr, v, k).st.nodes)
  {
    var o := ElementCreated(look, st, arr, v, k);
    assert Kept(st.nodes[arr], o.st.nodes[arr]);
    assert NamedAt(o.st.nodes, |st.nodes|);
    GrowsNames(st, o.st);
  }

  lemma {:induction false} ElementsFromNames(look: (Kind, Variable) -> Look, st: St, arr: nat, v: Variable, k: nat, n: nat)
    requires Sound(st) && arr < |st.nodes| && st.nodes[arr].id == v.id && NamedElements(st.nodes)
    ensures NamedElements(ElementsFrom(look, st, arr, v, k, n).st.nodes)
    decreases n - k
  {
    if k < n {
      var e := ElementCreated(look, st, arr, v, k);
      ElementCreatedNames(look, st, arr, v, k);
      if e.err.None? {
        assert Kept(st.nodes[arr], e.st.nodes[arr]);
        ElementsFromNames(look, e.st, arr, v, k + 1, n);
      }
    }
  }

  lemma ArrayCreatedNames(look: (Kind, Variable) -> Look, st: St, v: Variable, size: int, parent: Option<nat>)
    requires Sound(st) && (parent.Some? ==> parent.value < |st.nodes|) && NamedElements(st.nodes)
    ensures NamedElements(ArrayCreated(look, st, v, size, parent).st.nodes)
  {
    var a := |st.nodes|;
    var st1 := AddNode(st, Inst(v.id, v.name, ArrayInst(size), v, parent, [], []));
    assert NamedAt(st1.nodes, a);
    GrowsNames(st, st1);
    ElementsFromNames(look, st1, a, v, 0, LoopCount(size));
    var e := ElementsFrom(look, st1, a, v, 0, LoopCount(size));
    if e.err.None? {
      GrowsNames(e.st, Attach(e.st, a, parent));
    }
  }

  lemma PlainCreatedNames(look: (Kind, Variable) -> Look, st: St, v: Variable, parent: Option<nat>)
    requires Sound(st) && (parent.Some? ==> parent.value < |st.nodes|) && NamedElements(st.nodes)
    ensures NamedElements(PlainCreated(look, st, v, parent).st.nodes)
  {
    var o := PlainCreated(look, st, v, parent);
    assert NamedAt(o.st.nodes, |st.nodes|);
    GrowsNames(st, o.st);
  }

  /** Whatever the builder leaves behind, every element is still named after its array. */
  lemma {:induction false} BuildNames(vars: seq<Variable>, look: (Kind, Variable) -> Look, st: St, ids: seq<string>,
                                      parent: Option<nat>, scope: Scope)
    requires CallOK(st, parent, scope) && |ids| > 0 && NamedElements(st.nodes)
    ensures NamedElements(Build(vars, look, st, ids, parent, scope).st.nodes)
    decreases |ids|, 3
  {
    var isArray := parent.Some? && st.nodes[parent.value].kind.ArrayInst?;
    var found := FindVariable(vars, ids[0], scope, isArray);
    if found.Success? && found.value.Some? {
      var size := ArraySizeIn(GetTypes(found.value.value));
      if size.Success? {
        LocatedNames(vars, look, st, ids, parent, found.value.value, size.value);
      }
    }
  }

  lemma {:induction false} LocatedNames(vars: seq<Variable>, look: (Kind, Variable) -> Look, st: St, ids: seq<string>,
                                        parent: Option<nat>, v: Variable, size: Option<int>)
    requires Sound(st) && (parent.Some? ==> parent.value < |st.nodes|) && |ids| > 0 && NamedElements(st.nodes)
    ensures NamedElements(Located(vars, look, st, ids, parent, v, size).st.nodes)
    decreases |ids|, 2
  {
    var path := InstancePathOf(st, parent, ids[0]);
    var m := Matching(st, path);
    if m.Some? {
      FoundMeans(st.nodes, st.top, 0, path);
      if Join(ids[1..], '.') != "" {
        BuildNames(vars, look, st, ids[1..], m, VariableScope(v));
      }
    } else if size.Some? {
      ArrayBuiltNames(vars, look, st, ids, parent, v, size.value);
    } else if !v.isStatic {
      PlainBuiltNames(vars, look, st, ids, parent, v);
    }
  }

  lemma {:induction false} ArrayBuiltNames(vars: seq<Variable>, look: (Kind, Variable) -> Look, st: St, ids: seq<string>,
                                           parent: Option<nat>, v: Variable, size: int)
    requires Sound(st) && (parent.Some? ==> parent.value < |st.nodes|) && |ids| > 0 && NamedElements(st.nodes)
    ensures NamedElements(ArrayBuilt(vars, look, st, ids, parent, v, size).st.nodes)
    decreases |ids|, 1
  {
    var a := ArrayCreated(look, st, v, size, parent);
    ArrayCreatedNames(look, st, v, size, parent);
    if a.err.None? && Join(ids[1..], '.') != "" {
      RangeAt(|st.nodes| + 1, LoopCount(size));
      BuildEachNames(vars, look, a.st, ids[1..], Range(|st.nodes| + 1, LoopCount(size)), v);
    }
  }

  lemma {:induction false} PlainBuiltNames(vars: seq<Variable>, look: (Kind, Variable) -> Look, st: St, ids: seq<string>,
                                           parent: Option<nat>, v: Variable)
    requires Sound(st) && (parent.Some? ==> parent.value < |st.nodes|) && |ids| > 0 && NamedElements(st.nodes)
    ensures NamedElements(PlainBuilt(vars, look, st, ids, parent, v).st.nodes)
    decreases |ids|, 1
  {
    var c := PlainCreated(look, st, v, parent);
    PlainCreatedNames(look, st, v, parent);
    if c.err.None? && Join(ids[1..], '.') != "" {
      BuildNames(vars, look, c.st, ids[1..], Some(|st.nodes|), VariableScope(v));
    }
  }

  lemma {:induction false} BuildEachNames(vars: seq<Variable>, look: (Kind, Variable) -> Look, st: St, ids: seq<string>,
                                          xs: seq<nat>, v: Variable)
    requires Sound(st) && |ids| > 0 && (forall k :: 0 <= k < |xs| ==> xs[k] < |st.nodes|) && NamedElements(st.nodes)
    ensures NamedElements(BuildEach(vars, look, st, ids, xs, v).st.nodes)
    decreases |ids|, 4, |xs|
  {
    if |xs| > 0 {
      var b := Build(vars, look, st, ids, Some(xs[0]), VariableScope(v));
      BuildNames(vars, look, st, ids, Some(xs[0]), VariableScope(v));
      if b.err.None? {
        BuildEachNames(vars, look, b.st, ids, xs[1..], v);
      }
    }
  }

  lemma {:induction false} BuildAllNames(vars: seq<Variable>, look: (Kind, Variable) -> Look, st: St, paths: seq<string>)
    requires Sound(st) && NamedElements(st.nodes)
    ensures NamedElements(BuildAll(vars, look, st, paths).st.nodes)
    decreases |paths|
  {
    if |paths| > 0 {
      var o := Build(vars, look, st, Split(paths[0], '.'), None, ModelScope);
      BuildNames(vars, look, st, Split(paths[0], '.'), None, ModelScope);
      if o.err.None? {
        BuildAllNames(vars, look, o.st, paths[1..]);
      }
    }
  }
}
