/**
 * The `Instances` list of the client: the world's static instances and the top-level
 * instances built from the model, with a shortcut for every entry's id, and the
 * operations that build, look up and delete instances in it (`InstanceFactory.addInstances`,
 * `buildInstanceHierarchy`, `instantiateVariables`; `Instances.getInstance`,
 * `addInstances`, `deleteInstance`).
 *
 * The instance tree lives in an arena of nodes (module InstanceTree); the builder's
 * specification is module InstanceBuild, and every state-changing method here is
 * proved to leave exactly the tree that specification describes.
 */
module InstanceStore {
  import opened Wrappers
  import opened Meta
  import opened Graph
  import opened Strings
  import opened InstanceTree
  import opened InstanceBuild
  import opened IdPaths
  import opened InstanceLookup
  import PointerChains
  import Types
  import Worlds
  import Wildcards
  import Walks
  import InstanceCapabilities

  // ------------------------------------------------------------ entries of the list

  /** The tree nodes of the list, in order: the top-level instances the builder sees. */
  function Tops(list: seq<Entry>): (r: seq<nat>)
    ensures |r| <= |list|
  {
    if |list| == 0 then []
    else Tops(list[..|list| - 1]) + (if list[|list| - 1].NodeEntry? then [list[|list| - 1].i] else [])
  }

  lemma TopsSnoc(list: seq<Entry>, e: Entry)
    ensures Tops(list + [e]) == Tops(list) + (if e.NodeEntry? then [e.i] else [])
  {
    assert (list + [e])[..|list|] == list;
  }

  lemma {:induction false} TopsConcat(a: seq<Entry>, b: seq<Entry>)
    ensures Tops(a + b) == Tops(a) + Tops(b)
    decreases |b|
  {
    if |b| == 0 {
      assert a + b == a;
    } else {
      var c := b[..|b| - 1];
      assert a + b == (a + c) + [b[|b| - 1]];
      assert b == c + [b[|b| - 1]];
      TopsConcat(a, c);
      TopsSnoc(a + c, b[|b| - 1]);
      TopsSnoc(c, b[|b| - 1]);
    }
  }

  /** The static instances as entries. */
  function StaticEntries(ss: seq<Worlds.StaticInstance>): (r: seq<Entry>)
    ensures |r| == |ss| && Tops(r) == []
    ensures forall k :: 0 <= k < |ss| ==> r[k] == StaticEntry(ss[k])
  {
    if |ss| == 0 then []
    else
      var r := StaticEntries(ss[..|ss| - 1]) + [StaticEntry(ss[|ss| - 1])];
      TopsSnoc(StaticEntries(ss[..|ss| - 1]), StaticEntry(ss[|ss| - 1]));
      r
  }

  /** The list grew only at its end, and only by tree nodes. */
  ghost predicate Extended(a: seq<Entry>, b: seq<Entry>)
  {
    a <= b && forall k :: |a| <= k < |b| ==> b[k].NodeEntry?
  }

  lemma ExtendedTrans(a: seq<Entry>, b: seq<Entry>, c: seq<Entry>)
    requires Extended(a, b) && Extended(b, c)
    ensures Extended(a, c)
  {
  }

  /** The id of an entry; a node outside the arena has none. */
  function EntryId(ns: seq<Inst>, e: Entry): string
  {
    match e
    case StaticEntry(s) => s.id
    case NodeEntry(i) => if i < |ns| then ns[i].id else ""
  }

  /** `list[entry.getId()] = entry` for each entry in order: later entries win. */
  function Registered(m: map<string, Entry>, ns: seq<Inst>, list: seq<Entry>): (r: map<string, Entry>)
  {
    if |list| == 0 then m
    else Registered(m, ns, list[..|list| - 1])[EntryId(ns, list[|list| - 1]) := list[|list| - 1]]
  }

  /** Registration adds exactly the entries' ids to the keys. */
  lemma {:induction false} RegisteredKeys(m: map<string, Entry>, ns: seq<Inst>, list: seq<Entry>, x: string)
    ensures x in Registered(m, ns, list) <==> x in m || exists k :: 0 <= k < |list| && EntryId(ns, list[k]) == x
    decreases |list|
  {
    if |list| > 0 {
      var init := list[..|list| - 1];
      RegisteredKeys(m, ns, init, x);
      if x !in m && EntryId(ns, list[|list| - 1]) != x && exists k :: 0 <= k < |list| && EntryId(ns, list[k]) == x {
        var k :| 0 <= k < |list| && EntryId(ns, list[k]) == x;
        assert init[k] == list[k];
      }
    }
  }

  /** An id some entry carries leads to the last entry carrying it. */
  lemma {:induction false} RegisteredLast(m: map<string, Entry>, ns: seq<Inst>, list: seq<Entry>, x: string, k: nat)
    requires k < |list| && EntryId(ns, list[k]) == x
    ensures x in Registered(m, ns, list)
    ensures exists q ::
      && 0 <= q < |list| && EntryId(ns, list[q]) == x && Registered(m, ns, list)[x] == list[q]
      && (forall j :: q < j < |list| ==> EntryId(ns, list[j]) != x)
    decreases |list|
  {
    var init := list[..|list| - 1];
    RegisteredKeys(m, ns, list, x);
    if EntryId(ns, list[|list| - 1]) == x {
      assert Registered(m, ns, list)[x] == list[|list| - 1];
    } else {
      assert k < |init| && init[k] == list[k];
      RegisteredLast(m, ns, init, x, k);
      var q :| 0 <= q < |init| && EntryId(ns, init[q]) == x && Registered(m, ns, init)[x] == init[q] &&
        (forall j :: q < j < |init| ==> EntryId(ns, init[j]) != x);
      assert list[q] == init[q];
      assert forall j :: q < j < |list| ==> EntryId(ns, list[j]) != x by {
        forall j | q < j < |list| ensures EntryId(ns, list[j]) != x {
          if j < |init| {
            assert list[j] == init[j];
          }
        }
      }
    }
  }

  /** An id no entry carries keeps its old shortcut. */
  lemma {:induction false} RegisteredUntouched(m: map<string, Entry>, ns: seq<Inst>, list: seq<Entry>, x: string)
    requires x in m && forall k :: 0 <= k < |list| ==> EntryId(ns, list[k]) != x
    ensures x in Registered(m, ns, list) && Registered(m, ns, list)[x] == m[x]
    decreases |list|
  {
    if |list| > 0 {
      var init := list[..|list| - 1];
      assert forall k :: 0 <= k < |init| ==> EntryId(ns, init[k]) != x by {
        forall k | 0 <= k < |init| ensures EntryId(ns, init[k]) != x {
          assert init[k] == list[k];
        }
      }
      RegisteredUntouched(m, ns, init, x);
    }
  }

  /** Every entry's id is registered, to the last entry with that id; no other key is added. */
  lemma RegisteredLastWins(m: map<string, Entry>, ns: seq<Inst>, list: seq<Entry>, x: string)
    ensures x in Registered(m, ns, list) <==> x in m || exists k :: 0 <= k < |list| && EntryId(ns, list[k]) == x
    ensures (exists k :: 0 <= k < |list| && EntryId(ns, list[k]) == x) ==>
      exists k :: 0 <= k < |list| && EntryId(ns, list[k]) == x && Registered(m, ns, list)[x] == list[k] &&
        forall j :: k < j < |list| ==> EntryId(ns, list[j]) != x
    ensures (forall k :: 0 <= k < |list| ==> EntryId(ns, list[k]) != x) && x in m ==> Registered(m, ns, list)[x] == m[x]
  {
    RegisteredKeys(m, ns, list, x);
    if exists k :: 0 <= k < |list| && EntryId(ns, list[k]) == x {
      var k :| 0 <= k < |list| && EntryId(ns, list[k]) == x;
      RegisteredLast(m, ns, list, x, k);
    } else if x in m {
      RegisteredUntouched(m, ns, list, x);
    }
  }


  // ------------------------------------------------------------ STEP 1 and 2 as loops

  /** The loop over the model's variables (or a composite type's) that stops at the first id match. */
  method FirstVariableWithId(vs: seq<Variable>, id: string) returns (r: Option<Variable>)
    ensures r == FirstWithId(vs, id)
  {
    for i := 0 to |vs|
      invariant FirstWithId(vs, id) == FirstWithId(vs[i..], id)
    {
      assert vs[i..][0] == vs[i] && vs[i..][1..] == vs[i + 1..];
      if vs[i].id == id {
        return Some(vs[i]);
      }
    }
    assert vs[|vs|..] == [];
    return None;
  }

  /** The loop over the searched types: composite types only, stopping at the first that has the id. */
  method VariableAmongTypes(ts: seq<Slot>, id: string) returns (r: Result<Option<Variable>>)
    ensures r == VariableInTypes(ts, id)
  {
    for i := 0 to |ts|
      invariant VariableInTypes(ts, id) == VariableInTypes(ts[i..], id)
    {
      assert ts[i..][0] == ts[i] && ts[i..][1..] == ts[i + 1..];
      if !ts[i].Obj? {
        return Failure(Graph.TYPE_ERROR);
      }
      if ts[i].t.metaType == COMPOSITE_TYPE {
        if !IsCompositeClass(ts[i].t) {
          return Failure(Graph.TYPE_ERROR);
        }
        var f := FirstVariableWithId(ts[i].t.body.variables, id);
        if f.Some? {
          return Success(f);
        }
      }
    }
    assert ts[|ts|..] == [];
    return Success(None);
  }

  /** STEP 1 of `buildInstanceHierarchy`: the variable for the first id. */
  method FindVariableFor(vars: seq<Variable>, id: string, scope: Scope, parentIsArray: bool)
    returns (r: Result<Option<Variable>>)
    ensures r == FindVariable(vars, id, scope, parentIsArray)
  {
    match scope
    case ModelScope =>
      var f := FirstVariableWithId(vars, id);
      r := Success(f);
    case VariableScope(m) =>
      var ts := ScopeTypes(m);
      if ts.Failure? {
        return Failure(ts.error);
      }
      r := VariableAmongTypes(ts.value, id);
      if r == Success(None) && parentIsArray {
        r := Success(Some(m));
      }
  }

  /** The loop of STEP 2 that finds the first array type of the variable and its size. */
  method ArraySizeOf(ts: seq<Slot>) returns (r: Result<Option<int>>)
    ensures r == ArraySizeIn(ts)
  {
    for j := 0 to |ts|
      invariant ArraySizeIn(ts) == ArraySizeIn(ts[j..])
    {
      assert ts[j..][0] == ts[j] && ts[j..][1..] == ts[j + 1..];
      if !ts[j].Obj? {
        return Failure(Graph.TYPE_ERROR);
      }
      if ts[j].t.metaType == ARRAY_TYPE {
        if !ts[j].t.body.ArrayOf? {
          return Failure(Graph.TYPE_ERROR);
        }
        return Success(Some(ts[j].t.body.size));
      }
    }
    assert ts[|ts|..] == [];
    return Success(None);
  }

  /** Changing only capabilities keeps a sound tree sound. */
  lemma SameShapeSound(a: St, ns: seq<Inst>)
    requires Sound(a) && SameShape(a.nodes, ns)
    ensures Sound(St(ns, a.top))
  {
    SameShapeWF(a.nodes, ns);
    assert forall k :: 0 <= k < |a.top| ==> ns[a.top[k]].parent == a.nodes[a.top[k]].parent;
  }

  /** Node `a + 1 + j` is element `j` of the array node `a` of `v`. */
  ghost predicate IsElement(ns: seq<Inst>, a: nat, v: Variable, j: nat)
  {
    a + 1 + j < |ns| && ns[a + 1 + j].id == ElementId(v.id, j) && ns[a + 1 + j].name == ElementId(v.name, j) &&
    ns[a + 1 + j].kind == ElementInst(j) && ns[a + 1 + j].variable == v && ns[a + 1 + j].parent == Some(a)
  }

  /** Nodes `a + 1` … `a + n` are elements `0` … `n - 1` of the array node `a`. */
  ghost predicate ElementsAt(ns: seq<Inst>, a: nat, v: Variable, n: nat)
  {
    forall j :: 0 <= j < n ==> IsElement(ns, a, v, j)
  }

  /** The elements so far survive growth, and a new node that is element `i` extends them. */
  lemma ElementsGrow(ns: seq<Inst>, ms: seq<Inst>, a: nat, v: Variable, i: nat)
    requires |ns| == a + 1 + i && |ms| == |ns| + 1 && ElementsAt(ns, a, v, i)
    requires forall j :: 0 <= j < |ns| ==> Kept(ns[j], ms[j])
    requires ms[a + 1 + i].id == ElementId(v.id, i) && ms[a + 1 + i].name == ElementId(v.name, i)
    requires ms[a + 1 + i].kind == ElementInst(i) && ms[a + 1 + i].variable == v && ms[a + 1 + i].parent == Some(a)
    ensures ElementsAt(ms, a, v, i + 1)
  {
    forall j | 0 <= j < i ensures IsElement(ms, a, v, j) {
      assert IsElement(ns, a, v, j);
      assert Kept(ns[a + 1 + j], ms[a + 1 + j]);
    }
    assert IsElement(ms, a, v, i);
  }

  /** One more element: the array's children and its elements advance by one. */
  lemma ElementsAdvance(look: (Kind, Variable) -> Look, a: nat, v: Variable, i: nat, s: St)
    requires Sound(s) && |s.nodes| == a + 1 + i && s.nodes[a].children == Range(a + 1, i) && ElementsAt(s.nodes, a, v, i)
    ensures var e := ElementCreated(look, s, a, v, i);
      e.err.None? ==> e.st.nodes[a].children == Range(a + 1, i + 1) && ElementsAt(e.st.nodes, a, v, i + 1)
  {
    var e := ElementCreated(look, s, a, v, i);
    ElementsGrow(s.nodes, e.st.nodes, a, v, i);
  }

  /** Attaching the array node under an earlier parent keeps its children and its elements. */
  lemma AttachKeepsElements(st: St, a: nat, parent: Option<nat>, v: Variable, n: nat)
    requires Sound(st) && a < |st.nodes| && st.nodes[a].parent == parent && (parent.Some? ==> parent.value < a)
    requires ElementsAt(st.nodes, a, v, n)
    ensures Attach(st, a, parent).nodes[a] == st.nodes[a] && ElementsAt(Attach(st, a, parent).nodes, a, v, n)
  {
    var r := Attach(st, a, parent);
    forall j | 0 <= j < n ensures IsElement(r.nodes, a, v, j) {
      assert IsElement(st.nodes, a, v, j);
      assert r.nodes[a + 1 + j] == st.nodes[a + 1 + j];
    }
  }

  // ------------------------------------------------------------ the list as a value

  /** The list, the arena behind it and its shortcuts. */
  datatype Store = Store(nodes: seq<Inst>, list: seq<Entry>, shortcuts: map<string, Entry>)

  ghost predicate StoreSound(s: Store)
  {
    Sound(St(s.nodes, Tops(s.list)))
  }

  /** What an operation on the list leaves behind, and what it threw. */
  datatype Change = Change(s: Store, err: Option<string>)

  /** Top-level instance nodes as entries. */
  function NodeEntries(xs: seq<nat>): (r: seq<Entry>)
    ensures |r| == |xs| && Tops(r) == xs
    ensures forall k :: 0 <= k < |xs| ==> r[k] == NodeEntry(xs[k])
  {
    if |xs| == 0 then []
    else
      var r := NodeEntries(xs[..|xs| - 1]) + [NodeEntry(xs[|xs| - 1])];
      TopsSnoc(NodeEntries(xs[..|xs| - 1]), NodeEntry(xs[|xs| - 1]));
      assert xs == xs[..|xs| - 1] + [xs[|xs| - 1]];
      r
  }

  lemma {:induction false} OnlyNodes(ext: seq<Entry>)
    requires forall k :: 0 <= k < |ext| ==> ext[k].NodeEntry?
    ensures NodeEntries(Tops(ext)) == ext
    decreases |ext|
  {
    if |ext| > 0 {
      var init := ext[..|ext| - 1];
      OnlyNodes(init);
      TopsSnoc(init, ext[|ext| - 1]);
      assert ext == init + [ext[|ext| - 1]];
    }
  }

  /** A list extended by the builder is the old list followed by the new top-level instances. */
  lemma ExtendedList(a: seq<Entry>, b: seq<Entry>)
    requires Extended(a, b)
    ensures |Tops(a)| <= |Tops(b)| && b == a + NodeEntries(Tops(b)[|Tops(a)|..])
  {
    var ext := b[|a|..];
    assert b == a + ext;
    TopsConcat(a, ext);
    assert Tops(b)[|Tops(a)|..] == Tops(ext);
    OnlyNodes(ext);
  }

  /**
   * `InstanceFactory.addInstances(paths, list, model)`: every path, rewritten to its raw
   * id concatenation, is built from the top; the new top-level instances join the list, and
   * then every entry of the list is registered under its id. A throw skips the registration.
   */
  ghost function Added(vars: seq<Variable>, look: (Kind, Variable) -> Look, s: Store, paths: seq<string>): (c: Change)
    requires StoreSound(s)
    ensures StoreSound(c.s) && s.list <= c.s.list
    ensures c.err.None? ==> c.s.shortcuts == Registered(s.shortcuts, c.s.nodes, c.s.list)
    ensures c.err.Some? ==> c.s.shortcuts == s.shortcuts
  {
    var o := BuildAll(vars, look, St(s.nodes, Tops(s.list)), IdConcatPaths(paths));
    var list := s.list + NodeEntries(o.st.top[|Tops(s.list)|..]);
    TopsConcat(s.list, NodeEntries(o.st.top[|Tops(s.list)|..]));
    assert o.st.top == Tops(s.list) + o.st.top[|Tops(s.list)|..];
    if o.err.Some? then Change(Store(o.st.nodes, list, s.shortcuts), o.err)
    else Change(Store(o.st.nodes, list, Registered(s.shortcuts, o.st.nodes, list)), None)
  }

  // ------------------------------------------------------------ what every change keeps

  /** Nodes keep their ids, kinds and parents; only their children and capabilities may change. */
  ghost predicate SameIds(a: seq<Inst>, b: seq<Inst>)
  {
    |a| <= |b| &&
    forall j :: 0 <= j < |a| ==> b[j].id == a[j].id && b[j].kind == a[j].kind && b[j].parent == a[j].parent
  }

  /** The raw path of a node does not depend on anybody's children. */
  lemma {:induction false} SameIdsRawPath(a: seq<Inst>, b: seq<Inst>, j: nat)
    requires WF(a) && WF(b) && SameIds(a, b) && j < |a|
    ensures RawPath(a, j) == RawPath(b, j)
    decreases j
  {
    if a[j].parent.Some? {
      SameIdsRawPath(a, b, a[j].parent.value);
    }
  }

  lemma GrowsSameIds(a: St, b: St)
    requires Grows(a, b)
    ensures SameIds(a.nodes, b.nodes)
  {
    forall j | 0 <= j < |a.nodes|
      ensures b.nodes[j].id == a.nodes[j].id && b.nodes[j].kind == a.nodes[j].kind && b.nodes[j].parent == a.nodes[j].parent
    {
      assert Kept(a.nodes[j], b.nodes[j]);
    }
  }

  /**
   * What the lookups rely on: a sound store, every element named after its array, and every
   * shortcut to a node leading to a top-level node with that id.
   */
  ghost predicate Linked(s: Store)
  {
    StoreSound(s) && NamedElements(s.nodes) && TopsNamed(s.nodes, s.shortcuts)
  }

  lemma TopsNamedSameIds(a: seq<Inst>, b: seq<Inst>, m: map<string, Entry>)
    requires SameIds(a, b) && TopsNamed(a, m)
    ensures TopsNamed(b, m)
  {
  }

  lemma NamedElementsSameIds(a: seq<Inst>, b: seq<Inst>)
    requires SameIds(a, b) && |a| == |b| && NamedElements(a)
    ensures NamedElements(b)
  {
    forall c | 0 <= c < |b| ensures NamedAt(b, c) {
      assert NamedAt(a, c);
    }
  }

  /** Registering the list's entries keeps every shortcut to a node on a top-level node with that id. */
  lemma {:induction false} RegisteredNamed(m: map<string, Entry>, ns: seq<Inst>, list: seq<Entry>)
    requires Sound(St(ns, Tops(list))) && TopsNamed(ns, m)
    ensures TopsNamed(ns, Registered(m, ns, list))
    decreases |list|
  {
    if |list| > 0 {
      var init := list[..|list| - 1];
      var e := list[|list| - 1];
      assert list == init + [e];
      TopsSnoc(init, e);
      assert forall k :: 0 <= k < |Tops(init)| ==> Tops(init)[k] == Tops(list)[k];
      RegisteredNamed(m, ns, init);
      if e.NodeEntry? {
        assert Tops(list)[|Tops(init)|] == e.i;
      }
    }
  }

  /** Adding paths keeps the store linked, and every node keeps its id, kind and parent. */
  lemma AddedLinked(vars: seq<Variable>, look: (Kind, Variable) -> Look, s: Store, paths: seq<string>)
    requires Linked(s)
    ensures Linked(Added(vars, look, s, paths).s) && SameIds(s.nodes, Added(vars, look, s, paths).s.nodes)
  {
    var st := St(s.nodes, Tops(s.list));
    var o := BuildAll(vars, look, st, IdConcatPaths(paths));
    var c := Added(vars, look, s, paths);
    BuildAllNames(vars, look, st, IdConcatPaths(paths));
    GrowsSameIds(st, o.st);
    TopsNamedSameIds(s.nodes, o.st.nodes, s.shortcuts);
    if c.err.None? {
      RegisteredNamed(s.shortcuts, c.s.nodes, c.s.list);
    }
  }

  // ------------------------------------------------------------ deleteInstance

  /** `getPath()` of an entry: a static instance's own path, the raw path of a node. */
  function EntryPath(ns: seq<Inst>, e: Entry): string
    requires WF(ns)
  {
    match e
    case StaticEntry(si) => si.path
    case NodeEntry(i) => if i < |ns| then RawPath(ns, i) else ""
  }

  /** `getParent()` of an entry; a static instance has none. */
  function ParentOf(ns: seq<Inst>, e: Entry): (r: Option<nat>)
    requires WF(ns)
    ensures r.Some? ==> r.value < |ns|
  {
    match e
    case StaticEntry(_) => None
    case NodeEntry(i) => if i < |ns| then ns[i].parent else None
  }

  /** The position of the first entry whose path is `path`, or `|xs|` when there is none. */
  function FirstWithPath(ns: seq<Inst>, xs: seq<Entry>, path: string): (k: nat)
    requires WF(ns)
    ensures k <= |xs|
    ensures k < |xs| ==> EntryPath(ns, xs[k]) == path
    ensures forall j :: 0 <= j < k ==> EntryPath(ns, xs[j]) != path
    decreases |xs|
  {
    if |xs| == 0 then 0
    else if EntryPath(ns, xs[0]) == path then 0
    else
      var k := FirstWithPath(ns, xs[1..], path);
      assert forall j :: 1 <= j < 1 + k ==> xs[j] == xs[1..][j - 1];
      1 + k
  }

  /** `k` is the position of the first entry whose path is `path`. */
  ghost predicate FirstMatch(ns: seq<Inst>, xs: seq<Entry>, path: string, k: nat)
    requires WF(ns)
  {
    k < |xs| && EntryPath(ns, xs[k]) == path && forall j :: 0 <= j < k ==> EntryPath(ns, xs[j]) != path
  }

  /** `splice(index, 1)` when an index was found. */
  function Spliced<T>(xs: seq<T>, k: nat): seq<T>
  {
    if k < |xs| then xs[..k] + xs[k + 1..] else xs
  }

  lemma SplicedListSound(s: Store, k: nat)
    requires StoreSound(s) && k < |s.list|
    ensures StoreSound(s.(list := s.list[..k] + s.list[k + 1..]))
  {
    var a, b, c := s.list[..k], [s.list[k]], s.list[k + 1..];
    assert s.list == (a + b) + c;
    TopsConcat(a + b, c);
    TopsConcat(a, b);
    TopsConcat(a, c);
    var before := Tops(s.list);
    var after := Tops(a + c);
    forall j | 0 <= j < |after| ensures after[j] in before {
      if j < |Tops(a)| {
        assert after[j] == before[j];
      } else {
        assert after[j] == before[j + |Tops(b)|];
      }
    }
  }

  lemma SplicedChildrenSound(s: Store, p: nat, k: nat)
    requires StoreSound(s) && p < |s.nodes| && k < |s.nodes[p].children|
    ensures var cs := s.nodes[p].children;
      StoreSound(s.(nodes := s.nodes[p := s.nodes[p].(children := cs[..k] + cs[k + 1..])]))
  {
    var cs := s.nodes[p].children;
    var left := cs[..k] + cs[k + 1..];
    var ns := s.nodes[p := s.nodes[p].(children := left)];
    forall j | 0 <= j < |left| ensures left[j] in cs {
      if j < k {
        assert left[j] == cs[j];
      } else {
        assert left[j] == cs[j + 1];
      }
    }
    assert WF(ns);
  }

  /** Taking out the first child with a path keeps the store sound. */
  lemma ChildSpliced(s: Store, p: nat, path: string, k: nat)
    requires StoreSound(s) && p < |s.nodes| && FirstMatch(s.nodes, NodeEntries(s.nodes[p].children), path, k)
    ensures var cs := s.nodes[p].children;
      FirstWithPath(s.nodes, NodeEntries(cs), path) == k &&
      StoreSound(s.(nodes := s.nodes[p := s.nodes[p].(children := Spliced(cs, k))]))
  {
    FirstMatchIsFirst(s.nodes, NodeEntries(s.nodes[p].children), path, k);
    SplicedChildrenSound(s, p, k);
  }

  /** When no child has the path, splicing at the position found changes nothing. */
  lemma NoChildWithPath(ns: seq<Inst>, p: nat, path: string)
    requires WF(ns) && p < |ns|
    requires var xs := NodeEntries(ns[p].children); forall j :: 0 <= j < |xs| ==> EntryPath(ns, xs[j]) != path
    ensures var cs := ns[p].children; ns[p := ns[p].(children := Spliced(cs, FirstWithPath(ns, NodeEntries(cs), path)))] == ns
  {
    var cs := ns[p].children;
    assert FirstWithPath(ns, NodeEntries(cs), path) == |cs|;
    assert ns[p].(children := cs) == ns[p];
  }

  /**
   * `deleteInstance(instance)` on the list and the tree: the first entry with the instance's
   * path leaves its parent's children, or the list when it has no parent. No shortcut of the
   * list changes: the source deletes `window[id]`, a global, and not the list's own `this[id]`.
   */
  function Deleted(s: Store, e: Entry): (r: Store)
    requires StoreSound(s)
    ensures StoreSound(r)
  {
    var path := EntryPath(s.nodes, e);
    match ParentOf(s.nodes, e)
    case None =>
      var k := FirstWithPath(s.nodes, s.list, path);
      if k < |s.list| then SplicedListSound(s, k); s.(list := Spliced(s.list, k)) else s
    case Some(p) =>
      var cs := s.nodes[p].children;
      var k := FirstWithPath(s.nodes, NodeEntries(cs), path);
      if k < |cs| then
        SplicedChildrenSound(s, p, k);
        s.(nodes := s.nodes[p := s.nodes[p].(children := Spliced(cs, k))])
      else s
  }

  /** The first match is the one `FirstWithPath` finds. */
  lemma FirstMatchIsFirst(ns: seq<Inst>, xs: seq<Entry>, path: string, k: nat)
    requires WF(ns) && FirstMatch(ns, xs, path, k)
    ensures FirstWithPath(ns, xs, path) == k
  {
  }

  /**
   * Deleting an instance without a parent takes the first entry of the list with its path out
   * and keeps the other entries in order; an entry of the list always finds itself. The tree
   * and every shortcut stay as they are.
   */
  lemma DeletedFromList(s: Store, e: Entry)
    requires StoreSound(s) && ParentOf(s.nodes, e).None?
    ensures Deleted(s, e).nodes == s.nodes && Deleted(s, e).shortcuts == s.shortcuts
    ensures (forall j :: 0 <= j < |s.list| ==> EntryPath(s.nodes, s.list[j]) != EntryPath(s.nodes, e)) ==>
      Deleted(s, e).list == s.list
    ensures forall k: nat :: FirstMatch(s.nodes, s.list, EntryPath(s.nodes, e), k) ==>
      Deleted(s, e).list == s.list[..k] + s.list[k + 1..]
    ensures e in s.list ==> |Deleted(s, e).list| == |s.list| - 1
  {
    var path := EntryPath(s.nodes, e);
    var f := FirstWithPath(s.nodes, s.list, path);
    forall k: nat | FirstMatch(s.nodes, s.list, path, k) ensures Deleted(s, e).list == s.list[..k] + s.list[k + 1..] {
      FirstMatchIsFirst(s.nodes, s.list, path, k);
    }
    if e in s.list {
      var x :| 0 <= x < |s.list| && s.list[x] == e;
      assert f <= x;
    }
  }

  /** Deleting an instance under a parent changes no other node, the list or a shortcut. */
  lemma DeletedUnderParent(s: Store, e: Entry, p: nat)
    requires StoreSound(s) && ParentOf(s.nodes, e) == Some(p)
    ensures |Deleted(s, e).nodes| == |s.nodes| && Deleted(s, e).list == s.list && Deleted(s, e).shortcuts == s.shortcuts
    ensures forall q :: 0 <= q < |s.nodes| && q != p ==> Deleted(s, e).nodes[q] == s.nodes[q]
    ensures Deleted(s, e).nodes[p] == s.nodes[p].(children := Deleted(s, e).nodes[p].children)
  {
    var cs := s.nodes[p].children;
    var k := FirstWithPath(s.nodes, NodeEntries(cs), EntryPath(s.nodes, e));
    if k < |cs| {
      SplicedChildrenSound(s, p, k);
      assert Deleted(s, e) == s.(nodes := s.nodes[p := s.nodes[p].(children := Spliced(cs, k))]);
    } else {
      assert Deleted(s, e) == s;
    }
  }

  /**
   * Deleting an instance under a parent takes the parent's first child with its path out and
   * keeps its other children in order; a child of its parent always finds itself.
   */
  lemma DeletedFromChildren(s: Store, e: Entry, p: nat)
    requires StoreSound(s) && ParentOf(s.nodes, e) == Some(p)
    ensures var cs := s.nodes[p].children;
      (forall j :: 0 <= j < |cs| ==> EntryPath(s.nodes, NodeEntries(cs)[j]) != EntryPath(s.nodes, e)) ==>
        Deleted(s, e).nodes[p].children == cs
    ensures var cs := s.nodes[p].children;
      forall k: nat :: FirstMatch(s.nodes, NodeEntries(cs), EntryPath(s.nodes, e), k) ==>
        Deleted(s, e).nodes[p].children == cs[..k] + cs[k + 1..]
  {
    var path := EntryPath(s.nodes, e);
    var cs := s.nodes[p].children;
    forall k: nat | FirstMatch(s.nodes, NodeEntries(cs), path, k)
      ensures Deleted(s, e).nodes[p].children == cs[..k] + cs[k + 1..]
    {
      FirstMatchIsFirst(s.nodes, NodeEntries(cs), path, k);
    }
  }

  /** The instance itself is among its parent's children, so one child goes. */
  lemma DeletedChildItself(s: Store, e: Entry, p: nat)
    requires StoreSound(s) && ParentOf(s.nodes, e) == Some(p)
    ensures e.i in s.nodes[p].children ==> |Deleted(s, e).nodes[p].children| == |s.nodes[p].children| - 1
  {
    var path := EntryPath(s.nodes, e);
    var cs := s.nodes[p].children;
    var f := FirstWithPath(s.nodes, NodeEntries(cs), path);
    if e.i in cs {
      var x :| 0 <= x < |cs| && cs[x] == e.i;
      assert NodeEntries(cs)[x] == e;
      assert f <= x;
    }
  }

  /** A deletion keeps the store linked, and every node keeps its id, kind and parent. */
  lemma DeletedLinked(s: Store, e: Entry)
    requires Linked(s)
    ensures Linked(Deleted(s, e)) && SameIds(s.nodes, Deleted(s, e).nodes) && |Deleted(s, e).nodes| == |s.nodes|
  {
    var r := Deleted(s, e);
    match ParentOf(s.nodes, e)
    case None =>
      DeletedFromList(s, e);
    case Some(p) =>
      DeletedUnderParent(s, e, p);
      assert forall q :: 0 <= q < |s.nodes| ==> r.nodes[q] == s.nodes[q] || r.nodes[q] == s.nodes[q].(children := r.nodes[q].children);
    assert r.shortcuts == s.shortcuts;
    assert SameIds(s.nodes, r.nodes);
    NamedElementsSameIds(s.nodes, r.nodes);
    TopsNamedSameIds(s.nodes, r.nodes, s.shortcuts);
  }

  /** `instance.getTypes()`: the types of a node's variable; static instances are not typed here. */
  function TypesOf(ns: seq<Inst>, e: Entry): seq<Slot>
  {
    match e
    case StaticEntry(_) => []
    case NodeEntry(i) => if i < |ns| then GetTypes(ns[i].variable) else []
  }

  /**
   * `deleteInstance` as written: once the instance is removed, `this.unresolveType(type)` runs
   * for each of its types, and `Instances` has no such method (it is the model factory's).
   */
  function DeletedAsWritten(s: Store, e: Entry): (c: Change)
    requires StoreSound(s)
  {
    Change(Deleted(s, e), if |TypesOf(s.nodes, e)| > 0 then Some(Graph.TYPE_ERROR) else None)
  }

  /** As written, deleting a typed instance removes it and then throws a TypeError. */
  lemma DeleteTypedThrowsAsWritten(s: Store, x: nat)
    requires StoreSound(s) && x < |s.nodes| && |GetTypes(s.nodes[x].variable)| > 0
    ensures DeletedAsWritten(s, NodeEntry(x)).err == Some(Graph.TYPE_ERROR)
    ensures DeletedAsWritten(s, NodeEntry(x)).s == Deleted(s, NodeEntry(x))
  {
  }

  // ------------------------------------------------------------ getInstance

  /** The instances `getInstance` has collected so far, the list after the last path, and what a path threw. */
  datatype Got = Got(s: Store, instances: seq<Value>, err: Option<string>)

  /** The holes an assignment past the end of a JavaScript array leaves, read as `undefined`. */
  function Holes(n: nat): (r: seq<Value>)
    ensures |r| == n && forall k :: 0 <= k < n ==> r[k] == Undefined
  {
    seq(n, _ => Undefined)
  }

  /** `instances[i] = x`: past the end, the positions skipped are holes. */
  function StoredAt(found: seq<Value>, i: nat, x: Value): (r: seq<Value>)
    ensures |r| == if i < |found| then |found| else i + 1
    ensures r[i] == x
    ensures forall k :: 0 <= k < |r| && k != i ==> r[k] == if k < |found| then found[k] else Undefined
  {
    if i < |found| then found[i := x] else found + Holes(i - |found|) + [x]
  }

  /**
   * The `catch` of the `i`th path: with `create`, the path is added again and what it then
   * names is stored at index `i`, and a throw leaves `getInstance`; without `create` the throw
   * is swallowed and nothing is collected.
   */
  ghost function Retried(vars: seq<Variable>, look: (Kind, Variable) -> Look, s: Store, path: string, i: nat,
                         found: seq<Value>, create: bool): (g: Got)
    requires StoreSound(s)
    ensures StoreSound(g.s)
  {
    if !create then Got(s, found, None)
    else
      var c := Added(vars, look, s, [path]);
      if c.err.Some? then Got(c.s, found, c.err)
      else
        match Eval(c.s.nodes, c.s.shortcuts, path)
        case Failure(e) => Got(c.s, found, Some(e))
        case Success(x) => Got(c.s, StoredAt(found, i, x), None)
  }

  /** `addInstancesFromPaths(path)` and the push of what `path` then names, inside the `try`. */
  ghost function Rebuilt(vars: seq<Variable>, look: (Kind, Variable) -> Look, s: Store, path: string, i: nat,
                         found: seq<Value>, create: bool): (g: Got)
    requires StoreSound(s)
    ensures StoreSound(g.s)
  {
    var c := Added(vars, look, s, [path]);
    if c.err.Some? then Retried(vars, look, c.s, path, i, found, create)
    else
      match Eval(c.s.nodes, c.s.shortcuts, path)
      case Failure(_) => Retried(vars, look, c.s, path, i, found, create)
      case Success(x) => Got(c.s, found + [x], None)
  }

  /**
   * The `i`th path of `getInstance`: what it names is collected; with `override` an instance
   * found is deleted and built again first; with `create` a path naming nothing is built. A
   * throw anywhere in the `try` goes to the `catch`.
   */
  ghost function Fetched(vars: seq<Variable>, look: (Kind, Variable) -> Look, s: Store, path: string, i: nat,
                         found: seq<Value>, create: bool, override: bool): (g: Got)
    requires StoreSound(s)
    ensures StoreSound(g.s)
  {
    match Eval(s.nodes, s.shortcuts, path)
    case Failure(_) => Retried(vars, look, s, path, i, found, create)
    case Success(Undefined) =>
      if create then Rebuilt(vars, look, s, path, i, found, create) else Got(s, found, None)
    case Success(Found(e)) =>
      if override then Rebuilt(vars, look, Deleted(s, e), path, i, found, create)
      else Got(s, found + [Found(e)], None)
  }

  /**
   * One path as written: with `override`, `deleteInstance(instances[i])` is handed position
   * `i` of the instances collected, where nothing has been stored yet, and `getPath()` of
   * `undefined` throws; the `catch` runs on the list as it was.
   */
  ghost function FetchedAsWritten(vars: seq<Variable>, look: (Kind, Variable) -> Look, s: Store, path: string, i: nat,
                                  found: seq<Value>, create: bool, override: bool): (g: Got)
    requires StoreSound(s)
  {
    match Eval(s.nodes, s.shortcuts, path)
    case Success(Found(e)) =>
      if override then Retried(vars, look, s, path, i, found, create)
      else Got(s, found + [Found(e)], None)
    case _ => Fetched(vars, look, s, path, i, found, create, override)
  }

  /**
   * As written, `override` never deletes: the instance found stays where it is, and without
   * `create` it is not even collected.
   */
  lemma OverrideKeepsInstanceAsWritten(vars: seq<Variable>, look: (Kind, Variable) -> Look, s: Store, path: string,
                                       i: nat, found: seq<Value>, e: Entry)
    requires StoreSound(s) && Eval(s.nodes, s.shortcuts, path) == Success(Found(e))
    ensures FetchedAsWritten(vars, look, s, path, i, found, true, true).s == Added(vars, look, s, [path]).s
    ensures FetchedAsWritten(vars, look, s, path, i, found, false, true) == Got(s, found, None)
  {
  }

  /** The paths from the `i`th on, one after the other; the first throw leaves `getInstance`. */
  ghost function Fetches(vars: seq<Variable>, look: (Kind, Variable) -> Look, s: Store, paths: seq<string>, i: nat,
                         found: seq<Value>, create: bool, override: bool): (g: Got)
    requires StoreSound(s) && i <= |paths|
    ensures StoreSound(g.s)
    decreases |paths| - i
  {
    if i == |paths| then Got(s, found, None)
    else
      var g := Fetched(vars, look, s, paths[i], i, found, create, override);
      if g.err.Some? then g else Fetches(vars, look, g.s, paths, i + 1, g.instances, create, override)
  }

  /** `getInstance(arrayPath).getSize()` in the wildcard expansion, read off the list as it is. */
  function SizeAt(ns: seq<Inst>, shortcuts: map<string, Entry>, p: string): (r: Result<int>)
    ensures r.Success? ==>
      exists j :: 0 <= j < |ns| && Eval(ns, shortcuts, p) == Success(Found(NodeEntry(j))) && ns[j].kind == ArrayInst(r.value)
  {
    match Eval(ns, shortcuts, p)
    case Success(Found(NodeEntry(j))) =>
      if j < |ns| && ns[j].kind.ArrayInst? then Success(ns[j].kind.size) else Failure(Graph.TYPE_ERROR)
    case _ => Failure(Graph.TYPE_ERROR)
  }

  function Sizes(s: Store): string -> Result<int>
  {
    p => SizeAt(s.nodes, s.shortcuts, p)
  }

  /** The paths asked for: a single path is wrapped into a list. */
  function Requested(instancePath: OneOrMany<string>): seq<string>
  {
    match instancePath
    case One(p) => [p]
    case Many(ps) => ps
  }

  /** What `getInstance` returns: the sole instance for a single path with one result, the list otherwise. */
  function Returned(instances: seq<Value>, arrayParameter: bool): OneOrMany<Value>
  {
    if |instances| == 1 && !arrayParameter then One(instances[0]) else Many(instances)
  }

  /** The list after a call, and what it returned or threw. */
  datatype Answer = Answer(s: Store, r: Result<OneOrMany<Value>>)

  /**
   * `getInstance(instancePath, create, override)`: wildcards are expanded, then every path is
   * fetched in turn; `create` defaults to true. The connection update that follows changes
   * nothing: the connection instances it creates stay in a local list.
   */
  ghost function GotInstance(vars: seq<Variable>, look: (Kind, Variable) -> Look, s: Store,
                             instancePath: OneOrMany<string>, create: Option<bool>, override: bool): (a: Answer)
    requires StoreSound(s)
    ensures StoreSound(a.s)
  {
    match Wildcards.Expanded(Requested(instancePath), Sizes(s))
    case Failure(e) => Answer(s, Failure(e))
    case Success(paths) =>
      var g := Fetches(vars, look, s, paths, 0, [], create != Some(false), override);
      if g.err.Some? then Answer(g.s, Failure(g.err.value))
      else Answer(g.s, Success(Returned(g.instances, instancePath.Many?)))
  }

  /**
   * `updateConnectionInstances(instance)` as written: for a connection variable the instance
   * has no connection for, it calls `this.createPointer`, a method `Instances` does not have.
   */
  function ConnectionsUpdatedAsWritten(connectionVariables: nat): Option<string>
  {
    if connectionVariables > 0 then Some(Graph.TYPE_ERROR) else None
  }

  /** `getInstance` as written: after the loop, every instance collected has its connections updated. */
  ghost function GotInstanceAsWritten(vars: seq<Variable>, look: (Kind, Variable) -> Look, connectionVariables: nat,
                                      s: Store, instancePath: OneOrMany<string>, create: Option<bool>,
                                      override: bool): (a: Answer)
    requires StoreSound(s)
  {
    var a := GotInstance(vars, look, s, instancePath, create, override);
    if a.r.Success? && (exists k :: 0 <= k < |Values(a.r.value)| && Values(a.r.value)[k].Found?) &&
       ConnectionsUpdatedAsWritten(connectionVariables).Some?
    then Answer(a.s, Failure(ConnectionsUpdatedAsWritten(connectionVariables).value))
    else a
  }

  /** The values a result of `getInstance` holds. */
  function Values(r: OneOrMany<Value>): seq<Value>
  {
    match r
    case One(v) => [v]
    case Many(vs) => vs
  }

  /**
   * As written, once the model has a connection variable, every `getInstance` that finds an
   * instance throws a TypeError, after the instances were built.
   */
  lemma FoundThenThrowsAsWritten(vars: seq<Variable>, look: (Kind, Variable) -> Look, connectionVariables: nat,
                                 s: Store, instancePath: OneOrMany<string>, create: Option<bool>, override: bool, k: nat)
    requires StoreSound(s) && connectionVariables > 0
    requires var a := GotInstance(vars, look, s, instancePath, create, override);
      a.r.Success? && k < |Values(a.r.value)| && Values(a.r.value)[k].Found?
    ensures GotInstanceAsWritten(vars, look, connectionVariables, s, instancePath, create, override) ==
      Answer(GotInstance(vars, look, s, instancePath, create, override).s, Failure(Graph.TYPE_ERROR))
  {
  }

  // ------------------------------------------------------------ what getInstance finds

  /** A value that is a node is one of the nodes of `paths`: its raw path is one of theirs, rewritten. */
  ghost predicate NamesOne(ns: seq<Inst>, v: Value, paths: seq<string>)
    requires WF(ns)
  {
    v.Found? && v.e.NodeEntry? ==>
      v.e.i < |ns| && exists p :: p in paths && RawPath(ns, v.e.i) == IdConcatPath(p)
  }

  ghost predicate Named(ns: seq<Inst>, vs: seq<Value>, paths: seq<string>)
    requires WF(ns)
  {
    forall k :: 0 <= k < |vs| ==> NamesOne(ns, vs[k], paths)
  }

  lemma NamedSameIds(a: seq<Inst>, b: seq<Inst>, vs: seq<Value>, paths: seq<string>)
    requires WF(a) && WF(b) && SameIds(a, b) && Named(a, vs, paths)
    ensures Named(b, vs, paths)
  {
    forall k | 0 <= k < |vs| ensures NamesOne(b, vs[k], paths) {
      assert NamesOne(a, vs[k], paths);
      if vs[k].Found? && vs[k].e.NodeEntry? {
        SameIdsRawPath(a, b, vs[k].e.i);
      }
    }
  }

  /** What `eval` finds for a path of `paths` on a linked store is one of the nodes of `paths`. */
  lemma EvalNames(s: Store, path: string, paths: seq<string>)
    requires Linked(s) && path in paths && Eval(s.nodes, s.shortcuts, path).Success?
    ensures NamesOne(s.nodes, Eval(s.nodes, s.shortcuts, path).value, paths)
  {
    var v := Eval(s.nodes, s.shortcuts, path).value;
    if v.Found? && v.e.NodeEntry? {
      EvalRawPath(s.nodes, s.shortcuts, path, v.e.i);
    }
  }

  lemma NamedStoredAt(ns: seq<Inst>, found: seq<Value>, i: nat, x: Value, paths: seq<string>)
    requires WF(ns) && Named(ns, found, paths) && NamesOne(ns, x, paths)
    ensures Named(ns, StoredAt(found, i, x), paths) && Named(ns, found + [x], paths)
  {
    var r := StoredAt(found, i, x);
    forall k | 0 <= k < |r| ensures NamesOne(ns, r[k], paths) {
      if k != i && k < |found| {
        assert NamesOne(ns, found[k], paths);
      }
    }
    forall k | 0 <= k < |found| + 1 ensures NamesOne(ns, (found + [x])[k], paths) {
      if k < |found| {
        assert NamesOne(ns, found[k], paths);
      }
    }
  }

  lemma {:induction false} RetriedNames(vars: seq<Variable>, look: (Kind, Variable) -> Look, s: Store, path: string,
                                        i: nat, found: seq<Value>, create: bool, paths: seq<string>)
    requires Linked(s) && Named(s.nodes, found, paths) && path in paths
    ensures var g := Retried(vars, look, s, path, i, found, create);
      Linked(g.s) && SameIds(s.nodes, g.s.nodes) && Named(g.s.nodes, g.instances, paths)
  {
    if create {
      var c := Added(vars, look, s, [path]);
      AddedLinked(vars, look, s, [path]);
      NamedSameIds(s.nodes, c.s.nodes, found, paths);
      if c.err.None? && Eval(c.s.nodes, c.s.shortcuts, path).Success? {
        var x := Eval(c.s.nodes, c.s.shortcuts, path).value;
        EvalNames(c.s, path, paths);
        NamedStoredAt(c.s.nodes, found, i, x, paths);
      }
    }
  }

  lemma {:induction false} RebuiltNames(vars: seq<Variable>, look: (Kind, Variable) -> Look, s: Store, path: string,
                                        i: nat, found: seq<Value>, create: bool, paths: seq<string>)
    requires Linked(s) && Named(s.nodes, found, paths) && path in paths
    ensures var g := Rebuilt(vars, look, s, path, i, found, create);
      Linked(g.s) && SameIds(s.nodes, g.s.nodes) && Named(g.s.nodes, g.instances, paths)
  {
    var c := Added(vars, look, s, [path]);
    AddedLinked(vars, look, s, [path]);
    NamedSameIds(s.nodes, c.s.nodes, found, paths);
    if c.err.None? && Eval(c.s.nodes, c.s.shortcuts, path).Success? {
      var x := Eval(c.s.nodes, c.s.shortcuts, path).value;
      EvalNames(c.s, path, paths);
      NamedStoredAt(c.s.nodes, found, i, x, paths);
    } else {
      RetriedNames(vars, look, c.s, path, i, found, create, paths);
    }
  }

  /**
   * Every instance one path collects is a node of the requested paths, by its raw path, and the
   * store stays linked with every node's id, kind and parent kept.
   */
  lemma {:induction false} FetchedNames(vars: seq<Variable>, look: (Kind, Variable) -> Look, s: Store, path: string,
                                        i: nat, found: seq<Value>, create: bool, override: bool, paths: seq<string>)
    requires Linked(s) && Named(s.nodes, found, paths) && path in paths
    ensures var g := Fetched(vars, look, s, path, i, found, create, override);
      Linked(g.s) && SameIds(s.nodes, g.s.nodes) && Named(g.s.nodes, g.instances, paths)
  {
    match Eval(s.nodes, s.shortcuts, path)
    case Failure(_) =>
      RetriedNames(vars, look, s, path, i, found, create, paths);
    case Success(Undefined) =>
      if create {
        RebuiltNames(vars, look, s, path, i, found, create, paths);
      }
    case Success(Found(e)) =>
      if override {
        var d := Deleted(s, e);
        DeletedLinked(s, e);
        NamedSameIds(s.nodes, d.nodes, found, paths);
        RebuiltNames(vars, look, d, path, i, found, create, paths);
      } else {
        EvalNames(s, path, paths);
        NamedStoredAt(s.nodes, found, i, Found(e), paths);
      }
  }

  lemma {:induction false} FetchesNames(vars: seq<Variable>, look: (Kind, Variable) -> Look, s: Store,
                                        paths: seq<string>, i: nat, found: seq<Value>, create: bool, override: bool)
    requires Linked(s) && i <= |paths| && Named(s.nodes, found, paths)
    ensures var g := Fetches(vars, look, s, paths, i, found, create, override);
      Linked(g.s) && SameIds(s.nodes, g.s.nodes) && Named(g.s.nodes, g.instances, paths)
    decreases |paths| - i
  {
    if i < |paths| {
      var g := Fetched(vars, look, s, paths[i], i, found, create, override);
      FetchedNames(vars, look, s, paths[i], i, found, create, override, paths);
      if g.err.None? {
        FetchesNames(vars, look, g.s, paths, i + 1, g.instances, create, override);
      }
    }
  }

  /**
   * `getInstance` on a linked list leaves it linked, and every instance it returns is the node
   * of one of the paths the wildcards expanded to: its raw path is that path, with each
   * `id[k]` segment preceded by `id`.
   */
  lemma GotInstanceNames(vars: seq<Variable>, look: (Kind, Variable) -> Look, s: Store,
                         instancePath: OneOrMany<string>, create: Option<bool>, override: bool)
    requires Linked(s)
    ensures var a := GotInstance(vars, look, s, instancePath, create, override);
      Linked(a.s) && SameIds(s.nodes, a.s.nodes) &&
      (a.r.Success? ==>
        Wildcards.Expanded(Requested(instancePath), Sizes(s)).Success? &&
        Named(a.s.nodes, Values(a.r.value), Wildcards.Expanded(Requested(instancePath), Sizes(s)).value))
  {
    match Wildcards.Expanded(Requested(instancePath), Sizes(s))
    case Failure(_) =>
    case Success(paths) =>
      FetchesNames(vars, look, s, paths, 0, [], create != Some(false), override);
      var g := Fetches(vars, look, s, paths, 0, [], create != Some(false), override);
      if |g.instances| == 1 && !instancePath.Many? {
        assert NamesOne(g.s.nodes, g.instances[0], paths);
      }
  }

  /**
   * The shape of what `getInstance` returns: a list whenever it was given a list, the sole
   * instance when it was given one path and collected exactly one, and the list otherwise.
   */
  lemma GotInstanceShape(vars: seq<Variable>, look: (Kind, Variable) -> Look, s: Store,
                         instancePath: OneOrMany<string>, create: Option<bool>, override: bool)
    requires StoreSound(s)
    ensures var a := GotInstance(vars, look, s, instancePath, create, override);
      a.r.Success? ==> (a.r.value.One? <==> instancePath.One? && |Values(a.r.value)| == 1)
  {
  }

  /**
   * A path, with no wildcard, that names an instance already is answered with that instance
   * and changes nothing, unless `override` asks for it to be built again.
   */
  lemma ExistingInstance(vars: seq<Variable>, look: (Kind, Variable) -> Look, s: Store, path: string,
                         create: Option<bool>, e: Entry)
    requires StoreSound(s) && !Wildcards.HasWildcard(path) && Eval(s.nodes, s.shortcuts, path) == Success(Found(e))
    ensures GotInstance(vars, look, s, One(path), create, false) == Answer(s, Success(One(Found(e))))
  {
    Wildcards.ExpandedPlain([path], Sizes(s));
    var g1 := Fetched(vars, look, s, path, 0, [], create != Some(false), false);
    assert g1 == Got(s, [] + [Found(e)], None);
    assert [] + [Found(e)] == [Found(e)];
    assert Fetches(vars, look, s, [path], 0, [], create != Some(false), false) == Got(s, [Found(e)], None);
  }

  /** Without `create`, a path that names nothing is left unbuilt and nothing is collected. */
  lemma NothingWithoutCreate(vars: seq<Variable>, look: (Kind, Variable) -> Look, s: Store, path: string,
                             override: bool)
    requires StoreSound(s) && !Wildcards.HasWildcard(path) && Eval(s.nodes, s.shortcuts, path).Success? &&
      Eval(s.nodes, s.shortcuts, path).value.Undefined?
    ensures GotInstance(vars, look, s, Many([path]), Some(false), override) == Answer(s, Success(Many([])))
  {
    Wildcards.ExpandedPlain([path], Sizes(s));
    assert Fetched(vars, look, s, path, 0, [], false, override) == Got(s, [], None);
    assert Fetches(vars, look, s, [path], 0, [], false, override) == Got(s, [], None);
  }

  /**
   * With `create` left to its default, a top-level id that names nothing yet, whose variable
   * is found and is neither static nor of an array type, is built as a new top-level plain
   * instance of that variable, and that instance is what `getInstance` returns for the id.
   */
  lemma CreatedAtTop(vars: seq<Variable>, look: (Kind, Variable) -> Look, s: Store, id: string, v: Variable)
    requires StoreSound(s) && IsName(id) && id !in s.shortcuts
    requires FirstWithId(vars, id) == Some(v) && !v.isStatic && ArraySizeIn(GetTypes(v)) == Success(None)
    requires Matching(St(s.nodes, Tops(s.list)), id).None?
    requires PlainTagging(look(PlainInst, v)).err.None?
    ensures var a := GotInstance(vars, look, s, One(id), None, false);
      var x := |s.nodes|;
      a.r == Success(One(Found(NodeEntry(x)))) && x < |a.s.nodes| &&
      a.s.nodes[x].variable == v && a.s.nodes[x].kind == PlainInst && a.s.nodes[x].parent.None? &&
      a.s.list == s.list + [NodeEntry(x)]
  {
    var x := |s.nodes|;
    Strings.MissingCharNotContained(id, Wildcards.WILDCARD, '[');
    AddedAtTop(vars, look, s, id, v);
    CreatedFetch(vars, look, s, id, v);
    GotOnePath(vars, look, s, id, None, false);
    var g := Fetches(vars, look, s, [id], 0, [], true, false);
    assert Returned(g.instances, false) == One(Found(NodeEntry(x)));
  }

  /** `getInstance` of one path without wildcards is the fetch of that path alone. */
  lemma GotOnePath(vars: seq<Variable>, look: (Kind, Variable) -> Look, s: Store, path: string,
                   create: Option<bool>, override: bool)
    requires StoreSound(s) && !Wildcards.HasWildcard(path)
    ensures var g := Fetches(vars, look, s, [path], 0, [], create != Some(false), override);
      GotInstance(vars, look, s, One(path), create, override) ==
        if g.err.Some? then Answer(g.s, Failure(g.err.value)) else Answer(g.s, Success(Returned(g.instances, false)))
  {
    Wildcards.ExpandedPlain([path], Sizes(s));
    assert Requested(One(path)) == [path];
  }

  /** The fetch of the one path of `CreatedAtTop`: it is added, and the instance it then names is collected. */
  lemma CreatedFetch(vars: seq<Variable>, look: (Kind, Variable) -> Look, s: Store, id: string, v: Variable)
    requires StoreSound(s) && IsName(id) && id !in s.shortcuts
    requires var c := Added(vars, look, s, [id]);
      c.err.None? && id in c.s.shortcuts && c.s.shortcuts[id] == NodeEntry(|s.nodes|)
    ensures Fetches(vars, look, s, [id], 0, [], true, false) ==
      Got(Added(vars, look, s, [id]).s, [Found(NodeEntry(|s.nodes|))], None)
  {
    var x := |s.nodes|;
    TopIdEval(s.nodes, s.shortcuts, id);
    var c := Added(vars, look, s, [id]);
    TopIdEval(c.s.nodes, c.s.shortcuts, id);
    var g := Got(c.s, [Found(NodeEntry(x))], None);
    assert Rebuilt(vars, look, s, id, 0, [], true) == g by {
      assert [] + [Found(NodeEntry(x))] == [Found(NodeEntry(x))];
    }
    assert Fetched(vars, look, s, id, 0, [], true, false) == g;
    assert Fetches(vars, look, g.s, [id], 1, g.instances, true, false) == g;
    assert Fetches(vars, look, s, [id], 0, [], true, false) == g;
  }

  /** A one-name path is looked up among the list's shortcuts and nowhere else. */
  lemma TopIdEval(ns: seq<Inst>, shortcuts: map<string, Entry>, id: string)
    requires IsName(id)
    ensures Eval(ns, shortcuts, id) == Success(if id in shortcuts then Found(shortcuts[id]) else Undefined)
  {
    Strings.SplitFree(id, '.');
    assert AccessesOf([id]) == Some([Prop(id)]) by {
      assert [id][1..] == [];
      assert [Prop(id)] + [] == [Prop(id)];
    }
  }

  /** Adding the one path `id` of a plain variable creates its instance at the top and registers it under `id`. */
  lemma AddedAtTop(vars: seq<Variable>, look: (Kind, Variable) -> Look, s: Store, id: string, v: Variable)
    requires StoreSound(s) && IsName(id)
    requires FirstWithId(vars, id) == Some(v) && !v.isStatic && ArraySizeIn(GetTypes(v)) == Success(None)
    requires Matching(St(s.nodes, Tops(s.list)), id).None?
    requires PlainTagging(look(PlainInst, v)).err.None?
    ensures var c := Added(vars, look, s, [id]);
      var x := |s.nodes|;
      c.err.None? && x < |c.s.nodes| &&
      c.s.nodes[x].variable == v && c.s.nodes[x].kind == PlainInst && c.s.nodes[x].parent.None? &&
      c.s.list == s.list + [NodeEntry(x)] && id in c.s.shortcuts && c.s.shortcuts[id] == NodeEntry(x)
  {
    var x := |s.nodes|;
    var st := St(s.nodes, Tops(s.list));
    BuiltAtTop(vars, look, s, id, v);
    var o := PlainCreated(look, st, v, None);
    assert o.st.top[|Tops(s.list)|..] == [x];
    assert NodeEntries([x]) == [NodeEntry(x)];
    assert EntryId(o.st.nodes, NodeEntry(x)) == id;
    RegisteredSnoc(s.shortcuts, o.st.nodes, s.list, NodeEntry(x));
  }

  /** Registering one more entry sets its id and leaves every other key as it was. */
  lemma RegisteredSnoc(m: map<string, Entry>, ns: seq<Inst>, list: seq<Entry>, e: Entry)
    ensures Registered(m, ns, list + [e]) == Registered(m, ns, list)[EntryId(ns, e) := e]
  {
    var l := list + [e];
    assert l[..|l| - 1] == list && l[|l| - 1] == e;
  }

  /** The build of the one path `id` of a plain variable not yet in the tree is the creation of its instance at the top. */
  lemma BuiltAtTop(vars: seq<Variable>, look: (Kind, Variable) -> Look, s: Store, id: string, v: Variable)
    requires StoreSound(s) && IsName(id)
    requires FirstWithId(vars, id) == Some(v) && !v.isStatic && ArraySizeIn(GetTypes(v)) == Success(None)
    requires Matching(St(s.nodes, Tops(s.list)), id).None?
    ensures BuildAll(vars, look, St(s.nodes, Tops(s.list)), IdConcatPaths([id])) ==
      PlainCreated(look, St(s.nodes, Tops(s.list)), v, None)
  {
    var st := St(s.nodes, Tops(s.list));
    Strings.SplitFree(id, '.');
    assert IdConcatPaths([id]) == [id] by {
      assert RewriteAll([id]) == [id];
      assert Join([id], '.') == id;
    }
    OneNameBuilt(vars, look, st, id, v);
    assert BuildAll(vars, look, st, [id]) == Build(vars, look, st, [id], None, ModelScope) by {
      assert [id][1..] == [];
    }
  }

  /** `buildInstanceHierarchy` of a one-name path whose variable is plain and not yet in the tree. */
  lemma OneNameBuilt(vars: seq<Variable>, look: (Kind, Variable) -> Look, st: St, id: string, v: Variable)
    requires Sound(st) && IsName(id)
    requires FirstWithId(vars, id) == Some(v) && !v.isStatic && ArraySizeIn(GetTypes(v)) == Success(None)
    requires Matching(st, id).None?
    ensures Build(vars, look, st, [id], None, ModelScope) == PlainCreated(look, st, v, None)
  {
    var o := PlainCreated(look, st, v, None);
    assert [id][1..] == [];
    assert FindVariable(vars, id, ModelScope, false) == Success(Some(v));
    assert InstancePathOf(st, None, id) == id;
    assert PlainBuilt(vars, look, st, [id], None, v) == o;
    assert Located(vars, look, st, [id], None, v, None) == o;
  }

  // ------------------------------------------------------------ the list

  class Instances {
    /** `geppettoModel.getAllVariables()`: the variables a path is looked up in at the top. */
    const variables: seq<Variable>
    /** What the tagging reads off a new instance (its visual type, the metaType of its type), by kind and variable. */
    const look: (Kind, Variable) -> Look
    /** The number of connection variables among the model's composite types. */
    const connectionVariables: nat

    /** The arena of instance nodes. */
    var nodes: seq<Inst>
    /** The list itself: static instances and top-level instance nodes, in the order they were pushed. */
    var list: seq<Entry>
    /** `this[id]`: the shortcuts to the entries of the list. */
    var shortcuts: map<string, Entry>

    /** The tree as the builder sees it. */
    ghost function State(): St
      reads this
    {
      St(nodes, Tops(list))
    }

    ghost predicate Valid()
      reads this
    {
      Sound(State())
    }

    /** An empty list over a model. */
    constructor Empty(variables: seq<Variable>, look: (Kind, Variable) -> Look, connectionVariables: nat)
      ensures this.variables == variables && this.look == look && this.connectionVariables == connectionVariables
      ensures nodes == [] && list == [] && shortcuts == map[] && Valid()
    {
      this.variables := variables;
      this.look := look;
      this.connectionVariables := connectionVariables;
      nodes := [];
      list := [];
      shortcuts := map[];
    }

    /**
     * `ModelUtils.propagateCapabilityToParents(capability, instance)`: up from the parent of
     * `x`, each ancestor lacking the capability gets it, until one already has it.
     */
    method PropagateCapabilityToParents(cap: string, x: nat)
      modifies this
      requires Valid() && x < |nodes|
      ensures nodes == Propagated(old(nodes), old(nodes)[x].parent, cap)
      ensures list == old(list) && shortcuts == old(shortcuts) && Valid()
    {
      var p := nodes[x].parent;
      while p.Some? && cap !in nodes[p.value].capabilities
        invariant WF(nodes) && (p.Some? ==> p.value < |nodes|)
        invariant SameShape(old(nodes), nodes)
        invariant Propagated(nodes, p, cap) == Propagated(old(nodes), old(nodes)[x].parent, cap)
        invariant list == old(list) && shortcuts == old(shortcuts)
        decreases if p.Some? then p.value + 1 else 0
      {
        var q := p.value;
        var ns := AddCapability(nodes, q, cap);
        SameShapeWF(nodes, ns);
        nodes := ns;
        p := nodes[q].parent;
      }
      SameShapeSound(old(State()), nodes);
    }

    /** The tagging of node `x`: its new capabilities, then the visual one propagated when the tagging says so. */
    method Tag(x: nat, t: Tagging)
      modifies this
      requires Valid() && x < |nodes|
      ensures State() == Tagged(old(State()), x, t)
      ensures list == old(list) && shortcuts == old(shortcuts) && Valid()
    {
      var ns := nodes[x := nodes[x].(capabilities := nodes[x].capabilities + t.caps)];
      assert SameShape(nodes, ns);
      SameShapeSound(State(), ns);
      nodes := ns;
      if t.propagates {
        PropagateCapabilityToParents(VISUAL_CAPABILITY, x);
      }
    }

    /**
     * The body of `ModelFactory.updateInstancesCapabilities`' loop for instance `x`, before
     * its children: the visual block, then the metaType checks, each capability added only
     * when missing.
     */
    method UpdateNodeCapabilities(x: nat) returns (err: Option<string>)
      modifies this
      requires Valid() && x < |nodes|
      ensures InstanceCapabilities.Update(nodes, err) == InstanceCapabilities.NodeUpdated(look, old(nodes), x)
      ensures list == old(list) && shortcuts == old(shortcuts) && Valid()
    {
      var l := look(nodes[x].kind, nodes[x].variable);
      if IsVisual(l.visual) && VISUAL_CAPABILITY !in nodes[x].capabilities {
        var ns := AddCapability(nodes, x, VISUAL_CAPABILITY);
        SameShapeSound(State(), ns);
        nodes := ns;
        PropagateCapabilityToParents(VISUAL_CAPABILITY, x);
        if l.visual.VisualList? && l.visual.count > 1 {
          return Some(NOT_IMPLEMENTED);
        }
        if l.visual.SingleVisual? && l.visual.hasGroups {
          var ns := AddCapability(nodes, x, VISUAL_GROUP_CAPABILITY);
          SameShapeSound(State(), ns);
          nodes := ns;
        }
      }
      match l.typeMeta
      case None =>
        return Some(Graph.TYPE_ERROR);
      case Some(m) =>
        var c := MetaCapability(m);
        if |c| == 1 && c[0] !in nodes[x].capabilities {
          var ns := AddCapability(nodes, x, c[0]);
          SameShapeSound(State(), ns);
          nodes := ns;
        }
        err := None;
    }

    /**
     * `ModelFactory.updateInstancesCapabilities(instances)` over the nodes `xs` (all at or
     * after `lo`): each instance is updated, then its children recursively.
     */
    method UpdateInstancesCapabilities(xs: seq<nat>, lo: nat) returns (err: Option<string>)
      modifies this
      requires Valid() && Below(nodes, xs, lo)
      ensures InstanceCapabilities.Update(nodes, err) == InstanceCapabilities.Capped(look, old(nodes), xs, lo)
      ensures list == old(list) && shortcuts == old(shortcuts) && Valid()
      decreases |nodes| - lo, 1
    {
      ghost var spec := InstanceCapabilities.Capped(look, nodes, xs, lo);
      assert xs[0..] == xs;
      for i := 0 to |xs|
        invariant Valid() && Below(nodes, xs[i..], lo) && |nodes| == |old(nodes)|
        invariant spec == InstanceCapabilities.Capped(look, nodes, xs[i..], lo)
        invariant list == old(list) && shortcuts == old(shortcuts)
      {
        assert xs[i..][0] == xs[i] && xs[i..][1..] == xs[i + 1..];
        InstanceCapabilities.CappedBySubtree(look, nodes, xs[i..], lo);
        err := UpdateSubtreeCapabilities(xs[i]);
        if err.Some? {
          return;
        }
      }
      assert xs[|xs|..] == [];
      assert InstanceCapabilities.Capped(look, nodes, [], lo) == InstanceCapabilities.Update(nodes, None);
      err := None;
    }

    /** One iteration of the loop: instance `x`, then the recursive call on its children. */
    method UpdateSubtreeCapabilities(x: nat) returns (err: Option<string>)
      modifies this
      requires Valid() && x < |nodes|
      ensures InstanceCapabilities.Update(nodes, err) == InstanceCapabilities.Subtree(look, old(nodes), x)
      ensures list == old(list) && shortcuts == old(shortcuts) && Valid()
      decreases |nodes| - x, 0
    {
      err := UpdateNodeCapabilities(x);
      if err.Some? {
        return;
      }
      SameShapeWF(old(nodes), nodes);
      err := UpdateInstancesCapabilities(nodes[x].children, x + 1);
    }

    /** `parentInstance.addChild(x)`, or the push onto the list when there is no parent. */
    method AttachTo(x: nat, parent: Option<nat>)
      modifies this
      requires Valid() && x < |nodes| && nodes[x].parent == parent
      ensures State() == Attach(old(State()), x, parent)
      ensures Extended(old(list), list) && (parent.Some? ==> list == old(list))
      ensures shortcuts == old(shortcuts) && Valid()
    {
      match parent
      case None =>
        TopsSnoc(list, NodeEntry(x));
        list := list + [NodeEntry(x)];
      case Some(p) =>
        nodes := nodes[p := nodes[p].(children := nodes[p].children + [x])];
    }

    /** A new leaf node at the end of the arena. */
    method AddLeaf(n: Inst)
      modifies this
      requires Valid() && n.children == [] && (n.parent.Some? ==> n.parent.value < |nodes|)
      ensures State() == AddNode(old(State()), n)
      ensures list == old(list) && shortcuts == old(shortcuts) && Valid()
    {
      nodes := nodes + [n];
    }

    /** The plain-instance branch of STEP 2: create, tag, and attach unless the tagging threw. */
    method CreatePlainInstance(v: Variable, parent: Option<nat>) returns (err: Option<string>)
      modifies this
      requires Valid() && (parent.Some? ==> parent.value < |nodes|)
      ensures Outcome(State(), err) == PlainCreated(look, old(State()), v, parent)
      ensures Extended(old(list), list) && shortcuts == old(shortcuts) && Valid()
    {
      var x := |nodes|;
      var t := PlainTagging(look(PlainInst, v));
      AddLeaf(Inst(v.id, v.name, PlainInst, v, parent, [], []));
      Tag(x, t);
      err := t.err;
      if err.None? {
        AttachTo(x, parent);
      }
    }

    /** One turn of the element loop: element `k` of array node `arr`, stored in the array unless its tagging threw. */
    method CreateElementInstance(arr: nat, v: Variable, k: nat) returns (err: Option<string>)
      modifies this
      requires Valid() && arr < |nodes|
      ensures Outcome(State(), err) == ElementCreated(look, old(State()), arr, v, k)
      ensures list == old(list) && shortcuts == old(shortcuts) && Valid()
    {
      var x := |nodes|;
      var t := ElementTagging(look(ElementInst(k), v));
      AddLeaf(Inst(ElementId(v.id, k), ElementId(v.name, k), ElementInst(k), v, Some(arr), [], []));
      Tag(x, t);
      err := t.err;
      if err.None? {
        AttachTo(x, Some(arr));
      }
    }
  
    /** The element loop of the array branch: elements `0` … `size - 1` of the array node `a`, in order. */
    method ExplodeElements(a: nat, v: Variable, size: int) returns (err: Option<string>)
      modifies this
      requires Valid() && |nodes| == a + 1 && nodes[a].children == []
      ensures Outcome(State(), err) == ElementsFrom(look, old(State()), a, v, 0, LoopCount(size))
      ensures err.None? ==> nodes[a].children == Range(a + 1, LoopCount(size)) && ElementsAt(nodes, a, v, LoopCount(size))
      ensures list == old(list) && shortcuts == old(shortcuts) && Valid()
    {
      var n := LoopCount(size);
      ghost var spec := ElementsFrom(look, State(), a, v, 0, n);
      for i := 0 to n
        invariant Valid() && |nodes| == a + 1 + i
        invariant spec == ElementsFrom(look, State(), a, v, i, n)
        invariant nodes[a].children == Range(a + 1, i) && ElementsAt(nodes, a, v, i)
        invariant list == old(list) && shortcuts == old(shortcuts)
      {
        err := ExplodeStep(a, v, i, n);
        if err.Some? {
          return;
        }
      }
      assert ElementsFrom(look, State(), a, v, n, n) == Outcome(State(), None);
      err := None;
    }

    /** One turn of the element loop, stated as the loop needs it. */
    method ExplodeStep(a: nat, v: Variable, i: nat, n: nat) returns (err: Option<string>)
      modifies this
      requires Valid() && i < n && |nodes| == a + 1 + i
      requires nodes[a].children == Range(a + 1, i) && ElementsAt(nodes, a, v, i)
      ensures |nodes| == a + 2 + i && list == old(list) && shortcuts == old(shortcuts) && Valid()
      ensures ElementsFrom(look, old(State()), a, v, i, n) ==
        if err.Some? then Outcome(State(), err) else ElementsFrom(look, State(), a, v, i + 1, n)
      ensures err.None? ==> nodes[a].children == Range(a + 1, i + 1) && ElementsAt(nodes, a, v, i + 1)
    {
      ElementsAdvance(look, a, v, i, State());
      err := CreateElementInstance(a, v, i);
    }

    /**
     * The array branch of STEP 2: an array instance of `size`, exploded into elements
     * `id[0]` … `id[size-1]` with indices 0 … size-1, each stored in the array, and the
     * array attached to its parent (or pushed onto the list) once all of them exist.
     */
    method CreateArrayInstance(v: Variable, size: int, parent: Option<nat>) returns (err: Option<string>)
      modifies this
      requires Valid() && (parent.Some? ==> parent.value < |nodes|)
      ensures Outcome(State(), err) == ArrayCreated(look, old(State()), v, size, parent)
      ensures err.None? ==> nodes[old(|nodes|)].children == Range(old(|nodes|) + 1, LoopCount(size))
      ensures err.None? ==> ElementsAt(nodes, old(|nodes|), v, LoopCount(size))
      ensures Extended(old(list), list) && shortcuts == old(shortcuts) && Valid()
    {
      var a := |nodes|;
      AddLeaf(Inst(v.id, v.name, ArrayInst(size), v, parent, [], []));
      err := ExplodeElements(a, v, size);
      if err.Some? {
        return;
      }
      AttachKeepsElements(State(), a, parent, v, LoopCount(size));
      AttachTo(a, parent);
    }
  
    /**
     * `buildInstanceHierarchy(path, parentInstance, model, topLevelInstances)` with this list
     * as the top-level instances (`model` is the model itself for the scope of the model, a
     * variable otherwise): the tree it leaves and what it throws are those the builder's
     * specification gives for the ids of `path`.
     */
    method BuildInstanceHierarchy(path: string, parent: Option<nat>, scope: Scope) returns (err: Option<string>)
      modifies this
      requires Valid() && CallOK(State(), parent, scope)
      ensures Outcome(State(), err) == Build(variables, look, old(State()), Split(path, '.'), parent, scope)
      ensures Valid() && Extended(old(list), list) && shortcuts == old(shortcuts)
      decreases |Split(path, '.')|, 3
    {
      var ids := Split(path, '.');
      var isArray := parent.Some? && nodes[parent.value].kind.ArrayInst?;
      var found := FindVariableFor(variables, ids[0], scope, isArray);
      if found.Failure? {
        return Some(found.error);
      }
      if found.value.None? {
        return None;
      }
      var v := found.value.value;
      var size := ArraySizeOf(GetTypes(v));
      if size.Failure? {
        return Some(size.error);
      }
      err := BuildFound(path, parent, v, size.value);
    }

    /**
     * STEP 2 and 3 once the variable is known: an instance already at the instance path is
     * reused, else the variable is exploded, skipped (static) or instantiated; the rest of
     * the path is then built under what was reused or created.
     */
    method BuildFound(path: string, parent: Option<nat>, v: Variable, size: Option<int>) returns (err: Option<string>)
      modifies this
      requires Valid() && (parent.Some? ==> parent.value < |nodes|)
      ensures Outcome(State(), err) == Located(variables, look, old(State()), Split(path, '.'), parent, v, size)
      ensures Valid() && Extended(old(list), list) && shortcuts == old(shortcuts)
      decreases |Split(path, '.')|, 2
    {
      var ids := Split(path, '.');
      var instancePath := if parent.Some? then RawPath(nodes, parent.value) + "." + ids[0] else ids[0];
      var m := FindMatchingInstance(nodes, instancePath, Tops(list), 0);
      if m.Some? {
        FoundMeans(nodes, Tops(list), 0, instancePath);
        var newPath := PointerChains.DropFirstSegment(ids);
        if newPath != "" {
          SplitPartsFree(path, '.');
          SplitJoin(ids[1..], '.');
          err := BuildInstanceHierarchy(newPath, m, VariableScope(v));
        } else {
          err := None;
        }
      } else if size.Some? {
        err := BuildArray(path, parent, v, size.value);
      } else if v.isStatic {
        err := None;
      } else {
        err := BuildPlain(path, parent, v);
      }
    }

    /** A new array instance; with more path to build, STEP 3 runs under each of its elements. */
    method BuildArray(path: string, parent: Option<nat>, v: Variable, size: int) returns (err: Option<string>)
      modifies this
      requires Valid() && (parent.Some? ==> parent.value < |nodes|)
      ensures Outcome(State(), err) == ArrayBuilt(variables, look, old(State()), Split(path, '.'), parent, v, size)
      ensures Valid() && Extended(old(list), list) && shortcuts == old(shortcuts)
      decreases |Split(path, '.')|, 1
    {
      var ids := Split(path, '.');
      var a := |nodes|;
      err := CreateArrayInstance(v, size, parent);
      if err.Some? {
        return;
      }
      var newPath := PointerChains.DropFirstSegment(ids);
      if newPath == "" {
        return;
      }
      SplitPartsFree(path, '.');
      SplitJoin(ids[1..], '.');
      RangeAt(a + 1, LoopCount(size));
      err := BuildUnderEach(newPath, Range(a + 1, LoopCount(size)), v);
    }

    /** A new plain instance; with more path to build, STEP 3 runs under it. */
    method BuildPlain(path: string, parent: Option<nat>, v: Variable) returns (err: Option<string>)
      modifies this
      requires Valid() && (parent.Some? ==> parent.value < |nodes|)
      ensures Outcome(State(), err) == PlainBuilt(variables, look, old(State()), Split(path, '.'), parent, v)
      ensures Valid() && Extended(old(list), list) && shortcuts == old(shortcuts)
      decreases |Split(path, '.')|, 1
    {
      var ids := Split(path, '.');
      var x := |nodes|;
      err := CreatePlainInstance(v, parent);
      if err.Some? {
        return;
      }
      var newPath := PointerChains.DropFirstSegment(ids);
      if newPath == "" {
        return;
      }
      SplitPartsFree(path, '.');
      SplitJoin(ids[1..], '.');
      err := BuildInstanceHierarchy(newPath, Some(x), VariableScope(v));
    }

    /** The loop of STEP 3 over the exploded elements, each the parent of the rest of the path. */
    method BuildUnderEach(path: string, xs: seq<nat>, v: Variable) returns (err: Option<string>)
      modifies this
      requires Valid() && forall k :: 0 <= k < |xs| ==> xs[k] < |nodes|
      ensures Outcome(State(), err) == BuildEach(variables, look, old(State()), Split(path, '.'), xs, v)
      ensures Valid() && Extended(old(list), list) && shortcuts == old(shortcuts)
      decreases |Split(path, '.')|, 4
    {
      ghost var ids := Split(path, '.');
      var i := 0;
      while i < |xs|
        invariant 0 <= i <= |xs| && Valid() && Extended(old(list), list) && shortcuts == old(shortcuts)
        invariant forall k :: 0 <= k < |xs| ==> xs[k] < |nodes|
        invariant BuildEach(variables, look, old(State()), ids, xs, v) == BuildEach(variables, look, State(), ids, xs[i..], v)
      {
        assert xs[i..][0] == xs[i] && xs[i..][1..] == xs[i + 1..];
        err := BuildInstanceHierarchy(path, Some(xs[i]), VariableScope(v));
        if err.Some? {
          return;
        }
        i := i + 1;
      }
      assert xs[i..] == [];
      err := None;
    }
  
    /** The list, its arena and its shortcuts as a value. */
    ghost function Contents(): Store
      reads this
    {
      Store(nodes, list, shortcuts)
    }

    /**
     * The loops that build a list of paths from the top, one after the other: the first
     * throw ends the loop.
     */
    method BuildEveryPath(paths: seq<string>) returns (err: Option<string>)
      modifies this
      requires Valid()
      ensures Outcome(State(), err) == BuildAll(variables, look, old(State()), paths)
      ensures Valid() && Extended(old(list), list) && shortcuts == old(shortcuts)
    {
      for j := 0 to |paths|
        invariant Valid() && Extended(old(list), list) && shortcuts == old(shortcuts)
        invariant BuildAll(variables, look, old(State()), paths) == BuildAll(variables, look, State(), paths[j..])
      {
        assert paths[j..][0] == paths[j] && paths[j..][1..] == paths[j + 1..];
        ghost var before := list;
        err := BuildInstanceHierarchy(paths[j], None, ModelScope);
        ExtendedTrans(old(list), before, list);
        if err.Some? {
          return;
        }
      }
      assert paths[|paths|..] == [];
      err := None;
    }

    /** The first loop of `addInstances`: each path is rewritten, then built from the top. */
    method BuildRewrittenPaths(paths: seq<string>) returns (err: Option<string>)
      modifies this
      requires Valid()
      ensures Outcome(State(), err) == BuildAll(variables, look, old(State()), IdConcatPaths(paths))
      ensures Valid() && Extended(old(list), list) && shortcuts == old(shortcuts)
    {
      ghost var all := IdConcatPaths(paths);
      for j := 0 to |paths|
        invariant Valid() && Extended(old(list), list) && shortcuts == old(shortcuts)
        invariant BuildAll(variables, look, old(State()), all) == BuildAll(variables, look, State(), all[j..])
      {
        var idConcatPath := IdConcatPathOf(paths[j]);
        assert all[j..][0] == idConcatPath && all[j..][1..] == all[j + 1..];
        ghost var before := list;
        err := BuildInstanceHierarchy(idConcatPath, None, ModelScope);
        ExtendedTrans(old(list), before, list);
        if err.Some? {
          return;
        }
      }
      assert all[|paths|..] == [];
      err := None;
    }

    /** `topInstances[topInstances[k].getId()] = topInstances[k]` for every entry, in order. */
    method RegisterTopInstances()
      modifies this
      ensures shortcuts == Registered(old(shortcuts), nodes, list)
      ensures nodes == old(nodes) && list == old(list)
    {
      for k := 0 to |list|
        invariant nodes == old(nodes) && list == old(list)
        invariant shortcuts == Registered(old(shortcuts), nodes, list[..k])
      {
        assert list[..k + 1][..k] == list[..k];
        shortcuts := shortcuts[EntryId(nodes, list[k]) := list[k]];
      }
      assert list[..|list|] == list;
    }

    /** `addInstancesFromPaths(instancePaths)`, i.e. `InstanceFactory.addInstances(instancePaths, this, model)`. */
    method AddInstancesFromPaths(paths: seq<string>) returns (err: Option<string>)
      modifies this
      requires Valid()
      ensures Change(Contents(), err) == Added(variables, look, old(Contents()), paths)
      ensures Valid()
    {
      err := BuildRewrittenPaths(paths);
      ExtendedList(old(list), list);
      if err.None? {
        RegisterTopInstances();
      }
    }

    /**
     * `addInstances(instances)`: every instance has its connections updated, which changes
     * nothing here (the connection instances made stay in a local list), and then all are pushed.
     */
    method AddInstances(instances: seq<Entry>)
      modifies this
      requires Sound(St(nodes, Tops(list + instances)))
      ensures list == old(list) + instances && nodes == old(nodes) && shortcuts == old(shortcuts) && Valid()
    {
      list := list + instances;
    }

    /**
     * `deleteInstance(instance)`: `removeMatchingInstanceFromArray` on the parent's children,
     * or on the list for an instance without a parent.
     */
    method DeleteInstance(instance: Entry)
      modifies this
      requires Valid()
      ensures Contents() == Deleted(old(Contents()), instance) && Valid()
    {
      var instancePath := EntryPath(nodes, instance);
      var parent := ParentOf(nodes, instance);
      match parent
      case None =>
        RemoveFromList(instancePath);
      case Some(p) =>
        RemoveFromChildren(p, instancePath);
    }

    /** `removeMatchingInstanceFromArray` on the list: the first entry with the path goes. */
    method RemoveFromList(instancePath: string)
      modifies this
      requires Valid()
      ensures list == Spliced(old(list), FirstWithPath(old(nodes), old(list), instancePath))
      ensures nodes == old(nodes) && shortcuts == old(shortcuts) && Valid()
    {
      var index := MatchingIndex(nodes, list, instancePath);
      if index.Some? {
        FirstMatchIsFirst(nodes, list, instancePath, index.value);
        SplicedListSound(Contents(), index.value);
        list := list[..index.value] + list[index.value + 1..];
      } else {
        assert FirstWithPath(nodes, list, instancePath) == |list|;
      }
    }

    /** `removeMatchingInstanceFromArray` on the children of node `p`: the first child with the path goes. */
    method RemoveFromChildren(p: nat, instancePath: string)
      modifies this
      requires Valid() && p < |nodes|
      ensures var cs := old(nodes)[p].children;
        nodes == old(nodes)[p := old(nodes)[p].(children := Spliced(cs, FirstWithPath(old(nodes), NodeEntries(cs), instancePath)))]
      ensures list == old(list) && shortcuts == old(shortcuts) && Valid()
    {
      var ns := nodes;
      var cs := ns[p].children;
      var index := MatchingIndex(ns, NodeEntries(cs), instancePath);
      if index.Some? {
        ghost var s := Store(ns, list, shortcuts);
        ChildSpliced(s, p, instancePath, index.value);
        var ns' := ns[p := ns[p].(children := Spliced(cs, index.value))];
        assert StoreSound(s.(nodes := ns'));
        nodes := ns';
        assert Contents() == s.(nodes := ns');
      } else {
        NoChildWithPath(ns, p, instancePath);
      }
    }

    /** The `catch` of the `i`th path. */
    method Retry(path: string, i: nat, found: seq<Value>, create: bool) returns (instances: seq<Value>, err: Option<string>)
      modifies this
      requires Valid()
      ensures Got(Contents(), instances, err) == Retried(variables, look, old(Contents()), path, i, found, create)
      ensures Valid()
    {
      instances, err := found, None;
      if create {
        err := AddInstancesFromPaths([path]);
        if err.Some? {
          return;
        }
        var x := Eval(nodes, shortcuts, path);
        if x.Failure? {
          err := Some(x.error);
          return;
        }
        instances := StoredAt(found, i, x.value);
      }
    }

    /** `addInstancesFromPaths(path)` and the push of what the path then names, in the `try`. */
    method Rebuild(path: string, i: nat, found: seq<Value>, create: bool) returns (instances: seq<Value>, err: Option<string>)
      modifies this
      requires Valid()
      ensures Got(Contents(), instances, err) == Rebuilt(variables, look, old(Contents()), path, i, found, create)
      ensures Valid()
    {
      err := AddInstancesFromPaths([path]);
      if err.Some? {
        instances, err := Retry(path, i, found, create);
        return;
      }
      var x := Eval(nodes, shortcuts, path);
      if x.Failure? {
        instances, err := Retry(path, i, found, create);
        return;
      }
      instances := found + [x.value];
    }

    /** The `i`th path of `getInstance`'s loop. */
    method FetchPath(path: string, i: nat, found: seq<Value>, create: bool, override: bool)
      returns (instances: seq<Value>, err: Option<string>)
      modifies this
      requires Valid()
      ensures Got(Contents(), instances, err) == Fetched(variables, look, old(Contents()), path, i, found, create, override)
      ensures Valid()
    {
      var potentialVar := Eval(nodes, shortcuts, path);
      if potentialVar.Failure? {
        instances, err := Retry(path, i, found, create);
        return;
      }
      match potentialVar.value
      case Undefined =>
        if create {
          instances, err := Rebuild(path, i, found, create);
        } else {
          instances, err := found, None;
        }
      case Found(e) =>
        if override {
          DeleteInstance(e);
          instances, err := Rebuild(path, i, found, create);
        } else {
          instances, err := found + [Found(e)], None;
        }
    }

    /**
     * `getInstance(instancePath, create, override)`: the wildcards expanded against the list
     * as it is, each path fetched in turn, and the sole instance or the list returned.
     */
    method GetInstance(instancePath: OneOrMany<string>, create: Option<bool>, override: bool)
      returns (r: Result<OneOrMany<Value>>)
      modifies this
      requires Valid()
      requires forall k :: 0 <= k < |Requested(instancePath)| ==> Wildcards.SingleWildcard(Requested(instancePath)[k])
      ensures Answer(Contents(), r) == GotInstance(variables, look, old(Contents()), instancePath, create, override)
      ensures Valid()
    {
      var doCreate := create != Some(false);
      var expanded := Wildcards.ExpandWildcards(Requested(instancePath), Sizes(Store(nodes, list, shortcuts)));
      if expanded.Failure? {
        return Failure(expanded.error);
      }
      var paths := expanded.value;
      ghost var s0 := Contents();
      var instances: seq<Value> := [];
      for i := 0 to |paths|
        invariant Valid()
        invariant Fetches(variables, look, s0, paths, 0, [], doCreate, override) ==
          Fetches(variables, look, Contents(), paths, i, instances, doCreate, override)
      {
        var err;
        instances, err := FetchPath(paths[i], i, instances, doCreate, override);
        if err.Some? {
          return Failure(err.value);
        }
      }
      r := Success(Returned(instances, instancePath.Many?));
    }

    /** The rest of the constructor: the world's static instances go before the instances built, then every entry gets its shortcut. */
    method PlaceInstances(statics: seq<Worlds.StaticInstance>)
      modifies this
      requires Valid() && shortcuts == map[]
      ensures nodes == old(nodes) && list == StaticEntries(statics) + old(list)
      ensures shortcuts == Registered(map[], nodes, list) && Valid()
    {
      var instances := StaticEntries(statics) + list;
      TopsConcat(StaticEntries(statics), list);
      list := [];
      assert list + instances == instances;
      AddInstances(instances);
      RegisterTopInstances();
    }
  }

  /** `removeMatchingInstanceFromArray`'s search: the first index whose entry has `path`, if any. */
  method MatchingIndex(ns: seq<Inst>, instanceArray: seq<Entry>, path: string) returns (index: Option<nat>)
    requires WF(ns)
    ensures index.Some? ==> FirstMatch(ns, instanceArray, path, index.value)
    ensures index.None? ==> forall j :: 0 <= j < |instanceArray| ==> EntryPath(ns, instanceArray[j]) != path
  {
    for i := 0 to |instanceArray|
      invariant forall j :: 0 <= j < i ==> EntryPath(ns, instanceArray[j]) != path
    {
      if EntryPath(ns, instanceArray[i]) == path {
        return Some(i);
      }
    }
    return None;
  }

  /**
   * `new Instances(model)`: `instantiateVariables` builds the model's variables with visual
   * types from the top into a list of their own; the current world's static instances come
   * first and those top-level instances after them; then every entry gets its shortcut.
   */
  ghost function Constructed(vars: seq<Variable>, look: (Kind, Variable) -> Look, statics: seq<Worlds.StaticInstance>): (r: Result<Store>)
    ensures r.Success? ==> StoreSound(r.value)
  {
    match Walks.VisualPaths(vars, "")
    case Failure(e) => Failure(e)
    case Success(paths) => ConstructedFrom(vars, look, statics, paths)
  }

  /** The constructor once the paths of the variables with visual types are known. */
  ghost function ConstructedFrom(vars: seq<Variable>, look: (Kind, Variable) -> Look, statics: seq<Worlds.StaticInstance>,
                                 paths: seq<string>): (r: Result<Store>)
    ensures r.Success? ==> StoreSound(r.value)
  {
    assert Sound(St([], []));
    var o := BuildAll(vars, look, St([], []), paths);
    if o.err.Some? then Failure(o.err.value)
    else
      var list := StaticEntries(statics) + NodeEntries(o.st.top);
      TopsConcat(StaticEntries(statics), NodeEntries(o.st.top));
      assert Tops(list) == o.st.top by {
        assert [] + o.st.top == o.st.top;
      }
      Success(Store(o.st.nodes, list, Registered(map[], o.st.nodes, list)))
  }

  /** Registering a list from scratch: every entry's id leads to an entry of the list with that id. */
  lemma RegisteredFromEmpty(ns: seq<Inst>, list: seq<Entry>)
    ensures forall k :: 0 <= k < |list| ==> EntryId(ns, list[k]) in Registered(map[], ns, list)
    ensures forall x :: x in Registered(map[], ns, list) ==>
      exists k :: 0 <= k < |list| && list[k] == Registered(map[], ns, list)[x] && EntryId(ns, list[k]) == x
  {
    var r := Registered(map[], ns, list);
    forall k | 0 <= k < |list| ensures EntryId(ns, list[k]) in r {
      RegisteredLastWins(map[], ns, list, EntryId(ns, list[k]));
    }
    forall x | x in r ensures exists k :: 0 <= k < |list| && list[k] == r[x] && EntryId(ns, list[k]) == x {
      RegisteredLastWins(map[], ns, list, x);
    }
  }

  /** The assembled list: the static entries, in order, then only tree nodes, whose ids are `top`. */
  lemma {:induction false} AssembledList(top: seq<nat>, statics: seq<Worlds.StaticInstance>, list: seq<Entry>)
    requires list == StaticEntries(statics) + NodeEntries(top)
    ensures Tops(list) == top && |statics| <= |list| && list[..|statics|] == StaticEntries(statics)
    ensures forall k :: |statics| <= k < |list| ==> list[k].NodeEntry?
  {
    var st := StaticEntries(statics);
    var ne := NodeEntries(top);
    TopsConcat(st, ne);
    assert [] + top == top;
    assert list[..|statics|] == st;
    forall k | |statics| <= k < |list| ensures list[k].NodeEntry? {
      assert list[k] == ne[k - |statics|];
    }
  }

  /** Registering the assembled list from scratch keeps the tree linked. */
  lemma AssembledNamed(ns: seq<Inst>, top: seq<nat>, list: seq<Entry>)
    requires Sound(St(ns, top)) && NamedElements(ns) && Tops(list) == top
    ensures Linked(Store(ns, list, Registered(map[], ns, list)))
  {
    assert TopsNamed(ns, map[]);
    RegisteredNamed(map[], ns, list);
  }

  /** The store the constructor assembles from a built tree and the world's static instances. */
  lemma AssembledLinked(ns: seq<Inst>, top: seq<nat>, statics: seq<Worlds.StaticInstance>)
    requires Sound(St(ns, top)) && NamedElements(ns)
    ensures var list := StaticEntries(statics) + NodeEntries(top);
      var s := Store(ns, list, Registered(map[], ns, list));
      Linked(s) && |statics| <= |s.list| && s.list[..|statics|] == StaticEntries(statics) &&
      (forall k :: |statics| <= k < |s.list| ==> s.list[k].NodeEntry?) &&
      (forall k :: 0 <= k < |s.list| ==> EntryId(s.nodes, s.list[k]) in s.shortcuts) &&
      (forall x :: x in s.shortcuts ==> exists k :: 0 <= k < |s.list| && s.list[k] == s.shortcuts[x] && EntryId(s.nodes, s.list[k]) == x)
  {
    var list := StaticEntries(statics) + NodeEntries(top);
    AssembledList(top, statics, list);
    AssembledNamed(ns, top, list);
    RegisteredFromEmpty(ns, list);
  }

  /** `ConstructedLinked` once the paths of the variables with visual types are known. */
  lemma ConstructedFromLinked(vars: seq<Variable>, look: (Kind, Variable) -> Look, statics: seq<Worlds.StaticInstance>,
                              paths: seq<string>)
    requires ConstructedFrom(vars, look, statics, paths).Success?
    ensures var s := ConstructedFrom(vars, look, statics, paths).value;
      Linked(s) && |statics| <= |s.list| && s.list[..|statics|] == StaticEntries(statics) &&
      (forall k :: |statics| <= k < |s.list| ==> s.list[k].NodeEntry?) &&
      (forall k :: 0 <= k < |s.list| ==> EntryId(s.nodes, s.list[k]) in s.shortcuts) &&
      (forall x :: x in s.shortcuts ==> exists k :: 0 <= k < |s.list| && s.list[k] == s.shortcuts[x] && EntryId(s.nodes, s.list[k]) == x)
  {
    assert Sound(St([], []));
    var o := BuildAll(vars, look, St([], []), paths);
    BuildAllNames(vars, look, St([], []), paths);
    var list := StaticEntries(statics) + NodeEntries(o.st.top);
    assert ConstructedFrom(vars, look, statics, paths).value == Store(o.st.nodes, list, Registered(map[], o.st.nodes, list));
    AssembledLinked(o.st.nodes, o.st.top, statics);
  }

  /**
   * The list a model starts with holds the world's static instances, in order, then the
   * instances built; it is linked; every entry is reachable by its id, and every shortcut
   * leads to an entry of the list with that id.
   */
  lemma ConstructedLinked(vars: seq<Variable>, look: (Kind, Variable) -> Look, statics: seq<Worlds.StaticInstance>)
    requires Constructed(vars, look, statics).Success?
    ensures var s := Constructed(vars, look, statics).value;
      Linked(s) && |statics| <= |s.list| && s.list[..|statics|] == StaticEntries(statics) &&
      (forall k :: |statics| <= k < |s.list| ==> s.list[k].NodeEntry?) &&
      (forall k :: 0 <= k < |s.list| ==> EntryId(s.nodes, s.list[k]) in s.shortcuts) &&
      (forall x :: x in s.shortcuts ==> exists k :: 0 <= k < |s.list| && s.list[k] == s.shortcuts[x] && EntryId(s.nodes, s.list[k]) == x)
  {
    ConstructedFromLinked(vars, look, statics, Walks.VisualPaths(vars, "").value);
  }

  /** `new Instances(geppettoModel)`; a throw leaves no list behind. */
  method NewInstances(variables: seq<Variable>, look: (Kind, Variable) -> Look, connectionVariables: nat,
                      statics: seq<Worlds.StaticInstance>) returns (r: Instances, err: Option<string>)
    ensures fresh(r) && r.variables == variables && r.look == look && r.connectionVariables == connectionVariables
    ensures err.None? <==> Constructed(variables, look, statics).Success?
    ensures err.Some? ==> err.value == Constructed(variables, look, statics).error
    ensures err.None? ==> r.Contents() == Constructed(variables, look, statics).value && r.Valid()
  {
    r := new Instances.Empty(variables, look, connectionVariables);
    var paths := Walks.FetchVarsWithVisualTypes(variables, "");
    if paths.Failure? {
      return r, Some(paths.error);
    }
    ghost var spec := ConstructedFrom(variables, look, statics, paths.value);
    assert Constructed(variables, look, statics) == spec;
    err := r.BuildEveryPath(paths.value);
    ghost var o := BuildAll(variables, look, St([], []), paths.value);
    assert r.nodes == o.st.nodes && Tops(r.list) == o.st.top && err == o.err;
    if err.Some? {
      return;
    }
    ExtendedList([], r.list);
    assert r.list == NodeEntries(o.st.top);
    r.PlaceInstances(statics);
  }
}
