/**
 * The node layer every model object shares (GeppettoModelNode, ObjectWrapper,
 * InstantiableNode): the parent chain, `findRoot`, dotted paths, the
 * instance descriptor and the id shortcuts a node installs for its children.
 */
module Nodes {
  import opened Wrappers
  import opened Strings
  import opened Seqs

  /** Which client class wraps a node; the shortcut and path rules look at it. */
  datatype Kind = KModel | KLibrary | KType | KVariable | KWorld | KInstance | KArrayInstance | KOther

  /** The wrapped raw object: `id`, `name` and `eClass`, plus the wrapping class. */
  datatype Wrapped = Wrapped(id: string, name: string, eClass: string, kind: Kind)

  /** A node with its parent chain; the root is the node whose parent is `null`. */
  datatype Node = Root(w: Wrapped) | Child(w: Wrapped, parent: Node)

  /** The parent handed to the constructor: absent, `null`, or a node. */
  datatype ParentArg = UndefinedParent | NullParent | ParentNode(n: Node)

  const PARENT_MISSING: string := "Parent must be specified"

  function GetId(n: Node): string { n.w.id }
  function GetName(n: Node): string { n.w.name }
  function GetMetaType(n: Node): string { n.w.eClass }

  /** The constructor: an absent parent throws, `null` makes a root, a node makes a child of it. */
  function Construct(w: Wrapped, p: ParentArg): (r: Result<Node>)
    ensures r.Failure? <==> p.UndefinedParent?
    ensures r.Failure? ==> r.error == PARENT_MISSING
    ensures p.NullParent? ==> r == Success(Root(w))
    ensures p.ParentNode? ==> r == Success(Child(w, p.n))
    ensures r.Success? ==> r.value.w == w
  {
    match p
    case UndefinedParent => Failure(PARENT_MISSING)
    case NullParent => Success(Root(w))
    case ParentNode(n) => Success(Child(w, n))
  }

  /** `findRoot`: follow parent links until the parent is `null`. */
  function FindRoot(n: Node): Wrapped
  {
    match n
    case Root(w) => w
    case Child(_, p) => FindRoot(p)
  }

  /** The wrapped objects from the root down to `n`: the reference view of the chain. */
  function Ancestry(n: Node): (r: seq<Wrapped>)
    ensures |r| >= 1 && r[|r| - 1] == n.w
  {
    match n
    case Root(w) => [w]
    case Child(w, p) => Ancestry(p) + [w]
  }

  lemma {:induction false} FindRootIsFirst(n: Node)
    ensures FindRoot(n) == Ancestry(n)[0]
  {
    if n.Child? {
      FindRootIsFirst(n.parent);
    }
  }

  /** The `geppettoModel` field the constructor sets: the root, on every node but the root. */
  function GeppettoModelOf(n: Node): (r: Option<Wrapped>)
    ensures n.Root? <==> r.None?
    ensures r.Some? ==> r.value == Ancestry(n)[0]
  {
    FindRootIsFirst(n);
    if n.Root? then None else Some(FindRoot(n))
  }

  /** `ObjectWrapper.getPath`: the parent's path, a dot and the id; a root's path is its id. */
  function GetPath(n: Node): string
  {
    match n
    case Root(w) => w.id
    case Child(w, p) => GetPath(p) + "." + w.id
  }

  function Ids(ws: seq<Wrapped>): (r: seq<string>)
    ensures |r| == |ws|
    ensures forall k :: 0 <= k < |ws| ==> r[k] == ws[k].id
  {
    Map(ws, (w: Wrapped) => w.id)
  }

  /** A path is the ids from the root down, joined by dots. */
  lemma {:induction false} PathIsJoinedIds(n: Node)
    ensures GetPath(n) == Join(Ids(Ancestry(n)), '.')
  {
    if n.Child? {
      PathIsJoinedIds(n.parent);
      var a := Ids(Ancestry(n.parent));
      assert Ids(Ancestry(n)) == a + [n.w.id];
      JoinSnoc(a, n.w.id, '.');
    }
  }

  lemma {:induction false} JoinSnoc(parts: seq<string>, x: string, c: char)
    requires |parts| >= 1
    ensures Join(parts + [x], c) == Join(parts, c) + [c] + x
    decreases |parts|
  {
    if |parts| == 1 {
      assert (parts + [x])[1..] == [x];
    } else {
      assert (parts + [x])[1..] == parts[1..] + [x];
      JoinSnoc(parts[1..], x, c);
    }
  }

  /** When no id holds a dot, splitting a path on dots gives back the chain of ids. */
  lemma PathSplitsIntoIds(n: Node)
    requires forall w :: w in Ancestry(n) ==> '.' !in w.id
    ensures Split(GetPath(n), '.') == Ids(Ancestry(n))
  {
    PathIsJoinedIds(n);
    var ids := Ids(Ancestry(n));
    forall k | 0 <= k < |ids| ensures '.' !in ids[k] {
      assert Ancestry(n)[k] in Ancestry(n);
    }
    SplitJoin(ids, '.');
  }

  /** `Type.getPath`: an anonymous type (its parent is a variable) takes the variable's path. */
  function TypePath(t: Node): (r: string)
    ensures t.Child? && t.parent.w.kind == KVariable ==> r == GetPath(t.parent)
    ensures !(t.Child? && t.parent.w.kind == KVariable) ==> r == GetPath(t)
  {
    if t.Child? && t.parent.w.kind == KVariable then GetPath(t.parent) else GetPath(t)
  }

  /** The record `getInstanceDescriptor` returns; the catalogue uses the same shape. */
  datatype Descriptor = Descriptor(path: string, metaType: string, typePath: string, isStatic: bool)

  /** `InstantiableNode.isStatic`: false unless a subclass overrides it. */
  const DEFAULT_IS_STATIC: bool := false

  /**
   * `getInstanceDescriptor` of node `n` whose single type is the node `t`;
   * `isStatic` is the value the node's `isStatic()` returns.
   */
  function InstanceDescriptor(n: Node, t: Node, isStatic: bool): (d: Descriptor)
    ensures d.path == GetPath(n)
    ensures d.metaType == GetMetaType(t)
    ensures d.typePath == TypePath(t)
    ensures d.isStatic == isStatic
  {
    Descriptor(GetPath(n), GetMetaType(t), TypePath(t), isStatic)
  }

  // ---------------------------------------------------------------- shortcuts

  /** A node with its contained children, as `getChildren` lists them. */
  datatype Tree = Tree(w: Wrapped, children: seq<Tree>)

  /**
   * The id shortcuts `GeppettoModelNode.populateChildrenShortcuts` leaves on a node:
   * `this[child.id] = child` for each child in order, so a later child wins;
   * a variable instead takes the children of each anonymous type child.
   */
  function CoreShortcuts(n: Tree): map<string, Tree>
  {
    CoreShortcutsFrom(n, |n.children|)
  }

  function CoreShortcutsFrom(n: Tree, upTo: nat): map<string, Tree>
    requires upTo <= |n.children|
    decreases upTo
  {
    if upTo == 0 then map[]
    else
      var m := CoreShortcutsFrom(n, upTo - 1);
      var c := n.children[upTo - 1];
      if n.w.kind == KVariable then
        (if c.w.kind == KType then Install(m, c.children, |c.children|) else m)
      else m[c.w.id := c]
  }

  /** Writing `node[x.id] = x` for the first `upTo` entries of `xs`. */
  function Install(m: map<string, Tree>, xs: seq<Tree>, upTo: nat): map<string, Tree>
    requires upTo <= |xs|
    decreases upTo
  {
    if upTo == 0 then m else Install(m, xs, upTo - 1)[xs[upTo - 1].w.id := xs[upTo - 1]]
  }

  /** The shortcut for id `x` on a plain node is the last child with id `x`; no other id gets one. */
  lemma {:induction false} CoreShortcutsLastWins(n: Tree, upTo: nat, x: string)
    requires upTo <= |n.children|
    requires n.w.kind != KVariable
    ensures x in CoreShortcutsFrom(n, upTo) <==> exists k :: 0 <= k < upTo && n.children[k].w.id == x
    ensures x in CoreShortcutsFrom(n, upTo) ==>
      exists k :: 0 <= k < upTo && n.children[k].w.id == x && CoreShortcutsFrom(n, upTo)[x] == n.children[k] &&
        forall j :: k < j < upTo ==> n.children[j].w.id != x
    decreases upTo
  {
    if upTo > 0 {
      CoreShortcutsLastWins(n, upTo - 1, x);
    }
  }

  /**
   * `ModelUtils.populateChildrenShortcuts` (the working copy): like the core rule, but an
   * array instance receives no shortcuts, and a variable lifts its anonymous types' children
   * only for type children, setting an ordinary shortcut for any other child.
   */
  function UtilShortcuts(n: Tree): map<string, Tree>
  {
    UtilShortcutsFrom(n, |n.children|)
  }

  function UtilShortcutsFrom(n: Tree, upTo: nat): map<string, Tree>
    requires upTo <= |n.children|
    decreases upTo
  {
    if upTo == 0 then map[]
    else
      var m := UtilShortcutsFrom(n, upTo - 1);
      var c := n.children[upTo - 1];
      if n.w.kind == KVariable && c.w.kind == KType then Install(m, c.children, |c.children|)
      else if n.w.kind == KArrayInstance then m
      else m[c.w.id := c]
  }

  lemma {:induction false} ArrayInstanceHasNoShortcuts(n: Tree, upTo: nat)
    requires upTo <= |n.children|
    requires n.w.kind == KArrayInstance
    ensures UtilShortcutsFrom(n, upTo) == map[]
    decreases upTo
  {
    if upTo > 0 {
      ArrayInstanceHasNoShortcuts(n, upTo - 1);
    }
  }

  /** Both rules agree on every node that is not an array instance. */
  lemma {:induction false} ShortcutRulesAgree(n: Tree, upTo: nat)
    requires upTo <= |n.children|
    requires n.w.kind != KArrayInstance
    requires n.w.kind == KVariable ==> forall k :: 0 <= k < |n.children| ==> n.children[k].w.kind == KType
    ensures UtilShortcutsFrom(n, upTo) == CoreShortcutsFrom(n, upTo)
    decreases upTo
  {
    if upTo > 0 {
      ShortcutRulesAgree(n, upTo - 1);
    }
  }

  /** Every grandchild lifted onto a variable is reachable by its id. */
  lemma {:induction false} InstallCovers(m: map<string, Tree>, xs: seq<Tree>, upTo: nat)
    requires upTo <= |xs|
    ensures forall k :: 0 <= k < upTo ==> xs[k].w.id in Install(m, xs, upTo)
    ensures forall x :: x in m ==> x in Install(m, xs, upTo)
    decreases upTo
  {
    if upTo > 0 {
      InstallCovers(m, xs, upTo - 1);
    }
  }

  /** The `eval("a.b.c")` look-up, as an explicit walk over the core shortcut maps. */
  function Walk(n: Tree, ids: seq<string>): Option<Tree>
    decreases |ids|
  {
    if |ids| == 0 then Some(n)
    else if ids[0] in CoreShortcuts(n) then Walk(CoreShortcuts(n)[ids[0]], ids[1..])
    else None
  }

  /** Following a chain of children whose ids are unique among their siblings ends at the last one. */
  lemma {:induction false} WalkFollowsChildren(n: Tree, path: seq<nat>)
    requires ChainOf(n, path)
    requires UniqueChain(n, path)
    ensures Walk(n, IdsAlong(n, path)) == Some(At(n, path))
    decreases |path|
  {
    if |path| > 0 {
      var c := n.children[path[0]];
      var ids := IdsAlong(n, path);
      CoreShortcutsLastWins(n, |n.children|, c.w.id);
      var k :| 0 <= k < |n.children| && n.children[k].w.id == c.w.id && CoreShortcuts(n)[c.w.id] == n.children[k] &&
        forall j :: k < j < |n.children| ==> n.children[j].w.id != c.w.id;
      assert k == path[0];
      assert ids[1..] == IdsAlong(c, path[1..]);
      WalkFollowsChildren(c, path[1..]);
    }
  }

  /** The ids of the nodes met along `path`, below `n`. */
  function IdsAlong(n: Tree, path: seq<nat>): (ids: seq<string>)
    requires ChainOf(n, path)
    ensures |ids| == |path|
    decreases |path|
  {
    if |path| == 0 then [] else [n.children[path[0]].w.id] + IdsAlong(n.children[path[0]], path[1..])
  }

  /** `path` is a chain of child positions below `n`, each inside a non-variable node. */
  predicate ChainOf(n: Tree, path: seq<nat>)
    decreases |path|
  {
    |path| == 0 ||
    (path[0] < |n.children| && n.w.kind != KVariable && ChainOf(n.children[path[0]], path[1..]))
  }

  /** Along `path` each chosen child is the only sibling with its id. */
  predicate UniqueChain(n: Tree, path: seq<nat>)
    requires ChainOf(n, path)
    decreases |path|
  {
    |path| == 0 ||
    ((forall j :: 0 <= j < |n.children| && j != path[0] ==> n.children[j].w.id != n.children[path[0]].w.id) &&
     UniqueChain(n.children[path[0]], path[1..]))
  }

  /** The node reached by following the child positions `path`. */
  function At(n: Tree, path: seq<nat>): Tree
    requires ChainOf(n, path)
    decreases |path|
  {
    if |path| == 0 then n else At(n.children[path[0]], path[1..])
  }

  // ------------------------------------------------------------- traversals

  /**
   * The nodes `populateTypeReferences` / `populateConnections` reach from `t`: the default
   * forwards the call to each child in order, and each child forwards to its own children.
   */
  function Reached(t: Tree): seq<Wrapped>
    decreases t, 1
  {
    ReachedFrom(t, 0)
  }

  function ReachedFrom(t: Tree, i: nat): seq<Wrapped>
    requires i <= |t.children|
    decreases t, 0, |t.children| - i
  {
    if i == |t.children| then []
    else
      assert t.children[i] in t.children;
      [t.children[i].w] + Reached(t.children[i]) + ReachedFrom(t, i + 1)
  }

  /** Number of nodes in the tree. */
  function Size(t: Tree): nat
    decreases t, 1
  {
    1 + SizeFrom(t, 0)
  }

  function SizeFrom(t: Tree, i: nat): nat
    requires i <= |t.children|
    decreases t, 0, |t.children| - i
  {
    if i == |t.children| then 0
    else
      assert t.children[i] in t.children;
      Size(t.children[i]) + SizeFrom(t, i + 1)
  }

  /** The forwarded call reaches every node below `t` exactly once: as many calls as descendants. */
  lemma {:induction false} ReachedCount(t: Tree)
    ensures |Reached(t)| == Size(t) - 1
    decreases t, 1
  {
    ReachedFromCount(t, 0);
  }

  lemma {:induction false} ReachedFromCount(t: Tree, i: nat)
    requires i <= |t.children|
    ensures |ReachedFrom(t, i)| == SizeFrom(t, i)
    decreases t, 0, |t.children| - i
  {
    if i < |t.children| {
      assert t.children[i] in t.children;
      ReachedCount(t.children[i]);
      ReachedFromCount(t, i + 1);
    }
  }

  /** A node with no children (the default `getChildren`) forwards to nobody. */
  lemma LeafReachesNothing(w: Wrapped)
    ensures Reached(Tree(w, [])) == []
  {
  }
}
