/**
 * The catalogue of potential instance paths: every path an instance could take in
 * the instance tree, whether or not the instance exists yet. A variable contributes
 * its own dotted path, and an array variable contributes one path per element plus a
 * `[*]` path when it has more than one element. The walk continues into the
 * variables of composite types, once for each path the enclosing variable can take.
 *
 * The builders push into two lists the caller supplies: one holding every entry, and
 * the indexing list holding the entries a lookup by name should offer. When a
 * `TypeError` or a throw stops the walk, what was pushed before it stays pushed.
 */
module Catalogue {
  import opened Wrappers
  import opened Seqs
  import opened Strings
  import opened Meta
  import opened Graph
  import Types

  /** An entry `{path, metaType, type, static}`; entries without a `static` field read it as false. */
  datatype PathEntry = PathEntry(path: string, metaType: string, typePath: string, isStatic: bool)

  /** What one step of the walk pushes onto the two lists, and what it throws, if anything. */
  datatype Emitted = Emitted(all: seq<PathEntry>, indexing: seq<PathEntry>, err: Option<string>)

  const Nothing: Emitted := Emitted([], [], None)

  function Thrown(e: string): Emitted
  {
    Emitted([], [], Some(e))
  }

  /** Runs `b` after `a`, unless `a` threw: then `b` never happens. */
  function Then(a: Emitted, b: Emitted): (r: Emitted)
    ensures a.err.Some? ==> r == a
    ensures a.err.None? ==> r.all == a.all + b.all && r.indexing == a.indexing + b.indexing && r.err == b.err
  {
    if a.err.Some? then a else Emitted(a.all + b.all, a.indexing + b.indexing, b.err)
  }

  // ------------------------------------------------------------ nesting and the indexing filter

  /** `getNestingLevel`: the length the path loses when every `.` is deleted. */
  function NestingLevel(path: string): (n: nat)
    ensures n == Count(path, '.')
  {
    |path| - |RemoveAll(path, '.')|
  }

  lemma {:induction false} CountConcat(a: string, b: string, c: char)
    ensures Count(a + b, c) == Count(a, c) + Count(b, c)
    decreases |a|
  {
    if |a| == 0 {
      assert a + b == b;
    } else {
      CountConcat(a[1..], b, c);
      assert (a + b)[0] == a[0];
      assert (a + b)[1..] == a[1..] + b;
    }
  }

  /** One more dotted segment adds one nesting level, plus the dots inside the segment. */
  lemma NestingOfChild(parentPath: string, id: string)
    ensures NestingLevel(parentPath + "." + id) == NestingLevel(parentPath) + 1 + Count(id, '.')
  {
    CountConcat(parentPath, ".", '.');
    CountConcat(parentPath + ".", id, '.');
  }

  /**
   * `includePotentialInstance`, given the metaType `node.getType().getMetaType()` reads:
   * connections and text are never indexed, composites only down to nesting level two.
   */
  predicate IncludePotentialInstance(metaType: string, path: string)
  {
    if metaType == CONNECTION_TYPE then false
    else if metaType == TEXT_TYPE then false
    else if metaType == COMPOSITE_TYPE && NestingLevel(path) > 2 then false
    else true
  }

  lemma IncludeMeans(metaType: string, path: string)
    ensures IncludePotentialInstance(metaType, path) <==>
      metaType != CONNECTION_TYPE && metaType != TEXT_TYPE &&
      !(metaType == COMPOSITE_TYPE && Count(path, '.') > 2)
  {
  }

  // ------------------------------------------------------------ the walk (specification)

  /** The path of one array element: `xpath + '[' + n + ']'`. */
  function ElementPath(xpath: string, n: nat): string
  {
    xpath + "[" + NatToString(n) + "]"
  }

  /** How many elements the `for (n = 0; n < size; n++)` loop visits. */
  function Extent(size: int): nat
  {
    if size > 0 then size else 0
  }

  /** The element paths `xpath[0]` … `xpath[n - 1]`. */
  function ElementPaths(xpath: string, n: nat): (r: seq<string>)
    ensures |r| == n
    ensures forall k :: 0 <= k < n ==> r[k] == ElementPath(xpath, k)
  {
    if n == 0 then [] else ElementPaths(xpath, n - 1) + [ElementPath(xpath, n - 1)]
  }

  /** The element entries: each element's path, with the element type's metaType and path. */
  function ElementEntries(xpath: string, e: Type, n: nat): (r: seq<PathEntry>)
    ensures |r| == n
    ensures forall k :: 0 <= k < n ==> r[k] == PathEntry(ElementPath(xpath, k), e.metaType, e.path, false)
  {
    if n == 0 then [] else ElementEntries(xpath, e, n - 1) + [PathEntry(ElementPath(xpath, n - 1), e.metaType, e.path, false)]
  }

  function StarPath(xpath: string): string
  {
    xpath + "[*]"
  }

  /** The filter an entry passes to reach the indexing list, judged by the metaType of the variable's type. */
  function IndexedBy(metaType: string): PathEntry -> bool
  {
    (x: PathEntry) => IncludePotentialInstance(metaType, x.path)
  }

  /** The path of a variable in the catalogue: a static one keeps its own, others hang off the parent path. */
  function EntryPath(v: Variable, parentPath: string): string
  {
    if v.isStatic then v.path
    else if parentPath == "" then v.id
    else parentPath + "." + v.id
  }

  /**
   * `fetchAllPotentialInstancePaths(v, …, parentPath)`. The entry needs
   * `v.getType().getMetaType()`, which only works for a variable with exactly one
   * resolved type; any other variable throws before anything is pushed.
   */
  function Potential(v: Variable, parentPath: string): (r: Emitted)
    decreases v, 3
  {
    if |v.types| == 1 && |v.anonymousTypes| == 0 && v.types[0].Obj? then PotentialOf(v, v.types[0].t, parentPath)
    else if |v.types| == 0 && |v.anonymousTypes| == 1 then PotentialOf(v, v.anonymousTypes[0], parentPath)
    else Thrown(Graph.TYPE_ERROR)
  }

  /** The variable's own entry, on the indexing list too when the filter lets it through. */
  function HeadEntry(v: Variable, t: Type, parentPath: string): Emitted
  {
    var xpath := EntryPath(v, parentPath);
    var entry := PathEntry(xpath, t.metaType, t.path, v.isStatic);
    Emitted([entry], if IncludePotentialInstance(t.metaType, xpath) then [entry] else [], None)
  }

  /** What an array of `size` elements of type `e` adds after its own entry: the `[*]` entry, then the elements. */
  function ArrayTail(xpath: string, metaType: string, e: Type, size: int): Emitted
  {
    var star := if size > 1 then [PathEntry(StarPath(xpath), e.metaType, e.path, false)] else [];
    var elems := ElementEntries(xpath, e, Extent(size));
    Emitted(star + elems, star + Filter(elems, IndexedBy(metaType)), None)
  }

  /** The entries a variable pushes for itself (its own entry, the `[*]` entry, the element entries). */
  function OwnEntries(v: Variable, t: Type, parentPath: string): (r: Emitted)
  {
    var head := HeadEntry(v, t, parentPath);
    if v.isStatic || t.metaType != ARRAY_TYPE then head
    else if !(t.body.ArrayOf? && t.body.element.Obj?) then Then(head, Thrown(Graph.TYPE_ERROR))
    else Then(head, ArrayTail(EntryPath(v, parentPath), t.metaType, t.body.element.t, t.body.size))
  }

  /** The paths a variable's nested variables hang off: its own path, or the `[*]` and element paths of an array. */
  function ParentPaths(v: Variable, t: Type, parentPath: string): seq<string>
  {
    var xpath := EntryPath(v, parentPath);
    if t.metaType == ARRAY_TYPE && t.body.ArrayOf? then
      (if t.body.size > 1 then [StarPath(xpath)] else []) + ElementPaths(xpath, Extent(t.body.size))
    else [xpath]
  }

  function PotentialOf(v: Variable, t: Type, parentPath: string): (r: Emitted)
    decreases t, 2
  {
    var own := OwnEntries(v, t, parentPath);
    if v.isStatic then own
    else Then(own, ForType(t, ParentPaths(v, t, parentPath)))
  }

  /**
   * `fetchAllPotentialInstancePathsForType`: the variables of a composite type, or of
   * the composite element type of an array, are walked once per parent path. An
   * array's element type that is still a raw reference (or missing) has no
   * `getMetaType` and throws.
   */
  function ForType(t: Type, parents: seq<string>): (r: Emitted)
    decreases t, 1
  {
    if t.metaType == COMPOSITE_TYPE then
      if IsCompositeClass(t) then Traverse(t.body.variables, parents) else Nothing
    else if t.metaType == ARRAY_TYPE then
      if !(t.body.ArrayOf? && t.body.element.Obj?) then Thrown(Graph.TYPE_ERROR)
      else if t.body.element.t.metaType == COMPOSITE_TYPE && IsCompositeClass(t.body.element.t) then
        Traverse(t.body.element.t.body.variables, parents)
      else Nothing
    else Nothing
  }

  /** The variables in order, each under every parent path (or under `''` when there is none). */
  function Traverse(vs: seq<Variable>, parents: seq<string>): (r: Emitted)
    decreases vs, 0
  {
    if |vs| == 0 then Nothing
    else Then(Traverse(vs[..|vs| - 1], parents), UnderParents(vs[|vs| - 1], parents))
  }

  function UnderParents(v: Variable, parents: seq<string>): (r: Emitted)
    decreases v, 5
  {
    if |parents| == 0 then Potential(v, "") else Each(v, parents)
  }

  function Each(v: Variable, parents: seq<string>): (r: Emitted)
    decreases v, 4, |parents|
  {
    if |parents| == 0 then Nothing
    else Then(Each(v, parents[..|parents| - 1]), Potential(v, parents[|parents| - 1]))
  }

  // ------------------------------------------------------------ properties of the walk

  /** `getTypes()` of a variable with a single anonymous type and no declared one is that type. */
  lemma SoleAnonymous(v: Variable)
    requires |v.types| == 0 && |v.anonymousTypes| == 1
    ensures GetTypes(v)[0] == Obj(v.anonymousTypes[0])
  {
    assert GetTypes(v)[|v.types| + 0] == Obj(v.anonymousTypes[0]);
  }

  /** The type `Potential` walks is the sole type `getType()` returns. */
  lemma SoleType(v: Variable)
    requires SingleTyped(v)
    ensures (|v.types| == 1 && |v.anonymousTypes| == 0 && v.types[0].Obj?) ||
            (|v.types| == 0 && |v.anonymousTypes| == 1)
    ensures v.types != [] ==> GetTypes(v)[0] == v.types[0]
    ensures v.types == [] ==> GetTypes(v)[0] == Obj(v.anonymousTypes[0])
  {
    assert GetTypes(v)[..|v.types|] == v.types;
    if |v.types| == 0 {
      SoleAnonymous(v);
    }
  }

  /** A variable whose `getType()` is a list, an unresolved reference or missing throws first. */
  lemma NotSingleTypedThrows(v: Variable, parentPath: string)
    requires !SingleTyped(v)
    ensures Potential(v, parentPath) == Thrown(Graph.TYPE_ERROR)
  {
    assert GetTypes(v)[..|v.types|] == v.types;
    if |v.types| == 0 && |v.anonymousTypes| == 1 {
      SoleAnonymous(v);
      assert false;
    }
  }

  /** The first entry is the variable's own: a static variable's intrinsic path, or the parent path extended by the id. */
  lemma FirstEntryIsOwn(v: Variable, parentPath: string)
    requires SingleTyped(v)
    ensures var r := Potential(v, parentPath);
      |r.all| >= 1 && r.all[0].path == EntryPath(v, parentPath) && r.all[0].isStatic == v.isStatic &&
      r.all[0].metaType == SoleMetaType(v).value
    ensures v.isStatic ==> Potential(v, parentPath).all[0].path == v.path
    ensures !v.isStatic && parentPath == "" ==> Potential(v, parentPath).all[0].path == v.id
    ensures !v.isStatic && parentPath != "" ==> Potential(v, parentPath).all[0].path == parentPath + "." + v.id
  {
    SoleType(v);
  }

  /** A static variable contributes its single entry and is not walked into. */
  lemma StaticNotRecursed(v: Variable, parentPath: string)
    requires SingleTyped(v) && v.isStatic
    ensures var r := Potential(v, parentPath);
      |r.all| == 1 && |r.indexing| <= 1 && r.err.None?
  {
    SoleType(v);
  }

  /**
   * An array variable of size N pushes, right after its own entry, a `[*]` entry exactly
   * when N > 1, then the entries `xpath[0]` … `xpath[N-1]` in index order, all typed by
   * the element type; the star and every element entry also reach the indexing list.
   */
  lemma ArrayEntries(v: Variable, t: Type, parentPath: string)
    requires !v.isStatic && t.metaType == ARRAY_TYPE && t.body.ArrayOf? && t.body.element.Obj?
    ensures var r := OwnEntries(v, t, parentPath);
      var xpath := EntryPath(v, parentPath);
      var size := t.body.size;
      var s := if size > 1 then 1 else 0;
      r.err.None? && |r.all| == 1 + s + Extent(size) && r.all[0].path == xpath &&
      (size > 1 ==> r.all[1].path == StarPath(xpath)) &&
      (forall k :: 1 + s <= k < |r.all| ==> r.all[k].path == ElementPath(xpath, k - 1 - s)) &&
      (forall k :: 1 <= k < |r.all| ==>
         (r.all[k].metaType == t.body.element.t.metaType && r.all[k].typePath == t.body.element.t.path)) &&
      r.indexing == HeadEntry(v, t, parentPath).indexing + r.all[1..]
  {
    var xpath := EntryPath(v, parentPath);
    var a := ArrayTail(xpath, t.metaType, t.body.element.t, t.body.size);
    ArrayTailEntries(xpath, t.body.element.t, t.body.size);
    var h := HeadEntry(v, t, parentPath);
    assert OwnEntries(v, t, parentPath) == Then(h, a);
    assert h.err.None? && |h.all| == 1 && h.all[0].path == xpath;
    ThenTail(h, a, if t.body.size > 1 then 1 else 0, xpath, t.body.element.t);
  }

  /** An entry followed by an array tail: the tail's entries move up by one. */
  lemma ThenTail(h: Emitted, a: Emitted, s: nat, xpath: string, e: Type)
    requires h.err.None? && |h.all| == 1 && a.err.None? && a.indexing == a.all
    requires s <= 1 && s <= |a.all| && ElementsFrom(a.all, s, xpath, e)
    requires s == 1 ==> a.all[0] == PathEntry(StarPath(xpath), e.metaType, e.path, false)
    ensures var r := Then(h, a);
      r.err.None? && |r.all| == 1 + |a.all| && r.all[0] == h.all[0] &&
      (s == 1 ==> r.all[1].path == StarPath(xpath)) &&
      (forall k :: 1 + s <= k < |r.all| ==> r.all[k].path == ElementPath(xpath, k - 1 - s)) &&
      (forall k :: 1 <= k < |r.all| ==> r.all[k].metaType == e.metaType && r.all[k].typePath == e.path) &&
      r.indexing == h.indexing + r.all[1..]
  {
    var r := Then(h, a);
    assert r.all == h.all + a.all;
    assert r.all[1..] == a.all;
    forall k | 1 <= k < |r.all|
      ensures r.all[k].metaType == e.metaType && r.all[k].typePath == e.path
      ensures 1 + s <= k ==> r.all[k].path == ElementPath(xpath, k - 1 - s)
    {
      assert r.all[k] == a.all[k - 1];
    }
  }

  /** From position `s` on, the entries are the elements `xpath[0]`, `xpath[1]`, … typed by `e`. */
  predicate ElementsFrom(all: seq<PathEntry>, s: nat, xpath: string, e: Type)
  {
    forall k :: s <= k < |all| ==>
      all[k].path == ElementPath(xpath, k - s) && all[k].metaType == e.metaType && all[k].typePath == e.path
  }

  /** The tail of an array: the `[*]` entry when there are several elements, then the elements in order, all indexed. */
  lemma ArrayTailEntries(xpath: string, e: Type, size: int)
    ensures var a := ArrayTail(xpath, ARRAY_TYPE, e, size);
      var s := if size > 1 then 1 else 0;
      a.err.None? && |a.all| == s + Extent(size) && a.indexing == a.all && ElementsFrom(a.all, s, xpath, e) &&
      (size > 1 ==> a.all[0] == PathEntry(StarPath(xpath), e.metaType, e.path, false))
  {
    var elems := ElementEntries(xpath, e, Extent(size));
    ElementsIndexed(xpath, e, Extent(size));
    ElementsShape(xpath, e, Extent(size));
    var a := ArrayTail(xpath, ARRAY_TYPE, e, size);
    if size > 1 {
      var star := PathEntry(StarPath(xpath), e.metaType, e.path, false);
      assert a.all == [star] + elems && a.indexing == a.all;
      ShiftedShape(a.all, elems, xpath, e);
    } else {
      assert a.all == elems && a.indexing == a.all;
    }
  }

  /** Every element entry of an array reaches the indexing list. */
  lemma ElementsIndexed(xpath: string, e: Type, n: nat)
    ensures Filter(ElementEntries(xpath, e, n), IndexedBy(ARRAY_TYPE)) == ElementEntries(xpath, e, n)
  {
    FilterAll(ElementEntries(xpath, e, n), IndexedBy(ARRAY_TYPE));
  }

  lemma ElementsShape(xpath: string, e: Type, n: nat)
    ensures ElementsFrom(ElementEntries(xpath, e, n), 0, xpath, e)
  {
  }

  /** Element entries behind one more entry: entry `k` is element `k - 1`. */
  lemma ShiftedShape(all: seq<PathEntry>, elems: seq<PathEntry>, xpath: string, e: Type)
    requires |all| == |elems| + 1 && all[1..] == elems && ElementsFrom(elems, 0, xpath, e)
    ensures ElementsFrom(all, 1, xpath, e)
  {
    forall k | 1 <= k < |all|
      ensures all[k].path == ElementPath(xpath, k - 1) && all[k].metaType == e.metaType && all[k].typePath == e.path
    {
      assert all[k] == elems[k - 1];
    }
  }

  predicate Within(r: Emitted)
  {
    forall x :: x in r.indexing ==> x in r.all
  }

  lemma ThenWithin(a: Emitted, b: Emitted)
    requires Within(a) && Within(b)
    ensures Within(Then(a, b))
  {
  }

  lemma OwnWithin(v: Variable, t: Type, parentPath: string)
    ensures Within(OwnEntries(v, t, parentPath))
  {
  }

  /** Everything on the indexing list was also pushed onto the full list. */
  lemma {:induction false} IndexingWithinAll(v: Variable, parentPath: string)
    ensures Within(Potential(v, parentPath))
    decreases v, 3
  {
    if |v.types| == 1 && |v.anonymousTypes| == 0 && v.types[0].Obj? {
      IndexingWithinAllOf(v, v.types[0].t, parentPath);
    } else if |v.types| == 0 && |v.anonymousTypes| == 1 {
      IndexingWithinAllOf(v, v.anonymousTypes[0], parentPath);
    }
  }

  lemma {:induction false} IndexingWithinAllOf(v: Variable, t: Type, parentPath: string)
    ensures Within(PotentialOf(v, t, parentPath))
    decreases t, 2
  {
    OwnWithin(v, t, parentPath);
    if !v.isStatic {
      ForTypeWithin(t, ParentPaths(v, t, parentPath));
      ThenWithin(OwnEntries(v, t, parentPath), ForType(t, ParentPaths(v, t, parentPath)));
    }
  }

  lemma {:induction false} ForTypeWithin(t: Type, parents: seq<string>)
    ensures Within(ForType(t, parents))
    decreases t, 1
  {
    if t.metaType == COMPOSITE_TYPE {
      if IsCompositeClass(t) {
        TraverseWithin(t.body.variables, parents);
      }
    } else if t.metaType == ARRAY_TYPE && t.body.ArrayOf? && t.body.element.Obj? {
      if t.body.element.t.metaType == COMPOSITE_TYPE && IsCompositeClass(t.body.element.t) {
        TraverseWithin(t.body.element.t.body.variables, parents);
      }
    }
  }

  lemma {:induction false} TraverseWithin(vs: seq<Variable>, parents: seq<string>)
    ensures Within(Traverse(vs, parents))
    decreases vs, 0
  {
    if |vs| > 0 {
      TraverseWithin(vs[..|vs| - 1], parents);
      UnderParentsWithin(vs[|vs| - 1], parents);
      ThenWithin(Traverse(vs[..|vs| - 1], parents), UnderParents(vs[|vs| - 1], parents));
    }
  }

  lemma {:induction false} UnderParentsWithin(v: Variable, parents: seq<string>)
    ensures Within(UnderParents(v, parents))
    decreases v, 5
  {
    if |parents| == 0 {
      IndexingWithinAll(v, "");
    } else {
      EachWithin(v, parents);
    }
  }

  lemma {:induction false} EachWithin(v: Variable, parents: seq<string>)
    ensures Within(Each(v, parents))
    decreases v, 4, |parents|
  {
    if |parents| > 0 {
      EachWithin(v, parents[..|parents| - 1]);
      IndexingWithinAll(v, parents[|parents| - 1]);
      ThenWithin(Each(v, parents[..|parents| - 1]), Potential(v, parents[|parents| - 1]));
    }
  }

  /** Pushing `a` and then `b` onto the lists pushes what running `b` after `a` emits. */
  lemma PushedInTurn(all0: seq<PathEntry>, indexing0: seq<PathEntry>, all1: seq<PathEntry>, indexing1: seq<PathEntry>,
                     all2: seq<PathEntry>, indexing2: seq<PathEntry>, a: Emitted, b: Emitted)
    requires a.err.None? && all1 == all0 + a.all && indexing1 == indexing0 + a.indexing
    requires all2 == all1 + b.all && indexing2 == indexing1 + b.indexing
    ensures all2 == all0 + Then(a, b).all && indexing2 == indexing0 + Then(a, b).indexing
  {
    assert all2 == all0 + (a.all + b.all);
    assert indexing2 == indexing0 + (a.indexing + b.indexing);
  }

  /** One more element, pushed after what the lists held before the loop. */
  lemma ElementPushed(all0: seq<PathEntry>, indexing0: seq<PathEntry>, xpath: string, metaType: string, e: Type, n: nat)
    ensures var elem := PathEntry(ElementPath(xpath, n), e.metaType, e.path, false);
      var p := IndexedBy(metaType);
      all0 + ElementEntries(xpath, e, n + 1) == (all0 + ElementEntries(xpath, e, n)) + [elem] &&
      indexing0 + Filter(ElementEntries(xpath, e, n + 1), p) ==
        if IncludePotentialInstance(metaType, elem.path) then (indexing0 + Filter(ElementEntries(xpath, e, n), p)) + [elem]
        else indexing0 + Filter(ElementEntries(xpath, e, n), p)
  {
    var elem := PathEntry(ElementPath(xpath, n), e.metaType, e.path, false);
    var p := IndexedBy(metaType);
    ElementStep(xpath, e, n, p);
    AppendAssoc(all0, ElementEntries(xpath, e, n), [elem]);
    AppendAssoc(indexing0, Filter(ElementEntries(xpath, e, n), p), [elem]);
    assert Filter(ElementEntries(xpath, e, n), p) + [] == Filter(ElementEntries(xpath, e, n), p);
  }

  lemma ElementStep(xpath: string, e: Type, n: nat, p: PathEntry -> bool)
    ensures var elem := PathEntry(ElementPath(xpath, n), e.metaType, e.path, false);
      ElementEntries(xpath, e, n + 1) == ElementEntries(xpath, e, n) + [elem] &&
      Filter(ElementEntries(xpath, e, n + 1), p) == Filter(ElementEntries(xpath, e, n), p) + (if p(elem) then [elem] else [])
  {
    var elem := PathEntry(ElementPath(xpath, n), e.metaType, e.path, false);
    FilterConcat(ElementEntries(xpath, e, n), [elem], p);
    assert [elem][1..] == [];
  }

  lemma TraverseStep(vs: seq<Variable>, parents: seq<string>, j: nat)
    requires j < |vs|
    ensures Traverse(vs[..j + 1], parents) == Then(Traverse(vs[..j], parents), UnderParents(vs[j], parents))
  {
    assert vs[..j + 1][..j] == vs[..j];
  }

  lemma EachStep(v: Variable, parents: seq<string>, g: nat)
    requires g < |parents|
    ensures Each(v, parents[..g + 1]) == Then(Each(v, parents[..g]), Potential(v, parents[g]))
  {
    assert parents[..g + 1][..g] == parents[..g];
  }

  /** Once a throw happened, the rest of the walk adds nothing. */
  lemma {:induction false} TraverseThrowPersists(vs: seq<Variable>, parents: seq<string>, j: nat)
    requires j <= |vs| && Traverse(vs[..j], parents).err.Some?
    ensures Traverse(vs, parents) == Traverse(vs[..j], parents)
    decreases |vs|
  {
    if j < |vs| {
      assert vs[..|vs| - 1][..j] == vs[..j];
      TraverseThrowPersists(vs[..|vs| - 1], parents, j);
    } else {
      assert vs[..j] == vs;
    }
  }

  lemma {:induction false} EachThrowPersists(v: Variable, parents: seq<string>, g: nat)
    requires g <= |parents| && Each(v, parents[..g]).err.Some?
    ensures Each(v, parents) == Each(v, parents[..g])
    decreases |parents|
  {
    if g < |parents| {
      assert parents[..|parents| - 1][..g] == parents[..g];
      EachThrowPersists(v, parents[..|parents| - 1], g);
    } else {
      assert parents[..g] == parents;
    }
  }

  // ------------------------------------------------------------ the walk (pushing into caller lists)

  /** The two lists the caller hands to the walk. */
  class PathLists {
    var all: seq<PathEntry>
    var indexing: seq<PathEntry>

    constructor ()
      ensures all == [] && indexing == []
    {
      all := [];
      indexing := [];
    }

    /** The lists hold what they held before, followed by what `e` pushed. */
    predicate Pushed(all0: seq<PathEntry>, indexing0: seq<PathEntry>, e: Emitted)
      reads this
    {
      all == all0 + e.all && indexing == indexing0 + e.indexing
    }

    /** `fetchAllPotentialInstancePaths`: pushes the entries of `v` and of everything nested in it. */
    method FetchAllPotentialInstancePaths(v: Variable, parentPath: string) returns (err: Option<string>)
      modifies this
      ensures Pushed(old(all), old(indexing), Potential(v, parentPath))
      ensures err == Potential(v, parentPath).err
      decreases v, 3
    {
      var t: Type;
      if |v.types| == 1 && |v.anonymousTypes| == 0 && v.types[0].Obj? {
        t := v.types[0].t;
      } else if |v.types| == 0 && |v.anonymousTypes| == 1 {
        t := v.anonymousTypes[0];
      } else {
        assert all == old(all) + [] && indexing == old(indexing) + [];
        return Some(Graph.TYPE_ERROR);
      }
      err := FetchOwn(v, t, parentPath);
      if err.None? && !v.isStatic {
        var parents := PotentialParentPaths(v, t, parentPath);
        ghost var all1, indexing1 := all, indexing;
        err := FetchAllPotentialInstancePathsForType(t, parents);
        PushedInTurn(old(all), old(indexing), all1, indexing1, all, indexing, OwnEntries(v, t, parentPath), ForType(t, parents));
      }
    }

    /** Pushes the variable's own entry, then the `[*]` and element entries of an array. */
    method FetchOwn(v: Variable, t: Type, parentPath: string) returns (err: Option<string>)
      modifies this
      ensures Pushed(old(all), old(indexing), OwnEntries(v, t, parentPath))
      ensures err == OwnEntries(v, t, parentPath).err
    {
      var xpath := if v.isStatic then v.path else if parentPath == "" then v.id else parentPath + "." + v.id;
      var entry := PathEntry(xpath, t.metaType, t.path, v.isStatic);
      all := all + [entry];
      if IncludePotentialInstance(t.metaType, xpath) {
        indexing := indexing + [entry];
      } else {
        assert indexing == old(indexing) + [];
      }
      if v.isStatic || t.metaType != ARRAY_TYPE {
        return None;
      }
      if !(t.body.ArrayOf? && t.body.element.Obj?) {
        return Some(Graph.TYPE_ERROR);
      }
      ghost var all1, indexing1 := all, indexing;
      PushArrayTail(xpath, t.metaType, t.body.element.t, t.body.size);
      PushedInTurn(old(all), old(indexing), all1, indexing1, all, indexing,
        HeadEntry(v, t, parentPath), ArrayTail(xpath, t.metaType, t.body.element.t, t.body.size));
      err := None;
    }

    /** The `[*]` entry when there is more than one element, then the loop over the elements. */
    method PushArrayTail(xpath: string, metaType: string, e: Type, size: int)
      modifies this
      ensures Pushed(old(all), old(indexing), ArrayTail(xpath, metaType, e, size))
    {
      var star: seq<PathEntry> := [];
      if size > 1 {
        star := [PathEntry(xpath + "[*]", e.metaType, e.path, false)];
        all := all + star;
        indexing := indexing + star;
      }
      ghost var all1, indexing1 := all, indexing;
      PushElements(xpath, metaType, e, size);
      PushedInTurn(old(all), old(indexing), all1, indexing1, all, indexing, Emitted(star, star, None),
        Emitted(ElementEntries(xpath, e, Extent(size)), Filter(ElementEntries(xpath, e, Extent(size)), IndexedBy(metaType)), None));
    }

    /** The loop over the elements `xpath[0]` … `xpath[size - 1]`. */
    method PushElements(xpath: string, metaType: string, e: Type, size: int)
      modifies this
      ensures all == old(all) + ElementEntries(xpath, e, Extent(size))
      ensures indexing == old(indexing) + Filter(ElementEntries(xpath, e, Extent(size)), IndexedBy(metaType))
    {
      ghost var all0, indexing0 := all, indexing;
      for n := 0 to Extent(size)
        invariant all == all0 + ElementEntries(xpath, e, n)
        invariant indexing == indexing0 + Filter(ElementEntries(xpath, e, n), IndexedBy(metaType))
      {
        var elem := PathEntry(ElementPath(xpath, n), e.metaType, e.path, false);
        ElementPushed(all0, indexing0, xpath, metaType, e, n);
        all := all + [elem];
        if IncludePotentialInstance(metaType, elem.path) {
          indexing := indexing + [elem];
        }
      }
    }

    /** STEP 1 of the walk: the parent paths for the nested variables. */
    method PotentialParentPaths(v: Variable, t: Type, parentPath: string) returns (parents: seq<string>)
      ensures parents == ParentPaths(v, t, parentPath)
    {
      var xpath := if v.isStatic then v.path else if parentPath == "" then v.id else parentPath + "." + v.id;
      if t.metaType == ARRAY_TYPE && t.body.ArrayOf? {
        var size := t.body.size;
        parents := if size > 1 then [xpath + "[*]"] else [];
        ghost var front := parents;
        var n := 0;
        while n < size
          invariant 0 <= n <= Extent(size)
          invariant parents == front + ElementPaths(xpath, n)
        {
          parents := parents + [xpath + "[" + NatToString(n) + "]"];
          n := n + 1;
        }
      } else {
        parents := [xpath];
      }
    }

    /** `fetchAllPotentialInstancePathsForType`: the variables of a composite type or of an array's composite element type. */
    method FetchAllPotentialInstancePathsForType(t: Type, parents: seq<string>) returns (err: Option<string>)
      modifies this
      ensures Pushed(old(all), old(indexing), ForType(t, parents))
      ensures err == ForType(t, parents).err
      decreases t, 1
    {
      if t.metaType == COMPOSITE_TYPE && IsCompositeClass(t) {
        err := FetchVariables(t.body.variables, parents);
      } else if t.metaType == ARRAY_TYPE && !(t.body.ArrayOf? && t.body.element.Obj?) {
        assert all == old(all) + [] && indexing == old(indexing) + [];
        err := Some(Graph.TYPE_ERROR);
      } else if t.metaType == ARRAY_TYPE && t.body.element.t.metaType == COMPOSITE_TYPE && IsCompositeClass(t.body.element.t) {
        err := FetchVariables(t.body.element.t.body.variables, parents);
      } else {
        assert all == old(all) + [] && indexing == old(indexing) + [];
        err := None;
      }
    }

    /** The loop over the variables; each goes under every parent path, or under `''` when there is none. */
    method FetchVariables(vs: seq<Variable>, parents: seq<string>) returns (err: Option<string>)
      modifies this
      ensures Pushed(old(all), old(indexing), Traverse(vs, parents))
      ensures err == Traverse(vs, parents).err
      decreases vs, 0
    {
      var j := 0;
      assert vs[..0] == [];
      while j < |vs|
        invariant 0 <= j <= |vs|
        invariant Pushed(old(all), old(indexing), Traverse(vs[..j], parents))
        invariant Traverse(vs[..j], parents).err.None?
      {
        ghost var before := Traverse(vs[..j], parents);
        ghost var step := UnderParents(vs[j], parents);
        ghost var all1, indexing1 := all, indexing;
        TraverseStep(vs, parents, j);
        err := FetchUnderParents(vs[j], parents);
        PushedInTurn(old(all), old(indexing), all1, indexing1, all, indexing, before, step);
        if err.Some? {
          TraverseThrowPersists(vs, parents, j + 1);
          return;
        }
        j := j + 1;
      }
      assert vs[..j] == vs;
      err := None;
    }

    /** One variable under every parent path, or under `''` when there is none. */
    method FetchUnderParents(v: Variable, parents: seq<string>) returns (err: Option<string>)
      modifies this
      ensures Pushed(old(all), old(indexing), UnderParents(v, parents))
      ensures err == UnderParents(v, parents).err
      decreases v, 5
    {
      if |parents| > 0 {
        err := FetchEach(v, parents);
      } else {
        err := FetchAllPotentialInstancePaths(v, "");
      }
    }

    /** The inner loop over the parent paths. */
    method FetchEach(v: Variable, parents: seq<string>) returns (err: Option<string>)
      modifies this
      ensures Pushed(old(all), old(indexing), Each(v, parents))
      ensures err == Each(v, parents).err
      decreases v, 4, |parents|
    {
      var g := 0;
      assert parents[..0] == [];
      while g < |parents|
        invariant 0 <= g <= |parents|
        invariant Pushed(old(all), old(indexing), Each(v, parents[..g]))
        invariant Each(v, parents[..g]).err.None?
      {
        ghost var before := Each(v, parents[..g]);
        ghost var step := Potential(v, parents[g]);
        ghost var all1, indexing1 := all, indexing;
        EachStep(v, parents, g);
        err := FetchAllPotentialInstancePaths(v, parents[g]);
        PushedInTurn(old(all), old(indexing), all1, indexing1, all, indexing, before, step);
        if err.Some? {
          EachThrowPersists(v, parents, g + 1);
          return;
        }
        g := g + 1;
      }
      assert parents[..g] == parents;
      err := None;
    }
  }

  // ------------------------------------------------------------ lookups over a list of entries

  function PathOf(e: PathEntry): string
  {
    e.path
  }

  /** The paths of the entries that `keep` accepts, in list order. */
  function Select(es: seq<PathEntry>, keep: PathEntry -> bool): (r: seq<string>)
    ensures |r| <= |es|
  {
    Map(Filter(es, keep), PathOf)
  }

  lemma SelectMeans(es: seq<PathEntry>, keep: PathEntry -> bool)
    ensures forall p :: p in Select(es, keep) <==> exists e :: e in es && keep(e) && e.path == p
  {
    FilterComplete(es, keep);
    var f := Filter(es, keep);
    assert forall e :: e in f ==> PathOf(e) in Select(es, keep) by {
      forall e | e in f
        ensures PathOf(e) in Select(es, keep)
      {
        var k :| 0 <= k < |f| && f[k] == e;
        assert Select(es, keep)[k] == PathOf(e);
      }
    }
  }

  lemma SelectStep(es: seq<PathEntry>, i: nat, keep: PathEntry -> bool)
    requires i < |es|
    ensures Select(es[..i + 1], keep) == Select(es[..i], keep) + (if keep(es[i]) then [es[i].path] else [])
  {
    FilterPrefixStep(es, i, keep);
    var a := Filter(es[..i], keep);
    var b: seq<PathEntry> := if keep(es[i]) then [es[i]] else [];
    assert Map(a + b, PathOf) == Map(a, PathOf) + Map(b, PathOf);
  }

  function HasType(typePath: string): PathEntry -> bool
  {
    (e: PathEntry) => e.typePath == typePath
  }

  function HasMetaType(metaType: string): PathEntry -> bool
  {
    (e: PathEntry) => e.metaType == metaType
  }

  function EndingWith(s: string): PathEntry -> bool
  {
    (e: PathEntry) => EndsWith(e.path, s) && '*' !in e.path
  }

  function StartingWith(s: string): PathEntry -> bool
  {
    (e: PathEntry) => StartsWith(e.path, s) && '*' !in e.path
  }

  /** `getAllPotentialInstancesOfType(typePath, paths)`: filter on the type path, keep the paths. */
  function OfType(typePath: string, es: seq<PathEntry>): seq<string>
  {
    Select(es, HasType(typePath))
  }

  /** The paths of exactly the entries typed by `typePath`, and no more of them than there are entries. */
  lemma OfTypeMeans(typePath: string, es: seq<PathEntry>)
    ensures |OfType(typePath, es)| <= |es|
    ensures forall p :: p in OfType(typePath, es) <==> exists e :: e in es && e.typePath == typePath && e.path == p
  {
    SelectMeans(es, HasType(typePath));
  }

  /** Appending entries appends their matches: the result keeps catalogue order. */
  lemma OfTypeConcat(typePath: string, a: seq<PathEntry>, b: seq<PathEntry>)
    ensures OfType(typePath, a + b) == OfType(typePath, a) + OfType(typePath, b)
  {
    FilterConcat(a, b, HasType(typePath));
    var fa, fb := Filter(a, HasType(typePath)), Filter(b, HasType(typePath));
    MapConcat(fa, fb, PathOf);
  }

  /** What `getAllPotentialInstancesOfMetaType` returns: bare paths, or whole entries when `includeType` is true. */
  datatype Matches = MatchedPaths(paths: seq<string>) | MatchedEntries(entries: seq<PathEntry>)

  method GetAllPotentialInstancesOfMetaType(metaType: string, paths: seq<PathEntry>, includeType: bool) returns (r: Matches)
    ensures !includeType ==> r == MatchedPaths(Select(paths, HasMetaType(metaType)))
    ensures includeType ==> r == MatchedEntries(Filter(paths, HasMetaType(metaType)))
    ensures includeType ==> forall e :: e in r.entries <==> e in paths && e.metaType == metaType
  {
    var keep := HasMetaType(metaType);
    var found: seq<string> := [];
    var entries: seq<PathEntry> := [];
    var i := 0;
    while i < |paths|
      invariant 0 <= i <= |paths|
      invariant found == Select(paths[..i], keep)
      invariant entries == Filter(paths[..i], keep)
    {
      FilterPrefixStep(paths, i, keep);
      SelectStep(paths, i, keep);
      if paths[i].metaType == metaType {
        found := found + [paths[i].path];
        entries := entries + [paths[i]];
      }
      i := i + 1;
    }
    assert paths[..i] == paths;
    FilterComplete(paths, keep);
    r := if includeType then MatchedEntries(entries) else MatchedPaths(found);
  }

  // ------------------------------------------------------------ the type swap (specification)

  /** A partial entry placed under a potential instance: a static one keeps its own path. */
  function GraftOnto(potential: string): PathEntry -> PathEntry
  {
    (x: PathEntry) => PathEntry(if x.isStatic then x.path else potential + "." + x.path, x.metaType, x.typePath, false)
  }

  /** For each potential instance in turn, every partial entry placed under it. */
  function Graft(potentials: seq<string>, partial: seq<PathEntry>): seq<PathEntry>
  {
    if |potentials| == 0 then []
    else Graft(potentials[..|potentials| - 1], partial) + Map(partial, GraftOnto(potentials[|potentials| - 1]))
  }

  /** Every replacement entry is some partial entry placed under some potential instance. */
  lemma {:induction false} GraftSound(potentials: seq<string>, partial: seq<PathEntry>, x: PathEntry)
    requires x in Graft(potentials, partial)
    ensures exists i, j :: 0 <= i < |potentials| && 0 <= j < |partial| && x == GraftOnto(potentials[i])(partial[j])
    decreases |potentials|
  {
    var n := |potentials| - 1;
    var tail := Map(partial, GraftOnto(potentials[n]));
    if x in Graft(potentials[..n], partial) {
      GraftSound(potentials[..n], partial, x);
      var i, j :| 0 <= i < n && 0 <= j < |partial| && x == GraftOnto(potentials[..n][i])(partial[j]);
      assert potentials[..n][i] == potentials[i];
    } else {
      assert x in tail;
      var j :| 0 <= j < |tail| && tail[j] == x;
      assert x == GraftOnto(potentials[n])(partial[j]);
    }
  }

  /** Every partial entry is placed under every potential instance. */
  lemma {:induction false} GraftComplete(potentials: seq<string>, partial: seq<PathEntry>, i: nat, j: nat)
    requires i < |potentials| && j < |partial|
    ensures GraftOnto(potentials[i])(partial[j]) in Graft(potentials, partial)
    decreases |potentials|
  {
    var n := |potentials| - 1;
    if i < n {
      GraftComplete(potentials[..n], partial, i, j);
      assert potentials[..n][i] == potentials[i];
    } else {
      var tail := Map(partial, GraftOnto(potentials[n]));
      assert tail[j] == GraftOnto(potentials[i])(partial[j]);
    }
  }

  predicate GraftedFrom(x: PathEntry, potential: string, p: PathEntry)
  {
    x.metaType == p.metaType && x.typePath == p.typePath &&
    x.path == (if p.isStatic then p.path else potential + "." + p.path)
  }

  /** A replacement path is the partial entry's own when static, else the potential instance path, a dot, and the partial path. */
  lemma GraftPaths(potentials: seq<string>, partial: seq<PathEntry>, x: PathEntry)
    requires x in Graft(potentials, partial)
    ensures exists i, j :: 0 <= i < |potentials| && 0 <= j < |partial| && GraftedFrom(x, potentials[i], partial[j])
  {
    GraftSound(potentials, partial, x);
  }

  function PathsOf(es: seq<PathEntry>): seq<string>
  {
    Map(es, PathOf)
  }

  function NotAmong(paths: seq<string>): PathEntry -> bool
  {
    (e: PathEntry) => e.path !in paths
  }

  /** The dedupe the comment announces: entries whose path is being replaced leave, then the replacements follow. */
  function Replace(list: seq<PathEntry>, repl: seq<PathEntry>): seq<PathEntry>
  {
    Filter(list, NotAmong(PathsOf(repl))) + repl
  }

  lemma ReplaceMeans(list: seq<PathEntry>, repl: seq<PathEntry>)
    ensures var r := Replace(list, repl);
      |r| >= |repl| && r[|r| - |repl|..] == repl &&
      (forall x :: x in r <==> (x in list && x.path !in PathsOf(repl)) || x in repl) &&
      (forall k :: 0 <= k < |r| - |repl| ==> r[k].path !in PathsOf(repl))
  {
    var p := NotAmong(PathsOf(repl));
    FilterComplete(list, p);
    var f := Filter(list, p);
    assert Replace(list, repl)[..|f|] == f;
    forall k | 0 <= k < |f|
      ensures f[k].path !in PathsOf(repl)
    {
      assert f[k] in f;
    }
  }

  function AmendEntry(typePath: string, metaType: string): PathEntry -> PathEntry
  {
    (e: PathEntry) => if e.typePath == typePath then e.(metaType := metaType) else e
  }

  /** The last loop: every entry of the swapped type takes the type's metaType. */
  function Amend(list: seq<PathEntry>, typePath: string, metaType: string): seq<PathEntry>
  {
    Map(list, AmendEntry(typePath, metaType))
  }

  lemma AmendMeans(list: seq<PathEntry>, typePath: string, metaType: string)
    ensures var r := Amend(list, typePath, metaType);
      |r| == |list| &&
      forall k :: 0 <= k < |r| ==>
        r[k].path == list[k].path && r[k].typePath == list[k].typePath && r[k].isStatic == list[k].isStatic &&
        r[k].metaType == (if list[k].typePath == typePath then metaType else list[k].metaType)
  {
  }

  /** Two lists that agree entry by entry on their paths and on `keep` select the same paths. */
  lemma {:induction false} SelectAgrees(a: seq<PathEntry>, b: seq<PathEntry>, keep: PathEntry -> bool)
    requires |a| == |b|
    requires forall k :: 0 <= k < |a| ==> a[k].path == b[k].path && keep(a[k]) == keep(b[k])
    ensures Select(a, keep) == Select(b, keep)
    decreases |a|
  {
    if |a| > 0 {
      var n := |a| - 1;
      SelectAgrees(a[..n], b[..n], keep);
      SelectStep(a, n, keep);
      SelectStep(b, n, keep);
      assert a[..n + 1] == a && b[..n + 1] == b;
    }
  }

  /** Amending changes no path and no type, so lookups by path or type see the same catalogue. */
  lemma AmendKeepsLookups(list: seq<PathEntry>, typePath: string, metaType: string, s: string, tp: string)
    ensures Select(Amend(list, typePath, metaType), EndingWith(s)) == Select(list, EndingWith(s))
    ensures Select(Amend(list, typePath, metaType), StartingWith(s)) == Select(list, StartingWith(s))
    ensures OfType(tp, Amend(list, typePath, metaType)) == OfType(tp, list)
  {
    var a := Amend(list, typePath, metaType);
    SelectAgrees(a, list, EndingWith(s));
    SelectAgrees(a, list, StartingWith(s));
    SelectAgrees(a, list, HasType(tp));
  }

  // ------------------------------------------------------------ the swap as written

  /**
   * The indexing loop of the type swap as written: the path (and staticness) comes from
   * the j-th indexing entry, but metaType and type are read from the j-th entry of the
   * full list. The indexing list is a sub-list of the full one, so the index exists.
   */
  function MixedEntries(indexing: seq<PathEntry>, all: seq<PathEntry>): (r: seq<PathEntry>)
    requires |indexing| <= |all|
    ensures |r| == |indexing|
    ensures forall j :: 0 <= j < |r| ==>
      r[j] == PathEntry(indexing[j].path, all[j].metaType, all[j].typePath, indexing[j].isStatic)
  {
    if |indexing| == 0 then []
    else
      var n := |indexing| - 1;
      MixedEntries(indexing[..n], all) + [PathEntry(indexing[n].path, all[n].metaType, all[n].typePath, indexing[n].isStatic)]
  }

  function GraftIndexingAsWritten(potentials: seq<string>, indexing: seq<PathEntry>, all: seq<PathEntry>): seq<PathEntry>
    requires |indexing| <= |all|
  {
    Graft(potentials, MixedEntries(indexing, all))
  }

  /** The dedupe as written looks a path up among entries, finds nothing, and only appends. */
  function ReplaceAsWritten(list: seq<PathEntry>, repl: seq<PathEntry>): seq<PathEntry>
  {
    list + repl
  }

  /**
   * The swap routine as written starts with `this.fetchAllPotentialInstancePathsForType`,
   * a helper its class does not define, so every call stops with a TypeError before any
   * list changes.
   */
  function SwapAsWritten(t: Type): Result<()>
  {
    Failure(Graph.TYPE_ERROR)
  }

  lemma SwapAsWrittenAlwaysThrows(t: Type)
    ensures SwapAsWritten(t).Failure?
  {
  }

  /**
   * A swapped type whose variables are a connection `c` and a state variable `s`: the
   * connection is not indexed, so the indexing list is `[s]`, and as written the indexing
   * entry for `s` is labelled with the connection's metaType and type.
   */
  lemma IndexingAsWrittenMislabels()
    ensures var c := PathEntry("c", CONNECTION_TYPE, "//conn", false);
      var s := PathEntry("s", STATE_VARIABLE_TYPE, "//state", false);
      GraftIndexingAsWritten(["net"], [s], [c, s]) == [PathEntry("net.s", CONNECTION_TYPE, "//conn", false)] &&
      Graft(["net"], [s]) == [PathEntry("net.s", STATE_VARIABLE_TYPE, "//state", false)]
  {
    var c := PathEntry("c", CONNECTION_TYPE, "//conn", false);
    var s := PathEntry("s", STATE_VARIABLE_TYPE, "//state", false);
    assert MixedEntries([s], [c, s]) == [PathEntry("s", CONNECTION_TYPE, "//conn", false)];
    assert ["net"][..0] == [];
    assert "net" + "." + "s" == "net.s";
    var m := Map([PathEntry("s", CONNECTION_TYPE, "//conn", false)], GraftOnto("net"));
    assert |m| == 1 && m[0] == PathEntry("net.s", CONNECTION_TYPE, "//conn", false);
    var g := Map([s], GraftOnto("net"));
    assert |g| == 1 && g[0] == PathEntry("net.s", STATE_VARIABLE_TYPE, "//state", false);
    assert Graft(["net"], [s]) == Graft([], [s]) + g;
    assert Graft(["net"], MixedEntries([s], [c, s])) == Graft([], MixedEntries([s], [c, s])) + m;
  }

  /** Swapping in a type twice leaves, as written, two entries with the same path; the dedupe keeps one. */
  lemma DedupeAsWrittenDuplicates()
    ensures var x := PathEntry("net.s", STATE_VARIABLE_TYPE, "//state", false);
      ReplaceAsWritten([x], [x]) == [x, x] && Replace([x], [x]) == [x]
  {
    var x := PathEntry("net.s", STATE_VARIABLE_TYPE, "//state", false);
    assert PathsOf([x]) == ["net.s"];
    assert [x][1..] == [];
    assert Filter([x], NotAmong(["net.s"])) == [];
  }

  /** Where the entries are labelled consistently, the indexing list as written is right. */
  lemma MixedAgreesOnPrefix(indexing: seq<PathEntry>, all: seq<PathEntry>)
    requires |indexing| <= |all| && indexing == all[..|indexing|]
    ensures MixedEntries(indexing, all) == indexing
  {
  }

  // ------------------------------------------------------------ the catalogue the model keeps

  /** The catalogue lists of a model: `allPaths`, `allPathsIndexing` and the merge's `newPathsIndexing`. */
  class Catalogue {
    var allPaths: seq<PathEntry>
    var allPathsIndexing: seq<PathEntry>
    var newPathsIndexing: seq<PathEntry>

    constructor ()
      ensures allPaths == [] && allPathsIndexing == [] && newPathsIndexing == []
    {
      allPaths := [];
      allPathsIndexing := [];
      newPathsIndexing := [];
    }

    /** `getAllPotentialInstancesEndingWith`: the paths ending with `s`, leaving out wildcard paths. */
    method GetAllPotentialInstancesEndingWith(s: string) returns (r: seq<string>)
      ensures r == Select(allPaths, EndingWith(s))
      ensures forall p :: p in r <==> exists e :: e in allPaths && e.path == p && EndsWith(p, s) && '*' !in p
    {
      r := [];
      var i := 0;
      while i < |allPaths|
        invariant 0 <= i <= |allPaths|
        invariant r == Select(allPaths[..i], EndingWith(s))
      {
        SelectStep(allPaths, i, EndingWith(s));
        if EndsWith(allPaths[i].path, s) && '*' !in allPaths[i].path {
          r := r + [allPaths[i].path];
        }
        i := i + 1;
      }
      assert allPaths[..i] == allPaths;
      SelectMeans(allPaths, EndingWith(s));
    }

    /** `getAllPotentialInstancesStartingWith`: the paths starting with `s`, leaving out wildcard paths. */
    method GetAllPotentialInstancesStartingWith(s: string) returns (r: seq<string>)
      ensures r == Select(allPaths, StartingWith(s))
      ensures forall p :: p in r <==> exists e :: e in allPaths && e.path == p && StartsWith(p, s) && '*' !in p
    {
      r := [];
      var i := 0;
      while i < |allPaths|
        invariant 0 <= i <= |allPaths|
        invariant r == Select(allPaths[..i], StartingWith(s))
      {
        SelectStep(allPaths, i, StartingWith(s));
        if StartsWith(allPaths[i].path, s) && '*' !in allPaths[i].path {
          r := r + [allPaths[i].path];
        }
        i := i + 1;
      }
      assert allPaths[..i] == allPaths;
      SelectMeans(allPaths, StartingWith(s));
    }

    /**
     * The catalogue half of `instantiateVariables`: every top-level variable is walked
     * from the empty path; the entries are appended to `allPaths` and replace
     * `allPathsIndexing`. A throw during the walk leaves both lists as they were.
     */
    method Install(vars: seq<Variable>) returns (err: Option<string>)
      modifies this
      ensures err == Traverse(vars, []).err
      ensures err.None? ==> allPaths == old(allPaths) + Traverse(vars, []).all &&
                            allPathsIndexing == Traverse(vars, []).indexing
      ensures err.Some? ==> allPaths == old(allPaths) && allPathsIndexing == old(allPathsIndexing)
      ensures newPathsIndexing == old(newPathsIndexing)
    {
      var lists := new PathLists();
      err := lists.FetchVariables(vars, []);
      if err.None? {
        allPaths := allPaths + lists.all;
        allPathsIndexing := lists.indexing;
      }
    }

    /**
     * `addPotentialInstancePathsForTypeSwap` as its comments describe it: the swapped
     * type's partial paths are placed under every potential instance of that type, the
     * entries they replace leave the lists, and every entry of the type takes its metaType.
     * The client looks the potential instances up with `getAllPotentialInstancesOfType(typePath)`
     * and no list, so that lookup filters `undefined` and throws a TypeError; the model reads
     * the missing list as `allPaths`, the list the comment names.
     */
    method SwapType(t: Type) returns (err: Option<string>)
      modifies this
      ensures var partial := ForType(t, []);
        err == partial.err &&
        (err.Some? ==> allPaths == old(allPaths) && allPathsIndexing == old(allPathsIndexing) &&
                       newPathsIndexing == old(newPathsIndexing)) &&
        (err.None? ==>
          var repl := Graft(OfType(t.path, old(allPaths)), partial.all);
          var replIndexing := Graft(OfType(t.path, old(allPathsIndexing)), partial.indexing);
          allPaths == Amend(Replace(old(allPaths), repl), t.path, t.metaType) &&
          allPathsIndexing == Amend(Replace(old(allPathsIndexing), replIndexing), t.path, t.metaType) &&
          newPathsIndexing == Replace(old(newPathsIndexing), replIndexing))
    {
      var lists := new PathLists();
      err := lists.FetchAllPotentialInstancePathsForType(t, []);
      if err.Some? {
        return;
      }
      assert lists.all == ForType(t, []).all && lists.indexing == ForType(t, []).indexing;
      PlaceUnder(t.path, t.metaType, lists.all, lists.indexing);
    }

    /** The swap once the partial entries of the new type are known. */
    method PlaceUnder(typePath: string, metaType: string, partialAll: seq<PathEntry>, partialIndexing: seq<PathEntry>)
      modifies this
      ensures var repl := Graft(OfType(typePath, old(allPaths)), partialAll);
        var replIndexing := Graft(OfType(typePath, old(allPathsIndexing)), partialIndexing);
        allPaths == Amend(Replace(old(allPaths), repl), typePath, metaType) &&
        allPathsIndexing == Amend(Replace(old(allPathsIndexing), replIndexing), typePath, metaType) &&
        newPathsIndexing == Replace(old(newPathsIndexing), replIndexing)
    {
      var potentials := OfType(typePath, allPaths);
      var potentialsIndexing := OfType(typePath, allPathsIndexing);
      var repl := GraftAll(potentials, partialAll);
      var replIndexing := GraftAll(potentialsIndexing, partialIndexing);
      allPathsIndexing := Deduplicated(allPathsIndexing, replIndexing);
      newPathsIndexing := Deduplicated(newPathsIndexing, replIndexing);
      allPaths := Deduplicated(allPaths, repl);
      allPaths := Amended(allPaths, typePath, metaType);
      allPathsIndexing := Amended(allPathsIndexing, typePath, metaType);
    }
  }

  /** The nested loops: for each potential instance, every partial entry under it. */
  method GraftAll(potentials: seq<string>, partial: seq<PathEntry>) returns (r: seq<PathEntry>)
    ensures r == Graft(potentials, partial)
  {
    r := [];
    var i := 0;
    while i < |potentials|
      invariant 0 <= i <= |potentials|
      invariant r == Graft(potentials[..i], partial)
    {
      assert potentials[..i + 1][..i] == potentials[..i];
      var under := GraftUnder(potentials[i], partial);
      r := r + under;
      i := i + 1;
    }
    assert potentials[..i] == potentials;
  }

  /** The inner loop: every partial entry under one potential instance. */
  method GraftUnder(potential: string, partial: seq<PathEntry>) returns (r: seq<PathEntry>)
    ensures r == Map(partial, GraftOnto(potential))
  {
    r := [];
    var j := 0;
    while j < |partial|
      invariant 0 <= j <= |partial|
      invariant |r| == j
      invariant forall k :: 0 <= k < j ==> r[k] == GraftOnto(potential)(partial[k])
    {
      var path := if partial[j].isStatic then partial[j].path else potential + "." + partial[j].path;
      r := r + [PathEntry(path, partial[j].metaType, partial[j].typePath, false)];
      j := j + 1;
    }
  }

  /** Drops the entries whose path a replacement carries, then appends the replacements. */
  method Deduplicated(list: seq<PathEntry>, repl: seq<PathEntry>) returns (r: seq<PathEntry>)
    ensures r == Replace(list, repl)
  {
    var replPaths := PathsOf(repl);
    var keep := NotAmong(replPaths);
    r := [];
    var i := 0;
    while i < |list|
      invariant 0 <= i <= |list|
      invariant r == Filter(list[..i], keep)
    {
      FilterPrefixStep(list, i, keep);
      if list[i].path !in replPaths {
        r := r + [list[i]];
      }
      i := i + 1;
    }
    assert list[..i] == list;
    r := r + repl;
  }

  /** Sets the metaType of every entry of the type, in place. */
  method Amended(list: seq<PathEntry>, typePath: string, metaType: string) returns (r: seq<PathEntry>)
    ensures r == Amend(list, typePath, metaType)
  {
    r := list;
    var i := 0;
    while i < |r|
      invariant 0 <= i <= |r| == |list|
      invariant forall k :: 0 <= k < i ==> r[k] == AmendEntry(typePath, metaType)(list[k])
      invariant forall k :: i <= k < |r| ==> r[k] == list[k]
    {
      if r[i].typePath == typePath {
        r := r[i := r[i].(metaType := metaType)];
      }
      i := i + 1;
    }
  }
}
