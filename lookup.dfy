/**
 * How `Instances.getInstance` reads a path: `eval('this.' + path)` on the list, whose
 * shortcuts lead to the top-level entries, whose child shortcuts lead to the children of
 * an instance, and where an array instance holds its element `k` at index `k`.
 *
 * Only paths made of segments `name` and `name[k]` are read; anything else is a syntax
 * error. Reading a property of `undefined` throws a type error.
 */
module InstanceLookup {
  import opened Wrappers
  import opened Strings
  import opened InstanceTree
  import opened IdPaths
  import InstanceBuild
  import Types
  import Graph
  import Worlds

  /** An entry of the list: a static instance of the world, or a node of the tree. */
  datatype Entry = StaticEntry(s: Worlds.StaticInstance) | NodeEntry(i: nat)

  const SYNTAX_ERROR: string := "SyntaxError"

  /** One property access of a path: `.name` or `[k]`. */
  datatype Access = Prop(name: string) | Index(k: nat)

  /** What the evaluation yields: `undefined`, or an entry (a top-level entry or a node of the tree). */
  datatype Value = Undefined | Found(e: Entry)

  /** A property name as a path writes it. */
  predicate IsName(s: string)
  {
    |s| > 0 && '[' !in s && ']' !in s && '.' !in s
  }

  /** A decimal numeral as strict-mode code accepts it: its digits are those of its value. */
  predicate IsNumeral(d: string)
  {
    |d| > 0 && (forall k :: 0 <= k < |d| ==> IsDigit(d[k])) && NatToString(DigitsValue(d)) == d
  }

  /**
   * The accesses of one segment of a path. What parses is exactly the text of its
   * accesses: `name`, or the element id `name[k]`.
   */
  function SegmentAccesses(seg: string): (r: Option<seq<Access>>)
    ensures r.Some? ==>
      (|r.value| == 1 && r.value[0] == Prop(seg) && IsName(seg)) ||
      (|r.value| == 2 && r.value[0] == Prop(ArrayIdOf(seg)) && IsName(ArrayIdOf(seg)) && r.value[1].Index? &&
       seg == InstanceBuild.ElementId(ArrayIdOf(seg), r.value[1].k))
  {
    if IsName(seg) then Some([Prop(seg)])
    else if '[' in seg && seg[|seg| - 1] == ']' && |ArrayIdOf(seg)| + 2 <= |seg| then
      var id := ArrayIdOf(seg);
      var d := seg[|id| + 1..|seg| - 1];
      if IsName(id) && IsNumeral(d) then
        assert seg == seg[..|id|] + [seg[|id|]] + d + [seg[|seg| - 1]];
        Some([Prop(id), Index(DigitsValue(d))])
      else None
    else None
  }

  /** The accesses of a path's segments, in order; one segment that does not parse spoils it. */
  function AccessesOf(segs: seq<string>): (r: Option<seq<Access>>)
    ensures r.Some? && |segs| > 0 ==> |r.value| > 0 && r.value[0].Prop?
  {
    if |segs| == 0 then Some([])
    else
      match SegmentAccesses(segs[0])
      case None => None
      case Some(a) =>
        match AccessesOf(segs[1..])
        case None => None
        case Some(b) => Some(a + b)
  }

  function Accesses(path: string): Option<seq<Access>>
  {
    AccessesOf(Split(path, '.'))
  }

  /** The child shortcut `instance[name]`: the last child with that id. */
  function ChildWithId(ns: seq<Inst>, cs: seq<nat>, name: string): (r: Option<nat>)
    ensures r.Some? ==> r.value in cs && r.value < |ns| && ns[r.value].id == name
    ensures r.None? ==> forall k :: 0 <= k < |cs| && cs[k] < |ns| ==> ns[cs[k]].id != name
  {
    if |cs| == 0 then None
    else
      var c := cs[|cs| - 1];
      if c < |ns| && ns[c].id == name then Some(c)
      else
        var r := ChildWithId(ns, cs[..|cs| - 1], name);
        assert forall k :: 0 <= k < |cs| - 1 ==> cs[k] == cs[..|cs| - 1][k];
        r
  }

  /** `arrayInstance[k]`: the element stored at index `k`. */
  function ElementSlot(ns: seq<Inst>, cs: seq<nat>, k: nat): (r: Option<nat>)
    ensures r.Some? ==> r.value in cs && r.value < |ns| && ns[r.value].kind == ElementInst(k)
    ensures r.None? ==> forall j :: 0 <= j < |cs| && cs[j] < |ns| ==> ns[cs[j]].kind != ElementInst(k)
  {
    if |cs| == 0 then None
    else if cs[0] < |ns| && ns[cs[0]].kind == ElementInst(k) then Some(cs[0])
    else
      var r := ElementSlot(ns, cs[1..], k);
      assert forall j :: 1 <= j < |cs| ==> cs[j] == cs[1..][j - 1];
      r
  }

  /**
   * One access. A property of `undefined` throws; a static instance and an instance have
   * no property but their child shortcuts, and only an array instance has indices.
   */
  function Apply(ns: seq<Inst>, v: Value, a: Access): Result<Value>
  {
    match v
    case Undefined => Failure(Graph.TYPE_ERROR)
    case Found(StaticEntry(_)) => Success(Undefined)
    case Found(NodeEntry(i)) =>
      if i >= |ns| then Success(Undefined)
      else
        var found := match a
          case Prop(name) => ChildWithId(ns, ns[i].children, name)
          case Index(k) => if ns[i].kind.ArrayInst? then ElementSlot(ns, ns[i].children, k) else None;
        if found.Some? then Success(Found(NodeEntry(found.value))) else Success(Undefined)
  }

  /** The accesses one after the other; the first throw ends the walk. */
  function Walk(ns: seq<Inst>, v: Value, acc: seq<Access>): Result<Value>
    decreases |acc|
  {
    if |acc| == 0 then Success(v)
    else
      match Apply(ns, v, acc[0])
      case Failure(e) => Failure(e)
      case Success(w) => Walk(ns, w, acc[1..])
  }

  /** `eval('this.' + path)`: the first name is a shortcut of the list, the rest are walked from it. */
  function Eval(ns: seq<Inst>, shortcuts: map<string, Entry>, path: string): Result<Value>
  {
    match Accesses(path)
    case None => Failure(SYNTAX_ERROR)
    case Some(acc) =>
      var name := acc[0].name;
      Walk(ns, if name in shortcuts then Found(shortcuts[name]) else Undefined, acc[1..])
  }

  // ------------------------------------------------------------ properties

  /** A segment with an element id parses back into the array's name and the index. */
  lemma SegmentOfElement(id: string, k: nat)
    requires IsName(id)
    ensures SegmentAccesses(InstanceBuild.ElementId(id, k)) == Some([Prop(id), Index(k)])
  {
    var seg := InstanceBuild.ElementId(id, k);
    var d := NatToString(k);
    assert seg == id + ['['] + (d + "]");
    SplitAppend(id, d + "]", '[');
    assert ArrayIdOf(seg) == id;
    assert seg[|id|] == '[';
    assert seg[|id| + 1..|seg| - 1] == d;
    DigitsValueOfNat(k);
  }

  /** Every top-level shortcut leads to a top-level node with that id. */
  ghost predicate TopsNamed(ns: seq<Inst>, shortcuts: map<string, Entry>)
  {
    forall x :: x in shortcuts && shortcuts[x].NodeEntry? ==>
      shortcuts[x].i < |ns| && ns[shortcuts[x].i].parent.None? && ns[shortcuts[x].i].id == x
  }

  /** The id of the node an access reaches from a node with id `last`. */
  function NextId(last: string, a: Access): string
  {
    match a
    case Prop(n) => n
    case Index(k) => InstanceBuild.ElementId(last, k)
  }

  /** The raw-path text the accesses add, starting from a node with id `last`. */
  function Trail(last: string, acc: seq<Access>): string
    decreases |acc|
  {
    if |acc| == 0 then "" else "." + NextId(last, acc[0]) + Trail(NextId(last, acc[0]), acc[1..])
  }

  lemma {:induction false} TrailConcat(last: string, a: seq<Access>, b: seq<Access>)
    requires |b| > 0 && b[0].Prop?
    ensures Trail(last, a + b) == Trail(last, a) + ("." + b[0].name + Trail(b[0].name, b[1..]))
    decreases |a|
  {
    var t := "." + b[0].name + Trail(b[0].name, b[1..]);
    if |a| == 0 {
      assert a + b == b;
      assert Trail(last, b) == t;
      assert "" + t == t;
    } else {
      var id := NextId(last, a[0]);
      assert (a + b)[0] == a[0];
      assert (a + b)[1..] == a[1..] + b;
      TrailConcat(id, a[1..], b);
      var x := Trail(id, a[1..]);
      assert Trail(last, a + b) == "." + id + (x + t);
      assert Trail(last, a) == "." + id + x;
      assert "." + id + (x + t) == ("." + id + x) + t;
    }
  }

  /** Nothing is found below `undefined` or below a static instance. */
  lemma WalkFindsNothingBelow(ns: seq<Inst>, v: Value, acc: seq<Access>)
    requires v.Undefined? || (v.e.StaticEntry? && |acc| > 0)
    ensures !(Walk(ns, v, acc).Success? && Walk(ns, v, acc).value.Found?)
  {
    if |acc| > 1 && v.Found? {
      assert Walk(ns, v, acc) == Walk(ns, Undefined, acc[1..]);
    }
  }

  /** A walk from a node ends at the node whose raw path extends the start's by the trail of the accesses. */
  lemma {:induction false} WalkRawPath(ns: seq<Inst>, i: nat, acc: seq<Access>, j: nat)
    requires WF(ns) && InstanceBuild.NamedElements(ns) && i < |ns|
    requires Walk(ns, Found(NodeEntry(i)), acc) == Success(Found(NodeEntry(j)))
    ensures j < |ns| && RawPath(ns, j) == RawPath(ns, i) + Trail(ns[i].id, acc)
    decreases |acc|
  {
    if |acc| == 0 {
      assert RawPath(ns, i) + "" == RawPath(ns, i);
    } else {
      var w := Apply(ns, Found(NodeEntry(i)), acc[0]);
      assert w.Success?;
      assert Walk(ns, Found(NodeEntry(i)), acc) == Walk(ns, w.value, acc[1..]);
      if w.value.Undefined? {
        WalkFindsNothingBelow(ns, w.value, acc[1..]);
        assert false;
      } else {
        var c := w.value.e.i;
        assert c in ns[i].children && c < |ns|;
        assert ns[c].parent == Some(i) && InstanceBuild.NamedAt(ns, c);
        assert ns[c].id == NextId(ns[i].id, acc[0]);
        WalkRawPath(ns, c, acc[1..], j);
      }
    }
  }

  /** The raw-path text one segment stands for is the text of its rewrite. */
  lemma SegmentTrail(seg: string, a: seq<Access>)
    requires SegmentAccesses(seg) == Some(a)
    ensures a[0].name + Trail(a[0].name, a[1..]) == Join(Piece(seg), '.')
  {
    if |a| == 2 {
      var id := ArrayIdOf(seg);
      assert seg[|id|] == '[';
      assert a[1..][1..] == [];
      assert Piece(seg)[1..] == [seg];
    } else {
      assert a[1..] == [];
      assert '[' !in seg;
    }
  }

  /** The raw-path text a path's segments stand for is that of the rewritten segments. */
  lemma {:induction false} TrailOfSegments(segs: seq<string>, acc: seq<Access>)
    requires |segs| > 0 && AccessesOf(segs) == Some(acc)
    ensures acc[0].name + Trail(acc[0].name, acc[1..]) == Join(Pieces(segs), '.')
    decreases |segs|
  {
    var a := SegmentAccesses(segs[0]).value;
    var b := AccessesOf(segs[1..]).value;
    assert acc == a + b;
    SegmentTrail(segs[0], a);
    var head := Join(Piece(segs[0]), '.');
    assert a[0].name + Trail(a[0].name, a[1..]) == head;
    if |segs| == 1 {
      assert segs[1..] == [];
      assert b == [] && acc == a;
      assert Pieces(segs) == Piece(segs[0]) + [];
      assert Piece(segs[0]) + [] == Piece(segs[0]);
    } else {
      TrailOfSegments(segs[1..], b);
      TrailAcross(segs, a, b, acc, head);
    }
  }

  lemma TrailAcross(segs: seq<string>, a: seq<Access>, b: seq<Access>, acc: seq<Access>, head: string)
    requires |segs| > 1 && AccessesOf(segs[1..]) == Some(b)
    requires acc == a + b && |a| > 0 && a[0].Prop? && head == Join(Piece(segs[0]), '.')
    requires a[0].name + Trail(a[0].name, a[1..]) == head
    requires b[0].name + Trail(b[0].name, b[1..]) == Join(Pieces(segs[1..]), '.')
    ensures acc[0].name + Trail(acc[0].name, acc[1..]) == Join(Pieces(segs), '.')
  {
    TrailSplits(a, b, acc, head, Join(Pieces(segs[1..]), '.'));
    PiecesSplit(segs);
  }

  lemma TrailSplits(a: seq<Access>, b: seq<Access>, acc: seq<Access>, head: string, rest: string)
    requires acc == a + b && |a| > 0 && a[0].Prop? && |b| > 0 && b[0].Prop?
    requires a[0].name + Trail(a[0].name, a[1..]) == head
    requires b[0].name + Trail(b[0].name, b[1..]) == rest
    ensures acc[0].name + Trail(acc[0].name, acc[1..]) == head + "." + rest
  {
    var x, y := a[0].name, b[0].name;
    assert acc[0] == a[0] && acc[1..] == a[1..] + b;
    TrailConcat(x, a[1..], b);
    Regroup(x, Trail(x, a[1..]), y, Trail(y, b[1..]));
  }

  lemma Regroup(x: string, u: string, y: string, t: string)
    ensures x + (u + ("." + y + t)) == (x + u) + "." + (y + t)
  {
  }

  lemma PiecesSplit(segs: seq<string>)
    requires |segs| > 1
    ensures Join(Pieces(segs), '.') == Join(Piece(segs[0]), '.') + "." + Join(Pieces(segs[1..]), '.')
  {
    JoinPieces(segs[1..]);
    JoinConcat(Piece(segs[0]), Pieces(segs[1..]), '.');
  }

  /**
   * What a path evaluates to, when it is an instance, is the instance whose raw path is
   * the path's rewrite (`a.b[0].v` finds the node at `a.b.b[0].v`): the lookup reads the
   * tree the rewrite builds.
   */
  lemma EvalRawPath(ns: seq<Inst>, shortcuts: map<string, Entry>, path: string, j: nat)
    requires WF(ns) && InstanceBuild.NamedElements(ns) && TopsNamed(ns, shortcuts)
    requires Eval(ns, shortcuts, path) == Success(Found(NodeEntry(j)))
    ensures j < |ns| && RawPath(ns, j) == IdConcatPath(path)
  {
    var acc := Accesses(path).value;
    var x := acc[0].name;
    var base := if x in shortcuts then Found(shortcuts[x]) else Undefined;
    if base.Undefined? || base.e.StaticEntry? {
      if |acc[1..]| > 0 {
        WalkFindsNothingBelow(ns, base, acc[1..]);
      }
      assert false;
    }
    var i := base.e.i;
    assert RawPath(ns, i) == x;
    WalkRawPath(ns, i, acc[1..], j);
    TrailOfSegments(Split(path, '.'), acc);
    JoinPieces(Split(path, '.'));
  }
}
