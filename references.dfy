/**
 * Reference strings of the serialised model, such as
 * `//@libraries.0/@types.20/@variables.5`, and the way `resolve` cuts them
 * into segments: the `geppettoModel#` anchor is dropped, every `/` is removed
 * and the rest is split at `@`, so that each segment reads `feature.index`.
 */
module References {
  import opened Wrappers
  import opened Strings

  const MODEL_ANCHOR: string := "geppettoModel#"

  /** The collection names `resolve` looks for, in the order it tests them. */
  const FEATURES: seq<string> := ["libraries", "variables", "types", "anonymousTypes", "tags",
                                  "visualGroups", "visualGroupElements", "worlds", "instances"]

  /** The segments `resolve` walks; the first one is the empty text before the first `@`. */
  function Segments(refStr: string): (raw: seq<string>)
    ensures |raw| >= 1
  {
    Split(RemoveAll(ReplaceFirst(refStr, MODEL_ANCHOR, ""), '/'), '@')
  }

  /** `parseInt(segment.split('.')[1])`; `None` stands for `NaN`. */
  function IndexOf(seg: string): Option<int>
  {
    var fields := Split(seg, '.');
    ParseInt(if |fields| >= 2 then Some(fields[1]) else None)
  }

  /** One step `@feature.index` of a well-formed reference. */
  datatype Seg = Seg(feature: string, index: nat)

  /** A feature name holds none of the characters the reference syntax uses. */
  predicate PlainName(name: string)
  {
    '/' !in name && '@' !in name && '.' !in name && '#' !in name
  }

  predicate PlainSegs(ss: seq<Seg>)
  {
    forall k :: 0 <= k < |ss| ==> PlainName(ss[k].feature)
  }

  function SegText(s: Seg): string
  {
    s.feature + "." + NatToString(s.index)
  }

  function Texts(ss: seq<Seg>): (r: seq<string>)
    ensures |r| == |ss|
    ensures forall k :: 0 <= k < |ss| ==> r[k] == SegText(ss[k])
  {
    if |ss| == 0 then [] else [SegText(ss[0])] + Texts(ss[1..])
  }

  function Tail(ss: seq<Seg>): string
  {
    if |ss| == 0 then "" else "/@" + SegText(ss[0]) + Tail(ss[1..])
  }

  /** The reference to the element reached by following `ss` from the model root. */
  function RefString(ss: seq<Seg>): string
  {
    "/" + Tail(ss)
  }

  lemma SegTextPlain(s: Seg)
    requires PlainName(s.feature)
    ensures '/' !in SegText(s) && '@' !in SegText(s) && '#' !in SegText(s)
  {
    var d := NatToString(s.index);
    assert forall i :: 0 <= i < |d| ==> IsDigit(d[i]);
    assert '/' !in d && '@' !in d && '#' !in d;
  }

  lemma {:induction false} TailHasNoAnchor(ss: seq<Seg>)
    requires PlainSegs(ss)
    ensures '#' !in Tail(ss)
    decreases |ss|
  {
    if |ss| > 0 {
      SegTextPlain(ss[0]);
      TailHasNoAnchor(ss[1..]);
    }
  }

  lemma RemoveSlashesStep(t: string, rest: string)
    requires '/' !in t
    ensures RemoveAll("/@" + t + rest, '/') == "@" + t + RemoveAll(rest, '/')
  {
    RemoveAllConcat("/@" + t, rest, '/');
    RemoveAllConcat("/@", t, '/');
    RemoveAllAbsent(t, '/');
    assert RemoveAll("/@", '/') == "@";
  }

  lemma JoinEmptyHead(t: string, x: seq<string>)
    ensures Join([""] + ([t] + x), '@') == "@" + t + Join([""] + x, '@')
  {
    assert ([""] + ([t] + x))[1..] == [t] + x;
    if |x| > 0 {
      assert ([t] + x)[1..] == x;
      assert ([""] + x)[1..] == x;
    }
  }

  /** With every `/` removed, the reference is the segments joined by `@`. */
  lemma {:induction false} TailWithoutSlashes(ss: seq<Seg>)
    requires PlainSegs(ss)
    ensures RemoveAll(Tail(ss), '/') == Join([""] + Texts(ss), '@')
    decreases |ss|
  {
    if |ss| > 0 {
      var t := SegText(ss[0]);
      var r := ss[1..];
      SegTextPlain(ss[0]);
      TailWithoutSlashes(r);
      RemoveSlashesStep(t, Tail(r));
      assert Texts(ss) == [t] + Texts(r);
      JoinEmptyHead(t, Texts(r));
    }
  }

  /** A well-formed reference is cut into an empty segment followed by one `feature.index` per step. */
  lemma SegmentsOfRefString(ss: seq<Seg>)
    requires PlainSegs(ss)
    ensures Segments(RefString(ss)) == [""] + Texts(ss)
  {
    var s := RefString(ss);
    TailHasNoAnchor(ss);
    assert '#' !in s;
    MissingCharNotContained(s, MODEL_ANCHOR, '#');
    ReplaceFirstAbsent(s, MODEL_ANCHOR, "");
    assert ReplaceFirst(s, MODEL_ANCHOR, "") == s;
    RemoveAllConcat("/", Tail(ss), '/');
    assert RemoveAll("/", '/') == "";
    TailWithoutSlashes(ss);
    assert RemoveAll(s, '/') == Join([""] + Texts(ss), '@');
    forall k | 0 <= k < |[""] + Texts(ss)|
      ensures '@' !in ([""] + Texts(ss))[k]
    {
      if k > 0 {
        SegTextPlain(ss[k - 1]);
      }
    }
    SplitJoin([""] + Texts(ss), '@');
  }

  /** The index of a segment `feature.k` reads back as `k`. */
  lemma IndexOfSegText(s: Seg)
    requires PlainName(s.feature)
    ensures IndexOf(SegText(s)) == Some(s.index as int)
  {
    IndexFieldOf(s.feature, s.index);
  }

  /** A text that ends in digits holds a name ending in a non-digit only if the part before the digits does. */
  lemma NotContainedBeforeDigits(p: string, d: string, t: string)
    requires |t| > 0 && !IsDigit(t[|t| - 1])
    requires forall k :: 0 <= k < |d| ==> IsDigit(d[k])
    requires !Contains(p, t)
    ensures !Contains(p + d, t)
  {
    ContainsMeans(p, t);
    ContainsMeans(p + d, t);
    forall i
      ensures !OccursAt(p + d, t, i)
    {
      if !(0 <= i && i + |t| <= |p| + |d|) {
      } else if i + |t| <= |p| {
        assert (p + d)[i..i + |t|] == p[i..i + |t|];
        assert !OccursAt(p, t, i);
      } else {
        assert (p + d)[i..i + |t|][|t| - 1] == d[i + |t| - 1 - |p|];
        assert IsDigit(d[i + |t| - 1 - |p|]);
      }
    }
  }

  /** A segment `feature.k` holds its own feature name. */
  lemma SegHoldsFeature(s: Seg)
    ensures Contains(SegText(s), s.feature)
  {
    assert SegText(s) == s.feature + ("." + NatToString(s.index));
    PrefixContained(s.feature, "." + NatToString(s.index));
  }

  /** A segment `feature.k` holds no other name that `feature.` lacks and that ends in a non-digit. */
  lemma SegLacks(s: Seg, n: string)
    requires |n| > 0 && !IsDigit(n[|n| - 1])
    requires !Contains(s.feature + ".", n)
    ensures !Contains(SegText(s), n)
  {
    NotContainedBeforeDigits(s.feature + ".", NatToString(s.index), n);
  }

  /** A segment `feature.k` holds no name with a letter that the feature lacks. */
  lemma SegLacksChar(s: Seg, n: string, c: char)
    requires c in n && c !in s.feature && c != '.' && !IsDigit(c)
    ensures !Contains(SegText(s), n)
  {
    var d := NatToString(s.index);
    assert forall i :: 0 <= i < |d| ==> IsDigit(d[i]);
    assert c !in d;
    MissingCharNotContained(SegText(s), n, c);
  }
}
