/**
 * The `[*]` notation of `Instances.getInstance`: a path such as `net.cells[*].v` stands
 * for one path per element of the array instance, `net.cells[0].v`, `net.cells[1].v`, ...
 * The size of an array comes from looking the array instance up, which the caller
 * supplies as `size`; a lookup that throws is a `Failure`.
 */
module Wildcards {
  import opened Wrappers
  import opened Seqs
  import opened Strings

  const WILDCARD: string := "[*]"

  predicate HasWildcard(p: string)
  {
    Contains(p, WILDCARD)
  }

  /** Occurrences in the tail of a string are the occurrences after its first character. */
  lemma OccursShift(s: string, t: string)
    requires |s| > 0
    ensures forall j :: 1 <= j ==> (OccursAt(s, t, j) <==> OccursAt(s[1..], t, j - 1))
  {
    forall j | 1 <= j
      ensures OccursAt(s, t, j) <==> OccursAt(s[1..], t, j - 1)
    {
      if j + |t| <= |s| {
        var here := s[j..j + |t|];
        var there := s[1..][j - 1..j - 1 + |t|];
        forall x | 0 <= x < |t| ensures here[x] == there[x] {
          assert here[x] == s[j + x];
        }
        assert here == there;
      }
    }
  }

  /** `s.indexOf(t)` when `t` occurs: the first position where it does. */
  function FirstOccurrence(s: string, t: string): (i: nat)
    requires Contains(s, t)
    ensures OccursAt(s, t, i)
    ensures forall j :: 0 <= j < i ==> !OccursAt(s, t, j)
    decreases |s|
  {
    if s[..|t|] == t then 0
    else
      OccursShift(s, t);
      1 + FirstOccurrence(s[1..], t)
  }

  /** `prefix + '[' + x + ']' + suffix` for x = 0 .. n-1, in ascending order. */
  function Elements(prefix: string, suffix: string, n: int): (r: seq<string>)
    ensures |r| == if n <= 0 then 0 else n
    ensures forall x :: 0 <= x < |r| ==> r[x] == prefix + "[" + NatToString(x) + "]" + suffix
    decreases if n <= 0 then 0 else n
  {
    if n <= 0 then [] else Elements(prefix, suffix, n - 1) + [prefix + "[" + NatToString(n - 1) + "]" + suffix]
  }

  /** The text before the first `[*]`: the array instance's path. */
  function ArrayPath(p: string): string
    requires HasWildcard(p)
  {
    p[..FirstOccurrence(p, WILDCARD)]
  }

  /** The text after the first `[*]`. */
  function SubArrayPath(p: string): string
    requires HasWildcard(p)
  {
    p[FirstOccurrence(p, WILDCARD) + |WILDCARD|..]
  }

  /** A path with at most one `[*]`. */
  predicate SingleWildcard(p: string)
  {
    HasWildcard(p) ==> !HasWildcard(SubArrayPath(p))
  }

  /** The paths one `[*]` path stands for, given the size of its array. */
  function Explode(p: string, n: int): (r: seq<string>)
    requires HasWildcard(p)
    ensures |r| == if n <= 0 then 0 else n
  {
    Elements(ArrayPath(p), SubArrayPath(p), n)
  }

  /** Nothing before the first occurrence contains it. */
  lemma PrefixLacksWildcard(p: string)
    requires HasWildcard(p)
    ensures !HasWildcard(ArrayPath(p))
  {
    var k := FirstOccurrence(p, WILDCARD);
    var a := ArrayPath(p);
    ContainsMeans(a, WILDCARD);
    if HasWildcard(a) {
      var i :| OccursAt(a, WILDCARD, i);
      assert p[i..i + 3] == a[i..i + 3];
      assert OccursAt(p, WILDCARD, i);
    }
  }

  /** An index in brackets never forms a `[*]` with what surrounds it. */
  lemma ElementLacksWildcard(prefix: string, d: string, suffix: string)
    requires !HasWildcard(prefix) && !HasWildcard(suffix)
    requires |d| > 0 && forall k :: 0 <= k < |d| ==> IsDigit(d[k])
    ensures !HasWildcard(prefix + "[" + d + "]" + suffix)
  {
    var e := prefix + "[" + d + "]" + suffix;
    var m := |prefix| + |d| + 2;
    ContainsMeans(e, WILDCARD);
    ContainsMeans(prefix, WILDCARD);
    ContainsMeans(suffix, WILDCARD);
    forall i | 0 <= i && i + 3 <= |e|
      ensures !OccursAt(e, WILDCARD, i)
    {
      var w := e[i..i + 3];
      if i + 3 <= |prefix| {
        assert prefix[i..i + 3] == w;
        assert !OccursAt(prefix, WILDCARD, i);
      } else if i >= m {
        assert suffix[i - m..i - m + 3] == w;
        assert !OccursAt(suffix, WILDCARD, i - m);
      } else if i + 2 == |prefix| {
        assert w[2] == e[|prefix|] == '[';
      } else if i + 1 == |prefix| {
        assert w[1] == e[|prefix|] == '[';
      } else if i + 1 < m - 1 {
        assert w[1] == e[i + 1] == d[i - |prefix|];
        assert IsDigit(d[i - |prefix|]);
      } else if i + 1 == m - 1 {
        assert w[1] == e[m - 1] == ']';
      } else {
        assert w[0] == e[m - 1] == ']';
      }
    }
  }

  /** The paths a single-`[*]` path explodes into carry no `[*]` of their own. */
  lemma ExplodedLackWildcards(p: string, n: int)
    requires HasWildcard(p) && SingleWildcard(p)
    ensures forall q :: q in Explode(p, n) ==> !HasWildcard(q)
  {
    PrefixLacksWildcard(p);
    var r := Explode(p, n);
    forall q | q in r ensures !HasWildcard(q) {
      var x :| 0 <= x < |r| && r[x] == q;
      ElementLacksWildcard(ArrayPath(p), NatToString(x), SubArrayPath(p));
    }
  }

  /** The entries without `[*]`, in order. */
  function Kept(paths: seq<string>): seq<string>
  {
    Filter(paths, (p: string) => !HasWildcard(p))
  }

  /** The explosions of the `[*]` entries, in the order of the entries; the first size lookup that throws ends it. */
  function Exploded(paths: seq<string>, size: string -> Result<int>): (r: Result<seq<string>>)
  {
    if |paths| == 0 then Success([])
    else
      var e := Exploded(paths[..|paths| - 1], size);
      var p := paths[|paths| - 1];
      if e.Failure? || !HasWildcard(p) then e
      else
        match size(ArrayPath(p))
        case Failure(err) => Failure(err)
        case Success(n) => Success(e.value + Explode(p, n))
  }

  /**
   * The path list once every `[*]` entry is replaced by its explosion: the other entries
   * keep their order, and the explosions follow in the order of their entries.
   */
  function Expanded(paths: seq<string>, size: string -> Result<int>): Result<seq<string>>
  {
    match Exploded(paths, size)
    case Failure(err) => Failure(err)
    case Success(e) => Success(Kept(paths) + e)
  }

  /** No entry of an exploded list carries a `[*]`. */
  lemma {:induction false} ExplodedFree(paths: seq<string>, size: string -> Result<int>)
    requires forall k :: 0 <= k < |paths| ==> SingleWildcard(paths[k])
    ensures Exploded(paths, size).Success? ==>
      forall q :: q in Exploded(paths, size).value ==> !HasWildcard(q)
  {
    if |paths| > 0 {
      var init := paths[..|paths| - 1];
      ExplodedFree(init, size);
      var p := paths[|paths| - 1];
      if Exploded(init, size).Success? && HasWildcard(p) && size(ArrayPath(p)).Success? {
        ExplodedLackWildcards(p, size(ArrayPath(p)).value);
      }
    }
  }

  /** Every path of a successful expansion is free of `[*]`, and none of the plain entries is lost. */
  lemma ExpandedFree(paths: seq<string>, size: string -> Result<int>)
    requires forall k :: 0 <= k < |paths| ==> SingleWildcard(paths[k])
    ensures Expanded(paths, size).Success? ==>
      (forall q :: q in Expanded(paths, size).value ==> !HasWildcard(q)) &&
      (forall q :: q in paths && !HasWildcard(q) ==> q in Expanded(paths, size).value)
  {
    ExplodedFree(paths, size);
    FilterComplete(paths, (p: string) => !HasWildcard(p));
  }

  /** Without any `[*]` entry nothing changes. */
  lemma {:induction false} ExpandedPlain(paths: seq<string>, size: string -> Result<int>)
    requires forall k :: 0 <= k < |paths| ==> !HasWildcard(paths[k])
    ensures Expanded(paths, size) == Success(paths)
  {
    ExplodedPlain(paths, size);
    FilterAll(paths, (p: string) => !HasWildcard(p));
    assert Kept(paths) + [] == paths;
  }

  lemma {:induction false} ExplodedPlain(paths: seq<string>, size: string -> Result<int>)
    requires forall k :: 0 <= k < |paths| ==> !HasWildcard(paths[k])
    ensures Exploded(paths, size) == Success([])
  {
    if |paths| > 0 {
      ExplodedPlain(paths[..|paths| - 1], size);
    }
  }

  /** One more entry processed by the expansion loop. */
  lemma ExplodedStep(paths: seq<string>, k: nat, size: string -> Result<int>)
    requires k < |paths|
    ensures Exploded(paths[..k + 1], size) ==
      var e := Exploded(paths[..k], size);
      if e.Failure? || !HasWildcard(paths[k]) then e
      else match size(ArrayPath(paths[k]))
        case Failure(err) => Failure(err)
        case Success(n) => Success(e.value + Explode(paths[k], n))
    ensures Kept(paths[..k + 1]) == Kept(paths[..k]) + (if HasWildcard(paths[k]) then [] else [paths[k]])
  {
    assert paths[..k + 1][..k] == paths[..k];
    FilterPrefixStep(paths, k, (p: string) => !HasWildcard(p));
  }

  /** A failure stays a failure as more entries are processed. */
  lemma {:induction false} ExplodedFailurePersists(paths: seq<string>, k: nat, size: string -> Result<int>)
    requires k <= |paths| && Exploded(paths[..k], size).Failure?
    ensures Exploded(paths, size) == Exploded(paths[..k], size)
    decreases |paths| - k
  {
    if k < |paths| {
      ExplodedStep(paths, k, size);
      ExplodedFailurePersists(paths, k + 1, size);
    } else {
      assert paths[..k] == paths;
    }
  }

  /**
   * Where the expansion loop stands: the first `k` entries are processed, the plain ones
   * kept in place and the explosions of the others appended after the unprocessed rest;
   * `j` is the position of the next unprocessed entry, or, once all are processed,
   * somewhere in the appended explosions.
   */
  ghost predicate Progress(paths: seq<string>, size: string -> Result<int>, k: nat, list: seq<string>, j: nat)
  {
    k <= |paths| && Exploded(paths[..k], size).Success? &&
    var e := Exploded(paths[..k], size).value;
    list == Kept(paths[..k]) + paths[k..] + e &&
    (forall q :: q in e ==> !HasWildcard(q)) &&
    (k < |paths| ==> j == |Kept(paths[..k])|) &&
    |Kept(paths[..k])| <= j <= |list|
  }

  lemma ProgressStart(paths: seq<string>, size: string -> Result<int>)
    ensures Progress(paths, size, 0, paths, 0)
  {
    assert paths[..0] == [];
    assert paths[0..] == paths;
    assert [] + paths + [] == paths;
  }

  /** While entries remain, position `j` holds the next one. */
  lemma ProgressAt(paths: seq<string>, size: string -> Result<int>, k: nat, list: seq<string>, j: nat)
    requires Progress(paths, size, k, list, j) && k < |paths|
    ensures j < |list| && list[j] == paths[k]
  {
  }

  /** A `[*]` entry is replaced by its explosion at the end, and the position stays. */
  lemma ProgressWild(paths: seq<string>, size: string -> Result<int>, k: nat, list: seq<string>, j: nat)
    requires Progress(paths, size, k, list, j) && k < |paths| && SingleWildcard(paths[k])
    requires HasWildcard(paths[k]) && size(ArrayPath(paths[k])).Success?
    ensures Progress(paths, size, k + 1, list[..j] + list[j + 1..] + Explode(paths[k], size(ArrayPath(paths[k])).value), j)
  {
    var p := paths[k];
    var n := size(ArrayPath(p)).value;
    var e := Exploded(paths[..k], size).value;
    var kept := Kept(paths[..k]);
    ExplodedStep(paths, k, size);
    ExplodedLackWildcards(p, n);
    assert paths[k..] == [p] + paths[k + 1..];
    assert list[..j] == kept;
    assert list[j + 1..] == paths[k + 1..] + e;
    assert kept + (paths[k + 1..] + e) + Explode(p, n) == kept + paths[k + 1..] + (e + Explode(p, n));
  }

  /** A plain entry stays where it is, and the position moves past it. */
  lemma ProgressPlain(paths: seq<string>, size: string -> Result<int>, k: nat, list: seq<string>, j: nat)
    requires Progress(paths, size, k, list, j) && k < |paths| && !HasWildcard(paths[k])
    ensures Progress(paths, size, k + 1, list, j + 1)
  {
    var p := paths[k];
    var e := Exploded(paths[..k], size).value;
    var kept := Kept(paths[..k]);
    ExplodedStep(paths, k, size);
    assert paths[k..] == [p] + paths[k + 1..];
    assert kept + ([p] + paths[k + 1..]) + e == (kept + [p]) + paths[k + 1..] + e;
  }

  /** Once every entry is processed, the rest of the list is appended explosions. */
  lemma ProgressTail(paths: seq<string>, size: string -> Result<int>, list: seq<string>, j: nat)
    requires Progress(paths, size, |paths|, list, j) && j < |list|
    ensures !HasWildcard(list[j]) && Progress(paths, size, |paths|, list, j + 1)
  {
    var e := Exploded(paths[..|paths|], size).value;
    var kept := Kept(paths[..|paths|]);
    assert paths[|paths|..] == [];
    assert list == kept + e;
    assert list[j] == e[j - |kept|];
  }

  /** The loop ends only when every entry is processed, with the expanded list. */
  lemma ProgressDone(paths: seq<string>, size: string -> Result<int>, k: nat, list: seq<string>, j: nat)
    requires Progress(paths, size, k, list, j) && j >= |list|
    ensures k == |paths| && Expanded(paths, size) == Success(list)
  {
    assert k == |paths|;
    assert paths[..k] == paths;
    assert paths[k..] == [];
    assert list == Kept(paths) + Exploded(paths, size).value;
  }

  /** A size lookup that throws ends the expansion with that throw. */
  lemma ProgressFails(paths: seq<string>, size: string -> Result<int>, k: nat, list: seq<string>, j: nat)
    requires Progress(paths, size, k, list, j) && k < |paths|
    requires HasWildcard(paths[k]) && size(ArrayPath(paths[k])).Failure?
    ensures Expanded(paths, size) == Failure(size(ArrayPath(paths[k])).error)
  {
    ExplodedStep(paths, k, size);
    ExplodedFailurePersists(paths, k + 1, size);
  }

  /**
   * The expansion loop of `getInstance` with the position kept on the replacement: a `[*]`
   * entry is spliced out and its explosion appended, and the same position is examined
   * again, since it now holds the next entry.
   */
  method ExpandWildcards(paths: seq<string>, size: string -> Result<int>) returns (r: Result<seq<string>>)
    requires forall k :: 0 <= k < |paths| ==> SingleWildcard(paths[k])
    ensures r == Expanded(paths, size)
  {
    var list := paths;
    var j := 0;
    ghost var k := 0;
    ProgressStart(paths, size);
    while j < |list|
      invariant Progress(paths, size, k, list, j)
      decreases |paths| - k, |list| - j
    {
      if k < |paths| {
        ProgressAt(paths, size, k, list, j);
      }
      if HasWildcard(list[j]) {
        if k == |paths| {
          ProgressTail(paths, size, list, j);
        }
        var p := list[j];
        var n := size(ArrayPath(p));
        if n.Failure? {
          ProgressFails(paths, size, k, list, j);
          return Failure(n.error);
        }
        ProgressWild(paths, size, k, list, j);
        list := list[..j] + list[j + 1..] + Explode(p, n.value);
        k := k + 1;
      } else {
        if k < |paths| {
          ProgressPlain(paths, size, k, list, j);
          k := k + 1;
        } else {
          ProgressTail(paths, size, list, j);
        }
        j := j + 1;
      }
    }
    ProgressDone(paths, size, k, list, j);
    return Success(list);
  }

  // ------------------------------------------------ the loop as written

  /** `p.indexOf(c)` for a character that occurs. */
  function IndexOfChar(p: string, c: char): (i: nat)
    requires c in p
    ensures i < |p| && p[i] == c
    ensures forall j :: 0 <= j < i ==> p[j] != c
  {
    if p[0] == c then 0 else 1 + IndexOfChar(p[1..], c)
  }

  /** A `[*]` path contains both brackets. */
  lemma WildcardBrackets(p: string)
    requires HasWildcard(p)
    ensures '[' in p && ']' in p
  {
    var i := FirstOccurrence(p, WILDCARD);
    assert p[i] == '[' && p[i + 2] == ']';
  }

  /** The array path as written: the text before the first `[`, whatever bracket that is. */
  function ArrayPathAsWritten(p: string): string
    requires HasWildcard(p)
  {
    WildcardBrackets(p);
    p[..IndexOfChar(p, '[')]
  }

  /** The explosion as written: the array path ends at the first `[` and the rest starts after the first `]`. */
  function ExplodeAsWritten(p: string, n: int): seq<string>
    requires HasWildcard(p)
  {
    WildcardBrackets(p);
    Elements(ArrayPathAsWritten(p), p[IndexOfChar(p, ']') + 1..], n)
  }

  /**
   * The expansion loop as written, from position `j`: the `[*]` entry is spliced out and
   * its explosion appended, and then the position advances past the entry that slid into
   * the freed place. `None` when `fuel` steps do not finish it.
   */
  function ExpandAsWritten(list: seq<string>, j: nat, size: string -> Result<int>, fuel: nat): Option<Result<seq<string>>>
    decreases fuel
  {
    if j >= |list| then Some(Success(list))
    else if fuel == 0 then None
    else if !HasWildcard(list[j]) then ExpandAsWritten(list, j + 1, size, fuel - 1)
    else
      var p := list[j];
      match size(ArrayPathAsWritten(p))
      case Failure(err) => Some(Failure(err))
      case Success(n) => ExpandAsWritten(list[..j] + list[j + 1..] + ExplodeAsWritten(p, n), j + 1, size, fuel - 1)
  }

  /** An occurrence at a known position makes a `[*]` path. */
  lemma WildcardAt(p: string, i: nat)
    requires OccursAt(p, WILDCARD, i)
    ensures HasWildcard(p)
  {
    ContainsMeans(p, WILDCARD);
  }

  /** A path without `*` is no `[*]` path. */
  lemma FirstOccurrenceIs(s: string, t: string, i: nat)
    requires OccursAt(s, t, i) && forall j :: 0 <= j < i ==> !OccursAt(s, t, j)
    ensures Contains(s, t) && FirstOccurrence(s, t) == i
  {
    ContainsMeans(s, t);
  }

  lemma IndexOfCharIs(p: string, c: char, i: nat)
    requires i < |p| && p[i] == c && forall j :: 0 <= j < i ==> p[j] != c
    ensures c in p && IndexOfChar(p, c) == i
  {
  }

  /**
   * A `[*]` appended to a path without one, whose last two characters are not `[`:
   * the appended one is the first, so the array path is everything before it.
   */
  lemma TrailingWildcard(q: string)
    requires !HasWildcard(q)
    requires forall j :: 0 <= j < |q| && |q| - 2 <= j ==> q[j] != '['
    ensures HasWildcard(q + WILDCARD) && SingleWildcard(q + WILDCARD)
    ensures ArrayPath(q + WILDCARD) == q && SubArrayPath(q + WILDCARD) == ""
  {
    var p := q + WILDCARD;
    var k := |q|;
    assert p[k..k + 3] == WILDCARD;
    WildcardAt(p, k);
    ContainsMeans(q, WILDCARD);
    forall j | 0 <= j < k ensures !OccursAt(p, WILDCARD, j) {
      if j + 3 <= k {
        assert p[j..j + 3] == q[j..j + 3];
        assert !OccursAt(q, WILDCARD, j);
      } else {
        assert p[j..j + 3][0] == q[j];
      }
    }
    FirstOccurrenceIs(p, WILDCARD, k);
    assert p[..k] == q && p[k + 3..] == "";
  }

  /** A path without `[` has no `[*]`. */
  lemma NoBracket(q: string)
    requires '[' !in q
    ensures !HasWildcard(q)
  {
    assert WILDCARD[0] == '[';
    MissingCharNotContained(q, WILDCARD, '[');
  }

  /** The elements of a bracket-free array id carry no `[*]`. */
  lemma PlainElementsFree(x: string, n: int)
    requires '[' !in x
    ensures forall k :: 0 <= k < |Elements(x, "", n)| ==> !HasWildcard(Elements(x, "", n)[k])
  {
    NoBracket(x);
    NoBracket("");
    var r := Elements(x, "", n);
    forall k | 0 <= k < |r| ensures !HasWildcard(r[k]) {
      ElementLacksWildcard(x, NatToString(k), "");
    }
  }

  /**
   * When `[*]` directly follows a bracket-free array id and ends the path, the parts read
   * around the first `[` and `]` are the parts read around the `[*]`: both explosions agree.
   */
  lemma PlainArrayWildcard(x: string, n: int)
    requires '[' !in x && ']' !in x
    ensures HasWildcard(x + WILDCARD) && SingleWildcard(x + WILDCARD)
    ensures ArrayPath(x + WILDCARD) == x && SubArrayPath(x + WILDCARD) == ""
    ensures ArrayPathAsWritten(x + WILDCARD) == x
    ensures ExplodeAsWritten(x + WILDCARD, n) == Explode(x + WILDCARD, n) == Elements(x, "", n)
  {
    NoBracket(x);
    TrailingWildcard(x);
    PlainBrackets(x);
  }

  /** In `x[*]` with bracket-free `x`, the first `[` and `]` are those of the `[*]`. */
  lemma PlainBrackets(x: string)
    requires '[' !in x && ']' !in x
    ensures var p := x + WILDCARD;
      '[' in p && ']' in p && IndexOfChar(p, '[') == |x| && IndexOfChar(p, ']') == |x| + 2 &&
      p[..|x|] == x && p[|x| + 3..] == ""
  {
    var p := x + WILDCARD;
    var k := |x|;
    assert forall j :: 0 <= j < k ==> p[j] == x[j];
    IndexOfCharIs(p, '[', k);
    IndexOfCharIs(p, ']', k + 2);
    assert p[..k] == x && p[k + 3..] == "";
  }

  /** One step of the loop as written at an entry with `[*]` whose size lookup succeeds. */
  lemma AsWrittenSplice(list: seq<string>, j: nat, size: string -> Result<int>, fuel: nat, n: int)
    requires j < |list| && fuel > 0 && HasWildcard(list[j])
    requires size(ArrayPathAsWritten(list[j])) == Success(n)
    ensures ExpandAsWritten(list, j, size, fuel)
         == ExpandAsWritten(list[..j] + list[j + 1..] + ExplodeAsWritten(list[j], n), j + 1, size, fuel - 1)
  {
  }

  /** As written, a position the loop has passed never changes again. */
  lemma {:induction false} AsWrittenKeepsPassed(list: seq<string>, j: nat, size: string -> Result<int>, fuel: nat)
    ensures var r := ExpandAsWritten(list, j, size, fuel);
      r.Some? && r.value.Success? ==>
        forall k :: 0 <= k < j && k < |list| ==> k < |r.value.value| && r.value.value[k] == list[k]
    decreases fuel
  {
    if j < |list| && fuel > 0 {
      if !HasWildcard(list[j]) {
        AsWrittenKeepsPassed(list, j + 1, size, fuel - 1);
      } else if size(ArrayPathAsWritten(list[j])).Success? {
        var n := size(ArrayPathAsWritten(list[j])).value;
        var next := list[..j] + list[j + 1..] + ExplodeAsWritten(list[j], n);
        AsWrittenSplice(list, j, size, fuel, n);
        assert forall k :: 0 <= k < j ==> next[k] == list[k];
        AsWrittenKeepsPassed(next, j + 1, size, fuel - 1);
      }
    }
  }

  /** As written, entries without `[*]` from the position on are stepped over and the list comes back unchanged. */
  lemma {:induction false} AsWrittenSkipsPlain(list: seq<string>, j: nat, size: string -> Result<int>, fuel: nat)
    requires forall k :: j <= k < |list| ==> !HasWildcard(list[k])
    requires fuel >= |list| - j
    ensures ExpandAsWritten(list, j, size, fuel) == Some(Success(list))
    decreases |list| - j
  {
    if j < |list| {
      AsWrittenSkipsPlain(list, j + 1, size, fuel - 1);
    }
  }

  /** A list made only of `[*]` entries keeps nothing and explodes entry by entry. */
  lemma ExpandedOne(a: string, size: string -> Result<int>, n: int)
    requires HasWildcard(a) && size(ArrayPath(a)) == Success(n)
    ensures Expanded([a], size) == Success(Explode(a, n))
  {
    var paths := [a];
    assert paths[..|paths| - 1] == [];
    assert Exploded([], size) == Success([]);
    assert Exploded(paths, size) == Success([] + Explode(a, n));
    assert [] + Explode(a, n) == Explode(a, n);
    FilterNone(paths, (p: string) => !HasWildcard(p));
    assert Kept(paths) == [];
  }

  /** One more `[*]` entry appends its explosion. */
  lemma ExplodedSnoc(paths: seq<string>, p: string, size: string -> Result<int>, n: int)
    requires Exploded(paths, size).Success? && HasWildcard(p) && size(ArrayPath(p)) == Success(n)
    ensures Exploded(paths + [p], size) == Success(Exploded(paths, size).value + Explode(p, n))
  {
    assert (paths + [p])[..|paths|] == paths;
  }

  lemma ExplodedTwo(a: string, b: string, size: string -> Result<int>, m: int, n: int)
    requires HasWildcard(a) && size(ArrayPath(a)) == Success(m)
    requires HasWildcard(b) && size(ArrayPath(b)) == Success(n)
    ensures Exploded([a, b], size) == Success(Explode(a, m) + Explode(b, n))
  {
    assert Exploded([a], size) == Success(Explode(a, m)) by {
      ExplodedSnoc([], a, size, m);
      assert [] + [a] == [a] && [] + Explode(a, m) == Explode(a, m);
    }
    ExplodedSnoc([a], b, size, n);
    assert [a] + [b] == [a, b];
  }

  lemma KeptTwo(a: string, b: string)
    requires HasWildcard(a) && HasWildcard(b)
    ensures Kept([a, b]) == []
  {
    FilterNone([a, b], (p: string) => !HasWildcard(p));
  }

  lemma ExpandedTwo(a: string, b: string, size: string -> Result<int>, m: int, n: int)
    requires HasWildcard(a) && size(ArrayPath(a)) == Success(m)
    requires HasWildcard(b) && size(ArrayPath(b)) == Success(n)
    ensures Expanded([a, b], size) == Success(Explode(a, m) + Explode(b, n))
  {
    var e := Explode(a, m) + Explode(b, n);
    ExplodedTwo(a, b, size, m, n);
    KeptTwo(a, b);
    assert [] + e == e;
  }

  /** As written, two bracket-free `[*]` entries: the first is spliced and the second left at position 0. */
  lemma SecondWildcardAsWritten(x: string, y: string, size: string -> Result<int>, m: int, fuel: nat)
    requires '[' !in x && ']' !in x && '[' !in y && ']' !in y
    requires size(x) == Success(m) && fuel > 0
    ensures ExpandAsWritten([x + WILDCARD, y + WILDCARD], 0, size, fuel)
         == ExpandAsWritten([y + WILDCARD] + Elements(x, "", m), 1, size, fuel - 1)
  {
    var paths := [x + WILDCARD, y + WILDCARD];
    PlainArrayWildcard(x, m);
    assert paths[..0] + paths[1..] + ExplodeAsWritten(x + WILDCARD, m) == [y + WILDCARD] + Elements(x, "", m);
    AsWrittenSplice(paths, 0, size, fuel, m);
  }

  /**
   * Two `[*]` entries in a row, as written: the second slides into the freed position 0,
   * the position advances past it, and every list the loop ends with still holds it
   * (evaluating it then throws).
   */
  lemma SecondWildcardSkipped(x: string, y: string, size: string -> Result<int>, m: int, fuel: nat)
    requires '[' !in x && ']' !in x && '[' !in y && ']' !in y
    requires size(x) == Success(m)
    ensures HasWildcard(y + WILDCARD)
    ensures var r := ExpandAsWritten([x + WILDCARD, y + WILDCARD], 0, size, fuel);
      r.Some? && r.value.Success? ==> |r.value.value| > 0 && r.value.value[0] == y + WILDCARD
  {
    PlainArrayWildcard(y, 0);
    if fuel > 0 {
      var next := [y + WILDCARD] + Elements(x, "", m);
      var f := fuel - 1;
      SecondWildcardAsWritten(x, y, size, m, fuel);
      assert ExpandAsWritten([x + WILDCARD, y + WILDCARD], 0, size, fuel) == ExpandAsWritten(next, 1, size, f);
      AsWrittenKeepsPassed(next, 1, size, f);
      var r := ExpandAsWritten(next, 1, size, f);
      if r.Some? && r.value.Success? {
        assert 0 < |next| && next[0] == y + WILDCARD;
        assert 0 < |r.value.value| && r.value.value[0] == next[0];
      }
    }
  }

  /** With enough steps the loop as written does end, leaving the second entry unexpanded. */
  lemma SecondWildcardEnds(x: string, y: string, size: string -> Result<int>, m: int, fuel: nat)
    requires '[' !in x && ']' !in x && '[' !in y && ']' !in y
    requires size(x) == Success(m) && fuel > |Elements(x, "", m)|
    ensures ExpandAsWritten([x + WILDCARD, y + WILDCARD], 0, size, fuel) == Some(Success([y + WILDCARD] + Elements(x, "", m)))
  {
    var next := [y + WILDCARD] + Elements(x, "", m);
    var f := fuel - 1;
    SecondWildcardAsWritten(x, y, size, m, fuel);
    assert ExpandAsWritten([x + WILDCARD, y + WILDCARD], 0, size, fuel) == ExpandAsWritten(next, 1, size, f);
    PlainElementsFree(x, m);
    assert forall k :: 1 <= k < |next| ==> next[k] == Elements(x, "", m)[k - 1];
    AsWrittenSkipsPlain(next, 1, size, f);
  }

  /** Expanded as intended, both entries are replaced by their elements, in order. */
  lemma SecondWildcardExpanded(x: string, y: string, size: string -> Result<int>, m: int, n: int)
    requires '[' !in x && ']' !in x && '[' !in y && ']' !in y
    requires size(x) == Success(m) && size(y) == Success(n)
    ensures Expanded([x + WILDCARD, y + WILDCARD], size) == Success(Elements(x, "", m) + Elements(y, "", n))
  {
    PlainArrayWildcard(x, m);
    PlainArrayWildcard(y, n);
    ExpandedTwo(x + WILDCARD, y + WILDCARD, size, m, n);
  }

  /** In `x[d]y` with bracket-free `y`, the last two characters are not `[`. */
  lemma IndexedTail(x: string, d: string, y: string)
    requires '[' !in y && |d| > 0 && forall k :: 0 <= k < |d| ==> IsDigit(d[k])
    ensures var q := x + "[" + d + "]" + y;
      forall j :: 0 <= j < |q| && |q| - 2 <= j ==> q[j] != '['
  {
    var q := x + "[" + d + "]" + y;
    var e := |x| + |d| + 1;
    forall j | 0 <= j < |q| && |q| - 2 <= j ensures q[j] != '[' {
      if j < e {
        assert q[j] == d[j - |x| - 1];
        assert IsDigit(d[j - |x| - 1]);
      } else if j > e {
        assert q[j] == y[j - e - 1];
      }
    }
  }

  /** In `x[d]…` with bracket-free `x`, the first `[` and the first `]` are the ones around `d`. */
  lemma IndexedBrackets(x: string, d: string, rest: string)
    requires '[' !in x && ']' !in x && |d| > 0 && forall k :: 0 <= k < |d| ==> IsDigit(d[k])
    ensures var p := x + "[" + d + "]" + rest;
      '[' in p && ']' in p && IndexOfChar(p, '[') == |x| && IndexOfChar(p, ']') == |x| + |d| + 1
  {
    var p := x + "[" + d + "]" + rest;
    var e := |x| + |d| + 1;
    assert forall j :: 0 <= j < |x| ==> p[j] == x[j];
    IndexOfCharIs(p, '[', |x|);
    forall j | 0 <= j < e ensures p[j] != ']' {
      if j > |x| {
        assert p[j] == d[j - |x| - 1];
        assert IsDigit(d[j - |x| - 1]);
      }
    }
    IndexOfCharIs(p, ']', e);
  }

  /** The parts of `x[d]y[*]` as the loop as written reads them, and as the corrected one does. */
  lemma NestedParts(x: string, d: string, y: string)
    requires '[' !in x && ']' !in x && '[' !in y && ']' !in y
    requires |d| > 0 && forall k :: 0 <= k < |d| ==> IsDigit(d[k])
    ensures HasWildcard(x + "[" + d + "]" + y + WILDCARD)
    ensures ArrayPath(x + "[" + d + "]" + y + WILDCARD) == x + "[" + d + "]" + y
    ensures ArrayPathAsWritten(x + "[" + d + "]" + y + WILDCARD) == x
    ensures forall n :: ExplodeAsWritten(x + "[" + d + "]" + y + WILDCARD, n) == Elements(x, y + WILDCARD, n)
  {
    var q := x + "[" + d + "]" + y;
    var p := q + WILDCARD;
    NoBracket(x);
    NoBracket(y);
    ElementLacksWildcard(x, d, y);
    IndexedTail(x, d, y);
    TrailingWildcard(q);
    assert p == x + "[" + d + "]" + (y + WILDCARD);
    CutAsWritten(x, d, y + WILDCARD);
  }

  /** Where the first brackets hold an index, the cut as written keeps the text before them and after them. */
  lemma CutAsWritten(x: string, d: string, rest: string)
    requires '[' !in x && ']' !in x && |d| > 0 && forall k :: 0 <= k < |d| ==> IsDigit(d[k])
    requires HasWildcard(x + "[" + d + "]" + rest)
    ensures ArrayPathAsWritten(x + "[" + d + "]" + rest) == x
    ensures forall n :: ExplodeAsWritten(x + "[" + d + "]" + rest, n) == Elements(x, rest, n)
  {
    var p := x + "[" + d + "]" + rest;
    IndexedBrackets(x, d, rest);
    assert p[..|x|] == x && p[|x| + |d| + 2..] == rest;
  }

  /** The first position passed, in particular. */
  lemma AsWrittenKeepsHead(list: seq<string>, size: string -> Result<int>, fuel: nat)
    requires |list| > 0
    ensures var r := ExpandAsWritten(list, 1, size, fuel);
      r.Some? && r.value.Success? ==> |r.value.value| > 0 && r.value.value[0] == list[0]
  {
    AsWrittenKeepsPassed(list, 1, size, fuel);
    var r := ExpandAsWritten(list, 1, size, fuel);
    if r.Some? && r.value.Success? {
      assert 0 < |r.value.value| && r.value.value[0] == list[0];
    }
  }

  /** As written, a one-entry `[*]` list is replaced by the explosion, position 1 next. */
  lemma AsWrittenSingle(p: string, size: string -> Result<int>, fuel: nat, n: int)
    requires fuel > 0 && HasWildcard(p) && size(ArrayPathAsWritten(p)) == Success(n)
    ensures ExpandAsWritten([p], 0, size, fuel) == ExpandAsWritten(ExplodeAsWritten(p, n), 1, size, fuel - 1)
  {
    var list := [p];
    assert list[..0] + list[1..] + ExplodeAsWritten(p, n) == ExplodeAsWritten(p, n);
    AsWrittenSplice(list, 0, size, fuel, n);
  }

  /** As written, a `[*]` path whose explosion starts with itself stays at position 0 of every list the loop ends with. */
  lemma ReproducedStays(p: string, size: string -> Result<int>, n: int, fuel: nat)
    requires HasWildcard(p) && size(ArrayPathAsWritten(p)) == Success(n)
    requires |ExplodeAsWritten(p, n)| > 0 && ExplodeAsWritten(p, n)[0] == p
    ensures var r := ExpandAsWritten([p], 0, size, fuel);
      r.Some? && r.value.Success? ==> |r.value.value| > 0 && r.value.value[0] == p
  {
    if fuel > 0 {
      AsWrittenSingle(p, size, fuel, n);
      HeadAfterSplice(p, ExplodeAsWritten(p, n), size, fuel);
    }
  }

  /** A one-entry list spliced into a list that starts with the same path keeps that path first. */
  lemma HeadAfterSplice(p: string, e: seq<string>, size: string -> Result<int>, fuel: nat)
    requires fuel > 0 && |e| > 0 && e[0] == p
    requires ExpandAsWritten([p], 0, size, fuel) == ExpandAsWritten(e, 1, size, fuel - 1)
    ensures var r := ExpandAsWritten([p], 0, size, fuel);
      r.Some? && r.value.Success? ==> |r.value.value| > 0 && r.value.value[0] == p
  {
    AsWrittenKeepsHead(e, size, fuel - 1);
  }

  /**
   * A `[*]` after an indexed segment, `x[i]y[*]`, as written: the array path ends at the
   * first `[` and the rest starts after the first `]`, so element `i` of the explosion is
   * the path itself.
   */
  lemma NestedWildcardReproduced(x: string, i: nat, y: string, n: int)
    requires '[' !in x && ']' !in x && '[' !in y && ']' !in y
    ensures var p := x + "[" + NatToString(i) + "]" + y + WILDCARD;
      HasWildcard(p) && ArrayPathAsWritten(p) == x && (i < n ==> ExplodeAsWritten(p, n)[i] == p)
  {
    var d := NatToString(i);
    NestedParts(x, d, y);
    if i < n {
      ElementReassociates(x, y, n, i);
    }
  }

  /** With index 0, the path survives every run of the loop as written that ends. */
  lemma NestedWildcardStays(x: string, y: string, size: string -> Result<int>, n: int, fuel: nat)
    requires '[' !in x && ']' !in x && '[' !in y && ']' !in y
    requires size(x) == Success(n) && n > 0
    ensures var p := x + "[0]" + y + WILDCARD;
      var r := ExpandAsWritten([p], 0, size, fuel);
      r.Some? && r.value.Success? ==> |r.value.value| > 0 && r.value.value[0] == p
  {
    NestedWildcardReproduced(x, 0, y, n);
    assert NatToString(0) == "0";
    assert x + "[" + "0" + "]" + y + WILDCARD == x + "[0]" + y + WILDCARD;
    ReproducedStays(x + "[0]" + y + WILDCARD, size, n, fuel);
  }

  lemma ElementReassociates(x: string, y: string, n: int, i: nat)
    requires i < n
    ensures Elements(x, y + WILDCARD, n)[i] == x + "[" + NatToString(i) + "]" + y + WILDCARD
  {
    var d := NatToString(i);
    assert x + "[" + d + "]" + (y + WILDCARD) == x + "[" + d + "]" + y + WILDCARD;
  }

  /** Expanded as intended, `x[i]y[*]` becomes the elements of the array `x[i]y`. */
  lemma NestedWildcardExpanded(x: string, i: nat, y: string, size: string -> Result<int>, n: int)
    requires '[' !in x && ']' !in x && '[' !in y && ']' !in y
    requires size(x + "[" + NatToString(i) + "]" + y) == Success(n)
    ensures Expanded([x + "[" + NatToString(i) + "]" + y + WILDCARD], size)
         == Success(Elements(x + "[" + NatToString(i) + "]" + y, "", n))
  {
    var q := x + "[" + NatToString(i) + "]" + y;
    NestedParts(x, NatToString(i), y);
    TrailingWildcardQ(x, NatToString(i), y);
    ExpandedOne(q + WILDCARD, size, n);
  }

  lemma TrailingWildcardQ(x: string, d: string, y: string)
    requires '[' !in x && ']' !in x && '[' !in y && ']' !in y
    requires |d| > 0 && forall k :: 0 <= k < |d| ==> IsDigit(d[k])
    ensures HasWildcard(x + "[" + d + "]" + y + WILDCARD) && SubArrayPath(x + "[" + d + "]" + y + WILDCARD) == ""
  {
    NoBracket(x);
    NoBracket(y);
    ElementLacksWildcard(x, d, y);
    IndexedTail(x, d, y);
    TrailingWildcard(x + "[" + d + "]" + y);
  }
}
