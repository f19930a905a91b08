/**
 * The path rewrite `addInstances` applies before building: a segment holding array
 * syntax, `id[k]`, is preceded by the array's own id, so `acnet2.baskets_12[0].v`
 * becomes `acnet2.baskets_12.baskets_12[0].v` (the array instance, then its element).
 */
module IdPaths {
  import opened Strings

  /** The array id of a segment: what precedes its first `[`. */
  function ArrayIdOf(seg: string): (id: string)
    ensures '[' !in id
    ensures id <= seg
    ensures '[' in seg ==> |id| < |seg| && seg[|id|] == '['
    ensures '[' !in seg ==> id == seg
  {
    SplitPartsFree(seg, '[');
    SplitFirstPrefix(seg, '[');
    Split(seg, '[')[0]
  }

  /** One segment, rewritten. */
  function Rewrite(seg: string): string
  {
    if '[' in seg then ArrayIdOf(seg) + "." + seg else seg
  }

  function RewriteAll(parts: seq<string>): (r: seq<string>)
  {
    seq(|parts|, k requires 0 <= k < |parts| => Rewrite(parts[k]))
  }

  /** The raw id concatenation path built for `path`. */
  function IdConcatPath(path: string): string
  {
    Join(RewriteAll(Split(path, '.')), '.')
  }

  /** Every path of a list, rewritten. */
  function IdConcatPaths(paths: seq<string>): (r: seq<string>)
    ensures |r| == |paths|
  {
    seq(|paths|, j requires 0 <= j < |paths| => IdConcatPath(paths[j]))
  }

  /** The ids one segment stands for after the rewrite. */
  function Piece(seg: string): seq<string>
  {
    if '[' in seg then [ArrayIdOf(seg), seg] else [seg]
  }

  function Pieces(parts: seq<string>): seq<string>
  {
    if |parts| == 0 then [] else Piece(parts[0]) + Pieces(parts[1..])
  }

  lemma {:induction false} SplitFirstPrefix(s: string, c: char)
    ensures Split(s, c)[0] <= s
    ensures c in s ==> |Split(s, c)[0]| < |s| && s[|Split(s, c)[0]|] == c
    ensures c !in s ==> Split(s, c)[0] == s
    decreases |s|
  {
    if |s| > 0 && s[0] != c {
      SplitFirstPrefix(s[1..], c);
      assert s == [s[0]] + s[1..];
      assert c in s ==> c in s[1..];
    }
  }

  lemma {:induction false} JoinConcat(a: seq<string>, b: seq<string>, c: char)
    requires |a| >= 1 && |b| >= 1
    ensures Join(a + b, c) == Join(a, c) + [c] + Join(b, c)
    decreases |a|
  {
    if |a| > 1 {
      JoinConcat(a[1..], b, c);
      assert (a + b)[1..] == a[1..] + b;
    } else {
      assert (a + b)[1..] == b;
    }
  }

  lemma {:induction false} JoinPieces(parts: seq<string>)
    requires |parts| >= 1
    ensures |Pieces(parts)| >= 1
    ensures Join(RewriteAll(parts), '.') == Join(Pieces(parts), '.')
    decreases |parts|
  {
    var p := Piece(parts[0]);
    assert Join(p, '.') == Rewrite(parts[0]) by {
      if '[' in parts[0] {
        assert p[1..] == [parts[0]];
      }
    }
    if |parts| == 1 {
      assert Pieces(parts) == p + [] by { assert parts[1..] == []; }
      assert p + [] == p;
    } else {
      JoinPieces(parts[1..]);
      assert RewriteAll(parts)[1..] == RewriteAll(parts[1..]);
      JoinConcat(p, Pieces(parts[1..]), '.');
    }
  }

  lemma {:induction false} PiecesFree(parts: seq<string>)
    requires forall k :: 0 <= k < |parts| ==> '.' !in parts[k]
    ensures forall k :: 0 <= k < |Pieces(parts)| ==> '.' !in Pieces(parts)[k]
    decreases |parts|
  {
    if |parts| > 0 {
      PiecesFree(parts[1..]);
    }
  }

  /**
   * What the builder walks: the ids of the rewritten path are the segments of `path`,
   * each segment with array syntax preceded by its array id, and every other segment kept.
   */
  lemma IdsOfIdConcatPath(path: string)
    ensures Split(IdConcatPath(path), '.') == Pieces(Split(path, '.'))
  {
    var parts := Split(path, '.');
    SplitPartsFree(path, '.');
    JoinPieces(parts);
    PiecesFree(parts);
    SplitJoin(Pieces(parts), '.');
  }

  /** A path without array syntax is built as it is. */
  lemma {:induction false} PiecesWithoutBrackets(parts: seq<string>)
    requires forall k :: 0 <= k < |parts| ==> '[' !in parts[k]
    ensures Pieces(parts) == parts
    decreases |parts|
  {
    if |parts| > 0 {
      PiecesWithoutBrackets(parts[1..]);
      assert parts == [parts[0]] + parts[1..];
    }
  }

  lemma JoinFrom(parts: seq<string>, i: nat)
    requires i < |parts|
    ensures i + 1 < |parts| ==> Join(parts[i..], '.') == parts[i] + "." + Join(parts[i + 1..], '.')
    ensures i + 1 == |parts| ==> Join(parts[i..], '.') == parts[i]
  {
    assert parts[i..][1..] == parts[i + 1..];
  }

  /**
   * A segment `id[...]` stands for the array `id` and then its element `id[...]`
   * (`baskets_12[0]` for `baskets_12`, `baskets_12[0]`).
   */
  lemma ElementSegmentPiece(id: string, rest: string)
    requires '[' !in id
    ensures Piece(id + "[" + rest) == [id, id + "[" + rest]
  {
    var seg := id + "[" + rest;
    assert seg == id + ['['] + rest;
    SplitAppend(id, rest, '[');
    assert seg[|id|] == '[';
  }

  lemma JoinFromStep(acc: string, parts: seq<string>, i: nat)
    requires i + 1 < |parts|
    ensures acc + Join(parts[i..], '.') == (acc + (parts[i] + ".")) + Join(parts[i + 1..], '.')
  {
    JoinFrom(parts, i);
  }

  /** The rewrite of the `i`th segment, in place. */
  method RewriteAt(splitInstancePath: array<string>, i: nat)
    requires i < splitInstancePath.Length
    modifies splitInstancePath
    ensures splitInstancePath[i] == Rewrite(old(splitInstancePath[i]))
    ensures forall k :: 0 <= k < splitInstancePath.Length && k != i ==> splitInstancePath[k] == old(splitInstancePath[k])
  {
    if '[' in splitInstancePath[i] {
      var arrayId := Split(splitInstancePath[i], '[')[0];
      splitInstancePath[i] := arrayId + "." + splitInstancePath[i];
    }
  }

  /**
   * `addInstances`' loop: each segment of the split path is rewritten in place, and the
   * segments are concatenated with a `.` after every one but the last.
   */
  method IdConcatPathOf(path: string) returns (idConcatPath: string)
    ensures idConcatPath == IdConcatPath(path)
  {
    var parts := Split(path, '.');
    var splitInstancePath := new string[|parts|](k requires 0 <= k < |parts| => parts[k]);
    ghost var rewritten := RewriteAll(parts);
    idConcatPath := "";
    for i := 0 to splitInstancePath.Length
      invariant forall k :: i <= k < |parts| ==> splitInstancePath[k] == parts[k]
      invariant i < |parts| ==> idConcatPath + Join(rewritten[i..], '.') == Join(rewritten, '.')
      invariant i == |parts| ==> idConcatPath == Join(rewritten, '.')
    {
      RewriteAt(splitInstancePath, i);
      if i != splitInstancePath.Length - 1 {
        JoinFromStep(idConcatPath, rewritten, i);
        idConcatPath := idConcatPath + (splitInstancePath[i] + ".");
      } else {
        JoinFrom(rewritten, i);
        idConcatPath := idConcatPath + splitInstancePath[i];
      }
    }
  }
}
