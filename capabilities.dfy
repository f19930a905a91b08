/**
 * Capabilities of variables, types and instances: a list of capability ids.
 * `extendApi` appends an id (without looking for an existing one) and
 * `hasCapability` scans the list.
 */
module Capabilities {
  import opened Graph

  /** `hasCapability(id)`: the scan sets a flag on every equal entry and never stops early. */
  method HasCapability(caps: seq<string>, id: string) returns (has: bool)
    ensures has <==> id in caps
  {
    has := false;
    var i := 0;
    while i < |caps|
      invariant 0 <= i <= |caps|
      invariant has <==> id in caps[..i]
    {
      assert caps[..i + 1] == caps[..i] + [caps[i]];
      if caps[i] == id {
        has := true;
      }
      i := i + 1;
    }
    assert caps[..i] == caps;
  }

  /** `Variable.extendApi(capability)`: the id is appended to the variable's capability list. */
  function ExtendVariable(v: Variable, cap: string): (r: Variable)
    ensures r.capabilities == v.capabilities + [cap]
    ensures r.(capabilities := v.capabilities) == v
  {
    v.(capabilities := v.capabilities + [cap])
  }

  /** `Type.extendApi(capability)`. */
  function ExtendType(t: Type, cap: string): (r: Type)
    ensures r.capabilities == t.capabilities + [cap]
    ensures r.(capabilities := t.capabilities) == t
  {
    t.(capabilities := t.capabilities + [cap])
  }

  /**
   * After `extendApi(c)` the holder has `c`, keeps every capability it had, gains no other,
   * and the list grows by one entry even when `c` was already present.
   */
  lemma ExtendThenHas(caps: seq<string>, c: string)
    ensures c in caps + [c]
    ensures forall d :: d in caps + [c] <==> d in caps || d == c
    ensures |caps + [c]| == |caps| + 1
  {
  }

  /** Adding a capability id only when `hasCapability` says it is missing, as the capability updaters do. */
  function AddIfMissing(caps: seq<string>, c: string): (r: seq<string>)
    ensures c in r
    ensures forall d :: d in r <==> d in caps || d == c
    ensures c in caps ==> r == caps
    ensures c !in caps ==> r == caps + [c]
  {
    if c in caps then caps else caps + [c]
  }

  /** Guarded addition never creates a duplicate id. */
  lemma AddIfMissingKeepsDistinct(caps: seq<string>, c: string)
    requires forall i, j :: 0 <= i < j < |caps| ==> caps[i] != caps[j]
    ensures var r := AddIfMissing(caps, c); forall i, j :: 0 <= i < j < |r| ==> r[i] != r[j]
  {
  }
}
