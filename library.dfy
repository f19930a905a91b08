/**
 * `Library`: a container of types that keeps a registry of its import types
 * and asks the server to resolve them in batches.
 */
module Libraries {
  import opened Graph
  import opened Meta
  import opened Seqs

  /** Largest number of import-type paths sent in one request. */
  const BATCH: nat := 50

  predicate IsImportType(t: Type)
  {
    t.metaType == IMPORT_TYPE
  }

  function PathOf(t: Type): string { t.path }

  /** One call of `resolveImportType`: the paths sent, and whether the callback rides along. */
  datatype Request = Request(paths: seq<string>, withCallback: bool)

  function RequestPaths(rs: seq<Request>): seq<string>
  {
    if |rs| == 0 then [] else rs[0].paths + RequestPaths(rs[1..])
  }

  lemma {:induction false} RequestPathsSnoc(rs: seq<Request>, r: Request)
    ensures RequestPaths(rs + [r]) == RequestPaths(rs) + r.paths
  {
    if |rs| == 0 {
      assert rs + [r] == [r];
    } else {
      RequestPathsSnoc(rs[1..], r);
      assert (rs + [r])[1..] == rs[1..] + [r];
    }
  }

  class Library {
    const id: string
    const name: string
    const path: string
    var types: seq<Type>
    var importTypes: seq<Type>

    constructor (id: string, name: string, path: string, types: seq<Type>)
      ensures this.id == id && this.name == name && this.path == path
      ensures this.types == types && importTypes == []
    {
      this.id := id;
      this.name := name;
      this.path := path;
      this.types := types;
      importTypes := [];
    }

    /** `getTypes()` and `getChildren()` both hand out the type list. */
    function GetTypes(): seq<Type>
      reads this
    {
      types
    }

    function GetChildren(): (r: seq<Type>)
      reads this
      ensures r == GetTypes()
    {
      types
    }

    method AddImportType(t: Type)
      modifies this
      ensures importTypes == old(importTypes) + [t]
      ensures types == old(types)
    {
      importTypes := importTypes + [t];
    }

    /** `setTypes(ts)`: the types become `ts` and every import type among them is registered, in order. */
    method SetTypes(ts: seq<Type>)
      modifies this
      ensures types == ts
      ensures importTypes == old(importTypes) + Filter(ts, IsImportType)
    {
      types := ts;
      var i := 0;
      while i < |ts|
        invariant 0 <= i <= |ts|
        invariant types == ts
        invariant importTypes == old(importTypes) + Filter(ts[..i], IsImportType)
      {
        FilterPrefixStep(ts, i, IsImportType);
        if IsImportType(ts[i]) {
          AddImportType(ts[i]);
        }
        i := i + 1;
      }
      assert ts[..i] == ts;
    }

    /**
     * `addType(t)`: the type is re-parented to this library (so its path becomes the
     * library's path, a dot and its id), appended, and registered when it is an import type.
     */
    method AddType(t: Type)
      modifies this
      ensures types == old(types) + [t.(path := path + "." + t.id)]
      ensures IsImportType(t) ==> importTypes == old(importTypes) + [t.(path := path + "." + t.id)]
      ensures !IsImportType(t) ==> importTypes == old(importTypes)
    {
      var placed := t.(path := path + "." + t.id);
      types := types + [placed];
      if IsImportType(placed) {
        AddImportType(placed);
      }
    }

    /**
     * `resolveAllImportTypes(callback)`: the paths of all registered import types are sent
     * once each, in order, in requests of at most `BATCH` paths; every request but the last
     * is full, and only the last carries the callback. No import types, no request.
     */
    method ResolveAllImportTypes() returns (sent: seq<Request>)
      ensures |importTypes| == 0 ==> sent == []
      ensures RequestPaths(sent) == Map(importTypes, PathOf)
      ensures forall k :: 0 <= k < |sent| ==> 1 <= |sent[k].paths| <= BATCH
      ensures forall k :: 0 <= k < |sent| - 1 ==> |sent[k].paths| == BATCH && !sent[k].withCallback
      ensures |sent| > 0 ==> sent[|sent| - 1].withCallback
    {
      sent := [];
      if |importTypes| > 0 {
        var b := CollectPaths(importTypes);
        sent := SendInBatches(b);
      }
    }
  }

  /** The loop that gathers `importTypes[i].getPath()` into the list to send. */
  method CollectPaths(ts: seq<Type>) returns (b: seq<string>)
    ensures b == Map(ts, PathOf)
  {
    b := [];
    var i := 0;
    while i < |ts|
      invariant 0 <= i <= |ts|
      invariant b == Map(ts[..i], PathOf)
    {
      assert ts[..i + 1] == ts[..i] + [ts[i]];
      b := b + [ts[i].path];
      i := i + 1;
    }
    assert ts[..i] == ts;
  }

  /** `while (b.length > BATCH) send(b.splice(0, BATCH)); send(b, callback)`. */
  method SendInBatches(paths: seq<string>) returns (sent: seq<Request>)
    requires |paths| >= 1
    ensures RequestPaths(sent) == paths
    ensures |sent| >= 1
    ensures forall k :: 0 <= k < |sent| ==> 1 <= |sent[k].paths| <= BATCH
    ensures forall k :: 0 <= k < |sent| - 1 ==> |sent[k].paths| == BATCH && !sent[k].withCallback
    ensures sent[|sent| - 1].withCallback
  {
    sent := [];
    var b := paths;
    while |b| > BATCH
      invariant |b| >= 1
      invariant RequestPaths(sent) + b == paths
      invariant forall k :: 0 <= k < |sent| ==> |sent[k].paths| == BATCH && !sent[k].withCallback
      decreases |b|
    {
      var r := Request(b[..BATCH], false);
      RequestPathsSnoc(sent, r);
      assert b == b[..BATCH] + b[BATCH..];
      sent := sent + [r];
      b := b[BATCH..];
    }
    RequestPathsSnoc(sent, Request(b, true));
    sent := sent + [Request(b, true)];
  }
}
