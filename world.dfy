/**
 * `World`: the variables and static instances of one world, and the wiring of
 * connection instances (`SimpleConnectionInstance.populateConnections`).
 */
module Worlds {
  import opened Wrappers
  import opened Graph
  import opened Meta

  /** A connection endpoint: the raw `$ref`, or the position of the instance it resolved to. */
  datatype Endpoint = Pending(ref: string) | Linked(target: nat)

  /**
   * A static instance of a world; both kinds collect the connections attached to them and
   * keep the `synched` flag of the raw object they wrap.
   */
  datatype StaticInstance =
    | SimpleInstance(id: string, path: string, connections: seq<string>, synched: bool)
    | SimpleConnectionInstance(id: string, path: string, a: Endpoint, b: Endpoint, connections: seq<string>, synched: bool)

  /**
   * A raw static instance as serialised: its eClass, id, (for connections) the two `$ref`s,
   * and whether it is marked `synched` (a placeholder for an instance the client already has).
   */
  datatype RawInstance = RawInstance(eClass: string, id: string, a: string, b: string, synched: bool)

  /**
   * `createStaticInstance`: only the two static instance classes are accepted. For any other
   * eClass the client reads a property of an undefined instance while building its message,
   * so what is thrown is a TypeError.
   */
  function CreateStaticInstance(raw: RawInstance, parentPath: string): (r: Result<StaticInstance>)
    ensures r.Success? <==> raw.eClass == SIMPLE_INSTANCE || raw.eClass == SIMPLE_CONNECTION_INSTANCE
    ensures r.Success? ==> r.value.id == raw.id && r.value.path == parentPath + "." + raw.id && r.value.connections == []
    ensures r.Success? ==> r.value.synched == raw.synched
    ensures r.Success? ==> (r.value.SimpleConnectionInstance? <==> raw.eClass == SIMPLE_CONNECTION_INSTANCE)
    ensures r.Success? && r.value.SimpleConnectionInstance? ==> r.value.a == Pending(raw.a) && r.value.b == Pending(raw.b)
    ensures r.Failure? ==> r.error == TYPE_ERROR
  {
    if raw.eClass == SIMPLE_INSTANCE then Success(SimpleInstance(raw.id, parentPath + "." + raw.id, [], raw.synched))
    else if raw.eClass == SIMPLE_CONNECTION_INSTANCE then
      Success(SimpleConnectionInstance(raw.id, parentPath + "." + raw.id, Pending(raw.a), Pending(raw.b), [], raw.synched))
    else Failure(TYPE_ERROR)
  }

  /** `createStaticInstances`: absent → `[]`, otherwise each raw instance in order; the first failure throws. */
  function CreateStaticInstances(raws: Option<seq<RawInstance>>, parentPath: string): (r: Result<seq<StaticInstance>>)
    ensures raws.None? ==> r == Success([])
    ensures r.Success? && raws.Some? ==> (|r.value| == |raws.value| &&
      forall k :: 0 <= k < |raws.value| ==> Success(r.value[k]) == CreateStaticInstance(raws.value[k], parentPath))
    ensures raws.Some? && (exists k :: 0 <= k < |raws.value| && CreateStaticInstance(raws.value[k], parentPath).Failure?) ==>
      r.Failure?
  {
    if raws.None? then Success([]) else CreateAll(raws.value, parentPath)
  }

  function CreateAll(raws: seq<RawInstance>, parentPath: string): (r: Result<seq<StaticInstance>>)
    ensures r.Success? ==> (|r.value| == |raws| &&
      forall k :: 0 <= k < |raws| ==> Success(r.value[k]) == CreateStaticInstance(raws[k], parentPath))
    ensures (exists k :: 0 <= k < |raws| && CreateStaticInstance(raws[k], parentPath).Failure?) ==> r.Failure?
  {
    if |raws| == 0 then Success([])
    else
      var h := CreateStaticInstance(raws[0], parentPath);
      if h.Failure? then Failure(h.error)
      else
        var t := CreateAll(raws[1..], parentPath);
        if t.Failure? then t
        else
          assert forall k :: 1 <= k < |raws| ==> raws[k] == raws[1..][k - 1];
          Success([h.value] + t.value)
  }

  // ------------------------------------------------------------ connection wiring

  /**
   * `refs` is what `geppettoModel.resolve` answers for the `$ref`s it understands: the position
   * in this world's instance list that the reference names. A position past the end of the
   * list reads as `undefined`, as does a reference missing from the map.
   */
  predicate Resolvable(e: Endpoint, refs: map<string, nat>, n: nat)
  {
    e.Pending? && e.ref in refs && refs[e.ref] < n
  }

  /** `endpoint.addConnection(connection)`. */
  function AddConnection(insts: seq<StaticInstance>, target: nat, connPath: string): (r: seq<StaticInstance>)
    requires target < |insts|
    ensures |r| == |insts|
  {
    insts[target := insts[target].(connections := insts[target].connections + [connPath])]
  }

  function WireA(insts: seq<StaticInstance>, i: nat, refs: map<string, nat>): (r: seq<StaticInstance>)
    requires i < |insts| && insts[i].SimpleConnectionInstance?
    ensures |r| == |insts|
  {
    var c := insts[i];
    if Resolvable(c.a, refs, |insts|) then AddConnection(insts[i := c.(a := Linked(refs[c.a.ref]))], refs[c.a.ref], c.path)
    else insts
  }

  function WireB(insts: seq<StaticInstance>, i: nat, refs: map<string, nat>): (r: seq<StaticInstance>)
    requires i < |insts| && insts[i].SimpleConnectionInstance?
    ensures |r| == |insts|
  {
    var c := insts[i];
    if Resolvable(c.b, refs, |insts|) then AddConnection(insts[i := c.(b := Linked(refs[c.b.ref]))], refs[c.b.ref], c.path)
    else insts
  }

  /**
   * `populateConnections` of the instance at `i`, with each endpoint guarded on its own:
   * a resolvable `$ref` is replaced by the instance it names, which records the connection.
   * An endpoint that cannot be resolved keeps its `$ref`. Simple instances are left alone.
   */
  function WireOne(insts: seq<StaticInstance>, i: nat, refs: map<string, nat>): (r: seq<StaticInstance>)
    requires i < |insts|
    ensures |r| == |insts|
  {
    if insts[i].SimpleConnectionInstance? then
      var s := WireA(insts, i, refs);
      WireB(s, i, refs)
    else insts
  }

  /** `populateInstanceReferences` from position `i` on. */
  function WireFrom(insts: seq<StaticInstance>, i: nat, refs: map<string, nat>): (r: seq<StaticInstance>)
    requires i <= |insts|
    ensures |r| == |insts|
    decreases |insts| - i
  {
    if i == |insts| then insts else WireFrom(WireOne(insts, i, refs), i + 1, refs)
  }

  /** Kind, id and path of every instance survive wiring; only endpoints and connection lists change. */
  predicate SameShape(x: StaticInstance, y: StaticInstance)
  {
    x.SimpleConnectionInstance? == y.SimpleConnectionInstance? && x.id == y.id && x.path == y.path
  }

  predicate SameEnds(x: StaticInstance, y: StaticInstance)
  {
    SameShape(x, y) && (x.SimpleConnectionInstance? ==> x.a == y.a && x.b == y.b)
  }

  /** No connection instance has an endpoint left that could still be resolved. */
  predicate Settled(insts: seq<StaticInstance>, refs: map<string, nat>)
  {
    forall k :: 0 <= k < |insts| && insts[k].SimpleConnectionInstance? ==>
      !Resolvable(insts[k].a, refs, |insts|) && !Resolvable(insts[k].b, refs, |insts|)
  }

  predicate SettledBelow(insts: seq<StaticInstance>, i: nat, refs: map<string, nat>)
  {
    forall k :: 0 <= k < i && k < |insts| && insts[k].SimpleConnectionInstance? ==>
      !Resolvable(insts[k].a, refs, |insts|) && !Resolvable(insts[k].b, refs, |insts|)
  }

  /** Wiring instance `i` settles it and leaves every other endpoint where it was. */
  lemma WireOneEffect(insts: seq<StaticInstance>, i: nat, refs: map<string, nat>)
    requires i < |insts|
    ensures var r := WireOne(insts, i, refs);
      (forall k :: 0 <= k < |insts| ==> SameShape(insts[k], r[k])) &&
      (forall k :: 0 <= k < |insts| && k != i ==> SameEnds(insts[k], r[k])) &&
      (r[i].SimpleConnectionInstance? ==> !Resolvable(r[i].a, refs, |r|) && !Resolvable(r[i].b, refs, |r|)) &&
      (r[i].SimpleConnectionInstance? && !Resolvable(insts[i].a, refs, |insts|) ==> r[i].a == insts[i].a) &&
      (r[i].SimpleConnectionInstance? && !Resolvable(insts[i].b, refs, |insts|) ==> r[i].b == insts[i].b)
  {
  }

  /** On a settled list the wiring of one instance changes nothing. */
  lemma WireOneSettled(insts: seq<StaticInstance>, i: nat, refs: map<string, nat>)
    requires i < |insts| && Settled(insts, refs)
    ensures WireOne(insts, i, refs) == insts
  {
  }

  lemma {:induction false} WireFromSettles(insts: seq<StaticInstance>, i: nat, refs: map<string, nat>)
    requires i <= |insts| && SettledBelow(insts, i, refs)
    ensures Settled(WireFrom(insts, i, refs), refs)
    decreases |insts| - i
  {
    if i < |insts| {
      var next := WireOne(insts, i, refs);
      WireOneEffect(insts, i, refs);
      assert SettledBelow(next, i + 1, refs) by {
        forall k | 0 <= k < i + 1 && k < |next| && next[k].SimpleConnectionInstance?
          ensures !Resolvable(next[k].a, refs, |next|) && !Resolvable(next[k].b, refs, |next|)
        {
          if k != i {
            assert SameEnds(insts[k], next[k]);
          }
        }
      }
      WireFromSettles(next, i + 1, refs);
    }
  }

  lemma {:induction false} WireFromIdentity(insts: seq<StaticInstance>, i: nat, refs: map<string, nat>)
    requires i <= |insts| && Settled(insts, refs)
    ensures WireFrom(insts, i, refs) == insts
    decreases |insts| - i
  {
    if i < |insts| {
      WireOneSettled(insts, i, refs);
      WireFromIdentity(insts, i + 1, refs);
    }
  }

  /** Running `populateInstanceReferences` a second time changes nothing: each endpoint resolves at most once. */
  lemma WiringIdempotent(insts: seq<StaticInstance>, refs: map<string, nat>)
    ensures WireFrom(WireFrom(insts, 0, refs), 0, refs) == WireFrom(insts, 0, refs)
  {
    WireFromSettles(insts, 0, refs);
    WireFromIdentity(WireFrom(insts, 0, refs), 0, refs);
  }

  /**
   * `populateConnections` as the client writes it: the "already populated" test looks at `a`
   * only, and `b` is resolved through `this.b.$ref` even when `b` is already an instance,
   * where `$ref` is undefined and `resolve` throws.
   */
  function WireOneAsWritten(insts: seq<StaticInstance>, i: nat, refs: map<string, nat>): Result<seq<StaticInstance>>
    requires i < |insts|
  {
    if !insts[i].SimpleConnectionInstance? || insts[i].a.Linked? then Success(insts)
    else
      var s := WireA(insts, i, refs);
      if s[i].b.Linked? then Failure(TYPE_ERROR) else Success(WireB(s, i, refs))
  }

  /**
   * A connection whose `a` does not resolve but whose `b` does is wired once without trouble;
   * wiring it again (as a model merge does) throws, while the per-endpoint guard changes nothing.
   */
  lemma SecondWiringThrows()
    ensures var insts := [SimpleInstance("x", "Model.x", [], false),
                          SimpleConnectionInstance("c", "Model.c", Pending("//@missing"), Pending("//@x"), [], false)];
            var refs := map["//@x" := 0];
            var once := WireOneAsWritten(insts, 1, refs);
            once.Success? && WireOneAsWritten(once.value, 1, refs).Failure? &&
            WireOne(WireOne(insts, 1, refs), 1, refs) == WireOne(insts, 1, refs)
  {
    var insts := [SimpleInstance("x", "Model.x", [], false),
                  SimpleConnectionInstance("c", "Model.c", Pending("//@missing"), Pending("//@x"), [], false)];
    var refs := map["//@x" := 0];
    assert !Resolvable(insts[1].a, refs, |insts|);
    var once := WireOneAsWritten(insts, 1, refs);
    assert once.value[1].b == Linked(0);
  }

  // ------------------------------------------------------------------- World

  /** A child of a world: its static instances come first, then its variables. */
  datatype WorldChild = WInstance(i: StaticInstance) | WVariable(v: Variable)

  class World {
    const id: string
    const name: string
    var instances: seq<StaticInstance>
    var variables: seq<Variable>

    /** A raw world without instances gets an empty instance list. */
    constructor (id: string, name: string, raws: Option<seq<RawInstance>>, parentPath: string, variables: seq<Variable>)
      requires CreateStaticInstances(raws, parentPath).Success?
      ensures this.id == id && this.name == name
      ensures instances == CreateStaticInstances(raws, parentPath).value
      ensures raws.None? ==> instances == []
      ensures this.variables == variables
    {
      this.id := id;
      this.name := name;
      instances := CreateStaticInstances(raws, parentPath).value;
      this.variables := variables;
    }

    function GetInstances(): seq<StaticInstance>
      reads this
    {
      instances
    }

    function GetVariables(): seq<Variable>
      reads this
    {
      variables
    }

    function GetChildren(): (r: seq<WorldChild>)
      reads this
      ensures |r| == |instances| + |variables|
      ensures forall k :: 0 <= k < |instances| ==> r[k] == WInstance(instances[k])
      ensures forall k :: 0 <= k < |variables| ==> r[|instances| + k] == WVariable(variables[k])
    {
      Seqs.Map(instances, (i: StaticInstance) => WInstance(i)) + Seqs.Map(variables, (v: Variable) => WVariable(v))
    }

    /** `populateInstanceReferences`: every connection instance wires its endpoints, in list order. */
    method PopulateInstanceReferences(refs: map<string, nat>)
      modifies this
      ensures instances == WireFrom(old(instances), 0, refs)
      ensures variables == old(variables)
      ensures Settled(instances, refs)
    {
      WireFromSettles(instances, 0, refs);
      var i := 0;
      while i < |instances|
        invariant 0 <= i <= |instances| == |old(instances)|
        invariant WireFrom(instances, i, refs) == WireFrom(old(instances), 0, refs)
        invariant variables == old(variables)
      {
        instances := WireOne(instances, i, refs);
        i := i + 1;
      }
    }
  }
}
