/**
 * The serialised model as the server sends it, before the factory wraps it:
 * every entry keeps its `eClass`, its `synched` flag (a placeholder for
 * something the client already holds) and the optional lists it may carry.
 */
module Raw {
  import opened Wrappers
  import opened Graph
  import Worlds

  /**
   * A raw visual group; `elements` are the ids of its `visualGroupElements`, when present,
   * and `tags` the `$ref`s of its tags (a missing list reads as empty).
   */
  datatype RawVisualGroup = RawVisualGroup(id: string, name: string, elements: Option<seq<string>>, tags: seq<string>)

  /**
   * An optional list of raw variables or types. (A dedicated datatype rather than an
   * `Option` of a list, so that recursion through it is seen to terminate.)
   */
  datatype RawVariables = NoVariables | VariableList(list: seq<RawVariable>)
  datatype RawTypes = NoTypes | TypeList(list: seq<RawType>)

  datatype RawType = RawType(
    eClass: string,
    id: string,
    name: string,
    synched: bool,
    superType: SuperType,
    visualType: Slot,
    variables: RawVariables,
    visualGroups: Option<seq<RawVisualGroup>>,
    arrayType: Slot,
    size: int,
    tags: seq<string>)  // the `$ref`s of its tags; a missing list reads as empty

  datatype RawVariable = RawVariable(
    id: string,
    name: string,
    synched: bool,
    isStatic: bool,
    types: Option<seq<Slot>>,
    anonymousTypes: RawTypes,
    initialValues: Option<seq<RawValue>>)

  datatype RawLibrary = RawLibrary(id: string, name: string, synched: bool, types: RawTypes)

  datatype RawWorld = RawWorld(
    id: string,
    name: string,
    instances: Option<seq<Worlds.RawInstance>>,
    variables: RawVariables)
}
