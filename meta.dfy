/**
 * The metamodel names (`eClass` values) and capability ids the client compares against.
 * The client reads them from its Resources table; here each is a named constant and
 * only their being pairwise different matters to the proofs.
 */
module Meta {

  // eClass / metaType names of types
  const SIMPLE_TYPE: string := "Type"
  const COMPOSITE_TYPE: string := "CompositeType"
  const CONNECTION_TYPE: string := "ConnectionType"
  const COMPOSITE_VISUAL_TYPE: string := "CompositeVisualType"
  const IMPORT_TYPE: string := "ImportType"
  const ARRAY_TYPE: string := "ArrayType"
  const VISUAL_TYPE: string := "VisualType"
  const PARAMETER_TYPE: string := "ParameterType"
  const POINTER_TYPE: string := "PointerType"
  const TEXT_TYPE: string := "TextType"
  const STATE_VARIABLE_TYPE: string := "StateVariableType"
  const DERIVED_STATE_VARIABLE_TYPE: string := "DerivedStateVariableType"

  // eClass names of model nodes
  const GEPPETTO_MODEL: string := "GeppettoModel"
  const SIMPLE_INSTANCE: string := "SimpleInstance"
  const SIMPLE_CONNECTION_INSTANCE: string := "SimpleConnectionInstance"

  /** Id of the visual type that marks a particle set. */
  const PARTICLES_TYPE: string := "Particles"

  /** Id the client gives to the root model node, and so the first segment of every path. */
  const MODEL_PREFIX_CLIENT: string := "Model"

  // capability ids
  const VISUAL_CAPABILITY: string := "VisualCapability"
  const VISUAL_GROUP_CAPABILITY: string := "VisualGroupCapability"
  const CONNECTION_CAPABILITY: string := "ConnectionCapability"
  const STATE_VARIABLE_CAPABILITY: string := "StateVariableCapability"
  const DERIVED_STATE_VARIABLE_CAPABILITY: string := "DerivedStateVariableCapability"
  const PARAMETER_CAPABILITY: string := "ParameterCapability"
  const PARTICLES_CAPABILITY: string := "ParticlesCapability"
}
