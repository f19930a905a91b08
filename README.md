# Geppetto model core in Dafny

Geppetto's JavaScript core reads a serialised JSON model of a simulation. It builds a resolved object graph from it: libraries of types, variables, worlds with their static instances and connections, all linked by `$ref` pointer strings. From that graph it materialises a tree of instances on demand. This project models that core and proves properties of the model. It covers the two copies of the code, `geppetto-core` and the earlier `geppetto-js`.

The model is organised as follows:

- **Values.**
  - `Wrappers`, `Seqs` and `Strings` hold general helpers.
  - `Meta` holds the metaType and capability constants.
  - `Graph` holds the built graph as datatypes: types, variables, libraries and worlds.
  - `Raw` holds the serialised JSON.
  - `References` parses pointer strings into segments.
- **Graph operations.**
  - `Types`: super types, `typeOf`, variable back-links.
  - `Capabilities`: `extendApi` and `hasCapability`.
  - `Nodes`: paths, parents, roots and child shortcuts.
  - `Libraries`: `setTypes`, `addType`, import-type batching.
  - `Worlds`: worlds and at-most-once connection wiring.
  - `Models`: the `GeppettoModel` class, with `resolve`, variable scope and world selection.
- **Building and merging.**
  - `Factory` builds the graph from its raw form, and `Populate` resolves its references once.
  - `Merge`, `TypeMerges`, `LibraryMerges` and `ModelMerges` model `mergeModel`, `mergeVariables` and `mergeSimpleInstances`.
  - `Swaps` models `swapTypeInVariable` and the swap of a type in a type list on their own; the merge's override does not call them in this model.
  - `PointerChains` builds pointer chains.
- **The catalogue.**
  - `Walks` holds the variable walks of `ModelUtils`.
  - `Catalogue` holds the catalogue of potential instance paths, its lookups and the type swap's update of it.
- **Instances.**
  - `InstanceTree` is the instance tree: an arena of nodes whose parents precede their children, plus capability tagging and propagation.
  - `IdPaths` rewrites `addInstances` paths, and `InstanceLookup` looks paths up in the tree.
  - `InstanceBuild` is `buildInstanceHierarchy`.
  - `Wildcards` expands `[*]` paths.
  - `InstanceCapabilities` is the capability pass over existing instances.
  - `InstanceStore` is the `Instances` object: its constructor, `addInstances`, `getInstance` and `deleteInstance`.

Where the code changes objects in place, the model is a class with methods. The methods are proved against specification functions: lists that grow become `seq` fields, and the type swap over a type list keeps its array. Where the code computes values, the model uses datatypes, functions and lemmas.

`eval` look-ups are replaced by explicit walks over the child maps. The raw-model resolver that `populateTypeReferences` uses is passed in as a parameter. The remote requests that `resolveAllImportTypes` sends are returned as a list of batches.

## Model

| member | source | states |
|---|---|---|
| Types.TypeOfSound | geppetto-core/src/model/Type.js:135-154 | whenever `typeOf(t)` answers, it answers whether `t` is the type itself or inherits from it through its super types |
| Types.TypeOfTotal | geppetto-core/src/model/Type.js:143-150 | with every super-type list present and resolved, `typeOf` never throws |
| Types.AddVariableReference | geppetto-core/src/model/Type.js:114-124 | the variable's path is appended to `variableReferences` and nothing else about the type changes |
| Types.SetTypes | geppetto-core/src/model/Variable.js:215-223 | the variable's types become the given list, position by position, each resolved one carrying the back-link; every other field is kept |
| Types.SetTypesLinksBack | geppetto-core/src/model/Variable.js:217-221 | after `setTypes`, every resolved type lists the variable among its references and keeps its path |
| Capabilities.HasCapability | geppetto-core/src/model/Variable.js:192-203 | the scan answers true exactly when the id is in the capability list |
| Capabilities.ExtendVariable | geppetto-core/src/model/Variable.js:180-183 | `extendApi` appends the capability id to the variable's list and changes nothing else |
| Capabilities.ExtendType | geppetto-core/src/model/Type.js:85-88 | `extendApi` appends the capability id to the type's list and changes nothing else |
| Capabilities.ExtendThenHas | geppetto-core/src/model/Type.js:85-108 | after `extendApi(c)` the holder has `c`, keeps every capability it had, gains no other, and the list grows by one even when `c` was present |
| Capabilities.AddIfMissing | geppetto-core/src/ModelUtils.js:329-342 | adding an id only when `hasCapability` says it is missing: the result holds the id and the old ones, and is the old list when the id was there |
| Capabilities.AddIfMissingKeepsDistinct | geppetto-core/src/ModelUtils.js:329-342 | the guarded addition never creates a duplicate capability id |
| Graph.Sole | geppetto-core/src/model/Variable.js:64-71 | the getter convention: one element is returned alone, exactly when the list has length one; otherwise the list itself |
| Graph.GetTypes | geppetto-core/src/model/Variable.js:36-41 | the referenced types come first and in order, followed by every anonymous type |
| Graph.GetTypeShape | geppetto-core/src/model/Variable.js:64-71 | `getType` returns a single type exactly when the variable has one type in total, and that type is the referenced or the anonymous one |
| Graph.GetInitialValues | geppetto-core/src/model/Variable.js:94-108 | a set pointer value wins as `[pointerValue]`; otherwise the raw initial values, or `[]` when there are none |
| Graph.GetSuperType | geppetto-core/src/model/Type.js:45-53 | an absent super type stays absent; a one-element list is unwrapped; anything else is returned as stored |
| Graph.CompositeVisualChildren | geppetto-js/src/model/CompositeVisualType.js:37-45 | the children are the variables, first and in order, then the visual groups |
| Graph.HasVariable | geppetto-core/src/model/CompositeType.js:39-50 | true exactly when some variable of the type has the id |
| Graph.GetConnections | geppetto-core/src/model/CompositeType.js:72-83 | the call throws a TypeError exactly when some variable does not hold exactly one resolved type; otherwise it returns the variables whose type is a connection type, in their order |
| Graph.ConnectionVariables | geppetto-core/src/model/CompositeType.js:76-81 | over any list of variables, the loop fails with a TypeError exactly when some variable is not single-typed, and otherwise keeps exactly the connection-typed variables in order |
| Graph.ConnectionsExact | geppetto-core/src/model/CompositeType.js:72-83 | a variable is among the connections exactly when it is a variable of the type whose single type has the Connection metaType |
| Worlds.CreateStaticInstance | geppetto-core/src/InstanceFactory.js:147-158 | only SimpleInstance and SimpleConnectionInstance are built, with the raw id, the path under the parent, the raw endpoint refs and the raw `synched` flag; any other eClass throws a TypeError |
| Worlds.CreateStaticInstances | geppetto-core/src/InstanceFactory.js:455-457 | absent raw instances give `[]`; otherwise one instance per raw entry, in order, and a rejected entry makes the whole call throw |
| Worlds.World.constructor | geppetto-core/src/model/World.js:7-11 | the world holds its static instances, `[]` when the raw world has none, and its variables |
| Worlds.World.GetChildren | geppetto-core/src/model/World.js:21-23 | the static instances first, then the variables, each in order |
| Worlds.World.PopulateInstanceReferences | geppetto-core/src/model/World.js:25-34 | every connection instance wires its endpoints in list order; afterwards no endpoint that could resolve is left pending and the variables are unchanged |
| Worlds.WireOneEffect | geppetto-core/src/model/SimpleConnectionInstance.js:13-31 | wiring one connection settles both of its endpoints: a resolvable ref is replaced by the instance it names; an unresolvable one keeps its ref without error |
| Worlds.WireOneSettled | geppetto-core/src/model/SimpleConnectionInstance.js:15-18 | on an already wired list, populating a connection again changes nothing |
| Worlds.WiringIdempotent | geppetto-core/src/model/SimpleConnectionInstance.js:13-31 | running `populateInstanceReferences` twice equals running it once: each endpoint resolves at most once |
| Worlds.SecondWiringThrows | geppetto-core/src/model/SimpleConnectionInstance.js:13-31 | as written, a connection whose `a` did not resolve but whose `b` did is wired again on a second pass, and reading `b.$ref` of an instance throws |
| References.SegmentsOfRefString | geppetto-js/src/model/GeppettoModel.js:177-179 | a well-formed reference is cut into an empty first segment followed by one `feature.index` text per step, in order |
| References.IndexOfSegText | geppetto-js/src/model/GeppettoModel.js:181 | the index parsed from a segment `feature.k` is `k` |
| Models.ActivateAsWrittenIgnoresArgument | geppetto-js/src/model/GeppettoModel.js:150-161 | as written, the index assigned by a number or string argument is always overwritten: any argument without an `id` selects world 0 (when there are worlds), and an explicit `id` never matches |
| Models.ActivatedIndexSelects | geppetto-js/src/model/GeppettoModel.js:150-161 | the corrected selection picks the world at a valid position, the first world with the given id, or -1 exactly when no world matches |
| Models.GeppettoModel.constructor | geppetto-js/src/model/GeppettoModel.js:15-27 | the model keeps its lists; the first world is selected when there is one, else the index is -1; tag names are copied from the raw tags |
| Models.GeppettoModel.GetCurrentWorld | geppetto-js/src/model/GeppettoModel.js:134-136 | a world is current exactly when the index is not negative, and it is the world at that index |
| Models.GeppettoModel.GetVariables | geppetto-js/src/model/GeppettoModel.js:41-46 | the current world's variables when a world is active and `legacy` is not asked for; the legacy variables otherwise |
| Models.GeppettoModel.AllVariablesExtendScope | geppetto-js/src/model/GeppettoModel.js:61-66 | all variables are the current-scope ones followed by the legacy ones when a world is active, and the legacy ones alone otherwise; every scope variable is among them |
| Models.GeppettoModel.GetChildren | geppetto-js/src/model/GeppettoModel.js:125-127 | the variables, libraries, datasources, queries and worlds, in that order and each list in its own order |
| Models.GeppettoModel.ActivateWorldAsWritten | geppetto-js/src/model/GeppettoModel.js:150-161 | as written: the final index is the as-written lookup on `worldOrIndex.id`; the call fails with "World not found in model" exactly when that index is -1, and only the index changes |
| Models.GeppettoModel.ActivateWorld | geppetto-js/src/model/GeppettoModel.js:150-161 | the corrected call selects the named world and succeeds exactly when one is named; a failed call leaves the selection alone; nothing else changes |
| Models.MatchingTypes | geppetto-js/src/model/GeppettoModel.js:225-231 | one library's types with the given metaType, in order |
| Models.GeppettoModel.TypesOfMetaTypeMembers | geppetto-js/src/model/GeppettoModel.js:218-235 | a type is collected exactly when it belongs to some library and has the given metaType |
| Models.GeppettoModel.GetAllTypesOfMetaType | geppetto-js/src/model/GeppettoModel.js:218-235 | the nested loop returns the library-by-library list of types with the metaType, and so exactly those types |
| Models.GeppettoModel.StepWith | geppetto-js/src/model/GeppettoModel.js:181-206 | a segment naming none of the collections leaves the reference as it is, and every library or world a step reaches belongs to this model |
| Models.GeppettoModel.Resolve | geppetto-js/src/model/GeppettoModel.js:167-209 | the loop over the segments ends with the reference defined by walking every segment from `undefined`, stopping at the first thrown error |
| Models.GeppettoModel.EmptySegmentKeeps | geppetto-js/src/model/GeppettoModel.js:179-181 | the empty text before the first `@` leaves the reference unchanged |
| Models.GeppettoModel.ResolveLibraryType | geppetto-js/src/model/GeppettoModel.js:182-191 | `//@libraries.k/@types.j` is type j of library k; a missing library throws; a missing type is `undefined` |
| Models.GeppettoModel.ResolveScopeVariable | geppetto-js/src/model/GeppettoModel.js:184-187 | `//@variables.k` with no reference yet is variable k of the current scope, or `undefined` past its end |
| Models.GeppettoModel.ResolveTypeVariable | geppetto-js/src/model/GeppettoModel.js:182-191 | `//@libraries.k/@types.j/@variables.m` is variable m of a composite type; any other type lacks `getVariables` and the call throws |
| Models.GeppettoModel.ResolveTopTag | geppetto-js/src/model/GeppettoModel.js:194-195 | `//@tags.k` reads the serialised model's raw tags when it has at least k of them, and the tag names otherwise |
| Models.GeppettoModel.WorldInstanceLostAsWritten | geppetto-js/src/model/GeppettoModel.js:202-205 | as written, `//@worlds.k/@instances.j` resolves to `undefined`: the `worlds` branch needs a reference, and there is none at the first segment |
| Models.GeppettoModel.ResolveWorldInstance | geppetto-js/src/model/GeppettoModel.js:202-205 | with the worlds reachable from the root, `//@worlds.k/@instances.j` is static instance j of world k |
| Libraries.Library.constructor | geppetto-core/src/model/Library.js:14-18 | the library holds the given types and an empty import-type registry |
| Libraries.Library.GetChildren | geppetto-core/src/model/Library.js:28-42 | `getChildren()` hands out the same list as `getTypes()` |
| Libraries.Library.AddImportType | geppetto-core/src/model/Library.js:44-46 | the import type is appended to the registry; the types are unchanged |
| Libraries.Library.SetTypes | geppetto-core/src/model/Library.js:73-84 | the types become the given list and exactly its import types, in order, are added to the registry |
| Libraries.Library.AddType | geppetto-core/src/model/Library.js:87-99 | the type is re-parented (its path becomes the library's path, a dot and its id) and appended; it is registered exactly when it is an import type |
| Libraries.Library.ResolveAllImportTypes | geppetto-core/src/model/Library.js:52-70 | every registered import-type path is sent exactly once, in order, in requests of at most 50; every request but the last is full and only the last carries the callback; no import types, no request |
| Libraries.CollectPaths | geppetto-core/src/model/Library.js:57-59 | the gathered list is the path of every import type, in order |
| Libraries.SendInBatches | geppetto-core/src/model/Library.js:60-67 | the requests together carry the list in order, each at most 50 long, every one but the last full, and only the last with the callback |
| Factory.VisualGroupsOf | geppetto-core/src/ModelFactory.js:1047-1077 | one visual group per raw group that lists its elements, and none for the others; as written, with no static model to resolve tags, the groups fail with a TypeError exactly when one of them has a tag |
| Factory.VisualGroupsKept | geppetto-core/src/ModelFactory.js:1047-1077 | with tags made to resolve, the k-th built group is built from the k-th raw group that lists its elements, so groups without elements are skipped and the order is kept |
| Factory.TaggedTypeThrowsAsWritten | geppetto-core/src/ModelFactory.js:993-999 | as written, a plain raw type with a tag cannot be built, a TypeError; with tags made to resolve it is built and keeps its tags |
| Factory.TaggedGroupThrowsAsWritten | geppetto-core/src/ModelFactory.js:1053-1061 | as written, a composite visual type whose one visual group has a tag cannot be built, a TypeError; with tags made to resolve it is built with that group |
| Factory.TypeCapabilities | geppetto-core/src/ModelFactory.js:196-224 | a new type has only the visual capability, and has it exactly when it is a composite visual type, a plain type of the visual eClass, or has a visual type |
| Factory.BuiltTypeCommon | geppetto-core/src/ModelFactory.js:187-227 | every built type keeps its raw id, name, eClass as metaType, super type and visual type; its path is under the library (or the parent's path when anonymous); it starts with no variable references |
| Factory.BuiltTypeVariant | geppetto-core/src/ModelFactory.js:190-219 | the eClass picks the variant: CompositeType and ConnectionType build a composite, CompositeVisualType a composite visual type, ArrayType an array of the raw element type and size, anything else a plain type; only an ImportType records its position, and only when the import builder exists; a plain type keeps its raw tags and the other variants have none; a tagged plain type, like an import type, is built exactly when the static lookups it needs work; a composite visual type with no variable list fails |
| Factory.BuiltVariable | geppetto-core/src/ModelFactory.js:867-899 | a new variable keeps its raw id, name, static flag, types and initial values, has one value per initial value, no capabilities and no pointer, and no anonymous types when the raw entry has none |
| Factory.TypesFollowLiveEntries | geppetto-core/src/ModelFactory.js:187 | synched raw types are never built: the built types are, one for one and in order, the unsynched entries, the k-th built at position k |
| Factory.VariablesFollowLiveEntries | geppetto-core/src/ModelFactory.js:173-176 | synched raw variables are never built: the built variables are the unsynched entries, one for one and in order |
| Factory.ImportIndexIsPosition | geppetto-core/src/ModelFactory.js:202-206 | each import type records its position among the library's built types as its `_index` |
| Factory.CompositeVisualTypesAreVisual | geppetto-core/src/ModelFactory.js:196-200 | every composite visual type that is built carries the visual capability |
| Factory.ImportTypeThrowsAsWritten | geppetto-core/src/ModelFactory.js:202-203 | as written, a library holding any unsynched import type cannot be built, because the class has no `createImportType` |
| Factory.ImportTypeIndexed | geppetto-core/src/ModelFactory.js:202-206 | with the import builder in place, the same library is built and the import type sits at its recorded index |
| Factory.CreateLibrary | geppetto-core/src/ModelFactory.js:857-864 | the library sits at the model path plus its id, holds exactly the built types, and registers exactly their import types; it fails exactly when building the types fails |
| Factory.CreateLibraries | geppetto-core/src/ModelFactory.js:72 | one fresh library per unsynched raw library, in order, with its id, path and built types; no library appears twice |
| Factory.CreateWorld | geppetto-core/src/model/World.js:7-11 | the world's static instances are built under the model and its variables under the world; a rejected instance or variable, or a missing variable list, makes it fail |
| Factory.CreateGeppettoModel | geppetto-core/src/ModelFactory.js:56-80 | the model as built with `populateRefs` false: anything but a GeppettoModel is refused with "Not a geppetto model"; a model needs its worlds and libraries; the first world is selected when there is one; the legacy variables, raw tags and unsynched libraries are built as the builders define, one world per raw world; every library, world and legacy-variable path starts with `Model`, the client model's id (geppetto-js/src/model/GeppettoModel.js:77-79), whatever the raw model's own id |
| Populate.ResolveToSlot | geppetto-core/src/model/Type.js:163-169 | what `resolve` returns, stored in a type position, is a type or `undefined`; a non-type target is refused |
| Populate.PopulatedSupers | geppetto-core/src/model/Type.js:181-189 | the super-type loop succeeds exactly when every entry does, keeps the list length, and puts each entry's own result at its position |
| Populate.PopulatedVariables | geppetto-core/src/model/GeppettoModelNode.js:72-74 | populating a list of contained variables keeps its length |
| Populate.PopulatedTypes | geppetto-core/src/model/GeppettoModelNode.js:72-74 | populating a variable's anonymous types keeps their number |
| Populate.CollectPopulates | geppetto-js/src/model/GeppettoModelNode.js:72-74 | populating children left to right while appending them gives what the `forEach` over the children gives |
| Populate.FirstResolved | geppetto-core/src/model/Variable.js:256-261 | the first loop of a variable stops at the first entry that already is a type, or at the end |
| Populate.ResolveTypeEntries | geppetto-core/src/model/Variable.js:256-284 | the entries collected into `referencedTypes`, one per entry and in order; the first throw ends the loop |
| Populate.Linked | geppetto-core/src/model/Variable.js:215-223 | the types `setTypes` installs: each resolved type, with the variable appended to its references |
| Populate.PopulateSupers | geppetto-core/src/model/Type.js:181-189 | the `for` loop over the super-type list gives what the super-type list specification gives: each entry resolved in place, the first throw ending it |
| Populate.PopulateSuperType | geppetto-core/src/model/Type.js:171-192 | the super-type loop is skipped when `getSuperType` gives `undefined` (no super type, an undefined one, or a list holding only `undefined`); otherwise it wraps a single entry into a list and resolves `$ref` entries one by one, as the super-type specification says |
| Populate.PopulateTypeOwnPart | geppetto-core/src/model/ArrayType.js:46-80 | a type resolves its visual type and super types; an array type also its element type and its super types once more |
| Populate.PopulateType | geppetto-core/src/model/Type.js:157-193 | `Type.populateTypeReferences`: its contained variables first, then its own part, as the type specification defines |
| Populate.PopulateVariables | geppetto-core/src/model/GeppettoModelNode.js:72-74 | the children loop of a composite type populates every variable once, in order, and stops at the first throw |
| Populate.PopulateTypes | geppetto-core/src/model/GeppettoModelNode.js:72-74 | the children loop of a variable populates every anonymous type once, in order |
| Populate.PopulateVariable | geppetto-core/src/model/Variable.js:247-319 | `Variable.populateTypeReferences`: its anonymous types first, then its own part, as the variable specification defines |
| Populate.CollectReferencedTypes | geppetto-core/src/model/Variable.js:256-284 | the first loop returns the resolved entries before the first already-resolved one; it swaps exactly when no entry was resolved, and flags a pointer type exactly when one was collected |
| Populate.CapabilitiesFor | geppetto-core/src/model/Variable.js:307-318 | the capability list of a type list fails only with a TypeError, when an entry is still unresolved |
| Populate.ConnectionOf | geppetto-core/src/model/GeppettoModelNode.js:93-121 | a connection is made exactly when the first initial value has two ends, and its pointers A and B come from those ends; otherwise a TypeError |
| Populate.AddTypeCapabilities | geppetto-core/src/model/Variable.js:307-318 | the last loop extends the variable with the capability each resolved type calls for, in order, and sets the connection from the first initial value when one of the types is a connection type |
| Populate.TypeCapabilitiesAdded | geppetto-core/src/model/Variable.js:307-318 | a successful pass keeps the variable's types, anonymous types, id, path and pointer and appends exactly the capability list of its types; a failure is a TypeError |
| Populate.ConnectionThrowsAsWritten | geppetto-core/src/model/GeppettoModelNode.js:98-101 | as written, the capability loop over resolved types throws a ReferenceError at a connection type, since `Instance` is not in scope |
| Populate.CapabilitiesAsWrittenAgree | geppetto-core/src/model/Variable.js:307-318 | without a connection type the as-written capability loop gives exactly the intended one |
| Populate.ConnectionVariableThrowsAsWritten | geppetto-core/src/model/Variable.js:312-316 | as written, a variable whose types are resolved and include a connection type cannot be populated: a ReferenceError |
| Populate.ConnectionResolved | geppetto-core/src/model/GeppettoModelNode.js:93-121 | as intended, such a variable is populated exactly when its first initial value has both ends; its connection is then the two pointers and it has the connection capability |
| Populate.PointerVariableThrowsAsWritten | geppetto-core/src/model/Variable.js:294-300 | as written, a pointer-typed variable with one initial value throws a TypeError, since nodes have no `createPointer` |
| Populate.PointerBuilt | geppetto-core/src/model/Variable.js:294-304 | as intended, such a variable gets the pointer made from its one initial value, and can then fail only at the capability loop, with a TypeError |
| Populate.PopulateVariableOwnPart | geppetto-core/src/model/Variable.js:251-318 | collect, swap through `setTypes`, check the pointer and add capabilities, as the specification of the variable's own part says |
| Populate.ResolvedSupersKept | geppetto-core/src/model/Type.js:181-189 | super types that already are types are kept: the loop can run again without effect |
| Populate.SuperTypeBecomesList | geppetto-core/src/model/Type.js:45-53 | after the pass a super type that `getSuperType` does not unwrap to `undefined` is a list, entry for entry: a type is kept, a `$ref` becomes what it resolves to; a super type that unwraps to `undefined` is left as it was |
| Populate.ArraySecondSuperPassKeeps | geppetto-core/src/model/ArrayType.js:58-79 | the array type's second super-type pass changes nothing when the first left only types, or left the list `[undefined]`, which `getSuperType` unwraps so that the pass is skipped |
| Populate.ArrayUndefinedSuperKept | geppetto-core/src/model/ArrayType.js:46-80 | an array type whose single super `$ref` resolves to `undefined` is populated exactly when its visual type and element are, and its super type ends as `[undefined]` |
| Populate.ResolvedVisualTypeThrows | geppetto-core/src/model/Type.js:165-168 | a visual type that already is a type makes a second populate throw, since it has no `$ref` |
| Populate.PopulatedTypeVisual | geppetto-core/src/model/Type.js:163-169 | a populated type's visual type is what its `$ref` resolves to, or stays absent |
| Populate.VisualTypeResolvedOnce | geppetto-core/src/model/Type.js:163-169 | a type whose visual type resolved to a type cannot be populated a second time |
| Populate.CapabilitiesForMeans | geppetto-core/src/model/Variable.js:307-318 | the capability loop succeeds exactly when every type is resolved, and adds only Parameter and Connection ids: the Parameter id exactly when some type is a Parameter type, the Connection id exactly when some type is a Connection type |
| Populate.ResolvedTypesKept | geppetto-core/src/model/Variable.js:256-289 | a variable whose first type is already a type keeps its types and pointer: nothing is resolved again |
| Populate.PopulatedTypesResolved | geppetto-core/src/model/Variable.js:247-319 | after a successful populate every type of the variable is a resolved type |
| Populate.PopulateOnce | geppetto-core/src/model/Variable.js:256-262 | population of a variable is one-shot: populating the result again keeps its types and pointer |
| Populate.UnresolvedTypesSwapped | geppetto-core/src/model/Variable.js:264-318 | with no type resolved yet, the variable's types become the resolved types, in order, each listing the variable among its references, and the capabilities follow their metaTypes |
| Populate.PointerNeedsOneInitialValue | geppetto-core/src/model/Variable.js:292-304 | a pointer-typed variable without exactly one initial value throws "Initial values expected" |
| Populate.UnresolvableTypeThrows | geppetto-core/src/model/Variable.js:264-274 | a `$ref` that does not lead to a type, met before any resolved entry, makes the populate throw |
| Populate.PopulatedVariableKeepsPath | geppetto-core/src/model/Variable.js:247-319 | populating a variable changes what it refers to, never its id or path |
| Populate.PopulatedTypeKeepsPath | geppetto-core/src/model/Type.js:157-193 | populating a type changes what it refers to, never its id or path |
| Merge.Find | geppetto-core/src/ModelFactory.js:454 | `find` by path answers exactly when some entry has the path, and then with an entry of the list that has it |
| Merge.SplitSizes | geppetto-core/src/ModelFactory.js:448-480 | in the merge loop every diff entry is either appended or matched |
| Merge.AddedUpToStep | geppetto-core/src/ModelFactory.js:454-457 | one turn of the loop appends its entry exactly when the list, grown by the earlier turns, lacks its path |
| Merge.AddedFromDiff | geppetto-core/src/ModelFactory.js:448-480 | every appended entry comes from the diff |
| Merge.AddedAreNew | geppetto-core/src/ModelFactory.js:454-468 | no appended entry has a path the list held before the merge |
| Merge.AddedDistinct | geppetto-core/src/ModelFactory.js:454-468 | no two appended entries share a path |
| Merge.AddedCovers | geppetto-core/src/ModelFactory.js:448-480 | after the loop the list holds every visited diff entry's path |
| Merge.AddedIsNovel | geppetto-core/src/ModelFactory.js:443-483 | the merge appends, in diff order, exactly the diff entries whose path is neither in the list nor carried by an earlier diff entry |
| Merge.MergeCovers | geppetto-core/src/ModelFactory.js:443-483 | after the merge every diff path is in the list, and each appended path occurs there once |
| Merge.KnownPathsAddNothing | geppetto-core/src/ModelFactory.js:454-457 | a diff whose every path the list already holds appends nothing |
| Merge.SecondMergeAddsNothing | geppetto-core/src/ModelFactory.js:443-483 | merging the same fragment a second time appends nothing and reports an empty list |
| Merge.MatchedHaveTheirPath | geppetto-core/src/ModelFactory.js:294-301 | a matched diff entry is paired with the first entry of the merged list with its path |
| Merge.MergeVariableAt | geppetto-core/src/ModelFactory.js:448-480 | one turn of `mergeVariables`: a new variable is pushed and then populated; a throw while populating ends the whole merge with that error, the variable pushed |
| Merge.MergeVariableList | geppetto-core/src/ModelFactory.js:443-483 | on success the list has grown by exactly the populated new variables, which are also what is reported; the list only ever grows |
| Merge.MergeVariableTurns | geppetto-core/src/ModelFactory.js:448-480 | the turns of the loop end either with every diff variable merged, the list grown by the populated new ones, or with the error that populating the appended variables gives; the list only grows |
| Merge.MergeModelVariables | geppetto-core/src/ModelFactory.js:409-411 | merging into the model grows its legacy variables by the populated new ones and changes nothing else of the model |
| Merge.MergeWorldVariables | geppetto-core/src/ModelFactory.js:413-426 | merging into the current world grows its variables by the populated new ones and leaves its instances alone |
| Merge.MergeInstanceList | geppetto-core/src/ModelFactory.js:495-525 | the loop of `mergeSimpleInstances` skips synched diff instances and appends exactly the unsynched ones with a new path, in order |
| Merge.SynchedNeverAdded | geppetto-core/src/ModelFactory.js:496-499 | no instance the merge adds is synched |
| Merge.UnsynchedAll | geppetto-core/src/ModelFactory.js:496-499 | when no diff instance is synched, the synched skip removes nothing |
| Merge.MergeSimpleInstances | geppetto-core/src/ModelFactory.js:490-528 | the world's instances grow by the unsynched ones with a new path, which are reported, and are then wired; afterwards no resolvable endpoint is pending and the variables are unchanged |
| TypeMerges.WriteAt | geppetto-core/src/ModelFactory.js:362 | `types[index] = t` changes only the entry at an index the list has, and an undefined `_index` writes nothing |
| TypeMerges.Swapped | geppetto-core/src/ModelFactory.js:345-358 | a swapped-in type remembers the type it replaces as its `overrideType` |
| TypeMerges.LastWriter | geppetto-core/src/ModelFactory.js:342-362 | the last of the overrides that writes a given position, or none |
| TypeMerges.OverridesReport | geppetto-core/src/ModelFactory.js:342-379 | the overrides succeed exactly when every one does, and the swapped-in types are then reported in match order |
| TypeMerges.OverridesWriteBack | geppetto-core/src/ModelFactory.js:346-362 | a position no override names keeps its type; a position several name holds the type of the last of them |
| TypeMerges.MergedTypesAppend | geppetto-core/src/ModelFactory.js:286-338 | without `overrideTypes` nothing already in the library changes: it grows by the populated new diff types in diff order, each with a path it lacked, no two alike, and every diff path is then in the library |
| TypeMerges.MergeTypesTwiceAddsNothing | geppetto-core/src/ModelFactory.js:286-338 | merging the same diff types a second time appends nothing |
| TypeMerges.MergedTypesOverride | geppetto-core/src/ModelFactory.js:341-380 | with `overrideTypes` the types keep their number with the new ones at the end; each position holds the last override written there, or what it held; every swapped-in type remembers the one it replaced |
| TypeMerges.TypeMatchesHold | geppetto-core/src/ModelFactory.js:294-301 | each match pairs a diff type with the first type of the library that has its path |
| TypeMerges.AsWrittenAgreesWithoutNewTypes | geppetto-core/src/ModelFactory.js:286-380 | where no diff type is new and nothing is overridden, the merge as written and the corrected one agree |
| TypeMerges.OverrideThrowsAsWritten | geppetto-core/src/ModelFactory.js:341-366 | as written, overriding with at least one matching diff type cannot succeed; once the incoming type populates, it fails with a TypeError |
| TypeMerges.NewTypeThrowsAsWritten | geppetto-core/src/ModelFactory.js:328 | as written, one new type in a matching library makes the merge throw, since `ModelFactory.populateChildrenShortcuts` does not exist; the corrected merge appends and reports it |
| TypeMerges.AppendNewTypes | geppetto-core/src/ModelFactory.js:286-333 | the first loop appends each new diff type through `addType` and collects the matches, in order |
| TypeMerges.PopulateAppended | geppetto-core/src/ModelFactory.js:335-338 | the second loop populates every appended type in place, in order; the first throw ends it |
| TypeMerges.ApplyOverrides | geppetto-core/src/ModelFactory.js:341-380 | the override loop populates each matched diff type and writes it at the replaced type's `_index`, as the override specification says |
| TypeMerges.MergeLibraryTypes | geppetto-core/src/ModelFactory.js:273-381 | the library ends with the merged type list, and the new import types are registered either way |
| Swaps.SwapType | geppetto-core/src/ModelFactory.js:755-765 | an entry with the outgoing type's metaType and id is replaced by the incoming type; any other entry keeps its id, metaType and path |
| Swaps.SwapVariable | geppetto-core/src/ModelFactory.js:734-745 | only the referenced and anonymous types of the variable change |
| Swaps.SwapAbsentType | geppetto-core/src/ModelFactory.js:754-767 | where the outgoing type does not occur, the swap leaves the type as it is |
| Swaps.SwapAbsentVariable | geppetto-core/src/ModelFactory.js:734-745 | where the outgoing type does not occur, the swap leaves the variable as it is |
| Swaps.SwapRemovesType | geppetto-core/src/ModelFactory.js:754-767 | when the incoming type does not itself use the outgoing one, no use of the outgoing type survives in the swapped type |
| Swaps.SwapRemovesVariable | geppetto-core/src/ModelFactory.js:734-767 | the same for a variable: no use of the outgoing type survives |
| Swaps.SwapVariableIdempotent | geppetto-core/src/ModelFactory.js:734-767 | swapping a second time changes nothing, as long as the incoming type does not use the outgoing one |
| Swaps.SwapTypeInTypes | geppetto-core/src/ModelFactory.js:754-767 | the loop over the type array replaces each entry in place by its swapped form |
| LibraryMerges.MergedIntoFrame | geppetto-core/src/ModelFactory.js:268-382 | the inner loop succeeds exactly when every library with the diff library's path takes its types; those hold their merged types and every other library is as it was |
| LibraryMerges.LibrariesAdded | geppetto-core/src/ModelFactory.js:384-404 | the libraries appended are exactly the diff libraries whose path was new, in order, and the list keeps the old libraries' paths followed by theirs |
| LibraryMerges.UntouchedLibraries | geppetto-core/src/ModelFactory.js:260-405 | a library whose path no diff library has comes out as it went in |
| LibraryMerges.TypesMergerGrows | geppetto-core/src/ModelFactory.js:286-338 | without `overrideTypes` the type merge of a library only appends types and keeps its path |
| LibraryMerges.LibrariesOnlyGrow | geppetto-core/src/ModelFactory.js:260-405 | with a type merge that only appends, no library loses or changes a type, and none changes its path |
| LibraryMerges.MergedLibrariesOnlyGrow | geppetto-core/src/ModelFactory.js:260-405 | without `overrideTypes`, every library of the model keeps its path and its types, and may gain more |
| LibraryMerges.MergeIntoMatching | geppetto-core/src/ModelFactory.js:268-382 | the inner loop over the library objects leaves them holding what the library-value loop says, and returns the types reported |
| LibraryMerges.MergeLibraryStep | geppetto-core/src/ModelFactory.js:260-405 | one turn of the outer loop merges into the matching libraries or appends the diff library; a throw leaves the library list as it was; variables and worlds are untouched |
| LibraryMerges.MergeLibraries | geppetto-core/src/ModelFactory.js:256-405 | the outer loop ends as the library-value loop says; the model's libraries are then the old ones followed by appended diff libraries, none twice |
| ModelMerges.DiffLibrariesMirrored | geppetto-core/src/ModelFactory.js:254-257 | the library objects the factory builds for the diff model hold the library values of the raw model, one for one |
| ModelMerges.MergeCurrentWorld | geppetto-core/src/ModelFactory.js:413-437 | the current world grows by the populated new variables and the unsynched new static instances, which are reported, and ends wired; the second wiring pass changes nothing |
| ModelMerges.MergeDiffLibraries | geppetto-core/src/ModelFactory.js:256-405 | the model's libraries end as the library-level merge of the diff model's libraries says |
| ModelMerges.MergeWorlds | geppetto-core/src/ModelFactory.js:413-437 | without a current world nothing is reported; with one, every raw world is listed and the first holds what was merged into the current world |
| ModelMerges.MergeModel | geppetto-core/src/ModelFactory.js:242-440 | a raw model the factory refuses fails the same way; on success the libraries, legacy variables and current world are merged as their own specifications say, and the report lists what was added and overridden; no world is added, removed or selected |
| ModelMerges.MergeDiff | geppetto-core/src/ModelFactory.js:256-437 | steps 2 and 3 of the merge once the diff model is built: libraries first, then variables and worlds |
| ModelMerges.MergeVariablesAndWorlds | geppetto-core/src/ModelFactory.js:407-437 | the legacy variables grow by the populated new ones, then the current world is merged; the libraries are untouched |
| Catalogue.Then | geppetto-js/src/ModelUtils.js:132-221 | a throw ends the walk: nothing is pushed after it, otherwise the pushes of the two steps follow one another on both lists |
| Catalogue.NestingLevel | geppetto-js/src/ModelUtils.js:125-127 | the nesting level is the number of `.` characters in the path |
| Catalogue.NestingOfChild | geppetto-js/src/ModelUtils.js:125-127 | a child path `parent.id` is one level deeper than its parent, plus any dots inside the id |
| Catalogue.IncludeMeans | geppetto-js/src/ModelUtils.js:102-119 | a path is indexed exactly when its type is neither a connection nor text, and is not a composite nested deeper than two levels |
| Catalogue.ElementPaths | geppetto-js/src/ModelUtils.js:196-197 | one path per element, `xpath[k]` at position k, for k below the size |
| Catalogue.ElementEntries | geppetto-js/src/ModelUtils.js:196-209 | the k-th element entry has path `xpath[k]` and carries the element type's metaType and path |
| Catalogue.NotSingleTypedThrows | geppetto-js/src/ModelUtils.js:149-154 | a variable whose `getType()` is not one resolved type throws before anything is pushed |
| Catalogue.FirstEntryIsOwn | geppetto-js/src/ModelUtils.js:136-159 | the first pushed entry is the variable's own: the static path, the bare id at top level, or `parent.id` |
| Catalogue.StaticNotRecursed | geppetto-js/src/ModelUtils.js:164-166 | a static variable pushes its single entry and nothing nested |
| Catalogue.ArrayEntries | geppetto-js/src/ModelUtils.js:170-209 | an array pushes its own entry, a `[*]` entry exactly when its size exceeds one, then `xpath[0]` to `xpath[N-1]` in order, typed by the element type |
| Catalogue.IndexingWithinAll | geppetto-js/src/ModelUtils.js:157-162 | every entry on the indexing list was also pushed onto the full list, in the same relative order |
| Catalogue.TraverseThrowPersists | geppetto-js/src/ModelUtils.js:230-241 | once a variable's walk throws, the later variables add nothing |
| Catalogue.EachThrowPersists | geppetto-js/src/ModelUtils.js:233-235 | once the walk under one parent path throws, the later parent paths add nothing |
| Catalogue.PathLists.constructor | geppetto-js/src/Instances.js:548-549 | the two lists start empty |
| Catalogue.PathLists.FetchAllPotentialInstancePaths | geppetto-js/src/ModelUtils.js:132-221 | the lists become their old contents followed by the entries the walk specification emits, and the error is the walk's |
| Catalogue.PathLists.FetchOwn | geppetto-js/src/ModelUtils.js:152-209 | pushes exactly the variable's own, `[*]` and element entries |
| Catalogue.PathLists.PushArrayTail | geppetto-js/src/ModelUtils.js:181-209 | pushes the `[*]` entry when there is more than one element, then the element entries |
| Catalogue.PathLists.PushElements | geppetto-js/src/ModelUtils.js:196-209 | appends every element entry to the full list and those passing the index filter to the indexing list |
| Catalogue.PathLists.PotentialParentPaths | geppetto-js/src/ModelUtils.js:164-212 | the nested variables hang off the `[*]` and element paths of an array, else off the variable's own path |
| Catalogue.PathLists.FetchAllPotentialInstancePathsForType | geppetto-js/src/ModelUtils.js:226-263 | pushes the walk of a composite type's variables, or of an array's composite element type's variables, and nothing for other types |
| Catalogue.PathLists.FetchVariables | geppetto-js/src/ModelUtils.js:230-241 | the variables are walked in order, each once per parent path or once from `''` |
| Catalogue.PathLists.FetchUnderParents | geppetto-js/src/ModelUtils.js:231-240 | one variable is walked under every parent path, or from `''` when there is none |
| Catalogue.PathLists.FetchEach | geppetto-js/src/ModelUtils.js:232-235 | one variable is walked under each parent path in turn, stopping at the first throw |
| Catalogue.Select | geppetto-core/src/Instances.js:345-355 | selection never yields more paths than there are entries |
| Catalogue.SelectMeans | geppetto-core/src/Instances.js:345-355 | a path is selected exactly when some entry with that path passes the filter |
| Catalogue.OfTypeMeans | geppetto-js/src/ModelUtils.js:72-74 | the paths of exactly the entries whose type is the given type path |
| Catalogue.OfTypeConcat | geppetto-js/src/ModelUtils.js:72-74 | filtering keeps list order: the matches of a concatenation are the matches of each part, concatenated |
| Catalogue.GetAllPotentialInstancesOfMetaType | geppetto-js/src/ModelUtils.js:79-93 | the paths, or the whole entries when `includeType` is true, of exactly the entries of the given metaType, in order |
| Catalogue.GraftSound | geppetto-core/src/Instances.js:88-107 | every replacement entry is one partial entry placed under one potential instance |
| Catalogue.GraftComplete | geppetto-core/src/Instances.js:88-107 | every partial entry is placed under every potential instance |
| Catalogue.GraftPaths | geppetto-core/src/Instances.js:92-98 | a replacement path is the partial entry's own when static, else the potential instance path, a `.`, and the partial path |
| Catalogue.ReplaceMeans | geppetto-core/src/Instances.js:135-150 | the replacements come last; an entry is kept exactly when no replacement carries its path, and no entry before the replacements shares a path with one |
| Catalogue.AmendMeans | geppetto-core/src/Instances.js:152-158 | entries of the swapped type take its metaType; every other field and entry is unchanged |
| Catalogue.AmendKeepsLookups | geppetto-core/src/Instances.js:152-158 | amending changes no path or type, so lookups by ending, start or type are unchanged |
| Catalogue.MixedEntries | geppetto-core/src/Instances.js:112-131 | the indexing replacement takes its path from the indexing entry but its metaType and type from the entry at the same index of the full list |
| Catalogue.SwapAsWrittenAlwaysThrows | geppetto-core/src/Instances.js:80 | the swap as written fails on every type before any list changes |
| Catalogue.IndexingAsWrittenMislabels | geppetto-core/src/Instances.js:112-131 | with a connection and a state variable, the indexed state entry is labelled as a connection |
| Catalogue.DedupeAsWrittenDuplicates | geppetto-core/src/Instances.js:135-150 | swapping the same type in twice leaves two entries with one path as written, one with the dedupe |
| Catalogue.MixedAgreesOnPrefix | geppetto-core/src/Instances.js:112-131 | when the indexing list is a prefix of the full list, the as-written labelling is right |
| Catalogue.Catalogue.constructor | geppetto-js/src/model/GeppettoModel.js:25-26 | the catalogue lists start empty |
| Catalogue.Catalogue.GetAllPotentialInstancesEndingWith | geppetto-core/src/Instances.js:345-355 | a path is returned exactly when some catalogue entry has it, it ends with the string and holds no `*` |
| Catalogue.Catalogue.GetAllPotentialInstancesStartingWith | geppetto-core/src/Instances.js:361-371 | a path is returned exactly when some catalogue entry has it, it starts with the string and holds no `*` |
| Catalogue.Catalogue.Install | geppetto-js/src/Instances.js:548-559 | on success all top-level walks are appended to `allPaths` and replace `allPathsIndexing`; a throw leaves both lists |
| Catalogue.Catalogue.SwapType | geppetto-core/src/Instances.js:73-158 | the new type's partial entries are grafted under every potential instance of the type, replace the entries with those paths, and every entry of the type takes its metaType |
| Catalogue.Catalogue.PlaceUnder | geppetto-core/src/Instances.js:86-158 | each list becomes the amended dedupe of its old contents with the grafted entries |
| Catalogue.GraftAll | geppetto-core/src/Instances.js:88-107 | the nested loops build the graft of every partial entry under every potential instance |
| Catalogue.GraftUnder | geppetto-core/src/Instances.js:89-106 | the inner loop places every partial entry under one potential instance |
| Catalogue.Deduplicated | geppetto-core/src/Instances.js:135-150 | the loop computes the dedupe: replaced entries leave and the replacements follow |
| Catalogue.Amended | geppetto-core/src/Instances.js:152-158 | the loop amends every entry of the type in place |
| Nodes.Construct | geppetto-core/src/model/GeppettoModelNode.js:5-15 | the constructor fails with "Parent must be specified" exactly when the parent is absent; `null` makes a root and a node makes a child of it, wrapping the given object |
| Nodes.FindRootIsFirst | geppetto-core/src/model/GeppettoModelNode.js:21-26 | `findRoot` returns the topmost node of the parent chain |
| Nodes.GeppettoModelOf | geppetto-core/src/model/GeppettoModelNode.js:10-13 | every node but the root records the root as its model; the root records none |
| Nodes.PathIsJoinedIds | geppetto-core/src/model/ObjectWrapper.js:71-78 | a path is the ids from the root down to the node, joined by dots |
| Nodes.PathSplitsIntoIds | geppetto-core/src/model/ObjectWrapper.js:71-78 | when no id holds a dot, splitting the path on dots gives back the chain of ids |
| Nodes.TypePath | geppetto-core/src/model/Type.js:126-133 | an anonymous type, whose parent is a variable, takes the variable's path; every other type its own |
| Nodes.InstanceDescriptor | geppetto-core/src/model/InstantiableNode.js:4-12 | the descriptor carries the node's path, its type's metaType and path, and the node's staticness |
| Nodes.CoreShortcutsLastWins | geppetto-core/src/model/GeppettoModelNode.js:76-90 | on a node that is not a variable, an id has a shortcut exactly when some child has it, and the shortcut is the last such child |
| Nodes.ArrayInstanceHasNoShortcuts | geppetto-js/src/ModelUtils.js:362-388 | an array instance receives no shortcuts from the helper |
| Nodes.ShortcutRulesAgree | geppetto-js/src/ModelUtils.js:362-388 | the helper and the node method leave the same shortcuts on every node that is not an array instance and whose variable children are types |
| Nodes.InstallCovers | geppetto-core/src/model/Variable.js:321-330 | every grandchild lifted onto a variable is reachable by its id, and no earlier shortcut is lost |
| Nodes.WalkFollowsChildren | geppetto-core/src/model/GeppettoModelNode.js:76-90 | looking a dotted path up through the shortcuts follows the chain of children when each is the only sibling with its id |
| Nodes.ReachedCount | geppetto-core/src/model/GeppettoModelNode.js:72-74 | the forwarded `populateTypeReferences` call reaches every node below exactly once |
| Nodes.LeafReachesNothing | geppetto-core/src/model/GeppettoModelNode.js:61-63 | a node with the default empty `getChildren` forwards to nobody |
| Walks.Joined | geppetto-core/src/ModelUtils.js:50 | two parts of a walk succeed together with their paths concatenated; the first throw ends the walk |
| Walks.VisualPathsUnder | geppetto-core/src/ModelUtils.js:18-19 | every path found under a parent path extends it by a dot and at least one more segment |
| Walks.VisualPathsOfTypeUnder | geppetto-core/src/ModelUtils.js:22-66 | every path a type of a variable contributes starts with that variable's path |
| Walks.VisualTypeIsVisible | geppetto-core/src/ModelUtils.js:40-41 | a visual or composite-visual type makes exactly its variable's path visible, and nothing nested |
| Walks.VisualTypeOfPlain | geppetto-core/src/ModelUtils.js:24-30 | a plain or composite type makes its variable visible exactly when it has a visual type, its own path coming first |
| Walks.VariableListed | geppetto-core/src/ModelUtils.js:18-70 | a successful walk over a list contains everything the walk of each listed variable finds |
| Walks.TypeListed | geppetto-core/src/ModelUtils.js:21-22 | a successful walk over a variable's types contains what each anonymous type contributes |
| Walks.VisualVariableListed | geppetto-core/src/ModelUtils.js:40-41 | when the walk succeeds, a variable with an anonymous visual type is among the returned paths |
| Walks.FetchVarsWithVisualTypes | geppetto-core/src/ModelUtils.js:12-72 | the method returns exactly the visible paths of the specification, or its throw |
| Walks.VisualPathsFailurePersists | geppetto-core/src/ModelUtils.js:18-70 | once one variable's walk throws, the rest of the list changes nothing |
| Walks.FetchOfVariable | geppetto-core/src/ModelUtils.js:19-67 | the loop over one variable's types returns that variable's visible paths, or its throw |
| Walks.VisualPathsOfTypesFailurePersists | geppetto-core/src/ModelUtils.js:22-67 | once one type of a variable throws, the later types change nothing |
| Walks.FetchOfSlot | geppetto-core/src/ModelUtils.js:24 | a raw or missing type slot throws; a resolved one is walked |
| Walks.FetchOfType | geppetto-core/src/ModelUtils.js:23-66 | one loop iteration returns the type's visible paths, or its throw |
| Walks.AsList | geppetto-core/src/ModelUtils.js:356-358 | a single type to search becomes a list of one; a list stays as it is |
| Walks.NoMetaTypeTakesAll | geppetto-core/src/ModelUtils.js:374-376 | without a metaType, every variable of every composite type is returned, in order, and nothing throws |
| Walks.MatchingMeans | geppetto-core/src/ModelUtils.js:365-373 | with a metaType and no throw, a variable is returned exactly when one of its types has that metaType |
| Walks.MatchingSlotsMeans | geppetto-core/src/ModelUtils.js:368-372 | when the count succeeds every type slot is resolved, and it is positive exactly when some type has the metaType |
| Walks.GetAllVariablesOfMetaType | geppetto-core/src/ModelUtils.js:354-381 | the method returns the specification's variables of the metaType, or its throw |
| Walks.OfMetaTypeFailurePersists | geppetto-core/src/ModelUtils.js:362-378 | once one searched type throws, the later types change nothing |
| Walks.VariablesOfType | geppetto-core/src/ModelUtils.js:366-373 | the loops over the nested variables return the variables with the metaType, or the throw |
| Walks.PushMatching | geppetto-core/src/ModelUtils.js:368-372 | the innermost loop pushes the variable once per type with the metaType |
| Walks.SlotsFailurePersists | geppetto-core/src/ModelUtils.js:368-372 | an unresolved type slot makes the whole count throw |
| Walks.WithMetaTypeFailurePersists | geppetto-core/src/ModelUtils.js:366-373 | once one nested variable throws, the later ones change nothing |
| Walks.GetVariables | geppetto-core/src/ModelUtils.js:243-249 | without worlds the model's own variables; otherwise the first world's variables then the model's, and a first world without variables throws |
| InstanceTree.PreOrderBelow | geppetto-core/src/ModelUtils.js:275-290 | the depth-first search visits only existing instances |
| InstanceTree.FirstAt | geppetto-core/src/ModelUtils.js:275-290 | the position of the first node in the visiting order with the queried raw path, with no earlier node carrying it, or the end when none does |
| InstanceTree.FirstAtConcat | geppetto-core/src/ModelUtils.js:276-287 | searching two parts in turn finds a match in the first part before any in the second |
| InstanceTree.FindStep | geppetto-core/src/ModelUtils.js:279-285 | an instance that does not match has its children searched before its later siblings |
| InstanceTree.FindMatchingInstance | geppetto-core/src/ModelUtils.js:275-290 | `findMatchingInstance` returns the first instance in depth-first pre-order whose raw instance path is the query, or none |
| InstanceTree.FoundMeans | geppetto-core/src/ModelUtils.js:275-290 | a found instance lies in the searched forest and has the queried raw path; nothing is found only when no instance there has it |
| InstanceTree.GetInstanceCount | geppetto-core/src/ModelFactory.js:1320-1330 | the count is the number of instances in the forest, children included |
| InstanceTree.SameShapeRawPath | geppetto-core/src/ModelUtils.js:329-342 | adding capabilities changes no raw instance path |
| InstanceTree.AddCapability | geppetto-core/src/ModelUtils.js:335 | extending one instance appends the capability to its list, keeps the tree's shape and changes no other instance |
| InstanceTree.Propagated | geppetto-core/src/ModelUtils.js:329-342 | propagating keeps the tree's shape, only adds capabilities, and leaves the capability on the parent it starts from |
| InstanceTree.PropagationCloses | geppetto-core/src/ModelUtils.js:329-342 | after propagating from a newly tagged instance's parent, every holder of the capability has a parent holding it |
| InstanceTree.MetaCapability | geppetto-core/src/InstanceFactory.js:407-423 | a connection, state variable, derived state variable or parameter type brings exactly its own capability, any other metaType none |
| InstanceTree.PlainTagging | geppetto-core/src/InstanceFactory.js:381-423 | a plain instance gets the visual capability exactly when it has a visual type, particles exactly for a single particles visual type, groups for a single visual type with groups, and the metaType capability; it throws only for a list of visual types or a list-valued type |
| InstanceTree.VisualPlainInstanceThrows | geppetto-core/src/InstanceFactory.js:391 | as written every plain instance with a single visual type throws a TypeError; the intended tagging propagates without a throw |
| InstanceTree.ElementTagging | geppetto-core/src/InstanceFactory.js:310-346 | an element instance gets and propagates the visual capability exactly when it has a visual type, never particles, and throws "not implemented" exactly for more than one visual type |
| Wildcards.FirstOccurrence | geppetto-core/src/Instances.js:176 | the first position at which `[*]` occurs, with no earlier occurrence |
| Wildcards.Elements | geppetto-core/src/Instances.js:185-187 | one path per element, `prefix[x]suffix` at position x, for x from 0 below the size, and nothing for a size of zero or less |
| Wildcards.Explode | geppetto-core/src/Instances.js:177-187 | a `[*]` path stands for as many paths as its array has elements |
| Wildcards.PrefixLacksWildcard | geppetto-core/src/Instances.js:177 | the array path before the first `[*]` holds no `[*]` |
| Wildcards.ElementLacksWildcard | geppetto-core/src/Instances.js:186 | a numeric index in brackets never forms a `[*]` with the text around it |
| Wildcards.ExplodedLackWildcards | geppetto-core/src/Instances.js:177-187 | the paths a single-`[*]` path stands for carry no `[*]` |
| Wildcards.ExpandedFree | geppetto-core/src/Instances.js:175-189 | after a successful expansion no path carries `[*]`, and every plain entry is still there |
| Wildcards.ExpandedPlain | geppetto-core/src/Instances.js:175-189 | a list without `[*]` entries comes back unchanged |
| Wildcards.ExplodedFailurePersists | geppetto-core/src/Instances.js:179-180 | an array lookup that throws ends the expansion with that throw |
| Wildcards.ExpandWildcards | geppetto-core/src/Instances.js:175-189 | the corrected loop returns the expansion: plain entries in order, then the explosion of each `[*]` entry in entry order, or the first lookup's throw |
| Wildcards.WildcardBrackets | geppetto-core/src/Instances.js:177-178 | a `[*]` path holds both a `[` and a `]`, so the as-written cuts exist |
| Wildcards.PlainArrayWildcard | geppetto-core/src/Instances.js:177-178 | for `id[*]` with a bracket-free id, cutting at the first `[` and `]` gives the same explosion as cutting around `[*]` |
| Wildcards.AsWrittenSplice | geppetto-core/src/Instances.js:182-188 | one as-written step at a `[*]` entry splices it out, appends its explosion and moves to the next position |
| Wildcards.AsWrittenKeepsPassed | geppetto-core/src/Instances.js:175-189 | as written, a position the loop has passed never changes again |
| Wildcards.AsWrittenSkipsPlain | geppetto-core/src/Instances.js:175-189 | as written, plain entries from the position on are stepped over and the list returns unchanged |
| Wildcards.ExpandedOne | geppetto-core/src/Instances.js:175-189 | a single `[*]` entry is replaced by its explosion |
| Wildcards.ExpandedTwo | geppetto-core/src/Instances.js:175-189 | two `[*]` entries are replaced by their explosions, in entry order |
| Wildcards.SecondWildcardAsWritten | geppetto-core/src/Instances.js:183-188 | as written, with two `[*]` entries the second slides into position 0 while the loop moves to position 1 |
| Wildcards.SecondWildcardSkipped | geppetto-core/src/Instances.js:175-189 | as written, every list the loop ends with still holds the second `[*]` entry |
| Wildcards.SecondWildcardEnds | geppetto-core/src/Instances.js:175-189 | as written, the loop ends with the second `[*]` entry unexpanded, followed by the first one's elements |
| Wildcards.SecondWildcardExpanded | geppetto-core/src/Instances.js:175-189 | corrected, both entries are replaced by their elements, in order |
| Wildcards.NestedParts | geppetto-core/src/Instances.js:177-178 | for `x[d]y[*]`, the as-written cuts take `x` as the array and `y[*]` as the rest, where the array is `x[d]y` |
| Wildcards.ReproducedStays | geppetto-core/src/Instances.js:175-189 | as written, a `[*]` path whose explosion starts with itself stays in every list the loop ends with |
| Wildcards.NestedWildcardReproduced | geppetto-core/src/Instances.js:177-186 | as written, element `i` of the explosion of `x[i]y[*]` is that path itself |
| Wildcards.NestedWildcardStays | geppetto-core/src/Instances.js:175-189 | as written, `x[0]y[*]` survives every run of the loop that ends |
| Wildcards.NestedWildcardExpanded | geppetto-core/src/Instances.js:175-189 | corrected, `x[i]y[*]` becomes the elements of the array `x[i]y` |
| PointerChains.DropFirstSegment | geppetto-core/src/ModelFactory.js:822-828 | the rebuilt path is the remaining segments after the first, joined by dots |
| PointerChains.BuildPointerElementsChain | geppetto-core/src/ModelFactory.js:804-839 | appends to the accumulator exactly the elements the chain specification pushes from the given instance on the split path |
| PointerChains.BuildUnderChildren | geppetto-core/src/ModelFactory.js:831-836 | the recursion over the children appends the chains of each child in order |
| PointerChains.ChainAllPruned | geppetto-core/src/ModelFactory.js:807-838 | children whose ids all differ from the segment push nothing |
| PointerChains.ChainAllUnique | geppetto-core/src/ModelFactory.js:831-836 | when the children's ids are distinct, the walk over them is the walk from the one that matches |
| PointerChains.ChainFollowsPath | geppetto-core/src/ModelFactory.js:804-839 | walking the ids of a downward path yields one element per node of the path, in order, reusing the original element where its variable has the node's id |
| PointerChains.RawPathAlong | geppetto-core/src/ModelFactory.js:787 | the raw instance path of a node reached from a top-level instance joins the ids along the way |
| PointerChains.AugmentedChain | geppetto-core/src/ModelFactory.js:773-790 | the chain built from the matching instance's raw path, starting at its top-level ancestor, holds one element per instance down to it, in order |
| IdPaths.ArrayIdOf | geppetto-core/src/InstanceFactory.js:184 | the array id is the part of the segment before its first `[`: a prefix without `[`, the whole segment when there is none |
| IdPaths.IdsOfIdConcatPath | geppetto-core/src/InstanceFactory.js:176-192 | the ids of the rewritten path are the segments of the path, each segment with array syntax preceded by its array id |
| IdPaths.PiecesWithoutBrackets | geppetto-core/src/InstanceFactory.js:182-189 | a path without array syntax is built as it is |
| IdPaths.ElementSegmentPiece | geppetto-core/src/InstanceFactory.js:177 | a segment `id[k]` stands for the array `id` followed by its element `id[k]` |
| IdPaths.RewriteAt | geppetto-core/src/InstanceFactory.js:182-189 | one segment of the split path is rewritten in place and every other one is left alone |
| IdPaths.IdConcatPathOf | geppetto-core/src/InstanceFactory.js:179-192 | the loop builds the rewritten path: the rewritten segments joined by dots |
| InstanceLookup.SegmentAccesses | geppetto-core/src/Instances.js:194 | a segment that parses is exactly the text of its accesses and starts with a property name |
| InstanceLookup.AccessesOf | geppetto-core/src/Instances.js:194 | a path parses exactly when each segment does, and its accesses start with a property name |
| InstanceLookup.ChildWithId | geppetto-core/src/model/GeppettoModelNode.js:76-90 | the child shortcut for a name is a child with that id, and it is missing only when no child has it |
| InstanceLookup.ElementSlot | geppetto-core/src/InstanceFactory.js:348-349 | index `k` of an array instance is its element with index `k`, missing only when there is none |
| InstanceLookup.SegmentOfElement | geppetto-core/src/Instances.js:194 | an element id segment `id[k]` reads back as the property `id` and the index `k` |
| InstanceLookup.WalkFindsNothingBelow | geppetto-core/src/Instances.js:194 | nothing is found below `undefined` or below a static instance |
| InstanceLookup.WalkRawPath | geppetto-core/src/Instances.js:194 | a walk from an instance ends at the instance whose raw path extends the start's by the ids the accesses name |
| InstanceLookup.SegmentTrail | geppetto-core/src/InstanceFactory.js:182-189 | the ids one segment reaches are those of its rewrite |
| InstanceLookup.TrailOfSegments | geppetto-core/src/InstanceFactory.js:179-192 | the ids a path's segments reach are those of the rewritten path |
| InstanceLookup.EvalRawPath | geppetto-core/src/Instances.js:194 | an instance a path evaluates to is the one whose raw path is the path's rewrite (`a.b[0].v` finds the instance at `a.b.b[0].v`) |
| InstanceBuild.FirstWithId | geppetto-core/src/InstanceFactory.js:220-227 | the first of the model's variables with the id, and none exactly when no variable has it |
| InstanceBuild.ScopeTypes | geppetto-core/src/InstanceFactory.js:229-234 | a variable's types, extended by the element type exactly when its only type is an array type |
| InstanceBuild.VariableInTypes | geppetto-core/src/InstanceFactory.js:237-253 | a variable found has the id and belongs to a composite type among the slots; none is found only when no composite type has one; types that are not composite are never searched |
| InstanceBuild.FindVariable | geppetto-core/src/InstanceFactory.js:217-260 | in the model scope the first variable with the id; under a variable, one of its types' variables with the id, or the array variable itself under an array instance; none only outside arrays |
| InstanceBuild.ArraySizeIn | geppetto-core/src/InstanceFactory.js:265-272 | the size of the first array type among the variable's types, none exactly when no type is an array |
| InstanceBuild.GrowsTrans | geppetto-core/src/InstanceFactory.js:212-453 | growing the tree twice is growing it |
| InstanceBuild.GrowsRawPath | geppetto-core/src/InstanceFactory.js:212-453 | instances that existed keep their raw instance path while the tree grows |
| InstanceBuild.AddNode | geppetto-core/src/InstanceFactory.js:294 | a new instance is a new leaf at the end; nothing existing changes |
| InstanceBuild.Attach | geppetto-core/src/InstanceFactory.js:425-430 | `addChild` on the parent, or a push onto the top-level list when there is none; nothing else changes |
| InstanceBuild.PropagatedLeaves | geppetto-core/src/ModelUtils.js:329-342 | propagation reaches only ancestors, never a node created after the one propagated from |
| InstanceBuild.Tagged | geppetto-core/src/InstanceFactory.js:381-423 | tagging appends the capabilities to the instance, keeps the tree's shape, and changes other instances only by propagation |
| InstanceBuild.PlainCreated | geppetto-core/src/InstanceFactory.js:367-431 | a new plain instance of the variable, with the tagging's capabilities, attached under its parent or at the top unless the tagging threw |
| InstanceBuild.ElementCreated | geppetto-core/src/InstanceFactory.js:297-352 | element `k` takes id and name `id[k]`, is tagged, and is stored in the array instance unless the tagging threw |
| InstanceBuild.RangeAt | geppetto-core/src/InstanceFactory.js:297 | the k-th index of the range is its start plus k |
| InstanceBuild.ElementsFrom | geppetto-core/src/InstanceFactory.js:297-357 | the element loop adds one instance per remaining element, unless an element throws |
| InstanceBuild.ArrayCreated | geppetto-core/src/InstanceFactory.js:281-365 | an array instance recording its size, with one element per index below the size, attached only after all elements were created |
| InstanceBuild.Build | geppetto-core/src/InstanceFactory.js:212-453 | the builder only grows the tree |
| InstanceBuild.Located | geppetto-core/src/InstanceFactory.js:274-431 | once the variable is known the builder only grows the tree |
| InstanceBuild.ArrayBuilt | geppetto-core/src/InstanceFactory.js:447-452 | building under every new element only grows the tree |
| InstanceBuild.PlainBuilt | geppetto-core/src/InstanceFactory.js:443-445 | building under the new instance only grows the tree |
| InstanceBuild.BuildEach | geppetto-core/src/InstanceFactory.js:448-452 | building under each element in turn only grows the tree |
| InstanceBuild.BuildAll | geppetto-core/src/InstanceFactory.js:174-194 | building a list of paths in turn only grows the tree |
| InstanceBuild.ListedInPreOrder | geppetto-core/src/ModelUtils.js:275-290 | every listed instance is visited by the search |
| InstanceBuild.PresentAtTop | geppetto-core/src/InstanceFactory.js:275-276 | a top-level instance with the id is found by the search for the id |
| InstanceBuild.ReusedAtTop | geppetto-core/src/InstanceFactory.js:278-280 | a one-id path whose instance already exists at the top leaves the tree as it is |
| InstanceBuild.MissingCreatesNothing | geppetto-core/src/InstanceFactory.js:263 | a variable the lookup does not find creates nothing and throws nothing |
| InstanceBuild.StaticCreatesNothing | geppetto-core/src/InstanceFactory.js:367-368 | a static variable without an array type and without an instance yet creates nothing and throws nothing |
| InstanceBuild.BuildTwiceAtTop | geppetto-core/src/InstanceFactory.js:274-280 | building a one-id path from the top a second time adds nothing |
| InstanceBuild.GrowsNames | geppetto-core/src/InstanceFactory.js:300-301 | growing the tree keeps every element named after its array |
| InstanceBuild.BuildNames | geppetto-core/src/InstanceFactory.js:300-301 | whatever the builder leaves behind, element `k` of an array instance `id` is still named `id[k]` |
| InstanceBuild.BuildAllNames | geppetto-core/src/InstanceFactory.js:174-194 | building a list of paths keeps every element named after its array |
| InstanceStore.StaticEntries | geppetto-core/src/Instances.js:39 | the world's static instances become entries of the list, one per instance and in order, none of them a tree node |
| InstanceStore.RegisteredLastWins | geppetto-core/src/InstanceFactory.js:197-203 | after registration an id has a shortcut exactly when it had one or some entry carries it; the shortcut leads to the last entry with that id; ids no entry carries keep their old shortcut |
| InstanceStore.FirstVariableWithId | geppetto-core/src/InstanceFactory.js:220-227 | the loop returns the first variable with the id, or none |
| InstanceStore.VariableAmongTypes | geppetto-core/src/InstanceFactory.js:237-253 | the loop over the types returns the variable the search over composite types specifies, stopping at the first type that has one |
| InstanceStore.FindVariableFor | geppetto-core/src/InstanceFactory.js:217-260 | STEP 1 returns the variable specified for the scope: the model's, a type's, or the array variable itself under an array instance |
| InstanceStore.ArraySizeOf | geppetto-core/src/InstanceFactory.js:265-272 | the loop returns the size of the first array type among the variable's types |
| InstanceStore.ExtendedList | geppetto-core/src/InstanceFactory.js:425-430 | a list the builder extended is the old list followed by the new top-level instances, in order |
| InstanceStore.Added | geppetto-core/src/InstanceFactory.js:172-207 | adding paths keeps the list sound and only appends to it; on success the shortcuts are the old ones with every entry registered; on a throw no shortcut changes |
| InstanceStore.AddedLinked | geppetto-core/src/InstanceFactory.js:172-207 | adding paths keeps each shortcut to a node on a top-level node with that id and each element named after its array; existing instances keep their id, kind and parent |
| InstanceStore.RegisteredNamed | geppetto-core/src/InstanceFactory.js:197-203 | registering the entries keeps every shortcut to a node on a top-level node with that id |
| InstanceStore.ParentOf | geppetto-core/src/Instances.js:258 | the parent of an entry is an instance of the tree; a static instance has none |
| InstanceStore.FirstWithPath | geppetto-core/src/Instances.js:243-255 | the position of the first entry with the path, with no earlier entry carrying it, or the end when none does |
| InstanceStore.MatchingIndex | geppetto-core/src/Instances.js:244-250 | the search returns the first index whose entry has the path, and none only when no entry has it |
| InstanceStore.Deleted | geppetto-core/src/Instances.js:241-272 | deleting an instance keeps the list and the tree sound |
| InstanceStore.DeletedFromList | geppetto-core/src/Instances.js:259-266 | deleting an instance without a parent removes the first entry of the list with its path and keeps the others in order; the list loses one entry when the instance is in it; with no match nothing changes; the tree and the shortcuts stay as they are |
| InstanceStore.DeletedUnderParent | geppetto-core/src/Instances.js:267-272 | deleting an instance under a parent changes only that parent's children: no other instance, the list or a shortcut changes |
| InstanceStore.DeletedFromChildren | geppetto-core/src/Instances.js:267-272 | deleting an instance under a parent removes the parent's first child with its path and keeps the other children in order, and with no match nothing changes |
| InstanceStore.DeletedChildItself | geppetto-core/src/Instances.js:267-272 | an instance among its parent's children always finds itself, so the parent loses exactly one child |
| InstanceStore.DeletedLinked | geppetto-core/src/Instances.js:241-272 | a deletion keeps every shortcut on a top-level node with its id and every element named after its array; no instance changes id, kind or parent |
| InstanceStore.DeleteTypedThrowsAsWritten | geppetto-core/src/Instances.js:274-277 | as written, deleting a typed instance removes it and then throws a TypeError, because `Instances` has no `unresolveType` |
| InstanceStore.Holes | geppetto-core/src/Instances.js:215 | the positions skipped by a store past the end all read as undefined |
| InstanceStore.StoredAt | geppetto-core/src/Instances.js:215 | `instances[i] = x` puts `x` at `i`, keeps every other position, and grows the list to `i + 1` with undefined holes when `i` is past the end |
| InstanceStore.Retried | geppetto-core/src/Instances.js:210-221 | the `catch` of a path leaves the list sound |
| InstanceStore.Rebuilt | geppetto-core/src/Instances.js:204-208 | building a path again inside the `try` leaves the list sound |
| InstanceStore.Fetched | geppetto-core/src/Instances.js:193-221 | one path of `getInstance`, with `override` deleting the instance found before building it again, leaves the list sound |
| InstanceStore.OverrideKeepsInstanceAsWritten | geppetto-core/src/Instances.js:196-199 | as written `override` never deletes: with `create` the list ends as plain re-adding leaves it, and without `create` nothing is collected and nothing changes |
| InstanceStore.Fetches | geppetto-core/src/Instances.js:192-222 | fetching the paths in turn leaves the list sound |
| InstanceStore.SizeAt | geppetto-core/src/Instances.js:179-180 | a size is read only off an array instance the path evaluates to, and it is that instance's size |
| InstanceStore.GotInstance | geppetto-core/src/Instances.js:160-234 | `getInstance` leaves the list sound |
| InstanceStore.FoundThenThrowsAsWritten | geppetto-core/src/Instances.js:223-227 | as written, once the model has a connection variable, a `getInstance` that returns some instance throws a TypeError (from `this.createPointer`) after building |
| InstanceStore.EvalNames | geppetto-core/src/Instances.js:194 | what a requested path evaluates to on a linked list is the instance whose raw path is one of the requested paths, rewritten |
| InstanceStore.RetriedNames | geppetto-core/src/Instances.js:210-221 | the `catch` keeps the list linked and the ids of existing instances, and collects only instances of the requested paths |
| InstanceStore.RebuiltNames | geppetto-core/src/Instances.js:196-208 | building a path again keeps the list linked and the ids of existing instances, and collects only instances of the requested paths |
| InstanceStore.FetchedNames | geppetto-core/src/Instances.js:193-221 | one path keeps the list linked and the ids of existing instances, and collects only instances of the requested paths |
| InstanceStore.FetchesNames | geppetto-core/src/Instances.js:192-222 | the loop over the paths keeps the list linked and the ids of existing instances, and collects only instances of the requested paths |
| InstanceStore.GotInstanceNames | geppetto-core/src/Instances.js:160-234 | `getInstance` keeps the list linked and every existing instance's id, kind and parent; every instance it returns is the node of one of the expanded paths |
| InstanceStore.GotInstanceShape | geppetto-core/src/Instances.js:228-233 | a single instance is returned exactly when one path was asked for and one instance collected; otherwise a list |
| InstanceStore.CreatedAtTop | geppetto-core/src/Instances.js:160-234 | asking for a plain top-level variable that has no instance yet creates one: a new node of that variable with no parent, appended to the list and returned alone, provided tagging it does not throw |
| InstanceStore.ExistingInstance | geppetto-core/src/Instances.js:195-202 | a single path naming an existing instance, without `override`, returns that instance and changes nothing |
| InstanceStore.NothingWithoutCreate | geppetto-core/src/Instances.js:203-209 | without `create`, a path naming nothing builds nothing and collects nothing |
| InstanceStore.Constructed | geppetto-core/src/Instances.js:32-49 | the list a model starts with is sound |
| InstanceStore.ConstructedFrom | geppetto-core/src/InstanceFactory.js:515-547 | the list built from the paths of the variables with visual types is sound |
| InstanceStore.ConstructedLinked | geppetto-core/src/Instances.js:32-49 | the starting list holds the world's static instances in order and then only tree nodes; it is linked; every entry's id has a shortcut, and every shortcut leads to an entry of the list with that id |
| InstanceStore.NewInstances | geppetto-core/src/Instances.js:32-49 | the constructor throws exactly when the specified construction fails, with its error, and otherwise holds exactly the specified list, tree and shortcuts |
| InstanceStore.Instances.Empty | geppetto-core/src/Instances.js:32-34 | a new list over a model is empty, with no tree and no shortcut |
| InstanceStore.Instances.PropagateCapabilityToParents | geppetto-core/src/ModelUtils.js:329-342 | the tree becomes the propagated one; the list and the shortcuts do not change |
| InstanceStore.Instances.Tag | geppetto-core/src/InstanceFactory.js:381-423 | the tree becomes the tagged one; the list and the shortcuts do not change |
| InstanceStore.Instances.AttachTo | geppetto-core/src/InstanceFactory.js:425-430 | the instance is attached as specified; without a parent the list only grows at its end, with one the list stays as it is |
| InstanceStore.Instances.AddLeaf | geppetto-core/src/InstanceFactory.js:294 | a new instance joins the tree as specified; the list and the shortcuts do not change |
| InstanceStore.Instances.CreatePlainInstance | geppetto-core/src/InstanceFactory.js:367-431 | the tree and the throw are those specified for a new plain instance; the list only grows at its end |
| InstanceStore.Instances.CreateElementInstance | geppetto-core/src/InstanceFactory.js:297-352 | the tree and the throw are those specified for element `k` |
| InstanceStore.Instances.ExplodeElements | geppetto-core/src/InstanceFactory.js:297-357 | the element loop leaves the tree and throw specified; without a throw the array's children are its `size` new elements, element `k` named `id[k]` |
| InstanceStore.Instances.CreateArrayInstance | geppetto-core/src/InstanceFactory.js:281-365 | the array branch leaves the tree and throw specified; without a throw the array holds exactly its elements, in order |
| InstanceStore.Instances.BuildInstanceHierarchy | geppetto-core/src/InstanceFactory.js:212-453 | the recursive builder leaves exactly the tree and throw the builder's specification gives for the path's ids; the list only grows at its end |
| InstanceStore.Instances.BuildFound | geppetto-core/src/InstanceFactory.js:274-431 | STEP 2 and 3 once the variable is known leave the tree and throw specified |
| InstanceStore.Instances.BuildArray | geppetto-core/src/InstanceFactory.js:447-452 | a new array instance with the rest of the path built under each element, as specified |
| InstanceStore.Instances.BuildPlain | geppetto-core/src/InstanceFactory.js:443-445 | a new plain instance with the rest of the path built under it, as specified |
| InstanceStore.Instances.BuildUnderEach | geppetto-core/src/InstanceFactory.js:448-452 | the loop over the elements leaves the tree and throw specified |
| InstanceStore.Instances.BuildEveryPath | geppetto-core/src/InstanceFactory.js:536-538 | building the paths in turn leaves the tree and throw specified; the first throw ends the loop |
| InstanceStore.Instances.BuildRewrittenPaths | geppetto-core/src/InstanceFactory.js:174-194 | each path, rewritten to its raw id concatenation, is built in turn, as specified |
| InstanceStore.Instances.RegisterTopInstances | geppetto-core/src/InstanceFactory.js:197-203 | the shortcuts become the old ones with every entry registered in order; tree and list do not change |
| InstanceStore.Instances.AddInstancesFromPaths | geppetto-core/src/Instances.js:52-59 | the list, tree, shortcuts and throw are those specified for adding the paths |
| InstanceStore.Instances.AddInstances | geppetto-core/src/Instances.js:61-64 | the instances are pushed onto the end of the list; the tree and the shortcuts do not change |
| InstanceStore.Instances.DeleteInstance | geppetto-core/src/Instances.js:241-272 | the list, tree and shortcuts become those specified for the deletion |
| InstanceStore.Instances.RemoveFromList | geppetto-core/src/Instances.js:243-264 | the first entry of the list with the path, if any, leaves the list; the tree and the shortcuts stay, and the store stays sound |
| InstanceStore.Instances.RemoveFromChildren | geppetto-core/src/Instances.js:243-269 | the first child of the parent with the path, if any, leaves its children; every other node, the list and the shortcuts stay, and the store stays sound |
| InstanceStore.Instances.Retry | geppetto-core/src/Instances.js:210-221 | the `catch` leaves the list, the instances collected and the throw specified |
| InstanceStore.Instances.Rebuild | geppetto-core/src/Instances.js:204-208 | the rebuild leaves the list, the instances collected and the throw specified |
| InstanceStore.Instances.FetchPath | geppetto-core/src/Instances.js:193-221 | one path leaves the list, the instances collected and the throw specified |
| InstanceStore.Instances.GetInstance | geppetto-core/src/Instances.js:160-234 | `getInstance` leaves the list and returns or throws what its specification gives |
| InstanceStore.Instances.PlaceInstances | geppetto-core/src/Instances.js:39-48 | the static instances come before the instances built, and every entry then has its shortcut registered |
| InstanceCapabilities.ShapeTrans | geppetto-core/src/ModelFactory.js:628-686 | two successive capability updates together still change only capabilities, and only by adding |
| InstanceCapabilities.VisualUpdated | geppetto-core/src/ModelFactory.js:631-654 | the visual block changes no instance but by adding capabilities: the tree, the ids, the names and the types stay as they were |
| InstanceCapabilities.MetaUpdated | geppetto-core/src/ModelFactory.js:656-680 | the metaType checks change no instance but by adding capabilities, and a type without a single metaType throws |
| InstanceCapabilities.NodeUpdated | geppetto-core/src/ModelFactory.js:629-680 | updating one instance changes nothing but capabilities, and only adds them |
| InstanceCapabilities.Capped | geppetto-core/src/ModelFactory.js:628-686 | the whole pass, thrown or not, leaves the tree's shape as it was and only adds capabilities |
| InstanceCapabilities.Subtree | geppetto-core/src/ModelFactory.js:629-684 | one iteration of the loop, the instance and then the pass over its children, changes nothing but capabilities and only adds them |
| InstanceCapabilities.CappedBySubtree | geppetto-core/src/ModelFactory.js:628-686 | the pass over a list is the first iteration followed, unless it threw, by the pass over the remaining instances on the updated tree |
| InstanceStore.Instances.UpdateSubtreeCapabilities | geppetto-core/src/ModelFactory.js:629-684 | one iteration in place updates the instance and then runs the pass on its children, ending with exactly the nodes and the thrown message of the specified iteration |
| InstanceCapabilities.DoneKept | geppetto-core/src/ModelFactory.js:628-686 | an instance that has every capability its types call for keeps them under any later update |
| InstanceCapabilities.PreOrderSameShape | geppetto-core/src/ModelFactory.js:683 | the instances the recursion reaches are the same before and after a pass, since a pass does not change the tree |
| InstanceCapabilities.NodeUpdatedDone | geppetto-core/src/ModelFactory.js:629-680 | when updating an instance does not throw, the instance afterwards has the visual capability if its type is visual and the capability of its metaType |
| InstanceCapabilities.CappedCons | geppetto-core/src/ModelFactory.js:628-686 | one step of the pass: the first instance is updated, then its children, then the remaining instances, each on the trees the previous step left |
| InstanceCapabilities.CappedDone | geppetto-core/src/ModelFactory.js:628-686 | after a pass that does not throw, every instance it reached, the given ones and all their descendants, carries every capability its types call for |
| InstanceCapabilities.CappedDoneCons | geppetto-core/src/ModelFactory.js:629-684 | after one iteration and the rest of the pass succeed, the first instance, everything below it and everything the rest reaches carry their capabilities |
| InstanceCapabilities.SubtreeDone | geppetto-core/src/ModelFactory.js:629-684 | an iteration that does not throw leaves its instance and every instance below it with every capability their types call for |
| InstanceCapabilities.AllDoneKept | geppetto-core/src/ModelFactory.js:628-686 | instances that have their capabilities keep them through any later part of the pass, which only adds capabilities |
| InstanceCapabilities.NodeDoneUnchanged | geppetto-core/src/ModelFactory.js:634-680 | an instance that already has what its types call for is left exactly as it is, since each capability is added only when missing |
| InstanceCapabilities.DoneUnchanged | geppetto-core/src/ModelFactory.js:628-686 | a pass over instances that all have their capabilities changes nothing and throws nothing |
| InstanceCapabilities.CappedIdempotent | geppetto-core/src/ModelFactory.js:628-686 | running the pass a second time over the instances a successful pass produced changes nothing and throws nothing |
| InstanceCapabilities.AddOtherKeepsClosed | geppetto-core/src/ModelFactory.js:647-677 | adding a capability other than the visual one keeps every ancestor of a visual instance visual |
| InstanceCapabilities.AddVisualClosedBut | geppetto-core/src/ModelFactory.js:636-637 | after the visual capability is added to one instance, only that instance's ancestors can lack it, which the propagation then adds |
| InstanceCapabilities.NodeUpdatedClosed | geppetto-core/src/ModelFactory.js:629-680 | updating one instance keeps the rule that every ancestor of an instance with the visual capability has it too |
| InstanceCapabilities.CappedClosed | geppetto-core/src/ModelFactory.js:628-686 | the whole pass keeps the rule that every ancestor of a visual instance is visual, even when it throws part way |
| InstanceStore.Instances.UpdateNodeCapabilities | geppetto-core/src/ModelFactory.js:629-680 | the update of one instance in place makes the nodes and the thrown message exactly those of the specified instance update, and the list and the shortcuts stay as they were |
| InstanceStore.Instances.UpdateInstancesCapabilities | geppetto-core/src/ModelFactory.js:628-686 | the loop with its recursion over the children changes the nodes in place to the result of the specified pass, ends with its thrown message, and keeps the store sound |

## Left out

- User-interface capabilities (`AVisualCapability`, `AStateVariableCapability`, `AParticlesCapability`) are left out: they call the scene controller and remote services. Capabilities are modelled as ids in a list.
- `Datasource.js`, `Utility.js`, the `window[...]` globals of `deleteInstance` and console warnings are left out: they are remote calls, DOM helpers and foreign side effects.
- Tag-creation callbacks and the `instanceDeleted` notification are left out: they are foreign side effects.
- `eval` look-ups are replaced by explicit walks over the child shortcut maps, so code that `eval` could run beyond a path look-up is not modelled.
- `mergeValue` (geppetto-core/src/ModelFactory.js:537-625) is left out: it indexes the first library, type and variable unconditionally and is an unfinished placeholder.
- `fetchAllInstantiableVariables`, `findMatchingInstanceByID`, `findMatchingInstancesByType`/`ByVariable` and `unresolveType` in the core `ModelUtils.js` and `ModelFactory.js` are left out: they are broken. The working `geppetto-js` catalogue builder is modelled instead.
- `updateCapabilities` (geppetto-core/src/ModelFactory.js:693-724) is left out. It is reached only from `mergeModel`'s override path and from `unresolveType`, and both throw before reaching it. It also calls `this.getAllInstancesOf`, which `ModelFactory` does not have.
- `createQueries` is left out: it calls the instance method `createQuery` from a static context, so queries are kept as ids.
- In `updateInstancesCapabilities`, `setVisualGroups` and `resolveConnectionValues` are left out. Instances keep no visual groups in this model, and `Instance.js` is not part of this model.
- `Instance.js`, `ArrayInstance.js` and the other instance classes are not part of this model. An instance is a node of the arena: its id, name, kind, variable, parent, children and capabilities.
- `Resources.js` is not part of this model. Its metaType and capability ids are modelled as distinct named strings, and only their distinctness is used.
- `populateConnections` on instances and `populateChildrenShortcuts(model)` as called from the model factory are left out: they reach the instance classes. Child shortcuts are modelled in the tree itself.
- Aliasing is not modelled. This covers the caller's `instancePath` array in `getInstance` and the catalogue entries shared between the two catalogue lists.
- In-place updates of the instance tree are modelled on an arena of values held by the `Instances` class, so identity of instance objects is not modelled.
- The top-level `this[id]` shortcut of `Instances` survives `deleteInstance` in the source. The model keeps it as well, so a later look-up by that id can still reach the deleted instance.
- When several children share an id, the child shortcut leads to the last one, as the source's assignment order gives. No uniqueness of ids is assumed.
- Static instances have no parent and no types in the tree: the world's static instances are list entries, not tree nodes.
- The inner `getInstance(arrayPath)` call made during `[*]` expansion (geppetto-core/src/Instances.js:179) is modelled as a pure look-up in the list as it was when the expansion started; in the source it runs with `create` true, so it can build the array instance and change the list.
- A hole in an array read by index reads as absent (`undefined`).
- `updateConnectionInstances` is modelled by its corrected form, which changes nothing, because its pointer creation cannot run. The parent look-up it would perform is not modelled.
- Nested `[*]` paths are excluded from the corrected expansion by a precondition (a single wildcard per path). The as-written loop is modelled separately for them.
- The as-written expansion loop (`Wildcards.ExpandAsWritten`) runs on a `fuel` bound, because with a nested `[*]` path it keeps pushing new `[*]` entries and need not end. Its termination is therefore not modelled.
- The `geppetto-js/src/Instances.js` copy of the instance builder and `Instances` object is modelled by the core copy, except that it adds the Particles capability. Its remaining differences are left out: it calls `this.instanceFactory`, which is never set (lines 607 and 678); it calls `this.resolveConnectionValues`; and it tests `explodedInstance !== null || undefined`.
- Floating-point and numeric values of the model (initial values, array values) are kept as opaque raw values.
- InstanceBuild.Build: states only that the tree grows, not the shape of the instances built. The names, paths and reuse are stated by its separate lemmas.
- InstanceBuild.Located: states only that the tree grows once the variable is found.
- InstanceBuild.ArrayBuilt: states only that the tree grows under the new elements.
- InstanceBuild.PlainBuilt: states only that the tree grows under the new instance.
- InstanceBuild.BuildEach: states only that the tree grows as each element is built.
- InstanceBuild.BuildAll: states only that the tree grows as each path is built.
- The nested `populateTypeReferences` of each resolved type's own variables (geppetto-core/src/model/Variable.js:278-282) is not modelled: resolving is a pure look-up here, and the shared type objects are not changed through it. What this leaves out: a type reached from several variables gets its capabilities added again, a second populate of a type whose anonymous visual type is already resolved throws, and a composite type that holds a variable of its own type recurses without end.
- Populate.PopulateVariable: does not run the nested populate of the resolved types' variables (Variable.js:278-282), so its result says nothing about those types' own variables. It models the intended pointer and connection steps; as written both throw (Populate.PointerVariableThrowsAsWritten, Populate.ConnectionVariableThrowsAsWritten).
- Populate.PopulateVariableOwnPart: does not run the nested populate of the resolved types' variables (Variable.js:278-282). It models the intended pointer and connection steps; as written both throw (Populate.PointerVariableThrowsAsWritten, Populate.ConnectionVariableThrowsAsWritten).
- Populate.PopulateType: the variables it populates do not populate their resolved types again (Variable.js:278-282), so repeated capabilities and the endless recursion of a self-typed composite are not captured. Its variables get the intended pointer and connection steps, which throw as written.
- Populate.CollectReferencedTypes: collects the resolved types without populating their variables (Variable.js:278-282).
- Populate.ResolveTypeEntries: resolves each entry without populating the resolved type's variables (Variable.js:278-282).
- Populate.ResolveToSlot: a resolved target that is not a type is refused, where the source stores any object that has `getMetaType`; only types and `undefined` reach a type position in the model. `Populate.TypeEntry`, which resolves a variable's type entries, refuses such a target in the same way.
- Populate.AddTypeCapabilities: models the intended loop; as written a connection type throws a ReferenceError (see Findings). Its connection is set once from the first initial value, where the source sets the same ends once per connection type.
- Populate.CapabilitiesForMeans: describes the intended loop, which succeeds on connection types; as written the loop throws there (Populate.ConnectionThrowsAsWritten). It states which capability ids occur, not how many times or in what order; the order is fixed by `CapabilitiesFor`, which Populate.AddTypeCapabilities is proved against.
- Populate.UnresolvedTypesSwapped: describes the intended pointer and connection steps, which succeed here and throw as written (see Findings). It states the parameter capability and not the connection; the connection case is stated by Populate.ConnectionResolved.
- The connection branch of `resolveConnectionValues` for instances (`augmentPointer`, geppetto-core/src/model/GeppettoModelNode.js:112-115) is left out: it is reached only from the instance classes, which are not part of this model.
- TypeMerges.ApplyOverrides: the loop that calls `swapTypeInVariable` for each variable of the replaced type (geppetto-core/src/ModelFactory.js:348-352) is not modelled, so those variables keep the old type; the back-link to the variable is added to the variable's copy, and the library types' `variableReferences` are not updated (aliasing).
- TypeMerges.MergedTypesOverride: states the intended override without the `swapTypeInVariable` loop (ModelFactory.js:348-352); as written the override throws (see Findings).
- TypeMerges.MergeLibraryTypes: the override part leaves out the `swapTypeInVariable` loop (ModelFactory.js:348-352).
- LibraryMerges.MergeLibraries: the override part leaves out the `swapTypeInVariable` loop (ModelFactory.js:348-352).
- ModelMerges.MergeDiffLibraries: the override part leaves out the `swapTypeInVariable` loop (ModelFactory.js:348-352).
- ModelMerges.MergeModel: leaves out the `swapTypeInVariable` loop of the override (ModelFactory.js:348-352) and the nested populate of resolved types (Variable.js:278-282); the diff's variables get the intended pointer and connection steps, which throw as written. As written it also throws on a diff model with a non-empty query list or a datasource with queries, because it builds the diff model with `createGeppettoModel` (ModelFactory.js:254), which reaches `createQuery` from a static context (ModelFactory.js:79, 925, 942).
- Factory.CreateGeppettoModel: models the call with `populateRefs` false. The default path (geppetto-core/src/ModelFactory.js:82-92: `populateChildrenShortcuts`, `populateTypeReferences` and `initStaticInstances`) is not composed into it; the populate passes are modelled on their own in `Populate`.
- Factory.BuiltTypeVariant: a plain type's tags are kept as the raw tag references; their resolution to tag objects (geppetto-core/src/ModelFactory.js:996-998) is not modelled.
- Factory.VisualGroupsOf: states the number of groups and when they fail; a group's tags are kept as references (ModelFactory.js:1053-1061); the groups' contents are stated by Factory.VisualGroupsKept.
- InstanceStore.Instances.BuildInstanceHierarchy: the look-up path is built from the parent's raw path (`InstancePathOf`), where geppetto-core/src/InstanceFactory.js:275 uses the parent's `getInstancePath()`. `Instance.js` is not part of this model; the two paths agree for named instances but may differ under array elements, so an existing instance below an array element can be found here where the source builds it again.
- InstanceStore.Instances.BuildFound: uses the same `InstancePathOf`, so it shares that difference from `getInstancePath()` under array elements.
- InstanceStore.GotInstance: its own contract states only that the list stays sound; what it returns is stated by InstanceStore.GotInstanceNames and InstanceStore.GotInstanceShape, and creation is proved only for a top-level plain variable (InstanceStore.CreatedAtTop).
- InstanceStore.SizeAt: looks the array instance up without creating it, so a `[*]` path whose array instance does not exist yet fails with a TypeError here; the source's `this.getInstance(arrayPath)` (geppetto-core/src/Instances.js:179) creates it first with the default `create` and then reads its size.
- Models.GeppettoModel.Resolve: models the corrected `worlds` branch, where the worlds are reachable from the root at the first segment; as written the branch needs a current reference (geppetto-js/src/model/GeppettoModel.js:202-205), so `//@worlds.k/...` resolves to `undefined` (Models.GeppettoModel.WorldInstanceLostAsWritten).
- Worlds.World.PopulateInstanceReferences: models the corrected at-most-once guard, where each endpoint resolves at most once; as written the guard tests only endpoint `a` (geppetto-core/src/model/SimpleConnectionInstance.js:13-31), so a second pass on a connection whose `a` stayed a `$ref` calls `resolve` on the undefined `b.$ref` of the already resolved `b` and throws a TypeError (geppetto-js/src/model/GeppettoModel.js:177, Worlds.SecondWiringThrows).
- Worlds.WireOneEffect: models the corrected at-most-once guard of each endpoint; as written only endpoint `a` is guarded (SimpleConnectionInstance.js:13-31).
- Worlds.WireOneSettled: models the corrected guard, under which a second populate changes nothing; as written a connection whose `a` stayed a `$ref` is wired again, and `resolve` on the undefined `b.$ref` throws a TypeError (SimpleConnectionInstance.js:13-31, GeppettoModel.js:177, Worlds.SecondWiringThrows).
- Merge.MergeSimpleInstances: models the corrected at-most-once guard in its wiring; as written a second wiring of a connection whose `a` stayed a `$ref` calls `resolve` on the undefined `b.$ref` and throws a TypeError (SimpleConnectionInstance.js:13-31, GeppettoModel.js:177).
- ModelMerges.MergeCurrentWorld: models the corrected at-most-once guard, so its second wiring pass changes nothing; as written that pass, on a connection whose `a` stayed a `$ref`, calls `resolve` on the undefined `b.$ref` and throws a TypeError (SimpleConnectionInstance.js:13-31, GeppettoModel.js:177, Worlds.SecondWiringThrows).
- Factory.CreateLibrary: models the corrected static calls, where import types and tags are built; as written an unsynched import type throws at `ModelFactory.createImportType` (geppetto-core/src/ModelFactory.js:202-203), and a tagged type or visual group throws at `this.geppettoModel` (ModelFactory.js:996-998, 1053-1061).
- Factory.CreateLibraries: models the same corrected static calls as Factory.CreateLibrary; as written they throw (ModelFactory.js:202-203, 996-998, 1053-1061).
- Factory.CreateWorld: models the corrected static calls for the world's variables' anonymous types; as written a tagged or import type among them throws (ModelFactory.js:202-203, 996-998, 1053-1061).
- Factory.CreateGeppettoModel: models the corrected static calls for its libraries and worlds, and keeps queries as ids; as written an unsynched import type, a tagged type or a tagged visual group makes it throw (ModelFactory.js:202-203, 996-998, 1053-1061), and so does a non-empty top-level query list or a datasource with queries, which reach the instance method `createQuery` from the static `createQueries` (ModelFactory.js:76, 79, 925, 942).
- InstanceStore.Instances.CreatePlainInstance: models the corrected `ModelUtils.propagateCapabilityToParents`; as written the call goes to the factory itself (geppetto-core/src/InstanceFactory.js:391) and a plain instance with a single visual type throws a TypeError (InstanceTree.VisualPlainInstanceThrows).
- InstanceStore.Instances.BuildInstanceHierarchy: builds plain instances with the same corrected `propagateCapabilityToParents` (InstanceFactory.js:391); as written a plain instance with a single visual type throws.
- `updatePaths`, which `initStaticInstances` calls on the world's instances (geppetto-core/src/ModelFactory.js:100), is not modelled: no file of the model defines it. The second wiring in ModelMerges.MergeCurrentWorld stands for only the `populateInstanceReferences` half of `initStaticInstances`.
- The `resolve` parameter of ModelMerges.MergeModel stands for the resolver of the diff model: every node built from the diff finds its root through its parents (geppetto-core/src/model/GeppettoModelNode.js:10-13), and that root is the diff model, not the model merged into.
- Open question: `deleteInstance` treats an instance as top-level when `parent === undefined` (geppetto-core/src/Instances.js:259), while top-level instances are built with a `null` parent (geppetto-core/src/InstanceFactory.js:425-430). If `getParent()` returns that `null`, the source takes the other branch and throws on `null.getChildren()`. `Instance.js` is not part of this model, so the model follows the evident intent and removes a parentless instance from the top-level list (InstanceStore.DeletedFromList).

## Findings

All of these findings come from reading the source; none of them was executed.

| source | as written | input that shows it | evidently intended | confidence | as-written member | corrected member |
|---|---|---|---|---|---|---|
| geppetto-core/src/model/SimpleConnectionInstance.js:13-31 | the at-most-once guard tests only endpoint `a`, so a connection whose `a` stayed a `$ref` is wired again, and the second pass reads the undefined `$ref` of `b`'s resolved instance and passes it to `resolve`, which throws a TypeError at `refStr.replace` (geppetto-js/src/model/GeppettoModel.js:177) | a world connection whose `a` does not resolve and whose `b` does, wired twice (the merge wires the current world twice) | each endpoint resolves at most once, so a second pass changes nothing | not executed | Worlds.SecondWiringThrows | Worlds.WiringIdempotent |
| geppetto-js/src/model/GeppettoModel.js:150-161 | the index chosen for a number or string argument is always overwritten by the id search on `worldOrIndex.id` | `activateWorld(0)` with one world | a number selects that position and a string that id | not executed | Models.ActivateAsWrittenIgnoresArgument | Models.ActivatedIndexSelects |
| geppetto-js/src/model/GeppettoModel.js:202-205 | the `worlds` branch needs a current reference, which is unset at the first segment | `//@worlds.0/@instances.0` | the path resolves to static instance 0 of world 0 | not executed | Models.GeppettoModel.WorldInstanceLostAsWritten | Models.GeppettoModel.ResolveWorldInstance |
| geppetto-core/src/ModelFactory.js:202-203 | the static `createTypes` calls `ModelFactory.createImportType`, but `createImportType` exists only as an instance method (line 1003), so the call throws a TypeError | a library with one unsynched `ImportType` | the import type is built and records its index | not executed | Factory.ImportTypeThrowsAsWritten | Factory.ImportTypeIndexed |
| geppetto-core/src/ModelFactory.js:328 | the new-type branch of `mergeModel` calls `ModelFactory.populateChildrenShortcuts`, which does not exist | a diff with one new type in a matching library | the new type is appended, populated and reported | not executed | TypeMerges.NewTypeThrowsAsWritten | TypeMerges.MergedTypesAppend |
| geppetto-core/src/Instances.js:80 | the type swap calls `this.fetchAllPotentialInstancePathsForType`, which `Instances` does not have | any type swap | the new type's paths are grafted under its potential instances | not executed | Catalogue.SwapAsWrittenAlwaysThrows | Catalogue.Catalogue.SwapType |
| geppetto-core/src/Instances.js:112-131 | the indexing entries take their metaType and type from position `j` of the non-indexing partial paths, not from the indexing ones | a swapped type whose partial paths hold a connection and then a state variable | each entry keeps its own metaType | not executed | Catalogue.IndexingAsWrittenMislabels | Catalogue.Catalogue.PlaceUnder |
| geppetto-core/src/Instances.js:135-150 | the dedupe looks an entry's path up among the replacement entries themselves, not among their paths, so it never finds one and removes nothing | swapping the same type in twice | an old entry with a replaced path is dropped | not executed | Catalogue.DedupeAsWrittenDuplicates | Catalogue.ReplaceMeans |
| geppetto-core/src/InstanceFactory.js:391 | `propagateCapabilityToParents` is called on `this`, the static factory, which has no such method | a plain instance whose variable has a single visual type | the instance and its ancestors get the visual capability | not executed | InstanceTree.VisualPlainInstanceThrows | InstanceTree.PlainTagging |
| geppetto-core/src/Instances.js:175-189 | the loop splices out a `[*]` entry and still advances its index, so the entry after it is skipped | `getInstance(["a[*]", "b[*]"])` | every `[*]` entry is expanded in order | not executed | Wildcards.SecondWildcardSkipped | Wildcards.SecondWildcardExpanded |
| geppetto-core/src/Instances.js:177-186 | the array path is cut at the first `[` and the rest after the first `]`, so `x[0]y[*]` becomes `x[k]y[*]` for each element `k` of `x`, one of them the path itself | `getInstance("x[0]y[*]")` | `x[0]y[*]` expands into the elements of `x[0]y` | not executed | Wildcards.NestedWildcardStays | Wildcards.NestedWildcardExpanded |
| geppetto-core/src/Instances.js:196-199 | `override` deletes `instances[i]`, a slot of the result array that is still empty | `getInstance("a", true, true)` with `a` built | the instance found is deleted and built again | not executed | InstanceStore.OverrideKeepsInstanceAsWritten | InstanceStore.Fetched |
| geppetto-core/src/Instances.js:274-277 | after removing a typed instance, `deleteInstance` calls `this.unresolveType`, which `Instances` does not have | deleting any instance that has types | the instance is removed and the call returns | not executed | InstanceStore.DeleteTypedThrowsAsWritten | InstanceStore.Deleted |
| geppetto-core/src/Instances.js:223-227 | once the model has connection variables, `getInstance` ends with `updateConnectionInstances`, which calls a `this.createPointer` that does not exist; the constructor and `addInstances` reach the same call | a model with one connection variable and `getInstance("a")` with `a` present | the instance is returned (the corrected update changes nothing here) | not executed | InstanceStore.FoundThenThrowsAsWritten | InstanceStore.GotInstance |
| geppetto-core/src/model/Variable.js:294-300 | the pointer check accepts a single initial value and then calls `this.createPointer`; model nodes have no such method (it is an instance method of `ModelFactory`), so it throws a TypeError | a variable of a pointer type with one raw initial value | the pointer is made from that value and stored as `pointerValue` | not executed | Populate.PointerVariableThrowsAsWritten | Populate.PointerBuilt |
| geppetto-core/src/model/GeppettoModelNode.js:100 | `resolveConnectionValues`, which the capability loop calls for every connection type (Variable.js:312-316), tests `instanceof Instance`, and `Instance` is not imported in that file, so it throws a ReferenceError | a variable whose resolved types include a connection type | the first initial value's ends `a` and `b` become the connection's pointers A and B | not executed | Populate.ConnectionVariableThrowsAsWritten | Populate.ConnectionResolved |
| geppetto-core/src/ModelFactory.js:348-366 | the override branch of the static `mergeModel` calls the instance method `this.swapTypeInVariable` for each variable of the replaced type, and then `ModelFactory.addPotentialInstancePathsForTypeSwap`, which is defined on `Instances`; the latter throws a TypeError on every override | a diff type whose path matches an import type of the library, merged with `overrideTypes` | the diff type takes the import type's place and is reported as swapped | not executed | TypeMerges.OverrideThrowsAsWritten | TypeMerges.MergedTypesOverride |
| geppetto-core/src/ModelFactory.js:993-999 | the static `createType` resolves each tag through `this.geppettoModel`, and the class has no `geppettoModel`, so a tagged type throws a TypeError | a raw plain type with one tag | the type is built with its tags | not executed | Factory.TaggedTypeThrowsAsWritten | Factory.BuiltTypeVariant |
| geppetto-core/src/ModelFactory.js:1053-1061 | `createVisualGroups` resolves each group tag through `this.geppettoModel` in the same static context, so a tagged visual group throws a TypeError | a composite visual type whose one visual group lists its elements and has a tag | the group is built with its tags | not executed | Factory.TaggedGroupThrowsAsWritten | Factory.VisualGroupsKept |
