# UsdStream in Dafny

This project models the scene-mirroring core of USDForUnity: the `UsdStream` component. It also models the schema-tree traversals of the native usdi layer that the component walks.

A `UsdStream` opens a USD file through a native `usdi.Context`. It then does four things:

- It mirrors the file's schema tree as a hierarchy of Unity game objects. The master subtrees and the subtrees of the root's children are walked. Host objects are found or created by name under their parent. A fresh node list and a path→node lookup table are built. Host objects that no schema reclaimed are swept away.
- It drives a two-phase frame: prepare, the backend's sample update, then sync-begin and sync-end. A force flag and an "unchanged play time" test gate the frame.
- It re-applies stored variant selections on load. The stage is recomposed only when a selection actually changed.
- It keeps its two dictionaries, the variant selections and the per-object import settings, across Unity serialisation by flattening them to parallel arrays.

Modules:

- `Wrappers` (`wrappers.dfy`): `Option`.
- `UsdiSchema` and `UsdiSchemaFacts` (`usdi_schema.dfy`): the schema tree as a datatype.
  - `eachChild`, `eachChildR`, `eachInstance` and `eachAttribute` are functions that return the visit sequence.
  - Also modelled: `as<T>()` with its redirection to the master, inheritance depth, and variant lookup.
  - Lemmas cover `eachChildR`'s order and coverage, and the subtype ordering of depths.
- `UsdNodeFactory` (`node_factory.dfy`): the priority choice of `UsdCreateNode`, as a pure function.
- `UsdEnvironment` (`environment.dfy`): what the stream calls but whose code is not part of this model.
  - The Unity hierarchy is a `Scene` class. It is an arena of objects with a name, a parent, a liveness flag and a `UsdIComponent` slot.
  - The per-node hooks are `UsdNode` methods that append to a ghost `EventLog`.
  - The native `Context` is a class whose composition is a function from variant selections to a stage.
- `DictionaryArrays` (`dictionary_arrays.dfy`): the flatten and merge loops of the serialisation callbacks.
- `HierarchyWalk` (`hierarchy_walk.dfy`): the host objects one tree walk finds or creates, as a function of the hierarchy. Its lemmas say what the walk guarantees: each schema is hosted by a live object named after it, under its schema parent's host, and sibling names stay unique.
- `UsdStreamSpec` (`stream_spec.dfy`): heap-free specification functions for the stream. These cover the node list's schemas, the lookup table, the component claims, the sweep candidates, the selections a load ends with, and the event traces of each operation.
- `UsdStreamModel` (`usd_stream.dfy`): the `UsdStream` class.
  - Its fields are those of the C# class that the modelled operations read or write. The editor-only debug fields and the time unit are not among them (see "Left out").
  - Every method changes its fields in place. Loops carry invariants.
  - Each method is proved against the specification functions.

## Model

| member | source | states |
|---|---|---|
| UsdiSchema.EachChild | Plugin/usdi/usdiSchema.h:108-113 | the body runs once per child, in vector order: result i is the body applied to child i |
| UsdiSchema.EachInstance | Plugin/usdi/usdiSchema.h:124-129 | the body runs once per instance, in vector order |
| UsdiSchema.EachAttribute | Plugin/usdi/usdiSchema.h:131-136 | the body runs once per attribute, in vector order |
| UsdiSchemaFacts.EachChildRChildrenFirst | Plugin/usdi/usdiSchema.h:115-122 | eachChildR first visits all direct children in order, then the recursive visits of child 1, child 2, … |
| UsdiSchemaFacts.EachChildRCoversDescendants | Plugin/usdi/usdiSchema.h:115-122 | eachChildR visits exactly the strict descendants, each once (same multiset and length as the pre-order of the descendants) |
| UsdiSchemaFacts.EachChildRAllCovers | Plugin/usdi/usdiSchema.h:115-122 | for a list of subtrees, the roots plus their recursive visits are exactly the nodes of the subtrees |
| UsdiSchemaFacts.EachChildRSkipsSelf | Plugin/usdi/usdiSchema.h:115-122 | eachChildR never visits the schema it starts from |
| UsdiSchemaFacts.EachChildROrderExample | Plugin/usdi/usdiSchema.h:118-122 | on a tree three levels deep below the root (root → a, b; a → a1 → a2; b → b1) the order is a, b, a1, a2, b1: all children first, then the whole recursive visit of each child in turn |
| UsdiSchemaFacts.PreOrderExample | Plugin/usdi/usdiSchema.h:115-122 | the pre-order of the same tree is a, a1, a2, b, b1, which differs from the eachChildR order |
| UsdiSchema.As | Plugin/usdi/usdiSchema.h:138-147 | the cast succeeds exactly when the master (if any, else the schema itself) is of the target type, and it yields that schema |
| UsdiSchemaFacts.InstanceClassifiesByMaster | Plugin/usdi/usdiSchema.h:138-147 | two instances of the same master cast identically; an instance casts by its master's type |
| UsdiSchemaFacts.IsATransitive | Plugin/usdi/usdiSchema.h:9-11 | the subtype relation built by DefSchemaTraits is transitive |
| UsdiSchemaFacts.InheritDepthOrdersSubclasses | Plugin/usdi/usdiSchema.h:9-19 | a subtype's depth is at least its super type's, equal only for the same type (base depth 0, each level +1) |
| UsdiSchema.SchemaHandler.GetInheritDepth | Plugin/usdi/usdiSchema.h:218 | the handler forwards its type's depth, which is 0 exactly for the base Schema |
| UsdiSchemaFacts.HandlerDepthRanksSubclasses | Plugin/usdi/usdiSchema.h:213-218 | a handler of a strict subtype reports a strictly greater depth |
| UsdiSchema.IndexOf | Plugin/usdi/usdiSchema.h:81-84 | -1 exactly when absent, otherwise the first index holding the element |
| UsdiSchema.FindVariantSet | Plugin/usdi/usdiSchema.h:81-82 | -1 exactly when no variant set has the name, otherwise the first set with that name |
| UsdiSchema.FindVariant | Plugin/usdi/usdiSchema.h:83-84 | -1 exactly when the set index is invalid or the set lacks the variant, otherwise its first index |
| UsdiSchema.FindByPath | USDForUnity/Assets/UTJ/USDForUnity/Scripts/UsdStream.cs:354 | finds a schema with the prim path exactly when the stage holds one |
| UsdNodeFactory.ChooseKindFirstProbeWins | USDForUnity/Assets/UTJ/USDForUnity/Scripts/UsdStream.cs:179-209 | Points if the Points probe succeeds, else Mesh, else Camera, else Xform, else the generic node (each case as an iff) |
| UsdNodeFactory.MeshIsNeverXform | USDForUnity/Assets/UTJ/USDForUnity/Scripts/UsdStream.cs:197-202 | a schema passing the Mesh probe (and not Points) also passes the Xform probe and still becomes a Mesh node |
| UsdNodeFactory.ProbeOfSubclass | USDForUnity/Assets/UTJ/USDForUnity/Scripts/UsdStream.cs:197-202 | a probe of a subtype implies the probe of its super type |
| UsdNodeFactory.InstanceKindFollowsMaster | USDForUnity/Assets/UTJ/USDForUnity/Scripts/UsdStream.cs:179-209 | an instance gets the node kind of its master |
| UsdStreamModel.UsdStream.UsdCreateNode | USDForUnity/Assets/UTJ/USDForUnity/Scripts/UsdStream.cs:179-209 | a fresh node bound to the schema and to this stream, with the kind the probes choose |
| UsdEnvironment.Scene.FindChild | USDForUnity/Assets/UTJ/USDForUnity/Scripts/UsdStream.cs:216-217 | the first live child of the parent with the name, or none exactly when there is no such child |
| UsdEnvironment.Scene.CreateChild | USDForUnity/Assets/UTJ/USDForUnity/Scripts/UsdStream.cs:226-228 | appends exactly one live object with the name under the parent, at the next index; no existing object changes |
| UsdEnvironment.Scene.ClearComponentSchema | USDForUnity/Assets/UTJ/USDForUnity/Scripts/UsdStream.cs:285 | nulls the node pointer of that object's component and of no other |
| UsdEnvironment.Scene.Destroy | USDForUnity/Assets/UTJ/USDForUnity/Scripts/UsdStream.cs:336 | marks exactly that object dead |
| UsdEnvironment.UniqueAfterCreate | USDForUnity/Assets/UTJ/USDForUnity/Scripts/UsdStream.cs:221-228 | creating a named child where none exists keeps sibling names unique |
| HierarchyWalk.PlaceSpec | USDForUnity/Assets/UTJ/USDForUnity/Scripts/UsdStream.cs:212-237 | find-or-create yields a live child of the parent with the schema's name, only grows the hierarchy, keeps sibling names unique |
| UsdStreamModel.UsdStream.UsdFindOrCreateNode | USDForUnity/Assets/UTJ/USDForUnity/Scripts/UsdStream.cs:212-237 | reuses the existing child (created = false) or appends exactly one new live child (created = true); the node is fresh, bound to the schema and hosted by that child |
| HierarchyWalk.TreeSpec | USDForUnity/Assets/UTJ/USDForUnity/Scripts/UsdStream.cs:239-257 | the walk of a subtree hosts every schema, in pre-order, on a live object named after it under its schema parent's host; the hierarchy only grows and names stay unique |
| HierarchyWalk.ForestSpec | USDForUnity/Assets/UTJ/USDForUnity/Scripts/UsdStream.cs:250-256 | the same for the children walked in index order |
| UsdStreamModel.UsdStream.UsdConstructTree | USDForUnity/Assets/UTJ/USDForUnity/Scripts/UsdStream.cs:239-257 | nothing for a null schema; otherwise the handler registers one node per schema of the subtree in pre-order, none of them registered before, and the hierarchy becomes the walk's |
| UsdStreamModel.UsdStream.UsdConstructChildren | USDForUnity/Assets/UTJ/USDForUnity/Scripts/UsdStream.cs:250-256 | the children's subtrees, in index order, under the element's host |
| UsdStreamModel.UsdStream.UsdConstructMasterTree | USDForUnity/Assets/UTJ/USDForUnity/Scripts/UsdStream.cs:259-272 | registers one node per schema of the subtree in pre-order, none of them hosted or registered before, and leaves the hierarchy untouched |
| UsdStreamModel.UsdStream.UsdConstructMasterChildren | USDForUnity/Assets/UTJ/USDForUnity/Scripts/UsdStream.cs:266-271 | the same for the children in index order |
| UsdStreamModel.UsdStream.RegisterNode | USDForUnity/Assets/UTJ/USDForUnity/Scripts/UsdStream.cs:300-305 | the node handler, given a node not yet listed: one UsdOnLoad, the node appended to the list, the table kept equal to the list's table, the list still free of repeats |
| UsdStreamSpec.HookCallsOnce | USDForUnity/Assets/UTJ/USDForUnity/Scripts/UsdStream.cs:300-305 | over a node list free of repeats, the trace of a hook holds exactly one call on each listed node |
| UsdEnvironment.UsdNode.UsdOnLoad | USDForUnity/Assets/UTJ/USDForUnity/Scripts/UsdStream.cs:302 | one load event for the node; its host object's component, if it has a host, now points back at it (the assumption the sweep rests on), and no other component changes |
| UsdStreamSpec.LutOfLast | USDForUnity/Assets/UTJ/USDForUnity/Scripts/UsdStream.cs:300-318 | the table maps each prim path to the last node registered under it |
| UsdStreamSpec.LutOfKeys | USDForUnity/Assets/UTJ/USDForUnity/Scripts/UsdStream.cs:300-318 | a path is in the table exactly when some node in the list has it |
| UsdStreamSpec.LutOfEntries | USDForUnity/Assets/UTJ/USDForUnity/Scripts/UsdStream.cs:300-318 | every table entry is a node of the list with that path |
| UsdStreamSpec.ClaimSpec | USDForUnity/Assets/UTJ/USDForUnity/Scripts/UsdStream.cs:315-320 | after the walk, every host of a registered node carries a component that points back to one of those nodes; other objects keep their component |
| UsdStreamModel.UsdStream.ReleaseHosts | USDForUnity/Assets/UTJ/USDForUnity/Scripts/UsdStream.cs:276-290 | the candidates are exactly the hosts of old table entries that carry a component, and their components' schema is nulled |
| UsdStreamModel.UsdStream.SweepUnclaimed | USDForUnity/Assets/UTJ/USDForUnity/Scripts/UsdStream.cs:325-340 | exactly the candidates whose component is still unclaimed are destroyed; no other object changes |
| UsdStreamSpec.SweepTargets | USDForUnity/Assets/UTJ/USDForUnity/Scripts/UsdStream.cs:276-340 | a candidate is destroyed exactly when no newly registered node is hosted by it |
| UsdStreamModel.UsdStream.UsdRebuildRegistry | USDForUnity/Assets/UTJ/USDForUnity/Scripts/UsdStream.cs:292-323 | fresh containers; master subtrees first (unhosted), then the root's children (hosted); the list is in visit order and free of repeats, the root itself is never mirrored, and the trace holds one UsdOnLoad per listed node |
| UsdStreamModel.UsdStream.UsdConstructTrees | USDForUnity/Assets/UTJ/USDForUnity/Scripts/UsdStream.cs:274-341 | the rebuild above, and the sweep of exactly the released candidates that the rebuilt trees did not reclaim |
| UsdStreamSpec.NoCandidates | USDForUnity/Assets/UTJ/USDForUnity/Scripts/UsdStream.cs:276-290 | an empty table yields no candidates |
| UsdStreamSpec.SweepNothing | USDForUnity/Assets/UTJ/USDForUnity/Scripts/UsdStream.cs:325-340 | without candidates the sweep leaves liveness as the walk left it |
| UsdStreamModel.UsdStream.UsdFindSchema | USDForUnity/Assets/UTJ/USDForUnity/Scripts/UsdStream.cs:155-162 | some node exactly when one has the path; then the last registered node with that path |
| UsdStreamModel.UsdStream.UsdFindSchemaOf | USDForUnity/Assets/UTJ/USDForUnity/Scripts/UsdStream.cs:163-166 | the lookup by the schema's path: some node exactly when one is registered under that path, and then the node registered last under it |
| UsdStreamModel.UsdStream.UsdSetVariantSelection | USDForUnity/Assets/UTJ/USDForUnity/Scripts/UsdStream.cs:129-133 | stores the selection under the path and sets the reload flag |
| UsdStreamModel.UsdStream.UsdSetImportSettings | USDForUnity/Assets/UTJ/USDForUnity/Scripts/UsdStream.cs:135-139 | stores the settings under the path and sets the force flag |
| UsdStreamModel.UsdStream.UsdDeleteImportSettings | USDForUnity/Assets/UTJ/USDForUnity/Scripts/UsdStream.cs:140-144 | removes the path's settings and sets the force flag |
| UsdStreamModel.UsdStream.UsdRequestForceUpdate | USDForUnity/Assets/UTJ/USDForUnity/Scripts/UsdStream.cs:146-149 | sets the force flag |
| UsdStreamModel.UsdStream.UsdRequestReload | USDForUnity/Assets/UTJ/USDForUnity/Scripts/UsdStream.cs:150-153 | sets the reload flag |
| UsdEnvironment.Context.SetVariantSelection | USDForUnity/Assets/UTJ/USDForUnity/Scripts/UsdStream.cs:359 | stores the pair and reports whether it differed from the previous selection (the reply of the native call is an assumption, see "Left out") |
| UsdEnvironment.Context.FindSchema | USDForUnity/Assets/UTJ/USDForUnity/Scripts/UsdStream.cs:354 | a schema exactly when the stage holds one with the path, and then one with that path |
| UsdStreamModel.UsdStream.UsdApplyVariantEntry | USDForUnity/Assets/UTJ/USDForUnity/Scripts/UsdStream.cs:354-363 | every (index, selection) pair of one entry is applied, with no short-circuit; true exactly when one of them changed a selection |
| UsdStreamModel.UsdStream.UsdApplyVariantKey | USDForUnity/Assets/UTJ/USDForUnity/Scripts/UsdStream.cs:352-364 | one stored entry: applied if its path names a schema, skipped otherwise; the changed flag accumulates |
| UsdStreamModel.UsdStream.UsdApplyVarianceSelections | USDForUnity/Assets/UTJ/USDForUnity/Scripts/UsdStream.cs:349-366 | the selections end up overridden by every pair of every resolvable stored entry; true exactly when this changed one |
| UsdStreamSpec.ApplyEntry | USDForUnity/Assets/UTJ/USDForUnity/Scripts/UsdStream.cs:352-364 | applying one more entry composes with the earlier ones, and the changed flag is the disjunction |
| UsdStreamSpec.ChangesUnion | USDForUnity/Assets/UTJ/USDForUnity/Scripts/UsdStream.cs:356-363 | overriding with a then b changes something exactly when a does or b does on top of a |
| UsdStreamSpec.LoadedSelections | USDForUnity/Assets/UTJ/USDForUnity/Scripts/UsdStream.cs:349-366 | after a load, a stored pair wins for each index of each stored path that names a schema; every other authored pair keeps its value |
| UsdStreamModel.UnchangedSelectionsKeepStage | USDForUnity/Assets/UTJ/USDForUnity/Scripts/UsdStream.cs:390-393 | when no selection changed, the selections and hence the composed stage are as authored, so skipping the rebuild is sound |
| UsdEnvironment.Context.SetImportSettings | USDForUnity/Assets/UTJ/USDForUnity/Scripts/UsdStream.cs:346 | the context holds exactly the settings handed to it, with one event |
| UsdStreamModel.UsdStream.UsdApplyImportConfig | USDForUnity/Assets/UTJ/USDForUnity/Scripts/UsdStream.cs:344-347 | hands the stream's import settings to the context |
| UsdEnvironment.UsdNode.UsdOnUnload | USDForUnity/Assets/UTJ/USDForUnity/Scripts/UsdStream.cs:414 | one unload event for the node and nothing else |
| UsdEnvironment.Context.Destroy | USDForUnity/Assets/UTJ/USDForUnity/Scripts/UsdStream.cs:418 | one destroy event and nothing else |
| UsdStreamModel.UsdStream.UsdUnload | USDForUnity/Assets/UTJ/USDForUnity/Scripts/UsdStream.cs:409-421 | nothing without a context; otherwise one UsdOnUnload per node in list order, then list and table cleared and the context destroyed |
| UsdEnvironment.Context.Create | USDForUnity/Assets/UTJ/USDForUnity/Scripts/UsdStream.cs:379 | a context over the backend's files with nothing open: no composition, no selections, the empty stage, no import settings |
| UsdEnvironment.Context.Open | USDForUnity/Assets/UTJ/USDForUnity/Scripts/UsdStream.cs:382 | succeeds exactly for a file the backend holds; then the context holds its composition, the authored selections and the stage composed from them; on failure only the trace changes |
| UsdStreamModel.UsdStream.UsdOpen | USDForUnity/Assets/UTJ/USDForUnity/Scripts/UsdStream.cs:375-387 | unloads first, marks the path read-only, opens; on failure the context is destroyed and no tree exists |
| UsdEnvironment.Context.RebuildSchemaTree | USDForUnity/Assets/UTJ/USDForUnity/Scripts/UsdStream.cs:392 | the stage becomes the composition of the current selections |
| UsdStreamModel.UsdStream.UsdCompose | USDForUnity/Assets/UTJ/USDForUnity/Scripts/UsdStream.cs:390-393 | the stage is rebuilt exactly when a stored selection changed one, and ends composed from the loaded selections |
| UsdStreamModel.UsdStream.UsdConfigure | USDForUnity/Assets/UTJ/USDForUnity/Scripts/UsdStream.cs:390-394 | loaded selections and stage, import settings handed over, trace rebuild-if-changed then settings |
| UsdStreamModel.UsdStream.UsdFirstFrame | USDForUnity/Assets/UTJ/USDForUnity/Scripts/UsdStream.cs:398-403 | the forced first frame: prepare, the sample update at the play time, sync-begin, sync-end; force cleared and the time recorded |
| UsdStreamModel.UsdStream.UsdConstructFirstTrees | USDForUnity/Assets/UTJ/USDForUnity/Scripts/UsdStream.cs:396 | the tree construction of a load, which starts with no nodes: the trees of the stage are mirrored and, no host being released, none is destroyed |
| UsdStreamModel.UsdStream.UsdPopulate | USDForUnity/Assets/UTJ/USDForUnity/Scripts/UsdStream.cs:396-403 | the node trees of the stage (nothing swept, the table being empty) and the first frame |
| UsdStreamModel.UsdStream.UsdLoadOpened | USDForUnity/Assets/UTJ/USDForUnity/Scripts/UsdStream.cs:390-403 | configuration and population, with the whole trace of the load after the open |
| UsdStreamModel.UsdStream.UsdLoad | USDForUnity/Assets/UTJ/USDForUnity/Scripts/UsdStream.cs:373-407 | false with no context, no tree and an unchanged hierarchy when the file does not open; otherwise true, with loaded selections and stage, the rebuild iff a selection changed, the mirrored trees in a list free of repeats, the first frame, and the exact event trace |
| UsdStreamSpec.LoadTrace | USDForUnity/Assets/UTJ/USDForUnity/Scripts/UsdStream.cs:390-403 | the steps of a load compose to its trace |
| UsdStreamSpec.FirstFrameTrace | USDForUnity/Assets/UTJ/USDForUnity/Scripts/UsdStream.cs:398-403 | the phases of the forced frame compose to one prepare trace, the update and one sync trace |
| UsdEnvironment.Context.NotifyForceUpdate | USDForUnity/Assets/UTJ/USDForUnity/Scripts/UsdStream.cs:465 | one notify event and nothing else |
| UsdEnvironment.Context.UpdateAllSamples | USDForUnity/Assets/UTJ/USDForUnity/Scripts/UsdStream.cs:401 | one sample-update event at the given play time and nothing else |
| UsdEnvironment.UsdNode.UsdPrepareSample | USDForUnity/Assets/UTJ/USDForUnity/Scripts/UsdStream.cs:473 | one prepare event for the node and nothing else |
| UsdEnvironment.UsdNode.UsdSyncDataBegin | USDForUnity/Assets/UTJ/USDForUnity/Scripts/UsdStream.cs:483 | one sync-begin event for the node and nothing else |
| UsdEnvironment.UsdNode.UsdSyncDataEnd | USDForUnity/Assets/UTJ/USDForUnity/Scripts/UsdStream.cs:493 | one sync-end event for the node and nothing else |
| UsdStreamModel.UsdStream.UsdPrepareSample | USDForUnity/Assets/UTJ/USDForUnity/Scripts/UsdStream.cs:460-474 | under force: notify, then every node prepares; else nothing when the time is unchanged; else every node prepares |
| UsdStreamModel.UsdStream.UsdSyncDataBegin | USDForUnity/Assets/UTJ/USDForUnity/Scripts/UsdStream.cs:476-484 | gated like prepare; when it runs it clears the force flag and every node begins its sync |
| UsdStreamModel.UsdStream.UsdSyncDataEnd | USDForUnity/Assets/UTJ/USDForUnity/Scripts/UsdStream.cs:486-496 | gated; when it runs every node ends its sync and the time is recorded, the only place it is |
| UsdStreamModel.UsdStream.TimeUnchanged | USDForUnity/Assets/UTJ/USDForUnity/Scripts/UsdStream.cs:478 | the play-time test of the three frame phases: never true while the previous time is the initial NaN, otherwise true exactly when the play time equals it |
| UsdStreamSpec.FrameGate | USDForUnity/Assets/UTJ/USDForUnity/Scripts/UsdStream.cs:460-496 | no node hook at all without force at an unchanged time; otherwise every node prepares and begins, and sync-end runs only when the time changed |
| UsdStreamModel.UsdStream.Update | USDForUnity/Assets/UTJ/USDForUnity/Scripts/UsdStream.cs:567-574 | nothing without a context; otherwise the prepare phase, then the sample update at the play time |
| UsdStreamModel.UsdStream.LateUpdate | USDForUnity/Assets/UTJ/USDForUnity/Scripts/UsdStream.cs:576-583 | nothing without a context; otherwise the sync pair, after which force is clear and the time recorded |
| UsdStreamModel.UsdStream.constructor | USDForUnity/Assets/UTJ/USDForUnity/Scripts/UsdStream.cs:24-50 | a new stream is unloaded and valid: the given path, settings and time, empty dictionaries, no arrays, no nodes, no context, no request pending and no previous update time (the initial NaN) |
| UsdStreamModel.UsdStream.Load | USDForUnity/Assets/UTJ/USDForUnity/Scripts/UsdStream.cs:506-511 | records the path only while unloaded |
| DictionaryArrays.Flatten | USDForUnity/Assets/UTJ/USDForUnity/Scripts/UsdStream.cs:89-95 | keys and values list the dictionary: each key once, its value beside it |
| UsdStreamModel.UsdStream.OnBeforeSerialize | USDForUnity/Assets/UTJ/USDForUnity/Scripts/UsdStream.cs:89-95 | both dictionaries flattened to fresh parallel arrays |
| DictionaryArrays.Merge | USDForUnity/Assets/UTJ/USDForUnity/Scripts/UsdStream.cs:104-108 | the write-back loop assigns the pairs in index order |
| UsdStreamModel.UsdStream.OnAfterDeserialize | USDForUnity/Assets/UTJ/USDForUnity/Scripts/UsdStream.cs:97-126 | each dictionary merges its arrays when both exist with equal lengths and is unchanged otherwise; the arrays are always nulled |
| DictionaryArrays.MergeAllKeys | USDForUnity/Assets/UTJ/USDForUnity/Scripts/UsdStream.cs:104-108 | the merge keeps every existing key, adds every listed one, and nothing else |
| DictionaryArrays.MergeAllLastWins | USDForUnity/Assets/UTJ/USDForUnity/Scripts/UsdStream.cs:104-108 | a later pair overwrites an earlier one with the same key |
| DictionaryArrays.MergeAllKeepsUnlisted | USDForUnity/Assets/UTJ/USDForUnity/Scripts/UsdStream.cs:104-108 | an existing key not listed keeps its value |
| DictionaryArrays.FlattenRoundTrip | USDForUnity/Assets/UTJ/USDForUnity/Scripts/UsdStream.cs:89-126 | serialising and then deserialising into an empty dictionary restores it exactly |

## Left out

- Unity glue is left out: `Awake`, `OnApplicationQuit`, `Start`, `OnDestroy`, `OnEnable`, `OnDisable`, `OnValidate`, `UsdLog` and the property accessors. These only initialise the plugin, forward to modelled members or write diagnostics.
- `UsdSave` and `UsdSaveAs` are left out. They are one-line calls into the native context.
- `UsdDetachUsdComponents` is left out. It is editor-side removal of components, and nothing in the modelled core reads its effect.
- The `string` overloads of `UsdLoad`, `Load` and `LoadImmediate` are left out; they only wrap the path in a `DataPath`. `DataPath` itself is not part of this model and is taken as a value with a path and a read-only flag. Its full path is an abstract function `fullPathOf`.
- `m_requestReload` is set and kept as a flag. Nothing in the class reads it, so no reload is modelled.
- Destroying a host object marks only that object dead. Unity's destruction of its descendants is not modelled.
- UsdStreamModel.UsdStream.UsdApplyVariantKey skips a stored path that names no schema. The source calls `SetVariantSelection` on the null schema handle there, and what the native side does with it is not part of this model.
- The node hooks (`UsdOnLoad` and the others) and the concrete node classes are not part of this model. They are trace events. One assumption: `UsdOnLoad` claims its host object's `UsdIComponent` for the node. The sweep relies on this.
- `usdi.Context` is not part of this model. Two assumptions about it:
  - `Destroy` clears the handle, so the stream then holds no context.
  - `Open` succeeds exactly for the files the backend map holds.
- Nodes created for the walk are fresh objects. The Unity-side identity of game objects is an index into the scene arena.
- Play time and import settings are abstract values with equality only. `m_prevUpdateTime` is `Option<PlayTime>`, with `None` for the initial NaN that never compares equal. No floating-point arithmetic is modelled. A NaN play time `m_time` is not modelled: equality of play times is taken as reflexive, whereas in the source a NaN play time never equals the recorded one, so every phase would run on every frame.
- The note that `UsdPrepareSample` may run off the main thread is not modelled; everything is sequential.
- Constructors, attributes, payloads, references, variant editing, settings, `updateSample` and schema registration in `usdiSchema.h` are declarations without bodies and are not modelled.
- The frame gate is kept as written. When a force is pending at an unchanged play time, `UsdSyncDataBegin` clears the flag, so `UsdSyncDataEnd` then returns early. This also happens in the first frame of a reload at the same play time, and `UsdStreamSpec.FrameGate` and `UsdLoad`'s trace state it.
- UsdEnvironment.Context.SetVariantSelection: the native body is not part of this model. It is assumed to store the pair as given and to answer true exactly when the stored selection for that set differed. The documented clearing of the selection for an invalid variant index is not modelled; an invalid index is stored as is. `UnchangedSelectionsKeepStage`, the rebuild condition of `UsdLoad` and `LoadedSelections` rest on this assumption.
- The fields `m_timeUnit`, `m_forceSingleThread`, `m_detailedLog` and `m_isCompiling` are not modelled. The first only feeds the property accessors, and the other three are editor-only debug switches that no modelled operation reads.
- The arena of `Scene` fixes two things Unity does not promise in general: siblings are ordered by creation, and an object's parent never changes. `FindChild` therefore finds the earliest created live child with the name.
- UsdStreamModel.UsdStream.UsdConstructTree: every node it registers is fresh when made, as `UsdCreateNode` ensures, but the tree walks do not carry `fresh` up through the recursion. What they state instead is that their nodes were not listed before the walk, and `Registry` keeps the list free of repeats. The same holds for `UsdConstructChildren`, `UsdConstructMasterTree`, `UsdConstructMasterChildren`, `UsdRebuildRegistry` and `UsdLoad`.
- Variant selections are values (`seq<int>`). The source keeps the caller's `int[]` by reference, and the serialised arrays share the `VariantSelection` objects with the dictionary, so a later change through the caller's array would show in the stream. That aliasing is not modelled; no modelled property depends on it.
