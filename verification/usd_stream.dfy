/**
 * UsdStream: the controller that mirrors a USD composition into the Unity
 * hierarchy. It owns the native context while loaded, rebuilds the list of
 * mirrored nodes and the prim-path lookup table on load, and drives the
 * two-phase per-frame sample update over the nodes.
 */
module UsdStreamModel {
  import opened Wrappers
  import opened UsdiSchema
  import opened UsdiSchemaFacts
  import opened UsdNodeFactory
  import opened UsdEnvironment
  import opened UsdStreamSpec
  import opened HierarchyWalk
  import DictionaryArrays

  /** DataPath: the asset reference of the stream and whether it is locked. */
  datatype DataPath = DataPath(path: string, readOnly: bool)

  /**
   * Skipping RebuildSchemaTree when no selection changed is sound: the
   * selections are then what the file authored, so the stage already has the
   * composition it would be rebuilt to.
   */
  lemma UnchangedSelectionsKeepStage(c: Composition, over: Selections)
    requires !Changes(c.authored, over)
    ensures c.authored + over == c.authored
    ensures c.compose(c.authored + over) == c.compose(c.authored)
  {
    forall p | p in over ensures p in c.authored && c.authored[p] == over[p] {
      assert !(p in over && (p !in c.authored || c.authored[p] != over[p]));
    }
  }

  class UsdStream {
    // configuration that survives reloads
    var path: DataPath
    var importSettings: ImportSettings
    var time: PlayTime
    var variantSelections: map<string, seq<int>>
    var perObjectSettings: map<string, ImportSettings>

    // the serialised form of the two dictionaries
    var variantSelectionsKeys: array?<string>
    var variantSelectionsValues: array?<seq<int>>
    var perObjectSettingsKeys: array?<string>
    var perObjectSettingsValues: array?<ImportSettings>

    // the current load generation
    var schemas: seq<UsdNode>
    var schemaLUT: map<string, UsdNode>
    var ctx: Context?
    var requestForceUpdate: bool
    var requestReload: bool
    /** The play time of the last full sync; None stands for the initial NaN, which equals no time. */
    var prevUpdateTime: Option<PlayTime>

    // the environment
    const scene: Scene
    /** The game object this component is attached to. */
    const self: ObjId
    const log: EventLog
    const backend: map<string, Composition>
    const probeTypes: ProbeTypes
    /** DataPath.GetFullPath. */
    const fullPathOf: string -> string

    ghost predicate Valid()
      reads this, scene, if ctx != null then {ctx} else {}
    {
      && Registry()
      && (ctx != null ==> ctx.log == log && ctx.files == backend && ctx.composition.Some?)
      && (ctx == null ==> schemas == [] && schemaLUT == map[])
    }

    /** The node list, its lookup table and the hierarchy agree. */
    ghost predicate Registry()
      reads this, scene
    {
      && scene.Valid()
      && self < |scene.names|
      && schemaLUT == LutOf(schemas)
      && Distinct(schemas)
    }

    constructor (scene: Scene, self: ObjId, log: EventLog, backend: map<string, Composition>,
                 probeTypes: ProbeTypes, fullPathOf: string -> string,
                 path: DataPath, importSettings: ImportSettings, time: PlayTime)
      requires scene.Valid() && self < |scene.names|
      ensures Valid()
      ensures this.scene == scene && this.self == self && this.log == log && this.backend == backend
      ensures this.probeTypes == probeTypes && this.fullPathOf == fullPathOf
      ensures this.path == path && this.importSettings == importSettings && this.time == time
      ensures variantSelections == map[] && perObjectSettings == map[]
      ensures variantSelectionsKeys == null && variantSelectionsValues == null
      ensures perObjectSettingsKeys == null && perObjectSettingsValues == null
      ensures schemas == [] && schemaLUT == map[] && ctx == null
      ensures !requestForceUpdate && !requestReload && prevUpdateTime.None?
    {
      this.scene, this.self, this.log, this.backend := scene, self, log, backend;
      this.probeTypes, this.fullPathOf := probeTypes, fullPathOf;
      this.path, this.importSettings, this.time := path, importSettings, time;
      variantSelections, perObjectSettings := map[], map[];
      variantSelectionsKeys, variantSelectionsValues := null, null;
      perObjectSettingsKeys, perObjectSettingsValues := null, null;
      schemas, schemaLUT, ctx := [], map[], null;
      requestForceUpdate, requestReload, prevUpdateTime := false, false, None;
    }

    // ------------------------------------------------------- serialisation

    /** Flattens both dictionaries into their key and value arrays. */
    method OnBeforeSerialize()
      modifies this`variantSelectionsKeys, this`variantSelectionsValues
      modifies this`perObjectSettingsKeys, this`perObjectSettingsValues
      ensures variantSelectionsKeys != null && variantSelectionsValues != null
      ensures fresh(variantSelectionsKeys) && fresh(variantSelectionsValues)
      ensures DictionaryArrays.Flattens(variantSelections, variantSelectionsKeys[..], variantSelectionsValues[..])
      ensures perObjectSettingsKeys != null && perObjectSettingsValues != null
      ensures fresh(perObjectSettingsKeys) && fresh(perObjectSettingsValues)
      ensures DictionaryArrays.Flattens(perObjectSettings, perObjectSettingsKeys[..], perObjectSettingsValues[..])
    {
      var vk, vv := DictionaryArrays.Flatten(variantSelections);
      variantSelectionsKeys := new string[|vk|](i requires 0 <= i < |vk| => vk[i]);
      variantSelectionsValues := new seq<int>[|vv|](i requires 0 <= i < |vv| => vv[i]);
      var pk, pv := DictionaryArrays.Flatten(perObjectSettings);
      perObjectSettingsKeys := new string[|pk|](i requires 0 <= i < |pk| => pk[i]);
      perObjectSettingsValues := new ImportSettings[|pv|](i requires 0 <= i < |pv| => pv[i]);
      assert variantSelectionsKeys[..] == vk && variantSelectionsValues[..] == vv;
      assert perObjectSettingsKeys[..] == pk && perObjectSettingsValues[..] == pv;
    }

    /**
     * Writes the stored pairs back into the dictionaries (later pairs
     * overwriting earlier ones) when both arrays exist and have the same
     * length, and always drops the arrays.
     */
    method OnAfterDeserialize()
      modifies this`variantSelections, this`perObjectSettings
      modifies this`variantSelectionsKeys, this`variantSelectionsValues
      modifies this`perObjectSettingsKeys, this`perObjectSettingsValues
      ensures variantSelections ==
        if old(variantSelectionsKeys) != null && old(variantSelectionsValues) != null &&
           old(variantSelectionsKeys).Length == old(variantSelectionsValues).Length
        then DictionaryArrays.MergeAll(old(variantSelections), old(variantSelectionsKeys[..]), old(variantSelectionsValues[..]))
        else old(variantSelections)
      ensures perObjectSettings ==
        if old(perObjectSettingsKeys) != null && old(perObjectSettingsValues) != null &&
           old(perObjectSettingsKeys).Length == old(perObjectSettingsValues).Length
        then DictionaryArrays.MergeAll(old(perObjectSettings), old(perObjectSettingsKeys[..]), old(perObjectSettingsValues[..]))
        else old(perObjectSettings)
      ensures variantSelectionsKeys == null && variantSelectionsValues == null
      ensures perObjectSettingsKeys == null && perObjectSettingsValues == null
    {
      var vk, vv := variantSelectionsKeys, variantSelectionsValues;
      if vk != null && vv != null && vk.Length == vv.Length {
        variantSelections := DictionaryArrays.Merge(variantSelections, vk, vv);
      }
      variantSelectionsKeys := null;
      variantSelectionsValues := null;

      var pk, pv := perObjectSettingsKeys, perObjectSettingsValues;
      if pk != null && pv != null && pk.Length == pv.Length {
        perObjectSettings := DictionaryArrays.Merge(perObjectSettings, pk, pv);
      }
      perObjectSettingsKeys := null;
      perObjectSettingsValues := null;
    }

    // --------------------------------------------------- per-path settings

    method UsdSetVariantSelection(primPath: string, selection: seq<int>)
      modifies this`variantSelections, this`requestReload
      ensures variantSelections == old(variantSelections)[primPath := selection]
      ensures requestReload
    {
      variantSelections := variantSelections[primPath := selection];
      UsdRequestReload();
    }

    method UsdSetImportSettings(primPath: string, settings: ImportSettings)
      modifies this`perObjectSettings, this`requestForceUpdate
      ensures perObjectSettings == old(perObjectSettings)[primPath := settings]
      ensures requestForceUpdate
    {
      perObjectSettings := perObjectSettings[primPath := settings];
      UsdRequestForceUpdate();
    }

    method UsdDeleteImportSettings(primPath: string)
      modifies this`perObjectSettings, this`requestForceUpdate
      ensures perObjectSettings == old(perObjectSettings) - {primPath}
      ensures requestForceUpdate
    {
      perObjectSettings := perObjectSettings - {primPath};
      UsdRequestForceUpdate();
    }

    method UsdRequestForceUpdate()
      modifies this`requestForceUpdate
      ensures requestForceUpdate
    {
      requestForceUpdate := true;
    }

    method UsdRequestReload()
      modifies this`requestReload
      ensures requestReload
    {
      requestReload := true;
    }

    /** UsdFindSchema(primPath): the node registered last under `primPath` in this load, if any. */
    function UsdFindSchema(primPath: string): (r: Option<UsdNode>)
      requires Valid()
      reads this, scene, if ctx != null then {ctx} else {}
      ensures r.Some? <==> exists i :: 0 <= i < |schemas| && schemas[i].PrimPath() == primPath
      ensures r.Some? ==> r.value in schemas && r.value.PrimPath() == primPath
      ensures forall i :: (0 <= i < |schemas| && schemas[i].PrimPath() == primPath &&
                           forall j :: i < j < |schemas| ==> schemas[j].PrimPath() != primPath) ==>
                r == Some(schemas[i])
    {
      LutOfKeys(schemas, primPath);
      LutOfLast(schemas, primPath);
      if primPath in schemaLUT then
        LutOfEntries(schemas, primPath);
        Some(schemaLUT[primPath])
      else None
    }

    /** UsdFindSchema(usdi.Schema): the lookup by the schema's own prim path. */
    function UsdFindSchemaOf(s: Schema): (r: Option<UsdNode>)
      requires Valid()
      reads this, scene, if ctx != null then {ctx} else {}
      ensures r.Some? <==> exists i :: 0 <= i < |schemas| && schemas[i].PrimPath() == s.path
      ensures r.Some? ==> r.value in schemas && r.value.PrimPath() == s.path
      ensures forall i :: (0 <= i < |schemas| && schemas[i].PrimPath() == s.path &&
                           forall j :: i < j < |schemas| ==> schemas[j].PrimPath() != s.path) ==>
                r == Some(schemas[i])
    {
      UsdFindSchema(s.path)
    }

    // ----------------------------------------------------- frame gate

    /** Phase one of a frame: unless nothing is due, every node prepares its sample. */
    method UsdPrepareSample()
      requires Valid() && ctx != null
      modifies log`events
      ensures !requestForceUpdate && prevUpdateTime == Some(time) ==> log.events == old(log.events)
      ensures requestForceUpdate ==>
        log.events == old(log.events) + [ContextNotifyForceUpdate] + HookCalls(PrepareSample, schemas)
      ensures !requestForceUpdate && prevUpdateTime != Some(time) ==>
        log.events == old(log.events) + HookCalls(PrepareSample, schemas)
    {
      if requestForceUpdate {
        ctx.NotifyForceUpdate();
      } else if prevUpdateTime == Some(time) {
        return;
      }
      ghost var before := log.events;
      var c := |schemas|;
      for i := 0 to c
        invariant log.events == before + HookCalls(PrepareSample, schemas[..i])
        modifies log`events
      {
        assert schemas[..i + 1] == schemas[..i] + [schemas[i]];
        schemas[i].UsdPrepareSample(log);
      }
      assert schemas[..c] == schemas;
    }

    /** Phase two, first half: unless nothing is due, clears the force flag and begins every node's sync. */
    method UsdSyncDataBegin()
      modifies this`requestForceUpdate, log`events
      ensures !old(requestForceUpdate) && prevUpdateTime == Some(time) ==>
        requestForceUpdate == old(requestForceUpdate) && log.events == old(log.events)
      ensures old(requestForceUpdate) || prevUpdateTime != Some(time) ==>
        !requestForceUpdate && log.events == old(log.events) + HookCalls(SyncDataBegin, schemas)
    {
      if !requestForceUpdate && TimeUnchanged() { return; }
      requestForceUpdate := false;
      ghost var before := log.events;
      var c := |schemas|;
      for i := 0 to c
        invariant log.events == before + HookCalls(SyncDataBegin, schemas[..i])
        modifies log`events
      {
        assert schemas[..i + 1] == schemas[..i] + [schemas[i]];
        schemas[i].UsdSyncDataBegin(log);
      }
      assert schemas[..c] == schemas;
    }

    /** Phase two, second half: unless nothing is due, ends every node's sync and records the synced time. */
    method UsdSyncDataEnd()
      modifies this`requestForceUpdate, this`prevUpdateTime, log`events
      ensures !old(requestForceUpdate) && old(prevUpdateTime) == Some(time) ==>
        requestForceUpdate == old(requestForceUpdate) && prevUpdateTime == old(prevUpdateTime) &&
        log.events == old(log.events)
      ensures old(requestForceUpdate) || old(prevUpdateTime) != Some(time) ==>
        !requestForceUpdate && prevUpdateTime == Some(time) &&
        log.events == old(log.events) + HookCalls(SyncDataEnd, schemas)
    {
      if !requestForceUpdate && TimeUnchanged() { return; }
      requestForceUpdate := false;
      ghost var before := log.events;
      var c := |schemas|;
      for i := 0 to c
        invariant log.events == before + HookCalls(SyncDataEnd, schemas[..i])
        modifies log`events
      {
        assert schemas[..i + 1] == schemas[..i] + [schemas[i]];
        schemas[i].UsdSyncDataEnd(log);
      }
      assert schemas[..c] == schemas;
      prevUpdateTime := Some(time);
    }

    /** `m_time == m_prevUpdateTime`: a NaN previous time equals no play time. */
    predicate TimeUnchanged(): (r: bool)
      reads this
      ensures prevUpdateTime.None? ==> !r
      ensures prevUpdateTime.Some? ==> (r <==> prevUpdateTime.value == time)
    {
      prevUpdateTime == Some(time)
    }
  
    // ------------------------------------------------- tree construction

    /** `n` belongs to this stream and has the kind its schema probes to. */
    ghost predicate MadeHere(n: UsdNode)
    {
      n.stream == this && n.kind == ChooseKind(n.nativeSchemaPtr, probeTypes)
    }

    /** Every node of `nodes` was made by this stream. */
    ghost predicate AllMadeHere(nodes: seq<UsdNode>)
    {
      forall n :: n in nodes ==> MadeHere(n)
    }

    lemma AllMadeHereAppend(a: seq<UsdNode>, b: seq<UsdNode>)
      requires AllMadeHere(a) && AllMadeHere(b)
      ensures AllMadeHere(a + b)
    {
    }

    /**
     * UsdCreateNode: a new node of the most specific kind the schema probes
     * to, owned by this stream. The host is passed in here rather than
     * assigned right after creation.
     */
    method UsdCreateNode(schema: Schema, gameObject: Option<ObjId>) returns (node: UsdNode)
      ensures fresh(node)
      ensures node.nativeSchemaPtr == schema && node.gameObject == gameObject
      ensures MadeHere(node)
    {
      var kind := ChooseKind(schema, probeTypes);
      node := new UsdNode(kind, schema, this, gameObject);
    }

    /**
     * UsdFindOrCreateNode: reuses the first live child of `parent` named
     * after the schema, or creates one, and makes a node hosted on it.
     */
    method UsdFindOrCreateNode(parent: ObjId, schema: Schema) returns (node: UsdNode, created: bool)
      requires scene.Valid()
      modifies scene`names, scene`parents, scene`alive
      ensures scene.Valid()
      ensures fresh(node) && node.nativeSchemaPtr == schema && MadeHere(node)
      ensures node.gameObject.Some?
      ensures created <==> old(scene.FindChild(parent, schema.name)).None?
      ensures Place(old(Shape(scene.names, scene.parents, scene.alive)), parent, schema.name) == (node.gameObject.value, Shape(scene.names, scene.parents, scene.alive))
      ensures IsChildNamed(node.gameObject.value, parent, schema.name, scene.names, scene.parents, scene.alive)
      ensures scene.components == old(scene.components)
    {
      var go: ObjId;
      var child := scene.FindChild(parent, schema.name);
      if child.Some? {
        go := child.value;
        created := false;
      } else {
        go := scene.CreateChild(schema.name, parent);
        created := true;
      }
      node := UsdCreateNode(schema, Some(go));
    }

    /** The registration handler both tree walks pass down: load the node, then list it and index it by prim path. */
    method RegisterNode(e: UsdNode)
      requires Registry() && e !in schemas
      modifies this`schemas, this`schemaLUT, scene`components, log`events
      ensures Registry()
      ensures schemas == old(schemas) + [e]
      ensures scene.components == if e.gameObject.Some?
                                  then old(scene.components)[e.gameObject.value := Some(e)]
                                  else old(scene.components)
      ensures log.events == old(log.events) + [NodeEvent(OnLoad, e)]
    {
      LutOfSnoc(schemas, e);
      assert (schemas + [e])[..|schemas|] == schemas;
      e.UsdOnLoad(scene, log);
      schemas := schemas + [e];
      schemaLUT := schemaLUT[e.PrimPath() := e];
    }

    /**
     * UsdConstructTree: mirrors the subtree of `schema` under host object
     * `parent`, registering one node per schema in pre-order, each hosted on
     * the object `Tree` finds or creates for it. `added` are the nodes it
     * registered.
     */
    method UsdConstructTree(parent: ObjId, schema: Option<Schema>) returns (ghost added: seq<UsdNode>)
      requires Registry()
      modifies this`schemas, this`schemaLUT, scene`names, scene`parents, scene`alive, scene`components, log`events
      decreases if schema.Some? then schema.value.children else [], 1
      ensures Registry()
      ensures schemas == old(schemas) + added
      ensures Schemas(added) == if schema.Some? then PreOrder(schema.value) else []
      ensures schema.Some? ==> Tree(old(Shape(scene.names, scene.parents, scene.alive)), parent, schema.value) == (Shape(scene.names, scene.parents, scene.alive), Hosts(added))
      ensures schema.None? ==> Shape(scene.names, scene.parents, scene.alive) == old(Shape(scene.names, scene.parents, scene.alive))
      ensures scene.components == Claim(old(scene.components), added)
      ensures AllMadeHere(added)
      ensures forall n :: n in added ==> n !in old(schemas)
      ensures log.events == old(log.events) + HookCalls(OnLoad, added)
    {
      if schema.None? {
        return [];
      }
      var s := schema.value;
      ghost var s0, l0, c0 := schemas, log.events, scene.components;
      ghost var h0 := Shape(scene.names, scene.parents, scene.alive);
      var elem, created := UsdFindOrCreateNode(parent, s);
      ghost var h1 := Shape(scene.names, scene.parents, scene.alive);
      assert elem !in s0;
      RegisterNode(elem);
      var trans := elem.gameObject.value;
      ghost var kids := UsdConstructChildren(trans, s.children);
      TreeClose(h0, parent, s, elem, h1, kids, Shape(scene.names, scene.parents, scene.alive));
      ClaimSubtree(c0, elem, kids);
      NewAppend(s0, [elem], kids);
      AllMadeHereAppend([elem], kids);
      SubtreeClose(elem, kids, s);
      assert HookCalls(OnLoad, [elem]) == [NodeEvent(OnLoad, elem)];
      TraceStep(l0, OnLoad, [elem], kids);
      ConcatAssoc(s0, [elem], kids);
      added := [elem] + kids;
    }

    /**
     * The loop of UsdConstructTree over the children of a schema, and of
     * UsdConstructTrees over the children of the root: each subtree of `cs`
     * in turn is mirrored under host object `trans`.
     */
    method UsdConstructChildren(trans: ObjId, cs: seq<Schema>) returns (ghost kids: seq<UsdNode>)
      requires Registry()
      modifies this`schemas, this`schemaLUT, scene`names, scene`parents, scene`alive, scene`components, log`events
      decreases cs, 0
      ensures Registry()
      ensures schemas == old(schemas) + kids
      ensures Schemas(kids) == PreOrderAll(cs)
      ensures Forest(old(Shape(scene.names, scene.parents, scene.alive)), trans, cs, |cs|) == (Shape(scene.names, scene.parents, scene.alive), Hosts(kids))
      ensures scene.components == Claim(old(scene.components), kids)
      ensures AllMadeHere(kids)
      ensures forall n :: n in kids ==> n !in old(schemas)
      ensures log.events == old(log.events) + HookCalls(OnLoad, kids)
    {
      kids := [];
      var n := |cs|;
      for ci := 0 to n
        invariant Registry()
        invariant schemas == old(schemas) + kids
        invariant Schemas(kids) == PreOrderAll(cs[..ci])
        invariant Forest(old(Shape(scene.names, scene.parents, scene.alive)), trans, cs, ci) == (Shape(scene.names, scene.parents, scene.alive), Hosts(kids))
        invariant scene.components == Claim(old(scene.components), kids)
        invariant AllMadeHere(kids)
        invariant forall n :: n in kids ==> n !in old(schemas)
        invariant log.events == old(log.events) + HookCalls(OnLoad, kids)
      {
        ghost var h0 := Shape(scene.names, scene.parents, scene.alive);
        ghost var more := UsdConstructTree(trans, Some(cs[ci]));
        ForestStep(old(Shape(scene.names, scene.parents, scene.alive)), trans, cs, ci, kids, more, h0, Shape(scene.names, scene.parents, scene.alive));
        ChildrenStep(kids, more, cs, ci);
        ClaimAppend(old(scene.components), kids, more);
        NewAppend(old(schemas), kids, more);
        TraceStep(old(log.events), OnLoad, kids, more);
        ConcatAssoc(old(schemas), kids, more);
        kids := kids + more;
      }
      assert cs[..n] == cs;
    }

    /**
     * UsdConstructMasterTree: registers one node per schema of a master
     * (prototype) subtree, in pre-order, without any host object.
     */
    method UsdConstructMasterTree(schema: Option<Schema>) returns (ghost added: seq<UsdNode>)
      requires Registry()
      modifies this`schemas, this`schemaLUT, scene`components, log`events
      decreases if schema.Some? then schema.value.children else [], 1
      ensures Registry()
      ensures schemas == old(schemas) + added
      ensures Schemas(added) == if schema.Some? then PreOrder(schema.value) else []
      ensures Unhosted(added)
      ensures AllMadeHere(added)
      ensures forall n :: n in added ==> n !in old(schemas)
      ensures log.events == old(log.events) + HookCalls(OnLoad, added)
      ensures scene.components == old(scene.components)
    {
      if schema.None? {
        return [];
      }
      var s := schema.value;
      var elem := UsdCreateNode(s, None);
      assert elem !in schemas;
      RegisterNode(elem);
      ghost var kids := UsdConstructMasterChildren(s.children);
      NewAppend(old(schemas), [elem], kids);
      assert [elem][..0] == [];
      SubtreeClose(elem, kids, s);
      assert HookCalls(OnLoad, [elem]) == [NodeEvent(OnLoad, elem)];
      TraceStep(old(log.events), OnLoad, [elem], kids);
      ConcatAssoc(old(schemas), [elem], kids);
      added := [elem] + kids;
    }

    /**
     * The loop of UsdConstructMasterTree over the children of a schema, and
     * of UsdConstructTrees over the masters: each subtree of `cs` in turn.
     */
    method UsdConstructMasterChildren(cs: seq<Schema>) returns (ghost kids: seq<UsdNode>)
      requires Registry()
      modifies this`schemas, this`schemaLUT, scene`components, log`events
      decreases cs, 0
      ensures Registry()
      ensures schemas == old(schemas) + kids
      ensures Schemas(kids) == PreOrderAll(cs)
      ensures Unhosted(kids)
      ensures AllMadeHere(kids)
      ensures forall n :: n in kids ==> n !in old(schemas)
      ensures log.events == old(log.events) + HookCalls(OnLoad, kids)
      ensures scene.components == old(scene.components)
    {
      kids := [];
      ghost var c0, s0, l0 := scene.components, schemas, log.events;
      var n := |cs|;
      for ci := 0 to n
        invariant scene.components == c0
        invariant Registry()
        invariant schemas == s0 + kids
        invariant log.events == l0 + HookCalls(OnLoad, kids)
        invariant Schemas(kids) == PreOrderAll(cs[..ci])
        invariant Unhosted(kids)
        invariant AllMadeHere(kids)
        invariant forall n :: n in kids ==> n !in s0
      {
        ghost var more := UsdConstructMasterTree(Some(cs[ci]));
        ChildrenStep(kids, more, cs, ci);
        NewAppend(s0, kids, more);
        AllMadeHereAppend(kids, more);
        UnhostedAppend(kids, more);
        ConcatAssoc(s0, kids, more);
        TraceStep(l0, OnLoad, kids, more);
        kids := kids + more;
      }
      assert cs[..n] == cs;
    }

    /**
     * The first loop of UsdConstructTrees, over the lookup table in any
     * order: every live host of an entry that carries a UsdIComponent gets
     * its `schema` nulled and becomes a deletion candidate.
     */
    method ReleaseHosts() returns (data: seq<ObjId>)
      modifies scene`components
      ensures forall g :: g in data <==> g in Candidates(schemaLUT, scene.alive, old(scene.components))
      ensures scene.components == Released(old(scene.components), Candidates(schemaLUT, scene.alive, old(scene.components)))
    {
      data := [];
      var rest := schemaLUT.Keys;
      ghost var done: set<string> := {};
      while rest != {}
        invariant rest + done == schemaLUT.Keys && rest !! done
        invariant forall g :: g in data <==> g in CandidatesAt(schemaLUT, done, scene.alive, old(scene.components))
        invariant scene.components == Released(old(scene.components), CandidatesAt(schemaLUT, done, scene.alive, old(scene.components)))
        decreases rest
      {
        var k :| k in rest;
        var e := schemaLUT[k];
        CandidatesAtAdd(schemaLUT, done, k, scene.alive, old(scene.components));
        if e.gameObject.Some? && e.gameObject.value < |scene.alive| && scene.alive[e.gameObject.value] {
          var go := e.gameObject.value;
          if go in scene.components {
            ReleasedAdd(old(scene.components), CandidatesAt(schemaLUT, done, scene.alive, old(scene.components)), go);
            scene.ClearComponentSchema(go);
            data := data + [go];
          }
        }
        rest, done := rest - {k}, done + {k};
      }
    }

    /**
     * The last loop of UsdConstructTrees: destroys each candidate that is
     * still live and whose UsdIComponent no node claimed back; nothing else
     * is touched.
     */
    method SweepUnclaimed(data: seq<ObjId>)
      requires scene.Valid()
      modifies scene`alive
      ensures scene.Valid() && |scene.alive| == |old(scene.alive)|
      ensures forall g :: 0 <= g < |scene.alive| ==>
                scene.alive[g] == (old(scene.alive[g]) && !(g in data && Unclaimed(scene.components, g)))
    {
      for i := 0 to |data|
        invariant scene.Valid() && |scene.alive| == |old(scene.alive)|
        invariant forall g :: 0 <= g < |scene.alive| ==>
                    scene.alive[g] == (old(scene.alive[g]) && !(g in data[..i] && Unclaimed(scene.components, g)))
      {
        assert data[..i + 1] == data[..i] + [data[i]];
        var go := data[i];
        if go < |scene.alive| && scene.alive[go] {
          if go in scene.components && scene.components[go].None? {
            scene.Destroy(go);
          }
        }
      }
      assert data[..|data|] == data;
    }

    /**
     * UsdConstructTrees: releases the hosts of the previous generation,
     * rebuilds the node list and lookup table from scratch (every master
     * tree, then the tree of each child of the root, hosted under this
     * stream's own object) and destroys the released hosts that no new node
     * is hosted on. `walked` is the hierarchy before that sweep.
     */
    method UsdConstructTrees() returns (ghost masters: seq<UsdNode>, ghost roots: seq<UsdNode>, ghost walked: Shape)
      requires Valid() && ctx != null
      modifies this`schemas, this`schemaLUT, scene`names, scene`parents, scene`alive, scene`components, log`events
      ensures Valid()
      ensures schemas == masters + roots
      ensures Schemas(schemas) == Visit(ctx.stage)
      ensures Schemas(masters) == PreOrderAll(ctx.stage.masters) && Unhosted(masters)
      ensures AllMadeHere(schemas)
      ensures log.events == old(log.events) + HookCalls(OnLoad, schemas)
      ensures Forest(old(Shape(scene.names, scene.parents, scene.alive)), self, ctx.stage.root.children, |ctx.stage.root.children|) == (walked, Hosts(roots))
      ensures scene.names == walked.names && scene.parents == walked.parents && |scene.alive| == |walked.alive|
      ensures forall g :: 0 <= g < |walked.alive| ==>
                scene.alive[g] == (walked.alive[g] && !(g in old(Candidates(schemaLUT, scene.alive, scene.components)) && g !in HostsOf(roots)))
      ensures scene.components == Claim(Released(old(scene.components), old(Candidates(schemaLUT, scene.alive, scene.components))), roots)
      ensures ctx.composition == old(ctx.composition) && ctx.selections == old(ctx.selections) && ctx.stage == old(ctx.stage)
      ensures ctx.importSettings == old(ctx.importSettings)
      ensures variantSelections == old(variantSelections) && importSettings == old(importSettings) && time == old(time)
    {
      ghost var cands := Candidates(schemaLUT, scene.alive, scene.components);
      var data := ReleaseHosts();
      masters, roots := UsdRebuildRegistry();
      walked := Shape(scene.names, scene.parents, scene.alive);
      ghost var claimed := scene.components;
      SweepUnclaimed(data);
      forall g | g in cands
        ensures Unclaimed(claimed, g) <==> g !in HostsOf(roots)
      {
        SweepTargets(old(scene.components), cands, roots, g);
      }
    }

    /**
     * The middle of UsdConstructTrees: fresh containers, then every master
     * tree, then the tree of each child of the root under this stream's own
     * object, each node registered as it is made.
     */
    method UsdRebuildRegistry() returns (ghost masters: seq<UsdNode>, ghost roots: seq<UsdNode>)
      requires Registry() && ctx != null
      modifies this`schemas, this`schemaLUT, scene`names, scene`parents, scene`alive, scene`components, log`events
      ensures Registry() && Distinct(schemas)
      ensures schemas == masters + roots
      ensures Schemas(schemas) == Visit(ctx.stage)
      ensures Schemas(masters) == PreOrderAll(ctx.stage.masters) && Unhosted(masters)
      ensures AllMadeHere(schemas)
      ensures log.events == old(log.events) + HookCalls(OnLoad, schemas)
      ensures Forest(old(Shape(scene.names, scene.parents, scene.alive)), self, ctx.stage.root.children, |ctx.stage.root.children|) == (Shape(scene.names, scene.parents, scene.alive), Hosts(roots))
      ensures scene.components == Claim(old(scene.components), roots)
    {
      schemas, schemaLUT := [], map[];
      masters := UsdConstructMasterChildren(ctx.stage.masters);
      assert [] + masters == masters;
      roots := UsdConstructChildren(self, ctx.stage.root.children);
      SchemasAppend(masters, roots);
      TraceStep(old(log.events), OnLoad, masters, roots);
    }

    // ------------------------------------------------------------ lifecycle

    /**
     * UsdUnload: without a context, nothing. Otherwise every node unloads in
     * list order, both registries are cleared and the context is destroyed.
     */
    method UsdUnload()
      requires Valid()
      modifies this`schemas, this`schemaLUT, this`ctx, log`events
      ensures Valid()
      ensures ctx == null && schemas == [] && schemaLUT == map[]
      ensures log.events == old(log.events) + UnloadEvents(old(ctx) != null, old(schemas))
      ensures variantSelections == old(variantSelections) && importSettings == old(importSettings) && time == old(time)
    {
      if ctx == null {
        return;
      }
      ghost var before := log.events;
      var c := |schemas|;
      for i := 0 to c
        invariant log.events == before + HookCalls(OnUnload, schemas[..i])
        modifies log`events
      {
        assert schemas[..i + 1] == schemas[..i] + [schemas[i]];
        schemas[i].UsdOnUnload(log);
      }
      assert schemas[..c] == schemas;
      schemas, schemaLUT := [], map[];
      ctx.Destroy();
      ctx := null;
    }

    /**
     * UsdLoad: unloads, locks the data path and opens the file in a new
     * context; a file that does not open destroys the context and fails.
     * Otherwise the stored variant selections are applied (recomposing the
     * stage when one changed), the import settings handed over, the node
     * trees rebuilt, and one forced frame fills the first samples. The sweep
     * of UsdConstructTrees has nothing to destroy here: the unload emptied
     * the lookup table it takes its candidates from.
     */
    method UsdLoad(p: DataPath) returns (ok: bool, ghost rebuilt: bool, ghost masters: seq<UsdNode>, ghost roots: seq<UsdNode>)
      requires Valid()
      modifies this`path, this`ctx, this`schemas, this`schemaLUT, this`requestForceUpdate, this`prevUpdateTime
      modifies scene`names, scene`parents, scene`alive, scene`components, log`events
      ensures Valid()
      ensures path == DataPath(p.path, true)
      ensures ok <==> fullPathOf(p.path) in backend
      ensures !ok ==> ctx == null && schemas == []
      ensures !ok ==> scene.names == old(scene.names) && scene.parents == old(scene.parents) && scene.alive == old(scene.alive)
      ensures !ok ==> scene.components == old(scene.components)
      ensures !ok ==> requestForceUpdate == old(requestForceUpdate) && prevUpdateTime == old(prevUpdateTime)
      ensures !ok ==> log.events == old(log.events) + UnloadEvents(old(ctx) != null, old(schemas))
                                    + [ContextOpen(fullPathOf(p.path)), ContextDestroy]
      ensures ok ==> ctx != null && fresh(ctx) && ctx.composition == Some(backend[fullPathOf(p.path)])
      ensures ok ==> ctx.selections == LoadedSelections(backend[fullPathOf(p.path)], variantSelections)
      ensures ok ==> ctx.stage == LoadedStage(backend[fullPathOf(p.path)], variantSelections)
      ensures ok ==> ctx.importSettings == Some(importSettings)
      ensures ok ==> (rebuilt <==> Changes(backend[fullPathOf(p.path)].authored, OverridesAt(variantSelections,
                       Resolved(variantSelections, backend[fullPathOf(p.path)].compose(backend[fullPathOf(p.path)].authored)))))
      ensures ok ==> schemas == masters + roots && Schemas(schemas) == Visit(ctx.stage) && AllMadeHere(schemas)
      ensures ok ==> Distinct(schemas)
      ensures ok ==> Schemas(masters) == PreOrderAll(ctx.stage.masters) && Unhosted(masters)
      ensures ok ==> Forest(old(Shape(scene.names, scene.parents, scene.alive)), self, ctx.stage.root.children, |ctx.stage.root.children|)
                       == (Shape(scene.names, scene.parents, scene.alive), Hosts(roots))
      ensures ok ==> scene.components == Claim(old(scene.components), roots)
      ensures ok ==> !requestForceUpdate && prevUpdateTime == Some(time)
      ensures ok ==> log.events == old(log.events) + UnloadEvents(old(ctx) != null, old(schemas)) + [ContextOpen(fullPathOf(p.path))]
                                   + LoadEvents(rebuilt, importSettings, schemas, time, old(prevUpdateTime) == Some(time))
    {
      ok := UsdOpen(p);
      if !ok {
        rebuilt, masters, roots := false, [], [];
        ConcatAssoc(old(log.events) + UnloadEvents(old(ctx) != null, old(schemas)), [ContextOpen(fullPathOf(p.path))], [ContextDestroy]);
        return;
      }
      ghost var l1 := old(log.events) + UnloadEvents(old(ctx) != null, old(schemas)) + [ContextOpen(fullPathOf(p.path))];
      assert log.events == l1;
      rebuilt, masters, roots := UsdLoadOpened(backend[fullPathOf(p.path)]);
    }

    /** UsdLoad once its file opened: the configuration of the stage, then the node trees and the first frame. */
    method UsdLoadOpened(ghost comp: Composition) returns (ghost rebuilt: bool, ghost masters: seq<UsdNode>, ghost roots: seq<UsdNode>)
      requires Valid() && ctx != null && schemaLUT == map[] && ctx.composition == Some(comp)
      requires ctx.selections == comp.authored && ctx.stage == comp.compose(comp.authored)
      modifies this`schemas, this`schemaLUT, this`requestForceUpdate, this`prevUpdateTime
      modifies ctx`selections, ctx`stage, ctx`importSettings
      modifies scene`names, scene`parents, scene`alive, scene`components, log`events
      ensures Valid() && ctx.composition == old(ctx.composition)
      ensures ctx.selections == LoadedSelections(comp, variantSelections)
      ensures ctx.stage == LoadedStage(comp, variantSelections)
      ensures ctx.importSettings == Some(importSettings)
      ensures rebuilt <==> Changes(comp.authored, OverridesAt(variantSelections, Resolved(variantSelections, comp.compose(comp.authored))))
      ensures schemas == masters + roots && Schemas(schemas) == Visit(ctx.stage) && AllMadeHere(schemas)
      ensures Schemas(masters) == PreOrderAll(ctx.stage.masters) && Unhosted(masters)
      ensures Forest(old(Shape(scene.names, scene.parents, scene.alive)), self, ctx.stage.root.children, |ctx.stage.root.children|)
                == (Shape(scene.names, scene.parents, scene.alive), Hosts(roots))
      ensures scene.components == Claim(old(scene.components), roots)
      ensures !requestForceUpdate && prevUpdateTime == Some(time)
      ensures log.events == old(log.events) + LoadEvents(rebuilt, importSettings, schemas, time, old(prevUpdateTime) == Some(time))
    {
      ghost var l1 := log.events;
      rebuilt := UsdConfigure(comp);
      ghost var l2 := log.events;
      masters, roots := UsdPopulate();
      LoadTrace(l1, l2, log.events, rebuilt, importSettings, schemas, time, old(prevUpdateTime) == Some(time));
    }

    /**
     * The first half of UsdLoad: unloads, locks the data path, creates a
     * context and opens the file; a file that does not open destroys the
     * context again.
     */
    method UsdOpen(p: DataPath) returns (ok: bool)
      requires Valid()
      modifies this`path, this`ctx, this`schemas, this`schemaLUT, log`events
      ensures Valid()
      ensures path == DataPath(p.path, true) && schemas == [] && schemaLUT == map[]
      ensures ok <==> fullPathOf(p.path) in backend
      ensures !ok ==> ctx == null
      ensures ok ==> ctx != null && fresh(ctx) && ctx.composition == Some(backend[fullPathOf(p.path)])
      ensures ok ==> ctx.selections == backend[fullPathOf(p.path)].authored && ctx.importSettings.None?
      ensures ok ==> ctx.stage == backend[fullPathOf(p.path)].compose(backend[fullPathOf(p.path)].authored)
      ensures log.events == old(log.events) + UnloadEvents(old(ctx) != null, old(schemas)) + [ContextOpen(fullPathOf(p.path))]
                            + (if ok then [] else [ContextDestroy])
      ensures scene.names == old(scene.names) && scene.parents == old(scene.parents) && scene.alive == old(scene.alive)
      ensures scene.components == old(scene.components)
      ensures requestForceUpdate == old(requestForceUpdate) && prevUpdateTime == old(prevUpdateTime)
      ensures variantSelections == old(variantSelections) && importSettings == old(importSettings) && time == old(time)
    {
      UsdUnload();
      path := DataPath(p.path, true);
      var c := new Context.Create(backend, log);
      ctx := c;
      ok := c.Open(fullPathOf(path.path));
      if !ok {
        c.Destroy();
        ctx := null;
      }
    }

    /**
     * The middle of UsdLoad: applies the stored variant selections,
     * recomposes the stage when one of them changed a selection, and hands
     * the import settings to the context.
     */
    method UsdConfigure(ghost comp: Composition) returns (rebuilt: bool)
      requires ctx != null && ctx.log == log && ctx.composition == Some(comp)
      requires ctx.selections == comp.authored && ctx.stage == comp.compose(comp.authored)
      modifies ctx`selections, ctx`stage, ctx`importSettings, log`events
      ensures ctx.selections == LoadedSelections(comp, variantSelections)
      ensures ctx.stage == LoadedStage(comp, variantSelections)
      ensures ctx.importSettings == Some(importSettings)
      ensures rebuilt <==> Changes(comp.authored, OverridesAt(variantSelections, Resolved(variantSelections, comp.compose(comp.authored))))
      ensures log.events == old(log.events) + (if rebuilt then [ContextRebuildSchemaTree] else []) + [ContextSetImportSettings(importSettings)]
      ensures ctx.composition == old(ctx.composition)
      ensures scene.names == old(scene.names) && scene.parents == old(scene.parents) && scene.alive == old(scene.alive)
      ensures scene.components == old(scene.components)
      ensures prevUpdateTime == old(prevUpdateTime) && schemaLUT == old(schemaLUT)
      ensures variantSelections == old(variantSelections) && importSettings == old(importSettings) && time == old(time)
    {
      rebuilt := UsdCompose(comp);
      UsdApplyImportConfig();
    }

    /** The variant step of UsdConfigure: the stored selections, then a recomposition when one of them changed a selection. */
    method UsdCompose(ghost comp: Composition) returns (rebuilt: bool)
      requires ctx != null && ctx.log == log && ctx.composition == Some(comp)
      requires ctx.selections == comp.authored && ctx.stage == comp.compose(comp.authored)
      modifies ctx`selections, ctx`stage, log`events
      ensures ctx.selections == LoadedSelections(comp, variantSelections)
      ensures ctx.stage == LoadedStage(comp, variantSelections)
      ensures rebuilt <==> Changes(comp.authored, OverridesAt(variantSelections, Resolved(variantSelections, comp.compose(comp.authored))))
      ensures log.events == old(log.events) + (if rebuilt then [ContextRebuildSchemaTree] else [])
      ensures ctx.composition == old(ctx.composition) && variantSelections == old(variantSelections)
    {
      rebuilt := UsdApplyVarianceSelections();
      if rebuilt {
        ctx.RebuildSchemaTree();
      } else {
        UnchangedSelectionsKeepStage(comp, OverridesAt(variantSelections, Resolved(variantSelections, comp.compose(comp.authored))));
      }
    }

    /**
     * The end of UsdLoad, on a stream with no nodes: the node trees, then a
     * forced frame at the current play time that fills the first samples.
     * The sweep of UsdConstructTrees destroys nothing, as the empty lookup
     * table gives it no candidates.
     */
    method UsdPopulate() returns (ghost masters: seq<UsdNode>, ghost roots: seq<UsdNode>)
      requires Valid() && ctx != null && schemaLUT == map[]
      modifies this`schemas, this`schemaLUT, this`requestForceUpdate, this`prevUpdateTime
      modifies scene`names, scene`parents, scene`alive, scene`components, log`events
      ensures Valid()
      ensures schemas == masters + roots && Schemas(schemas) == Visit(ctx.stage) && AllMadeHere(schemas)
      ensures Schemas(masters) == PreOrderAll(ctx.stage.masters) && Unhosted(masters)
      ensures Forest(old(Shape(scene.names, scene.parents, scene.alive)), self, ctx.stage.root.children, |ctx.stage.root.children|)
                == (Shape(scene.names, scene.parents, scene.alive), Hosts(roots))
      ensures scene.components == Claim(old(scene.components), roots)
      ensures !requestForceUpdate && prevUpdateTime == Some(time)
      ensures log.events == old(log.events) + HookCalls(OnLoad, schemas) + PrepareEvents(true, old(prevUpdateTime) == Some(time), schemas)
                            + [ContextUpdateAllSamples(time)] + SyncEvents(true, old(prevUpdateTime) == Some(time), schemas)
      ensures ctx.composition == old(ctx.composition) && ctx.selections == old(ctx.selections) && ctx.stage == old(ctx.stage)
      ensures ctx.importSettings == old(ctx.importSettings)
      ensures importSettings == old(importSettings) && variantSelections == old(variantSelections)
    {
      masters, roots := UsdConstructFirstTrees();
      UsdFirstFrame();
    }

    /**
     * UsdConstructTrees on a stream with no nodes: with an empty lookup
     * table nothing is released, so the sweep destroys nothing and the
     * hierarchy is exactly what the walk left.
     */
    method UsdConstructFirstTrees() returns (ghost masters: seq<UsdNode>, ghost roots: seq<UsdNode>)
      requires Valid() && ctx != null && schemaLUT == map[]
      modifies this`schemas, this`schemaLUT, scene`names, scene`parents, scene`alive, scene`components, log`events
      ensures Valid()
      ensures schemas == masters + roots && Schemas(schemas) == Visit(ctx.stage) && AllMadeHere(schemas)
      ensures Schemas(masters) == PreOrderAll(ctx.stage.masters) && Unhosted(masters)
      ensures Forest(old(Shape(scene.names, scene.parents, scene.alive)), self, ctx.stage.root.children, |ctx.stage.root.children|)
                == (Shape(scene.names, scene.parents, scene.alive), Hosts(roots))
      ensures scene.components == Claim(old(scene.components), roots)
      ensures log.events == old(log.events) + HookCalls(OnLoad, schemas)
      ensures ctx.composition == old(ctx.composition) && ctx.selections == old(ctx.selections) && ctx.stage == old(ctx.stage)
      ensures ctx.importSettings == old(ctx.importSettings)
      ensures importSettings == old(importSettings) && variantSelections == old(variantSelections) && time == old(time)
      ensures requestForceUpdate == old(requestForceUpdate) && prevUpdateTime == old(prevUpdateTime)
    {
      ghost var c0, alive0 := scene.components, scene.alive;
      ghost var cands := Candidates(schemaLUT, alive0, c0);
      NoCandidates(alive0, c0);
      ReleasedNothing(c0);
      ghost var walked;
      masters, roots, walked := UsdConstructTrees();
      SweepNothing(walked.alive, scene.alive, cands, HostsOf(roots));
    }

    /** The end of UsdLoad: a forced frame at the current play time fills the first samples. */
    method UsdFirstFrame()
      requires Valid() && ctx != null
      modifies this`requestForceUpdate, this`prevUpdateTime, log`events
      ensures Valid()
      ensures !requestForceUpdate && prevUpdateTime == Some(time)
      ensures log.events == old(log.events) + PrepareEvents(true, old(prevUpdateTime) == Some(time), schemas)
                            + [ContextUpdateAllSamples(time)] + SyncEvents(true, old(prevUpdateTime) == Some(time), schemas)
      ensures ctx.composition == old(ctx.composition) && ctx.selections == old(ctx.selections) && ctx.stage == old(ctx.stage)
      ensures ctx.importSettings == old(ctx.importSettings)
      ensures scene.names == old(scene.names) && scene.parents == old(scene.parents) && scene.alive == old(scene.alive)
      ensures scene.components == old(scene.components)
      ensures variantSelections == old(variantSelections) && importSettings == old(importSettings) && time == old(time)
    {
      ghost var l0 := log.events;
      requestForceUpdate := true;
      UsdPrepareSample();
      ghost var l1 := log.events;
      ctx.UpdateAllSamples(time);
      ghost var l2 := log.events;
      UsdSyncDataBegin();
      ghost var l3 := log.events;
      UsdSyncDataEnd();
      FirstFrameTrace(l0, l1, l2, l3, log.events, old(prevUpdateTime) == Some(time), schemas, time);
    }

    /**
     * UsdApplyVarianceSelections: for every stored entry whose prim path
     * resolves, sets each (variant-set index, selection) pair in order, with
     * no short-circuit, and answers whether any of the calls changed a
     * selection.
     */
    method UsdApplyVarianceSelections() returns (applied: bool)
      requires ctx != null
      modifies ctx`selections
      ensures ctx.selections == old(ctx.selections) + OverridesAt(variantSelections, Resolved(variantSelections, ctx.stage))
      ensures applied <==> Changes(old(ctx.selections), OverridesAt(variantSelections, Resolved(variantSelections, ctx.stage)))
    {
      applied := false;
      ghost var before := ctx.selections;
      ghost var stage := ctx.stage;
      ghost var resolved := Resolved(variantSelections, stage);
      var rest := variantSelections.Keys;
      ghost var done: set<string> := {};
      while rest != {}
        invariant ctx.stage == stage
        invariant rest + done == variantSelections.Keys && rest !! done
        invariant ctx.selections == before + OverridesAt(variantSelections, done * resolved)
        invariant applied <==> Changes(before, OverridesAt(variantSelections, done * resolved))
        decreases rest
      {
        var key :| key in rest;
        var changed := UsdApplyVariantKey(key, before, done * resolved, resolved);
        applied := applied || changed;
        ResolvedStep(done, resolved, key);
        rest, done := rest - {key}, done + {key};
      }
      ResolvedAll(done, resolved);
    }

    /**
     * One pass of the loop of UsdApplyVarianceSelections: when `key`
     * resolves to a schema, applies its stored entry on top of the entries
     * of `keys` already applied.
     */
    method UsdApplyVariantKey(key: string, ghost before: Selections, ghost keys: set<string>, ghost resolved: set<string>)
      returns (changed: bool)
      requires ctx != null && key in variantSelections && key !in keys
      requires resolved == Resolved(variantSelections, ctx.stage)
      requires ctx.selections == before + OverridesAt(variantSelections, keys)
      modifies ctx`selections
      ensures ctx.selections == before + OverridesAt(variantSelections, keys + {key} * resolved)
      ensures Changes(before, OverridesAt(variantSelections, keys)) || changed
              <==> Changes(before, OverridesAt(variantSelections, keys + {key} * resolved))
    {
      var p := ctx.FindSchema(key);
      FindByPathOf(ctx.stage, key);
      if p.Some? {
        changed := UsdApplyVariantEntry(p.value, variantSelections[key]);
        ApplyEntry(before, variantSelections, keys, key);
        assert {key} * resolved == {key};
      } else {
        changed := false;
        assert keys + {key} * resolved == keys;
      }
    }

    /**
     * The inner loop of UsdApplyVarianceSelections: sets each pair of one
     * stored entry on `schema`, in index order, and answers whether any call
     * changed a selection.
     */
    method UsdApplyVariantEntry(schema: Schema, selections: seq<int>) returns (applied: bool)
      requires ctx != null
      modifies ctx`selections
      ensures ctx.selections == old(ctx.selections) + EntryOverrides(schema.path, selections)
      ensures applied <==> Changes(old(ctx.selections), EntryOverrides(schema.path, selections))
    {
      applied := false;
      EntryStart(ctx.selections, schema.path, selections);
      for i := 0 to |selections|
        invariant ctx.selections == old(ctx.selections) + EntryOverrides(schema.path, selections[..i])
        invariant applied <==> Changes(old(ctx.selections), EntryOverrides(schema.path, selections[..i]))
      {
        ghost var o := EntryOverrides(schema.path, selections[..i]);
        var changed := ctx.SetVariantSelection(schema, i, selections[i]);
        EntryOverridesSnoc(schema.path, selections, i);
        SelectionSnoc(old(ctx.selections), o, (schema.path, i), selections[i]);
        ChangesSnoc(old(ctx.selections), o, (schema.path, i), selections[i]);
        if changed {
          applied := true;
        }
      }
      assert selections[..|selections|] == selections;
    }

    /** UsdApplyImportConfig: hands the global import settings to the context. */
    method UsdApplyImportConfig()
      requires ctx != null && ctx.log == log
      modifies ctx`importSettings, log`events
      ensures ctx.importSettings == Some(importSettings)
      ensures log.events == old(log.events) + [ContextSetImportSettings(importSettings)]
      ensures ctx.composition == old(ctx.composition) && ctx.selections == old(ctx.selections) && ctx.stage == old(ctx.stage)
      ensures importSettings == old(importSettings)
    {
      ctx.SetImportSettings(importSettings);
    }

    /** Update: without a context, nothing; otherwise phase one of the frame, then the backend's sample update. */
    method Update()
      requires Valid()
      modifies log`events
      ensures log.events == old(log.events) +
                (if ctx == null then []
                 else PrepareEvents(requestForceUpdate, prevUpdateTime == Some(time), schemas) + [ContextUpdateAllSamples(time)])
    {
      if ctx == null {
        return;
      }
      UsdPrepareSample();
      ctx.UpdateAllSamples(time);
    }

    /**
     * LateUpdate: without a context, nothing; otherwise phase two. Either
     * way a loaded stream ends the frame with no force pending and in step
     * with the current time.
     */
    method LateUpdate()
      requires Valid()
      modifies this`requestForceUpdate, this`prevUpdateTime, log`events
      ensures ctx == null ==> requestForceUpdate == old(requestForceUpdate) &&
                              prevUpdateTime == old(prevUpdateTime) && log.events == old(log.events)
      ensures ctx != null ==> !requestForceUpdate && prevUpdateTime == Some(time)
      ensures ctx != null ==>
                log.events == old(log.events) + SyncEvents(old(requestForceUpdate), old(prevUpdateTime) == Some(time), schemas)
    {
      if ctx == null {
        return;
      }
      UsdSyncDataBegin();
      UsdSyncDataEnd();
    }

    /** Load: records the data path, but only while nothing is loaded. */
    method Load(p: DataPath)
      modifies this`path
      ensures path == if ctx == null then p else old(path)
    {
      if ctx == null {
        path := p;
      }
    }
  }
}
