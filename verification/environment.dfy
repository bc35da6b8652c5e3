/**
 * What UsdStream calls but does not implement, each reduced to the contract
 * the controller relies on: the per-node hooks of the mirrored nodes, the
 * Unity transform hierarchy and the native usdi context. Every call that the
 * controller can observe is appended to one ghost event trace, so the order
 * of the controller's calls can be stated.
 */
module UsdEnvironment {
  import opened Wrappers
  import opened UsdiSchema
  import opened UsdNodeFactory

  /** A host (Unity) game object, identified by its creation index. */
  type ObjId = nat

  /** The play time; the controller only compares it for equality and hands it to the context. */
  type PlayTime(==)

  /** usdi.ImportSettings, opaque to the controller. */
  type ImportSettings(==)

  // ------------------------------------------------------------ event trace

  datatype Hook = OnLoad | OnUnload | PrepareSample | SyncDataBegin | SyncDataEnd

  datatype Event =
    | NodeEvent(hook: Hook, node: UsdNode)
    | ContextOpen(path: string)
    | ContextDestroy
    | ContextRebuildSchemaTree
    | ContextSetImportSettings(settings: ImportSettings)
    | ContextNotifyForceUpdate
    | ContextUpdateAllSamples(time: PlayTime)

  /** The calls of hook `h` on every node of `nodes`, in list order. */
  function HookCalls(h: Hook, nodes: seq<UsdNode>): (r: seq<Event>)
    ensures |r| == |nodes|
    ensures forall i :: 0 <= i < |nodes| ==> r[i] == NodeEvent(h, nodes[i])
  {
    if nodes == [] then [] else HookCalls(h, nodes[..|nodes| - 1]) + [NodeEvent(h, nodes[|nodes| - 1])]
  }

  class EventLog {
    ghost var events: seq<Event>

    constructor ()
      ensures events == []
    {
      events := [];
    }
  }

  // ------------------------------------------------------- Unity hierarchy

  /**
   * The Unity scene as an arena of game objects indexed by creation order:
   * names and parents never change once an object exists, `alive` turns false
   * when an object is destroyed. `components` holds the UsdIComponent of each
   * object that carries one, as the node its `schema` field points back at.
   * Sibling order is creation order.
   */
  class Scene {
    var names: seq<string>
    var parents: seq<Option<ObjId>>
    var alive: seq<bool>
    var components: map<ObjId, Option<UsdNode>>

    ghost predicate Valid()
      reads this
    {
      |parents| == |names| && |alive| == |names|
    }

    constructor (names: seq<string>, parents: seq<Option<ObjId>>)
      requires |parents| == |names|
      ensures Valid()
      ensures this.names == names && this.parents == parents
      ensures forall g :: 0 <= g < |names| ==> alive[g]
      ensures components == map[]
    {
      this.names := names;
      this.parents := parents;
      alive := seq(|names|, _ => true);
      components := map[];
    }

    /** Transform.Find: the first live child of `parent` called `name`. */
    function FindChild(parent: ObjId, name: string): (r: Option<ObjId>)
      reads this
      ensures r.Some? ==> IsChildNamed(r.value, parent, name, names, parents, alive)
      ensures r.Some? ==> forall g :: 0 <= g < r.value ==> !IsChildNamed(g, parent, name, names, parents, alive)
      ensures r.None? ==> forall g :: 0 <= g < |names| ==> !IsChildNamed(g, parent, name, names, parents, alive)
    {
      FirstChild(Shape(names, parents, alive), parent, name, 0)
    }

    /** new GameObject(), named `name` and parented under `parent`. */
    method CreateChild(name: string, parent: ObjId) returns (g: ObjId)
      requires Valid()
      modifies this`names, this`parents, this`alive
      ensures Valid()
      ensures g == |old(names)|
      ensures names == old(names) + [name] && parents == old(parents) + [Some(parent)]
      ensures alive == old(alive) + [true]
    {
      g := |names|;
      names, parents, alive := names + [name], parents + [Some(parent)], alive + [true];
    }

    /** `c.schema = null` on the UsdIComponent of `g`. */
    method ClearComponentSchema(g: ObjId)
      requires g in components
      modifies this`components
      ensures components == old(components)[g := None]
    {
      components := components[g := None];
    }

    /** The destroy operation (Undo.DestroyObjectImmediate in the editor, DestroyImmediate otherwise). */
    method Destroy(g: ObjId)
      requires Valid() && g < |names|
      modifies this`alive
      ensures Valid()
      ensures alive == old(alive)[g := false]
    {
      alive := alive[g := false];
    }
  }

  /** The names, parents and liveness of the scene's objects, indexed by object id. */
  datatype Shape = Shape(names: seq<string>, parents: seq<Option<ObjId>>, alive: seq<bool>)
  {
    predicate WellFormed()
    {
      |parents| == |names| && |alive| == |names|
    }
  }

  /** The first live child of `parent` called `name` among the objects from `from` on. */
  function FirstChild(sh: Shape, parent: ObjId, name: string, from: nat): (r: Option<ObjId>)
    decreases |sh.names| - from
    ensures r.Some? ==> from <= r.value && IsChildNamed(r.value, parent, name, sh.names, sh.parents, sh.alive)
    ensures r.Some? ==> forall g :: from <= g < r.value ==> !IsChildNamed(g, parent, name, sh.names, sh.parents, sh.alive)
    ensures r.None? ==> forall g :: from <= g < |sh.names| ==> !IsChildNamed(g, parent, name, sh.names, sh.parents, sh.alive)
  {
    if from >= |sh.names| then None
    else if IsChildNamed(from, parent, name, sh.names, sh.parents, sh.alive) then Some(from)
    else FirstChild(sh, parent, name, from + 1)
  }

  /** Object `g` is a live child of `parent` named `name`. */
  predicate IsChildNamed(g: int, parent: ObjId, name: string,
                         names: seq<string>, parents: seq<Option<ObjId>>, alive: seq<bool>)
  {
    0 <= g < |names| && g < |parents| && g < |alive| && alive[g] && parents[g] == Some(parent) && names[g] == name
  }

  /** Appending a live child under `parent` keeps sibling names unique when no live sibling has its name. */
  lemma UniqueAfterCreate(names: seq<string>, parents: seq<Option<ObjId>>, alive: seq<bool>,
                          name: string, parent: ObjId)
    requires UniqueSiblingNames(names, parents, alive)
    requires |parents| == |names| && |alive| == |names|
    requires forall g :: 0 <= g < |names| ==> !IsChildNamed(g, parent, name, names, parents, alive)
    ensures UniqueSiblingNames(names + [name], parents + [Some(parent)], alive + [true])
  {
    var names', parents', alive' := names + [name], parents + [Some(parent)], alive + [true];
    forall g, h | 0 <= g < h < |names'| && h < |parents'| && h < |alive'| &&
                  alive'[g] && alive'[h] && parents'[g].Some? && parents'[g] == parents'[h]
      ensures names'[g] != names'[h]
    {
      if h == |names| {
        assert !IsChildNamed(g, parent, name, names, parents, alive);
      }
    }
  }

  /** No two live objects under the same parent share a name. */
  ghost predicate UniqueSiblingNames(names: seq<string>, parents: seq<Option<ObjId>>, alive: seq<bool>)
  {
    forall g, h ::
      (0 <= g < h < |names| && h < |parents| && h < |alive| &&
       alive[g] && alive[h] && parents[g].Some? && parents[g] == parents[h]) ==> names[g] != names[h]
  }

  // ------------------------------------------------------ mirrored nodes

  /**
   * A UsdSchema: the mirrored node of one native schema. Its kind, schema,
   * owning stream and host game object are fixed when it is made; its hooks
   * are opaque to the controller and only leave their call in the trace.
   */
  class UsdNode {
    const kind: NodeKind
    const nativeSchemaPtr: Schema
    const stream: object
    const gameObject: Option<ObjId>

    constructor (kind: NodeKind, schema: Schema, stream: object, gameObject: Option<ObjId>)
      ensures this.kind == kind && nativeSchemaPtr == schema
      ensures this.stream == stream && this.gameObject == gameObject
    {
      this.kind := kind;
      nativeSchemaPtr := schema;
      this.stream := stream;
      this.gameObject := gameObject;
    }

    /** The prim path the node is registered under: that of its schema. */
    function PrimPath(): string
    {
      nativeSchemaPtr.path
    }

    /**
     * UsdOnLoad. Modelling assumption: it attaches (or reuses) the host
     * object's UsdIComponent and points its `schema` back at this node.
     */
    method UsdOnLoad(scene: Scene, log: EventLog)
      modifies scene`components, log`events
      ensures scene.components == if gameObject.Some?
                                  then old(scene.components)[gameObject.value := Some(this)]
                                  else old(scene.components)
      ensures log.events == old(log.events) + [NodeEvent(OnLoad, this)]
    {
      if gameObject.Some? {
        scene.components := scene.components[gameObject.value := Some(this)];
      }
      log.events := log.events + [NodeEvent(OnLoad, this)];
    }

    method UsdOnUnload(log: EventLog)
      modifies log`events
      ensures log.events == old(log.events) + [NodeEvent(OnUnload, this)]
    {
      log.events := log.events + [NodeEvent(OnUnload, this)];
    }

    method UsdPrepareSample(log: EventLog)
      modifies log`events
      ensures log.events == old(log.events) + [NodeEvent(PrepareSample, this)]
    {
      log.events := log.events + [NodeEvent(PrepareSample, this)];
    }

    method UsdSyncDataBegin(log: EventLog)
      modifies log`events
      ensures log.events == old(log.events) + [NodeEvent(SyncDataBegin, this)]
    {
      log.events := log.events + [NodeEvent(SyncDataBegin, this)];
    }

    method UsdSyncDataEnd(log: EventLog)
      modifies log`events
      ensures log.events == old(log.events) + [NodeEvent(SyncDataEnd, this)]
    {
      log.events := log.events + [NodeEvent(SyncDataEnd, this)];
    }
  }

  // ------------------------------------------------------- native context

  /** The composed scene graph: the root schema and the master (prototype) roots. */
  datatype Stage = Stage(root: Schema, masters: seq<Schema>)

  /** Variant selections of a composition, keyed by (prim path, variant-set index). */
  type Selections = map<(string, int), int>

  /** A USD file as the backend sees it: its authored selections and how a choice of selections composes. */
  datatype Composition = Composition(authored: Selections, compose: Selections -> Stage)

  const EmptyStage := Stage(Schema("", "/", BaseSchema, None, [], [], [], []), [])

  /** Every schema of a stage: the root's tree, then each master's tree. */
  function AllSchemas(stage: Stage): seq<Schema>
  {
    PreOrder(stage.root) + PreOrderAll(stage.masters)
  }

  /** The native usdi.Context, over the files the backend can open. */
  class Context {
    const files: map<string, Composition>
    const log: EventLog
    var composition: Option<Composition>
    var selections: Selections
    var stage: Stage
    var importSettings: Option<ImportSettings>

    /** usdi.Context.Create: a context with nothing open. */
    constructor Create(files: map<string, Composition>, log: EventLog)
      ensures this.files == files && this.log == log
      ensures composition.None? && selections == map[] && stage == EmptyStage && importSettings.None?
    {
      this.files := files;
      this.log := log;
      composition := None;
      selections := map[];
      stage := EmptyStage;
      importSettings := None;
    }

    /** Open: succeeds exactly for the files the backend knows, composing them with their authored selections. */
    method Open(path: string) returns (ok: bool)
      modifies this`composition, this`selections, this`stage, log`events
      ensures ok <==> path in files
      ensures ok ==> composition == Some(files[path]) && selections == files[path].authored
      ensures ok ==> stage == files[path].compose(files[path].authored)
      ensures !ok ==> composition == old(composition) && selections == old(selections) && stage == old(stage)
      ensures log.events == old(log.events) + [ContextOpen(path)]
    {
      ok := path in files;
      if ok {
        composition := Some(files[path]);
        selections := files[path].authored;
        stage := files[path].compose(selections);
      }
      log.events := log.events + [ContextOpen(path)];
    }

    /** Destroy: releases the native context. */
    method Destroy()
      modifies log`events
      ensures log.events == old(log.events) + [ContextDestroy]
    {
      log.events := log.events + [ContextDestroy];
    }

    /** FindSchema: the schema of the current schema tree at `path`, if any. */
    function FindSchema(path: string): (r: Option<Schema>)
      reads this
      ensures r.Some? <==> exists i :: 0 <= i < |AllSchemas(stage)| && AllSchemas(stage)[i].path == path
      ensures r.Some? ==> r.value.path == path
    {
      FindByPath(AllSchemas(stage), path)
    }

    /**
     * usdi.Schema.SetVariantSelection on `schema`: records the selection and
     * answers whether it changed anything. The schema tree is not rebuilt.
     */
    method SetVariantSelection(schema: Schema, setIndex: int, selection: int) returns (changed: bool)
      modifies this`selections
      ensures selections == old(selections)[(schema.path, setIndex) := selection]
      ensures changed <==> (schema.path, setIndex) !in old(selections) ||
                           old(selections)[(schema.path, setIndex)] != selection
    {
      var key := (schema.path, setIndex);
      changed := key !in selections || selections[key] != selection;
      selections := selections[key := selection];
    }

    /** RebuildSchemaTree: recomposes the open file under the current selections. */
    method RebuildSchemaTree()
      requires composition.Some?
      modifies this`stage, log`events
      ensures stage == composition.value.compose(selections)
      ensures log.events == old(log.events) + [ContextRebuildSchemaTree]
    {
      stage := composition.value.compose(selections);
      log.events := log.events + [ContextRebuildSchemaTree];
    }

    method SetImportSettings(settings: ImportSettings)
      modifies this`importSettings, log`events
      ensures importSettings == Some(settings)
      ensures log.events == old(log.events) + [ContextSetImportSettings(settings)]
    {
      importSettings := Some(settings);
      log.events := log.events + [ContextSetImportSettings(settings)];
    }

    method NotifyForceUpdate()
      modifies log`events
      ensures log.events == old(log.events) + [ContextNotifyForceUpdate]
    {
      log.events := log.events + [ContextNotifyForceUpdate];
    }

    /** UpdateAllSamples: the backend evaluates the samples of every schema at `time`. */
    method UpdateAllSamples(time: PlayTime)
      modifies log`events
      ensures log.events == old(log.events) + [ContextUpdateAllSamples(time)]
    {
      log.events := log.events + [ContextUpdateAllSamples(time)];
    }
  }
}
