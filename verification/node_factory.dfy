/**
 * The node factory of UsdStream (UsdCreateNode): the probes AsPoints, AsMesh,
 * AsCamera and AsXform are tried in that fixed order and the first that
 * succeeds picks the kind of the mirrored node; none succeeding gives a
 * generic node.
 */
module UsdNodeFactory {
  import opened Wrappers
  import opened UsdiSchema
  import opened UsdiSchemaFacts

  datatype NodeKind = GenericNode | PointsNode | MeshNode | CameraNode | XformNode

  /** The schema types that the four native probes cast to. */
  datatype ProbeTypes = ProbeTypes(points: SchemaType, mesh: SchemaType, camera: SchemaType, xform: SchemaType)

  /** A native probe such as usdi.Schema.AsMesh succeeds: as<T>() of the schema is non-null. */
  predicate Probe(s: Schema, t: SchemaType)
  {
    As(s, t).Some?
  }

  /** The kind of node UsdCreateNode instantiates for `s`. */
  function ChooseKind(s: Schema, types: ProbeTypes): NodeKind
  {
    if Probe(s, types.points) then PointsNode
    else if Probe(s, types.mesh) then MeshNode
    else if Probe(s, types.camera) then CameraNode
    else if Probe(s, types.xform) then XformNode
    else GenericNode
  }

  /** The probe order decides: a kind is chosen exactly when its probe succeeds and every earlier probe fails. */
  lemma ChooseKindFirstProbeWins(s: Schema, types: ProbeTypes)
    ensures ChooseKind(s, types) == PointsNode <==> Probe(s, types.points)
    ensures ChooseKind(s, types) == MeshNode <==> !Probe(s, types.points) && Probe(s, types.mesh)
    ensures ChooseKind(s, types) == CameraNode <==>
      !Probe(s, types.points) && !Probe(s, types.mesh) && Probe(s, types.camera)
    ensures ChooseKind(s, types) == XformNode <==>
      !Probe(s, types.points) && !Probe(s, types.mesh) && !Probe(s, types.camera) && Probe(s, types.xform)
    ensures ChooseKind(s, types) == GenericNode <==>
      !Probe(s, types.points) && !Probe(s, types.mesh) && !Probe(s, types.camera) && !Probe(s, types.xform)
  {
  }

  /** A probe for a class also succeeds for each of its super classes. */
  lemma ProbeOfSubclass(s: Schema, sub: SchemaType, super: SchemaType)
    requires IsA(sub, super) && Probe(s, sub)
    ensures Probe(s, super)
  {
    IsATransitive(CastSubject(s).schemaType, sub, super);
  }

  /**
   * When the mesh type derives from the transform type, every mesh schema
   * (that is not a point cloud) passes the AsXform probe too, and the factory
   * still classifies it as a mesh, never as a transform.
   */
  lemma MeshIsNeverXform(s: Schema, types: ProbeTypes)
    requires IsA(types.mesh, types.xform)
    requires Probe(s, types.mesh) && !Probe(s, types.points)
    ensures Probe(s, types.xform)
    ensures ChooseKind(s, types) == MeshNode
  {
    ProbeOfSubclass(s, types.mesh, types.xform);
  }

  /** An instance is classified by its master, whatever its own type. */
  lemma InstanceKindFollowsMaster(inst: Schema, types: ProbeTypes)
    requires inst.master.Some? && inst.master.value.master.None?
    ensures ChooseKind(inst, types) == ChooseKind(inst.master.value, types)
  {
  }
}
