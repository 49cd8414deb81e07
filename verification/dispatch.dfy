/** The 3-D viewport's colour sampling: the two window positions are turned
    into surface samples by ray casts on the triangulated working copy of the
    active object, expressed in the chosen space (UV, object or world), and
    encoded. The host's geometry services are parameters: the ray cast, the
    active object's world matrix, the inverse world matrix of any object and
    the barycentric UV lookup on a hit triangle. */
module SpaceDispatch {
  import opened Wrappers
  import opened Vectors
  import opened DirectionEncoder

  type ObjectName = string

  /** A ray hit on the working copy: the hit point in the active object's
      local coordinates and the hit triangle. */
  datatype Hit = Hit(local: Vec3, face: int)

  /** What the 3-D operator consults, already resolved by the host. */
  datatype Viewport = Viewport(
    area: Pixel,                          // window position of the drawing area's origin
    rayCast: Pixel -> Option<Hit>,        // ray through an area position, bounded by the trace distance
    toWorld: Vec3 -> Vec3,                // the active object's world matrix
    toObject: (ObjectName, Vec3) -> Vec3, // the inverse world matrix of the named object
    uvAt: Hit -> Vec2,                    // barycentric UV coordinates of a hit
    active: ObjectName)

  /** The scene's space setting and optional reference object. */
  datatype SpaceSettings = SpaceSettings(spaceType: string, reference: Option<ObjectName>)

  const UvSpace: string := "uv_space"
  const ObjectSpace: string := "object_space"
  const WorldSpace: string := "world_space"

  /** A direction colour and the surface location it was sampled at; the
      location is handed on to each brush dot. */
  datatype Sample = Sample(color: Option<Color>, location: Option<Vec3>)

  const NoSample := Sample(None, None)

  /** A window position relative to the drawing area. */
  function AreaPos(view: Viewport, p: Pixel): Pixel {
    PixelSub(p, view.area)
  }

  function HitAt(view: Viewport, p: Pixel): Option<Hit> {
    view.rayCast(AreaPos(view, p))
  }

  /** Both positions hit the surface. */
  predicate BothHit(view: Viewport, pos: Pixel, prev: Pixel) {
    HitAt(view, pos).Some? && HitAt(view, prev).Some?
  }

  /** UV space: the direction between the UV coordinates under the two
      positions, painted with a zero third channel. */
  function UvSpaceSample(view: Viewport, pos: Pixel, prev: Pixel, norm: Vec3 -> real): (r: Sample)
    requires IsEuclidean(norm)
    ensures !BothHit(view, pos, prev) ==> r == NoSample
    ensures r.color.None? ==> r == NoSample
    ensures BothHit(view, pos, prev) ==>
      var uv, uvPrev := view.uvAt(HitAt(view, pos).value), view.uvAt(HitAt(view, prev).value);
      && (r.color.None? <==> uv == uvPrev)
      && (r.color.Some? ==>
            && r.location == Some(HitAt(view, pos).value.local)
            && r.color.value.b == 0.0
            && InUnitRange(r.color.value)
            && IsUnitDirection(Lift(PlanarDirection(r.color.value)), Lift(Sub2(uv, uvPrev))))
  {
    match (HitAt(view, pos), HitAt(view, prev))
    case (Some(h), Some(hp)) =>
      var c := EncodePlanar(view.uvAt(h), view.uvAt(hp), norm);
      if c.None? then NoSample else Sample(c, Some(h.local))
    case _ => NoSample
  }

  /** The object whose space object-space painting uses: the configured
      reference object, or the active object when none is set. */
  function ReferenceObject(settings: SpaceSettings, view: Viewport): (o: ObjectName)
    ensures settings.reference.Some? ==> o == settings.reference.value
    ensures settings.reference.None? ==> o == view.active
  {
    settings.reference.GetOr(view.active)
  }

  /** World space: the direction between the world positions of the hits. */
  function WorldSpaceSample(view: Viewport, pos: Pixel, prev: Pixel, norm: Vec3 -> real): (r: Sample)
    requires IsEuclidean(norm)
    ensures !BothHit(view, pos, prev) ==> r == NoSample
    ensures r.color.None? ==> r == NoSample
    ensures BothHit(view, pos, prev) ==>
      var w, wPrev := view.toWorld(HitAt(view, pos).value.local), view.toWorld(HitAt(view, prev).value.local);
      && (r.color.None? <==> w == wPrev)
      && (r.color.Some? ==>
            && r.location == Some(HitAt(view, pos).value.local)
            && InUnitRange(r.color.value)
            && IsUnitDirection(SpatialDirection(r.color.value), Sub3(w, wPrev)))
  {
    match (HitAt(view, pos), HitAt(view, prev))
    case (Some(h), Some(hp)) =>
      var c := EncodeSpatial(view.toWorld(h.local), view.toWorld(hp.local), norm);
      if c.None? then NoSample else Sample(c, Some(h.local))
    case _ => NoSample
  }

  /** Object space: the world positions of the hits taken into the reference
      object's local space, then encoded. */
  function ObjectSpaceSample(view: Viewport, settings: SpaceSettings, pos: Pixel, prev: Pixel, norm: Vec3 -> real): (r: Sample)
    requires IsEuclidean(norm)
    ensures !BothHit(view, pos, prev) ==> r == NoSample
    ensures r.color.None? ==> r == NoSample
    ensures BothHit(view, pos, prev) ==>
      var o := ReferenceObject(settings, view);
      var p, pPrev := view.toObject(o, view.toWorld(HitAt(view, pos).value.local)),
                      view.toObject(o, view.toWorld(HitAt(view, prev).value.local));
      && (r.color.None? <==> p == pPrev)
      && (r.color.Some? ==>
            && r.location == Some(HitAt(view, pos).value.local)
            && InUnitRange(r.color.value)
            && IsUnitDirection(SpatialDirection(r.color.value), Sub3(p, pPrev)))
  {
    match (HitAt(view, pos), HitAt(view, prev))
    case (Some(h), Some(hp)) =>
      var o := ReferenceObject(settings, view);
      var c := EncodeSpatial(view.toObject(o, view.toWorld(h.local)), view.toObject(o, view.toWorld(hp.local)), norm);
      if c.None? then NoSample else Sample(c, Some(h.local))
    case _ => NoSample
  }

  /** The 3-D operator's colour: the sampler named by the space setting, and
      no colour for any other setting. */
  function ViewportSample(view: Viewport, settings: SpaceSettings, pos: Pixel, prev: Pixel, norm: Vec3 -> real): (r: Sample)
    requires IsEuclidean(norm)
    ensures settings.spaceType == UvSpace ==> r == UvSpaceSample(view, pos, prev, norm)
    ensures settings.spaceType == ObjectSpace ==> r == ObjectSpaceSample(view, settings, pos, prev, norm)
    ensures settings.spaceType == WorldSpace ==> r == WorldSpaceSample(view, pos, prev, norm)
    ensures settings.spaceType !in {UvSpace, ObjectSpace, WorldSpace} ==> r == NoSample
  {
    if settings.spaceType == UvSpace then UvSpaceSample(view, pos, prev, norm)
    else if settings.spaceType == ObjectSpace then ObjectSpaceSample(view, settings, pos, prev, norm)
    else if settings.spaceType == WorldSpace then WorldSpaceSample(view, pos, prev, norm)
    else NoSample
  }
}
