# Flow map painter: brush-stroke core in Dafny

This project models the brush-stroke logic of a Blender add-on for painting flow maps. A flow map is a texture or vertex-colour layer whose red and green (and, in 3-D spaces, blue) channels encode a direction. While the user drags the mouse, the add-on's modal operator turns the direction of movement into a brush colour and paints dots along the stroke.

The model has four parts.

- **Encoder** (`encoder.dfy`, module `DirectionEncoder`)
  - The difference of two positions is normalised, and each signed component `u` becomes the channel `(u + 1) * 0.5`.
  - UV space and the image editor's screen space are planar: they write 0 into the third channel.
  - Object space and world space use all three channels.
  - The 3-D encoders give no colour for a zero movement. The image editor's encoder gives the neutral `(0.5, 0.5, 0)` instead.
- **Interpolation** (`interpolation.dfy`, module `Interpolation`): the `lerp` used to back-fill dots along a fast stroke.
- **Space dispatch** (`dispatch.dfy`, module `SpaceDispatch`)
  - The 3-D viewport operator ray-casts both window positions onto the triangulated working copy of the active object.
  - It then encodes the movement in the space the scene setting names: UV coordinates, the reference object's local space, or world space.
  - In object space the reference object defaults to the active object.
- **Stroke state machine** (`stroke.dfy`, module `Stroke`): `FlowmapOperator.modal`, one pure `Step` per event over the state (last committed position, previous position, pressing).
  - A press starts a stroke. A release ends it.
  - A move commits once the pointer is at least one brush spacing away from the last committed position. Committing sets the brush colour and, while pressing, paints dots.
  - A move of more than two spacings is back-filled with `n = floor(distance / spacing)` evenly spaced dots, ordered from the pointer back towards the previous position.
  - ESC restores the brush colour `(0.5, 0.5, 0.5)` and ends the operator.
  - `Run` folds `Step` over a sequence of events.

Two behaviours of the code are worth knowing:

- **Travel is measured from the last committed position.** It is not measured from the previous event, so several small moves, each shorter than the spacing, add up to a commit. `SmallStepsCanAccumulate` proves this.
- **A press does not reset the previous position.** The first commit after a press takes its direction and its back-fill from the position committed before the press. Hover movement normally keeps that position within one spacing of the press point. `PressKeepsPrevious` proves this.

A brush spacing of 0 is allowed by the scene property (`__init__.py:658-665`). In that case, a committed move while pressing divides by zero at `__init__.py:404`, and converting the result to an integer raises an exception. The model returns the status `Raised` for this and ends the session there.

Host services are inputs to the model:

- **The norm.** `numpy.linalg.norm` is a supplied function `norm` with the Euclidean property `IsEuclidean`: it is non-negative and its square is the squared length. Dafny has no square root.
- **Geometry.** The ray cast, the active object's world matrix, the inverse world matrix of the reference object and the barycentric UV lookup are function fields of `Viewport`.

## Model

| member | source | states |
|---|---|---|
| Interpolation.Lerp | __init__.py:48-51 | mix 0 yields a and mix 1 yields b |
| Interpolation.LerpBetween | __init__.py:48-51 | for mix in [0, 1] the result lies between a and b |
| Interpolation.LerpDifference | __init__.py:48-51 | equal steps of mix give equal steps of the result: the difference is the span times the mix difference |
| Interpolation.LerpPoint | __init__.py:412-417 | interpolating both pixel coordinates gives the first point at mix 0 and the second at mix 1 |
| DirectionEncoder.Normalize | __init__.py:206-212 | no direction exactly for the zero vector; otherwise the unique unit vector that, scaled by a positive factor, is the vector |
| DirectionEncoder.SpatialColor | __init__.py:254-256 | the colour decodes with c * 2 - 1 back to the direction, and a unit direction gives channels in [0, 1] |
| DirectionEncoder.PlanarColor | __init__.py:215-216 | the first two channels decode to the direction, the third is 0, and a unit direction gives channels in [0, 1] |
| DirectionEncoder.EncodePlanar | __init__.py:205-216 | no colour iff the UV positions coincide; otherwise channels in [0, 1], third channel 0, and the first two decode to the unit direction of the movement |
| DirectionEncoder.EncodeSpatial | __init__.py:275-287 | no colour iff the positions coincide; otherwise channels in [0, 1] decoding to the unit direction of the movement |
| DirectionEncoder.EncodeScreen | __init__.py:490-502 | always a colour: (0.5, 0.5, 0) for coincident positions, otherwise exactly the planar encoding, so channels in [0, 1] and third channel 0 |
| DirectionEncoder.ZeroHasNoDirection | __init__.py:209-210 | the zero vector has no unit direction, which is why a zero movement gets no colour |
| DirectionEncoder.SpatialEncodingExact | __init__.py:275-287 | any colour whose decoding is the unit direction of the movement is the colour the 3-D encoder returns |
| DirectionEncoder.PlanarEncodingExact | __init__.py:205-216 | any colour with third channel 0 whose decoding is the unit direction of the movement is the colour the UV encoder returns |
| DirectionEncoder.ScreenHorizontal | __init__.py:490-502 | a stroke towards +x is painted (1, 0.5, 0) and one towards -x is painted (0, 0.5, 0) |
| SpaceDispatch.UvSpaceSample | __init__.py:195-219 | no colour and no location if either ray misses or the UV points coincide; otherwise a planar colour of the UV movement, located at the current hit |
| SpaceDispatch.ObjectSpaceSample | __init__.py:223-258 | no colour and no location if either ray misses or the hits coincide in the reference object's space; otherwise a colour of the movement in that space, located at the current hit |
| SpaceDispatch.WorldSpaceSample | __init__.py:262-289 | no colour and no location if either ray misses or the world hits coincide; otherwise a colour of the world-space movement, located at the current hit |
| SpaceDispatch.ReferenceObject | __init__.py:233-235 | the configured reference object, or the active object when none is set |
| SpaceDispatch.ViewportSample | __init__.py:527-542 | exactly the sampler the space setting names, and no colour for any other setting |
| Stroke.DirectionSample | __init__.py:490-502 | the image editor always yields a colour and no surface location; the 3-D viewport yields its space dispatch |
| Stroke.Step | __init__.py:370-436 | press, release, move, ESC and pass-through rules: what each event does to the state, the brush colour, the dots and the returned status; a pressed move with spacing 0 raises exactly then, after recording the pointer as the last committed position and setting the sampled colour, with no dots and the previous position kept |
| Stroke.Substeps | __init__.py:408-419 | count dots, the i-th at fraction (count - i) / n of the way from the previous position |
| Stroke.StrokeDots | __init__.py:401-421 | more than two spacings give floor(distance / spacing) >= 2 dots, otherwise one dot at the pointer; every dot carries the sampled location |
| Stroke.DotCountBounds | __init__.py:404-406 | the substep count n >= 2 is the largest natural number with n * spacing <= distance |
| Stroke.MixWithin | __init__.py:411 | every substep fraction is in (0, 1], and the n-th of n is 1 |
| Stroke.FirstDotAtPointer | __init__.py:406-421 | the first dot of every committed move is the pointer position |
| Stroke.DotsEvenlySpaced | __init__.py:408-419 | consecutive back-filled dots are one n-th of the movement apart, and the last is one n-th of the way from the previous position |
| Stroke.DotsBetweenEndpoints | __init__.py:408-419 | every dot lies in the box spanned by the previous position and the pointer |
| Stroke.CommitThreshold | __init__.py:389-390 | a move commits exactly when its squared pixel distance from the last committed position reaches the squared spacing |
| Stroke.Start | __init__.py:363-365 | a freshly invoked operator (class defaults, then `invoke` clearing the button) has the button up, both positions at the window origin, no dots, the running status and the brush colour it finds |
| Stroke.FirstStrokeFromOrigin | __init__.py:363-423 | after invoking, a press and a move that reaches the spacing take the colour and the back-fill from the window origin (0, 0) |
| Stroke.Run | __init__.py:370-436 | dots only accumulate in order, and a finished session handles no further events |
| Stroke.PressStartsStroke | __init__.py:373-377 | a press records its position as the last committed one and sets pressing, and changes neither the previous position, the brush nor the dots |
| Stroke.StayingWithinSpacingPaintsNothing | __init__.py:389-390 | moves that all stay within one spacing of the last committed position change neither the state, the brush nor the dots |
| Stroke.NoDotsWithoutPress | __init__.py:373-401 | without a press no dot is painted and the button stays up |
| Stroke.EscapeEndsSession | __init__.py:429-434 | ESC ends the session with the brush colour (0.5, 0.5, 0.5), and later events are ignored |
| Stroke.RayMissKeepsBrush | __init__.py:394-399 | in the 3-D viewport, while every ray misses, the brush colour never changes |
| Stroke.MoveWithinSpacing | __init__.py:389-390 | a move short of the spacing changes nothing |
| Stroke.MoveCommitsOneDot | __init__.py:390-423 | a pressed move between one and two spacings sets both positions to the pointer, sets the sampled colour and paints one dot at the pointer |
| Stroke.MoveBackfills | __init__.py:401-423 | a pressed move beyond two spacings sets both positions to the pointer and paints the back-filled dots |
| Stroke.SmallStepsCanAccumulate | __init__.py:389-392 | two 6-pixel moves with spacing 10 commit one dot at the second, with a rightwards colour |
| Stroke.FastJumpBackfills | __init__.py:404-419 | a 52-pixel jump with spacing 10 paints five dots at 5/5, 4/5, ..., 1/5 of the movement |
| Stroke.PressKeepsPrevious | __init__.py:373-423 | after a press, the first commit takes its direction and back-fill from the position committed before the press |

## Left out

- Ray casting and the view ray (`obj_ray_cast`, `line_trace_for_pos`, `__init__.py:100-142`): Blender viewport calls. Their result is the supplied `Viewport.rayCast`, bounded by the trace distance, together with the supplied matrix functions.
- Barycentric UV lookup (`__init__.py:152-177`): a call into Blender's geometry library. It is supplied as `Viewport.uvAt`.
- A reference object whose world matrix is singular: `matrix_world.inverted()` at `__init__.py:237` raises `ValueError`. The supplied `Viewport.toObject` always returns a point, so the model assumes an invertible reference matrix.
- A mesh without an active UV map: `uv_layers.active` is None and reading `.data` at `__init__.py:161` raises `AttributeError`. The supplied `Viewport.uvAt` always returns a UV point, so the model assumes an active UV layer.
- A non-mesh active object: `line_trace_for_pos` then returns nothing, and the unpacking at `__init__.py:227` and `__init__.py:266` raises. The model assumes a mesh.
- Triangulation and the temporary object (`triangulate_object`, `remove_temp_obj`, `startup`, `cleanup`): host scene-graph bookkeeping.
- `paint_a_dot` (`__init__.py:293-335`): the dots are returned as a sequence of positions and surface locations. Pressure, brush size and the skip of vertex painting without a location belong to the host paint call.
- Cursor drawing, the panels, property registration and the flags `invoke` sets on the unified paint settings: user-interface code. `Start` models only the initial state and the running status.
- Floating point: the model uses exact reals, so there is no NaN. The NaN guard at `__init__.py:398` reduces to "the encoder returned no colour".
- `numpy.linalg.norm`: a supplied function with the Euclidean property, because there is no square root in the model's arithmetic.
