# Wavey radar core in Dafny

Wavey is a small macroquad game. A ship sits among randomly placed polygonal
asteroids and a radar wave spreads out from it. On each circle the wave
samples the integer angles 0..=360. The first asteroid edge found near a
sample burns in a pixel, and that angle is excluded from every later circle.

This project models the geometry and bookkeeping of that wave:

- `Line::new` and the proximity test `Line::near` (module `Geometry`, file `geometry.dfy`).
- The polygon construction of `Asteroid::vertices` and `Asteroid::edges` (module `Asteroids`, file `asteroids.dfy`).
- `pixels_in_circle` and the detection loop of `circle_render` (module `Radar`, file `radar.dfy`).
- `Wrappers.Option` (file `wrappers.dfy`), which stands for the operations that can panic.

How the model represents the source:

- **Numbers.** Coordinates are exact `real`s in place of `f32`, so the lemmas say what the comparisons decide without rounding.
- **Trigonometry.** `cos` and `sin` are a `Trig` value that the model leaves uninterpreted. Only the lemmas about distances assume cos² + sin² = 1 (`Pythagorean`, `UnitAt`).
- **Angles.** `pixels_in_circle` passes the integer degree straight to the trigonometry, so it is read as radians. The model does the same (`Radar.Sample` passes `a as real`).
- **Panics.** A degenerate edge makes `Line::new` panic. The model returns `None` instead, and `Asteroids.Edges` returns `None` exactly when some vertex coincides with its successor.
- **Specification and proof.** The sweep is specified by three functions:
  - `Scan`: one pass over a list of samples.
  - `Step`: one radius. Its samples are computed once, from the angles excluded when the radius starts, before any of them is tested (as `circle_render` builds the list before its loop).
  - `SweepTo`: all radii from `ShipSize` up to a bound.

  The loops `PixelsInCircle`, `FirstNearEdge`, `ScanRadius` and `CircleRender` are proved equal to these functions. The lemmas about the functions then carry the game's invariants to the loops.

Facts about the code that shape the model:

- There is one sample per integer degree of 0..=360.
- The exclusion state is a plain set of angles.
- `near` rejects a point whose dot product is below the tolerance, so with a positive tolerance the endpoint `a` itself is not near.
- `near` compares the unnormalised cross product with the tolerance. The cross product is the distance to the line times the segment's length. A point farther than the tolerance from the line can therefore still be near only when the tolerance is below 1 and the squared length lies between the tolerance and 1 (`Geometry.FarFromLineNotNear`, `Geometry.ShortSegmentNotNear`, `Geometry.ShortSegmentFarPointNear`). At the game's tolerance of 1 it cannot happen.
- `draw_circle_except_angles` does not compile as written, and its call in `circle_render` does not match its signature. The model keeps only the detection logic around that call.

## Model

| member | source | states |
|---|---|---|
| Geometry.NewLine | src/main.rs:28-33 | Fails exactly when both endpoints are the same point; otherwise the line holds `a` and `b` unchanged |
| Geometry.OffLineNotNear | src/main.rs:37-41 | A point whose cross product exceeds the tolerance in absolute value is not near, whatever its projection |
| Geometry.EndpointANotNear | src/main.rs:44-48 | With a positive tolerance the endpoint `a` itself (dot = 0) is not near |
| Geometry.PastEndNotNear | src/main.rs:50-53 | A point whose dot product exceeds the squared length (it projects past `b`) is not near |
| Geometry.SqLenPositive | src/main.rs:50 | The squared length of a line is positive, because its endpoints differ |
| Geometry.OffsetProducts | src/main.rs:37-45 | For the point at s along and h across the segment, cross = h·len² and dot = s·len² |
| Geometry.FrameCoordinates | src/main.rs:37-50 | Every point is the point at dot/len² along and cross/len² across the segment |
| Geometry.NearInFrame | src/main.rs:35-56 | In the segment's frame, `near` accepts exactly abs(h)·len² <= tolerance, tolerance <= s·len² and s <= 1 |
| Geometry.AlongSegmentNear | src/main.rs:35-56 | Every point of the segment from tolerance/len² up to and including `b` is near |
| Geometry.MidpointNear | src/main.rs:35-56 | With zero tolerance the midpoint of every segment is near it |
| Geometry.FarFromLineNotNear | src/main.rs:35-56 | A point farther than the tolerance from the line is not near, whatever its projection, when the segment has length at least 1 or the tolerance is at least 1 |
| Geometry.ShortSegmentNotNear | src/main.rs:44-53 | A segment whose squared length is below the tolerance has no near point at all |
| Geometry.ShortSegmentFarPointNear | src/main.rs:35-56 | Below tolerance 1 the distance guarantee can fail: the segment (0,0)-(0.8,0) accepts (0.4, 0.312) at tolerance 0.25 |
| Geometry.NearTranslation | src/main.rs:35-56 | Moving the segment and the point by the same vector keeps the segment a line and does not change `near` |
| Geometry.PolarOnCircle | src/main.rs:109-114 | Where cos² + sin² = 1, `polar2euclidean` lands at distance `radius` from the centre |
| Asteroids.Vertices | src/main.rs:84-93 | Exactly `sides` points; point i is the polar image of rotation + i·2π/sides |
| Asteroids.VerticesOnCircle | src/main.rs:87-89 | Where cos² + sin² = 1, every vertex is at distance `radius` from the asteroid's centre |
| Asteroids.Edges | src/main.rs:95-106 | Fails exactly when some vertex equals its successor. Otherwise: one segment per vertex; segment i runs from vertex i to vertex (i+1) mod n; each segment ends where the next begins; the last ends at the first's start |
| Radar.OutsideMembers | src/main.rs:122-125 | Filtering keeps exactly the samples whose angle is not excluded |
| Radar.OutsideAscending | src/main.rs:122-127 | Filtering keeps ascending samples in ascending order |
| Radar.CircleExact | src/main.rs:122-126 | The full circle holds, in ascending order, the sample of each angle 0..=360 and nothing else |
| Radar.SamplesExact | src/main.rs:116-129 | The circle outside the excluded set, so an excluded angle is never retested: ascending, each sample the polar image of its angle, and it has a sample at angle a exactly when a <= 360 and a is not excluded |
| Radar.PixelsInCircle | src/main.rs:116-129 | The loop returns the filtered circle: ascending, every non-excluded angle in 0..=360 once, no excluded angle, each point the polar image of its angle |
| Radar.FirstNearEdge | src/main.rs:158-165 | Returns the index of the first edge near the point (no earlier edge is near), or nothing exactly when no edge is near |
| Radar.AngleBound | src/main.rs:122 | A set of angles in 0..=360 has at most 361 members |
| Radar.ScanExcluded | src/main.rs:157-166 | After scanning samples, an angle is excluded exactly when it was before or one of its samples is near an edge |
| Radar.ScanNewPixels | src/main.rs:157-166 | Scanning keeps the drawn pixels as a prefix and appends only points of samples near an edge |
| Radar.ScanGrowth | src/main.rs:157-166 | On ascending samples not yet excluded, scanning grows both the excluded set and the pixel list, by the same number of entries |
| Radar.StepExcluded | src/main.rs:157-166 | After one radius, an angle is excluded exactly when it was before, or it is <= 360 and its sample at this radius is near an edge |
| Radar.StepGrowth | src/main.rs:157-166 | One radius only adds: the excluded set is a superset, the old pixels a prefix, and one pixel is appended per newly excluded angle |
| Radar.StepConsistent | src/main.rs:157-166 | One radius keeps one pixel per excluded angle and only angles 0..=360 excluded |
| Radar.StepNewPixels | src/main.rs:157-166 | Every pixel appended in one radius is near an edge and is the polar image, at this radius, of an angle newly excluded by it |
| Radar.SweepConsistent | src/main.rs:143-166 | After any number of radii there is one pixel per excluded angle, and only angles 0..=360 are excluded |
| Radar.SweepBound | src/main.rs:143-166 | After any number of radii, the number of drawn pixels equals the number of excluded angles, and both are <= 361 |
| Radar.SweepStepGrowth | src/main.rs:146-166 | Scanning one more radius keeps every excluded angle and every drawn pixel |
| Radar.SweepMonotone | src/main.rs:146-166 | Scanning further never removes an excluded angle or a drawn pixel |
| Radar.SweepStepExcluded | src/main.rs:146-166 | One more radius excludes exactly the angles detected at that radius, on top of those already excluded |
| Radar.SweepExcludedExact | src/main.rs:143-166 | After a sweep an angle is excluded exactly when it is <= 360 and some scanned radius detects it |
| Radar.SweepStepNear | src/main.rs:146-166 | The pixels one more radius appends are near some edge |
| Radar.SweepDrawnNear | src/main.rs:143-166 | Every pixel a sweep draws is near some edge |
| Radar.ScanRadius | src/main.rs:157-166 | One radius of the loop, with the edge test stopping at the first hit, yields exactly the specified step |
| Radar.CircleRender | src/main.rs:142-166 | The sweep loop yields the specified sweep. It has as many drawn pixels as excluded angles, both <= 361, excludes only angles 0..=360, and every drawn pixel is near an edge |

## Left out

- Rendering and frame control are foreign I/O and are not modelled: `draw_circle`, `draw_rectangle` and `next_frame().await` (src/main.rs:147, 167-171). `clear_background` is imported but never called.
- `draw_circle_except_angles` (src/main.rs:131-140) is an unfinished drawing stub. It refers to undefined names, and its call site does not match its signature. It draws only, so it does not affect detection.
- `Asteroid::random_asteroid` (src/main.rs:69-82) depends on a random number generator and the screen size. No lemma needs its bounds on `sides`.
- `f32` rounding and the real `cos`/`sin` are not modelled: coordinates are exact reals and trigonometry is uninterpreted.
- The sweep's upper radius `screen_width() * sqrt(2) / 2` (src/main.rs:146) is a floating-point screen query. It becomes the integer parameter `radiusBound` of `CircleRender`.
- The asynchronous `main` loop (src/main.rs:175-192) is not modelled. It rebuilds the edge list from the same asteroids and starts a new sweep each time the previous `circle_render` returns; one sweep spans many frames, one per radius.
- The `last_scanned` field (src/main.rs:65) is never read, so `Asteroid` omits it.
- Asteroids.Edges: under uninterpreted trigonometry nothing rules out coinciding vertices, so the panic case is kept as an outcome rather than shown impossible.
- Geometry.FarFromLineNotNear: stated only when the segment has length at least 1 or the tolerance is at least 1, because the code compares the unnormalised cross product with the tolerance; `Geometry.ShortSegmentFarPointNear` shows that it fails otherwise.
