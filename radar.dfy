/**
 * The radar sweep of `circle_render`: circles of growing radius around the
 * ship, sampled at the integer angles 0..=360; the first edge found near a
 * sample burns in a pixel and excludes that angle from every later circle.
 *
 * The functions `Scan`, `Step` and `SweepTo` are the specification of the
 * sweep; `CircleRender` is the loop that the game runs, proved equal to them.
 */
module Radar {
  import opened Wrappers
  import opened Geometry

  /** `SHIP_SIZE as usize`: the first radius the sweep scans. */
  const ShipSize: nat := 10

  /** The tolerance `circle_render` passes to `near`. */
  const Tolerance: real := 1.0

  /** The last integer angle sampled on each circle. */
  const MaxAngle: nat := 360

  /** One sample of a circle: the point and the integer angle it was taken at. */
  datatype Pixel = Pixel(point: Point, angle: nat)

  /** What a sweep works on: the trigonometry, the edges of every asteroid and the ship's position. */
  datatype Scene = Scene(trig: Trig, edges: seq<Line>, center: Point)

  /**
   * The sample at the integer angle `a` of the circle of `radius` around
   * `center`. The angle goes to the trigonometry unchanged, so it is read as
   * radians although it counts degrees.
   */
  function Sample(trig: Trig, center: Point, radius: real, a: nat): Pixel {
    Pixel(Polar(trig, center, radius, a as real), a)
  }

  /** The samples of the whole circle, one per angle of 0..=MaxAngle, in order. */
  function Circle(trig: Trig, center: Point, radius: real): seq<Pixel> {
    seq(MaxAngle + 1, a requires 0 <= a <= MaxAngle => Sample(trig, center, radius, a))
  }

  /** The samples of `ps` whose angle is not excluded, in their order. */
  function Outside(ps: seq<Pixel>, excluded: set<nat>): seq<Pixel>
    decreases |ps|
  {
    if ps == [] then []
    else
      var last := ps[|ps| - 1];
      Outside(ps[..|ps| - 1], excluded) + (if last.angle in excluded then [] else [last])
  }

  /** The samples of a circle outside the excluded angles. */
  function Samples(trig: Trig, center: Point, radius: real, excluded: set<nat>): seq<Pixel> {
    Outside(Circle(trig, center, radius), excluded)
  }

  /** The angles of `ps` strictly increase. */
  predicate Ascending(ps: seq<Pixel>) {
    forall i, j :: 0 <= i < j < |ps| ==> ps[i].angle < ps[j].angle
  }

  /** Some sample of `ps` is taken at angle `a`. */
  predicate HasAngle(ps: seq<Pixel>, a: nat) {
    exists i :: 0 <= i < |ps| && ps[i].angle == a
  }

  /** `Outside` keeps exactly the samples whose angle is not excluded. */
  lemma {:induction false} OutsideMembers(ps: seq<Pixel>, excluded: set<nat>)
    ensures forall p :: p in Outside(ps, excluded) <==> p in ps && p.angle !in excluded
    decreases |ps|
  {
    if ps != [] {
      assert ps == ps[..|ps| - 1] + [ps[|ps| - 1]];
      OutsideMembers(ps[..|ps| - 1], excluded);
    }
  }

  /** `Outside` keeps the order of the samples it keeps. */
  lemma {:induction false} OutsideAscending(ps: seq<Pixel>, excluded: set<nat>)
    requires Ascending(ps)
    ensures Ascending(Outside(ps, excluded))
    decreases |ps|
  {
    if ps != [] {
      var init, last := ps[..|ps| - 1], ps[|ps| - 1];
      OutsideAscending(init, excluded);
      OutsideMembers(init, excluded);
      var kept := Outside(init, excluded);
      forall k | 0 <= k < |kept| ensures kept[k].angle < last.angle {
        assert kept[k] in init;
        var i :| 0 <= i < |init| && init[i] == kept[k];
        assert ps[i].angle < ps[|ps| - 1].angle;
      }
    }
  }

  /** The circle holds, in ascending order, the sample of each angle of 0..=MaxAngle and nothing else. */
  lemma CircleExact(trig: Trig, center: Point, radius: real)
    ensures Ascending(Circle(trig, center, radius))
    ensures forall p :: p in Circle(trig, center, radius) <==>
      p.angle <= MaxAngle && p == Sample(trig, center, radius, p.angle)
  {
    var c := Circle(trig, center, radius);
    forall p: Pixel | p.angle <= MaxAngle && p == Sample(trig, center, radius, p.angle) ensures p in c {
      assert c[p.angle] == p;
    }
  }

  /**
   * The samples of a circle outside `excluded`: one per angle of 0..=MaxAngle
   * outside `excluded` and no other, ascending, each the polar image of its angle.
   */
  lemma SamplesExact(trig: Trig, center: Point, radius: real, excluded: set<nat>)
    ensures Ascending(Samples(trig, center, radius, excluded))
    ensures forall i :: 0 <= i < |Samples(trig, center, radius, excluded)| ==>
      var p := Samples(trig, center, radius, excluded)[i];
      p == Sample(trig, center, radius, p.angle) && p.angle <= MaxAngle && p.angle !in excluded
    ensures forall a: nat :: HasAngle(Samples(trig, center, radius, excluded), a) <==>
      a <= MaxAngle && a !in excluded
  {
    var ps := Samples(trig, center, radius, excluded);
    CircleExact(trig, center, radius);
    OutsideMembers(Circle(trig, center, radius), excluded);
    OutsideAscending(Circle(trig, center, radius), excluded);
    forall i | 0 <= i < |ps|
      ensures ps[i] == Sample(trig, center, radius, ps[i].angle) && ps[i].angle <= MaxAngle && ps[i].angle !in excluded
    {
      assert ps[i] in ps;
    }
    forall a: nat | a <= MaxAngle && a !in excluded ensures HasAngle(ps, a) {
      var p := Sample(trig, center, radius, a);
      assert p in ps;
      var i :| 0 <= i < |ps| && ps[i] == p;
    }
  }

  /**
   * `pixels_in_circle`: the sample at each angle of 0..=360 that is not
   * excluded, ascending, each once, and no excluded angle.
   */
  method PixelsInCircle(trig: Trig, center: Point, radius: real, excluded: set<nat>) returns (pixels: seq<Pixel>)
    ensures pixels == Samples(trig, center, radius, excluded)
    ensures Ascending(pixels)
    ensures forall i :: 0 <= i < |pixels| ==>
      pixels[i] == Sample(trig, center, radius, pixels[i].angle) &&
      pixels[i].angle <= MaxAngle && pixels[i].angle !in excluded
    ensures forall a: nat :: HasAngle(pixels, a) <==> a <= MaxAngle && a !in excluded
  {
    ghost var circle := Circle(trig, center, radius);
    pixels := [];
    var angle: nat := 0;
    while angle <= MaxAngle
      invariant angle <= MaxAngle + 1
      invariant pixels == Outside(circle[..angle], excluded)
    {
      assert circle[..angle + 1] == circle[..angle] + [Sample(trig, center, radius, angle)];
      assert circle[..angle + 1][..angle] == circle[..angle];
      if angle in excluded {
        angle := angle + 1;
        continue;
      }
      pixels := pixels + [Pixel(Polar(trig, center, radius, angle as real), angle)];
      angle := angle + 1;
    }
    assert circle[..angle] == circle;
    SamplesExact(trig, center, radius, excluded);
  }

  /** Some edge is near `p`. */
  predicate AnyNear(edges: seq<Line>, p: Point, tolerance: real) {
    exists j :: 0 <= j < |edges| && Near(edges[j], p, tolerance)
  }

  /**
   * The inner loop over the edges: the index of the first edge near `p`, at
   * which the game stops looking; `None` when no edge is near.
   */
  method FirstNearEdge(edges: seq<Line>, p: Point, tolerance: real) returns (hit: Option<nat>)
    ensures hit.None? <==> !AnyNear(edges, p, tolerance)
    ensures hit.Some? ==> hit.value < |edges| && Near(edges[hit.value], p, tolerance)
    ensures hit.Some? ==> forall k :: 0 <= k < hit.value ==> !Near(edges[k], p, tolerance)
  {
    var j := 0;
    while j < |edges|
      invariant j <= |edges|
      invariant forall k :: 0 <= k < j ==> !Near(edges[k], p, tolerance)
    {
      if Near(edges[j], p, tolerance) {
        return Some(j);
      }
      j := j + 1;
    }
    return None;
  }

  /** The sample at `angle` on the circle of `radius` lies near some edge. */
  predicate Detects(sc: Scene, radius: nat, angle: nat) {
    AnyNear(sc.edges, Polar(sc.trig, sc.center, radius as real, angle as real), Tolerance)
  }

  /** The numbers below `n`. */
  function RangeSet(n: nat): (r: set<nat>)
    ensures forall a: nat :: a in r <==> a < n
  {
    if n == 0 then {} else RangeSet(n - 1) + {n - 1}
  }

  lemma {:induction false} RangeSetSize(n: nat)
    ensures |RangeSet(n)| == n
  {
    if n > 0 {
      RangeSetSize(n - 1);
    }
  }

  /** A set of angles in 0..=360 has at most 361 members. */
  lemma AngleBound(s: set<nat>)
    requires forall a :: a in s ==> a <= MaxAngle
    ensures |s| <= MaxAngle + 1
  {
    RangeSetSize(MaxAngle + 1);
    var all := RangeSet(MaxAngle + 1);
    assert s <= all;
    assert all == s + (all - s);
  }

  /** The sweep's state: `excluded_angles` and `drawn_pixels`. */
  datatype SweepState = SweepState(excluded: set<nat>, drawn: seq<Point>)

  /**
   * The loop over the samples of one circle, in order: a sample that some
   * edge is near appends its point to the drawn pixels and inserts its angle
   * into the excluded ones.
   */
  function Scan(sc: Scene, st: SweepState, ps: seq<Pixel>): SweepState
    decreases |ps|
  {
    if ps == [] then st
    else
      var before := Scan(sc, st, ps[..|ps| - 1]);
      var p := ps[|ps| - 1];
      if AnyNear(sc.edges, p.point, Tolerance) then
        SweepState(before.excluded + {p.angle}, before.drawn + [p.point])
      else before
  }

  /** Some sample of `ps` at angle `a` is near an edge. */
  predicate HitAt(sc: Scene, ps: seq<Pixel>, a: nat) {
    exists i :: 0 <= i < |ps| && ps[i].angle == a && AnyNear(sc.edges, ps[i].point, Tolerance)
  }

  /** `p` is the point of a sample of `ps` that is near an edge. */
  predicate HitPoint(sc: Scene, ps: seq<Pixel>, p: Point) {
    exists i :: 0 <= i < |ps| && ps[i].point == p && AnyNear(sc.edges, ps[i].point, Tolerance)
  }

  /** Splitting off the last sample splits the hits accordingly. */
  lemma HitSnoc(sc: Scene, ps: seq<Pixel>)
    requires ps != []
    ensures forall a: nat :: HitAt(sc, ps, a) <==>
      HitAt(sc, ps[..|ps| - 1], a) || (ps[|ps| - 1].angle == a && AnyNear(sc.edges, ps[|ps| - 1].point, Tolerance))
    ensures forall p :: HitPoint(sc, ps[..|ps| - 1], p) ==> HitPoint(sc, ps, p)
  {
    var init := ps[..|ps| - 1];
    forall a: nat | HitAt(sc, init, a) ensures HitAt(sc, ps, a) {
      var i :| 0 <= i < |init| && init[i].angle == a && AnyNear(sc.edges, init[i].point, Tolerance);
      assert ps[i] == init[i];
    }
    forall a: nat | HitAt(sc, ps, a) && ps[|ps| - 1].angle != a ensures HitAt(sc, init, a) {
      var i :| 0 <= i < |ps| && ps[i].angle == a && AnyNear(sc.edges, ps[i].point, Tolerance);
      assert init[i] == ps[i];
    }
    forall a: nat | HitAt(sc, ps, a) && !AnyNear(sc.edges, ps[|ps| - 1].point, Tolerance) ensures HitAt(sc, init, a) {
      var i :| 0 <= i < |ps| && ps[i].angle == a && AnyNear(sc.edges, ps[i].point, Tolerance);
      assert init[i] == ps[i];
    }
    forall p | HitPoint(sc, init, p) ensures HitPoint(sc, ps, p) {
      var i :| 0 <= i < |init| && init[i].point == p && AnyNear(sc.edges, init[i].point, Tolerance);
      assert ps[i] == init[i];
    }
  }

  /** A scan excludes exactly the angles of its samples that are near an edge, on top of those excluded before. */
  lemma {:induction false} ScanExcluded(sc: Scene, st: SweepState, ps: seq<Pixel>)
    ensures forall a: nat :: a in Scan(sc, st, ps).excluded <==> a in st.excluded || HitAt(sc, ps, a)
    decreases |ps|
  {
    if ps != [] {
      ScanExcluded(sc, st, ps[..|ps| - 1]);
      HitSnoc(sc, ps);
    }
  }

  /** A scan keeps the pixels drawn before and appends only points of samples near an edge. */
  lemma {:induction false} ScanNewPixels(sc: Scene, st: SweepState, ps: seq<Pixel>)
    ensures st.drawn <= Scan(sc, st, ps).drawn
    ensures forall k :: |st.drawn| <= k < |Scan(sc, st, ps).drawn| ==> HitPoint(sc, ps, Scan(sc, st, ps).drawn[k])
    decreases |ps|
  {
    if ps != [] {
      var init, last := ps[..|ps| - 1], ps[|ps| - 1];
      ScanNewPixels(sc, st, init);
      HitSnoc(sc, ps);
      var before := Scan(sc, st, init);
      var next := Scan(sc, st, ps);
      forall k | |st.drawn| <= k < |next.drawn| ensures HitPoint(sc, ps, next.drawn[k]) {
        if k < |before.drawn| {
          assert next.drawn[k] == before.drawn[k];
          assert HitPoint(sc, init, before.drawn[k]);
        } else {
          assert ps[|ps| - 1].point == next.drawn[k];
        }
      }
    }
  }

  /**
   * Scanning samples at ascending angles that are not excluded yet only adds:
   * it keeps every excluded angle and every pixel, and it appends exactly one
   * pixel per angle it newly excludes.
   */
  lemma {:induction false} ScanGrowth(sc: Scene, st: SweepState, ps: seq<Pixel>)
    requires Ascending(ps)
    requires forall i :: 0 <= i < |ps| ==> ps[i].angle !in st.excluded
    ensures st.excluded <= Scan(sc, st, ps).excluded
    ensures st.drawn <= Scan(sc, st, ps).drawn
    ensures |Scan(sc, st, ps).drawn| - |st.drawn| == |Scan(sc, st, ps).excluded| - |st.excluded|
    decreases |ps|
  {
    if ps != [] {
      var init, last := ps[..|ps| - 1], ps[|ps| - 1];
      ScanGrowth(sc, st, init);
      ScanExcluded(sc, st, init);
      forall i | 0 <= i < |init| ensures init[i].angle != last.angle {
        assert ps[i].angle < ps[|ps| - 1].angle;
      }
      assert !HitAt(sc, init, last.angle);
      assert last.angle !in Scan(sc, st, init).excluded;
    }
  }

  /**
   * One scan radius: the samples outside the angles excluded at its start,
   * in ascending order, are tested against the edges. The list of samples
   * is computed once, before any of them is tested.
   */
  function Step(sc: Scene, st: SweepState, radius: nat): SweepState {
    Scan(sc, st, Samples(sc.trig, sc.center, radius as real, st.excluded))
  }

  /** The state after scanning the radii ShipSize..radiusBound, from an empty state. */
  function SweepTo(sc: Scene, radiusBound: nat): SweepState
    decreases radiusBound
  {
    if radiusBound <= ShipSize then SweepState({}, [])
    else Step(sc, SweepTo(sc, radiusBound - 1), radiusBound - 1)
  }

  /** One pixel per excluded angle, and only angles of 0..=360 excluded. */
  predicate Consistent(st: SweepState) {
    |st.drawn| == |st.excluded| && forall a :: a in st.excluded ==> a <= MaxAngle
  }

  /**
   * After a step an angle is excluded exactly when it was before, or it is in
   * 0..=360 and its sample at this radius is near an edge.
   */
  lemma StepExcluded(sc: Scene, st: SweepState, radius: nat, a: nat)
    ensures a in Step(sc, st, radius).excluded <==>
      a in st.excluded || (a <= MaxAngle && Detects(sc, radius, a))
  {
    var ps := Samples(sc.trig, sc.center, radius as real, st.excluded);
    SamplesExact(sc.trig, sc.center, radius as real, st.excluded);
    ScanExcluded(sc, st, ps);
    if a !in st.excluded {
      if HitAt(sc, ps, a) {
        var i :| 0 <= i < |ps| && ps[i].angle == a && AnyNear(sc.edges, ps[i].point, Tolerance);
        assert HasAngle(ps, a);
      }
      if a <= MaxAngle && Detects(sc, radius, a) {
        assert HasAngle(ps, a);
        var i :| 0 <= i < |ps| && ps[i].angle == a;
        assert ps[i] == Sample(sc.trig, sc.center, radius as real, a);
      }
    }
  }

  /**
   * A step only adds: it keeps every excluded angle and every pixel, and it
   * appends exactly as many pixels as it excludes new angles.
   */
  lemma StepGrowth(sc: Scene, st: SweepState, radius: nat)
    ensures st.excluded <= Step(sc, st, radius).excluded
    ensures st.drawn <= Step(sc, st, radius).drawn
    ensures |Step(sc, st, radius).drawn| - |st.drawn| == |Step(sc, st, radius).excluded| - |st.excluded|
  {
    SamplesExact(sc.trig, sc.center, radius as real, st.excluded);
    ScanGrowth(sc, st, Samples(sc.trig, sc.center, radius as real, st.excluded));
  }

  /** A step keeps one pixel per excluded angle and excludes only angles of 0..=360. */
  lemma StepConsistent(sc: Scene, st: SweepState, radius: nat)
    requires Consistent(st)
    ensures Consistent(Step(sc, st, radius))
  {
    StepGrowth(sc, st, radius);
    forall a | a in Step(sc, st, radius).excluded ensures a <= MaxAngle {
      StepExcluded(sc, st, radius, a);
    }
  }

  /**
   * Every pixel a step appends is the sample, at this radius, of an angle the
   * step newly excludes, and some edge is near it.
   */
  lemma StepNewPixels(sc: Scene, st: SweepState, radius: nat)
    ensures var next := Step(sc, st, radius);
      forall k :: |st.drawn| <= k < |next.drawn| ==>
        AnyNear(sc.edges, next.drawn[k], Tolerance) &&
        exists a :: a in next.excluded && a !in st.excluded &&
                    next.drawn[k] == Polar(sc.trig, sc.center, radius as real, a as real)
  {
    var ps := Samples(sc.trig, sc.center, radius as real, st.excluded);
    var next := Step(sc, st, radius);
    SamplesExact(sc.trig, sc.center, radius as real, st.excluded);
    ScanNewPixels(sc, st, ps);
    ScanExcluded(sc, st, ps);
    forall k | |st.drawn| <= k < |next.drawn|
      ensures AnyNear(sc.edges, next.drawn[k], Tolerance)
      ensures exists a :: a in next.excluded && a !in st.excluded &&
                          next.drawn[k] == Polar(sc.trig, sc.center, radius as real, a as real)
    {
      assert HitPoint(sc, ps, next.drawn[k]);
      var i :| 0 <= i < |ps| && ps[i].point == next.drawn[k] && AnyNear(sc.edges, ps[i].point, Tolerance);
      var a := ps[i].angle;
      assert HitAt(sc, ps, a);
      assert a in next.excluded && a !in st.excluded;
    }
  }

  /** Past the first radius, a sweep is one more step on the sweep before it. */
  lemma SweepUnfold(sc: Scene, radiusBound: nat)
    requires radiusBound > ShipSize
    ensures SweepTo(sc, radiusBound) == Step(sc, SweepTo(sc, radiusBound - 1), radiusBound - 1)
  {
  }

  /** The step that extends a consistent sweep leaves it consistent. */
  lemma StepOnSweepConsistent(sc: Scene, radiusBound: nat)
    requires radiusBound > ShipSize
    requires Consistent(SweepTo(sc, radiusBound - 1))
    ensures Consistent(Step(sc, SweepTo(sc, radiusBound - 1), radiusBound - 1))
  {
    StepConsistent(sc, SweepTo(sc, radiusBound - 1), radiusBound - 1);
  }

  /** Over a whole sweep there is one pixel per excluded angle, and only angles of 0..=360 are excluded. */
  lemma {:induction false} SweepConsistent(sc: Scene, radiusBound: nat)
    ensures Consistent(SweepTo(sc, radiusBound))
    decreases radiusBound
  {
    if radiusBound > ShipSize {
      SweepConsistent(sc, radiusBound - 1);
      StepOnSweepConsistent(sc, radiusBound);
      SweepUnfold(sc, radiusBound);
    }
  }

  /** A sweep draws at most one pixel per angle of 0..=360. */
  lemma SweepBound(sc: Scene, radiusBound: nat)
    ensures |SweepTo(sc, radiusBound).drawn| == |SweepTo(sc, radiusBound).excluded| <= MaxAngle + 1
  {
    SweepConsistent(sc, radiusBound);
    AngleBound(SweepTo(sc, radiusBound).excluded);
  }

  /** Scanning one more radius keeps every excluded angle and every drawn pixel. */
  lemma SweepStepGrowth(sc: Scene, radiusBound: nat)
    requires radiusBound > ShipSize
    ensures SweepTo(sc, radiusBound - 1).excluded <= SweepTo(sc, radiusBound).excluded
    ensures SweepTo(sc, radiusBound - 1).drawn <= SweepTo(sc, radiusBound).drawn
  {
    StepGrowth(sc, SweepTo(sc, radiusBound - 1), radiusBound - 1);
    SweepUnfold(sc, radiusBound);
  }

  /** Scanning further only adds excluded angles and appends pixels. */
  lemma {:induction false} SweepMonotone(sc: Scene, r1: nat, r2: nat)
    requires r1 <= r2
    ensures SweepTo(sc, r1).excluded <= SweepTo(sc, r2).excluded
    ensures SweepTo(sc, r1).drawn <= SweepTo(sc, r2).drawn
    decreases r2
  {
    if r1 < r2 {
      SweepMonotone(sc, r1, r2 - 1);
      if r2 > ShipSize {
        SweepStepGrowth(sc, r2);
      }
    }
  }

  /** Scanning one more radius excludes the angles detected at that radius and keeps the rest. */
  lemma SweepStepExcluded(sc: Scene, radiusBound: nat, a: nat)
    requires radiusBound > ShipSize
    ensures a in SweepTo(sc, radiusBound).excluded <==>
      a in SweepTo(sc, radiusBound - 1).excluded || (a <= MaxAngle && Detects(sc, radiusBound - 1, a))
  {
    StepExcluded(sc, SweepTo(sc, radiusBound - 1), radiusBound - 1, a);
    SweepUnfold(sc, radiusBound);
  }

  /**
   * After a sweep an angle is excluded exactly when it is in 0..=360 and its
   * sample at some scanned radius is near an edge.
   */
  lemma {:induction false} SweepExcludedExact(sc: Scene, radiusBound: nat, a: nat)
    ensures a in SweepTo(sc, radiusBound).excluded <==>
      a <= MaxAngle && exists r: nat :: ShipSize <= r < radiusBound && Detects(sc, r, a)
    decreases radiusBound
  {
    if radiusBound > ShipSize {
      var last := radiusBound - 1;
      SweepExcludedExact(sc, last, a);
      SweepStepExcluded(sc, radiusBound, a);
      if a <= MaxAngle && Detects(sc, last, a) {
        assert ShipSize <= last < radiusBound;
      }
    }
  }

  /** Every pixel a sweep draws is near some edge. */
  lemma {:induction false} SweepDrawnNear(sc: Scene, radiusBound: nat)
    ensures forall k :: 0 <= k < |SweepTo(sc, radiusBound).drawn| ==>
      AnyNear(sc.edges, SweepTo(sc, radiusBound).drawn[k], Tolerance)
    decreases radiusBound
  {
    if radiusBound > ShipSize {
      SweepDrawnNear(sc, radiusBound - 1);
      SweepStepGrowth(sc, radiusBound);
      SweepStepNear(sc, radiusBound);
    }
  }

  /** The pixels that scanning one more radius appends are near some edge. */
  lemma SweepStepNear(sc: Scene, radiusBound: nat)
    requires radiusBound > ShipSize
    ensures forall k :: |SweepTo(sc, radiusBound - 1).drawn| <= k < |SweepTo(sc, radiusBound).drawn| ==>
      AnyNear(sc.edges, SweepTo(sc, radiusBound).drawn[k], Tolerance)
  {
    StepNewPixels(sc, SweepTo(sc, radiusBound - 1), radiusBound - 1);
    SweepUnfold(sc, radiusBound);
  }

  /**
   * One radius of `circle_render`: sample the circle outside the excluded
   * angles and, on the first edge near a sample, draw it and exclude its angle.
   * The samples are computed once, before the loop over them.
   */
  method ScanRadius(sc: Scene, radius: nat, excluded0: set<nat>, drawn0: seq<Point>)
    returns (excluded: set<nat>, drawn: seq<Point>)
    ensures SweepState(excluded, drawn) == Step(sc, SweepState(excluded0, drawn0), radius)
  {
    excluded, drawn := excluded0, drawn0;
    var pixels := PixelsInCircle(sc.trig, sc.center, radius as real, excluded);
    var i := 0;
    while i < |pixels|
      invariant i <= |pixels|
      invariant SweepState(excluded, drawn) == Scan(sc, SweepState(excluded0, drawn0), pixels[..i])
    {
      var pixel := pixels[i];
      var hit := FirstNearEdge(sc.edges, pixel.point, Tolerance);
      assert pixels[..i + 1][..i] == pixels[..i];
      if hit.Some? {
        drawn := drawn + [pixel.point];
        excluded := excluded + {pixel.angle};
      }
      i := i + 1;
    }
    assert pixels[..|pixels|] == pixels;
  }

  /**
   * The detection part of `circle_render`: every radius from ShipSize up to
   * (not including) `radiusBound`, in order, starting with nothing excluded
   * and nothing drawn.
   */
  method CircleRender(sc: Scene, radiusBound: nat) returns (excluded: set<nat>, drawn: seq<Point>)
    ensures SweepState(excluded, drawn) == SweepTo(sc, radiusBound)
    ensures |drawn| == |excluded| <= MaxAngle + 1
    ensures forall a :: a in excluded ==> a <= MaxAngle
    ensures forall k :: 0 <= k < |drawn| ==> AnyNear(sc.edges, drawn[k], Tolerance)
  {
    excluded := {};
    drawn := [];
    var radius := ShipSize;
    while radius < radiusBound
      invariant ShipSize <= radius && (radius == ShipSize || radius <= radiusBound)
      invariant SweepState(excluded, drawn) == SweepTo(sc, radius)
    {
      excluded, drawn := ScanRadius(sc, radius, excluded, drawn);
      SweepUnfold(sc, radius + 1);
      radius := radius + 1;
    }
    if radiusBound <= ShipSize {
      assert SweepTo(sc, radius) == SweepTo(sc, radiusBound);
    }
    SweepBound(sc, radiusBound);
    SweepConsistent(sc, radiusBound);
    SweepDrawnNear(sc, radiusBound);
  }
}
