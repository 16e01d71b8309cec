/**
 * Points, line segments and the segment proximity test used by the radar.
 *
 * Coordinates are f32 in the game; here they are exact reals, so the model
 * states what the comparisons decide, not how rounding perturbs them.
 * Trigonometry is left abstract: a `Trig` value carries a cosine and a sine
 * about which nothing is assumed unless a lemma asks for it.
 */
module Geometry {
  import opened Wrappers

  /** A position on screen (macroquad's `Vec2`). */
  datatype Point = Point(x: real, y: real)

  /** An ordered pair of endpoints, with no constraint on them. */
  datatype Segment = Segment(a: Point, b: Point)

  /** A line segment as the game stores it: its two endpoints differ. */
  type Line = s: Segment | s.a != s.b witness Segment(Point(0.0, 0.0), Point(1.0, 0.0))

  /** `Line::new`: refuses (panics on) a segment whose endpoints coincide, else keeps them as given. */
  function NewLine(a: Point, b: Point): (r: Option<Line>)
    ensures r.None? <==> a == b
    ensures r.Some? ==> r.value.a == a && r.value.b == b
  {
    if a.x == b.x && a.y == b.y then None else Some(Segment(a, b))
  }

  function Abs(x: real): real {
    if x < 0.0 then -x else x
  }

  /** Cross product of (p - a) and (b - a), with the operand order of the game. */
  function Cross(l: Segment, p: Point): real {
    (p.y - l.a.y) * (l.b.x - l.a.x) - (p.x - l.a.x) * (l.b.y - l.a.y)
  }

  /** Dot product of (p - a) and (b - a). */
  function Dot(l: Segment, p: Point): real {
    (p.x - l.a.x) * (l.b.x - l.a.x) + (p.y - l.a.y) * (l.b.y - l.a.y)
  }

  /** `x.powi(2)`. */
  function Sq(x: real): real {
    x * x
  }

  /** Squared length of the segment. */
  function SqLen(l: Segment): real {
    Sq(l.b.x - l.a.x) + Sq(l.b.y - l.a.y)
  }

  /** `Line::near`: three checks in turn, each of which can reject the point. */
  predicate Near(l: Line, p: Point, tolerance: real) {
    if Abs(Cross(l, p)) > tolerance then false       // not collinear enough
    else if Dot(l, p) < tolerance then false         // before `a`
    else if Dot(l, p) > SqLen(l) then false          // after `b`
    else true
  }

  /** The point a + s·(b - a) + h·(-(b.y - a.y), b.x - a.x): `s` runs along the segment, `h` across it. */
  function Offset(l: Segment, s: real, h: real): Point {
    var dx, dy := l.b.x - l.a.x, l.b.y - l.a.y;
    Point(l.a.x + s * dx - h * dy, l.a.y + s * dy + h * dx)
  }

  /** The same point displaced by `d`. */
  function Move(p: Point, d: Point): Point {
    Point(p.x + d.x, p.y + d.y)
  }

  /** Squared Euclidean distance. */
  function SqDist(p: Point, q: Point): real {
    Sq(p.x - q.x) + Sq(p.y - q.y)
  }

  /** A point whose cross product exceeds the tolerance is rejected whatever its projection. */
  lemma OffLineNotNear(l: Line, p: Point, tolerance: real)
    requires Abs(Cross(l, p)) > tolerance
    ensures !Near(l, p, tolerance)
  {
  }

  /** A point that projects past `b` is rejected, even when it lies on the line. */
  lemma PastEndNotNear(l: Line, p: Point, tolerance: real)
    requires Dot(l, p) > SqLen(l)
    ensures !Near(l, p, tolerance)
  {
  }

  /**
   * The test for "before `a`" compares the dot product with the tolerance,
   * not with zero: with a positive tolerance the endpoint `a` itself is not near.
   */
  lemma EndpointANotNear(l: Line, tolerance: real)
    requires tolerance > 0.0
    ensures !Near(l, l.a, tolerance)
  {
    assert Dot(l, l.a) == 0.0;
  }

  /** Distinct endpoints give a segment of positive squared length. */
  lemma SqLenPositive(l: Line)
    ensures SqLen(l) > 0.0
  {
    SquareNonNegative(l.b.x - l.a.x);
    SquareNonNegative(l.b.y - l.a.y);
    if l.b.x != l.a.x {
      SquarePositive(l.b.x - l.a.x);
    } else {
      SquarePositive(l.b.y - l.a.y);
    }
  }

  /** The polynomial identities behind `OffsetProducts`, over plain reals. */
  lemma FrameAlgebra(dx: real, dy: real, s: real, h: real)
    ensures (s * dy + h * dx) * dx - (s * dx - h * dy) * dy == h * (Sq(dx) + Sq(dy))
    ensures (s * dx - h * dy) * dx + (s * dy + h * dx) * dy == s * (Sq(dx) + Sq(dy))
  {
  }

  /** The polynomial identities behind `FrameCoordinates`, over plain reals. */
  lemma InverseFrameAlgebra(dx: real, dy: real, px: real, py: real)
    ensures (px * dx + py * dy) * dx - (py * dx - px * dy) * dy == px * (Sq(dx) + Sq(dy))
    ensures (px * dx + py * dy) * dy + (py * dx - px * dy) * dx == py * (Sq(dx) + Sq(dy))
  {
  }

  /** In the segment's own frame the cross product measures `h` and the dot product measures `s`. */
  lemma OffsetProducts(l: Segment, s: real, h: real)
    ensures Cross(l, Offset(l, s, h)) == h * SqLen(l)
    ensures Dot(l, Offset(l, s, h)) == s * SqLen(l)
  {
    var dx, dy := l.b.x - l.a.x, l.b.y - l.a.y;
    var p := Offset(l, s, h);
    assert p.x - l.a.x == s * dx - h * dy;
    assert p.y - l.a.y == s * dy + h * dx;
    FrameAlgebra(dx, dy, s, h);
  }

  /** Every point has frame coordinates: it is `Offset(l, s, h)` for s = dot/len², h = cross/len². */
  lemma FrameCoordinates(l: Line, p: Point)
    ensures SqLen(l) > 0.0
    ensures Offset(l, Dot(l, p) / SqLen(l), Cross(l, p) / SqLen(l)) == p
  {
    SqLenPositive(l);
    var dx, dy := l.b.x - l.a.x, l.b.y - l.a.y;
    FrameSolve(dx, dy, p.x - l.a.x, p.y - l.a.y, SqLen(l));
  }

  /** The coordinates `FrameCoordinates` names recover the offset (px, py) from `a`, over plain reals. */
  lemma FrameSolve(dx: real, dy: real, px: real, py: real, len2: real)
    requires len2 == Sq(dx) + Sq(dy) && len2 != 0.0
    ensures ((px * dx + py * dy) / len2) * dx - ((py * dx - px * dy) / len2) * dy == px
    ensures ((px * dx + py * dy) / len2) * dy + ((py * dx - px * dy) / len2) * dx == py
  {
    InverseFrameAlgebra(dx, dy, px, py);
    QuotientDifference(px * dx + py * dy, py * dx - px * dy, dx, dy, len2, px);
    QuotientSum(px * dx + py * dy, py * dx - px * dy, dy, dx, len2, py);
  }

  /** Dividing a difference by a non-zero divisor term by term. */
  lemma QuotientDifference(d: real, c: real, u: real, v: real, len2: real, q: real)
    requires len2 != 0.0 && d * u - c * v == q * len2
    ensures (d / len2) * u - (c / len2) * v == q
  {
  }

  /** Dividing a sum by a non-zero divisor term by term. */
  lemma QuotientSum(d: real, c: real, u: real, v: real, len2: real, q: real)
    requires len2 != 0.0 && d * u + c * v == q * len2
    ensures (d / len2) * u + (c / len2) * v == q
  {
  }

  /**
   * What `near` accepts, in the segment's frame: the offset across the line
   * times the squared length is within the tolerance, and the position along
   * the segment lies between tolerance/len² and 1 (the endpoint `b`).
   */
  lemma NearInFrame(l: Line, s: real, h: real, tolerance: real)
    ensures Near(l, Offset(l, s, h), tolerance) <==>
      Abs(h) * SqLen(l) <= tolerance && tolerance <= s * SqLen(l) && s <= 1.0
  {
    OffsetProducts(l, s, h);
    SqLenPositive(l);
    AbsOfScaled(h, SqLen(l));
    ScaledAtMost(s, SqLen(l));
  }

  /** Scaling by a positive number scales the absolute value. */
  lemma AbsOfScaled(h: real, len2: real)
    requires len2 > 0.0
    ensures Abs(h * len2) == Abs(h) * len2
  {
    if h < 0.0 {
      assert h * len2 == -((-h) * len2);
      ProductPositive(-h, len2);
    } else {
      ProductNonNegative(h, len2);
    }
  }

  /** Scaled by a positive length, `s` stays within that length exactly when `s` is at most 1. */
  lemma ScaledAtMost(s: real, len2: real)
    requires len2 > 0.0
    ensures s * len2 <= len2 <==> s <= 1.0
  {
    if s > 1.0 {
      ProductPositive(s - 1.0, len2);
      assert (s - 1.0) * len2 == s * len2 - len2;
    } else {
      ProductNonNegative(1.0 - s, len2);
      assert (1.0 - s) * len2 == len2 - s * len2;
    }
  }

  /** Every point of the segment from `a` + tolerance/len² onward, `b` included, is near. */
  lemma AlongSegmentNear(l: Line, s: real, tolerance: real)
    requires 0.0 <= tolerance <= s * SqLen(l) && s <= 1.0
    ensures Near(l, Offset(l, s, 0.0), tolerance)
  {
    NearInFrame(l, s, 0.0, tolerance);
  }

  /** With zero tolerance the midpoint of every segment is near it. */
  lemma MidpointNear(l: Line)
    ensures Near(l, Point((l.a.x + l.b.x) / 2.0, (l.a.y + l.b.y) / 2.0), 0.0)
  {
    SqLenPositive(l);
    assert Offset(l, 0.5, 0.0) == Point((l.a.x + l.b.x) / 2.0, (l.a.y + l.b.y) / 2.0);
    AlongSegmentNear(l, 0.5, 0.0);
  }

  /**
   * The cross product scales the distance to the line by the segment's
   * length, so "farther than the tolerance from the line means not near"
   * holds for segments of length at least 1, and for every segment once the
   * tolerance is at least 1 (a shorter segment then has no near point at
   * all). The squared distance of `Offset(l, s, h)` to the infinite line is
   * h²·len².
   */
  lemma FarFromLineNotNear(l: Line, s: real, h: real, tolerance: real)
    requires 0.0 <= tolerance && (1.0 <= SqLen(l) || 1.0 <= tolerance)
    requires Sq(h) * SqLen(l) > Sq(tolerance)
    ensures !Near(l, Offset(l, s, h), tolerance)
  {
    if 1.0 <= SqLen(l) {
      FarFromLongLineNotNear(l, s, h, tolerance);
    } else {
      ShortSegmentNotNear(l, Offset(l, s, h), tolerance);
    }
  }

  /** The case of `FarFromLineNotNear` where the segment has length at least 1. */
  lemma FarFromLongLineNotNear(l: Line, s: real, h: real, tolerance: real)
    requires 0.0 <= tolerance && 1.0 <= SqLen(l)
    requires Sq(h) * SqLen(l) > Sq(tolerance)
    ensures !Near(l, Offset(l, s, h), tolerance)
  {
    NearInFrame(l, s, h, tolerance);
    OffsetBeyondTolerance(h, SqLen(l), tolerance);
  }

  /** A segment whose squared length is below the tolerance has no near point. */
  lemma ShortSegmentNotNear(l: Line, p: Point, tolerance: real)
    requires SqLen(l) < tolerance
    ensures !Near(l, p, tolerance)
  {
  }

  /**
   * Below tolerance 1 a short segment can accept a point farther than the
   * tolerance from its line: the segment from (0, 0) to (0.8, 0) accepts
   * (0.4, 0.312) at tolerance 0.25.
   */
  lemma ShortSegmentFarPointNear()
    ensures var l: Line := Segment(Point(0.0, 0.0), Point(0.8, 0.0));
      Offset(l, 0.5, 0.39) == Point(0.4, 0.312) &&
      Sq(0.39) * SqLen(l) > Sq(0.25) &&
      Near(l, Offset(l, 0.5, 0.39), 0.25)
  {
  }

  /** The arithmetic core of `FarFromLineNotNear`. */
  lemma OffsetBeyondTolerance(h: real, len2: real, tolerance: real)
    requires 0.0 <= tolerance && 1.0 <= len2
    requires Sq(h) * len2 > Sq(tolerance)
    ensures Abs(h) * len2 > tolerance
  {
    var c := Abs(h) * len2;
    ProductNonNegative(Abs(h), len2);
    SquareNonNegative(h);
    calc {
      Sq(c);
      == { SquareOfProduct(Abs(h), len2); }
      Sq(Abs(h)) * Sq(len2);
      == { SquareOfAbs(h); }
      Sq(h) * Sq(len2);
      >= { SquareAtLeast(len2); ScaleMonotone(Sq(h), Sq(len2), len2); }
      Sq(h) * len2;
      > Sq(tolerance);
    }
    SquareMonotone(c, tolerance);
  }

  lemma SquareOfAbs(x: real)
    ensures Sq(Abs(x)) == Sq(x)
  {
    if x < 0.0 {
      calc {
        Sq(Abs(x));
        (-x) * (-x);
        x * x;
      }
    }
  }

  lemma ProductPositive(x: real, y: real)
    requires x > 0.0 && y > 0.0
    ensures x * y > 0.0
  {
  }

  lemma ProductNonNegative(x: real, y: real)
    requires x >= 0.0 && y >= 0.0
    ensures x * y >= 0.0
  {
  }

  lemma ScaleMonotone(k: real, x: real, y: real)
    requires k >= 0.0 && x >= y
    ensures k * x >= k * y
  {
    calc {
      k * x - k * y;
      k * (x - y);
      >= { ProductNonNegative(k, x - y); }
      0.0;
    }
  }

  lemma SquareOfProduct(x: real, y: real)
    ensures Sq(x * y) == Sq(x) * Sq(y)
  {
  }

  /** A number at least 1 is at most its square. */
  lemma SquareAtLeast(x: real)
    requires x >= 1.0
    ensures Sq(x) >= x
  {
    calc {
      Sq(x);
      x * x;
      >= { ScaleMonotone(x, x, 1.0); }
      x * 1.0;
    }
  }

  lemma SquarePositive(x: real)
    requires x != 0.0
    ensures Sq(x) > 0.0
  {
    calc {
      Sq(x);
      x * x;
      > 0.0;
    }
  }

  lemma SquareNonNegative(x: real)
    ensures Sq(x) >= 0.0
  {
  }

  /** Between non-negative reals, the larger square has the larger root. */
  lemma SquareMonotone(x: real, y: real)
    requires 0.0 <= x && 0.0 <= y && Sq(x) > Sq(y)
    ensures x > y
  {
    assert (x - y) * (x + y) > 0.0;
  }

  /** Moving the segment and the point together does not change the answer. */
  lemma NearTranslation(l: Line, p: Point, d: Point, tolerance: real)
    ensures Move(l.a, d) != Move(l.b, d)
    ensures Near(Segment(Move(l.a, d), Move(l.b, d)), Move(p, d), tolerance) == Near(l, p, tolerance)
  {
    var m := Segment(Move(l.a, d), Move(l.b, d));
    assert Cross(m, Move(p, d)) == Cross(l, p);
    assert Dot(m, Move(p, d)) == Dot(l, p);
    assert SqLen(m) == SqLen(l);
  }

  /** Cosine and sine, left uninterpreted. */
  datatype Trig = Trig(cos: real -> real, sin: real -> real)

  /** cos² + sin² = 1 at `angle`. */
  predicate UnitAt(trig: Trig, angle: real) {
    Sq(trig.cos(angle)) + Sq(trig.sin(angle)) == 1.0
  }

  /** Both functions behave like cosine and sine at least in that cos² + sin² = 1. */
  ghost predicate Pythagorean(trig: Trig) {
    forall angle :: UnitAt(trig, angle)
  }

  /** `polar2euclidean`: the point at `radius` from `center` in direction `angle` (radians). */
  function Polar(trig: Trig, center: Point, radius: real, angle: real): Point {
    Point(center.x + radius * trig.cos(angle), center.y + radius * trig.sin(angle))
  }

  /** Where cos² + sin² = 1, the polar image lies on the circle of that radius. */
  lemma PolarOnCircle(trig: Trig, center: Point, radius: real, angle: real)
    requires UnitAt(trig, angle)
    ensures SqDist(Polar(trig, center, radius, angle), center) == Sq(radius)
  {
    var c, s := trig.cos(angle), trig.sin(angle);
    SquareOfProduct(radius, c);
    SquareOfProduct(radius, s);
    calc {
      SqDist(Polar(trig, center, radius, angle), center);
      Sq(radius * c) + Sq(radius * s);
      Sq(radius) * (Sq(c) + Sq(s));
      Sq(radius);
    }
  }
}
