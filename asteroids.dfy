/**
 * Asteroids as regular polygons: their vertices and the closed cycle of edges
 * the radar tests points against.
 */
module Asteroids {
  import opened Wrappers
  import opened Geometry

  /** `u8`, the type of an asteroid's side count. */
  type Byte = x: int | 0 <= x < 256

  /** The value of `std::f32::consts::PI` the vertex angles are built from. */
  const PI: real := 3.14159265358979323846

  /** An asteroid: its centre, number of sides, circumradius and rotation (in radians as the trigonometry reads it). */
  datatype Asteroid = Asteroid(pos: Point, sides: Byte, radius: real, rotation: real)

  /** The direction of vertex `i`: the rotation plus `i` steps of 2π/sides. */
  function VertexAngle(ast: Asteroid, i: nat): real
    requires i < ast.sides
  {
    ast.rotation + (i as real) * (2.0 * PI / (ast.sides as real))
  }

  /** Vertex `i`: the polar image of its direction at the asteroid's radius. */
  function VertexAt(trig: Trig, ast: Asteroid, i: nat): Point
    requires i < ast.sides
  {
    Polar(trig, ast.pos, ast.radius, VertexAngle(ast, i))
  }

  /** `Asteroid::vertices`: one vertex per side, in order. */
  method Vertices(trig: Trig, ast: Asteroid) returns (vertices: seq<Point>)
    ensures |vertices| == ast.sides
    ensures forall i :: 0 <= i < |vertices| ==> vertices[i] == VertexAt(trig, ast, i)
  {
    vertices := [];
    var i := 0;
    while i < ast.sides
      invariant i <= ast.sides
      invariant |vertices| == i
      invariant forall k :: 0 <= k < i ==> vertices[k] == VertexAt(trig, ast, k)
    {
      var angle := ast.rotation + (i as real) * (2.0 * PI / (ast.sides as real));
      vertices := vertices + [Polar(trig, ast.pos, ast.radius, angle)];
      i := i + 1;
    }
  }

  /** Where cos² + sin² = 1, every vertex lies at distance `radius` from the centre. */
  lemma VerticesOnCircle(trig: Trig, ast: Asteroid, i: nat)
    requires Pythagorean(trig) && i < ast.sides
    ensures SqDist(VertexAt(trig, ast, i), ast.pos) == Sq(ast.radius)
  {
    assert UnitAt(trig, VertexAngle(ast, i));
    PolarOnCircle(trig, ast.pos, ast.radius, VertexAngle(ast, i));
  }

  /** Consecutive segments share an endpoint, and the last one ends where the first begins. */
  predicate ClosedCycle(edges: seq<Segment>) {
    forall i :: 0 <= i < |edges| ==> edges[i].b == edges[Successor(i, |edges|)].a
  }

  /** The index that follows `i` around a polygon of `n` vertices. */
  function Successor(i: nat, n: nat): (j: nat)
    requires i < n
    ensures j < n
  {
    (i + 1) % n
  }

  /** Vertex `i` coincides with its successor. */
  predicate DegenerateAt(trig: Trig, ast: Asteroid, i: nat)
    requires i < ast.sides
  {
    VertexAt(trig, ast, i) == VertexAt(trig, ast, Successor(i, ast.sides))
  }

  /** Some vertex coincides with its successor, so `Line::new` would panic on that edge. */
  predicate HasDegenerateEdge(trig: Trig, ast: Asteroid) {
    exists i :: 0 <= i < ast.sides && DegenerateAt(trig, ast, i)
  }

  /**
   * `Asteroid::edges`: segment `i` runs from vertex `i` to vertex `(i + 1) mod n`.
   * `None` stands for the panic of `Line::new` on a degenerate edge.
   */
  method Edges(trig: Trig, ast: Asteroid) returns (edges: Option<seq<Line>>)
    ensures edges.None? <==> HasDegenerateEdge(trig, ast)
    ensures edges.Some? ==> |edges.value| == ast.sides
    ensures edges.Some? ==> forall i :: 0 <= i < ast.sides ==>
      edges.value[i].a == VertexAt(trig, ast, i) && edges.value[i].b == VertexAt(trig, ast, Successor(i, ast.sides))
    ensures edges.Some? ==> ClosedCycle(edges.value)
    ensures edges.Some? && ast.sides > 0 ==> edges.value[ast.sides - 1].b == edges.value[0].a
  {
    var vertices := Vertices(trig, ast);
    var n := |vertices|;
    var acc: seq<Line> := [];
    var i := 0;
    while i < n
      invariant i <= n
      invariant |acc| == i
      invariant forall k :: 0 <= k < i ==> acc[k].a == vertices[k] && acc[k].b == vertices[Successor(k, n)]
    {
      var start := vertices[i];
      var end := vertices[(i + 1) % n];
      match NewLine(start, end) {
        case None =>
          assert DegenerateAt(trig, ast, i);
          return None;
        case Some(line) =>
          acc := acc + [line];
      }
      i := i + 1;
    }
    assert forall k :: 0 <= k < n ==> !DegenerateAt(trig, ast, k) by {
      forall k | 0 <= k < n ensures !DegenerateAt(trig, ast, k) {
        assert acc[k].a != acc[k].b;
      }
    }
    edges := Some(acc);
  }
}
