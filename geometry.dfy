/**
 * The mesh primitives and the floating-point geometry that the outline
 * generator consumes. Everything numeric that is not plain bookkeeping is an
 * uninterpreted function of the `Kernel`; points and vectors are an opaque
 * type with decidable equality. Only the 2-D coordinates that the generator
 * itself shifts and scales are real pairs.
 */
module Geometry {
  import opened Wrappers

  /** A 3-D point or vector (the source's Vector3); only its equality is used directly. */
  type Vector3(==, 0, !new)

  /** A 2-D point in an outline-local frame (the source's Vector2). */
  datatype Vector2 = Vector2(x: real, y: real)

  /** (float)Math.PI, the constant the source compares its angles with. */
  const FPi: real := 3.1415927410125732

  /** OutlinesGenerator.DEFAULT_LINE_THICKNESS. */
  const DefaultLineThickness: real := 0.013

  function Min(a: real, b: real): real { if a < b then a else b }
  function Max(a: real, b: real): real { if a < b then b else a }
  function Abs(a: real): real { if a < 0.0 then -a else a }

  /** Vector2.Min of three points, taken component by component. */
  function Min3(a: Vector2, b: Vector2, c: Vector2): (m: Vector2)
    ensures m.x <= a.x && m.x <= b.x && m.x <= c.x
    ensures m.x == a.x || m.x == b.x || m.x == c.x
    ensures m.y <= a.y && m.y <= b.y && m.y <= c.y
    ensures m.y == a.y || m.y == b.y || m.y == c.y
  {
    Vector2(Min(Min(a.x, b.x), c.x), Min(Min(a.y, b.y), c.y))
  }

  /** Vector2.Max of three points, taken component by component. */
  function Max3(a: Vector2, b: Vector2, c: Vector2): (m: Vector2)
    ensures m.x >= a.x && m.x >= b.x && m.x >= c.x
    ensures m.x == a.x || m.x == b.x || m.x == c.x
    ensures m.y >= a.y && m.y >= b.y && m.y >= c.y
    ensures m.y == a.y || m.y == b.y || m.y == c.y
  {
    Vector2(Max(Max(a.x, b.x), c.x), Max(Max(a.y, b.y), c.y))
  }

  /** A plane through `origin` with normal `normal`. */
  datatype Plane = Plane(origin: Vector3, normal: Vector3)

  /** A 2-D line equation, as Line.FromPoints builds it from two points. */
  datatype Line = FromPoints(a: Vector2, b: Vector2)

  /**
   * A 2-D segment with the equation computed when it was built: assigning a
   * new end point later (as the planar-edge filter does) does not recompute
   * the equation.
   */
  datatype LineSegment2D = LineSegment2D(p1: Vector2, p2: Vector2, equation: Line)

  function Segment(p1: Vector2, p2: Vector2): (s: LineSegment2D)
    ensures s.p1 == p1 && s.p2 == p2 && s.equation == FromPoints(p1, p2)
  {
    LineSegment2D(p1, p2, FromPoints(p1, p2))
  }

  /** A mesh vertex: position, normal and the identity its Equals compares. */
  datatype Vertex = Vertex(position: Vector3, normal: Vector3, id: nat)

  /**
   * A mesh triangle: its three vertices in order, its face normal, its centre
   * and the identities of its three vertex-index records, which own the
   * per-vertex outline data.
   */
  datatype Triangle = Triangle(v1: Vertex, v2: Vertex, v3: Vertex,
                               normal: Vector3, center: Vector3,
                               i1: nat, i2: nat, i3: nat)
  {
    function Vertices(): (vs: seq<Vertex>)
      ensures |vs| == 3
    {
      [v1, v2, v3]
    }

    function Indices(): (ix: seq<nat>)
      ensures |ix| == 3
    {
      [i1, i2, i3]
    }
  }

  /** A 2-D triangle given by its three edges (Triangle2D). */
  datatype Triangle2D = Triangle2D(e1: LineSegment2D, e2: LineSegment2D, e3: LineSegment2D)

  /** A 32-bit signed integer, the width of every hash code. */
  type Int32 = x: int | -0x8000_0000 <= x < 0x8000_0000

  /** Wrap-around to 32 bits, as unchecked C# int arithmetic does. */
  function Wrap32(x: int): (r: Int32)
    ensures (r - x) % 0x1_0000_0000 == 0
  {
    (x + 0x8000_0000) % 0x1_0000_0000 - 0x8000_0000
  }

  /** One step `h * -1521134295 + v` of the generated hash-code pattern. */
  function HashStep(h: Int32, v: Int32): Int32 {
    Wrap32(h * -1521134295 + v)
  }

  /**
   * The hash of an unordered pair: the two component hashes are combined
   * smaller first, so that the order in which they are given does not matter.
   */
  function PairHash(h1: Int32, h2: Int32): (r: Int32)
    ensures r == HashStep(HashStep(162377905, Min32(h1, h2)), Max32(h1, h2))
  {
    if h1 < h2 then HashStep(HashStep(162377905, h1), h2)
    else HashStep(HashStep(162377905, h2), h1)
  }

  function Min32(a: Int32, b: Int32): Int32 { if a < b then a else b }
  function Max32(a: Int32, b: Int32): Int32 { if a < b then b else a }

  /** The pair hash does not depend on the order of its arguments. */
  lemma PairHashSymmetric(h1: Int32, h2: Int32)
    ensures PairHash(h1, h2) == PairHash(h2, h1)
  {
  }

  /**
   * The floating-point geometry of the source, left uninterpreted. Each field
   * names the source operation it stands for.
   */
  datatype Kernel = Kernel(
    /** Vector3.Rounded() at its default precision. */
    rounded: Vector3 -> Vector3,
    /** Vector3.Rounded(4). */
    rounded4: Vector3 -> Vector3,
    /** Vector3.GetHashCode(). */
    hash: Vector3 -> Int32,
    /** Vertex.GetHashCode(). */
    vertexHash: Vertex -> Int32,
    /** Vector3.Equals(other, precision). */
    nearlyEqual: (Vector3, Vector3, real) -> bool,
    /** Vector3.AngleBetween(a, b), in radians. */
    angleBetween: (Vector3, Vector3) -> real,
    /** float.IsNaN(Vector3.AngleBetween(a, b)): the angle is undefined (a zero-length vector). */
    angleIsNaN: (Vector3, Vector3) -> bool,
    /** a + b. */
    add: (Vector3, Vector3) -> Vector3,
    /** v * s. */
    scale: (Vector3, real) -> Vector3,
    /** Vector3.Avg(a, b). */
    average: (Vector3, Vector3) -> Vector3,
    /** v.Normalized(). */
    normalized: Vector3 -> Vector3,
    /** (b - a).Normalized(). */
    direction: (Vector3, Vector3) -> Vector3,
    /** Vector3.Distance(a, b). */
    distance: (Vector3, Vector3) -> real,
    /** ((n1 + n2) / 2).Normalized().Rounded(): the normal of an edge from its end normals. */
    edgeNormal: (Vector3, Vector3) -> Vector3,
    /** Vector3.GetPerpendicular(p1, p2, c).Normalized().Rounded(). */
    perpendicular: (Vector3, Vector3, Vector3) -> Vector3,
    /** Vector3.Distance(Vector3.Cross((p2 - p1).Normalized(), dir), normal). */
    orderDeviation: (Vector3, Vector3, Vector3, Vector3) -> real,
    /** Plane.ProjectPoint. */
    projectPoint: (Plane, Vector3) -> Vector3,
    /** Plane.ProjectVector. */
    projectVector: (Plane, Vector3) -> Vector3,
    /** Plane.ProjectPoint2D(axis, point). */
    projectPoint2D: (Plane, Vector3, Vector3) -> Vector2,
    /** Line.AreParallel. */
    areParallel: (Line, Line) -> bool,
    /** Line.Intersect: the intersection point, if the lines meet. */
    intersect: (Line, Line) -> Option<Vector2>,
    /** LineSegment2D.Intersects(other, out _). */
    segmentsIntersect: (LineSegment2D, LineSegment2D) -> bool,
    /** Triangle.GetVertexByPosition(p).Normal. */
    vertexNormalAt: (Triangle, Vector3) -> Vector3,
    /** Triangle.ContainsVertex(p). */
    containsVertex: (Triangle, Vector3) -> bool,
    /** The default (all-zero) Vector3. */
    zero: Vector3,
    /** Vector3.Empty. */
    empty: Vector3
  )

  /** Triangle2D(tri, plane, axis): the triangle's vertices projected along `axis`. */
  function ProjectTriangle2D(k: Kernel, tri: Triangle, plane: Plane, axis: Vector3): (t: Triangle2D)
    ensures t.e1.p1 == t.e3.p2 && t.e1.p2 == t.e2.p1 && t.e2.p2 == t.e3.p1
  {
    var a := k.projectPoint2D(plane, axis, tri.v1.position);
    var b := k.projectPoint2D(plane, axis, tri.v2.position);
    var c := k.projectPoint2D(plane, axis, tri.v3.position);
    Triangle2D(Segment(a, b), Segment(b, c), Segment(c, a))
  }

  /** Triangle2D.IntersectsLine: some edge of the triangle meets the segment. */
  predicate IntersectsLine(k: Kernel, t: Triangle2D, line: LineSegment2D) {
    k.segmentsIntersect(t.e1, line) || k.segmentsIntersect(t.e2, line) || k.segmentsIntersect(t.e3, line)
  }
}
