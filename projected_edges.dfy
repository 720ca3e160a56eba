/**
 * A planar edge seen from one vertex of the triangle (a ProjectedEdge): the
 * triangle's three corners projected along the planar edge's direction onto
 * the plane through that vertex, the flags that decide how the outline is
 * combined, and the outline it is combined with.
 *
 * Projected edges are compared by reference in the source and are only ever
 * collected per triangle, so they are values kept in a per-triangle arena;
 * CombineWith names the partner's position in it.
 */
module ProjectedEdges {
  import opened Wrappers
  import opened Geometry
  import opened HardEdges
  import opened PlanarEdges

  /**
   * A ProjectedEdge: the planar edge it projects and that edge's position in
   * the triangle's planar-edge arena (none for the temporary edge of a
   * clipping outline), the vertex it was projected at, the projected triangle
   * corners P1..P3, the extent of the projected planar edge along X, the three
   * flags and the position of the partner outline in the projection arena.
   */
  datatype ProjectedEdge = ProjectedEdge(planarEdge: PlanarEdge, origin: Option<nat>, targetVertex: Vector3,
                                         p1: Vector2, p2: Vector2, p3: Vector2, minX: real, maxX: real,
                                         needsToBeClipped: bool, isOutsideTriangle: bool, isDeadEnd: bool,
                                         combineWith: Option<nat>)
  {
    /** UVs: P1, P2 and P3 in order. */
    function UVs(): (uvs: seq<Vector2>)
      ensures |uvs| == 3 && uvs[0] == p1 && uvs[1] == p2 && uvs[2] == p3
    {
      [p1, p2, p3]
    }
  }

  // ------------------------------------------------------------ ValidateValues

  /** Some corner lies below the X axis by more than the outline thickness. */
  predicate ReachesBelow(e: ProjectedEdge, outlineThickness: real) {
    exists i :: 0 <= i < 3 && e.UVs()[i].y < 0.0 && -e.UVs()[i].y > outlineThickness
  }

  /** Every corner lies below the outline thickness, and two corners are more than it apart in Y. */
  predicate BelowOutline(e: ProjectedEdge, outlineThickness: real) {
    (forall i :: 0 <= i < 3 ==> e.UVs()[i].y < outlineThickness) &&
    exists i, j :: 0 <= i < 3 && 0 <= j < 3 && e.UVs()[i].y - e.UVs()[j].y > outlineThickness
  }

  /**
   * ValidateValues(outlineThickness): raises NeedsToBeClipped when the lowest
   * corner lies more than the thickness below the axis, raises
   * IsOutsideTriangle when the highest corner is below the thickness while
   * the corners span more than it, and raises IsDeadEnd and NeedsToBeClipped
   * when the planar edge's hard edge has no link at the target vertex. Only
   * the flags change, and none is ever lowered.
   */
  function ValidateValues(e: ProjectedEdge, outlineThickness: real): (r: ProjectedEdge)
    ensures r == e.(needsToBeClipped := r.needsToBeClipped, isOutsideTriangle := r.isOutsideTriangle, isDeadEnd := r.isDeadEnd)
    ensures (e.needsToBeClipped ==> r.needsToBeClipped) && (e.isOutsideTriangle ==> r.isOutsideTriangle) &&
            (e.isDeadEnd ==> r.isDeadEnd)
  {
    var minPos := Min3(e.p1, e.p2, e.p3);
    var maxPos := Max3(e.p1, e.p2, e.p3);
    var e1 := if minPos.y < 0.0 && Abs(minPos.y) > outlineThickness then e.(needsToBeClipped := true) else e;
    var e2 := if maxPos.y < outlineThickness && maxPos.y - minPos.y > outlineThickness then e1.(isOutsideTriangle := true) else e1;
    if !IsVertexLinked(e.planarEdge, e.targetVertex) then e2.(isDeadEnd := true, needsToBeClipped := true) else e2
  }

  /**
   * The flags ValidateValues leaves, in terms of the corners: clipped when it
   * was, when some corner lies too far below the axis, or when the target
   * vertex is not linked; outside when it was or when the corners lie below
   * the outline; a dead end when it was or when the target vertex is not
   * linked.
   */
  lemma ValidateValuesSpec(e: ProjectedEdge, outlineThickness: real)
    ensures var r := ValidateValues(e, outlineThickness);
      (r.needsToBeClipped <==>
         e.needsToBeClipped || ReachesBelow(e, outlineThickness) || !IsVertexLinked(e.planarEdge, e.targetVertex)) &&
      (r.isOutsideTriangle <==> e.isOutsideTriangle || BelowOutline(e, outlineThickness)) &&
      (r.isDeadEnd <==> e.isDeadEnd || !IsVertexLinked(e.planarEdge, e.targetVertex))
  {
    ReachesBelowLowest(e, outlineThickness);
    BelowOutlineSpan(e, outlineThickness);
  }

  /** Some corner reaches below exactly when the lowest one does. */
  lemma ReachesBelowLowest(e: ProjectedEdge, outlineThickness: real)
    ensures var minPos := Min3(e.p1, e.p2, e.p3);
      ReachesBelow(e, outlineThickness) <==> minPos.y < 0.0 && Abs(minPos.y) > outlineThickness
  {
    var minPos := Min3(e.p1, e.p2, e.p3);
    var uvs := e.UVs();
    if minPos.y < 0.0 && Abs(minPos.y) > outlineThickness {
      var i :| 0 <= i < 3 && uvs[i].y == minPos.y;
    }
  }

  /** The corners lie below the outline exactly when the highest does and the highest and lowest are more than it apart. */
  lemma BelowOutlineSpan(e: ProjectedEdge, outlineThickness: real)
    ensures var minPos := Min3(e.p1, e.p2, e.p3);
      var maxPos := Max3(e.p1, e.p2, e.p3);
      BelowOutline(e, outlineThickness) <==> maxPos.y < outlineThickness && maxPos.y - minPos.y > outlineThickness
  {
    var minPos := Min3(e.p1, e.p2, e.p3);
    var maxPos := Max3(e.p1, e.p2, e.p3);
    var uvs := e.UVs();
    if maxPos.y < outlineThickness && maxPos.y - minPos.y > outlineThickness {
      var i :| 0 <= i < 3 && uvs[i].y == maxPos.y;
      var j :| 0 <= j < 3 && uvs[j].y == minPos.y;
      assert uvs[i].y - uvs[j].y > outlineThickness;
    }
  }

  // ------------------------------------------------------------ ProjectTriangle

  /**
   * ProjectTriangle(planarEdge, triangle, vertex): the triangle's corners and
   * the planar edge's end points projected along the planar edge's direction
   * onto the plane through the vertex with the triangle's normal, then
   * validated with the outline thickness (the planar edge always has a hard
   * edge here). The result has no partner and is a dead end exactly when the
   * planar edge is not linked at the vertex.
   */
  function ProjectTriangle(pe: PlanarEdge, origin: Option<nat>, tri: Triangle, vertex: Vector3, outlineThickness: real, k: Kernel)
    : (r: ProjectedEdge)
    ensures r.planarEdge == pe && r.origin == origin && r.targetVertex == vertex && r.combineWith.None?
    ensures r.minX <= r.maxX
    ensures r.isDeadEnd <==> !IsVertexLinked(pe, vertex)
    ensures !IsVertexLinked(pe, vertex) ==> r.needsToBeClipped
  {
    var plane := Plane(vertex, tri.normal);
    var edgeP1 := k.projectPoint2D(plane, pe.direction, pe.p1);
    var edgeP2 := k.projectPoint2D(plane, pe.direction, pe.p2);
    var edge := ProjectedEdge(pe, origin, vertex,
                              k.projectPoint2D(plane, pe.direction, tri.v1.position),
                              k.projectPoint2D(plane, pe.direction, tri.v2.position),
                              k.projectPoint2D(plane, pe.direction, tri.v3.position),
                              Min(edgeP1.x, edgeP2.x), Max(edgeP1.x, edgeP2.x),
                              false, false, false, None);
    ValidateValuesSpec(edge, outlineThickness);
    ValidateValues(edge, outlineThickness)
  }

  // ------------------------------------------------------------ AdjustValues

  /** One corner after AdjustValues: shifted left by the smallest X, then both coordinates divided by the multiplier. */
  function AdjustPoint(pt: Vector2, minX: real, thicknessMultiplier: real): Vector2
    requires thicknessMultiplier != 0.0
  {
    Vector2((pt.x - minX) / thicknessMultiplier, pt.y / thicknessMultiplier)
  }

  /** The projected edge after AdjustValues(thicknessMultiplier): every corner adjusted, nothing else changed. */
  function Adjusted(e: ProjectedEdge, thicknessMultiplier: real): (r: ProjectedEdge)
    requires thicknessMultiplier != 0.0
    ensures r == e.(p1 := r.p1, p2 := r.p2, p3 := r.p3)
  {
    var minX := Min3(e.p1, e.p2, e.p3).x;
    e.(p1 := AdjustPoint(e.p1, minX, thicknessMultiplier),
       p2 := AdjustPoint(e.p2, minX, thicknessMultiplier),
       p3 := AdjustPoint(e.p3, minX, thicknessMultiplier))
  }

  /** An adjusted corner, multiplied back, is the corner shifted; with a positive multiplier its X keeps its sign. */
  lemma AdjustPointSpec(pt: Vector2, minX: real, m: real)
    requires m != 0.0
    ensures var r := AdjustPoint(pt, minX, m);
      r.y * m == pt.y && r.x * m == pt.x - minX &&
      (m > 0.0 && pt.x >= minX ==> r.x >= 0.0) &&
      (pt.x == minX ==> r.x == 0.0)
  {
  }

  /**
   * With a positive multiplier the adjusted corners start at X = 0: the
   * smallest X is 0 and every X is non-negative.
   */
  lemma AdjustedSpec(e: ProjectedEdge, thicknessMultiplier: real)
    requires thicknessMultiplier > 0.0
    ensures var r := Adjusted(e, thicknessMultiplier);
      Min3(r.p1, r.p2, r.p3).x == 0.0 && r.p1.x >= 0.0 && r.p2.x >= 0.0 && r.p3.x >= 0.0
  {
    var minX := Min3(e.p1, e.p2, e.p3).x;
    AdjustPointSpec(e.p1, minX, thicknessMultiplier);
    AdjustPointSpec(e.p2, minX, thicknessMultiplier);
    AdjustPointSpec(e.p3, minX, thicknessMultiplier);
  }

  /**
   * AdjustValues(thicknessMultiplier): the loop over the three corners, each
   * read from UVs, shifted, scaled and written back to P1, P2 or P3.
   */
  method AdjustValues(e: ProjectedEdge, thicknessMultiplier: real) returns (r: ProjectedEdge)
    requires thicknessMultiplier != 0.0
    ensures r == Adjusted(e, thicknessMultiplier)
  {
    var minPos := Min3(e.p1, e.p2, e.p3);
    r := e;
    for i := 0 to 3
      invariant r == e.(p1 := if i > 0 then AdjustPoint(e.p1, minPos.x, thicknessMultiplier) else e.p1,
                        p2 := if i > 1 then AdjustPoint(e.p2, minPos.x, thicknessMultiplier) else e.p2,
                        p3 := if i > 2 then AdjustPoint(e.p3, minPos.x, thicknessMultiplier) else e.p3)
    {
      var pt := r.UVs()[i];
      pt := pt.(x := pt.x - minPos.x);
      pt := pt.(x := pt.x / thicknessMultiplier);
      pt := pt.(y := pt.y / thicknessMultiplier);
      if i == 0 {
        r := r.(p1 := pt);
      } else if i == 1 {
        r := r.(p2 := pt);
      } else {
        r := r.(p3 := pt);
      }
    }
  }

  // ------------------------------------------------------------ CreateClippingEdge

  /**
   * The hard edge of a clipping outline: from the vertex to the vertex moved
   * along the base edge's outline direction, with the face plane's normal and
   * the base edge's direction towards the vertex, put in order.
   */
  function ClippingHardEdge(baseEdge: ProjectedEdge, edgeEnd: Vector3, facePlane: Plane, k: Kernel): HardEdge {
    var oppVert := GetOppositeVertex(baseEdge.planarEdge, edgeEnd);
    var outlineDir := k.direction(oppVert, edgeEnd);
    var interEdge := NewLooseHardEdge(edgeEnd, k.add(edgeEnd, baseEdge.planarEdge.outlineDirection), facePlane.normal, outlineDir, k);
    CorrectOrder(interEdge, k)
  }

  /**
   * CreateClippingEdge(baseEdge, edgeEnd, facePlane) for a base edge at
   * position `at` of the projection arena, the new edge going to `at + 1`:
   * the clipping edge projected at the vertex and forced to be clipped, and
   * the two made each other's partner. Returns the base edge as updated and
   * the clipping edge.
   */
  function CreateClippingEdge(baseEdge: ProjectedEdge, at: nat, edgeEnd: Vector3, facePlane: Plane, outlineThickness: real, k: Kernel)
    : (r: (ProjectedEdge, ProjectedEdge))
    ensures r.0 == baseEdge.(combineWith := Some(at + 1))
    ensures r.1.combineWith == Some(at)
  {
    var triangle := baseEdge.planarEdge.face;
    var planarEndEdge := NewPlanarEdge(ClippingHardEdge(baseEdge, edgeEnd, facePlane, k), triangle, facePlane, k);
    var interProjected := ProjectTriangle(planarEndEdge, None, triangle, edgeEnd, outlineThickness, k).(needsToBeClipped := true);
    (baseEdge.(combineWith := Some(at + 1)), interProjected.(combineWith := Some(at)))
  }

  /**
   * The clipping edge is a clipped dead end at the vertex, on the base edge's
   * face and not in the planar-edge arena; its hard edge has no links, joins
   * the vertex to the vertex moved along the base edge's outline direction
   * (in either order), lies in the face plane's normal and points its outline
   * from the base edge's opposite end towards the vertex.
   */
  lemma ClippingEdgeSpec(baseEdge: ProjectedEdge, at: nat, edgeEnd: Vector3, facePlane: Plane, outlineThickness: real, k: Kernel)
    ensures var c := CreateClippingEdge(baseEdge, at, edgeEnd, facePlane, outlineThickness, k).1;
      var he := c.planarEdge.origEdge;
      c.needsToBeClipped && c.isDeadEnd && c.origin.None? && c.targetVertex == edgeEnd &&
      c.planarEdge.face == baseEdge.planarEdge.face &&
      he.prevEdge.None? && he.nextEdge.None? &&
      multiset{he.p1, he.p2} == multiset{edgeEnd, k.add(edgeEnd, baseEdge.planarEdge.outlineDirection)} &&
      he.faceNormal == facePlane.normal &&
      he.outlineDirection == k.direction(GetOppositeVertex(baseEdge.planarEdge, edgeEnd), edgeEnd)
  {
    var he := ClippingHardEdge(baseEdge, edgeEnd, facePlane, k);
    var loose := NewLooseHardEdge(edgeEnd, k.add(edgeEnd, baseEdge.planarEdge.outlineDirection), facePlane.normal,
                                  k.direction(GetOppositeVertex(baseEdge.planarEdge, edgeEnd), edgeEnd), k);
    CorrectOrderKeepsEdge(loose, k);
    var planarEndEdge := NewPlanarEdge(he, baseEdge.planarEdge.face, facePlane, k);
    VertexLinkedAtEnds(planarEndEdge, edgeEnd);
  }
}
