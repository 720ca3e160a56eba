/**
 * Stage three of the outline generator, for one triangle: the hard edges
 * close to the triangle projected onto its plane (planar edges), the pairs
 * that join two planar edges whose hard edges are linked, the filter that
 * drops an edge whose offset outline misses the triangle, and the unlinking
 * of pairs whose other edge was dropped.
 *
 * Planar edges are compared by reference in the source, so they live in a
 * per-triangle arena and are named by their position in it. A pair is never
 * changed once built and is only ever compared through the two edges it
 * joins, so pairs are values that name their edges by arena position.
 */
module PlanarEdges {
  import opened Wrappers
  import opened Geometry
  import opened HardEdges
  import opened HardEdgeIndex

  /** The precision IsTriangleEdge compares the face normals with. */
  const NormalTolerance: real := 0.05

  /** Colinear accepts directions less than this angle apart. */
  const ColinearAngle: real := 0.08

  /** A pair whose outline directions are at least fPI * 0.998 apart is a dead end. */
  const DeadEndAngle: real := FPi * 0.998

  // ---------------------------------------------------------------- the entities

  /**
   * A PlanarEdgePair: the two planar edges it joins (arena positions), the
   * vertex they share, the angle between them, the angle between their outline
   * directions and the average of those directions.
   */
  datatype PlanarEdgePair = PlanarEdgePair(edge1: nat, edge2: nat, commonVertex: Vector3,
                                           totalAngle: real, angleDiff: real, outlineBisector: Vector3)

  /**
   * A PlanarEdge: a hard edge projected onto the plane of `face`, whether it is
   * an edge of that face, whether its outline fell outside the face, and the
   * pairs to its previous and next planar edge.
   */
  datatype PlanarEdge = PlanarEdge(face: Triangle, origEdge: HardEdge,
                                   p1: Vector3, p2: Vector3, outlineDirection: Vector3, direction: Vector3,
                                   isTriangleEdge: bool, outlineIsOutsideTriangle: bool,
                                   prevEdgeInfo: Option<PlanarEdgePair>, nextEdgeInfo: Option<PlanarEdgePair>)

  /** The plane of a triangle through its centre. */
  function FacePlane(face: Triangle): Plane {
    Plane(face.center, face.normal)
  }

  /**
   * new PlanarEdge(edge, triangle, plane): the end points and outline direction
   * projected onto the plane; a triangle edge when the triangle has both end
   * points and nearly the edge's face normal.
   */
  function NewPlanarEdge(he: HardEdge, tri: Triangle, plane: Plane, k: Kernel): PlanarEdge {
    var p1 := k.projectPoint(plane, he.p1);
    var p2 := k.projectPoint(plane, he.p2);
    PlanarEdge(tri, he, p1, p2, k.projectVector(plane, he.outlineDirection), k.direction(p1, p2),
               k.containsVertex(tri, he.p1) && k.containsVertex(tri, he.p2) && k.nearlyEqual(tri.normal, he.faceNormal, NormalTolerance),
               false, None, None)
  }

  /** PlanarEdge.Contains(position). */
  predicate Contains(pe: PlanarEdge, position: Vector3) {
    pe.p1 == position || pe.p2 == position
  }

  /** Colinear(other): the edges touch and their directions are less than 0.08 apart (or the angle is undefined). */
  predicate Colinear(pe: PlanarEdge, other: PlanarEdge, k: Kernel) {
    (Contains(other, pe.p1) || Contains(other, pe.p2)) &&
    (k.angleIsNaN(pe.direction, other.direction) || k.angleBetween(pe.direction, other.direction) < ColinearAngle)
  }

  /** IsVertexLinked(vertex): the hard edge has a PrevEdge at P1, or a NextEdge at P2. */
  predicate IsVertexLinked(pe: PlanarEdge, vertex: Vector3) {
    if pe.p1 == vertex then pe.origEdge.prevEdge.Some?
    else if pe.p2 == vertex then pe.origEdge.nextEdge.Some?
    else false
  }

  /** GetOppositeVertex(vertex): P2 when the vertex is P1, and P1 otherwise. */
  function GetOppositeVertex(pe: PlanarEdge, vertex: Vector3): Vector3 {
    if pe.p1 == vertex then pe.p2 else pe.p1
  }

  /** GetCommonVertex(other): P1 if the other edge has it, else P2 if it has that, else Vector3.Empty. */
  function GetCommonVertex(pe: PlanarEdge, other: PlanarEdge, k: Kernel): Vector3 {
    if Contains(other, pe.p1) then pe.p1
    else if Contains(other, pe.p2) then pe.p2
    else k.empty
  }

  /** The two planar edges share an end point. */
  predicate Touch(pe: PlanarEdge, other: PlanarEdge) {
    Contains(other, pe.p1) || Contains(other, pe.p2)
  }

  /**
   * PlanarEdge.CalculateAngleBetween(edge1, edge2): 0 when they share no end
   * point; otherwise twice the angle between the average outline direction
   * and edge1's direction away from the shared end point.
   */
  function CalculateAngleBetween(e1: PlanarEdge, e2: PlanarEdge, k: Kernel): real {
    var commonVert :=
      if Contains(e2, e1.p1) then Some(e1.p1)
      else if Contains(e2, e1.p2) then Some(e1.p2)
      else None;
    match commonVert
    case None => 0.0
    case Some(c) =>
      var opp1 := GetOppositeVertex(e1, c);
      var dir1 := k.direction(c, opp1);
      var avgNormal := k.normalized(k.average(e1.outlineDirection, e2.outlineDirection));
      k.angleBetween(avgNormal, dir1) * 2.0
  }

  /** new PlanarEdgePair(edge1, edge2) for the planar edges at positions i and j. */
  function NewPair(pes: seq<PlanarEdge>, i: nat, j: nat, k: Kernel): PlanarEdgePair
    requires i < |pes| && j < |pes|
  {
    PlanarEdgePair(i, j, GetCommonVertex(pes[i], pes[j], k), CalculateAngleBetween(pes[i], pes[j], k),
                   k.angleBetween(pes[i].outlineDirection, pes[j].outlineDirection),
                   k.average(pes[i].outlineDirection, pes[j].outlineDirection))
  }

  /** PlanarEdgePair.IsObtuse: the angle between the edges is at least fPI. */
  predicate IsObtuse(pair: PlanarEdgePair) {
    pair.totalAngle >= FPi
  }

  /** PlanarEdgePair.ContainsEdge(edge), by reference. */
  predicate ContainsEdge(pair: PlanarEdgePair, e: nat) {
    pair.edge1 == e || pair.edge2 == e
  }

  /** PlanarEdgePair.IsEqual(other): this pair holds both edges of the other one. */
  predicate IsEqual(pair: PlanarEdgePair, other: PlanarEdgePair) {
    ContainsEdge(pair, other.edge1) && ContainsEdge(pair, other.edge2)
  }

  /** PlanarEdgePair.GetOtherEdge(edge): the other edge of the pair, or null when the edge is not in it. */
  function GetOtherEdge(pair: PlanarEdgePair, e: nat): Option<nat> {
    if pair.edge1 == e then Some(pair.edge2)
    else if pair.edge2 == e then Some(pair.edge1)
    else None
  }

  /** GetConnectionInfo(other): the PrevEdgeInfo, else the NextEdgeInfo, that holds the other edge. */
  function GetConnectionInfo(pe: PlanarEdge, other: nat): Option<PlanarEdgePair> {
    if pe.prevEdgeInfo.Some? && ContainsEdge(pe.prevEdgeInfo.value, other) then pe.prevEdgeInfo
    else if pe.nextEdgeInfo.Some? && ContainsEdge(pe.nextEdgeInfo.value, other) then pe.nextEdgeInfo
    else None
  }

  /** IsConnectedTo(other) for the edge at position `self`: never itself, else through NextEdgeInfo or PrevEdgeInfo. */
  predicate IsConnectedTo(pe: PlanarEdge, self: nat, other: nat) {
    if other == self then false
    else if pe.nextEdgeInfo.Some? && ContainsEdge(pe.nextEdgeInfo.value, other) then true
    else if pe.prevEdgeInfo.Some? && ContainsEdge(pe.prevEdgeInfo.value, other) then true
    else false
  }

  /** IsUsedInIntersection: one of the surrounding pairs is obtuse. */
  predicate IsUsedInIntersection(pe: PlanarEdge) {
    (pe.prevEdgeInfo.Some? && IsObtuse(pe.prevEdgeInfo.value)) ||
    (pe.nextEdgeInfo.Some? && IsObtuse(pe.nextEdgeInfo.value))
  }

  /** No link of the edge is a pair that IsEqual `pair`. */
  predicate NoLinkEqual(pe: PlanarEdge, pair: PlanarEdgePair) {
    (pe.prevEdgeInfo.None? || !IsEqual(pe.prevEdgeInfo.value, pair)) &&
    (pe.nextEdgeInfo.None? || !IsEqual(pe.nextEdgeInfo.value, pair))
  }

  /**
   * Disconnect(pair): clears PrevEdgeInfo and NextEdgeInfo when they are equal
   * to the pair. Afterwards no link is equal to it, every other link is kept,
   * and nothing else changes.
   */
  function Disconnect(pe: PlanarEdge, pair: PlanarEdgePair): (r: PlanarEdge)
    ensures NoLinkEqual(r, pair)
    ensures r.prevEdgeInfo.None? || r.prevEdgeInfo == pe.prevEdgeInfo
    ensures r.nextEdgeInfo.None? || r.nextEdgeInfo == pe.nextEdgeInfo
    ensures pe.prevEdgeInfo.Some? && !IsEqual(pe.prevEdgeInfo.value, pair) ==> r.prevEdgeInfo == pe.prevEdgeInfo
    ensures pe.nextEdgeInfo.Some? && !IsEqual(pe.nextEdgeInfo.value, pair) ==> r.nextEdgeInfo == pe.nextEdgeInfo
    ensures r == pe.(prevEdgeInfo := r.prevEdgeInfo, nextEdgeInfo := r.nextEdgeInfo)
  {
    var pe1 := if pe.prevEdgeInfo.Some? && IsEqual(pe.prevEdgeInfo.value, pair) then pe.(prevEdgeInfo := None) else pe;
    if pe1.nextEdgeInfo.Some? && IsEqual(pe1.nextEdgeInfo.value, pair) then pe1.(nextEdgeInfo := None) else pe1
  }

  // ------------------------------------------------------ facts about the queries

  /**
   * A vertex is linked only at an end point: at P1 when the hard edge has a
   * PrevEdge, at P2 (when it is not also P1) when it has a NextEdge.
   */
  lemma VertexLinkedAtEnds(pe: PlanarEdge, v: Vector3)
    ensures IsVertexLinked(pe, v) ==> Contains(pe, v)
    ensures v == pe.p1 ==> (IsVertexLinked(pe, v) <==> pe.origEdge.prevEdge.Some?)
    ensures v == pe.p2 && v != pe.p1 ==> (IsVertexLinked(pe, v) <==> pe.origEdge.nextEdge.Some?)
  {
  }

  /** On an end point the opposite vertex is the other end point; elsewhere it is P1. */
  lemma OppositeVertexSpec(pe: PlanarEdge, v: Vector3)
    ensures Contains(pe, v) ==> multiset{v, GetOppositeVertex(pe, v)} == multiset{pe.p1, pe.p2}
    ensures !Contains(pe, v) ==> GetOppositeVertex(pe, v) == pe.p1
  {
  }

  /**
   * The common vertex is an end point of both edges when they touch, P1 first,
   * and Vector3.Empty otherwise.
   */
  lemma CommonVertexSpec(pe: PlanarEdge, other: PlanarEdge, k: Kernel)
    ensures Touch(pe, other) ==> Contains(pe, GetCommonVertex(pe, other, k)) && Contains(other, GetCommonVertex(pe, other, k))
    ensures Contains(other, pe.p1) ==> GetCommonVertex(pe, other, k) == pe.p1
    ensures !Touch(pe, other) ==> GetCommonVertex(pe, other, k) == k.empty
  {
  }

  /**
   * CalculateAngleBetween finds its shared end point the way GetCommonVertex
   * does: the angle is 0 for edges that do not touch, and otherwise measured
   * along edge1 away from their common vertex.
   */
  lemma AngleAtCommonVertex(e1: PlanarEdge, e2: PlanarEdge, k: Kernel)
    ensures !Touch(e1, e2) ==> CalculateAngleBetween(e1, e2, k) == 0.0
    ensures Touch(e1, e2) ==>
      var c := GetCommonVertex(e1, e2, k);
      CalculateAngleBetween(e1, e2, k) ==
        2.0 * k.angleBetween(k.normalized(k.average(e1.outlineDirection, e2.outlineDirection)), k.direction(c, GetOppositeVertex(e1, c)))
  {
  }

  /**
   * IsEqual holds exactly when the other pair's edges are among this pair's;
   * it is reflexive, and it is symmetric towards a pair of two different edges.
   */
  lemma IsEqualSpec(a: PlanarEdgePair, b: PlanarEdgePair)
    ensures IsEqual(a, b) <==> {b.edge1, b.edge2} <= {a.edge1, a.edge2}
    ensures IsEqual(a, a)
    ensures IsEqual(a, b) && b.edge1 != b.edge2 ==> IsEqual(b, a)
  {
    if IsEqual(a, b) && b.edge1 != b.edge2 {
      assert {b.edge1, b.edge2} == {a.edge1, a.edge2};
    }
  }

  /**
   * IsEqual is not symmetric when a pair joins an edge to itself: the pair
   * (0, 1) is equal to the pair (0, 0), but (0, 0) is not equal to (0, 1).
   */
  lemma IsEqualNotSymmetric(v: Vector3)
    ensures var a := PlanarEdgePair(0, 1, v, 0.0, 0.0, v);
      var b := PlanarEdgePair(0, 0, v, 0.0, 0.0, v);
      IsEqual(a, b) && !IsEqual(b, a)
  {
  }

  /** GetOtherEdge finds an edge of the pair exactly, and then the two make up the pair. */
  lemma OtherEdgeSpec(pair: PlanarEdgePair, e: nat)
    ensures GetOtherEdge(pair, e).Some? <==> ContainsEdge(pair, e)
    ensures GetOtherEdge(pair, e).Some? ==> multiset{e, GetOtherEdge(pair, e).value} == multiset{pair.edge1, pair.edge2}
  {
  }

  /**
   * IsConnectedTo and GetConnectionInfo agree: an edge is connected to another
   * one exactly when that is not itself and one of its links holds it, which is
   * the link GetConnectionInfo returns.
   */
  lemma ConnectedIffConnectionInfo(pe: PlanarEdge, self: nat, other: nat)
    ensures IsConnectedTo(pe, self, other) <==> other != self && GetConnectionInfo(pe, other).Some?
    ensures GetConnectionInfo(pe, other).Some? ==>
      ContainsEdge(GetConnectionInfo(pe, other).value, other) &&
      (GetConnectionInfo(pe, other) == pe.prevEdgeInfo || GetConnectionInfo(pe, other) == pe.nextEdgeInfo)
    ensures GetConnectionInfo(pe, other).None? <==>
      (pe.prevEdgeInfo.None? || !ContainsEdge(pe.prevEdgeInfo.value, other)) &&
      (pe.nextEdgeInfo.None? || !ContainsEdge(pe.nextEdgeInfo.value, other))
  {
  }

  // ----------------------------------------------------- building the edges

  /** closeEdges.Select(x => new PlanarEdge(x, face, facePlane)), in order. */
  function InitialEdges(hs: seq<HardEdge>, close: seq<nat>, face: Triangle, k: Kernel): (pes: seq<PlanarEdge>)
    requires forall j :: 0 <= j < |close| ==> close[j] < |hs|
    ensures |pes| == |close|
  {
    if close == [] then []
    else InitialEdges(hs, close[..|close| - 1], face, k) + [NewPlanarEdge(hs[close[|close| - 1]], face, FacePlane(face), k)]
  }

  /** Each planar edge is built from the hard edge at the same position of the list. */
  lemma {:induction false} InitialEdgesSpec(hs: seq<HardEdge>, close: seq<nat>, face: Triangle, k: Kernel)
    requires forall j :: 0 <= j < |close| ==> close[j] < |hs|
    ensures var pes := InitialEdges(hs, close, face, k);
      forall i :: 0 <= i < |pes| ==> pes[i] == NewPlanarEdge(hs[close[i]], face, FacePlane(face), k)
    decreases |close|
  {
    if close != [] {
      var init := close[..|close| - 1];
      InitialEdgesSpec(hs, init, face, k);
    }
  }

  /** Every hard-edge link of a planar edge names a position of the hard-edge arena. */
  predicate OrigLinksIn(pes: seq<PlanarEdge>, size: nat) {
    forall i :: 0 <= i < |pes| ==>
      (pes[i].origEdge.prevEdge.Some? ==> pes[i].origEdge.prevEdge.value < size) &&
      (pes[i].origEdge.nextEdge.Some? ==> pes[i].origEdge.nextEdge.value < size)
  }

  /** No planar edge has a pair yet. */
  predicate Unpaired(pes: seq<PlanarEdge>) {
    forall i :: 0 <= i < |pes| ==> pes[i].prevEdgeInfo.None? && pes[i].nextEdgeInfo.None?
  }

  /** Fresh planar edges of linked hard edges have no pairs and links into the arena. */
  lemma InitialEdgesWellFormed(hs: seq<HardEdge>, close: seq<nat>, face: Triangle, k: Kernel)
    requires forall j :: 0 <= j < |close| ==> close[j] < |hs|
    requires LinksInRange(hs)
    ensures OrigLinksIn(InitialEdges(hs, close, face, k), |hs|) && Unpaired(InitialEdges(hs, close, face, k))
  {
    InitialEdgesSpec(hs, close, face, k);
  }

  // ------------------------------------------------------------ the link loop

  /**
   * planarEdges.FirstOrDefault(x => x.OrigEdge == target) among the first `n`:
   * the first planar edge whose hard edge equals the target (HardEdge's `==`).
   */
  function FindOrig(pes: seq<PlanarEdge>, target: HardEdge, n: nat): (r: Option<nat>)
    requires n <= |pes|
    ensures r.Some? ==> r.value < n
  {
    if n == 0 then None
    else
      var r := FindOrig(pes, target, n - 1);
      if r.Some? then r
      else if HardEdgeEquals(pes[n - 1].origEdge, target) then Some(n - 1)
      else None
  }

  /** FirstOrDefault finds the first matching planar edge, and null exactly when none matches. */
  lemma {:induction false} FindOrigSpec(pes: seq<PlanarEdge>, target: HardEdge, n: nat)
    requires n <= |pes|
    ensures var r := FindOrig(pes, target, n);
      (r.None? <==> forall j :: 0 <= j < n ==> !HardEdgeEquals(pes[j].origEdge, target)) &&
      (r.Some? ==> HardEdgeEquals(pes[r.value].origEdge, target) &&
                   forall j :: 0 <= j < r.value ==> !HardEdgeEquals(pes[j].origEdge, target))
    decreases n
  {
    if n > 0 {
      FindOrigSpec(pes, target, n - 1);
    }
  }

  /**
   * The pair the link loop gives planar edge `i` for one hard-edge link
   * (its PrevEdge or its NextEdge): none when the link is null or no planar
   * edge has the linked hard edge, else a new pair from `i` to the first one
   * that has it.
   */
  function PairTo(pes: seq<PlanarEdge>, hs: seq<HardEdge>, i: nat, link: Option<nat>, k: Kernel): Option<PlanarEdgePair>
    requires i < |pes| && (link.Some? ==> link.value < |hs|)
  {
    if link.None? then None
    else match FindOrig(pes, hs[link.value], |pes|)
      case None => None
      case Some(j) => Some(NewPair(pes, i, j, k))
  }

  /**
   * A pair for a link exists exactly when the link is set and some planar edge
   * has an equal hard edge; it then starts at `i` and ends at the first such
   * planar edge.
   */
  lemma PairToSpec(pes: seq<PlanarEdge>, hs: seq<HardEdge>, i: nat, link: Option<nat>, k: Kernel)
    requires i < |pes| && (link.Some? ==> link.value < |hs|)
    ensures var r := PairTo(pes, hs, i, link, k);
      (r.Some? <==> link.Some? && exists j :: 0 <= j < |pes| && HardEdgeEquals(pes[j].origEdge, hs[link.value])) &&
      (r.Some? ==> r.value.edge1 == i && r.value.edge2 < |pes| &&
                   HardEdgeEquals(pes[r.value.edge2].origEdge, hs[link.value]) &&
                   (forall j :: 0 <= j < r.value.edge2 ==> !HardEdgeEquals(pes[j].origEdge, hs[link.value])) &&
                   r.value == NewPair(pes, i, r.value.edge2, k))
  {
    if link.Some? {
      FindOrigSpec(pes, hs[link.value], |pes|);
    }
  }

  /** `edgePairs.Any(x => x.IsEqual(pair))`. */
  predicate Listed(edgePairs: seq<PlanarEdgePair>, pair: PlanarEdgePair) {
    exists q :: 0 <= q < |edgePairs| && IsEqual(edgePairs[q], pair)
  }

  /** The pair is added to edgePairs unless an equal one is listed already. */
  function AddPair(edgePairs: seq<PlanarEdgePair>, pair: PlanarEdgePair): seq<PlanarEdgePair> {
    if Listed(edgePairs, pair) then edgePairs else edgePairs + [pair]
  }

  /** The state of the link loop: the planar edges and the distinct pairs found so far. */
  datatype Linking = Linking(edges: seq<PlanarEdge>, edgePairs: seq<PlanarEdgePair>)

  /** The PrevEdge half of the link loop for planar edge `i`. */
  function LinkPrevInfo(st: Linking, pes: seq<PlanarEdge>, hs: seq<HardEdge>, i: nat, k: Kernel): (r: Linking)
    requires i < |pes| == |st.edges| && OrigLinksIn(pes, |hs|)
    ensures |r.edges| == |pes|
  {
    var info := PairTo(pes, hs, i, pes[i].origEdge.prevEdge, k);
    if info.None? then st
    else Linking(st.edges[i := st.edges[i].(prevEdgeInfo := info)], AddPair(st.edgePairs, info.value))
  }

  /** The NextEdge half of the link loop for planar edge `i`. */
  function LinkNextInfo(st: Linking, pes: seq<PlanarEdge>, hs: seq<HardEdge>, i: nat, k: Kernel): (r: Linking)
    requires i < |pes| == |st.edges| && OrigLinksIn(pes, |hs|)
    ensures |r.edges| == |pes|
  {
    var info := PairTo(pes, hs, i, pes[i].origEdge.nextEdge, k);
    if info.None? then st
    else Linking(st.edges[i := st.edges[i].(nextEdgeInfo := info)], AddPair(st.edgePairs, info.value))
  }

  /**
   * The link loop after the first `n` planar edges. The hard edges and the
   * geometry of the planar edges are never reassigned, so both halves read
   * them from the list as it was built.
   */
  function PairedUpTo(pes: seq<PlanarEdge>, hs: seq<HardEdge>, n: nat, k: Kernel): (r: Linking)
    requires n <= |pes| && OrigLinksIn(pes, |hs|)
    ensures |r.edges| == |pes|
  {
    if n == 0 then Linking(pes, [])
    else LinkNextInfo(LinkPrevInfo(PairedUpTo(pes, hs, n - 1, k), pes, hs, n - 1, k), pes, hs, n - 1, k)
  }

  /** What the link loop leaves in planar edge `i`: the pairs for its hard edge's PrevEdge and NextEdge. */
  function Paired(pes: seq<PlanarEdge>, hs: seq<HardEdge>, i: nat, k: Kernel): PlanarEdge
    requires i < |pes| && OrigLinksIn(pes, |hs|)
  {
    pes[i].(prevEdgeInfo := PairTo(pes, hs, i, pes[i].origEdge.prevEdge, k),
            nextEdgeInfo := PairTo(pes, hs, i, pes[i].origEdge.nextEdge, k))
  }

  /**
   * Each planar edge is touched only by its own pass of the loop: after `n`
   * passes the first `n` carry their pairs and the others are as built.
   */
  lemma {:induction false} PairedUpToEdges(pes: seq<PlanarEdge>, hs: seq<HardEdge>, n: nat, k: Kernel)
    requires n <= |pes| && OrigLinksIn(pes, |hs|) && Unpaired(pes)
    ensures var r := PairedUpTo(pes, hs, n, k);
      forall i :: 0 <= i < |pes| ==> r.edges[i] == (if i < n then Paired(pes, hs, i, k) else pes[i])
    decreases n
  {
    if n == 0 {
      assert PairedUpTo(pes, hs, 0, k).edges == pes;
    } else {
      PairedUpToEdges(pes, hs, n - 1, k);
      var before := PairedUpTo(pes, hs, n - 1, k);
      var r := LinkNextInfo(LinkPrevInfo(before, pes, hs, n - 1, k), pes, hs, n - 1, k);
      assert PairedUpTo(pes, hs, n, k) == r;
      assert before.edges[n - 1] == pes[n - 1];
      LinkHalvesFrame(before, pes, hs, n - 1, k);
      forall i | 0 <= i < |pes|
        ensures r.edges[i] == (if i < n then Paired(pes, hs, i, k) else pes[i])
      {
        if i != n - 1 {
          assert r.edges[i] == before.edges[i];
        }
      }
    }
  }

  /** A pass of the loop changes only its own planar edge, and gives it its two pairs. */
  lemma LinkHalvesFrame(st: Linking, pes: seq<PlanarEdge>, hs: seq<HardEdge>, i: nat, k: Kernel)
    requires i < |pes| == |st.edges| && OrigLinksIn(pes, |hs|)
    requires st.edges[i] == pes[i] && pes[i].prevEdgeInfo.None? && pes[i].nextEdgeInfo.None?
    ensures var r := LinkNextInfo(LinkPrevInfo(st, pes, hs, i, k), pes, hs, i, k);
      r.edges[i] == Paired(pes, hs, i, k) &&
      forall j :: 0 <= j < |pes| && j != i ==> r.edges[j] == st.edges[j]
  {
  }

  /** No listed pair IsEqual a pair listed after it. */
  predicate NoLaterDuplicate(edgePairs: seq<PlanarEdgePair>) {
    forall a, b :: 0 <= a < b < |edgePairs| ==> !IsEqual(edgePairs[a], edgePairs[b])
  }

  /** Every listed pair joins planar edges of the arena. */
  predicate PairsIn(edgePairs: seq<PlanarEdgePair>, size: nat) {
    forall q :: 0 <= q < |edgePairs| ==> edgePairs[q].edge1 < size && edgePairs[q].edge2 < size
  }

  /** Adding a pair keeps the list free of later duplicates and lists the pair. */
  lemma AddPairSpec(edgePairs: seq<PlanarEdgePair>, pair: PlanarEdgePair, other: PlanarEdgePair)
    requires NoLaterDuplicate(edgePairs)
    ensures NoLaterDuplicate(AddPair(edgePairs, pair))
    ensures Listed(AddPair(edgePairs, pair), pair)
    ensures Listed(edgePairs, other) ==> Listed(AddPair(edgePairs, pair), other)
  {
    var r := AddPair(edgePairs, pair);
    if !Listed(edgePairs, pair) {
      assert r[|edgePairs|] == pair;
      assert IsEqual(pair, pair);
      if Listed(edgePairs, other) {
        var q :| 0 <= q < |edgePairs| && IsEqual(edgePairs[q], other);
        assert r[q] == edgePairs[q];
      }
    }
  }

  /** The pair planar edge `i` gets for `link`, if any, has an equal pair in the list. */
  predicate HalfListed(pes: seq<PlanarEdge>, hs: seq<HardEdge>, i: nat, link: Option<nat>, edgePairs: seq<PlanarEdgePair>, k: Kernel)
    requires i < |pes| && (link.Some? ==> link.value < |hs|)
  {
    PairTo(pes, hs, i, link, k).Some? ==> Listed(edgePairs, PairTo(pes, hs, i, link, k).value)
  }

  /** Both pairs of each of the first `n` planar edges have an equal pair in the list. */
  predicate AllListed(pes: seq<PlanarEdge>, hs: seq<HardEdge>, n: nat, edgePairs: seq<PlanarEdgePair>, k: Kernel)
    requires n <= |pes| && OrigLinksIn(pes, |hs|)
  {
    forall i :: 0 <= i < n ==>
      HalfListed(pes, hs, i, pes[i].origEdge.prevEdge, edgePairs, k) &&
      HalfListed(pes, hs, i, pes[i].origEdge.nextEdge, edgePairs, k)
  }

  /**
   * The pair list after `n` passes: it never lists a pair after one it
   * IsEqual, joins only planar edges of the arena, and has a pair equal to
   * every pair handed to the first `n` planar edges.
   */
  predicate PairListGood(pes: seq<PlanarEdge>, hs: seq<HardEdge>, n: nat, ep: seq<PlanarEdgePair>, k: Kernel)
    requires n <= |pes| && OrigLinksIn(pes, |hs|)
  {
    NoLaterDuplicate(ep) && PairsIn(ep, |pes|) && AllListed(pes, hs, n, ep, k)
  }

  /** The pair list of the link loop is PairListGood after every pass. */
  lemma {:induction false} PairedUpToPairs(pes: seq<PlanarEdge>, hs: seq<HardEdge>, n: nat, k: Kernel)
    requires n <= |pes| && OrigLinksIn(pes, |hs|)
    ensures PairListGood(pes, hs, n, PairedUpTo(pes, hs, n, k).edgePairs, k)
    decreases n
  {
    if n == 0 {
      assert PairedUpTo(pes, hs, 0, k).edgePairs == [];
    } else {
      PairedUpToPairs(pes, hs, n - 1, k);
      var before := PairedUpTo(pes, hs, n - 1, k);
      PairStep(pes, hs, n - 1, before, k);
      PairedUpToUnfold(pes, hs, n, k);
    }
  }

  /** Pass `n` of the link loop. */
  lemma PairedUpToUnfold(pes: seq<PlanarEdge>, hs: seq<HardEdge>, n: nat, k: Kernel)
    requires 0 < n <= |pes| && OrigLinksIn(pes, |hs|)
    ensures PairedUpTo(pes, hs, n, k).edgePairs
         == LinkNextInfo(LinkPrevInfo(PairedUpTo(pes, hs, n - 1, k), pes, hs, n - 1, k), pes, hs, n - 1, k).edgePairs
  {
  }

  /** One pass of the link loop takes PairListGood from `i` edges to `i + 1`. */
  lemma PairStep(pes: seq<PlanarEdge>, hs: seq<HardEdge>, i: nat, before: Linking, k: Kernel)
    requires i < |pes| == |before.edges| && OrigLinksIn(pes, |hs|)
    requires PairListGood(pes, hs, i, before.edgePairs, k)
    ensures PairListGood(pes, hs, i + 1, LinkNextInfo(LinkPrevInfo(before, pes, hs, i, k), pes, hs, i, k).edgePairs, k)
  {
    var r := LinkNextInfo(LinkPrevInfo(before, pes, hs, i, k), pes, hs, i, k);
    PassPairs(before, pes, hs, i, k);
    AllListedGrows(pes, hs, i, before.edgePairs, r.edgePairs, k);
    AllListedExtend(pes, hs, i, r.edgePairs, k);
  }

  /** Listing the pairs of planar edge `n` extends AllListed from `n` to `n + 1` edges. */
  lemma AllListedExtend(pes: seq<PlanarEdge>, hs: seq<HardEdge>, n: nat, ep: seq<PlanarEdgePair>, k: Kernel)
    requires n < |pes| && OrigLinksIn(pes, |hs|)
    requires AllListed(pes, hs, n, ep, k)
    requires HalfListed(pes, hs, n, pes[n].origEdge.prevEdge, ep, k)
    requires HalfListed(pes, hs, n, pes[n].origEdge.nextEdge, ep, k)
    ensures AllListed(pes, hs, n + 1, ep, k)
  {
  }

  /** One pass of the link loop keeps the pair list's properties and lists both of its pairs. */
  lemma PassPairs(st: Linking, pes: seq<PlanarEdge>, hs: seq<HardEdge>, i: nat, k: Kernel)
    requires i < |pes| == |st.edges| && OrigLinksIn(pes, |hs|)
    requires NoLaterDuplicate(st.edgePairs) && PairsIn(st.edgePairs, |pes|)
    ensures var r := LinkNextInfo(LinkPrevInfo(st, pes, hs, i, k), pes, hs, i, k);
      NoLaterDuplicate(r.edgePairs) && PairsIn(r.edgePairs, |pes|) &&
      (forall p :: Listed(st.edgePairs, p) ==> Listed(r.edgePairs, p)) &&
      HalfListed(pes, hs, i, pes[i].origEdge.prevEdge, r.edgePairs, k) &&
      HalfListed(pes, hs, i, pes[i].origEdge.nextEdge, r.edgePairs, k)
  {
    var mid := LinkPrevInfo(st, pes, hs, i, k);
    var r := LinkNextInfo(mid, pes, hs, i, k);
    LinkPrevPairs(st, pes, hs, i, k);
    LinkNextPairs(mid, pes, hs, i, k);
    HalfListedGrows(pes, hs, i, pes[i].origEdge.prevEdge, mid.edgePairs, r.edgePairs, k);
  }

  /** The first `n` planar edges stay listed when the list only grows. */
  lemma AllListedGrows(pes: seq<PlanarEdge>, hs: seq<HardEdge>, n: nat, ep: seq<PlanarEdgePair>, ep': seq<PlanarEdgePair>, k: Kernel)
    requires n <= |pes| && OrigLinksIn(pes, |hs|)
    requires AllListed(pes, hs, n, ep, k)
    requires forall p :: Listed(ep, p) ==> Listed(ep', p)
    ensures AllListed(pes, hs, n, ep', k)
  {
  }

  /** One planar edge stays listed when the list only grows. */
  lemma HalfListedGrows(pes: seq<PlanarEdge>, hs: seq<HardEdge>, i: nat, link: Option<nat>, ep: seq<PlanarEdgePair>, ep': seq<PlanarEdgePair>, k: Kernel)
    requires i < |pes| && (link.Some? ==> link.value < |hs|)
    requires HalfListed(pes, hs, i, link, ep, k)
    requires forall p :: Listed(ep, p) ==> Listed(ep', p)
    ensures HalfListed(pes, hs, i, link, ep', k)
  {
  }

  /** The PrevEdge half keeps the pair list's properties and lists its own pair. */
  lemma LinkPrevPairs(st: Linking, pes: seq<PlanarEdge>, hs: seq<HardEdge>, i: nat, k: Kernel)
    requires i < |pes| == |st.edges| && OrigLinksIn(pes, |hs|)
    requires NoLaterDuplicate(st.edgePairs) && PairsIn(st.edgePairs, |pes|)
    ensures var r := LinkPrevInfo(st, pes, hs, i, k);
      NoLaterDuplicate(r.edgePairs) && PairsIn(r.edgePairs, |pes|) &&
      (forall p :: Listed(st.edgePairs, p) ==> Listed(r.edgePairs, p)) &&
      HalfListed(pes, hs, i, pes[i].origEdge.prevEdge, r.edgePairs, k)
  {
    LinkHalfPairs(st, LinkPrevInfo(st, pes, hs, i, k), pes, hs, i, pes[i].origEdge.prevEdge, k);
  }

  /** The NextEdge half keeps the pair list's properties and lists its own pair. */
  lemma LinkNextPairs(st: Linking, pes: seq<PlanarEdge>, hs: seq<HardEdge>, i: nat, k: Kernel)
    requires i < |pes| == |st.edges| && OrigLinksIn(pes, |hs|)
    requires NoLaterDuplicate(st.edgePairs) && PairsIn(st.edgePairs, |pes|)
    ensures var r := LinkNextInfo(st, pes, hs, i, k);
      NoLaterDuplicate(r.edgePairs) && PairsIn(r.edgePairs, |pes|) &&
      (forall p :: Listed(st.edgePairs, p) ==> Listed(r.edgePairs, p)) &&
      HalfListed(pes, hs, i, pes[i].origEdge.nextEdge, r.edgePairs, k)
  {
    LinkHalfPairs(st, LinkNextInfo(st, pes, hs, i, k), pes, hs, i, pes[i].origEdge.nextEdge, k);
  }

  /** One half of a pass keeps the pair list's properties and lists its own pair. */
  lemma LinkHalfPairs(st: Linking, r: Linking, pes: seq<PlanarEdge>, hs: seq<HardEdge>, i: nat, link: Option<nat>, k: Kernel)
    requires i < |pes| && (link.Some? ==> link.value < |hs|)
    requires var info := PairTo(pes, hs, i, link, k);
      r.edgePairs == if info.None? then st.edgePairs else AddPair(st.edgePairs, info.value)
    requires NoLaterDuplicate(st.edgePairs) && PairsIn(st.edgePairs, |pes|)
    ensures NoLaterDuplicate(r.edgePairs) && PairsIn(r.edgePairs, |pes|)
    ensures forall p :: Listed(st.edgePairs, p) ==> Listed(r.edgePairs, p)
    ensures HalfListed(pes, hs, i, link, r.edgePairs, k)
  {
    var info := PairTo(pes, hs, i, link, k);
    if info.Some? {
      PairToSpec(pes, hs, i, link, k);
      AddPairSpec(st.edgePairs, info.value, info.value);
      forall p | Listed(st.edgePairs, p)
        ensures Listed(r.edgePairs, p)
      {
        AddPairSpec(st.edgePairs, info.value, p);
      }
    }
  }

  // --------------------------------------------------- the outline-line filter

  /**
   * CreateOutlineLine(edge, sharedPt, axis): the edge from the shared point to
   * its opposite end, moved by the line thickness along its outline direction
   * and projected along the axis.
   */
  function OutlineLine(pe: PlanarEdge, sharedPt: Vector3, axis: Vector3, plane: Plane, thickness: real, k: Kernel): LineSegment2D {
    var oppPt := GetOppositeVertex(pe, sharedPt);
    var offset := k.scale(pe.outlineDirection, thickness);
    Segment(k.projectPoint2D(plane, axis, k.add(sharedPt, offset)), k.projectPoint2D(plane, axis, k.add(oppPt, offset)))
  }

  /** How the two outline lines of a pair meet: parallel, not at all, or with a verdict on each line. */
  datatype Offsets = Parallel | Apart | Meet(good1: bool, good2: bool)

  /**
   * The geometric test of the filter for one pair: both outline lines are
   * started at their intersection, and a line is good when its edge is an edge
   * of the triangle or the line crosses the projected triangle.
   */
  function PairOffsets(pes: seq<PlanarEdge>, pair: PlanarEdgePair, face: Triangle, thickness: real, k: Kernel): Offsets
    requires pair.edge1 < |pes| && pair.edge2 < |pes|
  {
    var plane := FacePlane(face);
    var tri2d := ProjectTriangle2D(k, face, plane, pair.outlineBisector);
    var line1 := OutlineLine(pes[pair.edge1], pair.commonVertex, pair.outlineBisector, plane, thickness, k);
    var line2 := OutlineLine(pes[pair.edge2], pair.commonVertex, pair.outlineBisector, plane, thickness, k);
    if k.areParallel(line1.equation, line2.equation) then Parallel
    else match k.intersect(line1.equation, line2.equation)
      case None => Apart
      case Some(inter) =>
        Meet(pes[pair.edge1].isTriangleEdge || IntersectsLine(k, tri2d, line1.(p1 := inter)),
             pes[pair.edge2].isTriangleEdge || IntersectsLine(k, tri2d, line2.(p1 := inter)))
  }

  /** The edge the filter removes for a pair that is not a dead end, if any. */
  function PairVerdict(pes: seq<PlanarEdge>, pair: PlanarEdgePair, face: Triangle, thickness: real, k: Kernel): Option<nat>
    requires pair.edge1 < |pes| && pair.edge2 < |pes|
  {
    match PairOffsets(pes, pair, face, thickness, k)
    case Meet(good1, good2) =>
      if !good1 && !good2 then None
      else if !good1 then Some(pair.edge1)
      else if !good2 then Some(pair.edge2)
      else None
    case _ => None
  }

  /**
   * At most one edge per pair is removed: one exactly when the lines meet and
   * exactly one of them is good, and then it is the edge of the line that is
   * not. When both lines are bad, neither edge is removed.
   */
  lemma PairVerdictSpec(pes: seq<PlanarEdge>, pair: PlanarEdgePair, face: Triangle, thickness: real, k: Kernel)
    requires pair.edge1 < |pes| && pair.edge2 < |pes|
    ensures var o := PairOffsets(pes, pair, face, thickness, k);
      var r := PairVerdict(pes, pair, face, thickness, k);
      (r.Some? <==> o.Meet? && o.good1 != o.good2) &&
      (r.Some? ==> (r.value == pair.edge1 && !o.good1 && o.good2) || (r.value == pair.edge2 && o.good1 && !o.good2))
  {
  }

  /** The pair's outline directions point almost opposite. */
  predicate DeadEnd(pair: PlanarEdgePair) {
    pair.angleDiff >= DeadEndAngle
  }

  /** The state of the filter loop: the planar edges and edgesToRemove. */
  datatype Filtering = Filtering(edges: seq<PlanarEdge>, toRemove: seq<nat>)

  /**
   * One pass of the filter loop: a dead-end pair is disconnected from both of
   * its edges; otherwise the edge of the verdict is flagged and queued for
   * removal.
   */
  function FilterStep(st: Filtering, pes: seq<PlanarEdge>, pair: PlanarEdgePair, face: Triangle, thickness: real, k: Kernel): (r: Filtering)
    requires |st.edges| == |pes| && pair.edge1 < |pes| && pair.edge2 < |pes|
    ensures |r.edges| == |pes|
  {
    if DeadEnd(pair) then
      var edges1 := st.edges[pair.edge1 := Disconnect(st.edges[pair.edge1], pair)];
      Filtering(edges1[pair.edge2 := Disconnect(edges1[pair.edge2], pair)], st.toRemove)
    else match PairVerdict(pes, pair, face, thickness, k)
      case None => st
      case Some(e) => Filtering(st.edges[e := st.edges[e].(outlineIsOutsideTriangle := true)], st.toRemove + [e])
  }

  /** The filter loop over the first `n` listed pairs, starting from the linked edges. */
  function FilteredUpTo(edges: seq<PlanarEdge>, pes: seq<PlanarEdge>, ep: seq<PlanarEdgePair>, n: nat, face: Triangle, thickness: real, k: Kernel): (r: Filtering)
    requires |edges| == |pes| && PairsIn(ep, |pes|) && n <= |ep|
    ensures |r.edges| == |pes|
  {
    if n == 0 then Filtering(edges, [])
    else FilterStep(FilteredUpTo(edges, pes, ep, n - 1, face, thickness, k), pes, ep[n - 1], face, thickness, k)
  }

  /** An edge after a step: some links cleared, the outside flag perhaps raised, nothing else changed. */
  predicate EdgeShrinks(b: PlanarEdge, a: PlanarEdge) {
    (a.prevEdgeInfo == b.prevEdgeInfo || a.prevEdgeInfo.None?) &&
    (a.nextEdgeInfo == b.nextEdgeInfo || a.nextEdgeInfo.None?) &&
    (b.outlineIsOutsideTriangle ==> a.outlineIsOutsideTriangle) &&
    a.(prevEdgeInfo := b.prevEdgeInfo, nextEdgeInfo := b.nextEdgeInfo, outlineIsOutsideTriangle := b.outlineIsOutsideTriangle) == b
  }

  /** Every edge of `after` is its counterpart of `before` with links cleared and flags raised. */
  predicate Shrinks(before: seq<PlanarEdge>, after: seq<PlanarEdge>) {
    |after| == |before| && forall j :: 0 <= j < |before| ==> EdgeShrinks(before[j], after[j])
  }

  lemma ShrinksTransitive(a: seq<PlanarEdge>, b: seq<PlanarEdge>, c: seq<PlanarEdge>)
    requires Shrinks(a, b) && Shrinks(b, c)
    ensures Shrinks(a, c)
  {
    forall j | 0 <= j < |a|
      ensures EdgeShrinks(a[j], c[j])
    {
      assert EdgeShrinks(a[j], b[j]) && EdgeShrinks(b[j], c[j]);
    }
  }

  /** Nothing changed is a shrink. */
  lemma ShrinksReflexive(edges: seq<PlanarEdge>)
    ensures Shrinks(edges, edges)
  {
    forall j | 0 <= j < |edges|
      ensures EdgeShrinks(edges[j], edges[j])
    {
      var e := edges[j];
      assert e.(prevEdgeInfo := e.prevEdgeInfo, nextEdgeInfo := e.nextEdgeInfo, outlineIsOutsideTriangle := e.outlineIsOutsideTriangle) == e;
    }
  }

  /** Clearing links keeps an edge free of links equal to a pair. */
  lemma NoLinkEqualKept(b: PlanarEdge, a: PlanarEdge, pair: PlanarEdgePair)
    requires EdgeShrinks(b, a) && NoLinkEqual(b, pair)
    ensures NoLinkEqual(a, pair)
  {
  }

  /** A filter step only clears links and raises flags. */
  lemma FilterStepShrinks(st: Filtering, pes: seq<PlanarEdge>, pair: PlanarEdgePair, face: Triangle, thickness: real, k: Kernel)
    requires |st.edges| == |pes| && pair.edge1 < |pes| && pair.edge2 < |pes|
    ensures Shrinks(st.edges, FilterStep(st, pes, pair, face, thickness, k).edges)
  {
    var r := FilterStep(st, pes, pair, face, thickness, k);
    if DeadEnd(pair) {
      var edges1 := st.edges[pair.edge1 := Disconnect(st.edges[pair.edge1], pair)];
      assert Shrinks(st.edges, edges1);
      assert Shrinks(edges1, r.edges);
      ShrinksTransitive(st.edges, edges1, r.edges);
    }
  }

  /** The whole filter loop only clears links and raises flags. */
  lemma {:induction false} FilteredShrinks(edges: seq<PlanarEdge>, pes: seq<PlanarEdge>, ep: seq<PlanarEdgePair>, n: nat, face: Triangle, thickness: real, k: Kernel)
    requires |edges| == |pes| && PairsIn(ep, |pes|) && n <= |ep|
    ensures Shrinks(edges, FilteredUpTo(edges, pes, ep, n, face, thickness, k).edges)
    decreases n
  {
    if n == 0 {
      ShrinksReflexive(edges);
    } else {
      var before := FilteredUpTo(edges, pes, ep, n - 1, face, thickness, k);
      FilteredShrinks(edges, pes, ep, n - 1, face, thickness, k);
      FilterStepShrinks(before, pes, ep[n - 1], face, thickness, k);
      ShrinksTransitive(edges, before.edges, FilteredUpTo(edges, pes, ep, n, face, thickness, k).edges);
    }
  }

  /** Pair `q` of the list makes the filter remove edge `x`. */
  predicate Removes(pes: seq<PlanarEdge>, pair: PlanarEdgePair, x: nat, face: Triangle, thickness: real, k: Kernel)
    requires pair.edge1 < |pes| && pair.edge2 < |pes|
  {
    !DeadEnd(pair) && PairVerdict(pes, pair, face, thickness, k) == Some(x)
  }

  /** What one step adds to edgesToRemove. */
  function Removed(pes: seq<PlanarEdge>, pair: PlanarEdgePair, face: Triangle, thickness: real, k: Kernel): seq<nat>
    requires pair.edge1 < |pes| && pair.edge2 < |pes|
  {
    if DeadEnd(pair) then []
    else match PairVerdict(pes, pair, face, thickness, k)
      case None => []
      case Some(e) => [e]
  }

  /** A step queues at most the one edge its pair removes, and flags it. */
  lemma FilterStepRemovals(st: Filtering, pes: seq<PlanarEdge>, pair: PlanarEdgePair, face: Triangle, thickness: real, k: Kernel)
    requires |st.edges| == |pes| && pair.edge1 < |pes| && pair.edge2 < |pes|
    ensures var r := FilterStep(st, pes, pair, face, thickness, k);
      var add := Removed(pes, pair, face, thickness, k);
      r.toRemove == st.toRemove + add && |add| <= 1 &&
      (forall x :: x in add <==> Removes(pes, pair, x, face, thickness, k)) &&
      (forall x :: x in add ==> x < |pes| && r.edges[x].outlineIsOutsideTriangle)
  {
    PairVerdictSpec(pes, pair, face, thickness, k);
  }

  /** Every queued edge is an arena position whose outline is flagged as outside the triangle. */
  predicate QueuedFlagged(st: Filtering, size: nat) {
    |st.edges| == size &&
    forall j :: 0 <= j < |st.toRemove| ==> st.toRemove[j] < size && st.edges[st.toRemove[j]].outlineIsOutsideTriangle
  }

  /** A step queues at most one more edge and keeps every queued edge flagged. */
  lemma FilterStepFlags(st: Filtering, pes: seq<PlanarEdge>, pair: PlanarEdgePair, face: Triangle, thickness: real, k: Kernel)
    requires |st.edges| == |pes| && pair.edge1 < |pes| && pair.edge2 < |pes| && QueuedFlagged(st, |pes|)
    ensures var r := FilterStep(st, pes, pair, face, thickness, k);
      |r.toRemove| <= |st.toRemove| + 1 && QueuedFlagged(r, |pes|)
  {
    var r := FilterStep(st, pes, pair, face, thickness, k);
    FilterStepShrinks(st, pes, pair, face, thickness, k);
    FilterStepRemovals(st, pes, pair, face, thickness, k);
    FlagsKept(st, r, Removed(pes, pair, face, thickness, k), |pes|);
  }

  /**
   * edgesToRemove after `n` pairs: at most one edge per pair, every one of
   * them flagged as having its outline outside the triangle.
   */
  lemma {:induction false} FilteredFlags(edges: seq<PlanarEdge>, pes: seq<PlanarEdge>, ep: seq<PlanarEdgePair>, n: nat, face: Triangle, thickness: real, k: Kernel)
    requires |edges| == |pes| && PairsIn(ep, |pes|) && n <= |ep|
    ensures var r := FilteredUpTo(edges, pes, ep, n, face, thickness, k);
      |r.toRemove| <= n && QueuedFlagged(r, |pes|)
    decreases n
  {
    if n == 0 {
      assert FilteredUpTo(edges, pes, ep, 0, face, thickness, k).toRemove == [];
    } else {
      FilteredFlags(edges, pes, ep, n - 1, face, thickness, k);
      FilterStepFlags(FilteredUpTo(edges, pes, ep, n - 1, face, thickness, k), pes, ep[n - 1], face, thickness, k);
    }
  }

  /** An edge is queued by a step exactly when it was queued before or the step's pair removes it. */
  lemma FilterStepQueues(st: Filtering, pes: seq<PlanarEdge>, pair: PlanarEdgePair, face: Triangle, thickness: real, k: Kernel, x: nat)
    requires |st.edges| == |pes| && pair.edge1 < |pes| && pair.edge2 < |pes|
    ensures x in FilterStep(st, pes, pair, face, thickness, k).toRemove <==> x in st.toRemove || Removes(pes, pair, x, face, thickness, k)
  {
    FilterStepRemovals(st, pes, pair, face, thickness, k);
  }

  /** Some pair among the first `n` removes `x`. */
  predicate RemovedBy(pes: seq<PlanarEdge>, ep: seq<PlanarEdgePair>, n: nat, x: nat, face: Triangle, thickness: real, k: Kernel)
    requires PairsIn(ep, |pes|) && n <= |ep|
  {
    exists q :: 0 <= q < n && Removes(pes, ep[q], x, face, thickness, k)
  }

  /** One more pair removes `x` exactly when it or an earlier one does. */
  lemma RemovedByStep(pes: seq<PlanarEdge>, ep: seq<PlanarEdgePair>, n: nat, x: nat, face: Triangle, thickness: real, k: Kernel)
    requires PairsIn(ep, |pes|) && 0 < n <= |ep|
    ensures RemovedBy(pes, ep, n, x, face, thickness, k) <==>
      RemovedBy(pes, ep, n - 1, x, face, thickness, k) || Removes(pes, ep[n - 1], x, face, thickness, k)
  {
    if RemovedBy(pes, ep, n, x, face, thickness, k) {
      var q :| 0 <= q < n && Removes(pes, ep[q], x, face, thickness, k);
      if q < n - 1 {
        assert RemovedBy(pes, ep, n - 1, x, face, thickness, k);
      }
    }
  }

  /** An edge is queued for removal exactly when one of the first `n` pairs removes it. */
  lemma {:induction false} FilteredRemovals(edges: seq<PlanarEdge>, pes: seq<PlanarEdge>, ep: seq<PlanarEdgePair>, n: nat, face: Triangle, thickness: real, k: Kernel, x: nat)
    requires |edges| == |pes| && PairsIn(ep, |pes|) && n <= |ep|
    ensures x in FilteredUpTo(edges, pes, ep, n, face, thickness, k).toRemove <==> RemovedBy(pes, ep, n, x, face, thickness, k)
    decreases n
  {
    if n == 0 {
      assert FilteredUpTo(edges, pes, ep, 0, face, thickness, k).toRemove == [];
    } else {
      FilteredRemovals(edges, pes, ep, n - 1, face, thickness, k, x);
      FilterStepQueues(FilteredUpTo(edges, pes, ep, n - 1, face, thickness, k), pes, ep[n - 1], face, thickness, k, x);
      RemovedByStep(pes, ep, n, x, face, thickness, k);
    }
  }

  /** Queued edges stay flagged when a step only raises flags and flags what it queues. */
  lemma FlagsKept(before: Filtering, r: Filtering, add: seq<nat>, size: nat)
    requires |before.edges| == size && Shrinks(before.edges, r.edges) && r.toRemove == before.toRemove + add
    requires forall j :: 0 <= j < |before.toRemove| ==> before.toRemove[j] < size && before.edges[before.toRemove[j]].outlineIsOutsideTriangle
    requires forall x :: x in add ==> x < size && r.edges[x].outlineIsOutsideTriangle
    ensures forall j :: 0 <= j < |r.toRemove| ==> r.toRemove[j] < size && r.edges[r.toRemove[j]].outlineIsOutsideTriangle
  {
    forall j | 0 <= j < |r.toRemove|
      ensures r.toRemove[j] < size && r.edges[r.toRemove[j]].outlineIsOutsideTriangle
    {
      if j < |before.toRemove| {
        assert r.toRemove[j] == before.toRemove[j];
        assert EdgeShrinks(before.edges[before.toRemove[j]], r.edges[before.toRemove[j]]);
      } else {
        assert r.toRemove[j] in add;
      }
    }
  }

  /**
   * Every dead-end pair among the first `n` is gone from both of its edges:
   * neither keeps a link equal to it.
   */
  lemma {:induction false} FilteredDeadEnds(edges: seq<PlanarEdge>, pes: seq<PlanarEdge>, ep: seq<PlanarEdgePair>, n: nat, face: Triangle, thickness: real, k: Kernel)
    requires |edges| == |pes| && PairsIn(ep, |pes|) && n <= |ep|
    ensures var r := FilteredUpTo(edges, pes, ep, n, face, thickness, k);
      forall q :: 0 <= q < n && DeadEnd(ep[q]) ==>
        NoLinkEqual(r.edges[ep[q].edge1], ep[q]) && NoLinkEqual(r.edges[ep[q].edge2], ep[q])
    decreases n
  {
    if n == 0 {
      assert FilteredUpTo(edges, pes, ep, 0, face, thickness, k).edges == edges;
    } else {
      var before := FilteredUpTo(edges, pes, ep, n - 1, face, thickness, k);
      FilteredDeadEnds(edges, pes, ep, n - 1, face, thickness, k);
      var r := FilteredUpTo(edges, pes, ep, n, face, thickness, k);
      FilterStepShrinks(before, pes, ep[n - 1], face, thickness, k);
      forall q | 0 <= q < n && DeadEnd(ep[q])
        ensures NoLinkEqual(r.edges[ep[q].edge1], ep[q]) && NoLinkEqual(r.edges[ep[q].edge2], ep[q])
      {
        if q < n - 1 {
          NoLinkEqualKept(before.edges[ep[q].edge1], r.edges[ep[q].edge1], ep[q]);
          NoLinkEqualKept(before.edges[ep[q].edge2], r.edges[ep[q].edge2], ep[q]);
        } else {
          DeadEndStep(before, pes, ep[q], face, thickness, k);
        }
      }
    }
  }

  /** A dead-end step leaves neither edge of the pair with a link equal to it. */
  lemma DeadEndStep(st: Filtering, pes: seq<PlanarEdge>, pair: PlanarEdgePair, face: Triangle, thickness: real, k: Kernel)
    requires |st.edges| == |pes| && pair.edge1 < |pes| && pair.edge2 < |pes| && DeadEnd(pair)
    ensures var r := FilterStep(st, pes, pair, face, thickness, k);
      NoLinkEqual(r.edges[pair.edge1], pair) && NoLinkEqual(r.edges[pair.edge2], pair)
  {
    var edges1 := st.edges[pair.edge1 := Disconnect(st.edges[pair.edge1], pair)];
    var r := FilterStep(st, pes, pair, face, thickness, k);
    assert NoLinkEqual(edges1[pair.edge1], pair);
    if pair.edge1 != pair.edge2 {
      assert r.edges[pair.edge1] == edges1[pair.edge1];
    }
  }

  // ------------------------------------------------------ removal and unlinking

  /**
   * planarEdges.RemoveAll(e => edgesToRemove.Contains(e)) on the first `n`
   * arena positions: those not queued for removal, in order.
   */
  function Survivors(n: nat, toRemove: seq<nat>): seq<nat> {
    if n == 0 then [] else Survivors(n - 1, toRemove) + (if n - 1 in toRemove then [] else [n - 1])
  }

  /** The survivors are exactly the positions below `n` that were not queued, each once and in order. */
  lemma {:induction false} SurvivorsSpec(n: nat, toRemove: seq<nat>)
    ensures forall x: nat :: x in Survivors(n, toRemove) <==> x < n && x !in toRemove
    ensures forall a, b :: 0 <= a < b < |Survivors(n, toRemove)| ==> Survivors(n, toRemove)[a] < Survivors(n, toRemove)[b]
    decreases n
  {
    if n > 0 {
      SurvivorsSpec(n - 1, toRemove);
      var init := Survivors(n - 1, toRemove);
      var r := Survivors(n, toRemove);
      assert r == init + (if n - 1 in toRemove then [] else [n - 1]);
      assert forall a :: 0 <= a < |init| ==> r[a] == init[a] && init[a] in init;
      forall x: nat
        ensures x in r <==> x < n && x !in toRemove
      {
        assert x in r <==> x in init || (x == n - 1 && n - 1 !in toRemove);
      }
    }
  }

  /**
   * The unlink step for one link of the surviving edge at position `self`: a
   * pair is kept only when its other edge survived (a pair that does not hold
   * the edge has no other edge and is dropped as well).
   */
  function KeepIfPartnerAlive(link: Option<PlanarEdgePair>, self: nat, alive: seq<nat>): Option<PlanarEdgePair> {
    match link
    case None => None
    case Some(pair) =>
      match GetOtherEdge(pair, self)
      case None => None
      case Some(other) => if other in alive then link else None
  }

  /** A surviving edge with the pairs to removed edges unlinked. */
  function Orphaned(pe: PlanarEdge, self: nat, alive: seq<nat>): PlanarEdge {
    pe.(prevEdgeInfo := KeepIfPartnerAlive(pe.prevEdgeInfo, self, alive),
        nextEdgeInfo := KeepIfPartnerAlive(pe.nextEdgeInfo, self, alive))
  }

  /** The unlink loop after the first `m` surviving edges. */
  function UnlinkUpTo(edges: seq<PlanarEdge>, alive: seq<nat>, m: nat): (r: seq<PlanarEdge>)
    requires m <= |alive| && forall j :: 0 <= j < |alive| ==> alive[j] < |edges|
    ensures |r| == |edges|
  {
    if m == 0 then edges
    else
      var before := UnlinkUpTo(edges, alive, m - 1);
      before[alive[m - 1] := Orphaned(before[alive[m - 1]], alive[m - 1], alive)]
  }

  /** Surviving positions are arena positions listed once each. */
  predicate AliveIn(alive: seq<nat>, size: nat) {
    (forall j :: 0 <= j < |alive| ==> alive[j] < size) &&
    (forall a, b :: 0 <= a < b < |alive| ==> alive[a] != alive[b])
  }

  /** After `m` steps the first `m` survivors are unlinked and every other edge is as it was. */
  lemma {:induction false} UnlinkUpToSpec(edges: seq<PlanarEdge>, alive: seq<nat>, m: nat)
    requires m <= |alive| && AliveIn(alive, |edges|)
    ensures var r := UnlinkUpTo(edges, alive, m);
      forall j :: 0 <= j < |edges| ==> r[j] == if j in alive[..m] then Orphaned(edges[j], j, alive) else edges[j]
    decreases m
  {
    if m > 0 {
      UnlinkUpToSpec(edges, alive, m - 1);
      var before := UnlinkUpTo(edges, alive, m - 1);
      var r := UnlinkUpTo(edges, alive, m);
      var x := alive[m - 1];
      assert alive[..m] == alive[..m - 1] + [x];
      assert x !in alive[..m - 1] by {
        var pre := alive[..m - 1];
        forall a | 0 <= a < |pre|
          ensures pre[a] != x
        {
          assert pre[a] == alive[a] != alive[m - 1];
        }
      }
      forall j | 0 <= j < |edges|
        ensures r[j] == if j in alive[..m] then Orphaned(edges[j], j, alive) else edges[j]
      {
        if j == x {
          assert before[x] == edges[x];
        } else {
          assert r[j] == before[j];
          assert j in alive[..m] <==> j in alive[..m - 1];
        }
      }
    }
  }

  /**
   * A link kept by the unlink step is the one the edge had, holds the edge,
   * and its other edge survived.
   */
  lemma KeepIfPartnerAliveSpec(link: Option<PlanarEdgePair>, self: nat, alive: seq<nat>)
    ensures var r := KeepIfPartnerAlive(link, self, alive);
      (r.None? || r == link) &&
      (r.Some? <==> link.Some? && GetOtherEdge(link.value, self).Some? && GetOtherEdge(link.value, self).value in alive)
  {
  }

  /** A planar edge whose every link holds it and joins it to a surviving edge. */
  predicate LinksToSurvivors(pe: PlanarEdge, self: nat, alive: seq<nat>) {
    (pe.prevEdgeInfo.Some? ==>
       GetOtherEdge(pe.prevEdgeInfo.value, self).Some? && GetOtherEdge(pe.prevEdgeInfo.value, self).value in alive) &&
    (pe.nextEdgeInfo.Some? ==>
       GetOtherEdge(pe.nextEdgeInfo.value, self).Some? && GetOtherEdge(pe.nextEdgeInfo.value, self).value in alive)
  }

  /**
   * After the unlink loop every surviving edge links only to surviving edges,
   * and keeps each link whose other edge survived; removed edges are untouched.
   */
  lemma UnlinkClosesSurvivors(edges: seq<PlanarEdge>, alive: seq<nat>)
    requires AliveIn(alive, |edges|)
    ensures var r := UnlinkUpTo(edges, alive, |alive|);
      (forall x :: x in alive ==> LinksToSurvivors(r[x], x, alive) && EdgeShrinks(edges[x], r[x])) &&
      (forall x :: (x in alive && edges[x].prevEdgeInfo.Some? && GetOtherEdge(edges[x].prevEdgeInfo.value, x).Some? &&
                    GetOtherEdge(edges[x].prevEdgeInfo.value, x).value in alive) ==> r[x].prevEdgeInfo == edges[x].prevEdgeInfo) &&
      (forall x :: (x in alive && edges[x].nextEdgeInfo.Some? && GetOtherEdge(edges[x].nextEdgeInfo.value, x).Some? &&
                    GetOtherEdge(edges[x].nextEdgeInfo.value, x).value in alive) ==> r[x].nextEdgeInfo == edges[x].nextEdgeInfo) &&
      (forall j :: 0 <= j < |edges| && j !in alive ==> r[j] == edges[j])
  {
    UnlinkUpToSpec(edges, alive, |alive|);
    assert alive[..|alive|] == alive;
    forall x | x in alive
      ensures LinksToSurvivors(UnlinkUpTo(edges, alive, |alive|)[x], x, alive)
    {
      KeepIfPartnerAliveSpec(edges[x].prevEdgeInfo, x, alive);
      KeepIfPartnerAliveSpec(edges[x].nextEdgeInfo, x, alive);
    }
  }

  // ------------------------------------------------------- CalculatePlanarEdges

  /** What CalculatePlanarEdges leaves: the arena of planar edges and the positions of the returned ones. */
  datatype PlanarSet = PlanarSet(edges: seq<PlanarEdge>, alive: seq<nat>)

  /** The hard edges of the triangle projected onto its plane, in GetEdgesForTriangle order. */
  function ProjectedCloseEdges(face: Triangle, hs: seq<HardEdge>, dict: map<Vector3, seq<nat>>, breakAngleRad: real, k: Kernel): (pes: seq<PlanarEdge>)
    requires IndexInRange(dict, |hs|) && LinksInRange(hs)
    ensures OrigLinksIn(pes, |hs|) && Unpaired(pes)
  {
    var close := EdgesForTriangle(hs, dict, face, breakAngleRad, k, DefaultComparer(k));
    InitialEdgesWellFormed(hs, close, face, k);
    InitialEdges(hs, close, face, k)
  }

  /** The pair list and the planar edges after the link loop and the filter loop. */
  function LinkedAndFiltered(pes: seq<PlanarEdge>, hs: seq<HardEdge>, face: Triangle, thickness: real, k: Kernel): (r: Filtering)
    requires OrigLinksIn(pes, |hs|)
    ensures |r.edges| == |pes|
  {
    var linked := PairedUpTo(pes, hs, |pes|, k);
    PairedUpToPairs(pes, hs, |pes|, k);
    FilteredUpTo(linked.edges, pes, linked.edgePairs, |linked.edgePairs|, face, thickness, k)
  }

  /**
   * CalculatePlanarEdges(face, hardEdgeDict) with the dictionary's arena,
   * index and break angle: project, pair, filter, remove, unlink.
   */
  function PlanarEdgesOf(face: Triangle, hs: seq<HardEdge>, dict: map<Vector3, seq<nat>>, breakAngleRad: real, thickness: real, k: Kernel): (r: PlanarSet)
    requires IndexInRange(dict, |hs|) && LinksInRange(hs)
    ensures AliveIn(r.alive, |r.edges|)
  {
    var pes := ProjectedCloseEdges(face, hs, dict, breakAngleRad, k);
    var filtered := LinkedAndFiltered(pes, hs, face, thickness, k);
    var alive := Survivors(|pes|, filtered.toRemove);
    SurvivorsSpec(|pes|, filtered.toRemove);
    assert forall j :: 0 <= j < |alive| ==> alive[j] in alive;
    PlanarSet(UnlinkUpTo(filtered.edges, alive, |alive|), alive)
  }

  /** The result of the removal and unlink steps, given what the filter loop left. */
  predicate RemovedAndUnlinked(filtered: Filtering, n: nat, r: PlanarSet) {
    |filtered.edges| == n &&
    r.alive == Survivors(n, filtered.toRemove) &&
    AliveIn(r.alive, n) &&
    r.edges == UnlinkUpTo(filtered.edges, r.alive, |r.alive|)
  }

  /** The returned edges are those no pair removed; the others are flagged as outside the triangle. */
  lemma SurvivorsAreUnremoved(pes: seq<PlanarEdge>, edges: seq<PlanarEdge>, ep: seq<PlanarEdgePair>, r: PlanarSet, face: Triangle, thickness: real, k: Kernel)
    requires |edges| == |pes| && PairsIn(ep, |pes|)
    requires RemovedAndUnlinked(FilteredUpTo(edges, pes, ep, |ep|, face, thickness, k), |pes|, r)
    ensures forall x: nat :: x in r.alive <==>
      x < |pes| && !exists q :: 0 <= q < |ep| && Removes(pes, ep[q], x, face, thickness, k)
    ensures forall x :: 0 <= x < |pes| && x !in r.alive ==> r.edges[x].outlineIsOutsideTriangle
  {
    var filtered := FilteredUpTo(edges, pes, ep, |ep|, face, thickness, k);
    SurvivorsSpec(|pes|, filtered.toRemove);
    forall x: nat
      ensures x in r.alive <==> x < |pes| && !exists q :: 0 <= q < |ep| && Removes(pes, ep[q], x, face, thickness, k)
    {
      FilteredRemovals(edges, pes, ep, |ep|, face, thickness, k, x);
    }
    UnlinkClosesSurvivors(filtered.edges, r.alive);
    FilteredFlags(edges, pes, ep, |ep|, face, thickness, k);
    forall x | 0 <= x < |pes| && x !in r.alive
      ensures r.edges[x].outlineIsOutsideTriangle
    {
      var j :| 0 <= j < |filtered.toRemove| && filtered.toRemove[j] == x;
    }
  }

  /** No dead-end pair is left on either of its edges after removal and unlinking. */
  lemma DeadEndsStayCleared(pes: seq<PlanarEdge>, edges: seq<PlanarEdge>, ep: seq<PlanarEdgePair>, r: PlanarSet, face: Triangle, thickness: real, k: Kernel)
    requires |edges| == |pes| && PairsIn(ep, |pes|)
    requires RemovedAndUnlinked(FilteredUpTo(edges, pes, ep, |ep|, face, thickness, k), |pes|, r)
    ensures forall q :: 0 <= q < |ep| && DeadEnd(ep[q]) ==>
      NoLinkEqual(r.edges[ep[q].edge1], ep[q]) && NoLinkEqual(r.edges[ep[q].edge2], ep[q])
  {
    var filtered := FilteredUpTo(edges, pes, ep, |ep|, face, thickness, k);
    UnlinkClosesSurvivors(filtered.edges, r.alive);
    FilteredDeadEnds(edges, pes, ep, |ep|, face, thickness, k);
    forall q | 0 <= q < |ep| && DeadEnd(ep[q])
      ensures NoLinkEqual(r.edges[ep[q].edge1], ep[q]) && NoLinkEqual(r.edges[ep[q].edge2], ep[q])
    {
      var e1, e2 := ep[q].edge1, ep[q].edge2;
      if e1 in r.alive { NoLinkEqualKept(filtered.edges[e1], r.edges[e1], ep[q]); }
      if e2 in r.alive { NoLinkEqualKept(filtered.edges[e2], r.edges[e2], ep[q]); }
    }
  }

  /** PlanarEdgesOf is the removal and unlinking of what the link and filter loops leave. */
  lemma PlanarEdgesOfParts(face: Triangle, hs: seq<HardEdge>, dict: map<Vector3, seq<nat>>, breakAngleRad: real, thickness: real, k: Kernel)
    requires IndexInRange(dict, |hs|) && LinksInRange(hs)
    ensures var pes := ProjectedCloseEdges(face, hs, dict, breakAngleRad, k);
      var linked := PairedUpTo(pes, hs, |pes|, k);
      PairsIn(linked.edgePairs, |pes|) && NoLaterDuplicate(linked.edgePairs) &&
      RemovedAndUnlinked(FilteredUpTo(linked.edges, pes, linked.edgePairs, |linked.edgePairs|, face, thickness, k), |pes|,
                         PlanarEdgesOf(face, hs, dict, breakAngleRad, thickness, k))
  {
    var pes := ProjectedCloseEdges(face, hs, dict, breakAngleRad, k);
    PairedUpToPairs(pes, hs, |pes|, k);
  }

  /**
   * The planar edges CalculatePlanarEdges returns: the pair list holds no two
   * pairs equal under IsEqual; the returned edges are exactly the projected
   * close edges that no pair removed, and every edge removed is flagged as
   * having its outline outside the triangle; every returned edge links only
   * to returned edges; and no dead-end pair is left on either of its edges.
   */
  lemma PlanarEdgesOfSpec(face: Triangle, hs: seq<HardEdge>, dict: map<Vector3, seq<nat>>, breakAngleRad: real, thickness: real, k: Kernel)
    requires IndexInRange(dict, |hs|) && LinksInRange(hs)
    ensures var pes := ProjectedCloseEdges(face, hs, dict, breakAngleRad, k);
      var linked := PairedUpTo(pes, hs, |pes|, k);
      var r := PlanarEdgesOf(face, hs, dict, breakAngleRad, thickness, k);
      PairsIn(linked.edgePairs, |pes|) && NoLaterDuplicate(linked.edgePairs) &&
      |r.edges| == |pes| &&
      (forall x: nat :: x in r.alive <==>
         x < |pes| && !exists q :: 0 <= q < |linked.edgePairs| && Removes(pes, linked.edgePairs[q], x, face, thickness, k)) &&
      (forall x :: 0 <= x < |pes| && x !in r.alive ==> r.edges[x].outlineIsOutsideTriangle) &&
      (forall x :: x in r.alive ==> LinksToSurvivors(r.edges[x], x, r.alive)) &&
      (forall q :: 0 <= q < |linked.edgePairs| && DeadEnd(linked.edgePairs[q]) ==>
         NoLinkEqual(r.edges[linked.edgePairs[q].edge1], linked.edgePairs[q]) &&
         NoLinkEqual(r.edges[linked.edgePairs[q].edge2], linked.edgePairs[q]))
  {
    var pes := ProjectedCloseEdges(face, hs, dict, breakAngleRad, k);
    var linked := PairedUpTo(pes, hs, |pes|, k);
    var r := PlanarEdgesOf(face, hs, dict, breakAngleRad, thickness, k);
    PlanarEdgesOfParts(face, hs, dict, breakAngleRad, thickness, k);
    var filtered := FilteredUpTo(linked.edges, pes, linked.edgePairs, |linked.edgePairs|, face, thickness, k);
    SurvivorsAreUnremoved(pes, linked.edges, linked.edgePairs, r, face, thickness, k);
    DeadEndsStayCleared(pes, linked.edges, linked.edgePairs, r, face, thickness, k);
    UnlinkClosesSurvivors(filtered.edges, r.alive);
  }

  /**
   * CalculatePlanarEdges(face, hardEdgeDict): the close hard edges projected
   * onto the face plane, paired along their chain links, filtered, removed
   * and unlinked.
   */
  method CalculatePlanarEdges(face: Triangle, d: HardEdgeDictionary, thickness: real, k: Kernel) returns (r: PlanarSet)
    requires d.Valid()
    ensures r == PlanarEdgesOf(face, d.hardEdges, d.innerDict, d.breakAngleRad, thickness, k)
  {
    var hs, dict := d.hardEdges, d.innerDict;
    var closeEdges := d.GetEdgesForTriangle(face, k);
    InitialEdgesWellFormed(hs, closeEdges, face, k);
    var planarEdges := InitialEdges(hs, closeEdges, face, k);
    assert planarEdges == ProjectedCloseEdges(face, hs, dict, d.breakAngleRad, k);
    var linked := LinkPlanarEdges(planarEdges, hs, k);
    PairedUpToPairs(planarEdges, hs, |planarEdges|, k);
    var filtered := FilterPairs(linked.edges, planarEdges, linked.edgePairs, face, thickness, k);
    assert filtered == LinkedAndFiltered(planarEdges, hs, face, thickness, k);
    var alive := Survivors(|planarEdges|, filtered.toRemove);
    SurvivorsSpec(|planarEdges|, filtered.toRemove);
    assert forall j :: 0 <= j < |alive| ==> alive[j] in alive;
    var edges := UnlinkRemoved(filtered.edges, alive);
    r := PlanarSet(edges, alive);
  }

  /** The link loop: each planar edge gets a pair for its hard edge's PrevEdge and NextEdge, and edgePairs the new distinct ones. */
  method LinkPlanarEdges(pes: seq<PlanarEdge>, hs: seq<HardEdge>, k: Kernel) returns (st: Linking)
    requires OrigLinksIn(pes, |hs|)
    ensures st == PairedUpTo(pes, hs, |pes|, k)
  {
    st := Linking(pes, []);
    for i := 0 to |pes|
      invariant st == PairedUpTo(pes, hs, i, k)
    {
      var planarEdge := pes[i];
      if planarEdge.origEdge.prevEdge.Some? {
        var prevEdge := FindOrig(pes, hs[planarEdge.origEdge.prevEdge.value], |pes|);
        if prevEdge.Some? {
          var info := NewPair(pes, i, prevEdge.value, k);
          var pairs := if Listed(st.edgePairs, info) then st.edgePairs else st.edgePairs + [info];
          st := Linking(st.edges[i := st.edges[i].(prevEdgeInfo := Some(info))], pairs);
        }
      }
      if planarEdge.origEdge.nextEdge.Some? {
        var nextEdge := FindOrig(pes, hs[planarEdge.origEdge.nextEdge.value], |pes|);
        if nextEdge.Some? {
          var info := NewPair(pes, i, nextEdge.value, k);
          var pairs := if Listed(st.edgePairs, info) then st.edgePairs else st.edgePairs + [info];
          st := Linking(st.edges[i := st.edges[i].(nextEdgeInfo := Some(info))], pairs);
        }
      }
    }
  }

  /** One pass of the filter loop: a dead-end pair is disconnected, otherwise the edge its verdict names is flagged and queued. */
  method FilterPair(st: Filtering, pes: seq<PlanarEdge>, edgePair: PlanarEdgePair, face: Triangle, thickness: real, k: Kernel)
    returns (r: Filtering)
    requires |st.edges| == |pes| && edgePair.edge1 < |pes| && edgePair.edge2 < |pes|
    ensures r == FilterStep(st, pes, edgePair, face, thickness, k)
  {
    if edgePair.angleDiff >= DeadEndAngle {
      var cur := st.edges[edgePair.edge1 := Disconnect(st.edges[edgePair.edge1], edgePair)];
      cur := cur[edgePair.edge2 := Disconnect(cur[edgePair.edge2], edgePair)];
      return Filtering(cur, st.toRemove);
    }
    r := st;
    var verdict := PairVerdict(pes, edgePair, face, thickness, k);
    if verdict.Some? {
      var e := verdict.value;
      r := Filtering(st.edges[e := st.edges[e].(outlineIsOutsideTriangle := true)], st.toRemove + [e]);
    }
  }

  /** The filter loop over the distinct pairs: disconnect dead ends, queue edges whose outline misses the triangle. */
  method FilterPairs(edges: seq<PlanarEdge>, pes: seq<PlanarEdge>, edgePairs: seq<PlanarEdgePair>, face: Triangle, thickness: real, k: Kernel)
    returns (st: Filtering)
    requires |edges| == |pes| && PairsIn(edgePairs, |pes|)
    ensures st == FilteredUpTo(edges, pes, edgePairs, |edgePairs|, face, thickness, k)
  {
    st := Filtering(edges, []);
    for q := 0 to |edgePairs|
      invariant st == FilteredUpTo(edges, pes, edgePairs, q, face, thickness, k)
    {
      st := FilterPair(st, pes, edgePairs[q], face, thickness, k);
    }
  }

  /** The unlink loop: a surviving edge drops each pair whose other edge was removed. */
  method UnlinkRemoved(edges: seq<PlanarEdge>, alive: seq<nat>) returns (r: seq<PlanarEdge>)
    requires AliveIn(alive, |edges|)
    ensures r == UnlinkUpTo(edges, alive, |alive|)
  {
    r := edges;
    for m := 0 to |alive|
      invariant r == UnlinkUpTo(edges, alive, m)
    {
      var x := alive[m];
      var pEdge := r[x];
      if pEdge.prevEdgeInfo.Some? {
        var otherEdge := GetOtherEdge(pEdge.prevEdgeInfo.value, x);
        if otherEdge.None? || otherEdge.value !in alive {
          pEdge := pEdge.(prevEdgeInfo := None);
        }
      }
      if pEdge.nextEdgeInfo.Some? {
        var otherEdge := GetOtherEdge(pEdge.nextEdgeInfo.value, x);
        if otherEdge.None? || otherEdge.value !in alive {
          pEdge := pEdge.(nextEdgeInfo := None);
        }
      }
      r := r[x := pEdge];
    }
  }
}
