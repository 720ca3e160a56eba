/**
 * The per-vertex step of GenerateOutlines: at one vertex of the triangle,
 * the surviving planar edges through it are pruned, projected, filtered, cut
 * down to one dead end, and turned into zero, one or two outlines (with a
 * clipping partner where one is needed). Each vertex appends its outlines to
 * the triangle's projection arena.
 */
module VertexOutlines {
  import opened Wrappers
  import opened Geometry
  import opened HardEdges
  import opened PlanarEdges
  import opened ProjectedEdges
  import opened Lists

  /** Every position of the list names a planar edge of the arena. */
  predicate ListIn(list: seq<nat>, size: nat) {
    forall i :: 0 <= i < |list| ==> list[i] < size
  }

  // ----------------------------------------------------------- planar edges at the vertex

  /** planarEdges.Where(x => x.Contains(position)), in list order. */
  function Touching(edges: seq<PlanarEdge>, list: seq<nat>, position: Vector3): (r: seq<nat>)
    requires ListIn(list, |edges|)
    ensures forall x :: x in r <==> x in list && Contains(edges[x], position)
    ensures ListIn(r, |edges|)
  {
    if list == [] then []
    else
      assert list == [list[0]] + list[1..];
      (if Contains(edges[list[0]], position) then [list[0]] else []) + Touching(edges, list[1..], position)
  }

  /** edgesConnectedToVertex.Where(x => x.IsUsedInIntersection), in list order. */
  function UsedInIntersection(edges: seq<PlanarEdge>, list: seq<nat>): (r: seq<nat>)
    requires ListIn(list, |edges|)
    ensures forall x :: x in r <==> x in list && IsUsedInIntersection(edges[x])
    ensures ListIn(r, |edges|)
  {
    if list == [] then []
    else
      assert list == [list[0]] + list[1..];
      (if IsUsedInIntersection(edges[list[0]]) then [list[0]] else []) + UsedInIntersection(edges, list[1..])
  }

  /** No edge of the list is used in an intersection exactly when none is selected as one. */
  lemma UsedInIntersectionNone(edges: seq<PlanarEdge>, list: seq<nat>)
    requires ListIn(list, |edges|)
    ensures UsedInIntersection(edges, list) == [] <==>
      !exists j :: 0 <= j < |list| && IsUsedInIntersection(edges[list[j]])
  {
    var inter := UsedInIntersection(edges, list);
    if inter != [] {
      assert inter[0] in inter;
    }
    if exists j :: 0 <= j < |list| && IsUsedInIntersection(edges[list[j]]) {
      var j :| 0 <= j < |list| && IsUsedInIntersection(edges[list[j]]);
      assert list[j] in inter;
    }
  }

  /** edgesConnectedToVertex.Any(e => edge.IsConnectedTo(e)) for the planar edge `pe` at position `self`. */
  predicate ConnectedToAny(pe: PlanarEdge, self: nat, list: seq<nat>) {
    exists j :: 0 <= j < |list| && IsConnectedTo(pe, self, list[j])
  }

  /**
   * One step of the pruning loop: the edge at position `edge` is removed when
   * it is connected to no edge left in the list. The step keeps every other
   * element and adds none.
   */
  function PruneOne(edges: seq<PlanarEdge>, cur: seq<nat>, edge: nat): (r: seq<nat>)
    requires edge < |edges|
    ensures forall y :: y in r ==> y in cur
    ensures forall y :: y in cur && y != edge ==> y in r
    ensures ListIn(cur, |edges|) ==> ListIn(r, |edges|)
  {
    RemoveFirstMembers(cur, edge);
    if ConnectedToAny(edges[edge], edge, cur) then cur
    else if ListIn(cur, |edges|) then
      ListInSub(RemoveFirst(cur, edge), cur, |edges|);
      RemoveFirst(cur, edge)
    else RemoveFirst(cur, edge)
  }

  /** The pruning loop after the first `n` edges used in an intersection. */
  function PrunedUpTo(edges: seq<PlanarEdge>, list: seq<nat>, inter: seq<nat>, n: nat): (r: seq<nat>)
    requires n <= |inter| && ListIn(inter, |edges|)
    ensures ListIn(list, |edges|) ==> ListIn(r, |edges|)
  {
    if n == 0 then list else PruneOne(edges, PrunedUpTo(edges, list, inter, n - 1), inter[n - 1])
  }

  /** A list holding only elements of a list of positions in range is in range too. */
  lemma ListInSub(small: seq<nat>, big: seq<nat>, size: nat)
    requires ListIn(big, size) && forall y :: y in small ==> y in big
    ensures ListIn(small, size)
  {
    forall i | 0 <= i < |small|
      ensures small[i] < size
    {
      assert small[i] in small;
      var j :| 0 <= j < |big| && big[j] == small[i];
    }
  }

  /** Removing an element keeps every other element and holds nothing new. */
  lemma RemoveFirstMembers(list: seq<nat>, x: nat)
    ensures forall y :: y in RemoveFirst(list, x) ==> y in list
    ensures forall y :: y in list && y != x ==> y in RemoveFirst(list, x)
  {
    var r := RemoveFirst(list, x);
    forall y
      ensures (y in r ==> y in list) && (y in list && y != x ==> y in r)
    {
      assert multiset(r)[y] == if y == x then multiset(list)[y] - (if multiset(list)[y] > 0 then 1 else 0)
                               else multiset(list)[y];
    }
  }

  /** A planar edge connected to some edge of a list is connected to some edge of any list that holds all of it. */
  lemma ConnectedToMore(pe: PlanarEdge, x: nat, small: seq<nat>, big: seq<nat>)
    requires forall y :: y in small ==> y in big
    ensures ConnectedToAny(pe, x, small) ==> ConnectedToAny(pe, x, big)
  {
    if ConnectedToAny(pe, x, small) {
      var j :| 0 <= j < |small| && IsConnectedTo(pe, x, small[j]);
      assert small[j] in small;
      var i :| 0 <= i < |big| && big[i] == small[j];
    }
  }

  /** Some one of the first `n` steps of the pruning loop looked at `y`. */
  predicate Looked(inter: seq<nat>, n: nat, y: nat)
    requires n <= |inter|
  {
    exists j :: 0 <= j < n && inter[j] == y
  }

  /** The first `n` steps looked at `y` when the first `n - 1` did or the last one does. */
  lemma LookedStep(inter: seq<nat>, n: nat, y: nat)
    requires 0 < n <= |inter|
    ensures Looked(inter, n, y) <==> Looked(inter, n - 1, y) || inter[n - 1] == y
  {
    if Looked(inter, n - 1, y) {
      var j :| 0 <= j < n - 1 && inter[j] == y;
      assert 0 <= j < n && inter[j] == y;
    }
  }

  /**
   * What the pruning loop keeps after `n` steps: only elements of the list;
   * every element no step looked at; and an element that is gone was looked
   * at and is connected to no element left.
   */
  predicate PrunedGood(edges: seq<PlanarEdge>, list: seq<nat>, inter: seq<nat>, n: nat, r: seq<nat>)
    requires n <= |inter|
  {
    (forall y :: y in r ==> y in list) &&
    (forall y :: y in list && !Looked(inter, n, y) ==> y in r) &&
    (forall y :: y in list && y !in r ==> Looked(inter, n, y) && y < |edges| && !ConnectedToAny(edges[y], y, r))
  }

  /** The pruning loop keeps nothing that was not in the list. */
  lemma {:induction false} PrunedSub(edges: seq<PlanarEdge>, list: seq<nat>, inter: seq<nat>, n: nat)
    requires n <= |inter| && ListIn(inter, |edges|)
    ensures forall y :: y in PrunedUpTo(edges, list, inter, n) ==> y in list
    decreases n
  {
    if n == 0 {
      assert PrunedUpTo(edges, list, inter, 0) == list;
    } else {
      PrunedSub(edges, list, inter, n - 1);
      var cur := PrunedUpTo(edges, list, inter, n - 1);
      assert PrunedUpTo(edges, list, inter, n) == PruneOne(edges, cur, inter[n - 1]);
    }
  }

  /** The pruning loop keeps every element of the list that no step looked at. */
  lemma {:induction false} PrunedKeeps(edges: seq<PlanarEdge>, list: seq<nat>, inter: seq<nat>, n: nat)
    requires n <= |inter| && ListIn(inter, |edges|)
    ensures forall y :: y in list && !Looked(inter, n, y) ==> y in PrunedUpTo(edges, list, inter, n)
    decreases n
  {
    if n == 0 {
      assert PrunedUpTo(edges, list, inter, 0) == list;
    } else {
      PrunedKeeps(edges, list, inter, n - 1);
      var cur := PrunedUpTo(edges, list, inter, n - 1);
      var edge := inter[n - 1];
      assert PrunedUpTo(edges, list, inter, n) == PruneOne(edges, cur, edge);
      forall y | y in list && !Looked(inter, n, y)
        ensures y in PruneOne(edges, cur, edge)
      {
        LookedStep(inter, n, y);
      }
    }
  }

  /** An element the pruning loop removed was looked at and is connected to no element left. */
  lemma {:induction false} PrunedGone(edges: seq<PlanarEdge>, list: seq<nat>, inter: seq<nat>, n: nat)
    requires n <= |inter| && ListIn(inter, |edges|)
    ensures var r := PrunedUpTo(edges, list, inter, n);
      forall y :: y in list && y !in r ==> Looked(inter, n, y) && y < |edges| && !ConnectedToAny(edges[y], y, r)
    decreases n
  {
    if n == 0 {
      assert PrunedUpTo(edges, list, inter, 0) == list;
    } else {
      PrunedGone(edges, list, inter, n - 1);
      var cur := PrunedUpTo(edges, list, inter, n - 1);
      var edge := inter[n - 1];
      var r := PruneOne(edges, cur, edge);
      assert PrunedUpTo(edges, list, inter, n) == r;
      forall y | y in list && y !in r
        ensures Looked(inter, n, y) && y < |edges| && !ConnectedToAny(edges[y], y, r)
      {
        LookedStep(inter, n, y);
        ConnectedToMore(edges[y], y, r, cur);
      }
    }
  }

  /**
   * The pruning loop only removes: it keeps nothing new, keeps every edge
   * no step looked at, and an edge that is gone was looked at and is
   * connected to no edge that stays.
   */
  lemma PrunedSpec(edges: seq<PlanarEdge>, list: seq<nat>, inter: seq<nat>, n: nat)
    requires n <= |inter| && ListIn(inter, |edges|)
    ensures PrunedGood(edges, list, inter, n, PrunedUpTo(edges, list, inter, n))
  {
    PrunedSub(edges, list, inter, n);
    PrunedKeeps(edges, list, inter, n);
    PrunedGone(edges, list, inter, n);
  }

  // ----------------------------------------------------------- projections at the vertex

  /** edgesConnectedToVertex.Select(x => ProjectTriangle(x, triangle, vertex)), each knowing its planar edge's position. */
  function Projections(edges: seq<PlanarEdge>, list: seq<nat>, tri: Triangle, vertex: Vector3, outlineThickness: real, k: Kernel)
    : (r: seq<ProjectedEdge>)
    requires ListIn(list, |edges|)
    ensures |r| == |list|
    ensures forall i :: 0 <= i < |list| ==> r[i] == ProjectTriangle(edges[list[i]], Some(list[i]), tri, vertex, outlineThickness, k)
  {
    if list == [] then []
    else
      assert list[0] in list && forall y :: y in list[1..] ==> y in list;
      [ProjectTriangle(edges[list[0]], Some(list[0]), tri, vertex, outlineThickness, k)]
        + Projections(edges, list[1..], tri, vertex, outlineThickness, k)
  }

  /** projections.RemoveAll(p => p.IsOutsideTriangle): the others, in order. */
  function DropOutside(ps: seq<ProjectedEdge>): (r: seq<ProjectedEdge>)
    ensures forall p :: p in r <==> p in ps && !p.isOutsideTriangle
  {
    if ps == [] then []
    else
      assert ps == [ps[0]] + ps[1..];
      (if ps[0].isOutsideTriangle then [] else [ps[0]]) + DropOutside(ps[1..])
  }

  /** projections.Count(p => p.IsDeadEnd). */
  function CountDeadEnds(ps: seq<ProjectedEdge>): nat {
    if ps == [] then 0
    else CountDeadEnds(ps[..|ps| - 1]) + (if ps[|ps| - 1].isDeadEnd then 1 else 0)
  }

  /** The key dead ends are ordered by: the distance from the vertex moved along the outline direction to the triangle's centre. */
  function DeadEndDistance(p: ProjectedEdge, vertex: Vector3, center: Vector3, k: Kernel): real {
    k.distance(k.add(vertex, p.planarEdge.outlineDirection), center)
  }

  /**
   * deadEnds.OrderBy(distance).First() among the first `n` projections: the
   * first dead end of smallest distance (OrderBy is stable).
   */
  function ClosestDeadEnd(ps: seq<ProjectedEdge>, vertex: Vector3, center: Vector3, k: Kernel, n: nat): (r: Option<nat>)
    requires n <= |ps|
    ensures r.Some? ==> r.value < n
  {
    if n == 0 then None
    else
      var best := ClosestDeadEnd(ps, vertex, center, k, n - 1);
      if !ps[n - 1].isDeadEnd then best
      else if best.None? then Some(n - 1)
      else if DeadEndDistance(ps[n - 1], vertex, center, k) < DeadEndDistance(ps[best.value], vertex, center, k) then Some(n - 1)
      else best
  }

  /**
   * The dead end kept is a dead end, none is closer, and every dead end
   * before it is farther; there is none exactly when no projection is a dead end.
   */
  lemma {:induction false} ClosestDeadEndSpec(ps: seq<ProjectedEdge>, vertex: Vector3, center: Vector3, k: Kernel, n: nat)
    requires n <= |ps|
    ensures var r := ClosestDeadEnd(ps, vertex, center, k, n);
      (r.None? <==> forall i :: 0 <= i < n ==> !ps[i].isDeadEnd) &&
      (r.Some? ==>
         ps[r.value].isDeadEnd &&
         (forall i :: 0 <= i < n && ps[i].isDeadEnd ==>
            DeadEndDistance(ps[r.value], vertex, center, k) <= DeadEndDistance(ps[i], vertex, center, k)) &&
         (forall i :: 0 <= i < r.value && ps[i].isDeadEnd ==>
            DeadEndDistance(ps[r.value], vertex, center, k) < DeadEndDistance(ps[i], vertex, center, k)))
    decreases n
  {
    if n > 0 {
      ClosestDeadEndSpec(ps, vertex, center, k, n - 1);
    }
  }

  /**
   * projections.RemoveAll(p => p.IsDeadEnd && p != projectionToKeep) over the
   * first `n` projections, the one kept given by its position.
   */
  function KeepOneDeadEnd(ps: seq<ProjectedEdge>, keep: nat, n: nat): (r: seq<ProjectedEdge>)
    requires n <= |ps|
  {
    if n == 0 then []
    else KeepOneDeadEnd(ps, keep, n - 1) + (if ps[n - 1].isDeadEnd && n - 1 != keep then [] else [ps[n - 1]])
  }

  /**
   * After the removal the only dead end left is the one kept; every other
   * projection stays, and nothing new appears.
   */
  lemma {:induction false} KeepOneDeadEndSpec(ps: seq<ProjectedEdge>, keep: nat, n: nat)
    requires n <= |ps|
    ensures var r := KeepOneDeadEnd(ps, keep, n);
      CountDeadEnds(r) == (if keep < n && ps[keep].isDeadEnd then 1 else 0) &&
      (forall p :: p in r ==> p in ps) &&
      (forall i :: 0 <= i < n && (!ps[i].isDeadEnd || i == keep) ==> ps[i] in r)
    decreases n
  {
    if n > 0 {
      KeepOneDeadEndSpec(ps, keep, n - 1);
      var before := KeepOneDeadEnd(ps, keep, n - 1);
      var r := KeepOneDeadEnd(ps, keep, n);
      if !(ps[n - 1].isDeadEnd && n - 1 != keep) {
        assert r == before + [ps[n - 1]] && r[..|r| - 1] == before;
        assert ps[n - 1] in ps;
      } else {
        assert r == before;
      }
    }
  }

  /**
   * The dead-end reduction: with two or more dead ends, all but the closest
   * one (the first of the closest ones) are removed.
   */
  function ReduceDeadEnds(ps: seq<ProjectedEdge>, vertex: Vector3, center: Vector3, k: Kernel): seq<ProjectedEdge> {
    if CountDeadEnds(ps) >= 2 then
      match ClosestDeadEnd(ps, vertex, center, k, |ps|)
      case Some(keep) => KeepOneDeadEnd(ps, keep, |ps|)
      case None => ps
    else ps
  }

  /** Some dead end is counted only when one of the projections is a dead end. */
  lemma {:induction false} CountedDeadEnd(ps: seq<ProjectedEdge>)
    ensures CountDeadEnds(ps) > 0 ==> exists i :: 0 <= i < |ps| && ps[i].isDeadEnd
    decreases |ps|
  {
    if ps != [] && CountDeadEnds(ps) > 0 {
      var init := ps[..|ps| - 1];
      CountedDeadEnd(init);
      if !ps[|ps| - 1].isDeadEnd {
        var i :| 0 <= i < |init| && init[i].isDeadEnd;
        assert ps[i] == init[i];
      }
    }
  }

  /**
   * At most one dead end survives the reduction. Projections that are not
   * dead ends all survive, nothing new appears, and when dead ends were
   * removed the survivor is at least as close as every dead end there was.
   */
  lemma ReduceDeadEndsSpec(ps: seq<ProjectedEdge>, vertex: Vector3, center: Vector3, k: Kernel)
    ensures var r := ReduceDeadEnds(ps, vertex, center, k);
      CountDeadEnds(r) <= 1 &&
      (forall p :: p in r ==> p in ps) &&
      (forall p :: p in ps && !p.isDeadEnd ==> p in r) &&
      (CountDeadEnds(ps) >= 2 ==>
         exists i :: 0 <= i < |ps| && ps[i] in r && ps[i].isDeadEnd &&
           forall j :: 0 <= j < |ps| && ps[j].isDeadEnd ==>
             DeadEndDistance(ps[i], vertex, center, k) <= DeadEndDistance(ps[j], vertex, center, k))
  {
    if CountDeadEnds(ps) >= 2 {
      CountedDeadEnd(ps);
      ClosestDeadEndSpec(ps, vertex, center, k, |ps|);
      var keep := ClosestDeadEnd(ps, vertex, center, k, |ps|).value;
      KeepOneDeadEndSpec(ps, keep, |ps|);
      var r := KeepOneDeadEnd(ps, keep, |ps|);
      forall p | p in ps && !p.isDeadEnd
        ensures p in r
      {
        var i :| 0 <= i < |ps| && ps[i] == p;
      }
    }
  }

  /**
   * The projections an outline may be drawn from at the vertex: the
   * surviving planar edges through it, pruned when used in an intersection,
   * projected, the outside ones removed, and the dead ends reduced to one.
   */
  function Candidates(ps: PlanarSet, tri: Triangle, vertex: Vector3, outlineThickness: real, k: Kernel): seq<ProjectedEdge>
    requires ListIn(ps.alive, |ps.edges|)
  {
    var touching := Touching(ps.edges, ps.alive, vertex);
    var inter := UsedInIntersection(ps.edges, touching);
    var pruned := PrunedUpTo(ps.edges, touching, inter, |inter|);
    var projections := DropOutside(Projections(ps.edges, pruned, tri, vertex, outlineThickness, k));
    ReduceDeadEnds(projections, vertex, tri.center, k)
  }

  /**
   * The candidates at a vertex: none is outside the triangle and at most one
   * is a dead end; each is the fresh projection, without a partner, of a
   * surviving planar edge through the vertex; and every surviving planar
   * edge through the vertex that is not used in an intersection, whose
   * projection is neither outside nor a dead end, is among them.
   */
  lemma CandidatesSpec(ps: PlanarSet, tri: Triangle, vertex: Vector3, outlineThickness: real, k: Kernel)
    requires ListIn(ps.alive, |ps.edges|)
    ensures var c := Candidates(ps, tri, vertex, outlineThickness, k);
      CountDeadEnds(c) <= 1 &&
      (forall p :: p in c ==>
         !p.isOutsideTriangle && p.combineWith.None? && p.origin.Some? && p.origin.value in ps.alive &&
         Contains(ps.edges[p.origin.value], vertex) &&
         p == ProjectTriangle(ps.edges[p.origin.value], p.origin, tri, vertex, outlineThickness, k)) &&
      (forall x :: x in ps.alive && Contains(ps.edges[x], vertex) && !IsUsedInIntersection(ps.edges[x]) ==>
         var p := ProjectTriangle(ps.edges[x], Some(x), tri, vertex, outlineThickness, k);
         !p.isOutsideTriangle && !p.isDeadEnd ==> p in c)
  {
    var touching := Touching(ps.edges, ps.alive, vertex);
    var inter := UsedInIntersection(ps.edges, touching);
    var pruned := PrunedUpTo(ps.edges, touching, inter, |inter|);
    var all := Projections(ps.edges, pruned, tri, vertex, outlineThickness, k);
    var projections := DropOutside(all);
    ReduceDeadEndsSpec(projections, vertex, tri.center, k);
    PrunedSpec(ps.edges, touching, inter, |inter|);
    var c := Candidates(ps, tri, vertex, outlineThickness, k);
    forall p | p in c
      ensures p.origin.Some? && p.origin.value in ps.alive && Contains(ps.edges[p.origin.value], vertex) &&
              p == ProjectTriangle(ps.edges[p.origin.value], p.origin, tri, vertex, outlineThickness, k)
    {
      var i :| 0 <= i < |all| && all[i] == p;
      assert pruned[i] in pruned;
    }
    forall x | x in ps.alive && Contains(ps.edges[x], vertex) && !IsUsedInIntersection(ps.edges[x])
      ensures var p := ProjectTriangle(ps.edges[x], Some(x), tri, vertex, outlineThickness, k);
        !p.isOutsideTriangle && !p.isDeadEnd ==> p in c
    {
      forall j | 0 <= j < |inter| ensures inter[j] != x { assert inter[j] in inter; }
      assert !Looked(inter, |inter|, x);
      assert x in pruned;
      var i :| 0 <= i < |pruned| && pruned[i] == x;
      assert all[i] in all;
    }
  }

  // ----------------------------------------------------------- the outlines at the vertex

  /**
   * Whether two projections must be intersected: by the obtuse flag of the
   * pair that links their planar edges, or, when none links them, by
   * whether the angle between the planar edges reaches fPI.
   */
  predicate MustIntersect(pr1: ProjectedEdge, pr2: ProjectedEdge, k: Kernel) {
    var edgeLinkInfo := if pr2.origin.Some? then GetConnectionInfo(pr1.planarEdge, pr2.origin.value) else None;
    if edgeLinkInfo.Some? then IsObtuse(edgeLinkInfo.value)
    else CalculateAngleBetween(pr1.planarEdge, pr2.planarEdge, k) >= FPi
  }

  /**
   * The outlines the candidates at the vertex add to the projection arena,
   * whose next free position is `base`: with two candidates, the first alone
   * when their planar edges are colinear and neither is clipped, otherwise
   * both as each other's partner, both clipped when they must intersect;
   * with one candidate, it and, when it is clipped, its clipping partner;
   * with none or more than two, nothing.
   */
  function Emission(cands: seq<ProjectedEdge>, base: nat, vertex: Vector3, facePlane: Plane, outlineThickness: real, k: Kernel)
    : seq<ProjectedEdge>
  {
    if |cands| == 2 then
      var projection1, projection2 := cands[0], cands[1];
      if Colinear(projection1.planarEdge, projection2.planarEdge, k) &&
         !(projection1.needsToBeClipped || projection2.needsToBeClipped) then
        [projection1]
      else
        var mustIntersect := MustIntersect(projection1, projection2, k);
        [projection1.(needsToBeClipped := projection1.needsToBeClipped || mustIntersect, combineWith := Some(base + 1)),
         projection2.(needsToBeClipped := projection2.needsToBeClipped || mustIntersect, combineWith := Some(base))]
    else if |cands| == 1 then
      if cands[0].needsToBeClipped then
        var pair := CreateClippingEdge(cands[0], base, vertex, facePlane, outlineThickness, k);
        [pair.0, pair.1]
      else [cands[0]]
    else []
  }

  /**
   * What a vertex emits, by the number of candidates: one candidate is
   * emitted, followed by a clipping partner exactly when it needs clipping;
   * of two, exactly one is emitted when they are colinear and neither needs
   * clipping, and otherwise both, in order, each the other's partner and both
   * clipped when they must intersect; more than two (or none) emit nothing.
   */
  lemma EmissionSpec(cands: seq<ProjectedEdge>, base: nat, vertex: Vector3, facePlane: Plane, outlineThickness: real, k: Kernel)
    ensures var r := Emission(cands, base, vertex, facePlane, outlineThickness, k);
      (|cands| != 1 && |cands| != 2 ==> r == []) &&
      (|cands| == 1 ==>
         |r| == (if cands[0].needsToBeClipped then 2 else 1) &&
         r[0] == cands[0].(combineWith := r[0].combineWith) &&
         (cands[0].needsToBeClipped ==> r[1].needsToBeClipped && r[1].isDeadEnd && r[1].origin.None?)) &&
      (|cands| == 2 ==>
         var single := Colinear(cands[0].planarEdge, cands[1].planarEdge, k) &&
                       !cands[0].needsToBeClipped && !cands[1].needsToBeClipped;
         (single ==> r == [cands[0]]) &&
         (!single ==>
            |r| == 2 &&
            r[0] == cands[0].(needsToBeClipped := r[0].needsToBeClipped, combineWith := Some(base + 1)) &&
            r[1] == cands[1].(needsToBeClipped := r[1].needsToBeClipped, combineWith := Some(base)) &&
            (r[0].needsToBeClipped <==> cands[0].needsToBeClipped || MustIntersect(cands[0], cands[1], k)) &&
            (r[1].needsToBeClipped <==> cands[1].needsToBeClipped || MustIntersect(cands[0], cands[1], k))))
  {
    if |cands| == 1 && cands[0].needsToBeClipped {
      ClippingEdgeSpec(cands[0], base, vertex, facePlane, outlineThickness, k);
    }
  }

  /**
   * The outlines of a vertex pair up among themselves: a partner is another
   * outline of the same vertex whose partner is the first one, provided the
   * candidates had no partners yet.
   */
  lemma EmissionPaired(cands: seq<ProjectedEdge>, base: nat, vertex: Vector3, facePlane: Plane, outlineThickness: real, k: Kernel)
    requires forall p :: p in cands ==> p.combineWith.None?
    ensures var r := Emission(cands, base, vertex, facePlane, outlineThickness, k);
      |r| <= 2 && BlockPaired(r, base)
  {
    if |cands| == 2 {
      assert cands[0] in cands;
    } else if |cands| == 1 {
      assert cands[0] in cands;
    }
  }

  /**
   * The outlines of one vertex, placed at position `base` of the arena: each
   * partner is another of them whose partner is the first one.
   */
  predicate BlockPaired(block: seq<ProjectedEdge>, base: nat) {
    forall i :: 0 <= i < |block| && block[i].combineWith.Some? ==>
      var c := block[i].combineWith.value;
      base <= c < base + |block| && c != base + i && block[c - base].combineWith == Some(base + i)
  }

  /** Each partner is another element of the arena whose partner is the first one. */
  predicate MutuallyCombined(arena: seq<ProjectedEdge>) {
    forall i :: 0 <= i < |arena| && arena[i].combineWith.Some? ==>
      arena[i].combineWith.value < |arena| && arena[i].combineWith.value != i &&
      arena[arena[i].combineWith.value].combineWith == Some(i)
  }

  /** The projection arena of a triangle after its first `n` vertices. */
  function EmittedUpTo(ps: PlanarSet, tri: Triangle, n: nat, outlineThickness: real, k: Kernel): seq<ProjectedEdge>
    requires n <= 3 && ListIn(ps.alive, |ps.edges|)
  {
    if n == 0 then []
    else
      var before := EmittedUpTo(ps, tri, n - 1, outlineThickness, k);
      var vertex := tri.Vertices()[n - 1].position;
      before + Emission(Candidates(ps, tri, vertex, outlineThickness, k), |before|, vertex, FacePlane(tri), outlineThickness, k)
  }

  /** Appending a vertex's outlines, paired among themselves, to a paired arena leaves it paired. */
  lemma AppendPaired(before: seq<ProjectedEdge>, block: seq<ProjectedEdge>)
    requires MutuallyCombined(before) && BlockPaired(block, |before|)
    ensures MutuallyCombined(before + block)
  {
    var r := before + block;
    forall i | 0 <= i < |r| && r[i].combineWith.Some?
      ensures r[i].combineWith.value < |r| && r[i].combineWith.value != i && r[r[i].combineWith.value].combineWith == Some(i)
    {
      if i >= |before| {
        assert r[i] == block[i - |before|];
      }
    }
  }

  /** No candidate has a partner yet. */
  lemma CandidatesUnpaired(ps: PlanarSet, tri: Triangle, vertex: Vector3, outlineThickness: real, k: Kernel)
    requires ListIn(ps.alive, |ps.edges|)
    ensures forall p :: p in Candidates(ps, tri, vertex, outlineThickness, k) ==> p.combineWith.None?
  {
    var touching := Touching(ps.edges, ps.alive, vertex);
    var inter := UsedInIntersection(ps.edges, touching);
    var pruned := PrunedUpTo(ps.edges, touching, inter, |inter|);
    var all := Projections(ps.edges, pruned, tri, vertex, outlineThickness, k);
    ReduceDeadEndsSpec(DropOutside(all), vertex, tri.center, k);
    forall p | p in all
      ensures p.combineWith.None?
    {
      var i :| 0 <= i < |all| && all[i] == p;
    }
  }

  /** The outlines of one vertex, emitted from candidates without partners, keep a paired arena paired. */
  lemma VertexPaired(cands: seq<ProjectedEdge>, vertex: Vector3, facePlane: Plane, before: seq<ProjectedEdge>, outlineThickness: real, k: Kernel)
    requires MutuallyCombined(before) && forall p :: p in cands ==> p.combineWith.None?
    ensures var block := Emission(cands, |before|, vertex, facePlane, outlineThickness, k);
      MutuallyCombined(before + block) && |block| <= 2
  {
    EmissionPaired(cands, |before|, vertex, facePlane, outlineThickness, k);
    AppendPaired(before, Emission(cands, |before|, vertex, facePlane, outlineThickness, k));
  }

  /** The triangle's projection arena pairs up: every partner is mutual, and no vertex adds more than two outlines. */
  lemma {:induction false} EmittedPaired(ps: PlanarSet, tri: Triangle, n: nat, outlineThickness: real, k: Kernel)
    requires n <= 3 && ListIn(ps.alive, |ps.edges|)
    ensures MutuallyCombined(EmittedUpTo(ps, tri, n, outlineThickness, k))
    ensures |EmittedUpTo(ps, tri, n, outlineThickness, k)| <= 2 * n
    decreases n
  {
    if n == 0 {
      assert EmittedUpTo(ps, tri, 0, outlineThickness, k) == [];
    } else {
      EmittedPaired(ps, tri, n - 1, outlineThickness, k);
      var vertex := tri.Vertices()[n - 1].position;
      CandidatesUnpaired(ps, tri, vertex, outlineThickness, k);
      VertexPaired(Candidates(ps, tri, vertex, outlineThickness, k), vertex, FacePlane(tri), EmittedUpTo(ps, tri, n - 1, outlineThickness, k), outlineThickness, k);
    }
  }

  // ----------------------------------------------------------- the per-vertex method

  /**
   * The planar edges through the vertex, less those used in an intersection
   * that are connected to none of them (checked one after the other, against
   * the list as it is at that point).
   */
  method PruneAtVertex(ps: PlanarSet, position: Vector3) returns (edgesConnectedToVertex: seq<nat>)
    requires ListIn(ps.alive, |ps.edges|)
    ensures var touching := Touching(ps.edges, ps.alive, position);
      edgesConnectedToVertex == PrunedUpTo(ps.edges, touching, UsedInIntersection(ps.edges, touching), |UsedInIntersection(ps.edges, touching)|)
  {
    edgesConnectedToVertex := Touching(ps.edges, ps.alive, position);
    var interEdges := UsedInIntersection(ps.edges, edgesConnectedToVertex);
    UsedInIntersectionNone(ps.edges, edgesConnectedToVertex);
    if exists j :: 0 <= j < |edgesConnectedToVertex| && IsUsedInIntersection(ps.edges[edgesConnectedToVertex[j]]) {
      for n := 0 to |interEdges|
        invariant edgesConnectedToVertex == PrunedUpTo(ps.edges, Touching(ps.edges, ps.alive, position), interEdges, n)
      {
        var edge := interEdges[n];
        if !ConnectedToAny(ps.edges[edge], edge, edgesConnectedToVertex) {
          edgesConnectedToVertex := RemoveFirst(edgesConnectedToVertex, edge);
        }
      }
    }
  }

  /** The first part of GenerateOutlines' vertex loop: the candidates at the vertex. */
  method CandidatesAt(ps: PlanarSet, triangle: Triangle, vert: Vertex, outlineThickness: real, k: Kernel)
    returns (projections: seq<ProjectedEdge>)
    requires ListIn(ps.alive, |ps.edges|)
    ensures projections == Candidates(ps, triangle, vert.position, outlineThickness, k)
  {
    var edgesConnectedToVertex := PruneAtVertex(ps, vert.position);
    projections := Projections(ps.edges, edgesConnectedToVertex, triangle, vert.position, outlineThickness, k);
    projections := DropOutside(projections);
    projections := ReduceDeadEnds(projections, vert.position, triangle.center, k);
  }

  /**
   * The second part of GenerateOutlines' vertex loop: the outlines the
   * candidates add to the projection arena whose next free position is `base`.
   */
  method EmitAtVertex(projections: seq<ProjectedEdge>, vert: Vertex, base: nat, facePlane: Plane, outlineThickness: real, k: Kernel)
    returns (emitted: seq<ProjectedEdge>)
    ensures emitted == Emission(projections, base, vert.position, facePlane, outlineThickness, k)
  {
    emitted := [];
    if |projections| == 2 {
      var edge1 := projections[0].planarEdge;
      var edge2 := projections[1].planarEdge;
      var projection1 := projections[0];
      var projection2 := projections[1];
      if Colinear(edge1, edge2, k) && !(projection1.needsToBeClipped || projection2.needsToBeClipped) {
        emitted := emitted + [projection1];
      } else {
        var mustIntersect := false;
        var edgeLinkInfo := if projection2.origin.Some? then GetConnectionInfo(edge1, projection2.origin.value) else None;
        if edgeLinkInfo.Some? {
          mustIntersect := IsObtuse(edgeLinkInfo.value);
        } else {
          var angleBetweenEdges := CalculateAngleBetween(edge1, edge2, k);
          mustIntersect := angleBetweenEdges >= FPi;
        }
        if mustIntersect {
          projection1 := projection1.(needsToBeClipped := true);
          projection2 := projection2.(needsToBeClipped := true);
        }
        projection1 := projection1.(combineWith := Some(base + 1));
        projection2 := projection2.(combineWith := Some(base));
        emitted := emitted + [projection1];
        emitted := emitted + [projection2];
      }
    } else if |projections| == 1 {
      var projection := projections[0];
      emitted := emitted + [projection];
      if projection.needsToBeClipped {
        var pair := CreateClippingEdge(projection, base, vert.position, facePlane, outlineThickness, k);
        emitted := emitted[0 := pair.0] + [pair.1];
      }
    }
  }

  /**
   * The body of GenerateOutlines' vertex loop: the outlines the vertex adds
   * to the projection arena whose next free position is `base`.
   */
  method ResolveVertex(ps: PlanarSet, triangle: Triangle, vert: Vertex, base: nat, facePlane: Plane, outlineThickness: real, k: Kernel)
    returns (emitted: seq<ProjectedEdge>)
    requires ListIn(ps.alive, |ps.edges|)
    ensures emitted == Emission(Candidates(ps, triangle, vert.position, outlineThickness, k), base, vert.position, facePlane, outlineThickness, k)
  {
    var projections := CandidatesAt(ps, triangle, vert, outlineThickness, k);
    emitted := EmitAtVertex(projections, vert, base, facePlane, outlineThickness, k);
  }
}
