/**
 * The HardEdgeDictionary of OutlinesGenerator.cs: the hard edges of a mesh,
 * indexed by their rounded end points, and linked into chains by giving each
 * edge the best neighbour that shares its P1 (PrevEdge) and its P2 (NextEdge).
 * Hard edges live in an arena `hardEdges`; links and index entries are
 * positions in it.
 */
module HardEdgeIndex {
  import opened Wrappers
  import opened Geometry
  import opened HardEdges

  /** The largest outline-direction angle GetBySharedVertex accepts: fPI * 0.85. */
  const OutlineAngleLimit: real := FPi * 0.85

  // ------------------------------------------------------------------ indexing

  /** InnerDict[key].Add(h), creating the list when the key is new. */
  function AddTo(m: map<Vector3, seq<nat>>, key: Vector3, h: nat): map<Vector3, seq<nat>> {
    m[key := (if key in m then m[key] else []) + [h]]
  }

  /** InnerDict after the first `n` hard edges: each under its rounded P1, then its rounded P2. */
  function IndexOf(hs: seq<HardEdge>, n: nat, k: Kernel): map<Vector3, seq<nat>>
    requires n <= |hs|
  {
    if n == 0 then map[]
    else AddTo(AddTo(IndexOf(hs, n - 1, k), k.rounded(hs[n - 1].p1), n - 1), k.rounded(hs[n - 1].p2), n - 1)
  }

  /**
   * The hard edges at rounded position `v` among the first `n`, each listed
   * once per end point that rounds to `v`, in arena order.
   */
  function EdgesAt(hs: seq<HardEdge>, n: nat, v: Vector3, k: Kernel): seq<nat>
    requires n <= |hs|
  {
    if n == 0 then []
    else
      EdgesAt(hs, n - 1, v, k)
      + (if k.rounded(hs[n - 1].p1) == v then [n - 1] else [])
      + (if k.rounded(hs[n - 1].p2) == v then [n - 1] else [])
  }

  /**
   * The index holds a position exactly when some hard edge has an end point
   * rounding to it, and then lists exactly the edges at that position.
   */
  lemma {:induction false} IndexExactly(hs: seq<HardEdge>, n: nat, v: Vector3, k: Kernel)
    requires n <= |hs|
    ensures v in IndexOf(hs, n, k) <==> EdgesAt(hs, n, v, k) != []
    ensures v in IndexOf(hs, n, k) ==> IndexOf(hs, n, k)[v] == EdgesAt(hs, n, v, k)
    decreases n
  {
    if n > 0 {
      IndexExactly(hs, n - 1, v, k);
    }
  }

  /** Every listed edge is one of the first `n`. */
  lemma {:induction false} EdgesAtInRange(hs: seq<HardEdge>, n: nat, v: Vector3, k: Kernel)
    requires n <= |hs|
    ensures forall j :: 0 <= j < |EdgesAt(hs, n, v, k)| ==> EdgesAt(hs, n, v, k)[j] < n
    decreases n
  {
    if n > 0 {
      EdgesAtInRange(hs, n - 1, v, k);
    }
  }

  /** Every edge of the index is a position of the arena. */
  predicate IndexInRange(m: map<Vector3, seq<nat>>, size: nat) {
    forall v, j :: v in m && 0 <= j < |m[v]| ==> m[v][j] < size
  }

  lemma IndexOfInRange(hs: seq<HardEdge>, k: Kernel)
    ensures IndexInRange(IndexOf(hs, |hs|, k), |hs|)
  {
    forall v, j | v in IndexOf(hs, |hs|, k) && 0 <= j < |IndexOf(hs, |hs|, k)[v]|
      ensures IndexOf(hs, |hs|, k)[v][j] < |hs|
    {
      IndexExactly(hs, |hs|, v, k);
      EdgesAtInRange(hs, |hs|, v, k);
    }
  }

  // ------------------------------------------------------- GetBySharedVertex

  /** The two angles GetBySharedVertex sorts by: face normals first, outline directions second. */
  datatype Score = Score(faceAngle: real, outlineAngle: real)

  function ScoreOf(x: HardEdge, edge: HardEdge, k: Kernel): Score {
    Score(k.angleBetween(x.faceNormal, edge.faceNormal), k.angleBetween(x.outlineDirection, edge.outlineDirection))
  }

  /** `a` sorts strictly before `b` under OrderBy(faceAngle).ThenBy(outlineAngle). */
  predicate Before(a: Score, b: Score) {
    a.faceAngle < b.faceAngle || (a.faceAngle == b.faceAngle && a.outlineAngle < b.outlineAngle)
  }

  /**
   * The Where filter: `x != edge` (the overloaded, value-comparing operator),
   * a face-normal angle within the break angle and an outline angle within 0.85 pi.
   */
  predicate Qualifies(x: HardEdge, edge: HardEdge, breakAngleRad: real, k: Kernel) {
    !HardEdgeEquals(x, edge)
    && k.angleBetween(x.faceNormal, edge.faceNormal) <= breakAngleRad
    && k.angleBetween(x.outlineDirection, edge.outlineDirection) <= OutlineAngleLimit
  }

  /**
   * nearEdges.First(): the position in `cands` of the first qualifying
   * candidate that no qualifying candidate sorts strictly before (the sort is stable).
   */
  function BestPosition(hs: seq<HardEdge>, cands: seq<nat>, edge: HardEdge, breakAngleRad: real, k: Kernel): (r: Option<nat>)
    requires forall j :: 0 <= j < |cands| ==> cands[j] < |hs|
    ensures r.Some? ==> r.value < |cands|
  {
    if cands == [] then None
    else
      var best := BestPosition(hs, cands[..|cands| - 1], edge, breakAngleRad, k);
      var x := hs[cands[|cands| - 1]];
      if Qualifies(x, edge, breakAngleRad, k)
         && (best.None? || Before(ScoreOf(x, edge, k), ScoreOf(hs[cands[best.value]], edge, k)))
      then Some(|cands| - 1)
      else best
  }

  /**
   * What OrderBy/ThenBy/First promise: the chosen candidate qualifies, no
   * qualifying candidate sorts before it, every earlier qualifying candidate
   * sorts after it, and there is no choice exactly when nothing qualifies.
   */
  lemma {:induction false} BestPositionSpec(hs: seq<HardEdge>, cands: seq<nat>, edge: HardEdge, breakAngleRad: real, k: Kernel)
    requires forall j :: 0 <= j < |cands| ==> cands[j] < |hs|
    ensures var r := BestPosition(hs, cands, edge, breakAngleRad, k);
      (r.None? <==> forall j :: 0 <= j < |cands| ==> !Qualifies(hs[cands[j]], edge, breakAngleRad, k)) &&
      (r.Some? ==>
        r.value < |cands| && Qualifies(hs[cands[r.value]], edge, breakAngleRad, k) &&
        (forall j :: 0 <= j < |cands| && Qualifies(hs[cands[j]], edge, breakAngleRad, k) ==>
           !Before(ScoreOf(hs[cands[j]], edge, k), ScoreOf(hs[cands[r.value]], edge, k))) &&
        (forall j :: 0 <= j < r.value && Qualifies(hs[cands[j]], edge, breakAngleRad, k) ==>
           Before(ScoreOf(hs[cands[r.value]], edge, k), ScoreOf(hs[cands[j]], edge, k))))
    decreases |cands|
  {
    if cands != [] {
      var init := cands[..|cands| - 1];
      assert forall j :: 0 <= j < |init| ==> init[j] == cands[j];
      BestPositionSpec(hs, init, edge, breakAngleRad, k);
    }
  }

  /**
   * GetBySharedVertex(edge, vertex): the best qualifying hard edge listed
   * under `vertex` (looked up as given, not rounded), or none.
   */
  function SharedVertexMatch(hs: seq<HardEdge>, dict: map<Vector3, seq<nat>>, edge: HardEdge, vertex: Vector3, breakAngleRad: real, k: Kernel): (r: Option<nat>)
    requires IndexInRange(dict, |hs|)
    ensures r.Some? ==> r.value < |hs|
  {
    if vertex in dict then
      match BestPosition(hs, dict[vertex], edge, breakAngleRad, k)
      case None => None
      case Some(p) =>
        BestPositionSpec(hs, dict[vertex], edge, breakAngleRad, k);
        Some(dict[vertex][p])
    else None
  }

  /**
   * GetBySharedVertex never returns the queried edge (nor any edge equal to
   * it), returns only a qualifying edge listed under the vertex with the least
   * face-normal angle and, among those, the least outline angle, and returns
   * nothing exactly when no listed edge qualifies.
   */
  lemma SharedVertexMatchSpec(hs: seq<HardEdge>, dict: map<Vector3, seq<nat>>, edge: HardEdge, vertex: Vector3, breakAngleRad: real, k: Kernel)
    requires IndexInRange(dict, |hs|)
    ensures var r := SharedVertexMatch(hs, dict, edge, vertex, breakAngleRad, k);
      (r.None? <==> (vertex !in dict || forall j :: 0 <= j < |dict[vertex]| ==> !Qualifies(hs[dict[vertex][j]], edge, breakAngleRad, k))) &&
      (r.Some? ==>
        vertex in dict && r.value in dict[vertex] &&
        hs[r.value] != edge && !HardEdgeEquals(hs[r.value], edge) &&
        k.angleBetween(hs[r.value].faceNormal, edge.faceNormal) <= breakAngleRad &&
        k.angleBetween(hs[r.value].outlineDirection, edge.outlineDirection) <= OutlineAngleLimit &&
        (forall x :: x in dict[vertex] && Qualifies(hs[x], edge, breakAngleRad, k) ==>
           !Before(ScoreOf(hs[x], edge, k), ScoreOf(hs[r.value], edge, k))))
  {
    if vertex in dict {
      var cands := dict[vertex];
      BestPositionSpec(hs, cands, edge, breakAngleRad, k);
      HardEdgeEqualsProperties(edge, edge, None, None);
      var r := BestPosition(hs, cands, edge, breakAngleRad, k);
      if r.Some? {
        forall x | x in cands && Qualifies(hs[x], edge, breakAngleRad, k)
          ensures !Before(ScoreOf(hs[x], edge, k), ScoreOf(hs[cands[r.value]], edge, k))
        {
          var j :| 0 <= j < |cands| && cands[j] == x;
        }
      }
    }
  }

  /** The choice reads only geometry: relinking the arena does not change it. */
  lemma {:induction false} BestPositionIgnoresLinks(hs: seq<HardEdge>, hs': seq<HardEdge>, cands: seq<nat>, edge: HardEdge, breakAngleRad: real, k: Kernel)
    requires |hs| == |hs'| && forall j :: 0 <= j < |hs| ==> Unlinked(hs[j]) == Unlinked(hs'[j])
    requires forall j :: 0 <= j < |cands| ==> cands[j] < |hs|
    ensures BestPosition(hs, cands, edge, breakAngleRad, k) == BestPosition(hs', cands, edge, breakAngleRad, k)
    decreases |cands|
  {
    if cands != [] {
      var x := cands[|cands| - 1];
      assert Unlinked(hs[x]) == Unlinked(hs'[x]);
      HardEdgeEqualsProperties(hs[x], edge, None, None);
      HardEdgeEqualsProperties(hs'[x], edge, None, None);
      BestPositionIgnoresLinks(hs, hs', cands[..|cands| - 1], edge, breakAngleRad, k);
    }
  }

  /** A hard edge without its chain links. */
  function Unlinked(h: HardEdge): HardEdge {
    h.(prevEdge := None, nextEdge := None)
  }

  // -------------------------------------------------------------- LinkEdges

  /** Every chain link names a position of the arena. */
  predicate LinksInRange(hs: seq<HardEdge>) {
    forall j :: 0 <= j < |hs| ==>
      (hs[j].prevEdge.Some? ==> hs[j].prevEdge.value < |hs|) && (hs[j].nextEdge.Some? ==> hs[j].nextEdge.value < |hs|)
  }

  /** `edge.PrevEdge = c; c.NextEdge = edge`. */
  function LinkPrev(hs: seq<HardEdge>, i: nat, c: nat): (r: seq<HardEdge>)
    requires i < |hs| && c < |hs|
    ensures |r| == |hs|
  {
    var hs1 := hs[i := hs[i].(prevEdge := Some(c))];
    hs1[c := hs1[c].(nextEdge := Some(i))]
  }

  /** `edge.NextEdge = c; c.PrevEdge = edge`. */
  function LinkNext(hs: seq<HardEdge>, i: nat, c: nat): (r: seq<HardEdge>)
    requires i < |hs| && c < |hs|
    ensures |r| == |hs|
  {
    var hs1 := hs[i := hs[i].(nextEdge := Some(c))];
    hs1[c := hs1[c].(prevEdge := Some(i))]
  }

  /** The first half of one LinkEdges pass: link P1 when PrevEdge is still null. */
  function PrevStep(hs: seq<HardEdge>, i: nat, dict: map<Vector3, seq<nat>>, breakAngleRad: real, k: Kernel): (r: seq<HardEdge>)
    requires i < |hs| && IndexInRange(dict, |hs|)
    ensures |r| == |hs|
  {
    if hs[i].prevEdge.Some? then hs
    else
      match SharedVertexMatch(hs, dict, hs[i], hs[i].p1, breakAngleRad, k)
      case None => hs
      case Some(c) => LinkPrev(hs, i, c)
  }

  /** The second half: link P2 when NextEdge is still null (as it stands after the first half). */
  function NextStep(hs: seq<HardEdge>, i: nat, dict: map<Vector3, seq<nat>>, breakAngleRad: real, k: Kernel): (r: seq<HardEdge>)
    requires i < |hs| && IndexInRange(dict, |hs|)
    ensures |r| == |hs|
  {
    if hs[i].nextEdge.Some? then hs
    else
      match SharedVertexMatch(hs, dict, hs[i], hs[i].p2, breakAngleRad, k)
      case None => hs
      case Some(c) => LinkNext(hs, i, c)
  }

  /** The arena after the LinkEdges passes over the first `n` hard edges. */
  function LinkedUpTo(hs: seq<HardEdge>, n: nat, dict: map<Vector3, seq<nat>>, breakAngleRad: real, k: Kernel): (r: seq<HardEdge>)
    requires n <= |hs| && IndexInRange(dict, |hs|)
    ensures |r| == |hs|
  {
    if n == 0 then hs
    else
      LinkPass(LinkedUpTo(hs, n - 1, dict, breakAngleRad, k), n - 1, dict, breakAngleRad, k)
  }

  /**
   * One pass of the LinkEdges loop over edge `i`: PrevEdge at P1, then
   * NextEdge at P2. A pass keeps links in range and changes no geometry.
   */
  function LinkPass(hs: seq<HardEdge>, i: nat, dict: map<Vector3, seq<nat>>, breakAngleRad: real, k: Kernel): (r: seq<HardEdge>)
    requires i < |hs| && IndexInRange(dict, |hs|)
    ensures |r| == |hs|
    ensures LinksInRange(hs) ==> LinksInRange(r)
    ensures forall j :: 0 <= j < |hs| ==> Unlinked(r[j]) == Unlinked(hs[j])
  {
    LinkPassKeeps(hs, i, dict, breakAngleRad, k);
    NextStep(PrevStep(hs, i, dict, breakAngleRad, k), i, dict, breakAngleRad, k)
  }

  /**
   * LinkPrev never links an edge to itself: the match is never equal to the
   * queried edge. It sets exactly the two links and keeps all geometry.
   */
  lemma LinkPrevSpec(hs: seq<HardEdge>, i: nat, c: nat)
    requires i < |hs| && c < |hs| && i != c
    ensures var r := LinkPrev(hs, i, c);
      r[i].prevEdge == Some(c) && r[c].nextEdge == Some(i) &&
      r[i].nextEdge == hs[i].nextEdge && r[c].prevEdge == hs[c].prevEdge &&
      (forall j :: 0 <= j < |hs| && j != i && j != c ==> r[j] == hs[j]) &&
      (forall j :: 0 <= j < |hs| ==> Unlinked(r[j]) == Unlinked(hs[j]))
  {
  }

  lemma LinkNextSpec(hs: seq<HardEdge>, i: nat, c: nat)
    requires i < |hs| && c < |hs| && i != c
    ensures var r := LinkNext(hs, i, c);
      r[i].nextEdge == Some(c) && r[c].prevEdge == Some(i) &&
      r[i].prevEdge == hs[i].prevEdge && r[c].nextEdge == hs[c].nextEdge &&
      (forall j :: 0 <= j < |hs| && j != i && j != c ==> r[j] == hs[j]) &&
      (forall j :: 0 <= j < |hs| ==> Unlinked(r[j]) == Unlinked(hs[j]))
  {
  }

  /** A match is never the queried position itself. */
  lemma MatchIsAnotherEdge(hs: seq<HardEdge>, dict: map<Vector3, seq<nat>>, i: nat, vertex: Vector3, breakAngleRad: real, k: Kernel)
    requires i < |hs| && IndexInRange(dict, |hs|)
    ensures var r := SharedVertexMatch(hs, dict, hs[i], vertex, breakAngleRad, k);
      r.Some? ==> r.value != i
  {
    SharedVertexMatchSpec(hs, dict, hs[i], vertex, breakAngleRad, k);
  }

  /**
   * One pass of LinkEdges over edge `i`: a PrevEdge or NextEdge already set is
   * kept; a null one is set to the match at that end point when there is one,
   * and then the match links back (its NextEdge, respectively PrevEdge, is
   * overwritten to point at `i`). No other edge changes.
   */
  lemma LinkPassSpec(hs: seq<HardEdge>, i: nat, dict: map<Vector3, seq<nat>>, breakAngleRad: real, k: Kernel)
    requires i < |hs| && IndexInRange(dict, |hs|)
    ensures var mid := PrevStep(hs, i, dict, breakAngleRad, k);
      var r := LinkPass(hs, i, dict, breakAngleRad, k);
      var cp := SharedVertexMatch(hs, dict, hs[i], hs[i].p1, breakAngleRad, k);
      var cn := SharedVertexMatch(mid, dict, mid[i], mid[i].p2, breakAngleRad, k);
      (hs[i].prevEdge.Some? ==> r[i].prevEdge == hs[i].prevEdge) &&
      (hs[i].prevEdge.None? && cp.None? ==> r[i].prevEdge.None?) &&
      (hs[i].prevEdge.None? && cp.Some? ==> r[i].prevEdge == cp && mid[cp.value].nextEdge == Some(i)) &&
      (mid[i].nextEdge.Some? ==> r[i].nextEdge == mid[i].nextEdge) &&
      (mid[i].nextEdge.None? && cn.None? ==> r[i].nextEdge.None?) &&
      (mid[i].nextEdge.None? && cn.Some? ==> r[i].nextEdge == cn && r[cn.value].prevEdge == Some(i)) &&
      (forall j :: 0 <= j < |hs| && j != i && Some(j) != cp && Some(j) != cn ==> r[j] == hs[j])
  {
    var mid := PrevStep(hs, i, dict, breakAngleRad, k);
    MatchIsAnotherEdge(hs, dict, i, hs[i].p1, breakAngleRad, k);
    var cp := SharedVertexMatch(hs, dict, hs[i], hs[i].p1, breakAngleRad, k);
    if hs[i].prevEdge.None? && cp.Some? {
      LinkPrevSpec(hs, i, cp.value);
    }
    MatchIsAnotherEdge(mid, dict, i, mid[i].p2, breakAngleRad, k);
    var cn := SharedVertexMatch(mid, dict, mid[i], mid[i].p2, breakAngleRad, k);
    if mid[i].nextEdge.None? && cn.Some? {
      LinkNextSpec(mid, i, cn.value);
    }
  }

  /** Filling a PrevEdge keeps links in range and changes no geometry. */
  lemma PrevStepKeeps(hs: seq<HardEdge>, i: nat, dict: map<Vector3, seq<nat>>, breakAngleRad: real, k: Kernel)
    requires i < |hs| && IndexInRange(dict, |hs|)
    ensures var r := PrevStep(hs, i, dict, breakAngleRad, k);
      (LinksInRange(hs) ==> LinksInRange(r)) && forall j :: 0 <= j < |hs| ==> Unlinked(r[j]) == Unlinked(hs[j])
  {
    MatchIsAnotherEdge(hs, dict, i, hs[i].p1, breakAngleRad, k);
    var cp := SharedVertexMatch(hs, dict, hs[i], hs[i].p1, breakAngleRad, k);
    if hs[i].prevEdge.None? && cp.Some? {
      LinkPrevSpec(hs, i, cp.value);
    }
  }

  /** Filling a NextEdge keeps links in range and changes no geometry. */
  lemma NextStepKeeps(hs: seq<HardEdge>, i: nat, dict: map<Vector3, seq<nat>>, breakAngleRad: real, k: Kernel)
    requires i < |hs| && IndexInRange(dict, |hs|)
    ensures var r := NextStep(hs, i, dict, breakAngleRad, k);
      (LinksInRange(hs) ==> LinksInRange(r)) && forall j :: 0 <= j < |hs| ==> Unlinked(r[j]) == Unlinked(hs[j])
  {
    MatchIsAnotherEdge(hs, dict, i, hs[i].p2, breakAngleRad, k);
    var cn := SharedVertexMatch(hs, dict, hs[i], hs[i].p2, breakAngleRad, k);
    if hs[i].nextEdge.None? && cn.Some? {
      LinkNextSpec(hs, i, cn.value);
    }
  }

  /** One pass keeps links in range and changes no geometry. */
  lemma LinkPassKeeps(hs: seq<HardEdge>, i: nat, dict: map<Vector3, seq<nat>>, breakAngleRad: real, k: Kernel)
    requires i < |hs| && IndexInRange(dict, |hs|)
    ensures var r := NextStep(PrevStep(hs, i, dict, breakAngleRad, k), i, dict, breakAngleRad, k);
      (LinksInRange(hs) ==> LinksInRange(r)) && forall j :: 0 <= j < |hs| ==> Unlinked(r[j]) == Unlinked(hs[j])
  {
    var mid := PrevStep(hs, i, dict, breakAngleRad, k);
    PrevStepKeeps(hs, i, dict, breakAngleRad, k);
    NextStepKeeps(mid, i, dict, breakAngleRad, k);
    var r := NextStep(mid, i, dict, breakAngleRad, k);
    forall j | 0 <= j < |hs|
      ensures Unlinked(r[j]) == Unlinked(hs[j])
    {
      assert Unlinked(r[j]) == Unlinked(mid[j]);
    }
  }

  /** Freshly computed hard edges carry no links at all. */
  lemma NoLinksInRange(hs: seq<HardEdge>)
    requires FreshEdges(hs)
    ensures LinksInRange(hs)
  {
  }

  /**
   * Linking all edges keeps every edge's geometry and only ever produces links
   * to positions of the arena.
   */
  lemma {:induction false} LinkedUpToSpec(hs: seq<HardEdge>, n: nat, dict: map<Vector3, seq<nat>>, breakAngleRad: real, k: Kernel)
    requires n <= |hs| && IndexInRange(dict, |hs|) && LinksInRange(hs)
    ensures var r := LinkedUpTo(hs, n, dict, breakAngleRad, k);
      LinksInRange(r) && forall j :: 0 <= j < |hs| ==> Unlinked(r[j]) == Unlinked(hs[j])
    decreases n
  {
    if n == 0 {
      assert LinkedUpTo(hs, 0, dict, breakAngleRad, k) == hs;
    } else {
      var before := LinkedUpTo(hs, n - 1, dict, breakAngleRad, k);
      LinkedUpToSpec(hs, n - 1, dict, breakAngleRad, k);
      var r := LinkedUpTo(hs, n, dict, breakAngleRad, k);
      forall j | 0 <= j < |hs|
        ensures Unlinked(r[j]) == Unlinked(hs[j])
      {
        assert Unlinked(r[j]) == Unlinked(before[j]);
      }
    }
  }

  // ------------------------------------------------------ GetEdgesForTriangle

  /** closeEdges after the first `i` vertices: the index lists at their rounded positions. */
  function CloseEdges(dict: map<Vector3, seq<nat>>, tri: Triangle, i: nat, k: Kernel): seq<nat>
    requires i <= 3
  {
    if i == 0 then []
    else
      var pos := k.rounded(tri.Vertices()[i - 1].position);
      CloseEdges(dict, tri, i - 1, k) + (if pos in dict then dict[pos] else [])
  }

  /** HashSet<HardEdge> finds a stored edge with the same hash that Equals the new one. */
  predicate HashDuplicate(stored: HardEdge, x: HardEdge, k: Kernel) {
    HardEdgeHash(stored, k) == HardEdgeHash(x, k) && HardEdgeEquals(stored, x)
  }

  /** The default equality comparer of HardEdge, as the relation Distinct applies. */
  function DefaultComparer(k: Kernel): (HardEdge, HardEdge) -> bool {
    (stored: HardEdge, x: HardEdge) => HashDuplicate(stored, x, k)
  }

  /** Some edge already kept is a duplicate of `x` under `same`. */
  predicate AlreadyKept(hs: seq<HardEdge>, kept: seq<nat>, x: nat, same: (HardEdge, HardEdge) -> bool)
    requires x < |hs| && forall j :: 0 <= j < |kept| ==> kept[j] < |hs|
  {
    exists j :: 0 <= j < |kept| && same(hs[kept[j]], hs[x])
  }

  /** Enumerable.Distinct() under the comparer `same`: the first of each group of duplicates, in order. */
  function DistinctEdges(hs: seq<HardEdge>, xs: seq<nat>, same: (HardEdge, HardEdge) -> bool): (r: seq<nat>)
    requires forall j :: 0 <= j < |xs| ==> xs[j] < |hs|
    ensures forall j :: 0 <= j < |r| ==> r[j] < |hs|
  {
    if xs == [] then []
    else
      var kept := DistinctEdges(hs, xs[..|xs| - 1], same);
      var x := xs[|xs| - 1];
      if AlreadyKept(hs, kept, x, same) then kept else kept + [x]
  }

  /**
   * Distinct keeps only input edges, never a later edge that duplicates an
   * earlier kept one, and drops an edge only for an earlier kept duplicate.
   */
  lemma {:induction false} DistinctEdgesSpec(hs: seq<HardEdge>, xs: seq<nat>, same: (HardEdge, HardEdge) -> bool)
    requires forall j :: 0 <= j < |xs| ==> xs[j] < |hs|
    ensures var r := DistinctEdges(hs, xs, same);
      (forall x :: x in r ==> x in xs) &&
      (forall a, b :: 0 <= a < b < |r| ==> !same(hs[r[a]], hs[r[b]])) &&
      (forall x :: x in xs ==> x in r || exists j :: 0 <= j < |r| && same(hs[r[j]], hs[x]))
    decreases |xs|
  {
    if xs != [] {
      var init := xs[..|xs| - 1];
      assert forall j :: 0 <= j < |init| ==> init[j] == xs[j];
      DistinctEdgesSpec(hs, init, same);
      assert xs == init + [xs[|xs| - 1]];
      var kept := DistinctEdges(hs, init, same);
      var x := xs[|xs| - 1];
      var r := DistinctEdges(hs, xs, same);
      if AlreadyKept(hs, kept, x, same) {
        assert r == kept;
        var j :| 0 <= j < |kept| && same(hs[kept[j]], hs[x]);
        forall y | y in xs
          ensures y in r || exists j :: 0 <= j < |r| && same(hs[r[j]], hs[y])
        {
          if y !in init {
            assert y == x && same(hs[r[j]], hs[y]);
          }
        }
      } else {
        assert r == kept + [x];
        forall a, b | 0 <= a < b < |r|
          ensures !same(hs[r[a]], hs[r[b]])
        {
          if b == |kept| {
            assert r[a] == kept[a] && r[b] == x;
          } else {
            assert r[a] == kept[a] && r[b] == kept[b];
          }
        }
        forall y | y in xs
          ensures y in r || exists j :: 0 <= j < |r| && same(hs[r[j]], hs[y])
        {
          if y in init && y !in kept {
            var j :| 0 <= j < |kept| && same(hs[kept[j]], hs[y]);
            assert r[j] == kept[j];
          }
        }
      }
    }
  }

  /** The final Where: the edge normal within the break angle of the triangle's normal. */
  function FacingEdges(hs: seq<HardEdge>, xs: seq<nat>, tri: Triangle, breakAngleRad: real, k: Kernel): (r: seq<nat>)
    requires forall j :: 0 <= j < |xs| ==> xs[j] < |hs|
    ensures forall j :: 0 <= j < |r| ==> r[j] < |hs|
  {
    if xs == [] then []
    else
      var x := xs[|xs| - 1];
      FacingEdges(hs, xs[..|xs| - 1], tri, breakAngleRad, k)
      + (if k.angleBetween(tri.normal, hs[x].edgeNormal) <= breakAngleRad then [x] else [])
  }

  /** The Where filter keeps exactly the input edges whose edge normal faces the triangle. */
  lemma {:induction false} FacingEdgesSpec(hs: seq<HardEdge>, xs: seq<nat>, tri: Triangle, breakAngleRad: real, k: Kernel, x: nat)
    requires forall j :: 0 <= j < |xs| ==> xs[j] < |hs|
    ensures x in FacingEdges(hs, xs, tri, breakAngleRad, k) <==>
      x in xs && k.angleBetween(tri.normal, hs[x].edgeNormal) <= breakAngleRad
    decreases |xs|
  {
    if xs != [] {
      var init := xs[..|xs| - 1];
      assert xs == init + [xs[|xs| - 1]];
      FacingEdgesSpec(hs, init, tri, breakAngleRad, k, x);
    }
  }

  /** Each close edge of a triangle is listed under one of its rounded vertex positions. */
  lemma {:induction false} CloseEdgesSpec(dict: map<Vector3, seq<nat>>, tri: Triangle, i: nat, k: Kernel, x: nat)
    requires i <= 3
    ensures x in CloseEdges(dict, tri, i, k) <==>
      exists a :: 0 <= a < i && k.rounded(tri.Vertices()[a].position) in dict && x in dict[k.rounded(tri.Vertices()[a].position)]
    decreases i
  {
    if i > 0 {
      CloseEdgesSpec(dict, tri, i - 1, k, x);
    }
  }

  lemma CloseEdgesInRange(dict: map<Vector3, seq<nat>>, tri: Triangle, i: nat, size: nat, k: Kernel)
    requires i <= 3 && IndexInRange(dict, size)
    ensures forall j :: 0 <= j < |CloseEdges(dict, tri, i, k)| ==> CloseEdges(dict, tri, i, k)[j] < size
  {
    forall j | 0 <= j < |CloseEdges(dict, tri, i, k)|
      ensures CloseEdges(dict, tri, i, k)[j] < size
    {
      var x := CloseEdges(dict, tri, i, k)[j];
      CloseEdgesSpec(dict, tri, i, k, x);
    }
  }

  /** What GetEdgesForTriangle returns: the close edges, made distinct under `same`, that face the triangle. */
  function EdgesForTriangle(hs: seq<HardEdge>, dict: map<Vector3, seq<nat>>, tri: Triangle, breakAngleRad: real, k: Kernel, same: (HardEdge, HardEdge) -> bool): seq<nat>
    requires IndexInRange(dict, |hs|)
  {
    FacingEdges(hs, DistinctCloseEdges(hs, dict, tri, k, same), tri, breakAngleRad, k)
  }

  /** closeEdges.Distinct(): the close edges of the triangle without duplicates under `same`. */
  function DistinctCloseEdges(hs: seq<HardEdge>, dict: map<Vector3, seq<nat>>, tri: Triangle, k: Kernel, same: (HardEdge, HardEdge) -> bool): (r: seq<nat>)
    requires IndexInRange(dict, |hs|)
    ensures forall j :: 0 <= j < |r| ==> r[j] < |hs|
  {
    CloseEdgesInRange(dict, tri, 3, |hs|, k);
    DistinctEdges(hs, CloseEdges(dict, tri, 3, k), same)
  }

  /**
   * GetEdgesForTriangle returns only hard edges listed under a rounded vertex
   * position of the triangle whose edge normal is within the break angle of
   * the triangle's normal, and no two duplicates under the comparer (the
   * class applies the HardEdge default comparer).
   */
  lemma EdgesForTriangleSpec(hs: seq<HardEdge>, dict: map<Vector3, seq<nat>>, tri: Triangle, breakAngleRad: real, k: Kernel, same: (HardEdge, HardEdge) -> bool)
    requires IndexInRange(dict, |hs|)
    ensures var r := EdgesForTriangle(hs, dict, tri, breakAngleRad, k, same);
      (forall x :: x in r ==> (x < |hs| && k.angleBetween(tri.normal, hs[x].edgeNormal) <= breakAngleRad &&
         exists a :: 0 <= a < 3 && k.rounded(tri.Vertices()[a].position) in dict && x in dict[k.rounded(tri.Vertices()[a].position)])) &&
      (forall a, b :: 0 <= a < b < |r| ==> !same(hs[r[a]], hs[r[b]]))
  {
    var close := CloseEdges(dict, tri, 3, k);
    CloseEdgesInRange(dict, tri, 3, |hs|, k);
    var d := DistinctEdges(hs, close, same);
    DistinctEdgesSpec(hs, close, same);
    var r := FacingEdges(hs, d, tri, breakAngleRad, k);
    forall x | x in r
      ensures x < |hs| && k.angleBetween(tri.normal, hs[x].edgeNormal) <= breakAngleRad &&
        exists a :: 0 <= a < 3 && k.rounded(tri.Vertices()[a].position) in dict && x in dict[k.rounded(tri.Vertices()[a].position)]
    {
      FacingEdgesSpec(hs, d, tri, breakAngleRad, k, x);
      assert x in close;
      CloseEdgesSpec(dict, tri, 3, k, x);
    }
    FacingKeepsOrder(hs, d, tri, breakAngleRad, k, same);
    forall a, b | 0 <= a < b < |r|
      ensures !same(hs[r[a]], hs[r[b]])
    {
      assert 0 <= a < b < |FacingEdges(hs, d, tri, breakAngleRad, k)|;
    }
    assert r == EdgesForTriangle(hs, dict, tri, breakAngleRad, k, same);
  }

  /**
   * Nothing facing the triangle is lost: every edge listed under one of its
   * rounded vertex positions whose edge normal is within the break angle is
   * returned, unless Distinct dropped it for an earlier kept duplicate.
   */
  lemma EdgesForTriangleComplete(hs: seq<HardEdge>, dict: map<Vector3, seq<nat>>, tri: Triangle, breakAngleRad: real, k: Kernel, same: (HardEdge, HardEdge) -> bool, a: nat, x: nat)
    requires IndexInRange(dict, |hs|)
    requires a < 3 && k.rounded(tri.Vertices()[a].position) in dict && x in dict[k.rounded(tri.Vertices()[a].position)]
    requires x < |hs| && k.angleBetween(tri.normal, hs[x].edgeNormal) <= breakAngleRad
    ensures var d := DistinctCloseEdges(hs, dict, tri, k, same);
      x in EdgesForTriangle(hs, dict, tri, breakAngleRad, k, same) || exists j :: 0 <= j < |d| && same(hs[d[j]], hs[x])
  {
    var close := CloseEdges(dict, tri, 3, k);
    CloseEdgesInRange(dict, tri, 3, |hs|, k);
    CloseEdgesSpec(dict, tri, 3, k, x);
    var d := DistinctEdges(hs, close, same);
    DistinctEdgesSpec(hs, close, same);
    FacingEdgesSpec(hs, d, tri, breakAngleRad, k, x);
  }

  /** The Where filter keeps a subsequence, so no duplicates appear. */
  lemma {:induction false} FacingKeepsOrder(hs: seq<HardEdge>, xs: seq<nat>, tri: Triangle, breakAngleRad: real, k: Kernel, same: (HardEdge, HardEdge) -> bool)
    requires forall j :: 0 <= j < |xs| ==> xs[j] < |hs|
    requires forall a, b :: 0 <= a < b < |xs| ==> !same(hs[xs[a]], hs[xs[b]])
    ensures var r := FacingEdges(hs, xs, tri, breakAngleRad, k);
      forall a, b :: 0 <= a < b < |r| ==> !same(hs[r[a]], hs[r[b]])
    decreases |xs|
  {
    if xs != [] {
      var init := xs[..|xs| - 1];
      var x := xs[|xs| - 1];
      FacingKeepsOrder(hs, init, tri, breakAngleRad, k, same);
      var r0 := FacingEdges(hs, init, tri, breakAngleRad, k);
      forall a | 0 <= a < |r0|
        ensures !same(hs[r0[a]], hs[x])
      {
        FacingEdgesSpec(hs, init, tri, breakAngleRad, k, r0[a]);
        var i :| 0 <= i < |init| && init[i] == r0[a];
        assert xs[i] == r0[a];
      }
    }
  }

  // ------------------------------------------------------------- the class

  /** HardEdgeDictionary: the arena of hard edges, their position index and the break angle. */
  class HardEdgeDictionary {
    var hardEdges: seq<HardEdge>
    var innerDict: map<Vector3, seq<nat>>
    var breakAngle: real
    var breakAngleRad: real

    /** The index and the links only name positions of the arena. */
    ghost predicate Valid()
      reads this
    {
      IndexInRange(innerDict, |hardEdges|) && LinksInRange(hardEdges)
    }

    constructor()
      ensures hardEdges == [] && innerDict == map[] && Valid()
    {
      hardEdges := [];
      innerDict := map[];
      breakAngle := 0.0;
      breakAngleRad := 0.0;
    }

    /**
     * Initialize(triangles, breakAngle): computes the hard edges with the
     * break angle in radians, indexes them by rounded end points, and links them.
     */
    method Initialize(tris: seq<Triangle>, angle: real, k: Kernel)
      modifies this
      ensures breakAngle == angle && breakAngleRad == angle / 180.0 * FPi
      ensures Valid() && |hardEdges| == |HardEdgesOf(tris, breakAngleRad, k)|
      ensures innerDict == IndexOf(HardEdgesOf(tris, breakAngleRad, k), |hardEdges|, k)
      ensures hardEdges == LinkedUpTo(HardEdgesOf(tris, breakAngleRad, k), |hardEdges|, innerDict, breakAngleRad, k)
    {
      breakAngle := angle;
      breakAngleRad := angle / 180.0 * FPi;
      hardEdges := CalculateHardEdges(tris, breakAngleRad, k);
      IndexHardEdges(k);
      IndexOfInRange(hardEdges, k);
      HardEdgesWellFormed(tris, breakAngleRad, k);
      NoLinksInRange(hardEdges);
      LinkEdges(k);
    }

    /** The indexing loop of Initialize: a fresh InnerDict, each edge added under both rounded end points. */
    method IndexHardEdges(k: Kernel)
      modifies this
      ensures hardEdges == old(hardEdges) && breakAngle == old(breakAngle) && breakAngleRad == old(breakAngleRad)
      ensures innerDict == IndexOf(hardEdges, |hardEdges|, k)
    {
      var hs := hardEdges;
      var dict := map[];
      for i := 0 to |hs|
        invariant dict == IndexOf(hs, i, k)
      {
        var p1Round := k.rounded(hs[i].p1);
        dict := AddTo(dict, p1Round, i);
        var p2Round := k.rounded(hs[i].p2);
        dict := AddTo(dict, p2Round, i);
      }
      innerDict := dict;
    }

    /** LinkEdges(): one pass over the arena in order, filling null links at P1 and then at P2. */
    method LinkEdges(k: Kernel)
      modifies this
      requires Valid()
      ensures Valid()
      ensures innerDict == old(innerDict) && breakAngle == old(breakAngle) && breakAngleRad == old(breakAngleRad)
      ensures |hardEdges| == |old(hardEdges)|
      ensures hardEdges == LinkedUpTo(old(hardEdges), |hardEdges|, innerDict, breakAngleRad, k)
    {
      ghost var hs0, dict, angle := hardEdges, innerDict, breakAngleRad;
      assert LinkedUpTo(hs0, 0, dict, angle, k) == hs0;
      for i := 0 to |hardEdges|
        invariant innerDict == dict && breakAngle == old(breakAngle) && breakAngleRad == angle
        invariant hardEdges == LinkedUpTo(hs0, i, dict, angle, k)
      {
        LinkEdge(i, k);
      }
      LinkedUpToSpec(hs0, |hs0|, dict, angle, k);
    }

    /** The body of the LinkEdges loop for edge `i`: its PrevEdge at P1, then its NextEdge at P2. */
    method LinkEdge(i: nat, k: Kernel)
      modifies this
      requires i < |hardEdges| && IndexInRange(innerDict, |hardEdges|)
      ensures innerDict == old(innerDict) && breakAngle == old(breakAngle) && breakAngleRad == old(breakAngleRad)
      ensures hardEdges == LinkPass(old(hardEdges), i, innerDict, breakAngleRad, k)
    {
      var edge := hardEdges[i];
      if edge.prevEdge.None? {
        var connectedEdge := SharedVertexMatch(hardEdges, innerDict, edge, edge.p1, breakAngleRad, k);
        if connectedEdge.Some? {
          hardEdges := hardEdges[i := hardEdges[i].(prevEdge := connectedEdge)];
          hardEdges := hardEdges[connectedEdge.value := hardEdges[connectedEdge.value].(nextEdge := Some(i))];
        }
      }
      edge := hardEdges[i];
      if edge.nextEdge.None? {
        var connectedEdge := SharedVertexMatch(hardEdges, innerDict, edge, edge.p2, breakAngleRad, k);
        if connectedEdge.Some? {
          hardEdges := hardEdges[i := hardEdges[i].(nextEdge := connectedEdge)];
          hardEdges := hardEdges[connectedEdge.value := hardEdges[connectedEdge.value].(prevEdge := Some(i))];
        }
      }
    }

    /** GetEdgesForTriangle(triangle): gathers, de-duplicates and filters the edges at the triangle's vertices. */
    method GetEdgesForTriangle(tri: Triangle, k: Kernel) returns (edges: seq<nat>)
      requires Valid()
      ensures edges == EdgesForTriangle(hardEdges, innerDict, tri, breakAngleRad, k, DefaultComparer(k))
    {
      var closeEdges: seq<nat> := [];
      for i := 0 to 3
        invariant closeEdges == CloseEdges(innerDict, tri, i, k)
      {
        var triMapPos := k.rounded(tri.Vertices()[i].position);
        if triMapPos in innerDict {
          closeEdges := closeEdges + innerDict[triMapPos];
        }
      }
      CloseEdgesInRange(innerDict, tri, 3, |hardEdges|, k);
      edges := FacingEdges(hardEdges, DistinctEdges(hardEdges, closeEdges, DefaultComparer(k)), tri, breakAngleRad, k);
    }
  }
}
