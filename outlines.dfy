/**
 * OutlinesGenerator: the angle threshold and thickness multiplier it is
 * configured with, and GenerateOutlines, which for every triangle of a mesh
 * computes the planar edges, resolves the outlines at each of its three
 * vertices, and writes them into the outline slots of the triangle's
 * vertex-index records.
 */
module Outlines {
  import opened Wrappers
  import opened Geometry
  import opened HardEdges
  import opened HardEdgeIndex
  import opened PlanarEdges
  import opened ProjectedEdges
  import opened RoundEdges
  import opened Lists
  import opened VertexOutlines
  import opened OutlineSlots

  /** The OutlineThickness property: the default line thickness scaled by the multiplier. */
  function OutlineThickness(thicknessMultiplier: real): (t: real)
    ensures t > 0.0 <==> thicknessMultiplier > 0.0
    ensures thicknessMultiplier == 1.0 ==> t == DefaultLineThickness
  {
    DefaultLineThickness * thicknessMultiplier
  }

  // ----------------------------------------------------------- the specification

  /** What HardEdgeDictionary.Initialize leaves in the dictionary: the linked arena, its index and the break angle in radians. */
  datatype DictionaryState = DictionaryState(hardEdges: seq<HardEdge>, innerDict: map<Vector3, seq<nat>>, breakAngleRad: real)

  /** The dictionary GenerateOutlines builds for the mesh; its index and links only name positions of its arena. */
  function InitializedDictionary(tris: seq<Triangle>, angleThreshold: real, k: Kernel): (d: DictionaryState)
    ensures IndexInRange(d.innerDict, |d.hardEdges|) && LinksInRange(d.hardEdges)
    ensures d.breakAngleRad == angleThreshold / 180.0 * FPi
    ensures var raw := HardEdgesOf(tris, d.breakAngleRad, k);
      d.innerDict == IndexOf(raw, |raw|, k) && IndexInRange(d.innerDict, |raw|) &&
      d.hardEdges == LinkedUpTo(raw, |raw|, d.innerDict, d.breakAngleRad, k)
  {
    var rad := angleThreshold / 180.0 * FPi;
    var raw := HardEdgesOf(tris, rad, k);
    IndexOfInRange(raw, k);
    HardEdgesWellFormed(tris, rad, k);
    NoLinksInRange(raw);
    var dict := IndexOf(raw, |raw|, k);
    LinkedUpToSpec(raw, |raw|, dict, rad, k);
    DictionaryState(LinkedUpTo(raw, |raw|, dict, rad, k), dict, rad)
  }

  /**
   * The projection arena of one triangle of GenerateOutlines: its planar
   * edges, then the outlines of its three vertices. Its partners pair up.
   */
  function TriangleArena(tri: Triangle, d: DictionaryState, thicknessMultiplier: real, k: Kernel): (arena: seq<ProjectedEdge>)
    requires IndexInRange(d.innerDict, |d.hardEdges|) && LinksInRange(d.hardEdges)
    ensures MutuallyCombined(arena) && |arena| <= 6
  {
    var ps := PlanarEdgesOf(tri, d.hardEdges, d.innerDict, d.breakAngleRad, OutlineThickness(thicknessMultiplier), k);
    EmittedPaired(ps, tri, 3, OutlineThickness(thicknessMultiplier), k);
    EmittedUpTo(ps, tri, 3, OutlineThickness(thicknessMultiplier), k)
  }

  /** The end of one triangle of GenerateOutlines: if its arena is not empty, its slots are written. */
  function TriangleOutlines(coords: map<(nat, nat), CoordPair>, ix: seq<nat>, arena: seq<ProjectedEdge>,
                            thicknessMultiplier: real, emptyCoord: Vector2): map<(nat, nat), CoordPair>
    requires |ix| == 3 && MutuallyCombined(arena) && thicknessMultiplier != 0.0
  {
    if arena == [] then coords
    else WriteSlots(coords, ix, arena, ArenaSlots(arena), thicknessMultiplier, emptyCoord)
  }

  /** The outline data after the first `n` triangles of GenerateOutlines' triangle loop. */
  function OutlinesUpTo(coords: map<(nat, nat), CoordPair>, tris: seq<Triangle>, d: DictionaryState, n: nat,
                        thicknessMultiplier: real, k: Kernel, emptyCoord: Vector2): map<(nat, nat), CoordPair>
    requires n <= |tris| && IndexInRange(d.innerDict, |d.hardEdges|) && LinksInRange(d.hardEdges) && thicknessMultiplier != 0.0
  {
    if n == 0 then coords
    else
      TriangleOutlines(OutlinesUpTo(coords, tris, d, n - 1, thicknessMultiplier, k, emptyCoord),
                       tris[n - 1].Indices(), TriangleArena(tris[n - 1], d, thicknessMultiplier, k), thicknessMultiplier, emptyCoord)
  }

  /** Every entry of `before` outside slots 0 to 2 of the records `ix` is in `after` unchanged. */
  predicate KeepsOutside(before: map<(nat, nat), CoordPair>, after: map<(nat, nat), CoordPair>, ix: seq<nat>) {
    forall key :: key in before && (key.0 !in ix || key.1 >= 3) ==> key in after && after[key] == before[key]
  }

  /**
   * A triangle writes only outline slots 0, 1 and 2 of its own three
   * vertex-index records; every other entry stays as it was.
   */
  lemma TriangleOutlinesKeep(coords: map<(nat, nat), CoordPair>, ix: seq<nat>, arena: seq<ProjectedEdge>,
                             thicknessMultiplier: real, emptyCoord: Vector2)
    requires DistinctIndices(ix) && MutuallyCombined(arena) && thicknessMultiplier != 0.0
    ensures KeepsOutside(coords, TriangleOutlines(coords, ix, arena, thicknessMultiplier, emptyCoord), ix)
  {
    if arena != [] {
      TriangleSlots(coords, ix, arena, thicknessMultiplier, emptyCoord);
    }
  }

  /**
   * A triangle without outlines writes nothing; one with outlines uses at
   * least slot 0, and each of its three vertex-index records holds, in slot
   * j, the entry of the j-th outline chosen from its arena (with its
   * partner, if any).
   */
  lemma TriangleOutlinesSpec(coords: map<(nat, nat), CoordPair>, ix: seq<nat>, arena: seq<ProjectedEdge>,
                             thicknessMultiplier: real, emptyCoord: Vector2)
    requires DistinctIndices(ix) && MutuallyCombined(arena) && thicknessMultiplier != 0.0
    ensures var r := TriangleOutlines(coords, ix, arena, thicknessMultiplier, emptyCoord);
      (arena == [] ==> r == coords) &&
      (arena != [] ==>
         (1 <= |ArenaSlots(arena)| &&
          forall j, i :: 0 <= j < |ArenaSlots(arena)| && 0 <= i < 3 ==>
            HasEntry(r, ix[i], j, SlotValue(arena, ArenaSlots(arena)[j], i, thicknessMultiplier, emptyCoord))))
  {
    if arena != [] {
      TriangleSlots(coords, ix, arena, thicknessMultiplier, emptyCoord);
      SlotsFromUnfold(Partners(arena), Range(|arena|), 0);
    }
  }

  /** The entry under `key` is one GenerateOutlines leaves alone after `n` triangles: not in slots 0 to 2 of their records. */
  predicate Untouched(key: (nat, nat), tris: seq<Triangle>, n: nat)
    requires n <= |tris|
  {
    key.1 >= 3 || forall t :: 0 <= t < n ==> key.0 !in tris[t].Indices()
  }

  /** Every entry of `coords` that is untouched after `n` triangles is in `r` unchanged. */
  predicate KeptUntouched(coords: map<(nat, nat), CoordPair>, r: map<(nat, nat), CoordPair>, tris: seq<Triangle>, n: nat)
    requires n <= |tris|
  {
    forall key :: key in coords && Untouched(key, tris, n) ==> key in r && r[key] == coords[key]
  }

  /** A triangle that keeps all but its own slots 0 to 2 extends what is kept to one more triangle. */
  lemma KeptStep(coords: map<(nat, nat), CoordPair>, before: map<(nat, nat), CoordPair>, after: map<(nat, nat), CoordPair>,
                 tris: seq<Triangle>, n: nat)
    requires 0 < n <= |tris| && KeptUntouched(coords, before, tris, n - 1)
    requires KeepsOutside(before, after, tris[n - 1].Indices())
    ensures KeptUntouched(coords, after, tris, n)
  {
    forall key | key in coords && Untouched(key, tris, n)
      ensures key in after && after[key] == coords[key]
    {
      assert Untouched(key, tris, n - 1);
    }
  }

  /** No triangle names the same vertex-index record twice. */
  predicate AllDistinct(tris: seq<Triangle>) {
    forall t :: 0 <= t < |tris| ==> DistinctIndices(tris[t].Indices())
  }

  /** One more triangle of the fold keeps what the earlier ones kept. */
  lemma OutlinesKeepStep(coords: map<(nat, nat), CoordPair>, tris: seq<Triangle>, d: DictionaryState, n: nat,
                         thicknessMultiplier: real, k: Kernel, emptyCoord: Vector2)
    requires 0 < n <= |tris| && IndexInRange(d.innerDict, |d.hardEdges|) && LinksInRange(d.hardEdges) && AllDistinct(tris) && thicknessMultiplier != 0.0
    requires KeptUntouched(coords, OutlinesUpTo(coords, tris, d, n - 1, thicknessMultiplier, k, emptyCoord), tris, n - 1)
    ensures KeptUntouched(coords, OutlinesUpTo(coords, tris, d, n, thicknessMultiplier, k, emptyCoord), tris, n)
  {
    var before := OutlinesUpTo(coords, tris, d, n - 1, thicknessMultiplier, k, emptyCoord);
    assert DistinctIndices(tris[n - 1].Indices());
    TriangleOutlinesKeep(before, tris[n - 1].Indices(), TriangleArena(tris[n - 1], d, thicknessMultiplier, k), thicknessMultiplier, emptyCoord);
    KeptStep(coords, before, OutlinesUpTo(coords, tris, d, n, thicknessMultiplier, k, emptyCoord), tris, n);
  }

  /**
   * GenerateOutlines writes only outline slots 0, 1 and 2, and only of the
   * records of the triangles it was given; every other entry stays as it was.
   */
  lemma {:induction false} OutlinesKeep(coords: map<(nat, nat), CoordPair>, tris: seq<Triangle>, d: DictionaryState, n: nat,
                                        thicknessMultiplier: real, k: Kernel, emptyCoord: Vector2)
    requires n <= |tris| && IndexInRange(d.innerDict, |d.hardEdges|) && LinksInRange(d.hardEdges) && AllDistinct(tris) && thicknessMultiplier != 0.0
    ensures KeptUntouched(coords, OutlinesUpTo(coords, tris, d, n, thicknessMultiplier, k, emptyCoord), tris, n)
    decreases n
  {
    if n == 0 {
      assert OutlinesUpTo(coords, tris, d, 0, thicknessMultiplier, k, emptyCoord) == coords;
    } else {
      OutlinesKeep(coords, tris, d, n - 1, thicknessMultiplier, k, emptyCoord);
      OutlinesKeepStep(coords, tris, d, n, thicknessMultiplier, k, emptyCoord);
    }
  }


  /** The hard-edge dictionary GenerateOutlines builds: a new one, initialized with the triangles and the angle threshold. */
  method NewDictionary(tris: seq<Triangle>, angleThreshold: real, k: Kernel) returns (hardEdgeDict: HardEdgeDictionary)
    ensures fresh(hardEdgeDict) && hardEdgeDict.Valid()
    ensures DictionaryState(hardEdgeDict.hardEdges, hardEdgeDict.innerDict, hardEdgeDict.breakAngleRad)
         == InitializedDictionary(tris, angleThreshold, k)
  {
    hardEdgeDict := new HardEdgeDictionary();
    hardEdgeDict.Initialize(tris, angleThreshold, k);
    ghost var d := InitializedDictionary(tris, angleThreshold, k);
    assert hardEdgeDict.breakAngleRad == d.breakAngleRad;
    assert hardEdgeDict.innerDict == d.innerDict;
    assert hardEdgeDict.hardEdges == d.hardEdges;
  }

  /** The vertex loop of GenerateOutlines: the outlines of the three vertices, collected in one arena. */
  method CollectOutlines(planarEdges: PlanarSet, triangle: Triangle, outlineThickness: real, k: Kernel)
    returns (projectedEdges: seq<ProjectedEdge>)
    requires ListIn(planarEdges.alive, |planarEdges.edges|)
    ensures projectedEdges == EmittedUpTo(planarEdges, triangle, 3, outlineThickness, k)
  {
    var facePlane := FacePlane(triangle);
    projectedEdges := [];
    for v := 0 to 3
      invariant projectedEdges == EmittedUpTo(planarEdges, triangle, v, outlineThickness, k)
    {
      var vert := triangle.Vertices()[v];
      var emitted := ResolveVertex(planarEdges, triangle, vert, |projectedEdges|, facePlane, outlineThickness, k);
      projectedEdges := projectedEdges + emitted;
    }
  }

  /**
   * SetOutlineCoords(triangle, coordIdx, e1, e2): the combine mode from the
   * clipping flags, both outlines adjusted (returned as they are left), and
   * the three corners written to slot `coordIdx` of the triangle's records.
   */
  method SetOutlineCoords(thicknessMultiplier: real, triangle: Triangle, coordIdx: nat, e1: ProjectedEdge, e2: Option<ProjectedEdge>, store: RoundEdgeStore)
    returns (a1: ProjectedEdge, a2: Option<ProjectedEdge>)
    modifies store
    requires thicknessMultiplier != 0.0
    ensures a1 == Adjusted(e1, thicknessMultiplier)
    ensures a2 == if e2.Some? then Some(Adjusted(e2.value, thicknessMultiplier)) else None
    ensures store.coords == WriteSlot(old(store.coords), triangle.Indices(), coordIdx, a1, a2, store.emptyCoord, 3)
  {
    var mode := if e1.needsToBeClipped || (e2.Some? && e2.value.needsToBeClipped) then Intersection else Union;
    if e2.None? && mode == Intersection {
      mode := Union;
    }
    a1 := AdjustValues(e1, thicknessMultiplier);
    a2 := e2;
    if e2.Some? {
      var adjusted := AdjustValues(e2.value, thicknessMultiplier);
      a2 := Some(adjusted);
    }
    assert mode == CombineModeOf(a1, a2);
    var ix := triangle.Indices();
    for i := 0 to 3
      invariant store.coords == WriteSlot(old(store.coords), ix, coordIdx, a1, a2, store.emptyCoord, i)
    {
      var uv1 := a1.UVs()[i];
      var uv2 := if a2.Some? then a2.value.UVs()[i] else store.emptyCoord;
      store.SetCoordsPair(ix[i], coordIdx, uv2, uv1, mode);
    }
  }

  /**
   * The slot loop of GenerateOutlines on a non-empty projection arena:
   * while a slot is free and an outline is pending, the first pending
   * outline with a partner (or else the first one) is taken with its
   * partner and written to the next slot.
   */
  method AssignSlots(thicknessMultiplier: real, arena: seq<ProjectedEdge>, triangle: Triangle, store: RoundEdgeStore)
    modifies store
    requires arena != [] && MutuallyCombined(arena) && thicknessMultiplier != 0.0
    ensures store.coords == WriteSlots(old(store.coords), triangle.Indices(), arena, ArenaSlots(arena), thicknessMultiplier, store.emptyCoord)
  {
    var partners := Partners(arena);
    PartnersMutual(arena);
    RangeSpec(|arena|);
    var projectedEdges := Range(|arena|);
    var pairIdx := 0;
    SlotsNumbered(partners, projectedEdges, pairIdx);
    while pairIdx < 3 && projectedEdges != []
      invariant ListIn(projectedEdges, |arena|)
      invariant Numbered(partners, pairIdx, SlotsFrom(partners, projectedEdges, pairIdx))
      invariant WriteSlots(store.coords, triangle.Indices(), arena, SlotsFrom(partners, projectedEdges, pairIdx), thicknessMultiplier, store.emptyCoord)
             == WriteSlots(old(store.coords), triangle.Indices(), arena, ArenaSlots(arena), thicknessMultiplier, store.emptyCoord)
      decreases |projectedEdges|
    {
      var projection := PickFirst(partners, projectedEdges);
      ghost var next := NextPending(partners, projectedEdges);
      SlotsFromUnfold(partners, projectedEdges, pairIdx);
      SlotsNumbered(partners, next, pairIdx + 1);
      projectedEdges := RemoveFirst(projectedEdges, projection);
      var nextEdge := arena[projection].combineWith;
      assert PartnerBack(partners, projection);
      if nextEdge.Some? {
        projectedEdges := RemoveFirst(projectedEdges, nextEdge.value);
      }
      assert projectedEdges == next;
      var e2 := if nextEdge.Some? then Some(arena[nextEdge.value]) else None;
      var _, _ := SetOutlineCoords(thicknessMultiplier, triangle, pairIdx, arena[projection], e2, store);
      pairIdx := pairIdx + 1;
    }
  }

  /**
   * The body of GenerateOutlines' triangle loop: the triangle's planar
   * edges, the outlines of its three vertices collected in one arena, and,
   * if there are any, their slots written.
   */
  method OutlineTriangle(thicknessMultiplier: real, triangle: Triangle, hardEdgeDict: HardEdgeDictionary, ghost d: DictionaryState, store: RoundEdgeStore, k: Kernel)
    modifies store
    requires hardEdgeDict.Valid() && thicknessMultiplier != 0.0
    requires d == DictionaryState(hardEdgeDict.hardEdges, hardEdgeDict.innerDict, hardEdgeDict.breakAngleRad)
    ensures store.coords == TriangleOutlines(old(store.coords), triangle.Indices(), TriangleArena(triangle, d, thicknessMultiplier, k),
                                             thicknessMultiplier, store.emptyCoord)
  {
    var outlineThickness := OutlineThickness(thicknessMultiplier);
    var planarEdges := CalculatePlanarEdges(triangle, hardEdgeDict, outlineThickness, k);
    var projectedEdges := CollectOutlines(planarEdges, triangle, outlineThickness, k);
    assert projectedEdges == TriangleArena(triangle, d, thicknessMultiplier, k);
    if projectedEdges != [] {
      AssignSlots(thicknessMultiplier, projectedEdges, triangle, store);
    }
  }

  /** One pass of GenerateOutlines' triangle loop: triangle `n` extends the outline data of the first `n`. */
  method OutlineNext(thicknessMultiplier: real, tris: seq<Triangle>, n: nat, hardEdgeDict: HardEdgeDictionary, ghost d: DictionaryState,
                     ghost origin: map<(nat, nat), CoordPair>, store: RoundEdgeStore, k: Kernel)
    modifies store
    requires n < |tris| && hardEdgeDict.Valid() && thicknessMultiplier != 0.0
    requires d == DictionaryState(hardEdgeDict.hardEdges, hardEdgeDict.innerDict, hardEdgeDict.breakAngleRad)
    requires store.coords == OutlinesUpTo(origin, tris, d, n, thicknessMultiplier, k, store.emptyCoord)
    ensures store.coords == OutlinesUpTo(origin, tris, d, n + 1, thicknessMultiplier, k, store.emptyCoord)
  {
    OutlineTriangle(thicknessMultiplier, tris[n], hardEdgeDict, d, store, k);
  }

  /** GenerateOutlines' triangle loop: each triangle in turn, against the same hard-edge dictionary. */
  method OutlineTriangles(thicknessMultiplier: real, tris: seq<Triangle>, hardEdgeDict: HardEdgeDictionary, ghost d: DictionaryState, store: RoundEdgeStore, k: Kernel)
    modifies store
    requires hardEdgeDict.Valid() && thicknessMultiplier != 0.0
    requires d == DictionaryState(hardEdgeDict.hardEdges, hardEdgeDict.innerDict, hardEdgeDict.breakAngleRad)
    ensures store.coords == OutlinesUpTo(old(store.coords), tris, d, |tris|, thicknessMultiplier, k, store.emptyCoord)
  {
    ghost var origin := store.coords;
    for n := 0 to |tris|
      invariant hardEdgeDict.Valid() && d == DictionaryState(hardEdgeDict.hardEdges, hardEdgeDict.innerDict, hardEdgeDict.breakAngleRad)
      invariant store.coords == OutlinesUpTo(origin, tris, d, n, thicknessMultiplier, k, store.emptyCoord)
    {
      OutlineNext(thicknessMultiplier, tris, n, hardEdgeDict, d, origin, store, k);
    }
  }

  // ----------------------------------------------------------- the class

  /** OutlinesGenerator: the settings a generation runs with. */
  class OutlinesGenerator {
    var angleThreshold: real
    var thicknessMultiplier: real

    /** The default settings: a 35-degree break angle and the default line thickness. */
    constructor()
      ensures angleThreshold == 35.0 && thicknessMultiplier == 1.0
    {
      angleThreshold := 35.0;
      thicknessMultiplier := 1.0;
    }

    constructor WithSettings(angleThreshold: real, thicknessMultiplier: real)
      ensures this.angleThreshold == angleThreshold && this.thicknessMultiplier == thicknessMultiplier
    {
      this.angleThreshold := angleThreshold;
      this.thicknessMultiplier := thicknessMultiplier;
    }

    /**
     * GenerateOutlines(triangles): the hard-edge dictionary built with the
     * angle threshold, then each triangle in turn.
     */
    method GenerateOutlines(tris: seq<Triangle>, store: RoundEdgeStore, k: Kernel)
      modifies store
      requires thicknessMultiplier != 0.0
      ensures store.coords == OutlinesUpTo(old(store.coords), tris, InitializedDictionary(tris, angleThreshold, k), |tris|,
                                           thicknessMultiplier, k, store.emptyCoord)
    {
      var hardEdgeDict := NewDictionary(tris, angleThreshold, k);
      OutlineTriangles(thicknessMultiplier, tris, hardEdgeDict, InitializedDictionary(tris, angleThreshold, k), store, k);
    }
  }
}
