# Toon-outline generator, modelled in Dafny

This project models the outline generator of LDD.Core
(`LDD.Core/Meshes/OutlinesGenerator.cs`) and the edge identity rules it relies
on (`LDD.Core/Meshes/Edge.cs`). For every triangle of a mesh, the generator
computes up to three "outlines". Each outline is a strip along a hard edge,
clipped against a partner outline where two edges meet at a vertex. It writes
them into the three outline slots of the triangle's vertex-index records.

The generator works in four stages:

1. **Hard-edge detection** (`CalculateHardEdges`). Every non-degenerate
   triangle edge is registered under its unordered, rounded end points.
   - A key owned by one triangle yields one hard edge.
   - On a shared key, a face yields a hard edge when no other owning face is
     within the break angle of it.
   - Every emitted edge is then put in order.
2. **Chain linking** (`HardEdgeDictionary`). Hard edges are indexed by their
   end points. Each unlinked end is linked to the best neighbour through that
   vertex, and the link is made in both directions.
3. **Planar edges of a triangle** (`CalculatePlanarEdges`).
   - The hard edges close to the triangle are projected into its plane and
     paired with their projected neighbours.
   - Duplicate pairs are dropped, and almost-opposite pairs are disconnected.
   - For each pair, at most one edge whose outline leaves the triangle is
     removed.
   - Links to removed edges are cleared.
4. **Outlines at the vertices and slot output** (the two loops of
   `GenerateOutlines`, `SetOutlineCoords`, `ProjectedEdge.ValidateValues`
   and `AdjustValues`).
   - At each vertex, the planar edges through it are projected.
   - Projections outside the triangle are dropped, and at most one dead end is
     kept.
   - One projection is emitted, with a clipping partner when it must be
     clipped. Two are emitted as a combined pair unless they are colinear and
     unclipped. More than two emit nothing.
   - The triangle's projections are then written to slots 0, 1 and 2, partners
     first.

Modelling choices:

- **Floating-point geometry** is a `Kernel` of uninterpreted functions
  (`geometry.dfy`). This covers plane projection, angles, line intersection,
  rounding and hashes. Positions are an opaque type with equality.
- **Object graphs** become arenas. Hard edges, planar edges and projections
  are sequences. `PrevEdge`, `NextEdge` and `CombineWith` are optional
  positions in those sequences, and a pair names its two planar edges by
  position.
- **Planar-edge pairs** are immutable values. `PrevEdgeInfo` and
  `NextEdgeInfo` hold one directly, and the pair list is a sequence of them.
  The source only ever compares pairs with `IsEqual`, so nothing depends on
  their identity.
- **Mutated objects** are classes:
  - the `OutlinesGenerator` (its settings);
  - the `HardEdgeDictionary` (arena, index, break angle);
  - the per-vertex outline store standing in for `RoundEdgeData`.
- **Loops** are methods, each proved against a specification function of its
  inputs; the properties are lemmas about those functions.

Quirks kept as written:

- `GetNormalDiff` compares edge normals, not face normals.
- `HardEdge.Equals` binds `A || B && C && D` as `A || (B && C && D)`.
- `PlanarEdgePair.IsEqual` is not symmetric.
- `SetCoordsPair` receives the second projection's coordinate (or `EmptyCoord`) before the first's.
- Hash codes wrap around at 32 bits.

## Model

| member | source | states |
|---|---|---|
| Geometry.Min3 | LDD.Core/Meshes/OutlinesGenerator.cs:463 | Vector2.Min of three points is, in each coordinate, no larger than any of them and equal to one of them |
| Geometry.Max3 | LDD.Core/Meshes/OutlinesGenerator.cs:464 | Vector2.Max of three points is, in each coordinate, no smaller than any of them and equal to one of them |
| Geometry.Wrap32 | LDD.Core/Meshes/Edge.cs:47-61 | unchecked 32-bit arithmetic: the result is congruent to the exact value modulo 2^32 and lies in the Int32 range |
| Geometry.PairHash | LDD.Core/Meshes/Edge.cs:47-61 | the pair hash folds the smaller component hash first and the larger second, whichever order they are given in |
| Geometry.PairHashSymmetric | LDD.Core/Meshes/Edge.cs:51-60 | the pair hash does not depend on the order of its two arguments |
| Geometry.ProjectTriangle2D | LDD.Core/Meshes/OutlinesGenerator.cs:548-559 | the three projected sides of Triangle2D close up: each side starts where the previous one ends |
| Edges.EqualsEdge | LDD.Core/Meshes/Edge.cs:32-43 | by position: equal exactly when the two position multisets agree; by vertex: exactly when the two vertex multisets agree |
| Edges.EqualsObject | LDD.Core/Meshes/Edge.cs:23-30 | a missing object is never equal; an edge is compared under the static CompareByPosition flag with the unordered rule |
| Edges.GetHashCode | LDD.Core/Meshes/Edge.cs:45-62 | the hash of the end points taken in the opposite order is the same value |
| Edges.EqualsReflexive | LDD.Core/Meshes/Edge.cs:32-43 | every edge equals itself, in both modes |
| Edges.EqualsSymmetric | LDD.Core/Meshes/Edge.cs:32-43 | equality is symmetric, in both modes |
| Edges.EqualsIgnoresOrder | LDD.Core/Meshes/Edge.cs:32-43 | reversing either edge does not change equality, and an edge equals its reversal |
| Edges.HashIgnoresOrder | LDD.Core/Meshes/Edge.cs:45-62 | reversing an edge does not change its hash, in both modes |
| Edges.EqualEdgesHashEqually | LDD.Core/Meshes/Edge.cs:23-62 | equal edges have equal hashes under the same flag value |
| Edges.ContainsVertex | LDD.Core/Meshes/Edge.cs:64-69 | with checkPosition, membership of the position among the end-point positions; otherwise membership of the vertex among the end points |
| Edges.ContainsPosition | LDD.Core/Meshes/Edge.cs:71-74 | true exactly when the position is one of the two end-point positions |
| Edges.ContainsNear | LDD.Core/Meshes/Edge.cs:76-79 | true exactly when some end point is within the precision of the position |
| Edges.ContainsExactlyEndpoints | LDD.Core/Meshes/Edge.cs:71-74 | both end-point positions are contained; a position equal to neither is not |
| Edges.EqualEdgesShareEndpoints | LDD.Core/Meshes/Edge.cs:32-43 | an edge contains, in the matching mode, both end points of any edge it equals |
| Edges.ComparerEquals | LDD.Core/Meshes/Edge.cs:90-93 | the comparer's Equals is the unordered equality selected by the static flag |
| Edges.ComparerHash | LDD.Core/Meshes/Edge.cs:95-98 | the comparer's hash is the instance hash, which also equals the hash of the reversed edge |
| Edges.ComparerConsistent | LDD.Core/Meshes/Edge.cs:90-98 | what the comparer calls equal, it hashes equally |
| HardEdges.FromEdge | LDD.Core/Meshes/OutlinesGenerator.cs:28-32 | new SimpleEdge(edge) holds the rounded positions of the edge's two end points |
| HardEdges.SimpleEqualsMeansSameKey | LDD.Core/Meshes/OutlinesGenerator.cs:40-55 | SimpleEdge equality is equality of the unordered end-point pairs, and Contains is membership in that pair |
| HardEdges.SimpleEqualsEquivalence | LDD.Core/Meshes/OutlinesGenerator.cs:40-43 | SimpleEdge equality is reflexive, symmetric and transitive |
| HardEdges.SimpleHash | LDD.Core/Meshes/OutlinesGenerator.cs:57-74 | the SimpleEdge hash equals the pair hash with the end points in the opposite order |
| HardEdges.SimpleEqualsIgnoresOrder | LDD.Core/Meshes/OutlinesGenerator.cs:40-74 | (a, b) equals (b, a), and both have the same hash |
| HardEdges.SimpleEqualKeysHashEqually | LDD.Core/Meshes/OutlinesGenerator.cs:40-74 | equal SimpleEdge keys hash equally, so the dictionary can be modelled by the unordered key |
| HardEdges.NewFaceEdge | LDD.Core/Meshes/OutlinesGenerator.cs:86-95 | a FaceEdge keeps the key's end points, the rounded face normal and the edge normal from the two vertex normals |
| HardEdges.FloatRem | LDD.Core/Meshes/OutlinesGenerator.cs:101 | float remainder leaves a value already inside (-m, m) unchanged |
| HardEdges.GetNormalDiff | LDD.Core/Meshes/OutlinesGenerator.cs:97-103 | the angle between the two edge normals, with a negative angle in (-2π, 0) moved up by 2π |
| HardEdges.NormalDiffIgnoresFaceNormal | LDD.Core/Meshes/OutlinesGenerator.cs:97-103 | the normal difference does not depend on either face normal |
| HardEdges.NewHardEdge | LDD.Core/Meshes/OutlinesGenerator.cs:119-129 | a new hard edge keeps the key's end points, takes its normals and outline direction from the face, and has no links |
| HardEdges.NewLooseHardEdge | LDD.Core/Meshes/OutlinesGenerator.cs:131-137 | the four-argument constructor stores what it is given, leaves the edge normal at its default, and has no links |
| HardEdges.CorrectOrder | LDD.Core/Meshes/OutlinesGenerator.cs:139-149 | the end points are swapped exactly when the recomputed face normal is more than 0.2 away; otherwise the edge is unchanged |
| HardEdges.CorrectOrderKeepsEdge | LDD.Core/Meshes/OutlinesGenerator.cs:139-149 | CorrectOrder keeps the end-point pair, the normals, the outline direction and the links |
| HardEdges.CorrectOrderTwice | LDD.Core/Meshes/OutlinesGenerator.cs:139-149 | applying CorrectOrder twice equals applying it once exactly when one orientation passes the test or the edge is degenerate |
| HardEdges.HardEdgeEquals | LDD.Core/Meshes/OutlinesGenerator.cs:191-199 | the same orientation is equal whatever the normals; the reversed orientation is equal only with equal edge and face normals |
| HardEdges.HardEdgeEqualsProperties | LDD.Core/Meshes/OutlinesGenerator.cs:191-199 | equal hard edges share their end-point pair; equality is reflexive and symmetric and ignores the links |
| HardEdges.HardEdgeHashIgnoresOrder | LDD.Core/Meshes/OutlinesGenerator.cs:151-172 | the hard-edge hash ignores the order of the end points and the links |
| HardEdges.GetOpposite | LDD.Core/Meshes/OutlinesGenerator.cs:206-209 | GetOpposite returns an end point: on P1 it returns P2, and on P2 it returns P1 |
| HardEdges.GetOppositeCompletesSegment | LDD.Core/Meshes/OutlinesGenerator.cs:201-209 | Contains is membership in the end-point pair, and a contained position with its opposite is that pair |
| HardEdges.OccurrencesWellFormed | LDD.Core/Meshes/OutlinesGenerator.cs:1038-1051 | every registration of the first loop is a non-degenerate edge owned by a triangle already visited |
| HardEdges.FindEntry | LDD.Core/Meshes/OutlinesGenerator.cs:1047 | a found entry's key equals the looked-up edge |
| HardEdges.FindEntryNone | LDD.Core/Meshes/OutlinesGenerator.cs:1047 | when lookup fails, no key equals the edge |
| HardEdges.SharedEdgesOwnersBelow | LDD.Core/Meshes/OutlinesGenerator.cs:1038-1051 | every owner the dictionary lists is one of the triangles |
| HardEdges.RegisterKeepsDictionary | LDD.Core/Meshes/OutlinesGenerator.cs:1047-1049 | one registration keeps the keys pairwise unequal, covers the new edge, and lists exactly each key's owners |
| HardEdges.SharedEdgesCorrect | LDD.Core/Meshes/OutlinesGenerator.cs:1036-1051 | after the first loop, no two keys are equal, every registered edge has an entry, and each entry lists exactly the triangles that registered it, in order |
| HardEdges.SharedEdgesAppend | LDD.Core/Meshes/OutlinesGenerator.cs:1038-1051 | one more registration is one more dictionary update |
| HardEdges.FaceEdgesOf | LDD.Core/Meshes/OutlinesGenerator.cs:1068 | one face edge per owning triangle |
| HardEdges.SharpEdgesExactly | LDD.Core/Meshes/OutlinesGenerator.cs:1070-1077 | a hard edge is emitted for a face of a shared key exactly when no other owning face's normal difference is below the break angle; at most one per face |
| HardEdges.SmoothPairYieldsNothing | LDD.Core/Meshes/OutlinesGenerator.cs:1068-1077 | two faces whose edge normals are within the break angle of each other, both ways, yield no hard edge |
| HardEdges.BoundaryYieldsOne | LDD.Core/Meshes/OutlinesGenerator.cs:1062-1066 | a key owned by one triangle yields exactly that triangle's hard edge |
| HardEdges.CorrectAll | LDD.Core/Meshes/OutlinesGenerator.cs:1080 | every emitted edge is put in order, position by position |
| HardEdges.SharedKeysNondegenerate | LDD.Core/Meshes/OutlinesGenerator.cs:1044-1045 | no key whose two rounded end points coincide is ever registered |
| HardEdges.HardEdgesWellFormed | LDD.Core/Meshes/OutlinesGenerator.cs:1034-1082 | every returned hard edge joins two distinct positions and has no links yet |
| HardEdges.CalculateHardEdges | LDD.Core/Meshes/OutlinesGenerator.cs:1034-1082 | the method returns the hard edges of its specification: registration, then emission key by key, then CorrectOrder |
| HardEdges.CorrectOrders | LDD.Core/Meshes/OutlinesGenerator.cs:1080 | the last loop puts every edge in order |
| HardEdges.RegisterSharedEdges | LDD.Core/Meshes/OutlinesGenerator.cs:1036-1051 | the first loop leaves the dictionary of all registrations of all triangles |
| HardEdges.RegisterTriangle | LDD.Core/Meshes/OutlinesGenerator.cs:1040-1050 | one pass registers the three sides of one triangle |
| HardEdges.RegisterSide | LDD.Core/Meshes/OutlinesGenerator.cs:1042-1049 | a side of zero length is skipped; any other side is registered under its key |
| HardEdges.TriangleOccurrencesWellFormed | LDD.Core/Meshes/OutlinesGenerator.cs:1040-1045 | every side a triangle registers has distinct end points and that triangle as its owner |
| HardEdges.RegisterNewKey | LDD.Core/Meshes/OutlinesGenerator.cs:1047-1049 | registering a side with a new key adds an entry owned by that triangle, and the dictionary still records exactly the sides registered so far |
| HardEdges.RegisterKnownKey | LDD.Core/Meshes/OutlinesGenerator.cs:1049 | registering a side with a known key appends the triangle to that entry's owners, and the dictionary still records exactly the sides registered so far |
| HardEdges.RegisterKeepsKeys | LDD.Core/Meshes/OutlinesGenerator.cs:1047-1049 | registration keeps every key in place and adds at most one, at the end |
| HardEdges.EmitForKeyShape | LDD.Core/Meshes/OutlinesGenerator.cs:1062-1077 | every hard edge emitted for a key runs between the key's end points and has no links yet |
| HardEdges.AddOwner | LDD.Core/Meshes/OutlinesGenerator.cs:1047-1049 | a new key gets a fresh list, and the triangle is appended to the key's list |
| HardEdges.EmitSharedEdges | LDD.Core/Meshes/OutlinesGenerator.cs:1056-1078 | the second loop emits the hard edges entry by entry, in insertion order |
| HardEdges.EmitEntry | LDD.Core/Meshes/OutlinesGenerator.cs:1062-1077 | one entry yields the hard edges its specification gives |
| HardEdgeIndex.IndexExactly | LDD.Core/Meshes/OutlinesGenerator.cs:583-593 | a position is a key of the index exactly when some of the first n edges has it as a rounded end point, and its list is those edges in order |
| HardEdgeIndex.EdgesAtInRange | LDD.Core/Meshes/OutlinesGenerator.cs:583-593 | the index lists only edges already visited |
| HardEdgeIndex.IndexOfInRange | LDD.Core/Meshes/OutlinesGenerator.cs:583-593 | every edge the full index lists is a position of the arena |
| HardEdgeIndex.BestPosition | LDD.Core/Meshes/OutlinesGenerator.cs:648-660 | the chosen candidate is a position in the candidate list |
| HardEdgeIndex.BestPositionSpec | LDD.Core/Meshes/OutlinesGenerator.cs:648-660 | nothing is chosen exactly when no candidate qualifies; otherwise the choice qualifies, no qualifying candidate sorts strictly before it, and it sorts strictly before every qualifying candidate listed earlier |
| HardEdgeIndex.SharedVertexMatch | LDD.Core/Meshes/OutlinesGenerator.cs:643-663 | a match is a position of the arena |
| HardEdgeIndex.SharedVertexMatchSpec | LDD.Core/Meshes/OutlinesGenerator.cs:643-663 | false exactly when the vertex is not indexed or no edge there qualifies; a match is listed at the vertex, is not the queried edge, is within the break angle by face normal and within 0.85π by outline direction, and has the least (face angle, outline angle) |
| HardEdgeIndex.BestPositionIgnoresLinks | LDD.Core/Meshes/OutlinesGenerator.cs:648-654 | the choice reads only geometry, so relinking the arena does not change it |
| HardEdgeIndex.LinkPrevSpec | LDD.Core/Meshes/OutlinesGenerator.cs:615-616 | linking sets edge.PrevEdge to c and c.NextEdge to edge and changes nothing else |
| HardEdgeIndex.LinkNextSpec | LDD.Core/Meshes/OutlinesGenerator.cs:621-622 | linking sets edge.NextEdge to c and c.PrevEdge to edge and changes nothing else |
| HardEdgeIndex.MatchIsAnotherEdge | LDD.Core/Meshes/OutlinesGenerator.cs:649 | GetBySharedVertex never returns the queried edge itself |
| HardEdgeIndex.LinkPass | LDD.Core/Meshes/OutlinesGenerator.cs:613-623 | one pass keeps the links inside the arena and changes no geometry |
| HardEdgeIndex.LinkPassSpec | LDD.Core/Meshes/OutlinesGenerator.cs:613-623 | a pass leaves a set PrevEdge alone, fills a null one with the match at P1 and links it back, and then does the same for NextEdge at P2; no other edge changes |
| HardEdgeIndex.PrevStepKeeps | LDD.Core/Meshes/OutlinesGenerator.cs:613-617 | filling a PrevEdge keeps links in range and changes no geometry |
| HardEdgeIndex.NextStepKeeps | LDD.Core/Meshes/OutlinesGenerator.cs:619-623 | filling a NextEdge keeps links in range and changes no geometry |
| HardEdgeIndex.LinkPassKeeps | LDD.Core/Meshes/OutlinesGenerator.cs:613-623 | both halves of a pass keep links in range and change no geometry |
| HardEdgeIndex.LinkedUpToSpec | LDD.Core/Meshes/OutlinesGenerator.cs:598-625 | after any number of passes, links stay in range and no edge's geometry has changed |
| HardEdgeIndex.DistinctEdgesSpec | LDD.Core/Meshes/OutlinesGenerator.cs:639 | Distinct keeps only input edges, never two duplicates in order, and drops an edge only for an earlier kept duplicate |
| HardEdgeIndex.FacingEdgesSpec | LDD.Core/Meshes/OutlinesGenerator.cs:640 | the Where filter keeps exactly the input edges whose edge normal is within the break angle of the triangle's normal |
| HardEdgeIndex.CloseEdgesSpec | LDD.Core/Meshes/OutlinesGenerator.cs:631-636 | an edge is gathered exactly when the index lists it under the rounded position of one of the triangle's vertices |
| HardEdgeIndex.CloseEdgesInRange | LDD.Core/Meshes/OutlinesGenerator.cs:631-636 | the gathered edges are positions of the arena |
| HardEdgeIndex.DistinctCloseEdges | LDD.Core/Meshes/OutlinesGenerator.cs:638-639 | the distinct close edges are positions of the arena |
| HardEdgeIndex.EdgesForTriangleSpec | LDD.Core/Meshes/OutlinesGenerator.cs:627-641 | every returned edge is listed at a vertex of the triangle and faces it, and no two returned edges are duplicates |
| HardEdgeIndex.EdgesForTriangleComplete | LDD.Core/Meshes/OutlinesGenerator.cs:627-641 | every edge listed at a vertex that faces the triangle is returned, or a duplicate of it was kept in its place |
| HardEdgeIndex.FacingKeepsOrder | LDD.Core/Meshes/OutlinesGenerator.cs:638-640 | filtering after Distinct introduces no duplicates |
| HardEdgeIndex.HardEdgeDictionary.constructor | LDD.Core/Meshes/OutlinesGenerator.cs:567-573 | a new dictionary is empty and valid |
| HardEdgeIndex.HardEdgeDictionary.Initialize | LDD.Core/Meshes/OutlinesGenerator.cs:575-596 | stores the break angle and its radians, the index of the computed hard edges, and the arena after linking |
| HardEdgeIndex.HardEdgeDictionary.IndexHardEdges | LDD.Core/Meshes/OutlinesGenerator.cs:580-593 | the index loop builds the index and changes nothing else |
| HardEdgeIndex.HardEdgeDictionary.LinkEdges | LDD.Core/Meshes/OutlinesGenerator.cs:598-625 | the link loop leaves the specification's linked arena, keeps the index, and stays valid |
| HardEdgeIndex.HardEdgeDictionary.LinkEdge | LDD.Core/Meshes/OutlinesGenerator.cs:613-623 | one pass of the loop for edge i |
| HardEdgeIndex.HardEdgeDictionary.GetEdgesForTriangle | LDD.Core/Meshes/OutlinesGenerator.cs:627-641 | returns the close edges, de-duplicated by the default comparer, that face the triangle |
| PlanarEdges.Disconnect | LDD.Core/Meshes/OutlinesGenerator.cs:388-395 | afterwards neither link of the edge is IsEqual to the pair; a link not IsEqual to the pair is kept and no other field changes |
| PlanarEdges.VertexLinkedAtEnds | LDD.Core/Meshes/OutlinesGenerator.cs:301-308 | a vertex is linked only if the edge contains it; at P1 exactly when the hard edge has a previous edge, at P2 exactly when it has a next edge |
| PlanarEdges.OppositeVertexSpec | LDD.Core/Meshes/OutlinesGenerator.cs:319-324 | for a contained vertex the vertex and its opposite are the two end points; otherwise the opposite is P1 |
| PlanarEdges.CommonVertexSpec | LDD.Core/Meshes/OutlinesGenerator.cs:337-344 | touching edges get a vertex both contain, P1 first; edges that do not touch get the empty vector |
| PlanarEdges.AngleAtCommonVertex | LDD.Core/Meshes/OutlinesGenerator.cs:356-373 | the angle is zero for edges that do not touch, and otherwise twice the angle between the outline bisector and the first edge's direction away from the common vertex |
| PlanarEdges.IsEqualSpec | LDD.Core/Meshes/OutlinesGenerator.cs:418-423 | IsEqual holds exactly when the other pair's edges are among this pair's edges; it is reflexive, and symmetric for pairs of two distinct edges |
| PlanarEdges.IsEqualNotSymmetric | LDD.Core/Meshes/OutlinesGenerator.cs:418-423 | a pair joining one edge to itself is IsEqual-contained in a proper pair but not the other way round |
| PlanarEdges.OtherEdgeSpec | LDD.Core/Meshes/OutlinesGenerator.cs:425-437 | GetOtherEdge answers exactly when the pair contains the edge, and the edge and its answer are the pair's two edges |
| PlanarEdges.ConnectedIffConnectionInfo | LDD.Core/Meshes/OutlinesGenerator.cs:326-386 | IsConnectedTo holds exactly for another edge that one of this edge's links contains; GetConnectionInfo returns that link, previous first |
| PlanarEdges.InitialEdges | LDD.Core/Meshes/OutlinesGenerator.cs:851 | one planar edge per close hard edge |
| PlanarEdges.InitialEdgesSpec | LDD.Core/Meshes/OutlinesGenerator.cs:851 | the i-th planar edge is the i-th close hard edge projected onto the face plane |
| PlanarEdges.InitialEdgesWellFormed | LDD.Core/Meshes/OutlinesGenerator.cs:851 | the projected edges keep their hard edges' links inside the arena and start with no pairs |
| PlanarEdges.FindOrig | LDD.Core/Meshes/OutlinesGenerator.cs:861 | a found position is among those searched |
| PlanarEdges.FindOrigSpec | LDD.Core/Meshes/OutlinesGenerator.cs:859-872 | FirstOrDefault finds nothing exactly when no planar edge wraps an equal hard edge, and otherwise the first that does |
| PlanarEdges.PairToSpec | LDD.Core/Meshes/OutlinesGenerator.cs:859-867 | a pair is built exactly when the hard edge has that link and some planar edge wraps it; the pair joins this edge to the first such planar edge |
| PlanarEdges.LinkPrevInfo | LDD.Core/Meshes/OutlinesGenerator.cs:859-868 | the previous-edge half of one pass keeps one planar edge per close edge |
| PlanarEdges.LinkNextInfo | LDD.Core/Meshes/OutlinesGenerator.cs:870-879 | the next-edge half of one pass keeps one planar edge per close edge |
| PlanarEdges.PairedUpTo | LDD.Core/Meshes/OutlinesGenerator.cs:856-880 | the link loop keeps one planar edge per close edge |
| PlanarEdges.PairedUpToEdges | LDD.Core/Meshes/OutlinesGenerator.cs:856-880 | after n passes the first n planar edges carry their previous and next pairs and the rest are untouched |
| PlanarEdges.LinkHalvesFrame | LDD.Core/Meshes/OutlinesGenerator.cs:856-880 | one pass sets only the current edge's pairs |
| PlanarEdges.AddPairSpec | LDD.Core/Meshes/OutlinesGenerator.cs:865-866 | appending a pair only when no IsEqual pair is listed keeps the list free of later duplicates, lists the pair and keeps what was listed |
| PlanarEdges.PairedUpToPairs | LDD.Core/Meshes/OutlinesGenerator.cs:853-880 | after n passes the pair list has no pair IsEqual to an earlier one, names only arena edges, and lists (up to IsEqual) every pair of the first n edges |
| PlanarEdges.PairStep | LDD.Core/Meshes/OutlinesGenerator.cs:856-880 | one pass extends the pair-list invariant to one more edge |
| PlanarEdges.AllListedExtend | LDD.Core/Meshes/OutlinesGenerator.cs:856-880 | listing both pairs of edge n extends "every pair listed" to n + 1 edges |
| PlanarEdges.PassPairs | LDD.Core/Meshes/OutlinesGenerator.cs:856-880 | one pass keeps the list duplicate-free and in range, loses no pair, and lists both pairs of the current edge |
| PlanarEdges.AllListedGrows | LDD.Core/Meshes/OutlinesGenerator.cs:865-877 | a list that only grows keeps every pair listed |
| PlanarEdges.HalfListedGrows | LDD.Core/Meshes/OutlinesGenerator.cs:865-877 | a list that only grows keeps one link's pair listed |
| PlanarEdges.LinkPrevPairs | LDD.Core/Meshes/OutlinesGenerator.cs:859-868 | the previous-edge half keeps the invariant and lists that half's pair |
| PlanarEdges.LinkNextPairs | LDD.Core/Meshes/OutlinesGenerator.cs:870-879 | the next-edge half keeps the invariant and lists that half's pair |
| PlanarEdges.LinkHalfPairs | LDD.Core/Meshes/OutlinesGenerator.cs:862-867 | adding one half's pair, when built, keeps the invariant and lists it |
| PlanarEdges.PairVerdictSpec | LDD.Core/Meshes/OutlinesGenerator.cs:905-938 | an edge is flagged exactly when the outline lines meet and exactly one of them is good, and the flagged edge is the one whose line is not good |
| PlanarEdges.FilterStep | LDD.Core/Meshes/OutlinesGenerator.cs:896-939 | one pass keeps one planar edge per close edge |
| PlanarEdges.FilteredUpTo | LDD.Core/Meshes/OutlinesGenerator.cs:896-939 | the filter loop keeps one planar edge per close edge |
| PlanarEdges.ShrinksTransitive | LDD.Core/Meshes/OutlinesGenerator.cs:896-939 | "only clears links and sets flags" composes |
| PlanarEdges.ShrinksReflexive | LDD.Core/Meshes/OutlinesGenerator.cs:896-939 | doing nothing only clears links and sets flags |
| PlanarEdges.NoLinkEqualKept | LDD.Core/Meshes/OutlinesGenerator.cs:900-901 | once an edge holds no link equal to a pair, clearing links and setting flags keeps that so |
| PlanarEdges.FilterStepShrinks | LDD.Core/Meshes/OutlinesGenerator.cs:896-939 | one pass only clears links (Disconnect) or sets OutlineIsOutsideTriangle; end points, hard edges and triangle-edge flags never change |
| PlanarEdges.FilteredShrinks | LDD.Core/Meshes/OutlinesGenerator.cs:896-939 | the whole filter loop only clears links and sets flags |
| PlanarEdges.FilterStepRemovals | LDD.Core/Meshes/OutlinesGenerator.cs:896-939 | a pass queues at most one edge: exactly the edge the pair's verdict removes, and that edge is flagged |
| PlanarEdges.FilterStepFlags | LDD.Core/Meshes/OutlinesGenerator.cs:929-938 | a pass queues at most one more edge, and every queued edge stays flagged |
| PlanarEdges.FilteredFlags | LDD.Core/Meshes/OutlinesGenerator.cs:883-939 | after n pairs at most n edges are queued and every queued edge is flagged as outside the triangle |
| PlanarEdges.FilterStepQueues | LDD.Core/Meshes/OutlinesGenerator.cs:929-938 | an edge is queued after a pass exactly when it was queued before or this pair removes it |
| PlanarEdges.RemovedByStep | LDD.Core/Meshes/OutlinesGenerator.cs:896-939 | removed by the first n pairs exactly when removed by the first n - 1 or by pair n |
| PlanarEdges.FilteredRemovals | LDD.Core/Meshes/OutlinesGenerator.cs:883-939 | an edge is queued exactly when some processed pair's verdict removes it |
| PlanarEdges.FlagsKept | LDD.Core/Meshes/OutlinesGenerator.cs:929-938 | edges that were flagged stay flagged while links are cleared and new flagged edges are queued |
| PlanarEdges.FilteredDeadEnds | LDD.Core/Meshes/OutlinesGenerator.cs:898-903 | after the loop no edge of a dead-end pair holds a link equal to that pair |
| PlanarEdges.DeadEndStep | LDD.Core/Meshes/OutlinesGenerator.cs:898-903 | a dead-end pair is disconnected from both of its edges |
| PlanarEdges.SurvivorsSpec | LDD.Core/Meshes/OutlinesGenerator.cs:941 | RemoveAll keeps exactly the positions not queued, each once and in order |
| PlanarEdges.UnlinkUpTo | LDD.Core/Meshes/OutlinesGenerator.cs:944-959 | the unlink loop keeps one planar edge per close edge |
| PlanarEdges.UnlinkUpToSpec | LDD.Core/Meshes/OutlinesGenerator.cs:944-959 | after m steps the first m survivors have their orphaned links cleared and every other edge is as it was |
| PlanarEdges.KeepIfPartnerAliveSpec | LDD.Core/Meshes/OutlinesGenerator.cs:946-957 | a link is kept exactly when its other edge exists and survived, and otherwise cleared to null |
| PlanarEdges.UnlinkClosesSurvivors | LDD.Core/Meshes/OutlinesGenerator.cs:943-959 | every surviving edge links only to surviving edges and keeps every link whose other edge survived; removed edges are untouched |
| PlanarEdges.ProjectedCloseEdges | LDD.Core/Meshes/OutlinesGenerator.cs:847-851 | the projected close edges keep their hard edges' links inside the arena and have no pairs yet |
| PlanarEdges.LinkedAndFiltered | LDD.Core/Meshes/OutlinesGenerator.cs:853-939 | pairing and filtering keep one planar edge per close edge |
| PlanarEdges.PlanarEdgesOf | LDD.Core/Meshes/OutlinesGenerator.cs:845-962 | the returned positions are distinct positions of the arena |
| PlanarEdges.SurvivorsAreUnremoved | LDD.Core/Meshes/OutlinesGenerator.cs:941 | an edge survives exactly when no pair's verdict removes it, and every removed edge is flagged |
| PlanarEdges.DeadEndsStayCleared | LDD.Core/Meshes/OutlinesGenerator.cs:896-959 | no dead-end pair is left on either of its edges after removal and unlinking |
| PlanarEdges.PlanarEdgesOfParts | LDD.Core/Meshes/OutlinesGenerator.cs:845-962 | the result is the unlinking of the survivors of the filtered, paired projection |
| PlanarEdges.PlanarEdgesOfSpec | LDD.Core/Meshes/OutlinesGenerator.cs:845-962 | the pair list has no IsEqual duplicates; the result is exactly the close edges no pair removed, removed edges are flagged, survivors link only to survivors, and no dead-end pair is left |
| PlanarEdges.CalculatePlanarEdges | LDD.Core/Meshes/OutlinesGenerator.cs:845-962 | the method's result is the specification PlanarEdgesOf |
| PlanarEdges.LinkPlanarEdges | LDD.Core/Meshes/OutlinesGenerator.cs:856-880 | the link loop computes PairedUpTo over all planar edges |
| PlanarEdges.FilterPair | LDD.Core/Meshes/OutlinesGenerator.cs:896-939 | one pass of the filter loop computes FilterStep |
| PlanarEdges.FilterPairs | LDD.Core/Meshes/OutlinesGenerator.cs:896-939 | the filter loop computes FilteredUpTo over all pairs |
| PlanarEdges.UnlinkRemoved | LDD.Core/Meshes/OutlinesGenerator.cs:944-959 | the unlink loop computes UnlinkUpTo over all survivors |
| ProjectedEdges.ProjectedEdge.UVs | LDD.Core/Meshes/OutlinesGenerator.cs:451 | the three coordinates P1, P2, P3 in that order |
| ProjectedEdges.ValidateValues | LDD.Core/Meshes/OutlinesGenerator.cs:461-479 | only the three flags change, and a flag once set stays set |
| ProjectedEdges.ValidateValuesSpec | LDD.Core/Meshes/OutlinesGenerator.cs:461-479 | NeedsToBeClipped is set when the triangle reaches more than the thickness below the edge or the target vertex is unlinked; IsOutsideTriangle when the triangle lies below the outline and spans more than the thickness; IsDeadEnd exactly when the target vertex is unlinked |
| ProjectedEdges.ReachesBelowLowest | LDD.Core/Meshes/OutlinesGenerator.cs:463-466 | the clip test is the lowest y (Vector2.Min) lying below zero by more than the thickness |
| ProjectedEdges.BelowOutlineSpan | LDD.Core/Meshes/OutlinesGenerator.cs:463-469 | the outside test is the highest y below the thickness with a y span greater than the thickness |
| ProjectedEdges.ProjectTriangle | LDD.Core/Meshes/OutlinesGenerator.cs:964-986 | keeps the planar edge and target vertex, no partner, MinX <= MaxX, dead end exactly when the vertex is unlinked, and then clipped |
| ProjectedEdges.Adjusted | LDD.Core/Meshes/OutlinesGenerator.cs:481-504 | only P1, P2 and P3 change |
| ProjectedEdges.AdjustPointSpec | LDD.Core/Meshes/OutlinesGenerator.cs:487-490 | an adjusted corner times the multiplier gives back the corner shifted left by the smallest X; the corner at the smallest X lands on 0, and with a positive multiplier no corner lands left of it |
| ProjectedEdges.AdjustedSpec | LDD.Core/Meshes/OutlinesGenerator.cs:481-504 | with a positive multiplier the smallest X of P1..P3 becomes 0 and no X is negative |
| ProjectedEdges.AdjustValues | LDD.Core/Meshes/OutlinesGenerator.cs:481-504 | the loop over the three UVs computes Adjusted |
| ProjectedEdges.CreateClippingEdge | LDD.Core/Meshes/OutlinesGenerator.cs:988-1009 | the base edge and the new clipping edge become each other's CombineWith, and nothing else of the base edge changes |
| ProjectedEdges.ClippingEdgeSpec | LDD.Core/Meshes/OutlinesGenerator.cs:988-1009 | the clipping edge is clipped and a dead end at edgeEnd on the base edge's face; its hard edge is unlinked, runs from edgeEnd along the base outline direction (in corrected order), with the plane normal and the direction from the opposite vertex to edgeEnd |
| RoundEdges.RoundEdgeStore.constructor | LDD.Core/Meshes/OutlinesGenerator.cs:1030 | a new store holds no slot writes and keeps the given empty coordinate |
| RoundEdges.RoundEdgeStore.SetCoordsPair | LDD.Core/Meshes/OutlinesGenerator.cs:1030 | sets one slot of one record to the pair and mode and changes no other slot |
| Lists.RemoveFirst | LDD.Core/Meshes/OutlinesGenerator.cs:738 | List.Remove drops one occurrence of a present element and leaves the list alone otherwise |
| Lists.Range | LDD.Core/Meshes/OutlinesGenerator.cs:807-812 | the collected projections as the positions 0 .. n - 1 in order |
| Lists.RangeSpec | LDD.Core/Meshes/OutlinesGenerator.cs:807-812 | Range(n) holds exactly the positions below n, each once |
| Lists.RemoveFirstDistinct | LDD.Core/Meshes/OutlinesGenerator.cs:735-738 | removing from a repeat-free list leaves it repeat-free and without the removed element |
| VertexOutlines.Touching | LDD.Core/Meshes/OutlinesGenerator.cs:729 | exactly the listed planar edges that contain the vertex position |
| VertexOutlines.UsedInIntersection | LDD.Core/Meshes/OutlinesGenerator.cs:734 | exactly the listed edges whose IsUsedInIntersection holds |
| VertexOutlines.UsedInIntersectionNone | LDD.Core/Meshes/OutlinesGenerator.cs:732 | the Any test fails exactly when the Where list is empty |
| VertexOutlines.PruneOne | LDD.Core/Meshes/OutlinesGenerator.cs:735-739 | one pruning step adds nothing and keeps every element except possibly the edge tested |
| VertexOutlines.PrunedUpTo | LDD.Core/Meshes/OutlinesGenerator.cs:732-740 | pruning keeps the list within the arena |
| VertexOutlines.ListInSub | LDD.Core/Meshes/OutlinesGenerator.cs:732-740 | a sub-list of an in-range list is in range |
| VertexOutlines.RemoveFirstMembers | LDD.Core/Meshes/OutlinesGenerator.cs:738 | List.Remove keeps every other element and adds none |
| VertexOutlines.ConnectedToMore | LDD.Core/Meshes/OutlinesGenerator.cs:737 | an edge connected to a member of a sub-list is connected to a member of the list |
| VertexOutlines.LookedStep | LDD.Core/Meshes/OutlinesGenerator.cs:735 | an edge has been visited by step n exactly when visited by step n - 1 or at step n |
| VertexOutlines.PrunedSub | LDD.Core/Meshes/OutlinesGenerator.cs:732-740 | pruning only removes edges |
| VertexOutlines.PrunedKeeps | LDD.Core/Meshes/OutlinesGenerator.cs:732-740 | every edge not yet visited by the loop is still there |
| VertexOutlines.PrunedGone | LDD.Core/Meshes/OutlinesGenerator.cs:735-739 | an edge is gone only if the loop visited it, and then it is connected to no edge that remains |
| VertexOutlines.PrunedSpec | LDD.Core/Meshes/OutlinesGenerator.cs:732-740 | the pruned list is a sub-list that keeps every unvisited edge and whose removed edges were visited and are connected to nothing left |
| VertexOutlines.Projections | LDD.Core/Meshes/OutlinesGenerator.cs:742 | one projection per remaining edge, in order, each ProjectTriangle of that edge at the vertex |
| VertexOutlines.DropOutside | LDD.Core/Meshes/OutlinesGenerator.cs:744 | RemoveAll keeps exactly the projections not outside the triangle |
| VertexOutlines.ClosestDeadEnd | LDD.Core/Meshes/OutlinesGenerator.cs:748-750 | the chosen projection is among those searched |
| VertexOutlines.ClosestDeadEndSpec | LDD.Core/Meshes/OutlinesGenerator.cs:748-750 | nothing is chosen exactly when there is no dead end; otherwise the first dead end whose offset end point is closest to the triangle centre (OrderBy is stable) |
| VertexOutlines.KeepOneDeadEndSpec | LDD.Core/Meshes/OutlinesGenerator.cs:751 | after RemoveAll only the kept dead end remains among dead ends, and every other projection stays |
| VertexOutlines.CountedDeadEnd | LDD.Core/Meshes/OutlinesGenerator.cs:746 | a positive dead-end count means some projection is a dead end |
| VertexOutlines.ReduceDeadEndsSpec | LDD.Core/Meshes/OutlinesGenerator.cs:746-752 | at most one dead end is left; non-dead-ends all stay; with two or more, the one kept is a closest dead end |
| VertexOutlines.CandidatesSpec | LDD.Core/Meshes/OutlinesGenerator.cs:729-752 | each candidate is an unpaired projection, not outside the triangle, of a surviving edge containing the vertex, with at most one dead end; every such edge not used in an intersection whose projection is neither outside nor a dead end is a candidate |
| VertexOutlines.EmissionSpec | LDD.Core/Meshes/OutlinesGenerator.cs:754-804 | no output unless one or two candidates; one candidate is emitted, with a clipping edge when it needs clipping; two colinear unclipped candidates emit the first only; otherwise both are emitted as each other's partner and clipped exactly when already clipped or they must intersect |
| VertexOutlines.EmissionPaired | LDD.Core/Meshes/OutlinesGenerator.cs:754-804 | what one vertex emits is at most two projections, partnered only with each other |
| VertexOutlines.AppendPaired | LDD.Core/Meshes/OutlinesGenerator.cs:786-787 | appending a block that pairs only within itself keeps every partner link mutual |
| VertexOutlines.CandidatesUnpaired | LDD.Core/Meshes/OutlinesGenerator.cs:742 | fresh projections have no partner |
| VertexOutlines.VertexPaired | LDD.Core/Meshes/OutlinesGenerator.cs:754-804 | one vertex adds at most two projections and keeps partner links mutual |
| VertexOutlines.EmittedPaired | LDD.Core/Meshes/OutlinesGenerator.cs:727-805 | after n vertices at most 2n projections were collected and every partner link is mutual |
| VertexOutlines.PruneAtVertex | LDD.Core/Meshes/OutlinesGenerator.cs:729-740 | the pruning loop computes PrunedUpTo over the touching edges used in an intersection |
| VertexOutlines.CandidatesAt | LDD.Core/Meshes/OutlinesGenerator.cs:729-752 | computes the Candidates specification |
| VertexOutlines.EmitAtVertex | LDD.Core/Meshes/OutlinesGenerator.cs:754-804 | computes the Emission specification |
| VertexOutlines.ResolveVertex | LDD.Core/Meshes/OutlinesGenerator.cs:727-805 | one vertex's body computes the Emission of its Candidates |
| OutlineSlots.Partners | LDD.Core/Meshes/OutlinesGenerator.cs:814-818 | each collected projection's CombineWith, by position |
| OutlineSlots.PartnersMutual | LDD.Core/Meshes/OutlinesGenerator.cs:786-787 | partner links of a paired collection are mutual |
| OutlineSlots.FirstCombined | LDD.Core/Meshes/OutlinesGenerator.cs:814-815 | finds a pending projection with a partner when there is one, and none exactly when no pending projection has one |
| OutlineSlots.PickFirst | LDD.Core/Meshes/OutlinesGenerator.cs:814-815 | OrderByDescending(...).FirstOrDefault picks a pending projection |
| OutlineSlots.NextPending | LDD.Core/Meshes/OutlinesGenerator.cs:816-828 | removing the picked projection and its partner leaves a strictly shorter list of pending projections |
| OutlineSlots.NumberedStep | LDD.Core/Meshes/OutlinesGenerator.cs:830 | slots are numbered on from pairIdx and each holds its first projection's partner |
| OutlineSlots.SlotsNumbered | LDD.Core/Meshes/OutlinesGenerator.cs:809-832 | at most three slots, numbered 0, 1, 2 in order, each holding a projection and its CombineWith |
| OutlineSlots.WrittenHolds | LDD.Core/Meshes/OutlinesGenerator.cs:816-828 | every projection and partner of a slot is among those written |
| OutlineSlots.TakeAlone | LDD.Core/Meshes/OutlinesGenerator.cs:816 | removing an unpartnered projection from unpartnered ones keeps them distinct and unpartnered |
| OutlineSlots.TakeOne | LDD.Core/Meshes/OutlinesGenerator.cs:816 | removing one projection leaves the others, each once |
| OutlineSlots.TakeTwo | LDD.Core/Meshes/OutlinesGenerator.cs:816-828 | removing a projection and its partner leaves the others, each once |
| OutlineSlots.PairedAfterTaking | LDD.Core/Meshes/OutlinesGenerator.cs:816-828 | after removing a pair, every remaining partnered projection still has its partner pending |
| OutlineSlots.TakePair | LDD.Core/Meshes/OutlinesGenerator.cs:816-828 | removing a projection and its partner keeps pending projections distinct and their partners pending |
| OutlineSlots.SlotStep | LDD.Core/Meshes/OutlinesGenerator.cs:814-828 | one slot consumes exactly its projection and partner; once an unpartnered projection is picked, none that remain has a partner |
| OutlineSlots.CoverStep | LDD.Core/Meshes/OutlinesGenerator.cs:812-832 | one step keeps "written is a sub-multiset of pending, all of it when the loop stops early, and lone slots come last" |
| OutlineSlots.SlotsCover | LDD.Core/Meshes/OutlinesGenerator.cs:807-833 | no projection is written twice; when fewer than three slots are used every projection is written; partnered slots precede lone ones |
| OutlineSlots.ArenaSlots | LDD.Core/Meshes/OutlinesGenerator.cs:807-833 | at most three slots, numbered from 0, each pairing a projection with its CombineWith |
| OutlineSlots.AllSlots | LDD.Core/Meshes/OutlinesGenerator.cs:807-833 | over a whole collection: no projection written twice, every projection written when fewer than three slots are used, lone slots last |
| OutlineSlots.CombineModeOf | LDD.Core/Meshes/OutlinesGenerator.cs:1013-1016 | Intersection exactly when there is a second projection and either projection needs clipping; otherwise Union |
| OutlineSlots.WriteSlotSpec | LDD.Core/Meshes/OutlinesGenerator.cs:1025-1031 | for three distinct records, corner i's record gets the slot's entry under coordIdx (second projection's UV or the empty coordinate first) and no other entry changes |
| OutlineSlots.SlotWrittenSpec | LDD.Core/Meshes/OutlinesGenerator.cs:1010-1032 | SetOutlineCoords writes the adjusted UVs of the slot into all three corners' records under its number and nothing else |
| OutlineSlots.WriteSlotsKeep | LDD.Core/Meshes/OutlinesGenerator.cs:807-833 | writing numbered slots changes no entry of another record or outside their numbers |
| OutlineSlots.WriteSlotsSpec | LDD.Core/Meshes/OutlinesGenerator.cs:807-833 | every slot leaves its entry in all three records under its own number |
| OutlineSlots.TriangleSlots | LDD.Core/Meshes/OutlinesGenerator.cs:807-833 | a triangle's slot loop leaves each slot's entries under numbers 0.. and keeps every other entry |
| Outlines.OutlineThickness | LDD.Core/Meshes/OutlinesGenerator.cs:16-21 | the outline thickness is positive exactly when the multiplier is, and is 0.013 at multiplier 1 |
| Outlines.InitializedDictionary | LDD.Core/Meshes/OutlinesGenerator.cs:575-596 | the dictionary holds the break angle in radians (threshold / 180 · π), the index of the computed hard edges and those edges after linking |
| Outlines.TriangleArena | LDD.Core/Meshes/OutlinesGenerator.cs:714-805 | the projections collected for one triangle are at most six (two per vertex) with mutual partner links |
| Outlines.TriangleOutlinesKeep | LDD.Core/Meshes/OutlinesGenerator.cs:807-833 | a triangle writes only slots 0, 1, 2 of its own three records |
| Outlines.TriangleOutlinesSpec | LDD.Core/Meshes/OutlinesGenerator.cs:807-833 | no projections: nothing written; otherwise at least one slot, and every slot's entries are in all three records |
| Outlines.KeptStep | LDD.Core/Meshes/OutlinesGenerator.cs:714-834 | an entry untouched by the first n - 1 triangles and by triangle n stays untouched |
| Outlines.OutlinesKeepStep | LDD.Core/Meshes/OutlinesGenerator.cs:714-834 | one more triangle keeps what the earlier ones kept |
| Outlines.OutlinesKeep | LDD.Core/Meshes/OutlinesGenerator.cs:714-834 | after the triangle loop, every entry outside slots 0-2 of the triangles' own records is as it was |
| Outlines.NewDictionary | LDD.Core/Meshes/OutlinesGenerator.cs:704-705 | a new, initialized dictionary is valid and in the initialized state |
| Outlines.CollectOutlines | LDD.Core/Meshes/OutlinesGenerator.cs:720-805 | the vertex loop computes the emissions of the three vertices |
| Outlines.SetOutlineCoords | LDD.Core/Meshes/OutlinesGenerator.cs:1010-1032 | adjusts both projections, then writes the slot into the three records |
| Outlines.AssignSlots | LDD.Core/Meshes/OutlinesGenerator.cs:807-833 | the slot loop writes the ArenaSlots of the collected projections |
| Outlines.OutlineTriangle | LDD.Core/Meshes/OutlinesGenerator.cs:714-834 | one triangle's body writes TriangleOutlines of its projections |
| Outlines.OutlineNext | LDD.Core/Meshes/OutlinesGenerator.cs:714-834 | one iteration extends the fold by one triangle |
| Outlines.OutlineTriangles | LDD.Core/Meshes/OutlinesGenerator.cs:714-834 | the triangle loop computes OutlinesUpTo over all triangles |
| Outlines.OutlinesGenerator.constructor | LDD.Core/Meshes/OutlinesGenerator.cs:666-670 | angle threshold 35 and multiplier 1 |
| Outlines.OutlinesGenerator.WithSettings | LDD.Core/Meshes/OutlinesGenerator.cs:672-676 | keeps the given angle threshold and multiplier |
| Outlines.OutlinesGenerator.GenerateOutlines | LDD.Core/Meshes/OutlinesGenerator.cs:697-838 | the store afterwards is the fold of every triangle's outlines over the initialized dictionary |

## Left out

- Floating-point geometry is not computed. Plane projection, `AngleBetween`, `Normalized`, `Rounded`, `Line.Intersect`/`AreParallel`, `LineSegment2D` and `Triangle2D.IntersectsLine` (`LDD.Core/Meshes/OutlinesGenerator.cs:507-565`) are functions of an uninterpreted `Kernel`. The model proves nothing numeric about them, so float rounding, NaN and infinity are not captured.
- `Edge.IsInside` (`LDD.Core/Meshes/Edge.cs:81-88`) is float geometry and is not part of this model.
- `Stopwatch` timing and `Console.WriteLine` in `GenerateOutlines` are I/O and are left out.
- The empty debug probes in `LinkEdges` and the commented-out code (`combineStandAlones`, the test points) do nothing and are left out.
- The empty `Count > 2` branch of the vertex loop is modelled only as "emits nothing".
- `RoundEdgeData` is not part of this model. It is a map from (vertex-index record, slot) to (coordA, coordB, mode). This assumes each vertex-index record owns its own `RoundEdgeData` object. A `RoundEdgeData` shared by several records (such as the initial `NoOutline` instance) is not modelled, and writes through one record would then show at the others. `EmptyCoord` is a constant given to the store, not its actual value.
- `Triangle`, `Vertex` and `VertexIndex` internals are not part of this model. A triangle supplies its three vertices, its normal and centre, and the identities of its three vertex-index records.
- The public static `CalculateHardEdges(IEnumerable<Triangle>, float)` (`LDD.Core/Meshes/OutlinesGenerator.cs:686-695`) is left out. It is not called by `GenerateOutlines`; it only converts the dictionary's hard edges to distinct `SimpleEdge`s.
- Property setters and the unused `BreakAngle` degree value are modelled only where the generator reads them.
- Object identity and aliasing are not modelled. Hard edges, planar edges and projections live in arenas and refer to each other by position. `ProjectedEdge.ValidateValues`, `AdjustValues` and the `CombineWith`/`NeedsToBeClipped` updates in the vertex loop return new values instead of writing to shared objects. Comparison by reference (`List.Remove`, `Contains`, `!=` on projections) becomes comparison of arena positions.
- Outlines.OutlinesGenerator.GenerateOutlines: requires a non-zero thickness multiplier. `AdjustValues` divides by it, and with 0 the float source writes infinities or NaN, which the real-valued model cannot represent.
- Outlines.SetOutlineCoords: takes the multiplier as a parameter instead of reading the generator's property, and, like Outlines.AssignSlots, requires it to be non-zero for the same reason.
- ProjectedEdges.AdjustValues: requires a non-zero multiplier for the same reason; the source's default argument of 1 is the caller's choice.
- OutlineSlots.WriteSlotSpec: states the written entries only for triangles whose three vertex-index records are distinct. When two corners share a record, the later corner overwrites the earlier one, and that is modelled but not characterised.
- HardEdgeIndex.SharedVertexMatchSpec: `OrderBy(...).ThenBy(...).FirstOrDefault()` is stable, so among tied candidates the earliest listed is chosen. This is stated through BestPositionSpec and not as a separate stability lemma.
- OutlineSlots.TriangleSlots, Outlines.TriangleOutlinesSpec, Outlines.TriangleOutlinesKeep and Outlines.OutlinesKeep: require distinct vertex-index records per triangle for the same reason.
- ProjectedEdges.AdjustedSpec: states the shift and scale per corner through ProjectedEdges.AdjustPointSpec and ProjectedEdges.Adjusted, not as one lemma over all three UVs. The combined statement, with three nonlinear real equalities, is beyond what the verifier settles reliably.
