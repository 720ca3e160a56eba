/**
 * Hard-edge detection (OutlinesGenerator.cs: SimpleEdge, FaceEdge, HardEdge
 * and the private CalculateHardEdges). Every triangle edge of non-zero length
 * is registered under its unordered, rounded end points; a key owned by one
 * triangle is a mesh boundary and yields one hard edge, and on a key shared by
 * several triangles a face yields a hard edge when no other owning face is
 * within the break angle of it. Every emitted edge is finally put in order.
 */
module HardEdges {
  import opened Wrappers
  import opened Geometry
  import Edges

  /** The distance CorrectOrder allows between the recomputed and the stored face normal. */
  const OrderTolerance: real := 0.2

  // ---------------------------------------------------------------- SimpleEdge

  /** A segment between two rounded positions; its identity ignores the order of the two. */
  datatype SimpleEdge = SimpleEdge(p1: Vector3, p2: Vector3)

  /** new SimpleEdge(edge): the rounded positions of the edge's end points. */
  function FromEdge(e: Edges.Edge, k: Kernel): (se: SimpleEdge)
    ensures se.p1 == k.rounded(e.p1.position) && se.p2 == k.rounded(e.p2.position)
  {
    SimpleEdge(k.rounded(e.p1.position), k.rounded(e.p2.position))
  }

  /** The unordered pair of end points, the true key of a SimpleEdge. */
  function Key(se: SimpleEdge): multiset<Vector3> {
    multiset{se.p1, se.p2}
  }

  /** SimpleEdge.Equals(other): the same end points in either order. */
  predicate SimpleEquals(se: SimpleEdge, other: SimpleEdge) {
    (other.p1 == se.p1 && other.p2 == se.p2) || (other.p1 == se.p2 && other.p2 == se.p1)
  }

  /** SimpleEdge.Contains(pt). */
  predicate SimpleContains(se: SimpleEdge, pt: Vector3) {
    se.p1 == pt || se.p2 == pt
  }

  /** SimpleEdge equality is equality of the unordered pairs, and Contains is membership in it. */
  lemma SimpleEqualsMeansSameKey(se: SimpleEdge, other: SimpleEdge, pt: Vector3)
    ensures SimpleEquals(se, other) <==> Key(other) == Key(se)
    ensures SimpleContains(se, pt) <==> pt in Key(se)
  {
    Edges.UnorderedPair(other.p1, other.p2, se.p1, se.p2);
  }

  /** SimpleEdge equality is an equivalence, as a dictionary key's equality must be. */
  lemma SimpleEqualsEquivalence(a: SimpleEdge, b: SimpleEdge, c: SimpleEdge)
    ensures SimpleEquals(a, a)
    ensures SimpleEquals(a, b) ==> SimpleEquals(b, a)
    ensures SimpleEquals(a, b) && SimpleEquals(b, c) ==> SimpleEquals(a, c)
  {
  }

  /** SimpleEdge.GetHashCode(): the order-independent hash of the two positions. */
  function SimpleHash(se: SimpleEdge, k: Kernel): (h: Int32)
    ensures h == PairHash(k.hash(se.p2), k.hash(se.p1))
  {
    PairHashSymmetric(k.hash(se.p1), k.hash(se.p2));
    PairHash(k.hash(se.p1), k.hash(se.p2))
  }

  /** (a, b) equals (b, a), and they hash alike. */
  lemma SimpleEqualsIgnoresOrder(a: Vector3, b: Vector3, k: Kernel)
    ensures SimpleEquals(SimpleEdge(a, b), SimpleEdge(b, a))
    ensures SimpleHash(SimpleEdge(a, b), k) == SimpleHash(SimpleEdge(b, a), k)
  {
  }

  /**
   * Equal keys hash equally, so a dictionary keyed by SimpleEdge behaves as a
   * map from the unordered pair `Key` — which is how the model stores it.
   */
  lemma SimpleEqualKeysHashEqually(a: SimpleEdge, b: SimpleEdge, k: Kernel)
    requires SimpleEquals(a, b)
    ensures SimpleHash(a, k) == SimpleHash(b, k)
  {
  }

  // ------------------------------------------------------------------ FaceEdge

  /** A registered edge seen from one of the triangles that own it. */
  datatype FaceEdge = FaceEdge(face: nat, p1: Vector3, p2: Vector3, faceNormal: Vector3, edgeNormal: Vector3)

  /** new FaceEdge(edge, face): the face's normal and the averaged normal of its two end vertices. */
  function NewFaceEdge(se: SimpleEdge, face: nat, tri: Triangle, k: Kernel): (fe: FaceEdge)
    ensures fe.face == face && fe.p1 == se.p1 && fe.p2 == se.p2
    ensures fe.faceNormal == k.rounded(tri.normal)
    ensures fe.edgeNormal == k.edgeNormal(k.vertexNormalAt(tri, se.p1), k.vertexNormalAt(tri, se.p2))
  {
    FaceEdge(face, se.p1, se.p2, k.rounded(tri.normal),
             k.edgeNormal(k.vertexNormalAt(tri, se.p1), k.vertexNormalAt(tri, se.p2)))
  }

  /**
   * The remainder of C#'s float `%` (IEEE fmod): the dividend itself when it is
   * smaller than the divisor in magnitude, otherwise what is left after
   * truncated division.
   */
  function FloatRem(x: real, m: real): (r: real)
    requires m > 0.0
    ensures -m < x < m ==> r == x
  {
    if -m < x < m then x
    else
      var q := x / m;
      var t := if q >= 0.0 then q.Floor else -((-q).Floor);
      x - m * t as real
  }

  /**
   * FaceEdge.GetNormalDiff(other): the angle between the two EDGE normals
   * (the face normals are not consulted), with a negative angle moved into
   * [0, 2*pi).
   */
  function GetNormalDiff(fe: FaceEdge, other: FaceEdge, k: Kernel): (r: real)
    ensures var a := k.angleBetween(fe.edgeNormal, other.edgeNormal);
            (a >= 0.0 ==> r == a) && (-2.0 * FPi < a < 0.0 ==> r == 2.0 * FPi + a)
  {
    var a := k.angleBetween(fe.edgeNormal, other.edgeNormal);
    if a < 0.0 then FloatRem(2.0 * FPi + a, 2.0 * FPi) else a
  }

  /** The normal difference of two face edges does not depend on their face normals. */
  lemma NormalDiffIgnoresFaceNormal(fe: FaceEdge, other: FaceEdge, n1: Vector3, n2: Vector3, k: Kernel)
    ensures GetNormalDiff(fe.(faceNormal := n1), other.(faceNormal := n2), k) == GetNormalDiff(fe, other, k)
  {
  }

  // ------------------------------------------------------------------ HardEdge

  /**
   * A hard edge: a segment, the normals of the face it came from, the outward
   * outline direction in that face, and the optional links to the previous
   * and next hard edges of its chain (indices into the hard-edge arena).
   */
  datatype HardEdge = HardEdge(p1: Vector3, p2: Vector3,
                               faceNormal: Vector3, edgeNormal: Vector3, outlineDirection: Vector3,
                               prevEdge: Option<nat>, nextEdge: Option<nat>)

  /** new HardEdge(edge, face): normals and outline direction from the owning face, no links. */
  function NewHardEdge(se: SimpleEdge, tri: Triangle, k: Kernel): (he: HardEdge)
    ensures he.p1 == se.p1 && he.p2 == se.p2
    ensures he.faceNormal == k.rounded(tri.normal)
    ensures he.edgeNormal == k.edgeNormal(k.vertexNormalAt(tri, se.p1), k.vertexNormalAt(tri, se.p2))
    ensures he.outlineDirection == k.perpendicular(se.p1, se.p2, tri.center)
    ensures he.prevEdge.None? && he.nextEdge.None?
  {
    HardEdge(se.p1, se.p2, k.rounded(tri.normal),
             k.edgeNormal(k.vertexNormalAt(tri, se.p1), k.vertexNormalAt(tri, se.p2)),
             k.perpendicular(se.p1, se.p2, tri.center), None, None)
  }

  /** new HardEdge(p1, p2, faceNormal, outlineDirection): the edge normal keeps its default value. */
  function NewLooseHardEdge(p1: Vector3, p2: Vector3, faceNormal: Vector3, outlineDirection: Vector3, k: Kernel): (he: HardEdge)
    ensures he.p1 == p1 && he.p2 == p2 && he.faceNormal == faceNormal && he.outlineDirection == outlineDirection
    ensures he.edgeNormal == k.zero
    ensures he.prevEdge.None? && he.nextEdge.None?
  {
    HardEdge(p1, p2, faceNormal, k.zero, outlineDirection, None, None)
  }

  /** The same hard edge with P1 and P2 exchanged. */
  function Swapped(he: HardEdge): HardEdge {
    he.(p1 := he.p2, p2 := he.p1)
  }

  /** How far the recomputed face normal cross((P2 - P1).Normalized(), OutlineDirection) is from FaceNormal. */
  function OrderDeviation(he: HardEdge, k: Kernel): real {
    k.orderDeviation(he.p1, he.p2, he.outlineDirection, he.faceNormal)
  }

  /**
   * HardEdge.CorrectOrder(): swaps P1 and P2 when the recomputed face normal is
   * more than 0.2 away from the stored one; nothing else ever changes.
   */
  function CorrectOrder(he: HardEdge, k: Kernel): (r: HardEdge)
    ensures OrderDeviation(he, k) <= OrderTolerance ==> r == he
    ensures OrderDeviation(he, k) > OrderTolerance ==> r == Swapped(he)
  {
    if OrderDeviation(he, k) > OrderTolerance then Swapped(he) else he
  }

  /** CorrectOrder keeps the segment, the normals, the outline direction and the links. */
  lemma CorrectOrderKeepsEdge(he: HardEdge, k: Kernel)
    ensures var r := CorrectOrder(he, k);
      multiset{r.p1, r.p2} == multiset{he.p1, he.p2} &&
      r.faceNormal == he.faceNormal && r.edgeNormal == he.edgeNormal &&
      r.outlineDirection == he.outlineDirection &&
      r.prevEdge == he.prevEdge && r.nextEdge == he.nextEdge
  {
  }

  /**
   * Applying CorrectOrder twice gives the same as once exactly when one of the
   * two orientations passes the test (or the edge has one end point): the
   * check is geometric, so idempotence is not automatic.
   */
  lemma CorrectOrderTwice(he: HardEdge, k: Kernel)
    ensures CorrectOrder(CorrectOrder(he, k), k) == CorrectOrder(he, k) <==>
      (OrderDeviation(he, k) <= OrderTolerance || OrderDeviation(Swapped(he), k) <= OrderTolerance || he.p1 == he.p2)
  {
    if OrderDeviation(he, k) > OrderTolerance && OrderDeviation(Swapped(he), k) > OrderTolerance {
      assert CorrectOrder(CorrectOrder(he, k), k) == he;
      if he == Swapped(he) {
        assert he.p1 == Swapped(he).p1;
      }
    }
  }

  /**
   * HardEdge.Equals(other). The source's `A || B && C && D` binds as
   * `A || (B && C && D)`: the same orientation matches whatever the normals,
   * the reversed orientation only with equal edge and face normals.
   */
  function HardEdgeEquals(he: HardEdge, other: HardEdge): (r: bool)
    ensures other.p1 == he.p1 && other.p2 == he.p2 ==> r
    ensures r && (other.p1 != he.p1 || other.p2 != he.p2) ==>
      other.edgeNormal == he.edgeNormal && other.faceNormal == he.faceNormal
    ensures (other.p1 == he.p2 && other.p2 == he.p1 &&
             other.edgeNormal == he.edgeNormal && other.faceNormal == he.faceNormal) ==> r
  {
    (other.p1 == he.p1 && other.p2 == he.p2) ||
    (other.p1 == he.p2 && other.p2 == he.p1 && other.edgeNormal == he.edgeNormal && other.faceNormal == he.faceNormal)
  }

  /** HardEdge equality is reflexive and symmetric, and ignores the links. */
  lemma HardEdgeEqualsProperties(a: HardEdge, b: HardEdge, p: Option<nat>, n: Option<nat>)
    ensures HardEdgeEquals(a, b) ==> multiset{b.p1, b.p2} == multiset{a.p1, a.p2}
    ensures HardEdgeEquals(a, a)
    ensures HardEdgeEquals(a, b) == HardEdgeEquals(b, a)
    ensures HardEdgeEquals(a.(prevEdge := p, nextEdge := n), b) == HardEdgeEquals(a, b)
  {
  }

  /** HardEdge.GetHashCode(): the unordered end-point hash, then the edge normal, then the face normal. */
  function HardEdgeHash(he: HardEdge, k: Kernel): Int32 {
    HashStep(HashStep(PairHash(k.hash(he.p1), k.hash(he.p2)), k.hash(he.edgeNormal)), k.hash(he.faceNormal))
  }

  /** The hard-edge hash ignores the order of the end points and the links. */
  lemma HardEdgeHashIgnoresOrder(he: HardEdge, p: Option<nat>, n: Option<nat>, k: Kernel)
    ensures HardEdgeHash(Swapped(he), k) == HardEdgeHash(he, k)
    ensures HardEdgeHash(he.(prevEdge := p, nextEdge := n), k) == HardEdgeHash(he, k)
  {
    PairHashSymmetric(k.hash(he.p1), k.hash(he.p2));
  }

  /** HardEdge.Contains(position). */
  predicate HardEdgeContains(he: HardEdge, position: Vector3) {
    he.p1 == position || he.p2 == position
  }

  /** HardEdge.GetOpposite(position): P2 when the position is P1, and P1 otherwise. */
  function GetOpposite(he: HardEdge, position: Vector3): (r: Vector3)
    ensures r == he.p1 || r == he.p2
    ensures HardEdgeContains(he, position) ==> (position == he.p1 && r == he.p2) || (position == he.p2 && r == he.p1)
  {
    if he.p1 == position then he.p2 else he.p1
  }

  /** On an end point, GetOpposite gives the other end point: together they are the segment. */
  lemma GetOppositeCompletesSegment(he: HardEdge, position: Vector3)
    ensures HardEdgeContains(he, position) <==> position in multiset{he.p1, he.p2}
    ensures HardEdgeContains(he, position) ==> multiset{position, GetOpposite(he, position)} == multiset{he.p1, he.p2}
  {
  }

  // --------------------------------------------------------- CalculateHardEdges

  /** One registration: a non-degenerate rounded triangle edge and the triangle that owns it. */
  datatype Occurrence = Occurrence(edge: SimpleEdge, owner: nat)

  /** What edge `i` of triangle `t` registers: nothing when its rounded end points coincide. */
  function EdgeOccurrence(tris: seq<Triangle>, t: nat, i: nat, k: Kernel): seq<Occurrence>
    requires t < |tris| && i < 3
  {
    var se := FromEdge(Edges.TriangleEdge(tris[t], i), k);
    if se.p1 == se.p2 then [] else [Occurrence(se, t)]
  }

  /** The registrations made by the first `n` edges of triangle `t`. */
  function TriangleOccurrences(tris: seq<Triangle>, t: nat, n: nat, k: Kernel): seq<Occurrence>
    requires t < |tris| && n <= 3
  {
    if n == 0 then [] else TriangleOccurrences(tris, t, n - 1, k) + EdgeOccurrence(tris, t, n - 1, k)
  }

  /** The registrations made by the first `t` triangles, in the source's loop order. */
  function Occurrences(tris: seq<Triangle>, t: nat, k: Kernel): seq<Occurrence>
    requires t <= |tris|
  {
    if t == 0 then [] else Occurrences(tris, t - 1, k) + TriangleOccurrences(tris, t - 1, 3, k)
  }

  /** Every registration is a non-degenerate edge of one of the triangles. */
  lemma {:induction false} OccurrencesWellFormed(tris: seq<Triangle>, t: nat, k: Kernel)
    requires t <= |tris|
    ensures forall o :: o in Occurrences(tris, t, k) ==> o.edge.p1 != o.edge.p2 && o.owner < t
    decreases t
  {
    if t > 0 {
      OccurrencesWellFormed(tris, t - 1, k);
      TriangleOccurrencesWellFormed(tris, t - 1, 3, k);
    }
  }

  lemma {:induction false} TriangleOccurrencesWellFormed(tris: seq<Triangle>, t: nat, n: nat, k: Kernel)
    requires t < |tris| && n <= 3
    ensures forall o :: o in TriangleOccurrences(tris, t, n, k) ==> o.edge.p1 != o.edge.p2 && o.owner == t
    decreases n
  {
    if n > 0 {
      TriangleOccurrencesWellFormed(tris, t, n - 1, k);
    }
  }

  datatype SharedEntry = SharedEntry(key: SimpleEdge, owners: seq<nat>)
  function FindEntry(entries: seq<SharedEntry>, se: SimpleEdge): (r: Option<nat>)
    ensures r.Some? ==> r.value < |entries| && SimpleEquals(entries[r.value].key, se)
  {
    if entries == [] then None
    else if SimpleEquals(entries[|entries| - 1].key, se) then Some(|entries| - 1)
    else FindEntry(entries[..|entries| - 1], se)
  }
  lemma {:induction false} FindEntryNone(entries: seq<SharedEntry>, se: SimpleEdge)
    requires FindEntry(entries, se).None?
    ensures forall j :: 0 <= j < |entries| ==> !SimpleEquals(entries[j].key, se)
    decreases |entries|
  {
    if entries != [] {
      FindEntryNone(entries[..|entries| - 1], se);
    }
  }

  function Register(entries: seq<SharedEntry>, o: Occurrence): seq<SharedEntry> {
    match FindEntry(entries, o.edge)
    case None => entries + [SharedEntry(o.edge, [o.owner])]
    case Some(j) => entries[j := entries[j].(owners := entries[j].owners + [o.owner])]
  }
  function SharedEdges(occ: seq<Occurrence>): seq<SharedEntry> {
    if occ == [] then [] else Register(SharedEdges(occ[..|occ| - 1]), occ[|occ| - 1])
  }
  predicate OwnersBelow(entries: seq<SharedEntry>, n: nat) {
    forall j, a :: 0 <= j < |entries| && 0 <= a < |entries[j].owners| ==> entries[j].owners[a] < n
  }
  lemma RegisterOwnersBelow(entries: seq<SharedEntry>, o: Occurrence, n: nat)
    requires OwnersBelow(entries, n) && o.owner < n
    ensures OwnersBelow(Register(entries, o), n)
  {
    var r := Register(entries, o);
    match FindEntry(entries, o.edge)
    case None =>
      assert r == entries + [SharedEntry(o.edge, [o.owner])];
      forall j, a | 0 <= j < |r| && 0 <= a < |r[j].owners|
        ensures r[j].owners[a] < n
      {
        if j < |entries| {
          assert r[j] == entries[j];
        }
      }
    case Some(i) =>
      forall j, a | 0 <= j < |r| && 0 <= a < |r[j].owners|
        ensures r[j].owners[a] < n
      {
        if j != i {
          assert r[j] == entries[j];
        } else {
          assert r[j].owners == entries[i].owners + [o.owner];
        }
      }
  }

  lemma {:induction false} SharedEdgesOwnersBelow(occ: seq<Occurrence>, n: nat)
    requires forall o :: o in occ ==> o.owner < n
    ensures OwnersBelow(SharedEdges(occ), n)
    decreases |occ|
  {
    if occ != [] {
      assert forall x :: x in occ[..|occ| - 1] ==> x in occ;
      SharedEdgesOwnersBelow(occ[..|occ| - 1], n);
      assert occ[|occ| - 1] in occ;
      RegisterOwnersBelow(SharedEdges(occ[..|occ| - 1]), occ[|occ| - 1], n);
    }
  }

  function OwnersOf(occ: seq<Occurrence>, key: SimpleEdge): seq<nat> {
    if occ == [] then []
    else OwnersOf(occ[..|occ| - 1], key) + (if SimpleEquals(occ[|occ| - 1].edge, key) then [occ[|occ| - 1].owner] else [])
  }

  lemma {:induction false} OwnersNone(occ: seq<Occurrence>, key: SimpleEdge)
    requires forall o :: o in occ ==> !SimpleEquals(o.edge, key)
    ensures OwnersOf(occ, key) == []
    decreases |occ|
  {
    if occ != [] {
      assert occ[|occ| - 1] in occ;
      assert forall x :: x in occ[..|occ| - 1] ==> x in occ;
      OwnersNone(occ[..|occ| - 1], key);
    }
  }

  /** No two keys of the dictionary are equal. */
  predicate KeysDistinct(es: seq<SharedEntry>) {
    forall i, j :: 0 <= i < j < |es| ==> !SimpleEquals(es[i].key, es[j].key)
  }

  /** Every registered edge has an entry. */
  predicate Covers(es: seq<SharedEntry>, occ: seq<Occurrence>) {
    forall o :: o in occ ==> exists j :: 0 <= j < |es| && SimpleEquals(es[j].key, o.edge)
  }

  /** Every entry lists exactly the owners registered under its key, and at least one. */
  predicate OwnersExact(es: seq<SharedEntry>, occ: seq<Occurrence>) {
    forall j :: 0 <= j < |es| ==> es[j].owners == OwnersOf(occ, es[j].key) && es[j].owners != []
  }

  /** What a dictionary keyed by unordered pairs promises about its entries after registrations `occ`. */
  predicate DictionaryOf(es: seq<SharedEntry>, occ: seq<Occurrence>) {
    KeysDistinct(es) && Covers(es, occ) && OwnersExact(es, occ)
  }

  /** A new key is equal to no registered edge. */
  lemma NewKeyUnregistered(es: seq<SharedEntry>, occ: seq<Occurrence>, o: Occurrence)
    requires Covers(es, occ) && FindEntry(es, o.edge).None?
    ensures OwnersOf(occ, o.edge) == []
  {
    FindEntryNone(es, o.edge);
    forall x | x in occ
      ensures !SimpleEquals(x.edge, o.edge)
    {
      var j :| 0 <= j < |es| && SimpleEquals(es[j].key, x.edge);
      SimpleEqualsEquivalence(es[j].key, x.edge, o.edge);
    }
    OwnersNone(occ, o.edge);
  }

  /** Registering a new key appends an entry and keeps the dictionary's promises. */
  lemma RegisterNewKey(es: seq<SharedEntry>, occ: seq<Occurrence>, o: Occurrence)
    requires DictionaryOf(es, occ) && FindEntry(es, o.edge).None?
    ensures DictionaryOf(Register(es, o), occ + [o])
  {
    NewKeyUnregistered(es, occ, o);
    FindEntryNone(es, o.edge);
    var r := es + [SharedEntry(o.edge, [o.owner])];
    assert Register(es, o) == r;
    NewKeyDistinct(es, o);
    NewKeyCovers(es, occ, o);
    NewKeyOwners(es, occ, o);
  }

  lemma NewKeyDistinct(es: seq<SharedEntry>, o: Occurrence)
    requires KeysDistinct(es)
    requires forall j :: 0 <= j < |es| ==> !SimpleEquals(es[j].key, o.edge)
    ensures KeysDistinct(es + [SharedEntry(o.edge, [o.owner])])
  {
    var r := es + [SharedEntry(o.edge, [o.owner])];
    forall i, j | 0 <= i < j < |r|
      ensures !SimpleEquals(r[i].key, r[j].key)
    {
      if j == |es| {
        assert r[i] == es[i];
      } else {
        assert r[i] == es[i] && r[j] == es[j];
      }
    }
  }

  lemma NewKeyCovers(es: seq<SharedEntry>, occ: seq<Occurrence>, o: Occurrence)
    requires Covers(es, occ)
    ensures Covers(es + [SharedEntry(o.edge, [o.owner])], occ + [o])
  {
    var r := es + [SharedEntry(o.edge, [o.owner])];
    forall x | x in occ + [o]
      ensures exists j :: 0 <= j < |r| && SimpleEquals(r[j].key, x.edge)
    {
      if x == o {
        assert SimpleEquals(r[|es|].key, x.edge);
      } else {
        assert x in occ;
        var j :| 0 <= j < |es| && SimpleEquals(es[j].key, x.edge);
        assert r[j] == es[j];
      }
    }
  }

  lemma NewKeyOwners(es: seq<SharedEntry>, occ: seq<Occurrence>, o: Occurrence)
    requires OwnersExact(es, occ) && OwnersOf(occ, o.edge) == []
    requires forall j :: 0 <= j < |es| ==> !SimpleEquals(es[j].key, o.edge)
    ensures OwnersExact(es + [SharedEntry(o.edge, [o.owner])], occ + [o])
  {
    var r := es + [SharedEntry(o.edge, [o.owner])];
    var occ' := occ + [o];
    assert occ'[..|occ|] == occ;
    forall j | 0 <= j < |r|
      ensures r[j].owners == OwnersOf(occ', r[j].key) && r[j].owners != []
    {
      if j < |es| {
        assert r[j] == es[j];
        assert !SimpleEquals(o.edge, es[j].key);
      }
    }
  }

  /** Registering a known key extends that entry's list and keeps the dictionary's promises. */
  lemma RegisterKnownKey(es: seq<SharedEntry>, occ: seq<Occurrence>, o: Occurrence)
    requires DictionaryOf(es, occ) && FindEntry(es, o.edge).Some?
    ensures DictionaryOf(Register(es, o), occ + [o])
  {
    var occ' := occ + [o];
    var r := Register(es, o);
    var i := FindEntry(es, o.edge).value;
    assert occ'[..|occ|] == occ;
    assert |r| == |es|;
    assert forall j :: 0 <= j < |r| ==> r[j].key == es[j].key;
    forall x | x in occ'
      ensures exists j :: 0 <= j < |r| && SimpleEquals(r[j].key, x.edge)
    {
      if x == o {
        assert SimpleEquals(r[i].key, x.edge);
      } else {
        assert x in occ;
        var j :| 0 <= j < |es| && SimpleEquals(es[j].key, x.edge);
        assert SimpleEquals(r[j].key, x.edge);
      }
    }
    forall j | 0 <= j < |r|
      ensures r[j].owners == OwnersOf(occ', r[j].key) && r[j].owners != []
    {
      if j != i {
        assert r[j] == es[j];
        SimpleEqualsEquivalence(es[i].key, o.edge, es[j].key);
        SimpleEqualsEquivalence(es[i].key, es[j].key, es[i].key);
        assert !SimpleEquals(o.edge, es[j].key);
      }
    }
  }

  lemma RegisterKeepsDictionary(es: seq<SharedEntry>, occ: seq<Occurrence>, o: Occurrence)
    requires DictionaryOf(es, occ)
    ensures DictionaryOf(Register(es, o), occ + [o])
  {
    if FindEntry(es, o.edge).None? {
      RegisterNewKey(es, occ, o);
    } else {
      RegisterKnownKey(es, occ, o);
    }
  }

  lemma {:induction false} SharedEdgesCorrect(occ: seq<Occurrence>)
    ensures DictionaryOf(SharedEdges(occ), occ)
    decreases |occ|
  {
    if occ != [] {
      var before := occ[..|occ| - 1];
      var last := occ[|occ| - 1];
      assert before + [last] == occ;
      assert SharedEdges(occ) == Register(SharedEdges(before), last);
      SharedEdgesCorrect(before);
      RegisterKeepsDictionary(SharedEdges(before), before, last);
    }
  }

  /** One more registration is one more dictionary update. */
  lemma SharedEdgesAppend(occ: seq<Occurrence>, o: Occurrence)
    ensures SharedEdges(occ + [o]) == Register(SharedEdges(occ), o)
  {
    assert (occ + [o])[..|occ|] == occ;
  }

  /** Some other owning face is within the break angle of face `a` (by edge-normal difference). */
  predicate HasCloseFace(fes: seq<FaceEdge>, a: nat, breakAngle: real, k: Kernel)
    requires a < |fes|
  {
    exists c :: 0 <= c < |fes| && c != a && GetNormalDiff(fes[c], fes[a], k) < breakAngle
  }

  /** The face edges of a key, one per owning triangle. */
  function FaceEdgesOf(key: SimpleEdge, owners: seq<nat>, tris: seq<Triangle>, k: Kernel): (fes: seq<FaceEdge>)
    requires forall a :: 0 <= a < |owners| ==> owners[a] < |tris|
    ensures |fes| == |owners|
  {
    seq(|owners|, a requires 0 <= a < |owners| => NewFaceEdge(key, owners[a], tris[owners[a]], k))
  }

  /**
   * The hard edges the first `n` faces of a shared key yield: one for each face
   * with no close neighbour, in owner order.
   */
  function SharpEdges(key: SimpleEdge, owners: seq<nat>, fes: seq<FaceEdge>, n: nat, tris: seq<Triangle>, breakAngle: real, k: Kernel): seq<HardEdge>
    requires n <= |fes| == |owners|
    requires forall a :: 0 <= a < |owners| ==> owners[a] < |tris|
  {
    if n == 0 then []
    else
      SharpEdges(key, owners, fes, n - 1, tris, breakAngle, k) +
      (if HasCloseFace(fes, n - 1, breakAngle, k) then [] else [NewHardEdge(key, tris[owners[n - 1]], k)])
  }

  /** The hard edges one dictionary entry yields, before CorrectOrder. */
  function EmitForKey(key: SimpleEdge, owners: seq<nat>, tris: seq<Triangle>, breakAngle: real, k: Kernel): seq<HardEdge>
    requires forall a :: 0 <= a < |owners| ==> owners[a] < |tris|
  {
    if |owners| == 1 then [NewHardEdge(key, tris[owners[0]], k)]
    else
      var fes := FaceEdgesOf(key, owners, tris, k);
      SharpEdges(key, owners, fes, |fes|, tris, breakAngle, k)
  }

  /**
   * A face of a shared key yields a hard edge exactly when no other owning face
   * is within the break angle of it; nothing else is emitted.
   */
  lemma {:induction false} SharpEdgesExactly(key: SimpleEdge, owners: seq<nat>, fes: seq<FaceEdge>, n: nat, tris: seq<Triangle>, breakAngle: real, k: Kernel, he: HardEdge)
    requires n <= |fes| == |owners|
    requires forall a :: 0 <= a < |owners| ==> owners[a] < |tris|
    ensures he in SharpEdges(key, owners, fes, n, tris, breakAngle, k) <==>
      exists a :: 0 <= a < n && !HasCloseFace(fes, a, breakAngle, k) && he == NewHardEdge(key, tris[owners[a]], k)
    ensures |SharpEdges(key, owners, fes, n, tris, breakAngle, k)| <= n
    decreases n
  {
    if n > 0 {
      SharpEdgesExactly(key, owners, fes, n - 1, tris, breakAngle, k, he);
    }
  }

  /**
   * Two faces sharing an edge whose edge normals are within the break angle of
   * each other (the surface is smooth there) yield no hard edge.
   */
  lemma SmoothPairYieldsNothing(key: SimpleEdge, owners: seq<nat>, tris: seq<Triangle>, breakAngle: real, k: Kernel)
    requires |owners| == 2 && owners[0] < |tris| && owners[1] < |tris|
    requires var fes := FaceEdgesOf(key, owners, tris, k);
      GetNormalDiff(fes[0], fes[1], k) < breakAngle && GetNormalDiff(fes[1], fes[0], k) < breakAngle
    ensures EmitForKey(key, owners, tris, breakAngle, k) == []
  {
    var fes := FaceEdgesOf(key, owners, tris, k);
    assert HasCloseFace(fes, 0, breakAngle, k) && HasCloseFace(fes, 1, breakAngle, k);
    assert SharpEdges(key, owners, fes, 1, tris, breakAngle, k) == [];
  }

  /** A key owned by one triangle (a mesh boundary) yields exactly that triangle's hard edge. */
  lemma BoundaryYieldsOne(key: SimpleEdge, owner: nat, tris: seq<Triangle>, breakAngle: real, k: Kernel)
    requires owner < |tris|
    ensures EmitForKey(key, [owner], tris, breakAngle, k) == [NewHardEdge(key, tris[owner], k)]
  {
  }

  /** The hard edges of the entries `entries[..j]`, in dictionary order, before CorrectOrder. */
  function EmitEntries(entries: seq<SharedEntry>, j: nat, tris: seq<Triangle>, breakAngle: real, k: Kernel): seq<HardEdge>
    requires j <= |entries| && OwnersBelow(entries, |tris|)
  {
    if j == 0 then []
    else
      EmitEntries(entries, j - 1, tris, breakAngle, k) + EmitForKey(entries[j - 1].key, entries[j - 1].owners, tris, breakAngle, k)
  }

  /** Every edge put in order. */
  function CorrectAll(hs: seq<HardEdge>, k: Kernel): (r: seq<HardEdge>)
    ensures |r| == |hs| && forall i :: 0 <= i < |hs| ==> r[i] == CorrectOrder(hs[i], k)
  {
    seq(|hs|, i requires 0 <= i < |hs| => CorrectOrder(hs[i], k))
  }

  /** What the private CalculateHardEdges returns for a triangle list and a break angle in radians. */
  function HardEdgesOf(tris: seq<Triangle>, breakAngle: real, k: Kernel): seq<HardEdge> {
    var occ := Occurrences(tris, |tris|, k);
    OccurrencesWellFormed(tris, |tris|, k);
    SharedEdgesOwnersBelow(occ, |tris|);
    var entries := SharedEdges(occ);
    CorrectAll(EmitEntries(entries, |entries|, tris, breakAngle, k), k)
  }

  /** Registering only non-degenerate edges leaves only non-degenerate keys. */
  lemma {:induction false} SharedKeysNondegenerate(occ: seq<Occurrence>)
    requires forall o :: o in occ ==> o.edge.p1 != o.edge.p2
    ensures forall j :: 0 <= j < |SharedEdges(occ)| ==> SharedEdges(occ)[j].key.p1 != SharedEdges(occ)[j].key.p2
    decreases |occ|
  {
    if occ != [] {
      var before := occ[..|occ| - 1];
      assert forall x :: x in before ==> x in occ;
      assert occ[|occ| - 1] in occ;
      SharedKeysNondegenerate(before);
      RegisterKeepsKeys(SharedEdges(before), occ[|occ| - 1]);
    }
  }

  /** Registration keeps every existing key and adds at most the registered edge. */
  lemma RegisterKeepsKeys(entries: seq<SharedEntry>, o: Occurrence)
    ensures var r := Register(entries, o);
      |entries| <= |r| <= |entries| + 1 &&
      (forall j :: 0 <= j < |entries| ==> r[j].key == entries[j].key) &&
      (|r| == |entries| + 1 ==> r[|entries|].key == o.edge)
  {
  }

  /** Every hard edge one entry yields is its key's segment, unlinked. */
  lemma EmitForKeyShape(key: SimpleEdge, owners: seq<nat>, tris: seq<Triangle>, breakAngle: real, k: Kernel)
    requires forall a :: 0 <= a < |owners| ==> owners[a] < |tris|
    ensures forall h :: h in EmitForKey(key, owners, tris, breakAngle, k) ==>
      h.p1 == key.p1 && h.p2 == key.p2 && h.prevEdge.None? && h.nextEdge.None?
  {
    if |owners| != 1 {
      var fes := FaceEdgesOf(key, owners, tris, k);
      forall h | h in EmitForKey(key, owners, tris, breakAngle, k)
        ensures h.p1 == key.p1 && h.p2 == key.p2 && h.prevEdge.None? && h.nextEdge.None?
      {
        SharpEdgesExactly(key, owners, fes, |fes|, tris, breakAngle, k, h);
      }
    }
  }

  /** Hard edges as emitted: non-degenerate and not yet linked. */
  predicate FreshEdges(hs: seq<HardEdge>) {
    forall i :: 0 <= i < |hs| ==> hs[i].p1 != hs[i].p2 && hs[i].prevEdge.None? && hs[i].nextEdge.None?
  }

  lemma EmitForKeyFresh(key: SimpleEdge, owners: seq<nat>, tris: seq<Triangle>, breakAngle: real, k: Kernel)
    requires forall a :: 0 <= a < |owners| ==> owners[a] < |tris|
    requires key.p1 != key.p2
    ensures FreshEdges(EmitForKey(key, owners, tris, breakAngle, k))
  {
    var hs := EmitForKey(key, owners, tris, breakAngle, k);
    EmitForKeyShape(key, owners, tris, breakAngle, k);
    forall i | 0 <= i < |hs|
      ensures hs[i].p1 != hs[i].p2 && hs[i].prevEdge.None? && hs[i].nextEdge.None?
    {
      assert hs[i] in hs;
    }
  }

  lemma FreshEdgesAppend(a: seq<HardEdge>, b: seq<HardEdge>)
    requires FreshEdges(a) && FreshEdges(b)
    ensures FreshEdges(a + b)
  {
    forall i | 0 <= i < |a + b|
      ensures (a + b)[i].p1 != (a + b)[i].p2 && (a + b)[i].prevEdge.None? && (a + b)[i].nextEdge.None?
    {
      if i >= |a| {
        assert (a + b)[i] == b[i - |a|];
      }
    }
  }

  /** Entries with non-degenerate keys yield non-degenerate, unlinked hard edges. */
  lemma {:induction false} EmitEntriesShape(entries: seq<SharedEntry>, j: nat, tris: seq<Triangle>, breakAngle: real, k: Kernel)
    requires j <= |entries| && OwnersBelow(entries, |tris|)
    requires forall i :: 0 <= i < |entries| ==> entries[i].key.p1 != entries[i].key.p2
    ensures FreshEdges(EmitEntries(entries, j, tris, breakAngle, k))
    decreases j
  {
    if j > 0 {
      var e := entries[j - 1];
      assert e.key.p1 != e.key.p2;
      var before := EmitEntries(entries, j - 1, tris, breakAngle, k);
      var last := EmitForKey(e.key, e.owners, tris, breakAngle, k);
      EmitEntriesShape(entries, j - 1, tris, breakAngle, k);
      EmitForKeyFresh(e.key, e.owners, tris, breakAngle, k);
      FreshEdgesAppend(before, last);
    }
  }

  /**
   * Every hard edge CalculateHardEdges returns joins two distinct rounded
   * positions and is not yet linked to any other hard edge.
   */
  lemma HardEdgesWellFormed(tris: seq<Triangle>, breakAngle: real, k: Kernel)
    ensures FreshEdges(HardEdgesOf(tris, breakAngle, k))
  {
    var occ := Occurrences(tris, |tris|, k);
    OccurrencesWellFormed(tris, |tris|, k);
    SharedEdgesOwnersBelow(occ, |tris|);
    SharedKeysNondegenerate(occ);
    var entries := SharedEdges(occ);
    var emitted := EmitEntries(entries, |entries|, tris, breakAngle, k);
    EmitEntriesShape(entries, |entries|, tris, breakAngle, k);
    var hs := HardEdgesOf(tris, breakAngle, k);
    forall i | 0 <= i < |hs|
      ensures hs[i].p1 != hs[i].p2 && hs[i].prevEdge.None? && hs[i].nextEdge.None?
    {
      CorrectOrderKeepsEdge(emitted[i], k);
    }
  }

  /**
   * CalculateHardEdges(triangleList, breakAngle): registers every non-degenerate
   * rounded triangle edge under its unordered key, emits the hard edges key by
   * key in insertion order, and puts each in order.
   */
  method CalculateHardEdges(tris: seq<Triangle>, breakAngle: real, k: Kernel) returns (hardEdges: seq<HardEdge>)
    ensures hardEdges == HardEdgesOf(tris, breakAngle, k)
  {
    var entries := RegisterSharedEdges(tris, k);
    OccurrencesWellFormed(tris, |tris|, k);
    SharedEdgesOwnersBelow(Occurrences(tris, |tris|, k), |tris|);
    var emitted := EmitSharedEdges(tris, entries, breakAngle, k);
    hardEdges := CorrectOrders(emitted, k);
  }

  /** The last loop of CalculateHardEdges: every emitted edge is put in order. */
  method CorrectOrders(emitted: seq<HardEdge>, k: Kernel) returns (hardEdges: seq<HardEdge>)
    ensures hardEdges == CorrectAll(emitted, k)
  {
    hardEdges := emitted;
    for i := 0 to |hardEdges|
      invariant |hardEdges| == |emitted|
      invariant forall m :: 0 <= m < i ==> hardEdges[m] == CorrectOrder(emitted[m], k)
      invariant forall m :: i <= m < |hardEdges| ==> hardEdges[m] == emitted[m]
    {
      hardEdges := hardEdges[i := CorrectOrder(hardEdges[i], k)];
    }
  }

  /** The first loop of CalculateHardEdges: fills the sharedEdges dictionary. */
  method RegisterSharedEdges(tris: seq<Triangle>, k: Kernel) returns (entries: seq<SharedEntry>)
    ensures entries == SharedEdges(Occurrences(tris, |tris|, k))
  {
    entries := [];
    assert Occurrences(tris, 0, k) == [];
    for t := 0 to |tris|
      invariant entries == SharedEdges(Occurrences(tris, t, k))
    {
      entries := RegisterTriangle(entries, tris, t, k, Occurrences(tris, t, k));
      assert Occurrences(tris, t + 1, k) == Occurrences(tris, t, k) + TriangleOccurrences(tris, t, 3, k);
    }
  }

  /** One pass of the first loop: the three edges of triangle `t`. */
  method RegisterTriangle(entries: seq<SharedEntry>, tris: seq<Triangle>, t: nat, k: Kernel, ghost occ: seq<Occurrence>)
    returns (updated: seq<SharedEntry>)
    requires t < |tris| && entries == SharedEdges(occ)
    ensures updated == SharedEdges(occ + TriangleOccurrences(tris, t, 3, k))
  {
    updated := entries;
    assert occ + TriangleOccurrences(tris, t, 0, k) == occ;
    for i := 0 to 3
      invariant updated == SharedEdges(occ + TriangleOccurrences(tris, t, i, k))
    {
      updated := RegisterSide(updated, tris, t, i, k, occ + TriangleOccurrences(tris, t, i, k));
      TriangleOccurrencesStep(occ, tris, t, i, k);
    }
  }

  /** The registrations of one more side extend those of the sides before it. */
  lemma TriangleOccurrencesStep(occ: seq<Occurrence>, tris: seq<Triangle>, t: nat, i: nat, k: Kernel)
    requires t < |tris| && i < 3
    ensures occ + TriangleOccurrences(tris, t, i + 1, k) == occ + TriangleOccurrences(tris, t, i, k) + EdgeOccurrence(tris, t, i, k)
  {
    assert TriangleOccurrences(tris, t, i + 1, k) == TriangleOccurrences(tris, t, i, k) + EdgeOccurrence(tris, t, i, k);
  }

  /** The body of the loop over the three sides: register side `i` unless it has zero length. */
  method RegisterSide(entries: seq<SharedEntry>, tris: seq<Triangle>, t: nat, i: nat, k: Kernel, ghost occ: seq<Occurrence>)
    returns (updated: seq<SharedEntry>)
    requires t < |tris| && i < 3 && entries == SharedEdges(occ)
    ensures updated == SharedEdges(occ + EdgeOccurrence(tris, t, i, k))
  {
    var simpleEdge := FromEdge(Edges.TriangleEdge(tris[t], i), k);
    if simpleEdge.p1 == simpleEdge.p2 {
      assert occ + [] == occ;
      return entries;
    }
    ghost var o := Occurrence(simpleEdge, t);
    updated := AddOwner(entries, simpleEdge, t);
    SharedEdgesAppend(occ, o);
  }

  /** `if (!sharedEdges.ContainsKey(key)) sharedEdges.Add(key, new List()); sharedEdges[key].Add(t)`. */
  method AddOwner(entries: seq<SharedEntry>, key: SimpleEdge, t: nat) returns (updated: seq<SharedEntry>)
    ensures updated == Register(entries, Occurrence(key, t))
  {
    updated := entries;
    var found := FindEntry(updated, key);
    if found.None? {
      updated := updated + [SharedEntry(key, [])];
      found := Some(|updated| - 1);
    }
    updated := updated[found.value := updated[found.value].(owners := updated[found.value].owners + [t])];
    if FindEntry(entries, key).None? {
      assert [] + [t] == [t];
      assert |updated| == |entries| + 1 && updated[|entries|] == SharedEntry(key, [t]);
      assert forall j :: 0 <= j < |entries| ==> updated[j] == entries[j];
      assert updated == entries + [SharedEntry(key, [t])];
    }
  }

  /** The second loop of CalculateHardEdges: emits the hard edges entry by entry. */
  method EmitSharedEdges(tris: seq<Triangle>, entries: seq<SharedEntry>, breakAngle: real, k: Kernel)
    returns (emitted: seq<HardEdge>)
    requires OwnersBelow(entries, |tris|)
    ensures emitted == EmitEntries(entries, |entries|, tris, breakAngle, k)
  {
    emitted := [];
    for j := 0 to |entries|
      invariant emitted == EmitEntries(entries, j, tris, breakAngle, k)
    {
      var edges := EmitEntry(entries[j].key, entries[j].owners, tris, breakAngle, k);
      emitted := emitted + edges;
    }
  }

  /** One pass of the second loop: the hard edges of one dictionary entry. */
  method EmitEntry(key: SimpleEdge, list: seq<nat>, tris: seq<Triangle>, breakAngle: real, k: Kernel)
    returns (edges: seq<HardEdge>)
    requires forall a :: 0 <= a < |list| ==> list[a] < |tris|
    ensures edges == EmitForKey(key, list, tris, breakAngle, k)
  {
    if |list| == 1 {
      return [NewHardEdge(key, tris[list[0]], k)];
    }
    var faceEdges := FaceEdgesOf(key, list, tris, k);
    edges := [];
    for a := 0 to |faceEdges|
      invariant edges == SharpEdges(key, list, faceEdges, a, tris, breakAngle, k)
    {
      // faceEdges.Any(other => other != fe && other.GetNormalDiff(fe) < breakAngle)
      var hasCloseFace := HasCloseFace(faceEdges, a, breakAngle, k);
      if !hasCloseFace {
        edges := edges + [NewHardEdge(key, tris[list[a]], k)];
      }
    }
  }
}
