/**
 * The identity rules of a mesh edge (LDD.Core/Meshes/Edge.cs): two edges are
 * equal when they join the same two end points in either order, compared
 * either by vertex or by vertex position, and the hash code agrees with that
 * equality because it ignores the order of the end points.
 */
module Edges {
  import opened Wrappers
  import opened Geometry

  /** The initial value of the static flag Edge.CompareByPosition; nothing in the core assigns it. */
  const DefaultCompareByPosition: bool := false

  datatype Edge = Edge(p1: Vertex, p2: Vertex)

  /** The same edge with its end points swapped. */
  function Reversed(e: Edge): (r: Edge)
    ensures r.p1 == e.p2 && r.p2 == e.p1
  {
    Edge(e.p2, e.p1)
  }

  /** Triangle.Edges[i]: the edge from vertex i to the next vertex, wrapping round. */
  function TriangleEdge(t: Triangle, i: nat): (e: Edge)
    requires i < 3
    ensures e.p1 == t.Vertices()[i] && e.p2 == t.Vertices()[(i + 1) % 3]
  {
    Edge(t.Vertices()[i], t.Vertices()[(i + 1) % 3])
  }

  /** Two unordered pairs are equal exactly when their two-element multisets are. */
  lemma UnorderedPair<T>(a: T, b: T, c: T, d: T)
    ensures multiset{a, b} == multiset{c, d} <==> (a == c && b == d) || (a == d && b == c)
  {
    if multiset{a, b} == multiset{c, d} {
      assert a in multiset{c, d};
      if a == c {
        assert multiset{a, b} - multiset{a} == multiset{b};
        assert multiset{c, d} - multiset{c} == multiset{d};
      } else {
        assert a == d;
        assert multiset{a, b} - multiset{a} == multiset{b};
        assert multiset{c, d} - multiset{d} == multiset{c};
      }
    }
  }

  /**
   * Edge.Equals(edge, compareByPos), called on `e` with argument `other`:
   * the same two end points in either order, by position or by vertex.
   */
  function EqualsEdge(e: Edge, other: Edge, compareByPos: bool): (r: bool)
    ensures compareByPos ==>
      (r <==> multiset{other.p1.position, other.p2.position} == multiset{e.p1.position, e.p2.position})
    ensures !compareByPos ==> (r <==> multiset{other.p1, other.p2} == multiset{e.p1, e.p2})
  {
    UnorderedPair(other.p1.position, other.p2.position, e.p1.position, e.p2.position);
    UnorderedPair(other.p1, other.p2, e.p1, e.p2);
    if compareByPos then
      (other.p1.position == e.p1.position && other.p2.position == e.p2.position) ||
      (other.p1.position == e.p2.position && other.p2.position == e.p1.position)
    else
      (other.p1 == e.p1 && other.p2 == e.p2) || (other.p1 == e.p2 && other.p2 == e.p1)
  }

  /** Edge.Equals(object): an edge compares by the static flag; anything else (or null) is not equal. */
  function EqualsObject(e: Edge, obj: Option<Edge>, compareByPosition: bool): (r: bool)
    ensures obj.None? ==> !r
    ensures obj.Some? && compareByPosition ==>
      (r <==> multiset{obj.value.p1.position, obj.value.p2.position} == multiset{e.p1.position, e.p2.position})
    ensures obj.Some? && !compareByPosition ==>
      (r <==> multiset{obj.value.p1, obj.value.p2} == multiset{e.p1, e.p2})
  {
    match obj
    case Some(other) => EqualsEdge(e, other, compareByPosition)
    case None => false
  }

  /** The hash of one end point: of its position rounded to 4 decimals, or of the vertex itself. */
  function EndpointHash(v: Vertex, byPosition: bool, k: Kernel): Int32 {
    if byPosition then k.hash(k.rounded4(v.position)) else k.vertexHash(v)
  }

  /** Edge.GetHashCode(), under the given value of the static flag. */
  function GetHashCode(e: Edge, compareByPosition: bool, k: Kernel): (h: Int32)
    ensures h == PairHash(EndpointHash(e.p2, compareByPosition, k), EndpointHash(e.p1, compareByPosition, k))
  {
    PairHashSymmetric(EndpointHash(e.p1, compareByPosition, k), EndpointHash(e.p2, compareByPosition, k));
    PairHash(EndpointHash(e.p1, compareByPosition, k), EndpointHash(e.p2, compareByPosition, k))
  }

  /** Equality is reflexive in both modes. */
  lemma EqualsReflexive(e: Edge, compareByPos: bool)
    ensures EqualsEdge(e, e, compareByPos)
  {
  }

  /** Equality is symmetric in both modes. */
  lemma EqualsSymmetric(e: Edge, other: Edge, compareByPos: bool)
    ensures EqualsEdge(e, other, compareByPos) == EqualsEdge(other, e, compareByPos)
  {
  }

  /** Swapping the end points of either edge does not change whether they are equal. */
  lemma EqualsIgnoresOrder(e: Edge, other: Edge, compareByPos: bool)
    ensures EqualsEdge(e, Reversed(other), compareByPos) == EqualsEdge(e, other, compareByPos)
    ensures EqualsEdge(Reversed(e), other, compareByPos) == EqualsEdge(e, other, compareByPos)
    ensures EqualsEdge(e, Reversed(e), compareByPos)
  {
  }

  /** Swapping the end points does not change the hash. */
  lemma HashIgnoresOrder(e: Edge, compareByPosition: bool, k: Kernel)
    ensures GetHashCode(Reversed(e), compareByPosition, k) == GetHashCode(e, compareByPosition, k)
  {
  }

  /** Equal edges hash equally, in the mode the static flag selects (the IEqualityComparer contract). */
  lemma EqualEdgesHashEqually(e: Edge, other: Edge, compareByPosition: bool, k: Kernel)
    requires EqualsEdge(e, other, compareByPosition)
    ensures GetHashCode(e, compareByPosition, k) == GetHashCode(other, compareByPosition, k)
  {
  }

  /** Edge.Contains(vertex, checkPosition): an end point by position, or by vertex identity. */
  function ContainsVertex(e: Edge, vertex: Vertex, checkPosition: bool := false): (r: bool)
    ensures checkPosition ==> (r <==> vertex.position in {e.p1.position, e.p2.position})
    ensures !checkPosition ==> (r <==> vertex in {e.p1, e.p2})
  {
    if checkPosition then e.p1.position == vertex.position || e.p2.position == vertex.position
    else e.p1 == vertex || e.p2 == vertex
  }

  /** Edge.Contains(position): the position of one of the two end points. */
  function ContainsPosition(e: Edge, position: Vector3): (r: bool)
    ensures r <==> position in {e.p1.position, e.p2.position}
  {
    e.p1.position == position || e.p2.position == position
  }

  /** Edge.Contains(position, precision): one end point is within `precision` of the position. */
  function ContainsNear(e: Edge, position: Vector3, precision: real, k: Kernel): (r: bool)
    ensures r <==> exists v :: v in {e.p1, e.p2} && k.nearlyEqual(v.position, position, precision)
  {
    assert k.nearlyEqual(e.p1.position, position, precision) ==> e.p1 in {e.p1, e.p2};
    assert k.nearlyEqual(e.p2.position, position, precision) ==> e.p2 in {e.p1, e.p2};
    k.nearlyEqual(e.p1.position, position, precision) || k.nearlyEqual(e.p2.position, position, precision)
  }

  /** Each end point's position is contained; a position equal to neither is not. */
  lemma ContainsExactlyEndpoints(e: Edge, position: Vector3)
    ensures ContainsPosition(e, e.p1.position) && ContainsPosition(e, e.p2.position)
    ensures position != e.p1.position && position != e.p2.position ==> !ContainsPosition(e, position)
  {
  }

  /** Equal edges contain each other's end points, in the matching mode. */
  lemma EqualEdgesShareEndpoints(e: Edge, other: Edge, compareByPos: bool)
    requires EqualsEdge(e, other, compareByPos)
    ensures ContainsVertex(e, other.p1, compareByPos) && ContainsVertex(e, other.p2, compareByPos)
  {
  }

  /** IEqualityComparer<Edge>.Equals(x, y): x.Equals(y), i.e. equality under the static flag. */
  function ComparerEquals(x: Edge, y: Edge, compareByPosition: bool): (r: bool)
    ensures compareByPosition ==>
      (r <==> multiset{x.p1.position, x.p2.position} == multiset{y.p1.position, y.p2.position})
    ensures !compareByPosition ==> (r <==> multiset{x.p1, x.p2} == multiset{y.p1, y.p2})
  {
    EqualsObject(x, Some(y), compareByPosition)
  }

  /** IEqualityComparer<Edge>.GetHashCode(obj): obj.GetHashCode(). */
  function ComparerHash(obj: Edge, compareByPosition: bool, k: Kernel): (h: Int32)
    ensures h == GetHashCode(Reversed(obj), compareByPosition, k)
  {
    HashIgnoresOrder(obj, compareByPosition, k);
    GetHashCode(obj, compareByPosition, k)
  }

  /** The comparer is consistent: what it calls equal it hashes equally. */
  lemma ComparerConsistent(x: Edge, y: Edge, compareByPosition: bool, k: Kernel)
    requires ComparerEquals(x, y, compareByPosition)
    ensures ComparerHash(x, compareByPosition, k) == ComparerHash(y, compareByPosition, k)
  {
    EqualEdgesHashEqually(x, y, compareByPosition, k);
  }
}
