/**
 * The per-vertex outline data the generator writes to (RoundEdgeData): for
 * each vertex-index record and each outline slot, two 2-D coordinates and
 * the way the two outlines are combined. Only the slot writes are modelled;
 * the record's own layout is not part of this model.
 */
module RoundEdges {
  import opened Geometry

  /** RoundEdgeData.EdgeCombineMode. */
  datatype CombineMode = Union | Intersection

  /** What one slot of one vertex-index record holds. */
  datatype CoordPair = CoordPair(coordA: Vector2, coordB: Vector2, mode: CombineMode)

  /**
   * The outline data of all vertex-index records, keyed by the record's
   * identity and the slot. `emptyCoord` stands for RoundEdgeData.EmptyCoord,
   * the coordinate written when a slot has no second outline.
   */
  class RoundEdgeStore {
    const emptyCoord: Vector2
    var coords: map<(nat, nat), CoordPair>

    constructor(emptyCoord: Vector2)
      ensures this.emptyCoord == emptyCoord && coords == map[]
    {
      this.emptyCoord := emptyCoord;
      coords := map[];
    }

    /** SetCoordsPair(coordIdx, coordA, coordB, mode) on the record `index`: sets that one slot. */
    method SetCoordsPair(index: nat, coordIdx: nat, coordA: Vector2, coordB: Vector2, mode: CombineMode)
      modifies this
      ensures coords == old(coords)[(index, coordIdx) := CoordPair(coordA, coordB, mode)]
    {
      coords := coords[(index, coordIdx) := CoordPair(coordA, coordB, mode)];
    }
  }
}
