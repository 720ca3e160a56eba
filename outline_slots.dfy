/**
 * The end of GenerateOutlines' triangle loop: the triangle's outlines are
 * taken from its projection arena, those with a partner first, each with its
 * partner, and written into the outline slots 0, 1 and 2 of the triangle's
 * three vertex-index records (SetOutlineCoords).
 */
module OutlineSlots {
  import opened Wrappers
  import opened Geometry
  import opened ProjectedEdges
  import opened RoundEdges
  import opened Lists
  import opened VertexOutlines

  /** One SetOutlineCoords call: the slot, the arena position of the first outline and that of its partner, if any. */
  datatype Slot = Slot(coordIdx: nat, first: nat, second: Option<nat>)

  // ----------------------------------------------------------- choosing the outlines

  /** The partner of each outline of the arena: all the slot loop looks at to choose. */
  function Partners(arena: seq<ProjectedEdge>): (r: seq<Option<nat>>)
    ensures |r| == |arena| && forall i :: 0 <= i < |arena| ==> r[i] == arena[i].combineWith
  {
    if arena == [] then [] else Partners(arena[..|arena| - 1]) + [arena[|arena| - 1].combineWith]
  }

  /** The partner of outline `i`, if any, is another outline whose partner is `i`. */
  predicate PartnerBack(partners: seq<Option<nat>>, i: nat)
    requires i < |partners|
  {
    partners[i].Some? ==>
      partners[i].value < |partners| && partners[i].value != i && partners[partners[i].value] == Some(i)
  }

  /** Each partner is another outline whose partner is the first one. */
  predicate Mutual(partners: seq<Option<nat>>) {
    forall i :: 0 <= i < |partners| ==> PartnerBack(partners, i)
  }

  /** A paired arena has mutual partners. */
  lemma PartnersMutual(arena: seq<ProjectedEdge>)
    requires MutuallyCombined(arena)
    ensures Mutual(Partners(arena))
  {
    var partners := Partners(arena);
    forall i | 0 <= i < |partners|
      ensures PartnerBack(partners, i)
    {
    }
  }

  /** The first pending outline that has a partner, if there is one. */
  function FirstCombined(partners: seq<Option<nat>>, pending: seq<nat>): (r: Option<nat>)
    requires ListIn(pending, |partners|)
    ensures r.Some? ==> r.value in pending && r.value < |partners| && partners[r.value].Some?
    ensures r.None? ==> forall i :: 0 <= i < |pending| ==> partners[pending[i]].None?
  {
    if pending == [] then None
    else if partners[pending[0]].Some? then Some(pending[0])
    else
      var r := FirstCombined(partners, pending[1..]);
      assert r.None? ==> forall i :: 1 <= i < |pending| ==> partners[pending[i]].None? by {
        if r.None? {
          forall i | 1 <= i < |pending| ensures partners[pending[i]].None? {
            assert pending[i] == pending[1..][i - 1];
          }
        }
      }
      r
  }

  /**
   * projectedEdges.OrderByDescending(x => x.CombineWith != null).FirstOrDefault()
   * on a non-empty list: the first outline with a partner, or else the first
   * outline (the ordering is stable).
   */
  function PickFirst(partners: seq<Option<nat>>, pending: seq<nat>): (r: nat)
    requires ListIn(pending, |partners|) && pending != []
    ensures r in pending && r < |partners|
  {
    match FirstCombined(partners, pending)
    case Some(x) => x
    case None => pending[0]
  }

  /** What is left pending after one SetOutlineCoords call: the outline picked and its partner are removed. */
  function NextPending(partners: seq<Option<nat>>, pending: seq<nat>): (r: seq<nat>)
    requires ListIn(pending, |partners|) && pending != []
    ensures ListIn(r, |partners|) && |r| < |pending| && forall y :: y in r ==> y in pending
  {
    var x := PickFirst(partners, pending);
    var rest := RemoveFirst(pending, x);
    RemoveFirstMembers(pending, x);
    ListInSub(rest, pending, |partners|);
    match partners[x]
    case Some(nextEdge) =>
      RemoveFirstMembers(rest, nextEdge);
      ListInSub(RemoveFirst(rest, nextEdge), rest, |partners|);
      RemoveFirst(rest, nextEdge)
    case None => rest
  }

  /**
   * The SetOutlineCoords calls of the slot loop from slot `pairIdx` on: one
   * per slot while a slot is free and an outline is pending.
   */
  function SlotsFrom(partners: seq<Option<nat>>, pending: seq<nat>, pairIdx: nat): seq<Slot>
    requires ListIn(pending, |partners|)
    decreases |pending|
  {
    if pairIdx >= 3 || pending == [] then []
    else
      var x := PickFirst(partners, pending);
      [Slot(pairIdx, x, partners[x])] + SlotsFrom(partners, NextPending(partners, pending), pairIdx + 1)
  }

  /** The arena positions the slots name, first outline then partner. */
  function Written(slots: seq<Slot>): seq<nat> {
    if slots == [] then []
    else [slots[0].first] + (if slots[0].second.Some? then [slots[0].second.value] else []) + Written(slots[1..])
  }

  /** Every position a slot names is in the arena. */
  predicate SlotIn(slot: Slot, size: nat) {
    slot.first < size && (slot.second.Some? ==> slot.second.value < size)
  }

  /** Every position the slots name is in the arena. */
  predicate SlotsIn(slots: seq<Slot>, size: nat) {
    forall i :: 0 <= i < |slots| ==> SlotIn(slots[i], size)
  }

  /** Every pending outline with a partner has it pending too. */
  predicate PendingPaired(partners: seq<Option<nat>>, pending: seq<nat>)
    requires ListIn(pending, |partners|)
  {
    forall i :: 0 <= i < |pending| && partners[pending[i]].Some? ==> partners[pending[i]].value in pending
  }

  /** One step of SlotsFrom. */
  lemma SlotsFromUnfold(partners: seq<Option<nat>>, pending: seq<nat>, pairIdx: nat)
    requires ListIn(pending, |partners|) && pairIdx < 3 && pending != []
    ensures var x := PickFirst(partners, pending);
      SlotsFrom(partners, pending, pairIdx) ==
        [Slot(pairIdx, x, partners[x])] + SlotsFrom(partners, NextPending(partners, pending), pairIdx + 1)
  {
  }

  /**
   * Slots numbered on from `pairIdx`, at most up to slot 2, each naming an
   * outline of the arena together with the partner it has.
   */
  predicate Numbered(partners: seq<Option<nat>>, pairIdx: nat, s: seq<Slot>) {
    pairIdx + |s| <= (if pairIdx < 3 then 3 else pairIdx) &&
    SlotsIn(s, |partners|) &&
    forall i :: 0 <= i < |s| ==> s[i].coordIdx == pairIdx + i && s[i].second == partners[s[i].first]
  }

  /** A slot put in front of numbered slots keeps them numbered. */
  lemma NumberedStep(partners: seq<Option<nat>>, pairIdx: nat, x: nat, tail: seq<Slot>)
    requires x < |partners| && pairIdx < 3 && Mutual(partners)
    requires Numbered(partners, pairIdx + 1, tail)
    ensures Numbered(partners, pairIdx, [Slot(pairIdx, x, partners[x])] + tail)
  {
    var s := [Slot(pairIdx, x, partners[x])] + tail;
    forall i | 0 <= i < |s|
      ensures SlotIn(s[i], |partners|) && s[i].coordIdx == pairIdx + i && s[i].second == partners[s[i].first]
    {
      if i > 0 {
        assert s[i] == tail[i - 1];
      } else {
        assert PartnerBack(partners, x);
      }
    }
  }

  /** The slot loop's calls are numbered on from `pairIdx`, and each names an outline of the arena with its partner. */
  lemma {:induction false} SlotsNumbered(partners: seq<Option<nat>>, pending: seq<nat>, pairIdx: nat)
    requires ListIn(pending, |partners|) && Mutual(partners)
    ensures Numbered(partners, pairIdx, SlotsFrom(partners, pending, pairIdx))
    decreases |pending|
  {
    if pairIdx < 3 && pending != [] {
      var next := NextPending(partners, pending);
      SlotsNumbered(partners, next, pairIdx + 1);
      SlotsFromUnfold(partners, pending, pairIdx);
      NumberedStep(partners, pairIdx, PickFirst(partners, pending), SlotsFrom(partners, next, pairIdx + 1));
    }
  }

  /** Every position a slot names is among those written. */
  lemma {:induction false} WrittenHolds(s: seq<Slot>)
    ensures forall i :: 0 <= i < |s| ==> s[i].first in Written(s) && (s[i].second.Some? ==> s[i].second.value in Written(s))
    decreases |s|
  {
    if s != [] {
      WrittenHolds(s[1..]);
      forall i | 1 <= i < |s|
        ensures s[i].first in Written(s) && (s[i].second.Some? ==> s[i].second.value in Written(s))
      {
        assert s[i] == s[1..][i - 1];
      }
    }
  }

  /** Taking an outline out of a pending list where none has a partner. */
  lemma TakeAlone(partners: seq<Option<nat>>, pending: seq<nat>, x: nat)
    requires ListIn(pending, |partners|) && Distinct(pending) && x in pending
    requires forall i :: 0 <= i < |pending| ==> partners[pending[i]].None?
    ensures var rest := RemoveFirst(pending, x);
      ListIn(rest, |partners|) && Distinct(rest) && PendingPaired(partners, rest) &&
      multiset(pending) == multiset{x} + multiset(rest) &&
      forall y :: y in rest ==> partners[y].None?
  {
    var rest := RemoveFirst(pending, x);
    RemoveFirstDistinct(pending, x);
    ListInSub(rest, pending, |partners|);
    forall y | y in rest ensures partners[y].None? {
      var j :| 0 <= j < |pending| && pending[j] == y;
    }
  }

  /** Taking one outline out of a pending list without repeats. */
  lemma TakeOne(pending: seq<nat>, x: nat, size: nat)
    requires ListIn(pending, size) && Distinct(pending) && x in pending
    ensures var rest := RemoveFirst(pending, x);
      ListIn(rest, size) && Distinct(rest) && multiset(pending) == multiset{x} + multiset(rest) &&
      forall y :: y in rest <==> y in pending && y != x
  {
    RemoveFirstDistinct(pending, x);
    ListInSub(RemoveFirst(pending, x), pending, size);
  }

  /** Taking two different outlines out of a pending list without repeats. */
  lemma TakeTwo(pending: seq<nat>, x: nat, p: nat, size: nat)
    requires ListIn(pending, size) && Distinct(pending)
    requires x in pending && p in pending && x != p
    ensures var rest := RemoveFirst(RemoveFirst(pending, x), p);
      ListIn(rest, size) && Distinct(rest) &&
      multiset(pending) == multiset{x, p} + multiset(rest) &&
      forall y :: y in rest <==> y in pending && y != x && y != p
  {
    var rest1 := RemoveFirst(pending, x);
    TakeOne(pending, x, size);
    assert p in rest1;
    var rest := RemoveFirst(rest1, p);
    TakeOne(rest1, p, size);
    assert multiset(pending) == multiset{x} + (multiset{p} + multiset(rest));
  }

  /** With an outline and its partner taken out, the partners of those left are still pending. */
  lemma PairedAfterTaking(partners: seq<Option<nat>>, pending: seq<nat>, rest: seq<nat>, x: nat, p: nat)
    requires ListIn(pending, |partners|) && ListIn(rest, |partners|) && Mutual(partners) && PendingPaired(partners, pending)
    requires x < |partners| && partners[x] == Some(p)
    requires forall y :: y in rest <==> y in pending && y != x && y != p
    ensures PendingPaired(partners, rest)
  {
    assert PartnerBack(partners, x);
    forall i | 0 <= i < |rest| && partners[rest[i]].Some?
      ensures partners[rest[i]].value in rest
    {
      var y := rest[i];
      assert y in rest;
      var k :| 0 <= k < |pending| && pending[k] == y;
      assert PartnerBack(partners, y);
    }
  }

  /** Taking an outline and its partner out of a pending list where partners are pending together. */
  lemma TakePair(partners: seq<Option<nat>>, pending: seq<nat>, x: nat, p: nat)
    requires ListIn(pending, |partners|) && Mutual(partners) && Distinct(pending) && PendingPaired(partners, pending)
    requires x in pending && partners[x] == Some(p)
    ensures var rest := RemoveFirst(RemoveFirst(pending, x), p);
      ListIn(rest, |partners|) && Distinct(rest) && PendingPaired(partners, rest) &&
      multiset(pending) == multiset{x, p} + multiset(rest)
  {
    var j :| 0 <= j < |pending| && pending[j] == x;
    assert PartnerBack(partners, x);
    TakeTwo(pending, x, p, |partners|);
    PairedAfterTaking(partners, pending, RemoveFirst(RemoveFirst(pending, x), p), x, p);
  }

  /** The outline a slot writes first, then its partner, if any. */
  function Taken(partners: seq<Option<nat>>, x: nat): seq<nat>
    requires x < |partners|
  {
    [x] + (if partners[x].Some? then [partners[x].value] else [])
  }

  /** What one step of the slot loop takes out of the pending list. */
  lemma SlotStep(partners: seq<Option<nat>>, pending: seq<nat>)
    requires ListIn(pending, |partners|) && pending != [] && Mutual(partners)
    requires Distinct(pending) && PendingPaired(partners, pending)
    ensures var x := PickFirst(partners, pending);
      var rest := NextPending(partners, pending);
      Distinct(rest) && PendingPaired(partners, rest) &&
      multiset(pending) == multiset(Taken(partners, x)) + multiset(rest) &&
      (partners[x].None? ==> forall y :: y in rest ==> partners[y].None?)
  {
    var x := PickFirst(partners, pending);
    var rest := RemoveFirst(pending, x);
    if FirstCombined(partners, pending).None? {
      assert x == pending[0] && partners[x].None?;
      assert NextPending(partners, pending) == rest;
      assert multiset(Taken(partners, x)) == multiset{x};
      TakeAlone(partners, pending, x);
    } else {
      var p := partners[x].value;
      assert NextPending(partners, pending) == RemoveFirst(rest, p);
      assert multiset(Taken(partners, x)) == multiset{x, p};
      TakePair(partners, pending, x, p);
    }
  }

  /**
   * Slots that write each outline at most once, and only pending ones; that
   * write every pending outline when a slot is to spare; and where, once an
   * outline without a partner is written, every later one has none either.
   */
  predicate Covered(partners: seq<Option<nat>>, pending: seq<nat>, pairIdx: nat, s: seq<Slot>) {
    multiset(Written(s)) <= multiset(pending) &&
    (pairIdx + |s| < 3 ==> multiset(Written(s)) == multiset(pending)) &&
    (forall i, j :: 0 <= i < j < |s| && s[i].second.None? ==> s[j].second.None?)
  }

  /** One step of the slot loop keeps Covered. */
  lemma CoverStep(partners: seq<Option<nat>>, pending: seq<nat>, pairIdx: nat, x: nat, next: seq<nat>, tail: seq<Slot>)
    requires pairIdx < 3 && x < |partners| && ListIn(next, |partners|)
    requires multiset(pending) == multiset(Taken(partners, x)) + multiset(next)
    requires partners[x].None? ==> forall y :: y in next ==> partners[y].None?
    requires Numbered(partners, pairIdx + 1, tail) && Covered(partners, next, pairIdx + 1, tail)
    ensures Covered(partners, pending, pairIdx, [Slot(pairIdx, x, partners[x])] + tail)
  {
    var s := [Slot(pairIdx, x, partners[x])] + tail;
    assert s[1..] == tail;
    assert Written(s) == Taken(partners, x) + Written(tail);
    WrittenHolds(tail);
    forall i, j | 0 <= i < j < |s| && s[i].second.None?
      ensures s[j].second.None?
    {
      assert s[j] == tail[j - 1];
      if i == 0 {
        assert tail[j - 1].first in Written(tail);
        assert tail[j - 1].first in multiset(next);
      } else {
        assert s[i] == tail[i - 1];
      }
    }
  }

  /**
   * The slots write each outline at most once, and only pending ones; with a
   * slot to spare every pending outline is written; and once an outline
   * without a partner is written, every later one has none either (outlines
   * with a partner go first).
   */
  lemma {:induction false} SlotsCover(partners: seq<Option<nat>>, pending: seq<nat>, pairIdx: nat)
    requires ListIn(pending, |partners|) && Mutual(partners)
    requires Distinct(pending) && PendingPaired(partners, pending)
    ensures Covered(partners, pending, pairIdx, SlotsFrom(partners, pending, pairIdx))
    decreases |pending|
  {
    if pairIdx < 3 && pending != [] {
      var next := NextPending(partners, pending);
      SlotStep(partners, pending);
      SlotsCover(partners, next, pairIdx + 1);
      SlotsNumbered(partners, next, pairIdx + 1);
      SlotsFromUnfold(partners, pending, pairIdx);
      CoverStep(partners, pending, pairIdx, PickFirst(partners, pending), next, SlotsFrom(partners, next, pairIdx + 1));
    }
  }

  /**
   * The SetOutlineCoords calls for a triangle's projection arena: slots 0, 1,
   * 2 in turn, each naming an outline of the arena and its partner there.
   */
  function ArenaSlots(arena: seq<ProjectedEdge>): (s: seq<Slot>)
    requires MutuallyCombined(arena)
    ensures |s| <= 3 && SlotsIn(s, |arena|)
    ensures forall j :: 0 <= j < |s| ==> s[j].coordIdx == j && s[j].second == arena[s[j].first].combineWith
  {
    RangeSpec(|arena|);
    PartnersMutual(arena);
    SlotsNumbered(Partners(arena), Range(|arena|), 0);
    SlotsFrom(Partners(arena), Range(|arena|), 0)
  }

  /**
   * Each outline of the triangle's arena is written at most once; with fewer
   * than three slots used, every one is; and outlines with a partner are
   * written before those without.
   */
  lemma AllSlots(arena: seq<ProjectedEdge>)
    requires MutuallyCombined(arena)
    ensures var s := ArenaSlots(arena);
      Distinct(Written(s)) &&
      (|s| < 3 ==> forall x: nat :: x < |arena| ==> x in Written(s)) &&
      (forall i, j :: 0 <= i < j < |s| && s[i].second.None? ==> s[j].second.None?)
  {
    var partners := Partners(arena);
    var pending := Range(|arena|);
    RangeSpec(|arena|);
    PartnersMutual(arena);
    SlotsCover(partners, pending, 0);
    var w := Written(ArenaSlots(arena));
    forall x
      ensures multiset(w)[x] <= 1
    {
      assert multiset(w)[x] <= multiset(pending)[x];
    }
    if |ArenaSlots(arena)| < 3 {
      forall x: nat | x < |arena|
        ensures x in w
      {
        assert x in pending;
        assert x in multiset(pending);
      }
    }
  }

  // ----------------------------------------------------------- writing a slot

  /**
   * The combine mode of a slot: Intersection exactly when there is a
   * partner and one of the two outlines needs clipping.
   */
  function CombineModeOf(e1: ProjectedEdge, e2: Option<ProjectedEdge>): (mode: CombineMode)
    ensures mode == Intersection <==> e2.Some? && (e1.needsToBeClipped || e2.value.needsToBeClipped)
  {
    var mode := if e1.needsToBeClipped || (e2.Some? && e2.value.needsToBeClipped) then Intersection else Union;
    if e2.None? && mode == Intersection then Union else mode
  }

  /** What SetCoordsPair writes for corner `i`: the partner's coordinate (or the empty one) first, then the outline's. */
  function SlotEntry(e1: ProjectedEdge, e2: Option<ProjectedEdge>, i: nat, emptyCoord: Vector2): CoordPair
    requires i < 3
  {
    CoordPair(if e2.Some? then e2.value.UVs()[i] else emptyCoord, e1.UVs()[i], CombineModeOf(e1, e2))
  }

  /** The corner loop of SetOutlineCoords after its first `n` corners, on adjusted outlines. */
  function WriteSlot(coords: map<(nat, nat), CoordPair>, ix: seq<nat>, coordIdx: nat, e1: ProjectedEdge, e2: Option<ProjectedEdge>,
                     emptyCoord: Vector2, n: nat): map<(nat, nat), CoordPair>
    requires n <= 3 && |ix| == 3
  {
    if n == 0 then coords
    else WriteSlot(coords, ix, coordIdx, e1, e2, emptyCoord, n - 1)[(ix[n - 1], coordIdx) := SlotEntry(e1, e2, n - 1, emptyCoord)]
  }

  /** The three vertex-index records of a triangle are different. */
  predicate DistinctIndices(ix: seq<nat>) {
    |ix| == 3 && ix[0] != ix[1] && ix[0] != ix[2] && ix[1] != ix[2]
  }

  /**
   * On a triangle with three different records, the corner loop sets the
   * slot of each record to that corner's entry and changes nothing else.
   */
  lemma {:induction false} WriteSlotSpec(coords: map<(nat, nat), CoordPair>, ix: seq<nat>, coordIdx: nat, e1: ProjectedEdge,
                                         e2: Option<ProjectedEdge>, emptyCoord: Vector2, n: nat)
    requires n <= 3 && DistinctIndices(ix)
    ensures var r := WriteSlot(coords, ix, coordIdx, e1, e2, emptyCoord, n);
      (forall i :: 0 <= i < n ==> (ix[i], coordIdx) in r && r[(ix[i], coordIdx)] == SlotEntry(e1, e2, i, emptyCoord)) &&
      (forall key :: key !in coords && key in r ==> key.1 == coordIdx && key.0 in ix[..n]) &&
      (forall key :: key in coords && (key.1 != coordIdx || key.0 !in ix[..n]) ==> key in r && r[key] == coords[key])
    decreases n
  {
    if n > 0 {
      WriteSlotSpec(coords, ix, coordIdx, e1, e2, emptyCoord, n - 1);
      assert ix[..n] == ix[..n - 1] + [ix[n - 1]];
    }
  }

  /** The adjusted outline at an arena position. */
  function AdjustedAt(arena: seq<ProjectedEdge>, x: nat, thicknessMultiplier: real): ProjectedEdge
    requires x < |arena| && thicknessMultiplier != 0.0
  {
    Adjusted(arena[x], thicknessMultiplier)
  }

  /** The adjusted partner named by a slot, if any. */
  function AdjustedPartner(arena: seq<ProjectedEdge>, second: Option<nat>, thicknessMultiplier: real): Option<ProjectedEdge>
    requires (second.Some? ==> second.value < |arena|) && thicknessMultiplier != 0.0
  {
    match second
    case Some(x) => Some(AdjustedAt(arena, x, thicknessMultiplier))
    case None => None
  }

  /** One SetOutlineCoords call: both outlines adjusted, then the three corners written. */
  function SlotWritten(coords: map<(nat, nat), CoordPair>, ix: seq<nat>, arena: seq<ProjectedEdge>, slot: Slot,
                       thicknessMultiplier: real, emptyCoord: Vector2): map<(nat, nat), CoordPair>
    requires |ix| == 3 && SlotIn(slot, |arena|) && thicknessMultiplier != 0.0
  {
    WriteSlot(coords, ix, slot.coordIdx, AdjustedAt(arena, slot.first, thicknessMultiplier),
              AdjustedPartner(arena, slot.second, thicknessMultiplier), emptyCoord, 3)
  }

  /** The SetOutlineCoords calls one after the other. */
  function WriteSlots(coords: map<(nat, nat), CoordPair>, ix: seq<nat>, arena: seq<ProjectedEdge>, slots: seq<Slot>,
                      thicknessMultiplier: real, emptyCoord: Vector2): map<(nat, nat), CoordPair>
    requires |ix| == 3 && SlotsIn(slots, |arena|) && thicknessMultiplier != 0.0
    decreases |slots|
  {
    if slots == [] then coords
    else WriteSlots(SlotWritten(coords, ix, arena, slots[0], thicknessMultiplier, emptyCoord), ix, arena, slots[1..],
                    thicknessMultiplier, emptyCoord)
  }

  /** The entry a slot leaves in the record of corner `i`. */
  function SlotValue(arena: seq<ProjectedEdge>, slot: Slot, i: nat, thicknessMultiplier: real, emptyCoord: Vector2): CoordPair
    requires i < 3 && SlotIn(slot, |arena|) && thicknessMultiplier != 0.0
  {
    SlotEntry(AdjustedAt(arena, slot.first, thicknessMultiplier), AdjustedPartner(arena, slot.second, thicknessMultiplier), i, emptyCoord)
  }

  /** One SetOutlineCoords call leaves its entry in each of the three records under its slot number. */
  lemma SlotWrittenSpec(coords: map<(nat, nat), CoordPair>, ix: seq<nat>, arena: seq<ProjectedEdge>, slot: Slot,
                        thicknessMultiplier: real, emptyCoord: Vector2)
    requires DistinctIndices(ix) && SlotIn(slot, |arena|) && thicknessMultiplier != 0.0
    ensures var r := SlotWritten(coords, ix, arena, slot, thicknessMultiplier, emptyCoord);
      (forall i :: 0 <= i < 3 ==>
         (ix[i], slot.coordIdx) in r && r[(ix[i], slot.coordIdx)] == SlotValue(arena, slot, i, thicknessMultiplier, emptyCoord)) &&
      (forall key :: key in coords && (key.0 !in ix || key.1 != slot.coordIdx) ==> key in r && r[key] == coords[key])
  {
    WriteSlotSpec(coords, ix, slot.coordIdx, AdjustedAt(arena, slot.first, thicknessMultiplier),
                  AdjustedPartner(arena, slot.second, thicknessMultiplier), emptyCoord, 3);
    assert ix[..3] == ix;
  }

  /** Slots numbered on from `base` leave every entry under another number as it was. */
  lemma {:induction false} WriteSlotsKeep(coords: map<(nat, nat), CoordPair>, ix: seq<nat>, arena: seq<ProjectedEdge>, slots: seq<Slot>,
                                          base: nat, thicknessMultiplier: real, emptyCoord: Vector2)
    requires DistinctIndices(ix) && SlotsIn(slots, |arena|) && thicknessMultiplier != 0.0
    requires forall j :: 0 <= j < |slots| ==> slots[j].coordIdx == base + j
    ensures var r := WriteSlots(coords, ix, arena, slots, thicknessMultiplier, emptyCoord);
      forall key :: key in coords && (key.0 !in ix || key.1 < base || key.1 >= base + |slots|) ==>
        key in r && r[key] == coords[key]
    decreases |slots|
  {
    if slots != [] {
      var tail := slots[1..];
      SlotWrittenSpec(coords, ix, arena, slots[0], thicknessMultiplier, emptyCoord);
      assert forall t :: 0 <= t < |tail| ==> tail[t].coordIdx == base + 1 + t by {
        forall t | 0 <= t < |tail| ensures tail[t].coordIdx == base + 1 + t {
          assert tail[t] == slots[t + 1];
        }
      }
      WriteSlotsKeep(SlotWritten(coords, ix, arena, slots[0], thicknessMultiplier, emptyCoord), ix, arena, tail, base + 1,
                     thicknessMultiplier, emptyCoord);
    }
  }

  /** The record `index` holds `v` in slot `coordIdx`. */
  predicate HasEntry(coords: map<(nat, nat), CoordPair>, index: nat, coordIdx: nat, v: CoordPair) {
    (index, coordIdx) in coords && coords[(index, coordIdx)] == v
  }

  /**
   * On a triangle with three different records, slots numbered on from
   * `base` each leave their entries in all three records under their own
   * number.
   */
  lemma {:induction false} WriteSlotsSpec(coords: map<(nat, nat), CoordPair>, ix: seq<nat>, arena: seq<ProjectedEdge>, slots: seq<Slot>,
                                          base: nat, thicknessMultiplier: real, emptyCoord: Vector2)
    requires DistinctIndices(ix) && SlotsIn(slots, |arena|) && thicknessMultiplier != 0.0
    requires forall j :: 0 <= j < |slots| ==> slots[j].coordIdx == base + j
    ensures forall j, i :: 0 <= j < |slots| && 0 <= i < 3 ==>
      HasEntry(WriteSlots(coords, ix, arena, slots, thicknessMultiplier, emptyCoord), ix[i], base + j,
               SlotValue(arena, slots[j], i, thicknessMultiplier, emptyCoord))
    decreases |slots|
  {
    if slots != [] {
      var tail := slots[1..];
      var first := SlotWritten(coords, ix, arena, slots[0], thicknessMultiplier, emptyCoord);
      var r := WriteSlots(coords, ix, arena, slots, thicknessMultiplier, emptyCoord);
      assert r == WriteSlots(first, ix, arena, tail, thicknessMultiplier, emptyCoord);
      SlotWrittenSpec(coords, ix, arena, slots[0], thicknessMultiplier, emptyCoord);
      assert forall t :: 0 <= t < |tail| ==> tail[t].coordIdx == base + 1 + t by {
        forall t | 0 <= t < |tail| ensures tail[t].coordIdx == base + 1 + t {
          assert tail[t] == slots[t + 1];
        }
      }
      WriteSlotsKeep(first, ix, arena, tail, base + 1, thicknessMultiplier, emptyCoord);
      WriteSlotsSpec(first, ix, arena, tail, base + 1, thicknessMultiplier, emptyCoord);
      forall j, i | 0 <= j < |slots| && 0 <= i < 3
        ensures HasEntry(r, ix[i], base + j, SlotValue(arena, slots[j], i, thicknessMultiplier, emptyCoord))
      {
        if j > 0 {
          assert slots[j] == tail[j - 1];
          assert HasEntry(r, ix[i], base + 1 + (j - 1), SlotValue(arena, tail[j - 1], i, thicknessMultiplier, emptyCoord));
        } else {
          var key := (ix[i], base);
          assert key in first && first[key] == SlotValue(arena, slots[0], i, thicknessMultiplier, emptyCoord);
          assert key in r && r[key] == first[key];
        }
      }
    }
  }

  /**
   * The slots of a triangle: slot j of each of the three records holds the
   * j-th call's entry for that corner, and every other entry is left as it
   * was (when the three records are different).
   */
  lemma TriangleSlots(coords: map<(nat, nat), CoordPair>, ix: seq<nat>, arena: seq<ProjectedEdge>,
                      thicknessMultiplier: real, emptyCoord: Vector2)
    requires DistinctIndices(ix) && MutuallyCombined(arena) && thicknessMultiplier != 0.0
    ensures var s := ArenaSlots(arena);
      var r := WriteSlots(coords, ix, arena, s, thicknessMultiplier, emptyCoord);
      (forall j, i :: 0 <= j < |s| && 0 <= i < 3 ==> HasEntry(r, ix[i], j, SlotValue(arena, s[j], i, thicknessMultiplier, emptyCoord))) &&
      (forall key :: key in coords && (key.0 !in ix || key.1 >= |s|) ==> key in r && r[key] == coords[key])
  {
    var s := ArenaSlots(arena);
    WriteSlotsSpec(coords, ix, arena, s, 0, thicknessMultiplier, emptyCoord);
    WriteSlotsKeep(coords, ix, arena, s, 0, thicknessMultiplier, emptyCoord);
  }
}
