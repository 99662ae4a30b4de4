/** Queries about who is at an outpost: its occupants, and the pawns of a
    player caravan resting on its tile (its visitors). */
module Visitor {
  import opened Things

  /** A caravan is docked when the player caravan on the outpost's tile
      exists and is not moving. The caravan on the tile is a world query,
      passed in (null when there is none). */
  predicate HasDockedCaravan(tileCaravan: Caravan?)
    reads tileCaravan
    ensures HasDockedCaravan(tileCaravan) ==> tileCaravan != null
    ensures tileCaravan != null && tileCaravan.moving ==> !HasDockedCaravan(tileCaravan)
  {
    tileCaravan != null && !tileCaravan.moving
  }

  /** The docked caravan, or null when none is docked. */
  function GetDockedCaravan(tileCaravan: Caravan?): (c: Caravan?)
    reads tileCaravan
    ensures c != null <==> HasDockedCaravan(tileCaravan)
    ensures c != null ==> c == tileCaravan
  {
    if HasDockedCaravan(tileCaravan) then tileCaravan else null
  }

  /** Whether a docked caravan exists, together with that caravan. */
  function TryGetDockedCaravan(tileCaravan: Caravan?): (r: (bool, Caravan?))
    reads tileCaravan
    ensures r.0 == HasDockedCaravan(tileCaravan)
    ensures r.0 <==> r.1 != null
    ensures r.1 == GetDockedCaravan(tileCaravan)
  {
    (HasDockedCaravan(tileCaravan), GetDockedCaravan(tileCaravan))
  }

  /** An occupant is a pawn the roster holds. */
  predicate IsPawnOccupant(occupants: seq<Pawn>, pawn: Pawn)
    ensures IsPawnOccupant(occupants, pawn) <==> exists i :: 0 <= i < |occupants| && occupants[i] == pawn
  {
    pawn in occupants
  }

  /** A visitor is a member of the docked caravan. */
  predicate IsPawnVisitor(tileCaravan: Caravan?, pawn: Pawn)
    reads tileCaravan
    ensures IsPawnVisitor(tileCaravan, pawn) <==>
              tileCaravan != null && !tileCaravan.moving && pawn in tileCaravan.pawns
  {
    var c := GetDockedCaravan(tileCaravan);
    if c == null then false else c.ContainsPawn(pawn)
  }
}
