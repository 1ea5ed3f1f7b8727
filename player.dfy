/**
 * The player (GeneralPlayerImpl.java): a name, the treasure carried, the
 * arrows held, whether alive, and a death reason (0 none, 1 monster, 2 pit).
 * No method brings a dead player back: every method other than KillPlayer
 * leaves `isAlive` as it was.
 */
module Players {
  import opened Cells

  class Player {
    const name: string
    var treasuresOwned: seq<Treasure>
    var arrowsHold: int
    var isAlive: bool
    var deathReason: int

    /** A new player carries nothing, holds 3 arrows, is alive and has death reason 0. */
    constructor (name: string)
      ensures this.name == name
      ensures treasuresOwned == [] && arrowsHold == 3 && isAlive && deathReason == 0
    {
      this.name := name;
      treasuresOwned := [];
      arrowsHold := 3;
      isAlive := true;
      deathReason := 0;
    }

    method KillPlayer()
      modifies this`isAlive
      ensures !isAlive
    {
      isAlive := false;
    }

    method SetDeathReason(reason: int)
      modifies this`deathReason
      ensures deathReason == reason
    {
      deathReason := reason;
    }

    /** getDeathReason: the value last set. */
    function DeathReason(): int
      reads this
    {
      deathReason
    }

    /** getPlayerStatus: alive or not. */
    function PlayerStatus(): bool
      reads this
    {
      isAlive
    }

    /** getTreasuresOwned: a copy; the caller holds a value, not the list itself. */
    function TreasuresOwned(): seq<Treasure>
      reads this
    {
      treasuresOwned
    }

    /** getArrow: the arrows held. */
    function Arrows(): int
      reads this
    {
      arrowsHold
    }

    /** addTreasures appends one item. */
    method AddTreasures(t: Treasure)
      modifies this`treasuresOwned
      ensures treasuresOwned == old(treasuresOwned) + [t]
    {
      treasuresOwned := treasuresOwned + [t];
    }

    /** addAllTreasures appends the whole list, in order. */
    method AddAllTreasures(ts: seq<Treasure>)
      modifies this`treasuresOwned
      ensures treasuresOwned == old(treasuresOwned) + ts
    {
      treasuresOwned := treasuresOwned + ts;
    }

    method AddArrow()
      modifies this`arrowsHold
      ensures arrowsHold == old(arrowsHold) + 1
    {
      arrowsHold := arrowsHold + 1;
    }

    method AddAllArrows(arrowCount: int)
      modifies this`arrowsHold
      ensures arrowsHold == old(arrowsHold) + arrowCount
    {
      arrowsHold := arrowsHold + arrowCount;
    }

    method RemoveArrow()
      modifies this`arrowsHold
      ensures arrowsHold == old(arrowsHold) - 1
    {
      arrowsHold := arrowsHold - 1;
    }

    /** removeTreasures: a thief takes everything the player carries. */
    method RemoveTreasures()
      modifies this`treasuresOwned
      ensures treasuresOwned == []
    {
      treasuresOwned := [];
    }
  }
}
