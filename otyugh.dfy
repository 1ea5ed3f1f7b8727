/**
 * The Otyugh monster (Otyugh.java). Its potential damage, which the game also
 * treats as its health, is 1.0 when created and drops by 0.5 per arrow.
 * The values the game produces (1.0, 0.5, 0.0) are exact in binary floating
 * point, so a `real` field gives the same results as Java's `double`.
 */
module Monsters {

  class Otyugh {
    var potentialDamage: real

    /** `new Otyugh()`: full health. */
    constructor ()
      ensures potentialDamage == 1.0
    {
      potentialDamage := 1.0;
    }

    function PotentialDamage(): real
      reads this
    {
      potentialDamage
    }

    /** reducedDamage: exactly 0.5 less, with no floor. */
    method ReducedDamage()
      modifies this
      ensures potentialDamage == old(potentialDamage) - 0.5
    {
      potentialDamage := potentialDamage - 0.5;
    }

    /** assignDamage: the potential damage becomes exactly the given value. */
    method AssignDamage(actualMonsterHealth: real)
      modifies this
      ensures potentialDamage == actualMonsterHealth
    {
      potentialDamage := actualMonsterHealth;
    }
  }

  /** The healths a monster can have in play: full, injured or dead. */
  predicate IsGameHealth(h: real) {
    h == 1.0 || h == 0.5 || h == 0.0
  }

  /** A fresh monster is dead after exactly two arrows. */
  method TwoArrowsKill() returns (m: Otyugh)
    ensures fresh(m) && m.potentialDamage == 0.0
  {
    m := new Otyugh();
    m.ReducedDamage();
    assert m.potentialDamage == 0.5;
    m.ReducedDamage();
  }
}
