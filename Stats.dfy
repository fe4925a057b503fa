/** The player's health record. */
module Stats {

  class StatsSystem {
    var health: real
    var maxHealth: real

    constructor ()
      ensures health == 100.0 && maxHealth == 100.0
      ensures !IsDead()
    {
      health := 100.0;
      maxHealth := 100.0;
    }

    /** Health does not change on its own over time. */
    method Update(dt: real)
      ensures health == old(health) && maxHealth == old(maxHealth)
    {
    }

    /** Dead exactly when health is used up: zero and negative health both count. */
    predicate IsDead(): (dead: bool)
      reads this
      ensures dead <==> health <= 0.0
    {
      health <= 0.0
    }
  }
}
