/** A projectile fired by an enemy: flies straight at 10 units per second
  * and lives three seconds or until it drops below the ground. */
module EnemyProjectiles {
  import opened Geometry
  import Flights

  const Speed := 10.0
  const LifeTime := 3.0

  class EnemyProjectile {
    var position: Vec3
    var velocity: Vec3
    var lifeTime: real

    constructor (position: Vec3, direction: Vec3)
      ensures this.position == position
      ensures velocity == Scale(direction, Speed) && lifeTime == LifeTime
    {
      this.position := position;
      velocity := Scale(direction, Speed);
      lifeTime := LifeTime;
    }

    function State(): Flights.Flight
      reads this
    {
      Flights.Flight(position, velocity, lifeTime)
    }

    /** Advances the flight by `dt` with no gravity; says whether the
      * projectile is still alive. */
    method Update(dt: real) returns (alive: bool)
      modifies this
      ensures State() == Flights.Step(old(State()), dt, 0.0)
      ensures velocity == old(velocity)
      ensures alive <==> Flights.Alive(State())
    {
      lifeTime := lifeTime - dt;
      position := Add(position, Scale(velocity, dt));
      if position.y < 0.0 {
        lifeTime := 0.0;
      }
      return lifeTime > 0.0;
    }
  }
}
