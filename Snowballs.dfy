/** The player's snowball: thrown at 20 units per second, falls under
  * gravity, lives two seconds or until it drops below the ground. */
module Snowballs {
  import opened Geometry
  import Flights

  const Speed := 20.0
  const LifeTime := 2.0
  const Gravity := 9.8

  class Snowball {
    var position: Vec3
    var velocity: Vec3
    var lifeTime: real

    constructor (position: Vec3, direction: Vec3)
      ensures this.position == position
      ensures velocity == Scale(direction, Speed) && lifeTime == LifeTime
    {
      this.position := position;
      velocity := Scale(direction, Speed);
      lifeTime := LifeTime;
    }

    function State(): Flights.Flight
      reads this
    {
      Flights.Flight(position, velocity, lifeTime)
    }

    /** Advances the flight by `dt`; says whether the snowball is still alive. */
    method Update(dt: real) returns (alive: bool)
      modifies this
      ensures State() == Flights.Step(old(State()), dt, Gravity)
      ensures alive <==> Flights.Alive(State())
      ensures dt >= 0.0 ==> lifeTime <= old(lifeTime) || lifeTime == 0.0
    {
      lifeTime := lifeTime - dt;
      position := Add(position, Scale(velocity, dt));
      velocity := velocity.(y := velocity.y - Gravity * dt);
      if position.y < 0.0 {
        lifeTime := 0.0;
      }
      return lifeTime > 0.0;
    }
  }
}
