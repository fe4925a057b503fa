/** The flight of a thrown object, shared by the player's snowballs (which
  * fall under gravity) and the enemies' projectiles (which fly straight). */
module Flights {
  import opened Geometry

  datatype Flight = Flight(position: Vec3, velocity: Vec3, lifeTime: real)

  predicate Alive(f: Flight) { f.lifeTime > 0.0 }

  /** One update: the lifetime runs down by `dt`, the object moves with its
    * current velocity, then gravity acts on the vertical velocity; an object
    * below the ground has no lifetime left. */
  function Step(f: Flight, dt: real, gravity: real): (r: Flight)
    ensures r.velocity.x == f.velocity.x && r.velocity.z == f.velocity.z
    ensures r.position.y < 0.0 ==> !Alive(r)
    ensures Alive(r) ==> r.lifeTime == f.lifeTime - dt
  {
    var lifeTime := f.lifeTime - dt;
    var position := Add(f.position, Scale(f.velocity, dt));
    var velocity := f.velocity.(y := f.velocity.y - gravity * dt);
    Flight(position, velocity, if position.y < 0.0 then 0.0 else lifeTime)
  }

  function Sum(dts: seq<real>): real {
    if dts == [] then 0.0 else Sum(dts[..|dts| - 1]) + dts[|dts| - 1]
  }

  /** The object after a sequence of updates. */
  function Run(f: Flight, dts: seq<real>, gravity: real): Flight {
    if dts == [] then f else Step(Run(f, dts[..|dts| - 1], gravity), dts[|dts| - 1], gravity)
  }

  predicate NonNegative(dts: seq<real>) { forall i :: 0 <= i < |dts| ==> dts[i] >= 0.0 }

  /** An object still alive after a run has used up exactly the elapsed time
    * of its lifetime, so nothing flies longer than the lifetime it started
    * with. */
  lemma {:induction false} LifetimeBound(f: Flight, dts: seq<real>, gravity: real)
    requires NonNegative(dts)
    ensures Alive(Run(f, dts, gravity)) ==> Run(f, dts, gravity).lifeTime == f.lifeTime - Sum(dts)
    ensures Alive(Run(f, dts, gravity)) ==> Sum(dts) < f.lifeTime
  {
    if dts != [] {
      var prefix := dts[..|dts| - 1];
      assert NonNegative(prefix) by {
        forall i | 0 <= i < |prefix| ensures prefix[i] >= 0.0 {
          assert prefix[i] == dts[i];
        }
      }
      LifetimeBound(f, prefix, gravity);
      var before := Run(f, prefix, gravity);
      if Alive(Run(f, dts, gravity)) {
        assert Run(f, dts, gravity).lifeTime == before.lifeTime - dts[|dts| - 1];
        assert Alive(before);
      }
    }
  }

  /** Gravity is the only force: the horizontal velocity never changes and
    * the vertical velocity falls by `gravity` per second of flight. */
  lemma {:induction false} VelocityAfterRun(f: Flight, dts: seq<real>, gravity: real)
    ensures Run(f, dts, gravity).velocity.x == f.velocity.x
    ensures Run(f, dts, gravity).velocity.z == f.velocity.z
    ensures Run(f, dts, gravity).velocity.y == f.velocity.y - gravity * Sum(dts)
  {
    if dts != [] {
      VelocityAfterRun(f, dts[..|dts| - 1], gravity);
    }
  }
}
