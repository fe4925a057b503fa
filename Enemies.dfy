/** A snowman enemy: it walks towards the player on the ground and is pushed
  * away from live enemies closer than one unit. */
module Enemies {
  import opened Geometry

  const StartHealth := 3.0
  const StartSpeed := 2.0
  const SeparationDistance := 1.0
  const SeparationStrength := 2.0

  datatype Separation = Separation(sum: Vec3, count: nat)

  /** The push away from a neighbour at offset `v`: the unit vector along
    * `v` divided by the distance, so closer neighbours push harder. */
  function Push(v: Vec3, ops: Ops): (p: Vec3)
    ensures ops.length(v) == 0.0 ==> p == Zero
    ensures ops.length(v) != 0.0 ==> p == Scale(v, 1.0 / (ops.length(v) * ops.length(v)))
  {
    var len := ops.length(v);
    if len == 0.0 then Zero else Scale(Normalize(v, ops), 1.0 / len)
  }

  class Enemy {
    var position: Vec3
    var health: real
    var speed: real
    var isDead: bool

    constructor (position: Vec3)
      ensures this.position == position
      ensures health == StartHealth && speed == StartSpeed && !isDead
    {
      this.position := position;
      health := StartHealth;
      speed := StartSpeed;
      isDead := false;
    }

    /** One frame: sum the pushes from nearby live enemies, then chase the
      * player. */
    method Update(dt: real, playerPosition: Vec3, others: seq<Enemy>, ops: Ops)
      modifies this
      ensures health == old(health) && isDead == old(isDead) && speed == old(speed)
      ensures position == Chase(old(position), playerPosition, old(Separate(this, position, others, ops)), speed, dt, ops)
    {
      var acc := Separation(Zero, 0);
      var k := 0;
      while k < |others|
        invariant 0 <= k <= |others|
        invariant acc == Accumulate(this, position, others[..k], ops)
      {
        var other := others[k];
        assert others[..k + 1][..k] == others[..k];
        if other != this && !other.isDead {
          var offset := Sub(position, other.position);
          if ops.length(offset) < SeparationDistance {
            acc := Separation(Add(acc.sum, Push(offset, ops)), acc.count + 1);
          }
        }
        k := k + 1;
      }
      assert others[..|others|] == others;
      var separation := acc.sum;
      if acc.count > 0 {
        separation := Scale(Scale(separation, 1.0 / acc.count as real), SeparationStrength);
      }
      var direction := Flatten(Sub(playerPosition, position));
      if ops.length(direction) > 1.0 {
        var heading := Normalize(Add(Normalize(direction, ops), separation), ops);
        position := Add(position, Scale(heading, speed * dt));
      }
    }
  }

  /** `other` pushes the enemy `self` standing at `pos`: it is another
    * enemy, alive, and closer than the separation distance. */
  predicate Pushes(self: Enemy, pos: Vec3, other: Enemy, ops: Ops)
    reads other
  {
    other != self && !other.isDead && Distance(pos, other.position, ops) < SeparationDistance
  }

  /** The sum and number of the pushes from `others`, in their order. */
  function Accumulate(self: Enemy, pos: Vec3, others: seq<Enemy>, ops: Ops): (r: Separation)
    reads others
    ensures r.count <= |others|
    ensures r.count == 0 ==> r.sum == Zero
  {
    if others == [] then Separation(Zero, 0)
    else
      var acc := Accumulate(self, pos, others[..|others| - 1], ops);
      var other := others[|others| - 1];
      if Pushes(self, pos, other, ops) then Separation(Add(acc.sum, Push(Sub(pos, other.position), ops)), acc.count + 1)
      else acc
  }

  /** The separation vector: twice the average push, or zero without
    * neighbours. */
  function Separate(self: Enemy, pos: Vec3, others: seq<Enemy>, ops: Ops): (r: Vec3)
    reads others
    ensures Accumulate(self, pos, others, ops).count == 0 ==> r == Zero
  {
    Resolve(Accumulate(self, pos, others, ops))
  }

  /** Twice the average of the pushes, or the zero sum when there are none. */
  function Resolve(acc: Separation): (r: Vec3)
    ensures acc.count == 0 ==> r == acc.sum
    ensures acc.count > 0 ==> r == Scale(acc.sum, SeparationStrength / acc.count as real)
  {
    if acc.count > 0 then Scale(Scale(acc.sum, 1.0 / acc.count as real), SeparationStrength) else acc.sum
  }

  /** Where an enemy at `pos` ends up: it moves only when the player is more
    * than one unit away on the ground, along the blend of the direction to
    * the player and the separation. */
  function Chase(pos: Vec3, playerPosition: Vec3, separation: Vec3, speed: real, dt: real, ops: Ops): (next: Vec3)
    ensures next != pos ==> ops.length(Flatten(Sub(playerPosition, pos))) > 1.0
  {
    var direction := Flatten(Sub(playerPosition, pos));
    if ops.length(direction) > 1.0 then
      var heading := Normalize(Add(Normalize(direction, ops), separation), ops);
      Add(pos, Scale(heading, speed * dt))
    else pos
  }

  /** The positions of the others that push the enemy. */
  function NeighbourIndices(self: Enemy, pos: Vec3, others: seq<Enemy>, ops: Ops): set<int>
    reads others
  {
    set k | 0 <= k < |others| && Pushes(self, pos, others[k], ops)
  }

  /** Exactly the other live enemies closer than the separation distance
    * are counted: the enemy itself and dead enemies never are. */
  lemma {:induction false} CountsNeighbours(self: Enemy, pos: Vec3, others: seq<Enemy>, ops: Ops)
    ensures Accumulate(self, pos, others, ops).count == |NeighbourIndices(self, pos, others, ops)|
  {
    if others != [] {
      var n := |others| - 1;
      var prefix := others[..n];
      CountsNeighbours(self, pos, prefix, ops);
      var before := NeighbourIndices(self, pos, prefix, ops);
      var after := NeighbourIndices(self, pos, others, ops);
      assert forall k :: 0 <= k < n ==> prefix[k] == others[k];
      if Pushes(self, pos, others[n], ops) {
        assert after == before + {n};
      } else {
        assert after == before;
      }
    }
  }

  /** An enemy that has reached the player stays put; otherwise it moves
    * exactly `speed * dt` along a unit direction, or not at all when the
    * pull to the player and the separation cancel out.  An enemy on the
    * ground that is pushed only horizontally stays on the ground. */
  lemma ChaseFacts(pos: Vec3, playerPosition: Vec3, separation: Vec3, speed: real, dt: real, ops: Ops)
    requires ValidOps(ops)
    ensures var next := Chase(pos, playerPosition, separation, speed, dt, ops);
      && (ops.length(Flatten(Sub(playerPosition, pos))) <= 1.0 ==> next == pos)
      && (next == pos || DistSq(next, pos) == (speed * dt) * (speed * dt))
      && (separation.y == 0.0 ==> next.y == pos.y)
  {
    var direction := Flatten(Sub(playerPosition, pos));
    if ops.length(direction) > 1.0 {
      NormalizeFacts(direction, ops);
      var blend := Add(Normalize(direction, ops), separation);
      NormalizeFacts(blend, ops);
      var heading := Normalize(blend, ops);
      var next := Add(pos, Scale(heading, speed * dt));
      assert Sub(next, pos) == Scale(heading, speed * dt);
      LengthSqScale(heading, speed * dt);
    }
  }

  /** Pushes between enemies standing on the ground are horizontal. */
  lemma {:induction false} SeparationHorizontal(self: Enemy, pos: Vec3, others: seq<Enemy>, ops: Ops)
    requires forall k :: 0 <= k < |others| ==> others[k].position.y == pos.y
    ensures Accumulate(self, pos, others, ops).sum.y == 0.0
    ensures Separate(self, pos, others, ops).y == 0.0
  {
    if others != [] {
      var prefix := others[..|others| - 1];
      assert forall k :: 0 <= k < |prefix| ==> prefix[k] == others[k];
      SeparationHorizontal(self, pos, prefix, ops);
    }
  }
}
