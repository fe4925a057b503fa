/** Enemy spawning: one enemy at a time on a ring around the player, faster
  * and with a higher cap as the player levels up. */
module Waves {
  import opened Geometry
  import Enemies

  const BaseSpawnRate := 2.0   // seconds between spawns at level 1
  const SpawnRadius := 20.0
  const MinSpawnInterval := 0.5

  function Max(a: real, b: real): real { if a >= b then a else b }

  /** Seconds between spawns at the given level: 0.1 s less per level, never
    * below half a second. */
  function SpawnInterval(level: int): (r: real)
    ensures r >= MinSpawnInterval
    ensures level >= 1 ==> r <= BaseSpawnRate
  {
    Max(MinSpawnInterval, BaseSpawnRate - (level - 1) as real * 0.1)
  }

  /** Spawning never slows down as the player levels up, and from level 16
    * on it runs at the floor. */
  lemma SpawnIntervalMonotone(lower: int, higher: int)
    requires lower <= higher
    ensures SpawnInterval(higher) <= SpawnInterval(lower)
    ensures higher >= 16 ==> SpawnInterval(higher) == MinSpawnInterval
  {
  }

  /** The enemy cap: five more per level. */
  function MaxEnemies(level: int): (cap: int)
    ensures level >= 1 ==> cap >= 15
    ensures level <= 0 ==> cap <= 10
  {
    10 + level * 5
  }

  /** Where an enemy spawns for the angle drawn. */
  function SpawnPosition(playerPos: Vec3, angle: real, ops: Ops): (p: Vec3)
    ensures p.y == 0.0
  {
    Vec3(playerPos.x + ops.cos(angle) * SpawnRadius, 0.0, playerPos.z + ops.sin(angle) * SpawnRadius)
  }

  /** Every spawn is on the ground, exactly the spawn radius away from the
    * player on the horizontal plane. */
  lemma SpawnOnRing(playerPos: Vec3, angle: real, ops: Ops)
    requires ValidOps(ops)
    ensures SpawnPosition(playerPos, angle, ops).y == 0.0
    ensures LengthSq(Flatten(Sub(SpawnPosition(playerPos, angle, ops), playerPos))) == SpawnRadius * SpawnRadius
  {
    var c, s := ops.cos(angle), ops.sin(angle);
    var d := Flatten(Sub(SpawnPosition(playerPos, angle, ops), playerPos));
    assert d == Vec3(c * SpawnRadius, 0.0, s * SpawnRadius);
    assert LengthSq(d) == (c * c + s * s) * (SpawnRadius * SpawnRadius);
  }

  class WaveManager {
    var spawnTimer: real

    constructor ()
      ensures spawnTimer == 0.0
    {
      spawnTimer := 0.0;
    }

    /** Advances the timer; when it has reached the level's interval and
      * the cap is not reached, resets it and appends one new enemy at the
      * spawn position for `angle`. */
    method Update(dt: real, playerPos: Vec3, enemies: seq<Enemies.Enemy>, level: int, angle: real, ops: Ops)
      returns (result: seq<Enemies.Enemy>)
      modifies this
      ensures var spawn := old(spawnTimer) + dt >= SpawnInterval(level) && |enemies| < MaxEnemies(level);
        && (spawn ==> spawnTimer == 0.0 && |result| == |enemies| + 1 && result[..|enemies|] == enemies)
        && (spawn ==> fresh(result[|enemies|]) && result[|enemies|].position == SpawnPosition(playerPos, angle, ops))
        && (spawn ==> result[|enemies|].health == Enemies.StartHealth && !result[|enemies|].isDead)
        && (!spawn ==> spawnTimer == old(spawnTimer) + dt && result == enemies)
    {
      spawnTimer := spawnTimer + dt;
      var interval := SpawnInterval(level);
      var maxEnemies := MaxEnemies(level);
      result := enemies;
      if spawnTimer >= interval && |enemies| < maxEnemies {
        spawnTimer := 0.0;
        result := SpawnEnemy(playerPos, enemies, angle, ops);
      }
    }

    method SpawnEnemy(playerPos: Vec3, enemies: seq<Enemies.Enemy>, angle: real, ops: Ops)
      returns (result: seq<Enemies.Enemy>)
      ensures |result| == |enemies| + 1 && result[..|enemies|] == enemies
      ensures fresh(result[|enemies|]) && result[|enemies|].position == SpawnPosition(playerPos, angle, ops)
      ensures result[|enemies|].health == Enemies.StartHealth && !result[|enemies|].isDead
    {
      var enemy := new Enemies.Enemy(SpawnPosition(playerPos, angle, ops));
      result := enemies + [enemy];
    }
  }
}
