/** Experience and levels.  Every dropped orb is worth 10 XP; when the XP
  * reaches the current threshold the player gains one level, keeps the
  * surplus, and the next threshold is the old one times 1.2, rounded down. */
module Progression {

  const OrbValue := 10
  const FirstThreshold := 100

  datatype Xp = Xp(level: int, xp: int, toNext: int)

  /** Level 1, no XP, 100 XP to the next level. */
  const Start := Xp(1, 0, FirstThreshold)

  /** `Math.floor(t * 1.2)`, computed exactly. */
  function NextThreshold(t: int): (r: int)
    ensures t >= 5 ==> r > t
    ensures t >= 0 ==> t <= r <= t + t / 5
  {
    (t * 6) / 5
  }

  /** The XP needed to leave `level`. */
  function Threshold(level: int): (t: int)
    ensures t >= FirstThreshold
    decreases level
  {
    if level <= 1 then FirstThreshold else NextThreshold(Threshold(level - 1))
  }

  /** The XP spent on the levels below `level`. */
  function Banked(level: int): int
    decreases level
  {
    if level <= 1 then 0 else Banked(level - 1) + Threshold(level - 1)
  }

  /** All the XP ever gained in state `s`. */
  function TotalXp(s: Xp): int {
    Banked(s.level) + s.xp
  }

  /** The states a run can be in: the threshold is the level's own and the
    * XP is below it. */
  predicate Reachable(s: Xp) {
    s.level >= 1 && s.toNext == Threshold(s.level) && 0 <= s.xp < s.toNext
  }

  predicate LevelsUp(s: Xp, value: int) {
    s.xp + value >= s.toNext
  }

  /** Collecting one orb worth `value`: at most one level is gained per orb,
    * whatever the value. */
  function Gain(s: Xp, value: int): (r: Xp)
    ensures s.level <= r.level <= s.level + 1
    ensures r.level == s.level + 1 <==> LevelsUp(s, value)
  {
    var xp := s.xp + value;
    if xp >= s.toNext then Xp(s.level + 1, xp - s.toNext, NextThreshold(s.toNext))
    else s.(xp := xp)
  }

  lemma StartReachable()
    ensures Reachable(Start) && TotalXp(Start) == 0
  {
  }

  /** Thresholds strictly increase from level to level. */
  lemma {:induction false} ThresholdIncreases(lower: int, higher: int)
    requires 1 <= lower < higher
    ensures Threshold(lower) < Threshold(higher)
    decreases higher - lower
  {
    if lower + 1 < higher {
      ThresholdIncreases(lower + 1, higher);
    }
  }

  /** A 10-XP orb keeps the state reachable, adds exactly 10 to the total,
    * and on a level-up carries the surplus over and raises the threshold. */
  lemma GainOrb(s: Xp)
    requires Reachable(s)
    ensures var r := Gain(s, OrbValue);
      && Reachable(r)
      && TotalXp(r) == TotalXp(s) + OrbValue
      && (LevelsUp(s, OrbValue) ==> r.xp == s.xp + OrbValue - s.toNext && r.toNext > s.toNext)
      && (!LevelsUp(s, OrbValue) ==> r == s.(xp := s.xp + OrbValue))
  {
    var r := Gain(s, OrbValue);
    if LevelsUp(s, OrbValue) {
      assert Threshold(r.level) == NextThreshold(s.toNext);
      assert Banked(r.level) == Banked(s.level) + s.toNext;
    }
  }

  /** Collecting `n` orbs of 10 XP, one after another. */
  function GainMany(s: Xp, n: nat): (r: Xp)
    ensures s.level <= r.level <= s.level + n
  {
    if n == 0 then s else Gain(GainMany(s, n - 1), OrbValue)
  }

  /** From any reachable state, XP is never lost: the total grows by exactly
    * 10 per orb, and the state stays reachable. */
  lemma {:induction false} GainManyConserves(s: Xp, n: nat)
    requires Reachable(s)
    ensures Reachable(GainMany(s, n))
    ensures TotalXp(GainMany(s, n)) == TotalXp(s) + OrbValue * n
    ensures GainMany(s, n).level >= s.level
  {
    if n > 0 {
      GainManyConserves(s, n - 1);
      GainOrb(GainMany(s, n - 1));
    }
  }
}
