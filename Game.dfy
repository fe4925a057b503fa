/** The game loop.  One `Game` object owns the player, the enemy, snowball
  * and XP-orb lists, and the combat and progression fields; `Tick`
  * advances everything by one frame, in the order the frame runs. */
module Game {
  import opened Geometry
  import Inputs
  import Players
  import Enemies
  import Snowballs
  import Flights
  import Time
  import Stats
  import Waves
  import Upgrades
  import Progression
  import opened Combat

  const SlashRadius := 2.5
  const SlashNoticeMargin := 2.0      // enemies this much beyond the slash radius still trigger the swing
  const SlashEffectDuration := 0.2
  const HitDistance := 1.0            // a snowball hits an enemy closer than this
  const ChoicesOffered := 3
  const MouseTurnRate := 0.002        // radians per pixel of horizontal mouse movement

  /** The objects the game holds on to for its whole life. */
  datatype Components = Components(
    input: Inputs.Input, player: Players.Player, timeSystem: Time.TimeSystem,
    statsSystem: Stats.StatsSystem, waveManager: Waves.WaveManager)

  datatype TimerState = TimerState(fireTimer: real, slashTimer: real, slashEffectTimer: real)

  /** What a frame ends with: the game goes on, or the game-over screen is
    * shown with the kills, the clock, the level and the upgrades picked. */
  datatype Outcome = Running | Over(killed: nat, time: string, level: int, upgrades: seq<string>)

  datatype SessionState = SessionState(isPaused: bool, inMenu: bool, collectedUpgrades: seq<string>, pendingChoices: seq<Upgrades.Offer>)

  function PositionsOf(es: seq<Enemies.Enemy>): (ps: seq<Vec3>)
    reads es
    ensures |ps| == |es| && forall k :: 0 <= k < |es| ==> ps[k] == es[k].position
  {
    seq(|es|, k requires 0 <= k < |es| reads es => es[k].position)
  }

  function HealthsOf(es: seq<Enemies.Enemy>): (hs: seq<real>)
    reads es
    ensures |hs| == |es| && forall k :: 0 <= k < |es| ==> hs[k] == es[k].health
  {
    seq(|es|, k requires 0 <= k < |es| reads es => es[k].health)
  }

  function DeadFlagsOf(es: seq<Enemies.Enemy>): (ds: seq<bool>)
    reads es
    ensures |ds| == |es| && forall k :: 0 <= k < |es| ==> ds[k] == es[k].isDead
  {
    seq(|es|, k requires 0 <= k < |es| reads es => es[k].isDead)
  }

  function SpeedsOf(es: seq<Enemies.Enemy>): (ss: seq<real>)
    reads es
    ensures |ss| == |es| && forall k :: 0 <= k < |es| ==> ss[k] == es[k].speed
  {
    seq(|es|, k requires 0 <= k < |es| reads es => es[k].speed)
  }

  /** The flight state of each snowball of `bs`. */
  function FlightsOf(bs: seq<Snowballs.Snowball>): (fs: seq<Flights.Flight>)
    reads bs
    ensures |fs| == |bs| && forall k :: 0 <= k < |bs| ==> fs[k] == bs[k].State()
  {
    seq(|bs|, k requires 0 <= k < |bs| reads bs => bs[k].State())
  }

  /** The fates a damage pass of `amount` within `radius` of `playerPos`
    * deals to the enemies `es`, read off their current state. */
  ghost function FatesOf(es: seq<Enemies.Enemy>, playerPos: Vec3, radius: real, amount: real, ops: Ops): (F: seq<Fate>)
    reads es
    ensures |F| == |es|
  {
    Fates(Reach(playerPos, PositionsOf(es), radius, ops), HealthsOf(es), DeadFlagsOf(es), amount)
  }

  /** The distance from each enemy of `es` to `at`. */
  function Distances(es: seq<Enemies.Enemy>, at: Vec3, ops: Ops): (ds: seq<real>)
    reads es
    ensures |ds| == |es|
    ensures forall k :: 0 <= k < |es| ==> ds[k] == Distance(es[k].position, at, ops)
  {
    seq(|es|, k reads es requires 0 <= k < |es| => Distance(es[k].position, at, ops))
  }

  /** Some enemy of `es`, dead or alive, is closer than `r` to `at`. */
  predicate AnyWithin(es: seq<Enemies.Enemy>, at: Vec3, r: real, ops: Ops)
    reads es
  {
    exists k :: 0 <= k < |es| && Distance(es[k].position, at, ops) < r
  }

  /** The enemies of the pass over `E` after it visited the entries before
    * `j`: positions and speeds as they were, and the entries visited so far
    * struck or killed as their fates say. */
  ghost predicate Visited(E: seq<Enemies.Enemy>, F: seq<Fate>, P: seq<Vec3>, S: seq<real>, H: seq<real>, D: seq<bool>,
                          amount: real, j: int)
    requires |E| == |F| == |P| == |S| == |H| == |D|
    reads E
  {
    forall k :: 0 <= k < |E| ==>
      && E[k].position == P[k] && E[k].speed == S[k]
      && E[k].health == H[k] - (if k < j && Struck(F[k]) then amount else 0.0)
      && E[k].isDead == (D[k] || (k < j && F[k] == Killed))
  }

  /** `Visited` for enemy values taken out of the heap: positions `P0`,
    * speeds `S0`, healths `H0` and dead flags `D0`. */
  ghost predicate VisitedValues(P0: seq<Vec3>, S0: seq<real>, H0: seq<real>, D0: seq<bool>,
                                F: seq<Fate>, P: seq<Vec3>, S: seq<real>, H: seq<real>, D: seq<bool>,
                                amount: real, j: int)
    requires |P0| == |S0| == |H0| == |D0| == |F| == |P| == |S| == |H| == |D|
  {
    forall k :: 0 <= k < |P0| ==>
      && P0[k] == P[k] && S0[k] == S[k]
      && H0[k] == H[k] - (if k < j && Struck(F[k]) then amount else 0.0)
      && D0[k] == (D[k] || (k < j && F[k] == Killed))
  }

  lemma VisitedSnapshot(E: seq<Enemies.Enemy>, F: seq<Fate>, P: seq<Vec3>, S: seq<real>, H: seq<real>, D: seq<bool>,
                        amount: real, j: int)
    requires |E| == |F| == |P| == |S| == |H| == |D|
    requires Visited(E, F, P, S, H, D, amount, j)
    ensures VisitedValues(PositionsOf(E), SpeedsOf(E), HealthsOf(E), DeadFlagsOf(E), F, P, S, H, D, amount, j)
  {
  }

  /** A visit to entry `j` that changes that enemy as its fate says, and no
    * other enemy of `E`, extends the visited part by one step; `P0`, `S0`,
    * `H0` and `D0` are the enemies' values before the visit. */
  lemma VisitedStep(E: seq<Enemies.Enemy>, F: seq<Fate>, P: seq<Vec3>, S: seq<real>, H: seq<real>, D: seq<bool>,
                    amount: real, j: int, P0: seq<Vec3>, S0: seq<real>, H0: seq<real>, D0: seq<bool>)
    requires |E| == |F| == |P| == |S| == |H| == |D| == |P0| == |S0| == |H0| == |D0| && 0 <= j < |E| && Distinct(E)
    requires forall k :: j < k < NextJ(F, j) ==> F[k] == Skipped
    requires VisitedValues(P0, S0, H0, D0, F, P, S, H, D, amount, j)
    requires forall k :: 0 <= k < |E| && E[k] != E[j] ==>
      && E[k].position == P0[k] && E[k].speed == S0[k] && E[k].health == H0[k] && E[k].isDead == D0[k]
    requires E[j].position == P0[j] && E[j].speed == S0[j]
    requires E[j].health == H0[j] - (if Struck(F[j]) then amount else 0.0)
    requires E[j].isDead == (D0[j] || F[j] == Killed)
    ensures Visited(E, F, P, S, H, D, amount, NextJ(F, j))
  {
    DistinctFrom(E, j);
  }

  class Game {
    var input: Inputs.Input
    var player: Players.Player
    var timeSystem: Time.TimeSystem
    var statsSystem: Stats.StatsSystem
    var waveManager: Waves.WaveManager

    var enemies: seq<Enemies.Enemy>
    var snowballs: seq<Snowballs.Snowball>
    var xpOrbs: seq<Orb>

    var enemiesKilled: nat
    var collectedUpgrades: seq<string>

    var fireTimer: real
    var fireRate: real               // seconds between volleys
    var isPaused: bool
    var inMenu: bool

    var playerLevel: int
    var playerXP: int
    var xpToNextLevel: int
    var xpPickupRange: real          // orbs closer than this fly to the player

    var projectileCount: int
    var projectileDamage: real
    var projectileRange: real

    var hasIceAura: bool
    var iceAuraRadius: real
    var iceAuraDamage: real          // per second

    var hasAutoSlash: bool
    var slashCooldown: real
    var slashTimer: real
    var slashDamage: real
    var slashEffectTimer: real

    /** The offers the upgrade screen is showing, waiting for a choice. */
    var pendingChoices: seq<Upgrades.Offer>

    function Parts(): Components
      reads this
    {
      Components(input, player, timeSystem, statsSystem, waveManager)
    }

    function Xp(): Progression.Xp
      reads this
    {
      Progression.Xp(playerLevel, playerXP, xpToNextLevel)
    }

    function Timers(): TimerState
      reads this
    {
      TimerState(fireTimer, slashTimer, slashEffectTimer)
    }

    function Session(): SessionState
      reads this
    {
      SessionState(isPaused, inMenu, collectedUpgrades, pendingChoices)
    }

    /** The fields upgrades act on. */
    function Stats(): Upgrades.Stats
      reads this, player, statsSystem
    {
      Upgrades.Stats(
        fireRate, player.speed, statsSystem.health, statsSystem.maxHealth,
        projectileCount, projectileDamage, projectileRange, xpPickupRange,
        hasIceAura, iceAuraRadius, iceAuraDamage,
        hasAutoSlash, slashDamage, slashCooldown)
    }

    /** No enemy or snowball is listed twice, the XP state is one a run can
      * reach, and every orb on the ground is worth 10 XP. */
    ghost predicate Valid()
      reads this
    {
      && Distinct(enemies) && Distinct(snowballs)
      && Progression.Reachable(Xp())
      && (forall k :: 0 <= k < |xpOrbs| ==> xpOrbs[k].value == Progression.OrbValue)
    }

    /** A new game waits in the main menu, paused, at level 1 with the
      * starting weapon. */
    constructor ()
      ensures Valid()
      ensures isPaused && inMenu
      ensures enemies == [] && snowballs == [] && xpOrbs == [] && enemiesKilled == 0
      ensures collectedUpgrades == [] && pendingChoices == []
      ensures Xp() == Progression.Start
      ensures Stats() == Upgrades.Stats(0.5, 5.0, 100.0, 100.0, 1, 1.0, 20.0, 3.0, false, 3.0, 2.0, false, 3.0, 2.0)
      ensures Upgrades.Sane(Stats())
      ensures Timers() == TimerState(0.0, 0.0, 0.0)
      ensures fresh(input) && fresh(player) && fresh(timeSystem) && fresh(statsSystem) && fresh(waveManager)
      ensures timeSystem.totalTime == 0.0 && waveManager.spawnTimer == 0.0
    {
      input := new Inputs.Input();
      player := new Players.Player();
      timeSystem := new Time.TimeSystem();
      statsSystem := new Stats.StatsSystem();
      waveManager := new Waves.WaveManager();
      enemies, snowballs, xpOrbs := [], [], [];
      enemiesKilled := 0;
      collectedUpgrades := [];
      fireTimer := 0.0;
      fireRate := 0.5;
      playerLevel, playerXP, xpToNextLevel := 1, 0, Progression.FirstThreshold;
      xpPickupRange := 3.0;
      projectileCount, projectileDamage, projectileRange := 1, 1.0, 20.0;
      hasIceAura, iceAuraRadius, iceAuraDamage := false, 3.0, 2.0;
      hasAutoSlash, slashCooldown, slashTimer, slashDamage, slashEffectTimer := false, 2.0, 0.0, 3.0, 0.0;
      pendingChoices := [];
      isPaused, inMenu := true, true;
      Progression.StartReachable();
    }

    /** The main menu's start button: leaves the menu and unpauses. */
    method StartFromMenu()
      modifies this
      ensures !isPaused && !inMenu
      ensures Parts() == old(Parts()) && Xp() == old(Xp()) && Timers() == old(Timers())
      ensures enemies == old(enemies) && snowballs == old(snowballs) && xpOrbs == old(xpOrbs)
      ensures enemiesKilled == old(enemiesKilled) && collectedUpgrades == old(collectedUpgrades)
      ensures pendingChoices == old(pendingChoices) && Stats() == old(Stats())
      ensures old(Valid()) ==> Valid()
    {
      inMenu := false;
      isPaused := false;
    }

    /** Kills `enemy`: once only, counting the kill, dropping one orb where
      * it stood, and taking it off the enemy list. */
    method KillEnemy(enemy: Enemies.Enemy)
      requires Valid()
      modifies this`enemies, this`xpOrbs, this`enemiesKilled, enemy
      ensures Valid() && Parts() == old(Parts())
      ensures old(enemy.isDead) ==> unchanged(this, enemy)
      ensures !old(enemy.isDead) ==>
        && enemy.isDead
        && enemy.position == old(enemy.position) && enemy.health == old(enemy.health) && enemy.speed == old(enemy.speed)
        && enemiesKilled == old(enemiesKilled) + 1
        && xpOrbs == old(xpOrbs) + [Drop(enemy.position)]
        && enemies == RemoveFirst(old(enemies), enemy)
        && enemy !in enemies
        && (enemy in old(enemies) ==> |enemies| == |old(enemies)| - 1)
        && (forall e :: e in enemies <==> e in old(enemies) && e != enemy)
      ensures snowballs == old(snowballs) && Xp() == old(Xp()) && Timers() == old(Timers())
      ensures Session() == old(Session()) && Stats() == old(Stats())
    {
      if enemy.isDead {
        return;
      }
      enemiesKilled := enemiesKilled + 1;
      xpOrbs := xpOrbs + [Drop(enemy.position)];
      enemy.isDead := true;
      Unlist(enemy);
    }

    /** Takes `enemy` off the enemy list, if it is on it. */
    method Unlist(enemy: Enemies.Enemy)
      requires Distinct(enemies)
      modifies this`enemies
      ensures enemies == RemoveFirst(old(enemies), enemy) && Distinct(enemies)
      ensures enemy !in enemies && (enemy in old(enemies) ==> |enemies| == |old(enemies)| - 1)
      ensures forall e :: e in enemies <==> e in old(enemies) && e != enemy
    {
      ghost var before := enemies;
      var index := IndexOf(enemies, enemy);
      if index > -1 {
        enemies := RemoveAt(enemies, index);
      }
      assert enemies == RemoveFirst(before, enemy);
      RemoveFirstDistinct(before, enemy);
    }

    /** The pass's visit to the enemy at `i`: a live enemy within `radius`
      * of the player loses `amount` of health and is killed when that
      * leaves it with none. */
    method Strike(i: int, radius: real, amount: real, ops: Ops) returns (struck: bool, killed: bool)
      requires Valid() && 0 <= i < |enemies|
      modifies this`enemies, this`xpOrbs, this`enemiesKilled, enemies[i]
      ensures Valid() && Parts() == old(Parts())
      ensures var enemy := old(enemies[i]);
        && (struck <==> !old(enemy.isDead) && Distance(player.position, enemy.position, ops) < radius)
        && (killed <==> struck && old(enemy.health) - amount <= 0.0)
        && enemy.position == old(enemy.position) && enemy.speed == old(enemy.speed)
        && enemy.health == old(enemy.health) - (if struck then amount else 0.0)
        && enemy.isDead == (old(enemy.isDead) || killed)
        && (killed ==> xpOrbs == old(xpOrbs) + [Drop(enemy.position)])
      ensures killed ==> enemiesKilled == old(enemiesKilled) + 1 && enemies == RemoveAt(old(enemies), i)
      ensures !killed ==> enemiesKilled == old(enemiesKilled) && xpOrbs == old(xpOrbs) && enemies == old(enemies)
      ensures snowballs == old(snowballs) && Xp() == old(Xp()) && Timers() == old(Timers())
      ensures Session() == old(Session()) && Stats() == old(Stats())
    {
      var enemy := enemies[i];
      struck, killed := false, false;
      if enemy.isDead {
        return;
      }
      if Distance(player.position, enemy.position, ops) < radius {
        struck := true;
        enemy.health := enemy.health - amount;
        if enemy.health <= 0.0 {
          killed := true;
          IndexOfDistinct(enemies, i);
          KillEnemy(enemy);
        }
      }
    }

    /** The damage pass over `E` with fates `F` has visited the entries
      * before `j` and stands at index `i` of the current list, which lost
      * the entries killed so far; the orbs and kills they dropped follow
      * `orbs0` and `kills0`. */
    ghost predicate Swept(E: seq<Enemies.Enemy>, F: seq<Fate>, P: seq<Vec3>, S: seq<real>, H: seq<real>, D: seq<bool>,
                          amount: real, j: int, i: int, orbs0: seq<Orb>, kills0: int)
      requires |E| == |F| == |P| == |S| == |H| == |D|
      reads this, E
    {
      && PassAt(E, F, j, i, enemies)
      && Visited(E, F, P, S, H, D, amount, j)
      && xpOrbs == orbs0 + Drops(P[..j], F[..j])
      && enemiesKilled == kills0 + Kills(F[..j])
    }

    /** Strikes the enemy at `i`, which is entry `j` of the pass over `E`
      * with fates `F`: it meets its fate, and the visited part of `E`
      * grows past it. */
    method StrikeEntry(i: int, radius: real, amount: real, ops: Ops,
                       ghost E: seq<Enemies.Enemy>, ghost F: seq<Fate>, ghost P: seq<Vec3>, ghost S: seq<real>,
                       ghost H: seq<real>, ghost D: seq<bool>, ghost j: int)
      returns (struck: bool, killed: bool)
      requires |E| == |F| == |P| == |S| == |H| == |D| && 0 <= j < |E| && Distinct(E)
      requires F == Fates(Reach(player.position, P, radius, ops), H, D, amount)
      requires F[j] != Skipped && forall k :: j < k < NextJ(F, j) ==> F[k] == Skipped
      requires Valid() && 0 <= i < |enemies| && enemies[i] == E[j]
      requires Visited(E, F, P, S, H, D, amount, j)
      modifies this`enemies, this`xpOrbs, this`enemiesKilled, enemies[i]
      ensures (struck <==> Struck(F[j])) && (killed <==> F[j] == Killed)
      ensures Visited(E, F, P, S, H, D, amount, NextJ(F, j))
      ensures killed ==>
        enemiesKilled == old(enemiesKilled) + 1 && enemies == RemoveAt(old(enemies), i) && xpOrbs == old(xpOrbs) + [Drop(P[j])]
      ensures !killed ==> enemiesKilled == old(enemiesKilled) && xpOrbs == old(xpOrbs) && enemies == old(enemies)
      ensures Valid() && Parts() == old(Parts()) && player.position == old(player.position)
      ensures Xp() == old(Xp()) && Timers() == old(Timers()) && Session() == old(Session()) && Stats() == old(Stats())
    {
      VisitedSnapshot(E, F, P, S, H, D, amount, j);
      ghost var P0, S0, H0, D0 := PositionsOf(E), SpeedsOf(E), HealthsOf(E), DeadFlagsOf(E);
      struck, killed := Strike(i, radius, amount, ops);
      VisitedStep(E, F, P, S, H, D, amount, j, P0, S0, H0, D0);
    }

    /** One step of the pass: strikes the enemy at `i`, which is the original
      * entry `j`, and moves on to the next entry the pass visits. */
    method Visit(i: int, radius: real, amount: real, ops: Ops,
                 ghost E: seq<Enemies.Enemy>, ghost F: seq<Fate>, ghost P: seq<Vec3>, ghost S: seq<real>,
                 ghost H: seq<real>, ghost D: seq<bool>, ghost j: int, ghost orbs0: seq<Orb>, ghost kills0: int)
      returns (struck: bool)
      requires |E| == |F| == |P| == |S| == |H| == |D|
      requires F == Fates(Reach(player.position, P, radius, ops), H, D, amount)
      requires Valid() && Distinct(E) && i < |enemies|
      requires Swept(E, F, P, S, H, D, amount, j, i, orbs0, kills0)
      modifies this`enemies, this`xpOrbs, this`enemiesKilled, enemies[i]
      ensures 0 <= j < |E| && (struck <==> Struck(F[j]))
      ensures Valid() && Parts() == old(Parts()) && player.position == old(player.position)
      ensures Swept(E, F, P, S, H, D, amount, NextJ(F, j), i + 1, orbs0, kills0)
      ensures snowballs == old(snowballs) && Xp() == old(Xp()) && Timers() == old(Timers())
      ensures Session() == old(Session()) && Stats() == old(Stats())
    {
      ghost var R := Reach(player.position, P, radius, ops);
      PassLookup(E, F, j, i, enemies);
      FatesStep(F, R, H, D, amount, j);
      PassTallies(P, F, j);
      AppendAssoc(orbs0, Drops(P[..j], F[..j]), if F[j] == Killed then [Drop(P[j])] else []);
      ghost var cur := enemies;
      var killed;
      struck, killed := StrikeEntry(i, radius, amount, ops, E, F, P, S, H, D, j);
      if killed {
        PassAdvanceKilled(E, F, j, i, cur);
      } else {
        PassAdvanceKept(E, F, j, i, cur);
      }
    }

    /** The loop of a damage pass over the enemy list `E`, with the fates
      * `F` its entries meet: visits the entries in order and stops when the
      * index runs off the shrinking list. */
    method Sweep(radius: real, amount: real, ops: Ops,
                 ghost E: seq<Enemies.Enemy>, ghost F: seq<Fate>, ghost P: seq<Vec3>, ghost S: seq<real>,
                 ghost H: seq<real>, ghost D: seq<bool>)
      returns (hitAny: bool)
      requires |E| == |F| == |P| == |S| == |H| == |D|
      requires F == Fates(Reach(player.position, P, radius, ops), H, D, amount)
      requires Valid() && enemies == E && Visited(E, F, P, S, H, D, amount, 0)
      modifies this`enemies, this`xpOrbs, this`enemiesKilled, enemies
      ensures Valid() && Parts() == old(Parts()) && player.position == old(player.position)
      ensures enemies == Survivors(E, F) && Visited(E, F, P, S, H, D, amount, |E|)
      ensures xpOrbs == old(xpOrbs) + Drops(P, F) && enemiesKilled == old(enemiesKilled) + Kills(F)
      ensures hitAny <==> AnyStruck(F, |E|)
      ensures snowballs == old(snowballs) && Xp() == old(Xp()) && Timers() == old(Timers())
      ensures Session() == old(Session()) && Stats() == old(Stats())
    {
      ghost var R := Reach(player.position, P, radius, ops);
      ghost var j := 0;
      PassStart(E, R, H, D, amount);
      hitAny := false;
      var i := 0;
      while i < |enemies|
        invariant Valid() && Distinct(E)
        invariant Swept(E, F, P, S, H, D, amount, j, i, old(xpOrbs), old(enemiesKilled))
        invariant Parts() == old(Parts()) && player.position == old(player.position)
        invariant hitAny <==> AnyStruck(F, j)
        invariant snowballs == old(snowballs) && Xp() == old(Xp()) && Timers() == old(Timers())
        invariant Session() == old(Session()) && Stats() == old(Stats())
        decreases |enemies| - i
      {
        PassLookup(E, F, j, i, enemies);
        FatesStruckStep(F, R, H, D, amount, j);
        var struck := Visit(i, radius, amount, ops, E, F, P, S, H, D, j, old(xpOrbs), old(enemiesKilled));
        if struck {
          hitAny := true;
        }
        j := NextJ(F, j);
        i := i + 1;
      }
      PassEnd(E, F, j, i, enemies);
      PrefixWhole(F, j);
      PrefixWhole(P, j);
    }

    /** One forward pass over the enemy list dealing `amount` to every live
      * enemy closer than `radius` to the player and killing those whose
      * health drops to zero.  A kill splices the list being walked, so the
      * enemy after a killed one is not visited.  Says whether any enemy
      * was struck. */
    method DamagePass(radius: real, amount: real, ops: Ops) returns (hitAny: bool)
      requires Valid()
      modifies this`enemies, this`xpOrbs, this`enemiesKilled, enemies
      ensures Valid() && Parts() == old(Parts())
      ensures var E := old(enemies);
        var fates := old(FatesOf(enemies, player.position, radius, amount, ops));
        && enemies == Survivors(E, fates)
        && Visited(E, fates, old(PositionsOf(enemies)), old(SpeedsOf(enemies)), old(HealthsOf(enemies)), old(DeadFlagsOf(enemies)), amount, |E|)
        && xpOrbs == old(xpOrbs) + Drops(old(PositionsOf(enemies)), fates)
        && enemiesKilled == old(enemiesKilled) + Kills(fates)
        && (hitAny <==> AnyStruck(fates, |E|))
      ensures forall e :: e in enemies ==> e in old(enemies)
      ensures forall k :: 0 <= k < |enemies| ==> enemies[k] in old(enemies)
      ensures enemiesKilled >= old(enemiesKilled)
      ensures |xpOrbs| == |old(xpOrbs)| + (enemiesKilled - old(enemiesKilled)) && xpOrbs[..|old(xpOrbs)|] == old(xpOrbs)
      ensures snowballs == old(snowballs) && Xp() == old(Xp()) && Timers() == old(Timers())
      ensures Session() == old(Session()) && Stats() == old(Stats())
    {
      ghost var E := enemies;
      ghost var P := PositionsOf(enemies);
      ghost var S := SpeedsOf(enemies);
      ghost var H := HealthsOf(enemies);
      ghost var D := DeadFlagsOf(enemies);
      ghost var F := FatesOf(enemies, player.position, radius, amount, ops);
      hitAny := Sweep(radius, amount, ops, E, F, P, S, H, D);
      forall k | 0 <= k < |enemies| ensures enemies[k] in E {
        assert enemies[k] in Survivors(E, F);
      }
    }

    /** The ice aura: once unlocked, every frame deals `iceAuraDamage * dt`
      * to the live enemies within `iceAuraRadius`, in one damage pass. */
    method IceAura(dt: real, ops: Ops)
      requires Valid()
      modifies this`enemies, this`xpOrbs, this`enemiesKilled, enemies
      ensures Valid() && Parts() == old(Parts()) && player.position == old(player.position)
      ensures !hasIceAura ==> enemies == old(enemies) && xpOrbs == old(xpOrbs) && enemiesKilled == old(enemiesKilled)
      ensures !hasIceAura ==> forall k :: 0 <= k < |enemies| ==> unchanged(enemies[k])
      ensures hasIceAura ==> var E, amount := old(enemies), old(iceAuraDamage) * dt;
        var fates := old(FatesOf(enemies, player.position, iceAuraRadius, amount, ops));
        && enemies == Survivors(E, fates)
        && Visited(E, fates, old(PositionsOf(enemies)), old(SpeedsOf(enemies)), old(HealthsOf(enemies)), old(DeadFlagsOf(enemies)), amount, |E|)
        && xpOrbs == old(xpOrbs) + Drops(old(PositionsOf(enemies)), fates)
        && enemiesKilled == old(enemiesKilled) + Kills(fates)
      ensures forall e :: e in enemies ==> e in old(enemies)
      ensures forall k :: 0 <= k < |enemies| ==> enemies[k] in old(enemies)
      ensures enemiesKilled >= old(enemiesKilled)
      ensures |xpOrbs| == |old(xpOrbs)| + (enemiesKilled - old(enemiesKilled)) && xpOrbs[..|old(xpOrbs)|] == old(xpOrbs)
      ensures snowballs == old(snowballs) && Xp() == old(Xp()) && Timers() == old(Timers())
      ensures Session() == old(Session()) && Stats() == old(Stats())
    {
      if hasIceAura {
        var _ := DamagePass(iceAuraRadius, iceAuraDamage * dt, ops);
      }
    }

    /** The slash itself, when its timer is due: one damage pass of
      * `slashDamage` within 2.5 units, and a swing when that struck an enemy
      * or some enemy still listed is within 4.5 units. */
    method Slash(ops: Ops) returns (swung: bool)
      requires Valid()
      modifies this`enemies, this`xpOrbs, this`enemiesKilled, enemies
      ensures Valid() && Parts() == old(Parts()) && player.position == old(player.position)
      ensures var E, amount := old(enemies), old(slashDamage);
        var fates := old(FatesOf(enemies, player.position, SlashRadius, amount, ops));
        && enemies == Survivors(E, fates)
        && Visited(E, fates, old(PositionsOf(enemies)), old(SpeedsOf(enemies)), old(HealthsOf(enemies)), old(DeadFlagsOf(enemies)), amount, |E|)
        && xpOrbs == old(xpOrbs) + Drops(old(PositionsOf(enemies)), fates)
        && enemiesKilled == old(enemiesKilled) + Kills(fates)
        && (swung <==> AnyStruck(fates, |E|) || AnyWithin(enemies, player.position, SlashRadius + SlashNoticeMargin, ops))
      ensures forall e :: e in enemies ==> e in old(enemies)
      ensures forall k :: 0 <= k < |enemies| ==> enemies[k] in old(enemies)
      ensures enemiesKilled >= old(enemiesKilled)
      ensures |xpOrbs| == |old(xpOrbs)| + (enemiesKilled - old(enemiesKilled)) && xpOrbs[..|old(xpOrbs)|] == old(xpOrbs)
      ensures snowballs == old(snowballs) && Xp() == old(Xp()) && Timers() == old(Timers())
      ensures Session() == old(Session()) && Stats() == old(Stats())
    {
      var hitAny := DamagePass(SlashRadius, slashDamage, ops);
      swung := hitAny || AnyWithin(enemies, player.position, SlashRadius + SlashNoticeMargin, ops);
    }

    /** The slash and effect timers.  Once unlocked, the slash timer runs and
      * the slash is tried whenever it has reached the cooldown; a swing
      * restarts the timer and shows the effect for 0.2 s, and without one
      * the timer keeps running and the slash is tried again next frame.
      * The effect timer then runs down while it is positive, unlocked or
      * not. */
    method SlashTimers(dt: real, ops: Ops) returns (swung: bool)
      requires Valid()
      modifies this, enemies
      ensures Valid() && Parts() == old(Parts()) && player.position == old(player.position)
      ensures var due := old(hasAutoSlash) && old(slashTimer) + dt >= old(slashCooldown);
        && (!due ==> enemies == old(enemies) && xpOrbs == old(xpOrbs) && enemiesKilled == old(enemiesKilled) && !swung)
        && (swung ==> due && slashTimer == 0.0)
        && (!swung ==> slashTimer == if old(hasAutoSlash) then old(slashTimer) + dt else old(slashTimer))
      ensures var shown := if swung then SlashEffectDuration else old(slashEffectTimer);
        slashEffectTimer == if shown > 0.0 then shown - dt else shown
      ensures forall k :: 0 <= k < |enemies| ==> enemies[k] in old(enemies)
      ensures enemiesKilled >= old(enemiesKilled)
      ensures |xpOrbs| == |old(xpOrbs)| + (enemiesKilled - old(enemiesKilled)) && xpOrbs[..|old(xpOrbs)|] == old(xpOrbs)
      ensures fireTimer == old(fireTimer) && snowballs == old(snowballs) && Xp() == old(Xp())
      ensures Session() == old(Session()) && Stats() == old(Stats())
    {
      swung := TrySlash(dt, ops);
      SettleSlash(swung, dt);
    }

    /** The slash when its timer is due, nothing otherwise. */
    method TrySlash(dt: real, ops: Ops) returns (swung: bool)
      requires Valid()
      modifies this`enemies, this`xpOrbs, this`enemiesKilled, enemies
      ensures Valid() && Parts() == old(Parts()) && player.position == old(player.position)
      ensures var due := old(hasAutoSlash) && old(slashTimer) + dt >= old(slashCooldown);
        && (!due ==> enemies == old(enemies) && xpOrbs == old(xpOrbs) && enemiesKilled == old(enemiesKilled) && !swung)
        && (!due ==> forall k :: 0 <= k < |enemies| ==> unchanged(enemies[k]))
        && (swung ==> due)
      ensures var due := old(hasAutoSlash) && old(slashTimer) + dt >= old(slashCooldown);
        due ==> var E, amount := old(enemies), old(slashDamage);
        var fates := old(FatesOf(enemies, player.position, SlashRadius, amount, ops));
        && enemies == Survivors(E, fates)
        && Visited(E, fates, old(PositionsOf(enemies)), old(SpeedsOf(enemies)), old(HealthsOf(enemies)), old(DeadFlagsOf(enemies)), amount, |E|)
        && xpOrbs == old(xpOrbs) + Drops(old(PositionsOf(enemies)), fates)
        && enemiesKilled == old(enemiesKilled) + Kills(fates)
        && (swung <==> AnyStruck(fates, |E|) || AnyWithin(enemies, player.position, SlashRadius + SlashNoticeMargin, ops))
      ensures forall e :: e in enemies ==> e in old(enemies)
      ensures forall k :: 0 <= k < |enemies| ==> enemies[k] in old(enemies)
      ensures enemiesKilled >= old(enemiesKilled)
      ensures |xpOrbs| == |old(xpOrbs)| + (enemiesKilled - old(enemiesKilled)) && xpOrbs[..|old(xpOrbs)|] == old(xpOrbs)
      ensures Timers() == old(Timers()) && snowballs == old(snowballs) && Xp() == old(Xp())
      ensures Session() == old(Session()) && Stats() == old(Stats())
    {
      swung := false;
      if hasAutoSlash && slashTimer + dt >= slashCooldown {
        swung := Slash(ops);
      }
    }

    /** After the slash: a swing restarts the slash timer and shows the
      * effect for 0.2 s, otherwise the slash timer runs on while unlocked;
      * then the effect timer runs down while positive. */
    method SettleSlash(swung: bool, dt: real)
      modifies this`slashTimer, this`slashEffectTimer
      ensures slashTimer == if swung then 0.0 else if hasAutoSlash then old(slashTimer) + dt else old(slashTimer)
      ensures var shown := if swung then SlashEffectDuration else old(slashEffectTimer);
        slashEffectTimer == if shown > 0.0 then shown - dt else shown
    {
      var timer := if swung then 0.0 else if hasAutoSlash then slashTimer + dt else slashTimer;
      var shown := if swung then SlashEffectDuration else slashEffectTimer;
      slashTimer, slashEffectTimer := timer, if shown > 0.0 then shown - dt else shown;
    }

    /** The systems' share of a frame: the clock runs, the health record
      * updates, and the wave manager runs twice, first at level 1 and then
      * at the player's level, each run drawing its own spawn angle. */
    method AdvanceSystems(dt: real, angle1: real, angle2: real, ops: Ops)
      requires Valid()
      modifies this, timeSystem, waveManager
      ensures Valid() && Parts() == old(Parts()) && player.position == old(player.position)
      ensures timeSystem.totalTime == old(timeSystem.totalTime) + dt
      ensures var E, level := old(enemies), old(playerLevel);
        var first := old(waveManager.spawnTimer) + dt >= Waves.SpawnInterval(1) && |E| < Waves.MaxEnemies(1);
        var n := |E| + (if first then 1 else 0);
        var timer := if first then 0.0 else old(waveManager.spawnTimer) + dt;
        var second := timer + dt >= Waves.SpawnInterval(level) && n < Waves.MaxEnemies(level);
        && |enemies| == n + (if second then 1 else 0)
        && enemies[..|E|] == E
        && waveManager.spawnTimer == (if second then 0.0 else timer + dt)
        && (first ==> enemies[|E|].position == Waves.SpawnPosition(player.position, angle1, ops))
        && (second ==> enemies[n].position == Waves.SpawnPosition(player.position, angle2, ops))
      ensures forall k :: |old(enemies)| <= k < |enemies| ==>
        fresh(enemies[k]) && enemies[k].health == Enemies.StartHealth && !enemies[k].isDead
      ensures forall e :: e in enemies ==> e in old(enemies) || fresh(e)
      ensures xpOrbs == old(xpOrbs) && enemiesKilled == old(enemiesKilled) && snowballs == old(snowballs)
      ensures Xp() == old(Xp()) && Timers() == old(Timers()) && Session() == old(Session()) && Stats() == old(Stats())
    {
      timeSystem.Update(dt);
      statsSystem.Update(dt);
      RunWaves(dt, 1, angle1, ops);
      RunWaves(dt, playerLevel, angle2, ops);
    }

    /** One run of the wave manager at `level`, on the game's enemy list. */
    method RunWaves(dt: real, level: int, angle: real, ops: Ops)
      requires Valid()
      modifies this, waveManager
      ensures Valid() && Parts() == old(Parts()) && player.position == old(player.position)
      ensures var E := old(enemies);
        var spawn := old(waveManager.spawnTimer) + dt >= Waves.SpawnInterval(level) && |E| < Waves.MaxEnemies(level);
        && (spawn ==> waveManager.spawnTimer == 0.0 && |enemies| == |E| + 1 && enemies[..|E|] == E)
        && (spawn ==> fresh(enemies[|E|]) && enemies[|E|].position == Waves.SpawnPosition(player.position, angle, ops))
        && (spawn ==> enemies[|E|].health == Enemies.StartHealth && !enemies[|E|].isDead)
        && (!spawn ==> waveManager.spawnTimer == old(waveManager.spawnTimer) + dt && enemies == E)
      ensures xpOrbs == old(xpOrbs) && enemiesKilled == old(enemiesKilled) && snowballs == old(snowballs)
      ensures Xp() == old(Xp()) && Timers() == old(Timers()) && Session() == old(Session()) && Stats() == old(Stats())
    {
      var E := enemies;
      var result := waveManager.Update(dt, player.position, enemies, level, angle, ops);
      if |result| > |E| {
        DistinctAppend(E, result[|E|]);
        assert result == E + [result[|E|]];
      }
      enemies := result;
    }

    /** The target search: the first enemy at the strictly smallest distance
      * below `projectileRange`, dead or alive, or -1 when none is that
      * close. */
    method FindNearest(ops: Ops) returns (k: int)
      ensures IsNearest(Distances(enemies, player.position, ops), projectileRange, k)
    {
      ghost var ds := Distances(enemies, player.position, ops);
      k := -1;
      var minDist := projectileRange;
      var j := 0;
      while j < |enemies|
        invariant 0 <= j <= |enemies|
        invariant IsNearest(ds[..j], projectileRange, k)
        invariant minDist == if k == -1 then projectileRange else ds[k]
      {
        var dist := Distance(enemies[j].position, player.position, ops);
        if dist < minDist {
          minDist := dist;
          k := j;
        }
        j := j + 1;
      }
      assert ds[..j] == ds;
    }

    /** Auto-fire.  The fire timer runs; once it has reached the fire
      * interval and an enemy is in range, the timer restarts and a fan of
      * `projectileCount` snowballs leaves one unit above the player, aimed
      * half a unit above the nearest enemy and turned by the fan offsets.
      * With no enemy in range the timer keeps running.  Returns the index of
      * the enemy aimed at, or -1. */
    method AutoFire(dt: real, ops: Ops) returns (target: int)
      requires Valid()
      modifies this`fireTimer, this`snowballs
      ensures Valid() && Parts() == old(Parts())
      ensures -1 <= target < |enemies|
      ensures old(fireTimer) + dt < fireRate ==> target == -1
      ensures old(fireTimer) + dt >= fireRate ==> IsNearest(old(Distances(enemies, player.position, ops)), projectileRange, target)
      ensures target == -1 ==> fireTimer == old(fireTimer) + dt && snowballs == old(snowballs)
      ensures target != -1 ==>
        var spawn := Add(player.position, Vec3(0.0, 1.0, 0.0));
        var aim := Add(enemies[target].position, Vec3(0.0, 0.5, 0.0));
        fireTimer == 0.0 && Volleyed(old(snowballs), snowballs, spawn, Normalize(Sub(aim, spawn), ops), projectileCount, ops)
      ensures forall k :: |old(snowballs)| <= k < |snowballs| ==> fresh(snowballs[k])
      ensures Xp() == old(Xp()) && Session() == old(Session()) && Stats() == old(Stats())
    {
      target := -1;
      fireTimer := fireTimer + dt;
      if fireTimer < fireRate {
        return;
      }
      target := FindNearest(ops);
      if target == -1 {
        return;
      }
      fireTimer := 0.0;
      Launch(target, ops);
    }

    /** The fan of snowballs aimed at enemy `target` joins the snowball list. */
    method Launch(target: int, ops: Ops)
      requires Valid() && 0 <= target < |enemies|
      modifies this`snowballs
      ensures Valid()
      ensures var spawn := Add(player.position, Vec3(0.0, 1.0, 0.0));
        var aim := Add(enemies[target].position, Vec3(0.0, 0.5, 0.0));
        Volleyed(old(snowballs), snowballs, spawn, Normalize(Sub(aim, spawn), ops), projectileCount, ops)
      ensures forall k :: |old(snowballs)| <= k < |snowballs| ==> fresh(snowballs[k])
    {
      var spawn := Add(player.position, Vec3(0.0, 1.0, 0.0));
      var aim := Add(enemies[target].position, Vec3(0.0, 0.5, 0.0));
      var heading := Normalize(Sub(aim, spawn), ops);
      var volley := Volley(spawn, heading, projectileCount, ops);
      snowballs := snowballs + volley;
    }

    /** `after` is `before` followed by a fan of `count` snowballs leaving
      * `spawn`, the `i`-th flying along `heading` turned by the `i`-th fan
      * offset, at full speed and with a full lifetime. */
    ghost predicate Volleyed(before: seq<Snowballs.Snowball>, after: seq<Snowballs.Snowball>, spawn: Vec3, heading: Vec3, count: int, ops: Ops)
      reads after
    {
      && |after| == |before| + (if count > 0 then count else 0)
      && after[..|before|] == before
      && forall i :: 0 <= i < |after| - |before| ==>
           after[|before| + i].State()
             == Flights.Flight(spawn, Scale(RotateY(heading, FanOffset(i, count), ops), Snowballs.Speed), Snowballs.LifeTime)
    }

    /** The fan of `count` new snowballs leaving `spawn`, the `i`-th turned
      * by the `i`-th fan offset from `heading`; none of them is on the
      * snowball list yet. */
    method Volley(spawn: Vec3, heading: Vec3, count: int, ops: Ops) returns (volley: seq<Snowballs.Snowball>)
      requires Distinct(snowballs)
      ensures |volley| == if count > 0 then count else 0
      ensures Distinct(snowballs + volley)
      ensures forall m :: 0 <= m < |volley| ==>
        && fresh(volley[m])
        && volley[m].State()
           == Flights.Flight(spawn, Scale(RotateY(heading, FanOffset(m, count), ops), Snowballs.Speed), Snowballs.LifeTime)
    {
      volley := [];
      assert snowballs + volley == snowballs;
      var i := 0;
      while i < count
        invariant 0 <= i && (count > 0 ==> i <= count) && (count <= 0 ==> i == 0) && |volley| == i
        invariant Distinct(snowballs + volley)
        invariant forall m :: 0 <= m < i ==>
          && fresh(volley[m])
          && volley[m].State()
             == Flights.Flight(spawn, Scale(RotateY(heading, FanOffset(m, count), ops), Snowballs.Speed), Snowballs.LifeTime)
      {
        var ball := new Snowballs.Snowball(spawn, RotateY(heading, FanOffset(i, count), ops));
        DistinctAppend(snowballs + volley, ball);
        assert snowballs + (volley + [ball]) == (snowballs + volley) + [ball];
        volley := volley + [ball];
        i := i + 1;
      }
    }

    /** The distance from `at` to each listed enemy. */
    function DistancesFrom(at: Vec3, ops: Ops): (ds: seq<real>)
      reads this, enemies
      ensures |ds| == |enemies|
      ensures forall k :: 0 <= k < |enemies| ==> ds[k] == Distance(at, enemies[k].position, ops)
    {
      seq(|enemies|, k reads this, enemies requires 0 <= k < |enemies| => Distance(at, enemies[k].position, ops))
    }

    /** The hit test of a snowball at `at`, scanning the enemies from the
      * back: the last listed enemy closer than one unit, dead or alive, or
      * -1 when there is none. */
    method LastEnemyWithin(at: Vec3, ops: Ops) returns (j: int)
      ensures IsLastWithin(DistancesFrom(at, ops), HitDistance, j)
    {
      ghost var ds := DistancesFrom(at, ops);
      j := |enemies| - 1;
      while j >= 0
        invariant -1 <= j < |enemies|
        invariant forall k :: j < k < |enemies| ==> ds[k] >= HitDistance
      {
        if Distance(at, enemies[j].position, ops) < HitDistance {
          return;
        }
        j := j - 1;
      }
    }

    /** A snowball hitting an enemy: the enemy at `j` loses
      * `projectileDamage`, the snowball at `i` leaves the list, and the
      * enemy is killed when that leaves it with no health. */
    method Hit(i: int, j: int)
      requires Valid() && 0 <= i < |snowballs| && 0 <= j < |enemies|
      modifies this, enemies[j]
      ensures Valid() && Parts() == old(Parts())
      ensures snowballs == RemoveAt(old(snowballs), i)
      ensures var enemy := old(enemies[j]);
        var killed := !old(enemy.isDead) && old(enemy.health) - old(projectileDamage) <= 0.0;
        && enemy.health == old(enemy.health) - old(projectileDamage)
        && enemy.position == old(enemy.position) && enemy.speed == old(enemy.speed)
        && enemy.isDead == (old(enemy.isDead) || killed)
        && (killed ==> && enemiesKilled == old(enemiesKilled) + 1 && xpOrbs == old(xpOrbs) + [Drop(enemy.position)]
                       && enemies == RemoveAt(old(enemies), j))
        && (!killed ==> enemiesKilled == old(enemiesKilled) && xpOrbs == old(xpOrbs) && enemies == old(enemies))
      ensures Xp() == old(Xp()) && Timers() == old(Timers()) && Session() == old(Session()) && Stats() == old(Stats())
    {
      var enemy := enemies[j];
      enemy.health := enemy.health - projectileDamage;
      IndexOfDistinct(snowballs, i);
      RemoveFirstDistinct(snowballs, snowballs[i]);
      snowballs := RemoveAt(snowballs, i);
      if enemy.health <= 0.0 {
        IndexOfDistinct(enemies, j);
        KillEnemy(enemy);
      }
    }

    /** One turn of the projectile loop for the snowball at `i`: it flies
      * for `dt`; a snowball that is no longer alive leaves the list without
      * hitting anything; otherwise it hits the last listed enemy within one
      * unit of where it now is, if any.  Returns the index of the enemy hit,
      * or -1. */
    method ProjectileStep(i: int, dt: real, ops: Ops) returns (hit: int)
      requires Valid() && 0 <= i < |snowballs|
      modifies this, snowballs[i], enemies
      ensures Valid() && Parts() == old(Parts()) && player.position == old(player.position)
      ensures var ball := old(snowballs[i]);
        && ball.State() == Flights.Step(old(ball.State()), dt, Snowballs.Gravity)
        && (!Flights.Alive(ball.State()) ==> hit == -1 && snowballs == RemoveAt(old(snowballs), i))
        && (Flights.Alive(ball.State()) ==> var at := ball.position; IsLastWithin(old(DistancesFrom(at, ops)), HitDistance, hit))
        && (Flights.Alive(ball.State()) && hit == -1 ==> snowballs == old(snowballs))
        && (hit != -1 ==> snowballs == RemoveAt(old(snowballs), i))
      ensures -1 <= hit < |old(enemies)|
      ensures hit == -1 ==> enemies == old(enemies) && xpOrbs == old(xpOrbs) && enemiesKilled == old(enemiesKilled)
      ensures hit != -1 ==> var enemy := old(enemies[hit]);
        var killed := !old(enemy.isDead) && old(enemy.health) - old(projectileDamage) <= 0.0;
        && enemy.health == old(enemy.health) - old(projectileDamage)
        && enemy.position == old(enemy.position) && enemy.speed == old(enemy.speed)
        && enemy.isDead == (old(enemy.isDead) || killed)
        && (killed ==> && enemiesKilled == old(enemiesKilled) + 1 && xpOrbs == old(xpOrbs) + [Drop(enemy.position)]
                       && enemies == RemoveAt(old(enemies), hit))
        && (!killed ==> enemiesKilled == old(enemiesKilled) && xpOrbs == old(xpOrbs) && enemies == old(enemies))
      ensures forall e :: e in old(enemies) && (hit == -1 || e != old(enemies[hit])) ==> unchanged(e)
      ensures Xp() == old(Xp()) && Timers() == old(Timers()) && Session() == old(Session()) && Stats() == old(Stats())
    {
      var ball := snowballs[i];
      var alive := ball.Update(dt);
      if !alive {
        IndexOfDistinct(snowballs, i);
        RemoveFirstDistinct(snowballs, ball);
        snowballs := RemoveAt(snowballs, i);
        return -1;
      }
      hit := LastEnemyWithin(ball.position, ops);
      if hit != -1 {
        Hit(i, hit);
      }
    }

    /** The projectile loop, from the last snowball to the first.  Every
      * listed snowball flies exactly once; the snowballs left on the list
      * are listed ones that are still alive; every enemy that left the
      * list was killed on the way, each kill counted and dropping one orb.
      * What each snowball does is `ProjectileStep`. */
    method ProjectilePass(dt: real, ops: Ops)
      requires Valid()
      modifies this, snowballs, enemies
      ensures Valid() && Parts() == old(Parts()) && player.position == old(player.position)
      ensures var B, F0 := old(snowballs), old(FlightsOf(snowballs));
        forall k :: 0 <= k < |B| ==> B[k].State() == Flights.Step(F0[k], dt, Snowballs.Gravity)
      ensures forall b :: b in snowballs ==> b in old(snowballs) && Flights.Alive(b.State())
      ensures |enemies| <= |old(enemies)| && forall e :: e in enemies ==> e in old(enemies)
      ensures enemiesKilled == old(enemiesKilled) + (|old(enemies)| - |enemies|)
      ensures |xpOrbs| == |old(xpOrbs)| + (|old(enemies)| - |enemies|) && xpOrbs[..|old(xpOrbs)|] == old(xpOrbs)
      ensures Xp() == old(Xp()) && Timers() == old(Timers()) && Session() == old(Session()) && Stats() == old(Stats())
    {
      ghost var B, F0 := snowballs, FlightsOf(snowballs);
      var i := |snowballs| - 1;
      while i >= 0
        invariant -1 <= i < |B| && i < |snowballs|
        invariant Valid() && Parts() == old(Parts()) && player.position == old(player.position)
        invariant Distinct(B) && snowballs[..i + 1] == B[..i + 1]
        invariant forall b :: b in snowballs ==> b in B
        invariant forall k :: 0 <= k < |B| ==> B[k].State() == if k > i then Flights.Step(F0[k], dt, Snowballs.Gravity) else F0[k]
        invariant forall k :: i < k < |B| && B[k] in snowballs ==> Flights.Alive(Flights.Step(F0[k], dt, Snowballs.Gravity))
        invariant |enemies| <= |old(enemies)| && forall e :: e in enemies ==> e in old(enemies)
        invariant forall k :: 0 <= k < |enemies| ==> enemies[k] in old(enemies)
        invariant enemiesKilled == old(enemiesKilled) + (|old(enemies)| - |enemies|)
        invariant |xpOrbs| == |old(xpOrbs)| + (|old(enemies)| - |enemies|) && xpOrbs[..|old(xpOrbs)|] == old(xpOrbs)
        invariant Xp() == old(Xp()) && Timers() == old(Timers()) && Session() == old(Session()) && Stats() == old(Stats())
        decreases i
      {
        ProjectileTurn(i, dt, ops, B, F0);
        i := i - 1;
      }
    }

    /** The projectile loop's turn at `i`, over the snowball list `B` it
      * started from, whose flights were `F0`: the snowball at `i` flies and
      * may leave the list, and the loop's bookkeeping moves down by one. */
    method ProjectileTurn(i: int, dt: real, ops: Ops, ghost B: seq<Snowballs.Snowball>, ghost F0: seq<Flights.Flight>)
      requires 0 <= i < |B| && i < |snowballs| && |F0| == |B|
      requires Valid() && Distinct(B) && snowballs[..i + 1] == B[..i + 1]
      requires forall b :: b in snowballs ==> b in B
      requires forall k :: 0 <= k < |B| ==> B[k].State() == if k > i then Flights.Step(F0[k], dt, Snowballs.Gravity) else F0[k]
      requires forall k :: i < k < |B| && B[k] in snowballs ==> Flights.Alive(Flights.Step(F0[k], dt, Snowballs.Gravity))
      modifies this, snowballs[i], enemies
      ensures i - 1 < |snowballs|
      ensures Valid() && Parts() == old(Parts()) && player.position == old(player.position)
      ensures snowballs[..i] == B[..i]
      ensures forall b :: b in snowballs ==> b in B
      ensures forall k :: 0 <= k < |B| ==> B[k].State() == if k > i - 1 then Flights.Step(F0[k], dt, Snowballs.Gravity) else F0[k]
      ensures forall k :: i - 1 < k < |B| && B[k] in snowballs ==> Flights.Alive(Flights.Step(F0[k], dt, Snowballs.Gravity))
      ensures |enemies| <= |old(enemies)| && forall k :: 0 <= k < |enemies| ==> enemies[k] in old(enemies)
      ensures enemiesKilled - |xpOrbs| == old(enemiesKilled) - |old(xpOrbs)|
      ensures enemiesKilled == old(enemiesKilled) + (|old(enemies)| - |enemies|)
      ensures |xpOrbs| >= |old(xpOrbs)| && xpOrbs[..|old(xpOrbs)|] == old(xpOrbs)
      ensures Xp() == old(Xp()) && Timers() == old(Timers()) && Session() == old(Session()) && Stats() == old(Stats())
    {
      assert snowballs[i] == B[i];
      ghost var cur := snowballs;
      var hit := ProjectileStep(i, dt, ops);
      if hit != -1 || !Flights.Alive(B[i].State()) {
        RemoveFirstDistinct(cur, B[i]);
        IndexOfDistinct(cur, i);
      }
      DistinctFrom(B, i);
    }

    /** The offers a level-up shows, for the game's current stats. */
    predicate OfferDrawable(perm: seq<nat>, rolls: seq<real>)
      reads this, player, statsSystem
    {
      && Upgrades.IsPermutation(perm, |Upgrades.Available(Stats())|)
      && |rolls| >= Upgrades.MinNat(ChoicesOffered, |Upgrades.Available(Stats())|)
      && (forall i :: 0 <= i < |rolls| ==> 0.0 <= rolls[i] < 100.0)
    }

    /** The orb loop, from the last orb to the first.  An orb within a unit
      * of the player is collected and leaves the list; every other orb is
      * pulled by the magnet and bobs.  The XP state is the one collecting
      * the orbs one after another gives, and any level-up on the way pauses
      * the game behind a fresh set of three offers drawn with `perm` and
      * `rolls`.  Nothing else changes. */
    method CollectOrbs(dt: real, bobSine: real, perm: seq<nat>, rolls: seq<real>, ops: Ops)
      requires Valid() && OfferDrawable(perm, rolls)
      modifies this`xpOrbs, this`playerXP, this`playerLevel, this`xpToNextLevel, this`isPaused, this`pendingChoices
      ensures Valid()
      ensures var O, at := old(xpOrbs), player.position;
        && xpOrbs == Remaining(O, at, old(xpPickupRange), dt, bobSine, ops)
        && Xp() == CollectAll(old(Xp()), O, at, ops)
        && var up := LevelledDuring(old(Xp()), O, at, ops);
        && isPaused == (old(isPaused) || up)
        && pendingChoices == if up then old(Upgrades.GetRandomUpgrades(ChoicesOffered, Stats(), perm, rolls)) else old(pendingChoices)
      ensures Parts() == old(Parts()) && Timers() == old(Timers()) && Stats() == old(Stats())
    {
      ghost var O, offers := xpOrbs, Upgrades.GetRandomUpgrades(ChoicesOffered, Stats(), perm, rolls);
      ghost var at, range := player.position, xpPickupRange;
      var i := |xpOrbs| - 1;
      while i >= 0
        invariant -1 <= i < |O|
        invariant Valid() && OfferDrawable(perm, rolls) && offers == Upgrades.GetRandomUpgrades(ChoicesOffered, Stats(), perm, rolls)
        invariant Collecting(i, O, at, range, dt, bobSine, ops, old(Xp()), old(isPaused), old(pendingChoices), offers)
        invariant Parts() == old(Parts()) && Timers() == old(Timers()) && Stats() == old(Stats())
        decreases i
      {
        CollectTurn(i, dt, bobSine, perm, rolls, ops, O, old(Xp()), old(isPaused), old(pendingChoices), offers);
        i := i - 1;
      }
      assert O[0..] == O;
    }

    /** The orb loop's bookkeeping once the orbs of `O` above `i` are done,
      * from XP state `s0`: those orbs are collected or moved, and the rest
      * still wait. */
    ghost predicate Collecting(i: int, O: seq<Orb>, at: Vec3, range: real, dt: real, bobSine: real, ops: Ops,
                               s0: Progression.Xp, paused0: bool, choices0: seq<Upgrades.Offer>, offers: seq<Upgrades.Offer>)
      requires -1 <= i < |O|
      reads this
    {
      && xpOrbs == O[..i + 1] + Remaining(O[i + 1..], at, range, dt, bobSine, ops)
      && Xp() == CollectAll(s0, O[i + 1..], at, ops)
      && var up := LevelledDuring(s0, O[i + 1..], at, ops);
      && isPaused == (paused0 || up)
      && pendingChoices == if up then offers else choices0
    }

    /** The orb loop's turn at `i`, over the list `O` it started from with
      * XP state `s0`: the orb at `i` is collected or moved, and the loop's
      * bookkeeping takes in `O[i]`. */
    method CollectTurn(i: int, dt: real, bobSine: real, perm: seq<nat>, rolls: seq<real>, ops: Ops,
                       ghost O: seq<Orb>, ghost s0: Progression.Xp, ghost paused0: bool, ghost choices0: seq<Upgrades.Offer>,
                       ghost offers: seq<Upgrades.Offer>)
      requires 0 <= i < |O| && forall k :: 0 <= k < |O| ==> O[k].value == Progression.OrbValue
      requires Valid() && OfferDrawable(perm, rolls) && offers == Upgrades.GetRandomUpgrades(ChoicesOffered, Stats(), perm, rolls)
      requires Collecting(i, O, player.position, xpPickupRange, dt, bobSine, ops, s0, paused0, choices0, offers)
      modifies this`xpOrbs, this`playerXP, this`playerLevel, this`xpToNextLevel, this`isPaused, this`pendingChoices
      ensures Valid() && Stats() == old(Stats())
      ensures Collecting(i - 1, O, player.position, xpPickupRange, dt, bobSine, ops, s0, paused0, choices0, offers)
      ensures Parts() == old(Parts()) && Timers() == old(Timers())
    {
      ghost var at := player.position;
      assert O[i..] == [O[i]] + O[i + 1..];
      CollectFront(s0, O[i], O[i + 1..], at, ops);
      assert xpOrbs[i] == O[i];
      var orb := xpOrbs[i];
      var dist := Distance(orb.position, player.position, ops);
      var moved := Bob(Attract(orb, player.position, xpPickupRange, dt, ops), bobSine);
      if dist < PickupDistance {
        GainXp(orb.value, perm, rolls, offers);
      }
      PlaceOrb(i, dist < PickupDistance, moved, dt, bobSine, ops, O);
    }

    /** A collected orb's value goes to the XP; reaching the threshold gains
      * a level, keeps the surplus, raises the threshold, pauses the game
      * and shows the offers drawn with `perm` and `rolls`. */
    method GainXp(value: int, perm: seq<nat>, rolls: seq<real>, ghost offers: seq<Upgrades.Offer>)
      requires Progression.Reachable(Xp()) && value == Progression.OrbValue
      requires OfferDrawable(perm, rolls) && offers == Upgrades.GetRandomUpgrades(ChoicesOffered, Stats(), perm, rolls)
      modifies this`playerXP, this`playerLevel, this`xpToNextLevel, this`isPaused, this`pendingChoices
      ensures Progression.Reachable(Xp())
      ensures Xp() == Progression.Gain(old(Xp()), value)
      ensures var up := Progression.LevelsUp(old(Xp()), value);
        isPaused == (old(isPaused) || up) && pendingChoices == if up then offers else old(pendingChoices)
      ensures Stats() == old(Stats()) && Parts() == old(Parts()) && Timers() == old(Timers())
    {
      Progression.GainOrb(Xp());
      var up := AddXp(value);
      if up {
        isPaused := true;
        pendingChoices := Upgrades.GetRandomUpgrades(ChoicesOffered, Stats(), perm, rolls);
      }
    }

    /** `value` XP is added; reaching the threshold gains a level, keeps the
      * surplus and raises the threshold.  Reports whether a level was
      * gained. */
    method AddXp(value: int) returns (up: bool)
      modifies this`playerXP, this`playerLevel, this`xpToNextLevel
      ensures up == Progression.LevelsUp(old(Xp()), value)
      ensures Xp() == Progression.Gain(old(Xp()), value)
      ensures Stats() == old(Stats()) && Parts() == old(Parts()) && Timers() == old(Timers()) && Session() == old(Session())
    {
      playerXP := playerXP + value;
      up := playerXP >= xpToNextLevel;
      if up {
        playerLevel := playerLevel + 1;
        playerXP := playerXP - xpToNextLevel;
        xpToNextLevel := Progression.NextThreshold(xpToNextLevel);
      }
    }

    /** The orb at `i` leaves the list when collected and is replaced by its
      * moved self otherwise. */
    method PlaceOrb(i: int, collected: bool, moved: Orb, dt: real, bobSine: real, ops: Ops, ghost O: seq<Orb>)
      requires 0 <= i < |O| && forall k :: 0 <= k < |O| ==> O[k].value == Progression.OrbValue
      requires collected == Collected(O[i], player.position, ops)
      requires moved == Bob(Attract(O[i], player.position, xpPickupRange, dt, ops), bobSine)
      requires xpOrbs == O[..i + 1] + Remaining(O[i + 1..], player.position, xpPickupRange, dt, bobSine, ops)
      modifies this`xpOrbs
      ensures xpOrbs == O[..i] + Remaining(O[i..], player.position, xpPickupRange, dt, bobSine, ops)
      ensures forall k :: 0 <= k < |xpOrbs| ==> xpOrbs[k].value == Progression.OrbValue
      ensures Xp() == old(Xp()) && Session() == old(Session()) && Stats() == old(Stats()) && Parts() == old(Parts())
      ensures Timers() == old(Timers())
    {
      ghost var tail := Remaining(O[i + 1..], player.position, xpPickupRange, dt, bobSine, ops);
      assert O[i..] == [O[i]] + O[i + 1..];
      assert Remaining(O[i..], player.position, xpPickupRange, dt, bobSine, ops)
        == Moved(O[i], player.position, xpPickupRange, dt, bobSine, ops) + tail;
      if collected {
        assert xpOrbs[..i] + xpOrbs[i + 1..] == O[..i] + tail;
        xpOrbs := RemoveAt(xpOrbs, i);
      } else {
        xpOrbs := xpOrbs[i := moved];
        assert xpOrbs == O[..i] + ([moved] + tail);
      }
      RemainingFacts(O[i..], player.position, xpPickupRange, dt, bobSine, ops);
    }

    /** Contact damage: each live listed enemy closer than 1.5 to the player
      * takes `10 * dt` off the player's health, one subtraction each, and
      * the damage tint shows exactly when at least one does. */
    method ContactDamage(dt: real, ops: Ops) returns (takingDamage: bool)
      modifies statsSystem
      ensures var n := Touching(player.position, PositionsOf(enemies), DeadFlagsOf(enemies), ops);
        && statsSystem.health == old(statsSystem.health) - Repeated(n, ContactDamagePerSecond * dt)
        && (takingDamage <==> n > 0)
      ensures statsSystem.maxHealth == old(statsSystem.maxHealth)
    {
      ghost var P, D := PositionsOf(enemies), DeadFlagsOf(enemies);
      ghost var hurt := ContactDamagePerSecond * dt;
      takingDamage := false;
      var j := 0;
      while j < |enemies|
        invariant 0 <= j <= |enemies|
        invariant var n := Touching(player.position, P[..j], D[..j], ops);
          && statsSystem.health == old(statsSystem.health) - Repeated(n, hurt)
          && (takingDamage <==> n > 0)
        invariant statsSystem.maxHealth == old(statsSystem.maxHealth)
      {
        assert P[..j + 1][..j] == P[..j] && D[..j + 1][..j] == D[..j];
        var enemy := enemies[j];
        if !enemy.isDead {
          var dist := Distance(player.position, enemy.position, ops);
          if dist < ContactDistance {
            statsSystem.health := statsSystem.health - ContactDamagePerSecond * dt;
            takingDamage := true;
          }
        }
        j := j + 1;
      }
      assert P[..j] == P && D[..j] == D;
      assert PositionsOf(enemies) == P && DeadFlagsOf(enemies) == D;
    }

    /** A dead player in a running game pauses it and gets the game-over
      * screen; a paused game (a level-up on the same frame) does not. */
    method CheckDeath() returns (outcome: Outcome)
      modifies this
      ensures var dies := statsSystem.IsDead() && !old(isPaused);
        && isPaused == (old(isPaused) || dies)
        && outcome == if dies then Over(enemiesKilled, timeSystem.FormattedTime(), playerLevel, collectedUpgrades) else Running
      ensures Parts() == old(Parts()) && Xp() == old(Xp()) && Timers() == old(Timers()) && Stats() == old(Stats())
      ensures enemies == old(enemies) && snowballs == old(snowballs) && xpOrbs == old(xpOrbs) && enemiesKilled == old(enemiesKilled)
      ensures inMenu == old(inMenu) && collectedUpgrades == old(collectedUpgrades) && pendingChoices == old(pendingChoices)
    {
      outcome := Running;
      if statsSystem.IsDead() && !isPaused {
        isPaused := true;
        outcome := Over(enemiesKilled, timeSystem.FormattedTime(), playerLevel, collectedUpgrades);
      }
    }

    /** `enemies.forEach(update)`: the enemies move one after another, each
      * seeing where the ones before it already went. */
    method MoveEnemies(dt: real, ops: Ops)
      requires Distinct(enemies)
      modifies enemies
      ensures PositionsOf(enemies)
        == MoveFrom(old(PositionsOf(enemies)), old(DeadFlagsOf(enemies)), old(SpeedsOf(enemies)), player.position, dt, ops, 0)
      ensures DeadFlagsOf(enemies) == old(DeadFlagsOf(enemies)) && SpeedsOf(enemies) == old(SpeedsOf(enemies))
      ensures HealthsOf(enemies) == old(HealthsOf(enemies))
    {
      ghost var D, S, H := DeadFlagsOf(enemies), SpeedsOf(enemies), HealthsOf(enemies);
      ghost var target := MoveFrom(PositionsOf(enemies), D, S, player.position, dt, ops, 0);
      var j := 0;
      while j < |enemies|
        invariant 0 <= j <= |enemies|
        invariant DeadFlagsOf(enemies) == D && SpeedsOf(enemies) == S && HealthsOf(enemies) == H
        invariant MoveFrom(PositionsOf(enemies), D, S, player.position, dt, ops, j) == target
      {
        MoveOne(j, dt, ops);
        j := j + 1;
      }
    }

    /** The enemy at `j` takes its step, pushed by the others where they
      * stand now; no other enemy moves. */
    method MoveOne(j: int, dt: real, ops: Ops)
      requires Distinct(enemies) && 0 <= j < |enemies|
      modifies enemies[j]
      ensures var P, D, S := old(PositionsOf(enemies)), old(DeadFlagsOf(enemies)), old(SpeedsOf(enemies));
        PositionsOf(enemies) == P[j := Enemies.Chase(P[j], player.position, Enemies.Resolve(AccumulateAt(j, P[j], P, D, ops)), S[j], dt, ops)]
      ensures DeadFlagsOf(enemies) == old(DeadFlagsOf(enemies)) && SpeedsOf(enemies) == old(SpeedsOf(enemies))
      ensures HealthsOf(enemies) == old(HealthsOf(enemies))
    {
      var enemy := enemies[j];
      ghost var P, D := PositionsOf(enemies), DeadFlagsOf(enemies);
      DistinctFrom(enemies, j);
      AccumulateAtMatches(enemy, j, enemy.position, enemies, P, D, ops);
      ghost var moved := Enemies.Chase(P[j], player.position, Enemies.Resolve(AccumulateAt(j, P[j], P, D, ops)), enemy.speed, dt, ops);
      enemy.Update(dt, player.position, enemies, ops);
      assert enemy.position == moved;
      assert forall k :: 0 <= k < |enemies| ==> PositionsOf(enemies)[k] == P[j := moved][k];
      assert PositionsOf(enemies) == P[j := moved];
    }

    /** The upgrade screen's choice: the offer's effect is applied to the
      * game's values, its name is recorded, the screen closes and the game
      * runs again. */
    method ChooseUpgrade(offer: Upgrades.Offer)
      modifies this`collectedUpgrades, this`pendingChoices, this`isPaused
      modifies this`fireRate, player`speed, statsSystem`health, statsSystem`maxHealth
      modifies this`projectileCount, this`projectileDamage, this`projectileRange, this`xpPickupRange
      modifies this`hasIceAura, this`iceAuraRadius, this`iceAuraDamage
      modifies this`hasAutoSlash, this`slashDamage, this`slashCooldown
      ensures Stats() == Upgrades.Apply(offer.effect, old(Stats()))
      ensures collectedUpgrades == old(collectedUpgrades) + [offer.name]
      ensures !isPaused && pendingChoices == []
      ensures old(Valid()) ==> Valid()
    {
      SetStats(Upgrades.Apply(offer.effect, Stats()));
      collectedUpgrades := collectedUpgrades + [offer.name];
      pendingChoices := [];
      isPaused := false;
    }

    /** Writes the values an upgrade acts on back to their fields. */
    method SetStats(g: Upgrades.Stats)
      modifies this`fireRate, player`speed, statsSystem`health, statsSystem`maxHealth
      modifies this`projectileCount, this`projectileDamage, this`projectileRange, this`xpPickupRange
      modifies this`hasIceAura, this`iceAuraRadius, this`iceAuraDamage
      modifies this`hasAutoSlash, this`slashDamage, this`slashCooldown
      ensures Stats() == g
    {
      SetWeapon(g);
      SetBody(g);
      SetSkills(g);
    }

    /** The auto-fire values of `g`. */
    method SetWeapon(g: Upgrades.Stats)
      modifies this`fireRate, this`projectileCount, this`projectileDamage, this`projectileRange
      ensures fireRate == g.fireRate && projectileCount == g.projectileCount
      ensures projectileDamage == g.projectileDamage && projectileRange == g.projectileRange
    {
      fireRate, projectileCount, projectileDamage, projectileRange := g.fireRate, g.projectileCount, g.projectileDamage, g.projectileRange;
    }

    /** The player's speed, health and pickup range of `g`. */
    method SetBody(g: Upgrades.Stats)
      modifies player`speed, statsSystem`health, statsSystem`maxHealth, this`xpPickupRange
      ensures player.speed == g.moveSpeed && statsSystem.health == g.health && statsSystem.maxHealth == g.maxHealth
      ensures xpPickupRange == g.xpPickupRange
    {
      player.speed := g.moveSpeed;
      statsSystem.health, statsSystem.maxHealth := g.health, g.maxHealth;
      xpPickupRange := g.xpPickupRange;
    }

    /** The ice aura and auto-slash values of `g`. */
    method SetSkills(g: Upgrades.Stats)
      modifies this`hasIceAura, this`iceAuraRadius, this`iceAuraDamage
      modifies this`hasAutoSlash, this`slashDamage, this`slashCooldown
      ensures hasIceAura == g.hasIceAura && iceAuraRadius == g.iceAuraRadius && iceAuraDamage == g.iceAuraDamage
      ensures hasAutoSlash == g.hasAutoSlash && slashDamage == g.slashDamage && slashCooldown == g.slashCooldown
    {
      hasIceAura, iceAuraRadius, iceAuraDamage := g.hasIceAura, g.iceAuraRadius, g.iceAuraDamage;
      hasAutoSlash, slashDamage, slashCooldown := g.hasAutoSlash, g.slashDamage, g.slashCooldown;
    }

    /** Mouse look: with the pointer locked, the player turns by the mouse's
      * horizontal movement `turn` (0.002 radians per pixel). */
    method MouseLook(turn: real)
      modifies player
      ensures player.yaw == if input.isLocked then old(player.yaw) - turn * MouseTurnRate else old(player.yaw)
      ensures player.State() == old(player.State()) && player.speed == old(player.speed)
    {
      if input.isLocked {
        player.yaw := player.yaw - turn * MouseTurnRate;
      }
    }

    /** Mouse look as the frame orders it: the movement is read after the
      * frame's input reset, so it is always zero and the player never
      * turns, however the mouse moved. */
    method MouseLookAfterReset()
      modifies input, player
      ensures player.yaw == old(player.yaw)
      ensures player.State() == old(player.State()) && player.speed == old(player.speed)
    {
      input.Update();
      MouseLook(input.movementX);
    }

    /** The ice aura and then the auto-slash, as the rest of the frame sees
      * them: enemies only leave the list, and each kill is counted and
      * drops one orb at the end of the orb list. */
    method Melee(dt: real, ops: Ops)
      requires Valid()
      modifies this, enemies
      ensures Valid() && Parts() == old(Parts()) && player.position == old(player.position)
      ensures Xp() == old(Xp()) && Session() == old(Session()) && Stats() == old(Stats()) && snowballs == old(snowballs)
      ensures enemiesKilled >= old(enemiesKilled)
      ensures |xpOrbs| == |old(xpOrbs)| + (enemiesKilled - old(enemiesKilled)) && xpOrbs[..|old(xpOrbs)|] == old(xpOrbs)
      ensures forall k :: 0 <= k < |enemies| ==> enemies[k] in old(enemies)
    {
      ghost var orbs0 := xpOrbs;
      IceAura(dt, ops);
      ghost var orbs1 := xpOrbs;
      var swung := SlashTimers(dt, ops);
      PrefixTrans(orbs0, orbs1, xpOrbs);
    }

    /** The fighting part of a running frame, in the game's order: the ice
      * aura, the auto-slash, the clock and the waves, auto-fire, and the
      * snowballs.  Every kill drops one orb at the end of the orb list. */
    method Fight(dt: real, angle1: real, angle2: real, ops: Ops)
      requires Valid()
      modifies this, timeSystem, waveManager, enemies, snowballs
      ensures Valid() && Parts() == old(Parts()) && player.position == old(player.position)
      ensures timeSystem.totalTime == old(timeSystem.totalTime) + dt
      ensures Xp() == old(Xp()) && Session() == old(Session()) && Stats() == old(Stats())
      ensures enemiesKilled >= old(enemiesKilled)
      ensures |xpOrbs| == |old(xpOrbs)| + (enemiesKilled - old(enemiesKilled)) && xpOrbs[..|old(xpOrbs)|] == old(xpOrbs)
      ensures forall k :: 0 <= k < |enemies| ==> enemies[k] in old(enemies) || fresh(enemies[k])
      ensures forall k :: 0 <= k < |snowballs| ==> snowballs[k] in old(snowballs) || fresh(snowballs[k])
    {
      Melee(dt, ops);
      AdvanceSystems(dt, angle1, angle2, ops);
      Shoot(dt, ops);
    }

    /** Auto-fire followed by the snowball pass. */
    method Shoot(dt: real, ops: Ops)
      requires Valid()
      modifies this, enemies, snowballs
      ensures Valid() && Parts() == old(Parts()) && player.position == old(player.position)
      ensures Xp() == old(Xp()) && Session() == old(Session()) && Stats() == old(Stats())
      ensures enemiesKilled >= old(enemiesKilled)
      ensures |xpOrbs| == |old(xpOrbs)| + (enemiesKilled - old(enemiesKilled)) && xpOrbs[..|old(xpOrbs)|] == old(xpOrbs)
      ensures forall k :: 0 <= k < |enemies| ==> enemies[k] in old(enemies)
      ensures forall k :: 0 <= k < |snowballs| ==> snowballs[k] in old(snowballs) || fresh(snowballs[k])
    {
      var target := AutoFire(dt, ops);
      ghost var aimed := snowballs;
      forall k | 0 <= k < |aimed|
        ensures aimed[k] in old(snowballs) || fresh(aimed[k])
      {
        if k < |old(snowballs)| {
          assert aimed[k] == old(snowballs)[k];
        }
      }
      ProjectilePass(dt, ops);
      forall k | 0 <= k < |snowballs|
        ensures snowballs[k] in old(snowballs) || fresh(snowballs[k])
      {
        assert snowballs[k] in snowballs;
        var i :| 0 <= i < |aimed| && aimed[i] == snowballs[k];
      }
    }

    /** One frame of `animate`, given the clock's delta `dt`, the direction
      * of the held movement keys, the two spawn angles, the orbs' bobbing
      * sine and the draws for a level-up's offers.  In the menu or while
      * paused nothing changes.  Otherwise the frame fights, collects orbs,
      * takes contact damage and checks for death; a death ends the frame
      * with the game-over screen, and otherwise the player and then the
      * enemies move and the mouse turns the player.  `settled` holds the
      * enemies' positions just before they move, which the enemies' new
      * positions are stated from. */
    method Tick(dt: real, moveDir: Vec3, angle1: real, angle2: real, bobSine: real,
                perm: seq<nat>, rolls: seq<real>, ops: Ops) returns (outcome: Outcome, ghost settled: seq<Vec3>)
      requires Valid() && OfferDrawable(perm, rolls)
      modifies this, input, player, timeSystem, statsSystem, waveManager, enemies, snowballs
      ensures Valid() && Parts() == old(Parts())
      ensures old(inMenu) || old(isPaused) ==>
        && outcome == Running
        && unchanged(this, input, player, timeSystem, statsSystem, waveManager)
        && (forall e :: e in old(enemies) ==> unchanged(e))
        && (forall b :: b in old(snowballs) ==> unchanged(b))
      ensures !old(inMenu) && !old(isPaused) ==>
        && !inMenu && collectedUpgrades == old(collectedUpgrades)
        && timeSystem.totalTime == old(timeSystem.totalTime) + dt
        && enemiesKilled >= old(enemiesKilled)
        && Progression.TotalXp(Xp()) >= Progression.TotalXp(old(Xp()))
        && Stats() == old(Stats()).(health := statsSystem.health)
        && (statsSystem.IsDead() ==> isPaused)
        && (outcome.Over? ==>
              && statsSystem.IsDead()
              && outcome == Over(enemiesKilled, timeSystem.FormattedTime(), playerLevel, collectedUpgrades)
              && player.State() == old(player.State()))
        && (outcome.Running? ==>
              && player.State() == Players.Step(old(player.State()), old(player.speed), dt, moveDir, old(input.IsDown("Space")))
              && player.yaw == (if old(input.isLocked) then old(player.yaw) - old(input.movementX) * MouseTurnRate else old(player.yaw))
              && |settled| == |enemies|
              && PositionsOf(enemies) == MoveFrom(settled, DeadFlagsOf(enemies), SpeedsOf(enemies), player.position, dt, ops, 0))
    {
      outcome, settled := Running, PositionsOf(enemies);
      if inMenu || isPaused {
        return;
      }
      outcome, settled := RunFrame(dt, moveDir, angle1, angle2, bobSine, perm, rolls, ops);
    }

    /** A frame of a running game; `settled` is as for `Tick`. */
    method RunFrame(dt: real, moveDir: Vec3, angle1: real, angle2: real, bobSine: real,
                    perm: seq<nat>, rolls: seq<real>, ops: Ops) returns (outcome: Outcome, ghost settled: seq<Vec3>)
      requires Valid() && OfferDrawable(perm, rolls) && !inMenu && !isPaused
      modifies this, input, player, timeSystem, statsSystem, waveManager, enemies, snowballs
      ensures Valid() && Parts() == old(Parts())
      ensures !inMenu && collectedUpgrades == old(collectedUpgrades)
      ensures timeSystem.totalTime == old(timeSystem.totalTime) + dt
      ensures enemiesKilled >= old(enemiesKilled)
      ensures Progression.TotalXp(Xp()) >= Progression.TotalXp(old(Xp()))
      ensures Stats() == old(Stats()).(health := statsSystem.health)
      ensures statsSystem.IsDead() ==> isPaused
      ensures outcome.Over? ==>
        && statsSystem.IsDead()
        && outcome == Over(enemiesKilled, timeSystem.FormattedTime(), playerLevel, collectedUpgrades)
        && player.State() == old(player.State())
      ensures outcome.Running? ==>
        && player.State() == Players.Step(old(player.State()), old(player.speed), dt, moveDir, old(input.IsDown("Space")))
        && player.yaw == (if old(input.isLocked) then old(player.yaw) - old(input.movementX) * MouseTurnRate else old(player.yaw))
        && |settled| == |enemies|
        && PositionsOf(enemies) == MoveFrom(settled, DeadFlagsOf(enemies), SpeedsOf(enemies), player.position, dt, ops, 0)
    {
      var turn := Prepare(dt, angle1, angle2, bobSine, perm, rolls, ops);
      outcome := Endure(dt, ops);
      settled := PositionsOf(enemies);
      if outcome.Over? {
        return;
      }
      Move(dt, moveDir, turn, ops);
    }

    /** The first half of a running frame: the mouse movement is read and
      * the input's one-frame values reset, then the fight and the orb pass.
      * The player is untouched. */
    method Prepare(dt: real, angle1: real, angle2: real, bobSine: real,
                   perm: seq<nat>, rolls: seq<real>, ops: Ops) returns (turn: real)
      requires Valid() && OfferDrawable(perm, rolls)
      modifies this, input, timeSystem, waveManager, enemies, snowballs
      ensures Valid() && Parts() == old(Parts())
      ensures turn == old(input.movementX)
      ensures input.keys == old(input.keys) && input.isLocked == old(input.isLocked)
      ensures inMenu == old(inMenu) && collectedUpgrades == old(collectedUpgrades)
      ensures timeSystem.totalTime == old(timeSystem.totalTime) + dt
      ensures enemiesKilled >= old(enemiesKilled)
      ensures Progression.TotalXp(Xp()) >= Progression.TotalXp(old(Xp()))
      ensures Stats() == old(Stats())
      ensures forall k :: 0 <= k < |enemies| ==> enemies[k] in old(enemies) || fresh(enemies[k])
    {
      turn := input.movementX;
      input.Update();
      Fight(dt, angle1, angle2, ops);
      Harvest(dt, bobSine, perm, rolls, ops);
    }

    /** The orb pass, seen from the frame: XP is never lost. */
    method Harvest(dt: real, bobSine: real, perm: seq<nat>, rolls: seq<real>, ops: Ops)
      requires Valid() && OfferDrawable(perm, rolls)
      modifies this
      ensures Valid() && Parts() == old(Parts())
      ensures Progression.TotalXp(Xp()) >= Progression.TotalXp(old(Xp()))
      ensures Timers() == old(Timers()) && Stats() == old(Stats())
      ensures enemies == old(enemies) && snowballs == old(snowballs) && enemiesKilled == old(enemiesKilled)
      ensures inMenu == old(inMenu) && collectedUpgrades == old(collectedUpgrades)
    {
      ghost var s, orbs, at := Xp(), xpOrbs, player.position;
      CollectOrbs(dt, bobSine, perm, rolls, ops);
      CollectAllCounts(s, orbs, at, ops);
    }

    /** Contact damage, then the death check. */
    method Endure(dt: real, ops: Ops) returns (outcome: Outcome)
      requires Valid()
      modifies this, statsSystem
      ensures Valid() && Parts() == old(Parts()) && Xp() == old(Xp())
      ensures Stats() == old(Stats()).(health := statsSystem.health)
      ensures statsSystem.IsDead() ==> isPaused
      ensures outcome.Over? ==>
        statsSystem.IsDead() && outcome == Over(enemiesKilled, timeSystem.FormattedTime(), playerLevel, collectedUpgrades)
      ensures enemies == old(enemies) && snowballs == old(snowballs) && enemiesKilled == old(enemiesKilled)
      ensures inMenu == old(inMenu) && collectedUpgrades == old(collectedUpgrades)
    {
      var takingDamage := ContactDamage(dt, ops);
      outcome := CheckDeath();
    }

    /** The player's movement step, then every enemy's move toward the
      * moved player. */
    method Advance(dt: real, moveDir: Vec3, ops: Ops)
      requires Distinct(enemies)
      modifies player, enemies
      ensures player.State() == Players.Step(old(player.State()), old(player.speed), dt, moveDir, input.IsDown("Space"))
      ensures player.yaw == old(player.yaw) && player.speed == old(player.speed)
      ensures PositionsOf(enemies)
        == MoveFrom(old(PositionsOf(enemies)), old(DeadFlagsOf(enemies)), old(SpeedsOf(enemies)), player.position, dt, ops, 0)
      ensures DeadFlagsOf(enemies) == old(DeadFlagsOf(enemies)) && SpeedsOf(enemies) == old(SpeedsOf(enemies))
      ensures HealthsOf(enemies) == old(HealthsOf(enemies))
    {
      ghost var positions, dead, speeds, healths := PositionsOf(enemies), DeadFlagsOf(enemies), SpeedsOf(enemies), HealthsOf(enemies);
      player.Update(dt, moveDir, input);
      assert PositionsOf(enemies) == positions && DeadFlagsOf(enemies) == dead;
      assert SpeedsOf(enemies) == speeds && HealthsOf(enemies) == healths;
      MoveEnemies(dt, ops);
    }

    /** The player moves, then the enemies, then the mouse turns the player
      * by `turn`. */
    method Move(dt: real, moveDir: Vec3, turn: real, ops: Ops)
      requires Distinct(enemies)
      modifies player, enemies
      ensures player.State() == Players.Step(old(player.State()), old(player.speed), dt, moveDir, input.IsDown("Space"))
      ensures player.yaw == if input.isLocked then old(player.yaw) - turn * MouseTurnRate else old(player.yaw)
      ensures player.speed == old(player.speed)
      ensures PositionsOf(enemies)
        == MoveFrom(old(PositionsOf(enemies)), old(DeadFlagsOf(enemies)), old(SpeedsOf(enemies)), player.position, dt, ops, 0)
      ensures DeadFlagsOf(enemies) == old(DeadFlagsOf(enemies)) && SpeedsOf(enemies) == old(SpeedsOf(enemies))
      ensures HealthsOf(enemies) == old(HealthsOf(enemies))
    {
      Advance(dt, moveDir, ops);
      ghost var positions, dead, speeds, healths := PositionsOf(enemies), DeadFlagsOf(enemies), SpeedsOf(enemies), HealthsOf(enemies);
      MouseLook(turn);
      assert PositionsOf(enemies) == positions && DeadFlagsOf(enemies) == dead;
      assert SpeedsOf(enemies) == speeds && HealthsOf(enemies) == healths;
    }
  }
}
