# Christmas Survival — a Dafny model of the game's simulation core

The game is a browser survival shooter. The player walks a snowy field. Snowman enemies spawn in waves on a ring around the player and chase them. The player's snowballs fire automatically at the nearest enemy. Each kill drops an XP orb, and collecting orbs levels the player up. Every level-up pauses the game and offers three upgrades, drawn from a catalogue and bound to a random rarity. The run ends when health reaches zero. The game-over screen then shows the kills, the survival time and the upgrades picked.

This project models the per-frame simulation that drives all of that, together with the small systems and entities around it:

- **`Game`** (`Game.dfy`): the `Game` class holds the enemy, snowball and XP-orb lists and the combat and progression fields. `Game.Game.Tick` runs one frame of `animate` in the source's order, with one correction: the mouse movement is read before the input reset clears it (see Findings):
  - the ice aura, then the auto-slash;
  - the clock, the health record and the wave manager (twice);
  - auto-fire, then the projectile loop and the orb loop;
  - contact damage and the death check;
  - then the player moves, the enemies move, and the mouse turns the player.

  `KillEnemy` guards against a second kill, counts the kill, drops an orb and splices the enemy out by `indexOf`. The upgrade screen's choice is `ChooseUpgrade`.
- **`Combat`** (`Combat.dfy`): the frame's rules stated on plain values. These include list removal and the multishot fan. They also include the target choice and the *fates* of one damage pass. In a fate list, an enemy right after a killed one is skipped, because the kill splices the list being walked. The XP-orb sweep and the enemies moving one after another are here too. The `Game` methods are proved against these functions.
- **`Progression`**: XP, levels and the `floor(t * 1.2)` threshold, with the XP-conservation invariant.
- **`Upgrades`**: the upgrade catalogue, the unlock conditions and the filter/shuffle/slice of `getRandomUpgrades`. It also has the rarity bands and multipliers and an interpreter `Apply` for every upgrade's effect on the stats the upgrades touch.
- **`Waves`**: the level-scaled spawn interval, the enemy cap and the spawn ring.
- **`Players`**: the player's walk and dash state machine.
- **`Enemies`**: separation and chase.
- **`Snowballs`, `EnemyProjectiles`, `Flights`**: projectile lifetimes, gravity and the ground kill.
- **`Inputs`**: the keyboard and mouse handlers and the per-frame reset.
- **`Time`, `Stats`, `Storage`**: the survival clock, the health record, the best-time store and the `mm:ss` formatter.
- **`Hud`, `Loading`, `GameOver`**: the pure computations inside the HUD, loading screen and game-over screen.

Random draws, the clock's delta and the real-number operations three.js computes are all parameters. The random draws are the shuffle order, the rarity rolls and the spawn angles. The real-number operations are vector length, cosine and sine. They are passed in an `Ops` record whose validity predicate `Geometry.ValidOps` states the only facts the proofs use.

The code has no boss state machine, no enemy mutations, no difficulty scalar, no XP multiplier, no present pickups and no enemy fire, so the model has none either. Spawning follows the code: one enemy every `max(0.5, 2.0 - 0.1 * (level - 1))` seconds, up to `10 + 5 * level` enemies.

## Model

| member | source | states |
|---|---|---|
| Storage.LocalStore.constructor | src/systems/StorageSystem.ts:1-2 | the store starts with the given items |
| Storage.LocalStore.GetBestTime | src/systems/StorageSystem.ts:4-7 | 0 when nothing is stored under the best-time key, otherwise the stored value |
| Storage.LocalStore.SaveBestTime | src/systems/StorageSystem.ts:9-16 | writes exactly when `time` beats the current best and reports whether it wrote; the stored best never decreases, and after a write it is `time` |
| Storage.DigitChar | src/systems/StorageSystem.ts:21 | the character is a decimal digit that reads back as `d` |
| Storage.NatToString | src/systems/StorageSystem.ts:21 | a non-empty digit string; one digit below 10, two digits from 10 to 99 |
| Storage.ParseNatToString | src/systems/StorageSystem.ts:21 | reading the printed number back gives the number |
| Storage.ParseNatLeadingZero | src/systems/StorageSystem.ts:21 | a padding zero does not change the value read back |
| Storage.IntToString | src/systems/StorageSystem.ts:21 | a non-negative number prints its digits; a negative one prints '-' and then the digits of its magnitude |
| Storage.PadStart2 | src/systems/StorageSystem.ts:21 | strings of length 2 or more are unchanged; shorter ones end with the original and are filled to length 2 with '0' |
| Storage.Trunc | src/systems/StorageSystem.ts:20 | rounding toward zero: the floor for non-negative values, minus the floor of the magnitude for negative ones |
| Storage.JsRem | src/systems/StorageSystem.ts:20 | JavaScript's `%` on reals, the remainder of truncating division with the sign of the dividend; `Storage.FieldsOfNonNegative` states its range for `t >= 0` |
| Storage.Minutes | src/systems/StorageSystem.ts:19 | `Math.floor(t / 60)`; `Storage.FieldsOfNonNegative` states it is the whole minutes |
| Storage.Seconds | src/systems/StorageSystem.ts:20 | `Math.floor(t % 60)`; `Storage.FieldsOfNonNegative` states it lies in 0..59 for `t >= 0` |
| Storage.FormatTime | src/systems/StorageSystem.ts:18-22 | `formatTime`; `Storage.FormatTimeShape` and `Storage.FormatTimeReadBack` state its shape and that it reads back as the whole seconds |
| Storage.FieldsOfNonNegative | src/systems/StorageSystem.ts:19-20 | for `t >= 0` the minutes are non-negative, the seconds lie in 0..59, and `60 * minutes + seconds == floor(t)` |
| Storage.FormatTimeShape | src/systems/StorageSystem.ts:18-22 | below 6000 s the text has exactly five characters: two digits, ':' at index 2, two digits |
| Storage.FormatTimeReadBack | src/systems/StorageSystem.ts:18-22 | for `t >= 0` the text is `minutes:ss`, and reading both fields back gives `floor(t)` whole seconds; the minutes field is never cut short |
| Storage.PaddedValue | src/systems/StorageSystem.ts:21 | padding a printed number to two digits keeps its value |
| Time.TimeSystem.constructor | src/systems/TimeSystem.ts:2 | the clock starts at 0 |
| Time.TimeSystem.Update | src/systems/TimeSystem.ts:4-6 | adds exactly `dt`; the clock never goes back for `dt >= 0` |
| Time.TimeSystem.IsNight | src/systems/TimeSystem.ts:8-10 | it is never night |
| Time.TimeSystem.FormattedTime | src/systems/TimeSystem.ts:12-16 | the same text as the shared `formatTime`, which reads back as the whole seconds survived |
| Time.FormatClock | src/systems/TimeSystem.ts:12-16 | the getter's own copy of the formatting code agrees with `formatTime` on every input |
| Stats.StatsSystem.constructor | src/systems/StatsSystem.ts:2-3 | health and maximum health start at 100, and a new record is not dead |
| Stats.StatsSystem.Update | src/systems/StatsSystem.ts:7-10 | changes no field |
| Stats.StatsSystem.IsDead | src/systems/StatsSystem.ts:12-14 | dead exactly when health is at most 0, so zero and negative health both count as dead |
| Inputs.Input.constructor | src/core/Input.ts:2-10 | no key down, no button, no lock, all movement and pointer values 0 |
| Inputs.Input.IsDown | src/core/Input.ts:68-70 | down exactly when the code was pressed and not released since; a code never seen is up |
| Inputs.Input.OnKeyDown | src/core/Input.ts:34-36 | the code is down afterwards, every other code reads as before, and no other field changes |
| Inputs.Input.OnKeyUp | src/core/Input.ts:38-40 | the code is up afterwards, every other code reads as before, and no other field changes |
| Inputs.Input.OnMouseDown | src/core/Input.ts:42-45 | sets both the held and the pressed-this-frame flag and nothing else |
| Inputs.Input.OnMouseUp | src/core/Input.ts:47-49 | clears only the held flag, so a press within the frame is still reported |
| Inputs.Input.OnMouseMove | src/core/Input.ts:51-60 | while locked, records the movement and keeps the pointer position; otherwise records the pointer position in device coordinates and keeps the movement |
| Inputs.Input.OnPointerLockChange | src/core/Input.ts:19-21 | the lock flag becomes the new lock state and nothing else changes |
| Inputs.Input.Update | src/core/Input.ts:62-66 | clears the pressed flag and both movements; keys, held button, lock and pointer position are kept |
| Hud.BarFill | src/ui/HUD.ts:33-34 | a percentage in [0, 100], or not-a-number exactly when 0 is divided by 0; 0 when the part is at most 0, 100 when it reaches the whole, otherwise `part / whole * 100` |
| Hud.Ceil | src/ui/HUD.ts:38 | the least integer not below `x` |
| Hud.BarsFor | src/ui/HUD.ts:33-38 | the health and XP fills are `BarFill` of their values, and the label is `health` rounded up |
| Loading.LoadPercent | src/ui/LoadingUI.ts:108 | `floor(progress * 100)`, within 0..100 for progress in [0, 1] |
| Loading.Split | src/ui/LoadingUI.ts:113 | at least one piece, none of which contains the separator |
| Loading.SplitJoin | src/ui/LoadingUI.ts:113 | joining the pieces with the separator gives back the string |
| Loading.SplitFirst | src/ui/LoadingUI.ts:113 | the first piece is what precedes the first separator |
| Loading.SplitLast | src/ui/LoadingUI.ts:113 | the last piece is what follows the last separator |
| Loading.SplitWithout | src/ui/LoadingUI.ts:113 | a string without the separator is one piece |
| Loading.AssetName | src/ui/LoadingUI.ts:113 | a non-empty item gives a non-empty name, and the name is the whole item or free of '.' |
| Loading.StemStart | src/ui/LoadingUI.ts:113 | a stem can only start at the start of the last path segment |
| Loading.AssetNameSpec | src/ui/LoadingUI.ts:113 | when the last path segment is empty or starts with '.', the whole item is shown; otherwise the name is that segment's non-empty part before its first '.': it starts the last segment, holds no '/' or '.', and ends at a '.' or at the end |
| Loading.PlainNameUnchanged | src/ui/LoadingUI.ts:113 | an item with neither '/' nor '.' is shown unchanged |
| Loading.StatusText | src/ui/LoadingUI.ts:114 | exactly "Loading " + name + "..." |
| Waves.SpawnInterval | src/systems/WaveManager.ts:19-20 | never below 0.5 s, and at most 2 s from level 1 on |
| Waves.MaxEnemies | src/systems/WaveManager.ts:23 | the cap is at least 15 from level 1 on, and at most 10 below level 1 |
| Waves.SpawnIntervalMonotone | src/systems/WaveManager.ts:19-20 | spawning never slows down as the level rises, and from level 16 on it stays at the 0.5 s floor |
| Waves.SpawnOnRing | src/systems/WaveManager.ts:33-37 | every spawn is on the ground, exactly 20 units from the player on the horizontal plane |
| Waves.SpawnPosition | src/systems/WaveManager.ts:33-37 | every spawn is on the ground; `Waves.SpawnOnRing` places it on the ring |
| Waves.WaveManager.constructor | src/systems/WaveManager.ts:6 | the spawn timer starts at 0 |
| Waves.WaveManager.Update | src/systems/WaveManager.ts:14-29 | spawns exactly when the timer plus `dt` reaches the level's interval and fewer than `10 + 5 * level` enemies are listed; then the timer is 0 and one new enemy is appended at the spawn position; otherwise the list is unchanged and the timer is old + `dt` |
| Waves.WaveManager.SpawnEnemy | src/systems/WaveManager.ts:31-40 | appends exactly one fresh live enemy at the spawn position and keeps the existing entries |
| Players.Step | src/entities/Player.ts:98-183 | the cooldown runs down only while positive; a dash moves along its direction at four times the speed and ends when its time is used up; a dash starts only when not dashing, with a direction held, Space down and the cooldown over, and sets 0.2 s and 1 s; otherwise the player walks; with no direction held the player stays put |
| Players.StepKeepsDash | src/entities/Player.ts:104-176 | every update keeps a dash consistent; the player moves `speed * dt` when walking, four times that when dashing, and not at all on the update a dash starts |
| Players.CooldownRunsDown | src/entities/Player.ts:104-107 | without a new dash, a positive cooldown falls by exactly the elapsed time until it is used up |
| Players.DashesOneSecondApart | src/entities/Player.ts:163-167 | two dash starts are at least one second of game time apart |
| Players.Player.constructor | src/entities/Player.ts:12-27 | standing at height 1 at the origin, speed 5, not dashing, both timers 0 |
| Players.Player.Update | src/entities/Player.ts:98-183 | the new movement state is `Step` of the old one with Space read from the input; speed and facing are unchanged |
| Players.Player.Glide | src/entities/Player.ts:110-118 | the dashing branch: moves along the dash direction by `speed * 4 * dt`; the dash time falls by `dt`; dashing goes on exactly while time is left |
| Players.Player.Walk | src/entities/Player.ts:137-176 | the walking branch: either a dash starts with the held direction, or the player walks `speed * dt` along it |
| Enemies.Enemy.constructor | src/entities/Enemy.ts:5-11 | health 3, speed 2, alive, at the given position |
| Enemies.Enemy.Update | src/entities/Enemy.ts:39-78 | the new position is the chase step from the old one with the separation of the listed enemies; health, death flag and speed are unchanged |
| Enemies.Push | src/entities/Enemy.ts:53-55 | the push from a neighbour at offset `v` is `v` divided by its squared length, so it weakens with distance; a zero offset gives no push |
| Enemies.Resolve | src/entities/Enemy.ts:61-64 | with pushes, the separation is their sum times 2 over their number; without pushes it is the (zero) sum |
| Enemies.Separate | src/entities/Enemy.ts:44-64 | with no live neighbour closer than one unit, the separation is zero |
| Enemies.Chase | src/entities/Enemy.ts:66-73 | an enemy moves only when the player is more than one unit away on the ground |
| Enemies.Accumulate | src/entities/Enemy.ts:48-59 | counts at most the number of others; with none counted the sum is zero |
| Enemies.CountsNeighbours | src/entities/Enemy.ts:48-58 | exactly the other live enemies closer than one unit are counted; the enemy itself and dead ones never are |
| Enemies.ChaseFacts | src/entities/Enemy.ts:66-73 | within one unit of the player on the ground the enemy stays put; otherwise it moves exactly `speed * dt` along a unit direction, or not at all when pull and push cancel; horizontal pushes keep it on the ground |
| Enemies.SeparationHorizontal | src/entities/Enemy.ts:44-64 | pushes between enemies at the same height are horizontal |
| Flights.Step | src/entities/Snowball.ts:19-31 | the horizontal velocity is kept; an object below the ground is dead; a live one has used exactly `dt` of its lifetime |
| Flights.LifetimeBound | src/entities/Snowball.ts:20-30 | a projectile still alive after a run has used exactly the elapsed time, so nothing flies longer than its lifetime |
| Flights.VelocityAfterRun | src/entities/Snowball.ts:22-24 | after a run the horizontal velocity is unchanged and the vertical velocity has fallen by gravity times the elapsed time |
| Snowballs.Snowball.constructor | src/entities/Snowball.ts:6-17 | at the given position, velocity 20 times the direction, lifetime 2 s |
| Snowballs.Snowball.Update | src/entities/Snowball.ts:19-31 | one flight step under gravity 9.8; reports alive exactly when lifetime is left; for `dt >= 0` the lifetime does not grow, or it is exactly 0 |
| EnemyProjectiles.EnemyProjectile.constructor | src/entities/EnemyProjectile.ts:6-20 | at the given position, velocity 10 times the direction, lifetime 3 s |
| EnemyProjectiles.EnemyProjectile.Update | src/entities/EnemyProjectile.ts:23-32 | one flight step with no gravity, so the velocity never changes; reports alive exactly when lifetime is left |
| Progression.NextThreshold | src/core/Game.ts:402 | `floor(t * 1.2)` computed exactly: never below `t`, at most `t + t / 5`, and strictly above `t` from 5 on |
| Progression.Threshold | src/core/Game.ts:72 | the threshold of every level is at least 100 |
| Progression.Gain | src/core/Game.ts:398-402 | one orb gains at most one level, and gains one exactly when the XP reaches the threshold |
| Progression.GainMany | src/core/Game.ts:397-402 | collecting `n` orbs raises the level by at most `n` and never lowers it |
| Progression.StartReachable | src/core/Game.ts:70-72 | the starting state (level 1, 0 XP, 100 to go) is reachable and holds no XP |
| Progression.ThresholdIncreases | src/core/Game.ts:402 | thresholds strictly increase from level to level |
| Progression.GainOrb | src/core/Game.ts:397-402 | a 10-XP orb keeps `0 <= xp < threshold`, adds exactly 10 to the total ever gained, carries the surplus over on a level-up and raises the threshold |
| Progression.GainManyConserves | src/core/Game.ts:397-402 | over any number of orbs the state stays reachable, the level never falls, and no XP is lost |
| GameOver.TotalFrame | src/ui/GameOverUI.ts:31-34 | counts that agree on the listed names give the same total |
| GameOver.TotalBump | src/ui/GameOverUI.ts:33 | one more pick of a listed name raises the total by one |
| GameOver.FirstPick | src/ui/GameOverUI.ts:31-34 | the index of a name's first pick: it holds that name and no earlier pick does |
| GameOver.FirstPicksOrdered | src/ui/GameOverUI.ts:31-34 | the distinct names listed by `FirstPicks` are ordered by the index of their first pick |
| GameOver.CountUpgrades | src/ui/GameOverUI.ts:31-34 | the keys are exactly the picked names, each count is the number of picks, the insertion order is `FirstPicks` (each key once, by first pick), and the counts add up to the number of picks |
| GameOver.Summarize | src/ui/GameOverUI.ts:31-40 | the fallback exactly when nothing was picked; otherwise one entry per distinct picked name with its count, covering every picked name, listed in first-pick order (`FirstPicks`), with counts adding up to the number of picks |
| GameOver.EntriesTotalIsTotal | src/ui/GameOverUI.ts:36-39 | the entries shown carry the same total as the counts |
| Geometry.NormalizeFacts | src/core/Game.ts:326 | a non-zero vector normalises to a unit vector pointing the same way; zero stays zero; a horizontal vector stays horizontal |
| Geometry.RotateYFacts | src/core/Game.ts:340 | turning about the vertical axis keeps the height and the length, and the zero angle changes nothing |
| Upgrades.RarityBands | src/systems/UpgradeSystem.ts:147-152 | each rarity is rolled on exactly one band as wide as its weight (Legendary [0,3), Epic [3,13), Rare [13,33), Common [33,100)), and the bands tile [0, 100) |
| Upgrades.Weight | src/systems/UpgradeSystem.ts:13-18 | every rarity has a chance strictly between 0 and 100 percent |
| Upgrades.Multiplier | src/systems/UpgradeSystem.ts:20-25 | multipliers lie in [1, 2.5], and only Common leaves an effect unscaled |
| Upgrades.Color | src/systems/UpgradeSystem.ts:27-32 | each colour is a seven-character `#rrggbb` code |
| Upgrades.RollRarity | src/systems/UpgradeSystem.ts:148-152 | Legendary exactly below 3, Common exactly from 33 on |
| Upgrades.ExtraShots | src/systems/UpgradeSystem.ts:196 | Split Shot adds 3 snowballs exactly at Legendary, 2 exactly at Epic, and 1 otherwise |
| Upgrades.ApplyFrame | src/systems/UpgradeSystem.ts:168-243 | every effect leaves every field it does not name unchanged |
| Upgrades.ApplyClamps | src/systems/UpgradeSystem.ts:172 | the fire interval never drops below 0.05, the slash cooldown never below 0.2, and healing never lifts health above the maximum |
| Upgrades.Apply | src/systems/UpgradeSystem.ts:168-243 | only the matching unlock switches the ice aura or the auto-slash on, and nothing switches either off |
| Upgrades.TemplateOf | src/systems/UpgradeSystem.ts:35-127 | each catalogue entry carries its own id |
| Upgrades.FilterMembers | src/systems/UpgradeSystem.ts:130 | filtering keeps exactly the eligible ids |
| Upgrades.Filter | src/systems/UpgradeSystem.ts:130 | `filter` on the catalogue; `Upgrades.FilterMembers` states it keeps exactly the eligible ids |
| Upgrades.FilterDistinct | src/systems/UpgradeSystem.ts:130 | filtering a list without repeats gives one without repeats |
| Upgrades.Available | src/systems/UpgradeSystem.ts:130 | every eligible id, each once, and nothing else |
| Upgrades.CatalogComplete | src/systems/UpgradeSystem.ts:35-127 | the catalogue lists every upgrade once |
| Upgrades.BasicsAlwaysEligible | src/systems/UpgradeSystem.ts:36-83 | the eight unconditional upgrades are always eligible |
| Upgrades.AvailableSize | src/systems/UpgradeSystem.ts:130-132 | 10 upgrades are available without the ice aura and 11 with it, so three can always be offered |
| Upgrades.UnlockIds | src/systems/UpgradeSystem.ts:138 | the `_unlock` substring test picks out exactly the two unlock ids |
| Upgrades.DynamicEffect | src/systems/UpgradeSystem.ts:154-239 | every template's effect at any rarity has no negative amount and is never empty |
| Upgrades.Bind | src/systems/UpgradeSystem.ts:134-245 | an id containing `_unlock` is offered at Legendary with its template's own effect; any other id gets the rarity its roll falls on and that rarity's scaled effect; name and colour follow; only the ice-aura unlock unlocks the aura and only the slash unlock unlocks the slash |
| Upgrades.GatesRespected | src/systems/UpgradeSystem.ts:90-124 | each unlock is available exactly while its flag is off, and its follow-ups exactly while it is on |
| Upgrades.GetRandomUpgrades | src/systems/UpgradeSystem.ts:129-246 | `min(count, available)` offers, all eligible and pairwise distinct, in the shuffled order; unlocks come at Legendary with their own effect; every other offer has the rarity its roll falls on, with that rarity's colour and its scaled effect |
| Upgrades.OffersImprove | src/systems/UpgradeSystem.ts:168-243 | every offer the catalogue can produce, at any rarity, keeps the game's values in range and weakens nothing |
| Upgrades.BoostImproves | src/systems/UpgradeSystem.ts:168-239 | an effect without negative amounts keeps the values in range and weakens nothing |
| Upgrades.RarerIsStronger | src/systems/UpgradeSystem.ts:154-239 | a rarity with a larger multiplier never gives a weaker upgrade |
| Upgrades.DominatesNoWeaker | src/systems/UpgradeSystem.ts:168-239 | an effect of the same kind, by at least as much, leaves the player at least as strong |
| Upgrades.ScaledNoWeaker | src/systems/UpgradeSystem.ts:169-237 | for the percentage effects a larger percentage is at least as strong |
| Upgrades.FireRateNoWeaker | src/systems/UpgradeSystem.ts:172 | a larger fire-rate percentage gives a fire interval no longer |
| Upgrades.MoveSpeedNoWeaker | src/systems/UpgradeSystem.ts:177 | a larger speed percentage gives a speed no smaller |
| Upgrades.RangeNoWeaker | src/systems/UpgradeSystem.ts:208 | a larger range percentage gives a range no smaller |
| Upgrades.MagnetNoWeaker | src/systems/UpgradeSystem.ts:213 | a larger magnet percentage gives a pickup range no smaller |
| Upgrades.SlashNoWeaker | src/systems/UpgradeSystem.ts:235-238 | more slash damage and a larger cooldown cut give a slash no weaker |
| Combat.IndexOf | src/core/Game.ts:522 | the first position holding the element, or -1 exactly when it is absent |
| Combat.RemoveAt | src/core/Game.ts:524 | `splice(i, 1)` shortens the list by one |
| Combat.RemoveAtShifts | src/core/Game.ts:524 | the elements before `i` keep their places and the later ones move down by one |
| Combat.IndexOfDistinct | src/core/Game.ts:522 | in a list without repeats, the element at `i` is found at `i` |
| Combat.RemoveFirstDistinct | src/core/Game.ts:521-525 | removing from a list without repeats removes exactly that element, keeps the others in order, and leaves no repeats |
| Combat.RemoveFirst | src/core/Game.ts:521-525 | a missing element leaves the list as it is; a present one shortens it by one |
| Combat.FanSymmetric | src/core/Game.ts:337 | the `i`-th shot from either end has opposite offsets, and an odd fan's middle shot goes straight |
| Combat.FanOffset | src/core/Game.ts:337 | the offset is 0 exactly for the middle shot of an odd fan, negative exactly for shots before the middle |
| Combat.FanSumClosed | src/core/Game.ts:337 | the closed form of the sum of the first `m` fan offsets |
| Combat.FanSumZero | src/core/Game.ts:332-337 | the offsets of a whole fan add up to zero |
| Combat.NearestUnique | src/core/Game.ts:310-319 | there is only one first nearest target within range |
| Combat.Fates | src/core/Game.ts:226-232 | each visited enemy is struck exactly when it is alive and in reach, and killed exactly when struck and left with no health; the enemy right after a killed one is skipped |
| Combat.Survivors | src/core/Game.ts:521-525 | the entries not killed, in order, all from the original list |
| Combat.Kills | src/core/Game.ts:512 | at most one kill per entry |
| Combat.Drops | src/core/Game.ts:515 | one 10-XP orb per kill |
| Combat.SurvivorsCount | src/core/Game.ts:521-525 | survivors and kills make up the whole list |
| Combat.SurvivorsMembers | src/core/Game.ts:521-525 | in a list without repeats an entry survives exactly when it is not killed, and the survivors have no repeats |
| Combat.Reach | src/core/Game.ts:228-229 | an entry is in reach exactly when it is closer than the radius to the player |
| Combat.ExtendPrefix | src/core/Game.ts:226-232 | taking one more entry into the processed prefix adds its survivor, orb and kill |
| Combat.SkipAfterKill | src/core/Game.ts:226-232 | the entry after a kill is neither hurt nor killed, whatever its health and position |
| Combat.SkippedExactlyAfterKill | src/core/Game.ts:226-232 | an entry is passed over exactly when the one before it was killed |
| Combat.Walked | src/core/Game.ts:226-232 | the list being walked holds the survivors so far and the entries not yet reached |
| Combat.PassAtList | src/core/Game.ts:226-232 | the pass position describes the current list as the walked list |
| Combat.NextJ | src/core/Game.ts:226-232 | a step of the pass advances one or two original entries |
| Combat.PassStart | src/core/Game.ts:226 | the pass starts at the first entry on the whole list |
| Combat.PassEnd | src/core/Game.ts:226 | when the index runs off the list, every entry has been visited and the list holds exactly the survivors |
| Combat.FatesSkipsFollowKills | src/core/Game.ts:226-232 | in the fates of a pass, every skip follows a kill and every kill is followed by a skip |
| Combat.FatesStep | src/core/Game.ts:226-232 | the entries a visit passes over are skipped, and the next visited entry is not |
| Combat.SkipStep | src/core/Game.ts:226-232 | the same for any fate list in which skips follow kills |
| Combat.AnyStruckStep | src/core/Game.ts:244-249 | a step of the slash strikes something exactly when it strikes the visited entry |
| Combat.PassLookup | src/core/Game.ts:244 | the entry at the pass's index is the next original entry |
| Combat.SurvivorsExtend | src/core/Game.ts:521-525 | the survivors of one more entry |
| Combat.PassAdvanceKilled | src/core/Game.ts:523-525 | a killed entry leaves the list, and the next one is passed over but stays |
| Combat.PassAdvanceKept | src/core/Game.ts:226-232 | any other entry stays in place and the index moves on |
| Combat.PassTallies | src/core/Game.ts:512-515 | a step adds one orb and one kill exactly for a killed entry |
| Combat.Drop | src/entities/XPOrb.ts:7-17 | the orb lies above the killed enemy at height 0.5 and is worth 10 XP |
| Combat.AttractFacts | src/core/Game.ts:388-393 | an orb within the pickup range keeps its value and moves exactly `10 * dt` straight at the player; one out of range does not move |
| Combat.Attract | src/core/Game.ts:388-393 | the orb keeps its value, and an orb out of the pickup range does not move |
| Combat.Bob | src/entities/XPOrb.ts:19-22 | only the height changes, and for a sine in [-1, 1] it stays between 0.4 and 0.6 |
| Combat.StepLength | src/core/Game.ts:392 | a step of `k` along a unit vector covers a distance of `k` |
| Combat.Moved | src/core/Game.ts:395-421 | a collected orb leaves the list; any other stays with the same value |
| Combat.Remaining | src/core/Game.ts:384-423 | the orbs left are never more than before |
| Combat.CollectFront | src/core/Game.ts:384 | the loop runs from the back, so the first orb is collected last; a level-up happens when one happens on the rest or on it |
| Combat.CollectedCount | src/core/Game.ts:397 | at most every orb is collected |
| Combat.RemainingFacts | src/core/Game.ts:384-423 | the list shrinks by exactly the number collected, and 10-XP orbs stay 10-XP orbs |
| Combat.CollectAllCounts | src/core/Game.ts:397-402 | collecting 10-XP orbs in any order is collecting that many orbs: the state stays reachable and exactly 10 XP per orb is gained |
| Combat.CollectOne | src/core/Game.ts:397-402 | an orb not collected changes nothing, and one collection gains at most one level |
| Combat.CollectAll | src/core/Game.ts:384-423 | collecting the orbs never lowers the level, and raises it by at most one per orb |
| Combat.CountBackIsCount | src/core/Game.ts:384 | counting collected orbs from the back gives the same number |
| Combat.CollectAllGains | src/core/Game.ts:397-402 | collecting after `done` orbs continues the same run of orbs |
| Combat.AccumulateAt | src/entities/Enemy.ts:48-59 | the pushes counted are at most the number of enemies |
| Combat.MoveFrom | src/core/Game.ts:482 | every enemy gets a new position, one after another |
| Combat.MoveFromFacts | src/core/Game.ts:482 | each enemy stays or moves exactly `speed * dt`, and one that has reached the player stays |
| Combat.MoveFromChases | src/core/Game.ts:482 | enemies before index `k` keep their positions; each later one takes one chase step from where it stood, seeing the new positions of those before it |
| Combat.MoveFromUnfold | src/core/Game.ts:482 | the enemy at `k` moves with the separation computed from the positions already updated before it |
| Combat.ChaseStep | src/entities/Enemy.ts:66-73 | a chase step stays put or moves exactly `speed * dt`, and stays put within one unit of the player |
| Combat.AccumulateAtMatches | src/entities/Enemy.ts:48-59 | the index-based pushes are the pushes `Enemy.update` sums over the list |
| Combat.Touching | src/core/Game.ts:441-447 | never more contacts than enemies |
| Combat.RepeatedIsProduct | src/core/Game.ts:445 | `n` subtractions of `10 * dt` take off `n * 10 * dt` |
| Combat.Repeated | src/core/Game.ts:445 | no contacts take nothing off, and non-negative damage never adds health |
| Combat.TouchingCounts | src/core/Game.ts:441-447 | the contacts are exactly the live enemies closer than 1.5 to the player |
| Game.Game.constructor | src/core/Game.ts:56-169 | a new game waits in the menu, paused, at level 1 with 0 of 100 XP, with no enemies, snowballs, orbs, kills or upgrades, and the starting values of every upgradable stat (fire interval 0.5, speed 5, health 100/100, one snowball of damage 1, range 20, magnet 3, aura radius 3 and damage 2, slash damage 3 and cooldown 2), all in range |
| Game.Game.StartFromMenu | src/core/Game.ts:165-169 | leaves the menu and unpauses, changing nothing else |
| Game.Game.KillEnemy | src/core/Game.ts:509-526 | a dead enemy changes nothing; a live one is marked dead, counted once, drops exactly one orb at its position, and is the only enemy taken off the list, the others keeping their order |
| Game.Game.Unlist | src/core/Game.ts:521-525 | removes exactly that enemy, if listed, keeping the list free of repeats |
| Game.Game.Strike | src/core/Game.ts:227-232 | a live enemy within the radius loses `amount`, and is killed exactly when that leaves it with no health |
| Game.Game.StrikeEntry | src/core/Game.ts:226-232 | the visited enemy meets the fate the pass assigns it |
| Game.Game.Visit | src/core/Game.ts:226-232 | one step of the pass keeps the list, orbs and kills as the fates say |
| Game.Game.Sweep | src/core/Game.ts:226-235 | after the loop the list is the survivors, each enemy met its fate, one orb was dropped and one kill counted per killed enemy, and `hitAny` says whether any was struck |
| Game.Game.DamagePass | src/core/Game.ts:226-235 | the same, stated on the enemies as they were before the pass: survivors only, no enemy added, one orb per kill appended to the orbs |
| Game.Game.IceAura | src/core/Game.ts:210-236 | with the aura, one damage pass of `iceAuraDamage * dt` within the aura radius; without it, nothing changes |
| Game.Game.Slash | src/core/Game.ts:244-255 | one damage pass of the slash damage within 2.5; swings exactly when something was struck or some listed enemy is within 4.5 |
| Game.Game.SlashTimers | src/core/Game.ts:239-284 | the slash is tried only when unlocked and due; a swing restarts the timer and shows the effect for 0.2 s; without a swing the timer keeps running; the effect timer runs down while positive |
| Game.Game.TrySlash | src/core/Game.ts:239-255 | the slash when due, and no change otherwise |
| Game.Game.SettleSlash | src/core/Game.ts:255-284 | the slash and effect timers after the swing decision |
| Game.Game.AdvanceSystems | src/core/Game.ts:286-293 | the clock runs by `dt`, and the wave manager runs twice, first at level 1 and then at the player's level, each run spawning at most one enemy at the end of the list |
| Game.Game.RunWaves | src/core/Game.ts:290 | one wave-manager run on the game's list: the spawn rule of `Waves.WaveManager.Update` |
| Game.Game.FindNearest | src/core/Game.ts:310-319 | the first enemy at the strictly smallest distance below the range, or -1 when none is that close |
| Game.Game.AutoFire | src/core/Game.ts:306-347 | the timer runs; when it reaches the fire interval the nearest enemy is chosen; only when one exists does the timer restart and `projectileCount` snowballs leave one unit above the player, aimed half a unit above the target and turned by the fan offsets |
| Game.Game.Launch | src/core/Game.ts:324-343 | the fan aimed at the target joins the end of the snowball list |
| Game.Game.Volley | src/core/Game.ts:329-343 | `count` fresh snowballs, the `i`-th turned by the `i`-th fan offset, at speed 20 with a 2 s lifetime |
| Game.Game.DistancesFrom | src/core/Game.ts:363 | the distance from the point to each listed enemy |
| Game.Game.LastEnemyWithin | src/core/Game.ts:361-365 | the last listed enemy closer than one unit, or -1 |
| Game.Game.Hit | src/core/Game.ts:365-378 | the enemy loses `projectileDamage`, the snowball leaves the list, and the enemy is killed exactly when that leaves a live enemy with no health |
| Game.Game.ProjectileStep | src/core/Game.ts:350-380 | the snowball flies once; an expired one leaves without hitting; a live one hits at most the last enemy within one unit; no other enemy changes |
| Game.Game.ProjectilePass | src/core/Game.ts:349-381 | every listed snowball flies exactly once; the snowballs left are listed ones still alive; every enemy that left the list was killed, each kill counted and dropping one orb |
| Game.Game.ProjectileTurn | src/core/Game.ts:350-380 | one turn of the reverse loop keeps its bookkeeping |
| Game.Game.CollectOrbs | src/core/Game.ts:383-423 | the orbs within one unit before the magnet move are collected and leave; the rest are pulled and bob; the XP state is the one collecting them one by one gives; a level-up on the way pauses the game behind the drawn offers |
| Game.Game.CollectTurn | src/core/Game.ts:384-422 | one turn of the reverse orb loop keeps its bookkeeping |
| Game.Game.GainXp | src/core/Game.ts:397-417 | the XP becomes `Progression.Gain` of the old; a level-up pauses the game and shows the offers drawn; the state stays reachable |
| Game.Game.AddXp | src/core/Game.ts:398-402 | the XP becomes `Progression.Gain` of the old, and reports a level-up exactly when the threshold was reached |
| Game.Game.PlaceOrb | src/core/Game.ts:388-421 | a collected orb leaves the list and any other is replaced by its moved self |
| Game.Game.ContactDamage | src/core/Game.ts:440-448 | health falls by `10 * dt` once per live enemy closer than 1.5, and the damage tint shows exactly when there is one |
| Game.Game.CheckDeath | src/core/Game.ts:461-470 | a dead player in a running game pauses it and gets the game-over screen with kills, time, level and upgrades; a paused game does not |
| Game.Game.MoveEnemies | src/core/Game.ts:482 | the enemies move one after another as `Combat.MoveFrom` says; health, death flags and speeds are unchanged |
| Game.Game.MoveOne | src/core/Game.ts:482 | one enemy takes its chase step and no other moves |
| Game.Game.ChooseUpgrade | src/core/Game.ts:411-417 | the offer's effect is applied to the game's values, its name is recorded, the screen closes and the game runs again |
| Game.Game.SetStats | src/core/Game.ts:412 | the game's upgradable fields become the given values |
| Game.Game.MouseLook | src/core/Game.ts:491-494 | with the pointer locked, the player turns by 0.002 radians per pixel of horizontal movement |
| Game.Game.MouseLookAfterReset | src/core/Game.ts:207 | as the frame orders it, the player's facing never changes |
| Game.Game.Melee | src/core/Game.ts:209-284 | the aura and the slash only remove enemies, each kill counted and dropping one orb at the end of the orb list |
| Game.Game.Fight | src/core/Game.ts:209-381 | the fighting part of a frame: the clock runs by `dt`; kills and orbs grow together; every enemy and snowball is an old one or fresh |
| Game.Game.Shoot | src/core/Game.ts:306-381 | auto-fire then the snowball pass: kills and orbs grow together; only fresh snowballs appear |
| Game.Game.Tick | src/core/Game.ts:181-506 | in the menu or while paused nothing changes; otherwise one running frame, with the same contract as `Game.Game.RunFrame` |
| Game.Game.RunFrame | src/core/Game.ts:204-506 | a running frame: the clock runs by `dt`, kills never fall, no XP is lost, only health among the stats changes, a dead player ends paused with the game-over screen, and otherwise the player takes its movement step, the mouse turns it, and the enemies' new positions are `MoveFrom` of their positions just before moving (`settled`), their dead flags and speeds, and the moved player's position |
| Game.Game.Prepare | src/core/Game.ts:206-423 | the mouse movement is read, then the input is reset (the corrected order, see Findings), then the fight and the orb pass run |
| Game.Game.Harvest | src/core/Game.ts:383-423 | the orb pass as the frame sees it: no XP is lost |
| Game.Game.Endure | src/core/Game.ts:440-470 | contact damage then the death check |
| Game.Game.Advance | src/core/Game.ts:480-482 | the player takes its movement step with its yaw and speed kept; the enemies' new positions are `MoveFrom` of their old positions, dead flags and speeds toward the moved player's position, and their dead flags, speeds and health are unchanged |
| Game.Game.Move | src/core/Game.ts:480-494 | the player takes its movement step and the mouse turns it; the enemies' new positions are `MoveFrom` of their old positions, dead flags and speeds toward the moved player's position, and their dead flags, speeds and health are unchanged |

## Findings

| source | as written | input that shows it | evidently intended | confidence | as-written member | corrected member |
|---|---|---|---|---|---|---|
| src/core/Game.ts:207 | `input.update()` clears `movementX` at the start of the frame, before the yaw update reads it at line 493, and no mouse event can arrive in between | pointer locked, mouse moved 100 px to the right since the last frame: the movement is 0 when line 493 reads it, so the player does not turn | the player turns by `-100 * 0.002` radians: the movement is read before the reset | high, not executed | Game.Game.MouseLookAfterReset | Game.Game.MouseLook |

The frame in the model (`Game.Game.Prepare`) reads the movement before the input reset, and `Game.Game.Move` turns the player by it.

## Left out

- Rendering is not modelled. This covers three.js scene objects, meshes, materials, post-processing, lights, the camera's follow and menu orbit, and the player's animation and model rotation. Only positions, velocities and the player's facing are kept.
- DOM, sound and visual-only parts are not modelled:
  - the DOM behind the HUD, the loading screen, the game-over screen, the main menu, the upgrade screen and the developer menu;
  - the damage tint, which is returned as a flag;
  - the sound manager;
  - floating texts;
  - the snow and fog of `Environment`, and the town decorations;
  - `Present`, which the game never creates.
- `InteractionSystem` is not modelled: the game disabled it.
- Randomness is replaced by parameters:
  - `Math.random` draws become the shuffle permutation, the rarity rolls in [0, 100) and the spawn angles;
  - `Date.now` becomes the orbs' bobbing sine `bobSine`;
  - the clock's delta becomes `dt`.

  The shuffle's distribution is not modelled.
- Floating point is not modelled. Numbers are exact reals, and the only NaN modelled is the HUD's 0/0 case. Square roots and trigonometry are inputs through `Geometry.Ops`.
- Enemies.Push, Enemies.Enemy.Update and Combat.AccumulateAt: two live enemies on the same spot push each other with the zero vector. In the source, a zero distance divides by 0 (src/entities/Enemy.ts:51-55), and the resulting NaN spreads through the separation into the enemy's position.
- `localStorage` is a map from keys to already-parsed numbers. The strings `parseFloat` reads and `toString` writes are not modelled.
- `EnemyProjectiles.EnemyProjectile` is modelled, but the game never creates one. The game's `projectileSpeed` field is never read, so it is not modelled.
- Upgrade descriptions built with `toFixed` are not modelled.
- Several level-ups in one orb pass draw their offers from the same `perm` and `rolls`. The upgrade screen keeps only the last set shown, which the model mirrors by overwriting `pendingChoices`.
- The model orders the game-over list by first pick (`GameOver.FirstPicks`). JavaScript would put integer-like keys first; no upgrade name is one, so the two orders agree.
- Game.Game.ProjectilePass: the enemies that left the list are stated to be killed and counted, each with one orb; which snowball hit which enemy is stated per turn, in `Game.Game.ProjectileStep`, and not gathered over the whole pass.
- Game.Game.Fight and Game.Game.Shoot: these state counts, freshness and list membership; the exact lists come from the contracts of the steps they call.
- Game.Game.RunFrame and Game.Game.Tick: the orb pass is summarised as "no XP is lost". The exact XP state is stated by `Game.Game.CollectOrbs`.
- Game.Game.RunFrame and Game.Game.Tick: the enemies' positions just before they move are returned as the ghost `settled` and not related to the frame's starting positions. The earlier passes (spawning, hits, removals) change the list first, and their effect on the enemies is stated by the contracts of those passes.
- Game.Game.Hit: the damaged enemy is marked dead only through `KillEnemy`. An enemy already dead still loses health, as in the source.
- Game.Game.Tick: a running frame turns the player by the pointer movement read before the input reset. The code as written resets first and never turns the player (see Findings).
- Game.Game.RunFrame: the same corrected turn; the as-written frame would leave the yaw unchanged.
- Game.Game.Prepare: reads `movementX` before `Inputs.Input.Update` clears it, the reverse of src/core/Game.ts:207 and 493.
- Game.Game.Move: turns the player by that earlier reading; as written, the turn is always 0.
