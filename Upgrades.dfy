/** The level-up upgrade catalogue: which upgrades may be offered, how a
  * rarity is rolled, and what each offered upgrade does to the game.
  *
  * An upgrade's effect is a value of type `Effect`; `Apply` interprets it on
  * `Stats`, the part of the game state that upgrades can change.  Random
  * draws (the shuffle order and the rarity rolls) are parameters. */
module Upgrades {

  datatype Rarity = Common | Rare | Epic | Legendary

  /** Chance of each rarity, in percent. */
  function Weight(r: Rarity): (w: nat)
    ensures 0 < w < 100
  {
    match r
    case Common => 67
    case Rare => 20
    case Epic => 10
    case Legendary => 3
  }

  function Multiplier(r: Rarity): (m: real)
    ensures 1.0 <= m <= 2.5
    ensures m == 1.0 <==> r == Common
  {
    match r
    case Common => 1.0
    case Rare => 1.5
    case Epic => 2.0
    case Legendary => 2.5
  }

  function Color(r: Rarity): (c: string)
    ensures |c| == 7 && c[0] == '#'
  {
    match r
    case Common => "#ffffff"
    case Rare => "#4488ff"
    case Epic => "#aa44ff"
    case Legendary => "#ffaa00"
  }

  /** Turns a roll in [0, 100) into a rarity: the rarest bands come first. */
  function RollRarity(roll: real): (r: Rarity)
    ensures r == Legendary <==> roll < 3.0
    ensures r == Common <==> roll >= 33.0
  {
    if roll < Weight(Legendary) as real then Legendary
    else if roll < (Weight(Epic) + Weight(Legendary)) as real then Epic
    else if roll < (Weight(Rare) + Weight(Epic) + Weight(Legendary)) as real then Rare
    else Common
  }

  /** Where the band of rolls for each rarity starts when the bands are laid
    * out Legendary, Epic, Rare, Common from 0. */
  function BandStart(r: Rarity): nat {
    match r
    case Legendary => 0
    case Epic => 3
    case Rare => 13
    case Common => 33
  }

  /** Every rarity is rolled on exactly one band of rolls, as wide as its
    * weight, and the four bands tile [0, 100): with a uniform roll each
    * rarity comes up with probability `Weight(r)` percent. */
  lemma RarityBands(roll: real, r: Rarity)
    requires 0.0 <= roll < 100.0
    ensures RollRarity(roll) == r <==> BandStart(r) as real <= roll < (BandStart(r) + Weight(r)) as real
    ensures BandStart(Common) + Weight(Common) == 100
  {
  }

  /** How many extra snowballs a Split Shot of the given rarity adds. */
  function ExtraShots(r: Rarity): (n: nat)
    ensures 1 <= n <= 3
    ensures n == 3 <==> r == Legendary
    ensures n == 2 <==> r == Epic
  {
    if r == Legendary then 3 else if r == Epic then 2 else 1
  }

  // ---------------------------------------------------------------------------
  // The state upgrades act on.

  /** The fields of the game that an upgrade can change: the game's own
    * weapon and aura fields, the player's speed and the health record. */
  datatype Stats = Stats(
    fireRate: real,
    moveSpeed: real,
    health: real,
    maxHealth: real,
    projectileCount: int,
    projectileDamage: real,
    projectileRange: real,
    xpPickupRange: real,
    hasIceAura: bool,
    iceAuraRadius: real,
    iceAuraDamage: real,
    hasAutoSlash: bool,
    slashDamage: real,
    slashCooldown: real)

  datatype Field =
    | FireRateField | MoveSpeedField | HealthField | MaxHealthField
    | ProjectileCountField | ProjectileDamageField | ProjectileRangeField | PickupRangeField
    | HasIceAuraField | AuraRadiusField | AuraDamageField
    | HasAutoSlashField | SlashDamageField | SlashCooldownField

  /** `a` and `b` agree on every field outside `fs`. */
  predicate AgreeOutside(a: Stats, b: Stats, fs: set<Field>) {
    && (FireRateField !in fs ==> a.fireRate == b.fireRate)
    && (MoveSpeedField !in fs ==> a.moveSpeed == b.moveSpeed)
    && (HealthField !in fs ==> a.health == b.health)
    && (MaxHealthField !in fs ==> a.maxHealth == b.maxHealth)
    && (ProjectileCountField !in fs ==> a.projectileCount == b.projectileCount)
    && (ProjectileDamageField !in fs ==> a.projectileDamage == b.projectileDamage)
    && (ProjectileRangeField !in fs ==> a.projectileRange == b.projectileRange)
    && (PickupRangeField !in fs ==> a.xpPickupRange == b.xpPickupRange)
    && (HasIceAuraField !in fs ==> a.hasIceAura == b.hasIceAura)
    && (AuraRadiusField !in fs ==> a.iceAuraRadius == b.iceAuraRadius)
    && (AuraDamageField !in fs ==> a.iceAuraDamage == b.iceAuraDamage)
    && (HasAutoSlashField !in fs ==> a.hasAutoSlash == b.hasAutoSlash)
    && (SlashDamageField !in fs ==> a.slashDamage == b.slashDamage)
    && (SlashCooldownField !in fs ==> a.slashCooldown == b.slashCooldown)
  }

  /** The values the game keeps in range: they hold at the start of a run
    * and every upgrade keeps them. */
  predicate Sane(g: Stats) {
    && g.fireRate >= 0.05
    && g.moveSpeed > 0.0
    && g.health <= g.maxHealth
    && g.projectileCount >= 1
    && g.projectileDamage > 0.0
    && g.projectileRange > 0.0
    && g.xpPickupRange > 0.0
    && g.iceAuraRadius > 0.0
    && g.iceAuraDamage > 0.0
    && g.slashDamage > 0.0
    && g.slashCooldown >= 0.2
  }

  /** `b` is at least as strong as `a` in every respect (a shorter fire
    * interval and a shorter slash cooldown are stronger). */
  predicate NoWeaker(a: Stats, b: Stats) {
    && b.fireRate <= a.fireRate
    && b.moveSpeed >= a.moveSpeed
    && b.health >= a.health
    && b.maxHealth >= a.maxHealth
    && b.projectileCount >= a.projectileCount
    && b.projectileDamage >= a.projectileDamage
    && b.projectileRange >= a.projectileRange
    && b.xpPickupRange >= a.xpPickupRange
    && (a.hasIceAura ==> b.hasIceAura)
    && b.iceAuraRadius >= a.iceAuraRadius
    && b.iceAuraDamage >= a.iceAuraDamage
    && (a.hasAutoSlash ==> b.hasAutoSlash)
    && b.slashDamage >= a.slashDamage
    && b.slashCooldown <= a.slashCooldown
  }

  // ---------------------------------------------------------------------------
  // Effects.

  datatype Effect =
    | ScaleFireRate(percent: real)       // fire interval shortened by a percentage, never below 0.05 s
    | ScaleMoveSpeed(percent: real)
    | Heal(amount: real)                 // health raised, capped at the maximum
    | RaiseMaxHealth(amount: real)       // maximum and current health both raised
    | AddProjectiles(extra: nat)
    | AddDamage(amount: real)
    | ScaleRange(percent: real)
    | ScaleMagnet(percent: real)
    | GrowAura(amount: real)
    | AddAuraDamage(amount: real)
    | SharpenSlash(damage: real, percent: real)   // slash damage up, cooldown shortened, never below 0.2 s
    | UnlockIceAura
    | UnlockAutoSlash
    | NoEffect

  function Max(a: real, b: real): real { if a >= b then a else b }

  function Min(a: real, b: real): real { if a <= b then a else b }

  function Apply(e: Effect, g: Stats): (r: Stats)
    ensures r.hasIceAura == (g.hasIceAura || e == UnlockIceAura)
    ensures r.hasAutoSlash == (g.hasAutoSlash || e == UnlockAutoSlash)
  {
    match e
    case ScaleFireRate(p) => g.(fireRate := Max(0.05, g.fireRate * (1.0 - p / 100.0)))
    case ScaleMoveSpeed(p) => g.(moveSpeed := g.moveSpeed * (1.0 + p / 100.0))
    case Heal(a) => g.(health := Min(g.maxHealth, g.health + a))
    case RaiseMaxHealth(a) => g.(maxHealth := g.maxHealth + a, health := g.health + a)
    case AddProjectiles(n) => g.(projectileCount := g.projectileCount + n)
    case AddDamage(a) => g.(projectileDamage := g.projectileDamage + a)
    case ScaleRange(p) => g.(projectileRange := g.projectileRange * (1.0 + p / 100.0))
    case ScaleMagnet(p) => g.(xpPickupRange := g.xpPickupRange * (1.0 + p / 100.0))
    case GrowAura(a) => g.(iceAuraRadius := g.iceAuraRadius + a)
    case AddAuraDamage(a) => g.(iceAuraDamage := g.iceAuraDamage + a)
    case SharpenSlash(d, p) =>
      g.(slashDamage := g.slashDamage + d, slashCooldown := Max(0.2, g.slashCooldown * (1.0 - p / 100.0)))
    case UnlockIceAura => g.(hasIceAura := true)
    case UnlockAutoSlash => g.(hasAutoSlash := true)
    case NoEffect => g
  }

  /** The fields an effect writes. */
  function Touches(e: Effect): set<Field> {
    match e
    case ScaleFireRate(_) => {FireRateField}
    case ScaleMoveSpeed(_) => {MoveSpeedField}
    case Heal(_) => {HealthField}
    case RaiseMaxHealth(_) => {MaxHealthField, HealthField}
    case AddProjectiles(_) => {ProjectileCountField}
    case AddDamage(_) => {ProjectileDamageField}
    case ScaleRange(_) => {ProjectileRangeField}
    case ScaleMagnet(_) => {PickupRangeField}
    case GrowAura(_) => {AuraRadiusField}
    case AddAuraDamage(_) => {AuraDamageField}
    case SharpenSlash(_, _) => {SlashDamageField, SlashCooldownField}
    case UnlockIceAura => {HasIceAuraField}
    case UnlockAutoSlash => {HasAutoSlashField}
    case NoEffect => {}
  }

  /** An effect changes nothing outside the fields it names. */
  lemma ApplyFrame(e: Effect, g: Stats)
    ensures AgreeOutside(g, Apply(e, g), Touches(e))
  {
  }

  /** The two clamps: the fire interval and the slash cooldown never drop
    * below their floors, and healing never lifts health above the maximum. */
  lemma ApplyClamps(e: Effect, g: Stats)
    ensures e.ScaleFireRate? ==> Apply(e, g).fireRate >= 0.05
    ensures e.SharpenSlash? ==> Apply(e, g).slashCooldown >= 0.2
    ensures e.Heal? ==> Apply(e, g).health <= g.maxHealth
  {
  }

  // ---------------------------------------------------------------------------
  // The catalogue.

  datatype UpgradeId =
    | FireRateId | MoveSpeedId | HealthBoostId | MaxHealthId | MultishotId | DamageId
    | RangeId | MagnetId | IceAuraUnlockId | IceAuraRadiusId | IceAuraDamageId
    | AutoSlashUnlockId | AutoSlashUpgradeId

  /** The id as the game spells it. */
  function IdText(id: UpgradeId): string {
    match id
    case FireRateId => "fire_rate"
    case MoveSpeedId => "move_speed"
    case HealthBoostId => "health_boost"
    case MaxHealthId => "max_health"
    case MultishotId => "multishot"
    case DamageId => "damage"
    case RangeId => "range"
    case MagnetId => "magnet"
    case IceAuraUnlockId => "ice_aura_unlock"
    case IceAuraRadiusId => "ice_aura_radius"
    case IceAuraDamageId => "ice_aura_damage"
    case AutoSlashUnlockId => "auto_slash_unlock"
    case AutoSlashUpgradeId => "auto_slash_upgrade"
  }

  /** When a template may be offered. */
  datatype Gate = Always | WithoutIceAura | WithIceAura | WithoutAutoSlash | WithAutoSlash

  datatype Template = Template(id: UpgradeId, name: string, gate: Gate, baseEffect: Effect)

  /** The catalogue entry for each id.  Only the two unlocks carry an effect
    * of their own; every other entry is a placeholder that is replaced once a
    * rarity is bound. */
  function TemplateOf(id: UpgradeId): (t: Template)
    ensures t.id == id
  {
    match id
    case FireRateId => Template(id, "Rapid Fire", Always, NoEffect)
    case MoveSpeedId => Template(id, "Sugar Rush", Always, NoEffect)
    case HealthBoostId => Template(id, "Hot Cocoa", Always, NoEffect)
    case MaxHealthId => Template(id, "Hearty Meal", Always, NoEffect)
    case MultishotId => Template(id, "Split Shot", Always, NoEffect)
    case DamageId => Template(id, "Packed Snow", Always, NoEffect)
    case RangeId => Template(id, "Snowball Range", Always, NoEffect)
    case MagnetId => Template(id, "Candy Magnet", Always, NoEffect)
    case IceAuraUnlockId => Template(id, "Ice Aura", WithoutIceAura, UnlockIceAura)
    case IceAuraRadiusId => Template(id, "Expanding Cold", WithIceAura, NoEffect)
    case IceAuraDamageId => Template(id, "Deep Freeze", WithIceAura, NoEffect)
    case AutoSlashUnlockId => Template(id, "Candy Cane Slash", WithoutAutoSlash, UnlockAutoSlash)
    case AutoSlashUpgradeId => Template(id, "Sharpened Candy", WithAutoSlash, NoEffect)
  }

  const Basics: seq<UpgradeId> :=
    [FireRateId, MoveSpeedId, HealthBoostId, MaxHealthId, MultishotId, DamageId, RangeId, MagnetId]

  const IceAuraIds: seq<UpgradeId> := [IceAuraUnlockId, IceAuraRadiusId, IceAuraDamageId]

  const SlashIds: seq<UpgradeId> := [AutoSlashUnlockId, AutoSlashUpgradeId]

  /** The catalogue in its order. */
  const CatalogIds: seq<UpgradeId> := Basics + IceAuraIds + SlashIds

  predicate Eligible(id: UpgradeId, g: Stats) {
    match TemplateOf(id).gate
    case Always => true
    case WithoutIceAura => !g.hasIceAura
    case WithIceAura => g.hasIceAura
    case WithoutAutoSlash => !g.hasAutoSlash
    case WithAutoSlash => g.hasAutoSlash
  }

  predicate Distinct(ids: seq<UpgradeId>) {
    forall i, j :: 0 <= i < j < |ids| ==> ids[i] != ids[j]
  }

  /** The ids of `ids` whose condition holds, in their order. */
  function Filter(ids: seq<UpgradeId>, g: Stats): seq<UpgradeId> {
    if ids == [] then []
    else
      var rest := Filter(ids[1..], g);
      if Eligible(ids[0], g) then [ids[0]] + rest else rest
  }

  /** Filtering keeps exactly the eligible ids. */
  lemma {:induction false} FilterMembers(ids: seq<UpgradeId>, g: Stats)
    ensures forall id :: id in Filter(ids, g) <==> id in ids && Eligible(id, g)
  {
    if ids != [] {
      FilterMembers(ids[1..], g);
      assert forall id :: id in ids <==> id == ids[0] || id in ids[1..];
    }
  }

  /** Filtering a list without repeats gives a list without repeats. */
  lemma {:induction false} FilterDistinct(ids: seq<UpgradeId>, g: Stats)
    requires Distinct(ids)
    ensures Distinct(Filter(ids, g))
  {
    if ids != [] {
      var rest := Filter(ids[1..], g);
      FilterDistinct(ids[1..], g);
      if Eligible(ids[0], g) {
        FilterMembers(ids[1..], g);
        assert ids[0] !in ids[1..];
        assert ids[0] !in rest;
        var r := [ids[0]] + rest;
        forall i, j | 0 <= i < j < |r| ensures r[i] != r[j] {
          if i == 0 {
            assert r[j] == rest[j - 1];
          } else {
            assert r[i] == rest[i - 1] && r[j] == rest[j - 1];
          }
        }
      }
    }
  }

  /** The upgrades on offer: every eligible id, each once. */
  function Available(g: Stats): (r: seq<UpgradeId>)
    ensures forall id :: id in r <==> Eligible(id, g)
    ensures Distinct(r)
  {
    CatalogComplete();
    FilterMembers(CatalogIds, g);
    FilterDistinct(CatalogIds, g);
    Filter(CatalogIds, g)
  }

  lemma FilterCons(id: UpgradeId, rest: seq<UpgradeId>, g: Stats)
    ensures Filter([id] + rest, g) == (if Eligible(id, g) then [id] else []) + Filter(rest, g)
  {
    assert ([id] + rest)[0] == id;
    assert ([id] + rest)[1..] == rest;
  }

  lemma {:induction false} FilterAllEligible(ids: seq<UpgradeId>, g: Stats)
    requires forall id :: id in ids ==> Eligible(id, g)
    ensures Filter(ids, g) == ids
  {
    if ids != [] {
      assert ids == [ids[0]] + ids[1..];
      FilterCons(ids[0], ids[1..], g);
      FilterAllEligible(ids[1..], g);
    }
  }

  lemma {:induction false} FilterAppend(a: seq<UpgradeId>, b: seq<UpgradeId>, g: Stats)
    ensures Filter(a + b, g) == Filter(a, g) + Filter(b, g)
  {
    if a != [] {
      var x, fa, fb := a[0], Filter(a[1..], g), Filter(b, g);
      assert (a + b)[0] == x;
      assert (a + b)[1..] == a[1..] + b;
      FilterAppend(a[1..], b, g);
      if Eligible(x, g) {
        assert [x] + (fa + fb) == ([x] + fa) + fb;
      }
    } else {
      assert a + b == b;
    }
  }

  /** The catalogue lists every id, each once. */
  lemma CatalogComplete()
    ensures Distinct(CatalogIds)
    ensures forall id :: id in CatalogIds
  {
    forall id ensures id in CatalogIds {
      match id
      case FireRateId => assert CatalogIds[0] == id;
      case MoveSpeedId => assert CatalogIds[1] == id;
      case HealthBoostId => assert CatalogIds[2] == id;
      case MaxHealthId => assert CatalogIds[3] == id;
      case MultishotId => assert CatalogIds[4] == id;
      case DamageId => assert CatalogIds[5] == id;
      case RangeId => assert CatalogIds[6] == id;
      case MagnetId => assert CatalogIds[7] == id;
      case IceAuraUnlockId => assert CatalogIds[8] == id;
      case IceAuraRadiusId => assert CatalogIds[9] == id;
      case IceAuraDamageId => assert CatalogIds[10] == id;
      case AutoSlashUnlockId => assert CatalogIds[11] == id;
      case AutoSlashUpgradeId => assert CatalogIds[12] == id;
    }
  }

  lemma FilterIceAura(g: Stats)
    ensures Filter(IceAuraIds, g)
      == if g.hasIceAura then [IceAuraRadiusId, IceAuraDamageId] else [IceAuraUnlockId]
  {
    assert [IceAuraUnlockId, IceAuraRadiusId, IceAuraDamageId]
      == [IceAuraUnlockId] + ([IceAuraRadiusId] + ([IceAuraDamageId] + []));
    FilterCons(IceAuraDamageId, [], g);
    FilterCons(IceAuraRadiusId, [IceAuraDamageId], g);
    FilterCons(IceAuraUnlockId, [IceAuraRadiusId, IceAuraDamageId], g);
  }

  lemma FilterSlash(g: Stats)
    ensures Filter(SlashIds, g)
      == if g.hasAutoSlash then [AutoSlashUpgradeId] else [AutoSlashUnlockId]
  {
    assert [AutoSlashUnlockId, AutoSlashUpgradeId] == [AutoSlashUnlockId] + ([AutoSlashUpgradeId] + []);
    FilterCons(AutoSlashUpgradeId, [], g);
    FilterCons(AutoSlashUnlockId, [AutoSlashUpgradeId], g);
  }

  lemma BasicsAlwaysEligible(g: Stats)
    ensures forall id :: id in Basics ==> Eligible(id, g)
  {
    forall id | id in Basics ensures Eligible(id, g) {
      assert TemplateOf(id).gate == Always;
    }
  }

  /** Ten or eleven upgrades are always available, so a request for three
    * always gets three. */
  lemma AvailableSize(g: Stats)
    ensures |Available(g)| == if g.hasIceAura then 11 else 10
  {
    BasicsAlwaysEligible(g);
    FilterAllEligible(Basics, g);
    FilterIceAura(g);
    FilterSlash(g);
    FilterAppend(Basics, IceAuraIds, g);
    FilterAppend(Basics + IceAuraIds, SlashIds, g);
    var n1 := |Filter(Basics, g)|;
    var n2 := |Filter(IceAuraIds, g)|;
    var n3 := |Filter(SlashIds, g)|;
    assert n1 == 8;
    assert n2 == if g.hasIceAura then 2 else 1;
    assert n3 == 1;
    assert |Filter(CatalogIds, g)| == n1 + n2 + n3;
  }

  // ---------------------------------------------------------------------------
  // Ids containing "_unlock".

  const UnlockMarker := "_unlock"

  predicate OccursAt(s: string, sub: string, i: int) {
    0 <= i <= |s| - |sub| && s[i..i + |sub|] == sub
  }

  /** `s.includes(sub)`. */
  predicate Includes(s: string, sub: string) {
    exists i :: 0 <= i <= |s| - |sub| && OccursAt(s, sub, i)
  }

  predicate IsUnlockId(id: UpgradeId) {
    Includes(IdText(id), UnlockMarker)
  }

  lemma NotIncludedWithoutK(s: string)
    requires 'k' !in s
    ensures !Includes(s, UnlockMarker)
  {
    forall i | 0 <= i <= |s| - |UnlockMarker|
      ensures !OccursAt(s, UnlockMarker, i)
    {
      assert s[i..i + |UnlockMarker|][6] == s[i + 6] != UnlockMarker[6];
    }
  }

  /** Exactly the two unlock ids contain "_unlock". */
  lemma UnlockIds(id: UpgradeId)
    ensures IsUnlockId(id) <==> id == IceAuraUnlockId || id == AutoSlashUnlockId
  {
    match id
    case IceAuraUnlockId =>
      assert IdText(id) == "ice_aura" + UnlockMarker;
      EndsWith("ice_aura", UnlockMarker);
    case AutoSlashUnlockId =>
      assert IdText(id) == "auto_slash" + UnlockMarker;
      EndsWith("auto_slash", UnlockMarker);
    case _ => NotIncludedWithoutK(IdText(id));
  }

  lemma EndsWith(prefix: string, sub: string)
    ensures OccursAt(prefix + sub, sub, |prefix|)
  {
    assert (prefix + sub)[|prefix|..|prefix| + |sub|] == sub;
  }

  // ---------------------------------------------------------------------------
  // Binding a rarity to a template.

  /** The effect a non-unlock template has at the given rarity: its base
    * amount scaled by the rarity's multiplier; any other id keeps its base
    * effect. */
  function DynamicEffect(id: UpgradeId, r: Rarity): (e: Effect)
    ensures Boosts(e) && !e.NoEffect?
  {
    var m := Multiplier(r);
    match id
    case FireRateId => ScaleFireRate(15.0 * m)
    case MoveSpeedId => ScaleMoveSpeed(10.0 * m)
    case HealthBoostId => Heal(50.0 * m)
    case MaxHealthId => RaiseMaxHealth(25.0 * m)
    case MultishotId => AddProjectiles(ExtraShots(r))
    case DamageId => AddDamage(1.0 * m)
    case RangeId => ScaleRange(25.0 * m)
    case MagnetId => ScaleMagnet(50.0 * m)
    case IceAuraRadiusId => GrowAura(1.5 * m)
    case IceAuraDamageId => AddAuraDamage(2.0 * m)
    case AutoSlashUpgradeId => SharpenSlash(3.0 * m, 10.0 * m)
    case _ => TemplateOf(id).baseEffect
  }

  /** An upgrade as offered to the player. */
  datatype Offer = Offer(id: UpgradeId, name: string, rarity: Rarity, color: string, effect: Effect)

  /** Unlocks are always Legendary and keep their own effect; every other
    * template gets the rarity the roll falls on. */
  function Bind(id: UpgradeId, roll: real): (o: Offer)
    ensures o.id == id && o.name == TemplateOf(id).name && o.color == Color(o.rarity)
    ensures IsUnlockId(id) ==> o.rarity == Legendary && o.effect == TemplateOf(id).baseEffect
    ensures !IsUnlockId(id) ==> o.rarity == RollRarity(roll) && o.effect == DynamicEffect(id, o.rarity)
    ensures o.effect == UnlockIceAura <==> id == IceAuraUnlockId
    ensures o.effect == UnlockAutoSlash <==> id == AutoSlashUnlockId
  {
    UnlockIds(id);
    var base := TemplateOf(id);
    if IsUnlockId(id) then
      Offer(id, base.name, Legendary, Color(Legendary), base.baseEffect)
    else
      var r := RollRarity(roll);
      Offer(id, base.name, r, Color(r), DynamicEffect(id, r))
  }

  /** Every offer the catalogue can produce, at any rarity, keeps the game's
    * values in range and weakens nothing. */
  lemma OffersImprove(id: UpgradeId, roll: real, g: Stats)
    requires Sane(g)
    ensures var g' := Apply(Bind(id, roll).effect, g);
      Sane(g') && NoWeaker(g, g')
  {
    UnlockIds(id);
    var e := Bind(id, roll).effect;
    if !IsUnlockId(id) {
      var r := RollRarity(roll);
      assert Multiplier(r) > 0.0;
      assert e == DynamicEffect(id, r);
    }
    assert Boosts(e);
    BoostImproves(e, g);
  }

  /** No amount or percentage of the effect is negative. */
  predicate Boosts(e: Effect) {
    match e
    case ScaleFireRate(p) => p >= 0.0
    case ScaleMoveSpeed(p) => p >= 0.0
    case Heal(a) => a >= 0.0
    case RaiseMaxHealth(a) => a >= 0.0
    case AddProjectiles(n) => n >= 0
    case AddDamage(a) => a >= 0.0
    case ScaleRange(p) => p >= 0.0
    case ScaleMagnet(p) => p >= 0.0
    case GrowAura(a) => a >= 0.0
    case AddAuraDamage(a) => a >= 0.0
    case SharpenSlash(d, p) => d >= 0.0 && p >= 0.0
    case _ => true
  }

  /** An effect without negative amounts keeps the values in range and
    * weakens nothing. */
  lemma BoostImproves(e: Effect, g: Stats)
    requires Sane(g) && Boosts(e)
    ensures Sane(Apply(e, g)) && NoWeaker(g, Apply(e, g))
  {
    match e
    case ScaleFireRate(p) => ShrinksMore(g.fireRate, 0.0, p);
    case ScaleMoveSpeed(p) => GrowsMore(g.moveSpeed, 0.0, p);
    case ScaleRange(p) => GrowsMore(g.projectileRange, 0.0, p);
    case ScaleMagnet(p) => GrowsMore(g.xpPickupRange, 0.0, p);
    case SharpenSlash(_, p) => ShrinksMore(g.slashCooldown, 0.0, p);
    case _ =>
  }

  /** A rarer roll gives an upgrade that is at least as strong. */
  lemma RarerIsStronger(id: UpgradeId, r1: Rarity, r2: Rarity, g: Stats)
    requires Sane(g)
    requires Multiplier(r1) <= Multiplier(r2)
    ensures NoWeaker(Apply(DynamicEffect(id, r1), g), Apply(DynamicEffect(id, r2), g))
  {
    var e1, e2 := DynamicEffect(id, r1), DynamicEffect(id, r2);
    assert Dominates(e1, e2);
    DominatesNoWeaker(e1, e2, g);
  }

  /** `b` is the same kind of effect as `a`, by at least as much. */
  predicate Dominates(a: Effect, b: Effect) {
    match a
    case ScaleFireRate(p) => b.ScaleFireRate? && 0.0 <= p <= b.percent
    case ScaleMoveSpeed(p) => b.ScaleMoveSpeed? && 0.0 <= p <= b.percent
    case Heal(x) => b.Heal? && 0.0 <= x <= b.amount
    case RaiseMaxHealth(x) => b.RaiseMaxHealth? && 0.0 <= x <= b.amount
    case AddProjectiles(n) => b.AddProjectiles? && n <= b.extra
    case AddDamage(x) => b.AddDamage? && 0.0 <= x <= b.amount
    case ScaleRange(p) => b.ScaleRange? && 0.0 <= p <= b.percent
    case ScaleMagnet(p) => b.ScaleMagnet? && 0.0 <= p <= b.percent
    case GrowAura(x) => b.GrowAura? && 0.0 <= x <= b.amount
    case AddAuraDamage(x) => b.AddAuraDamage? && 0.0 <= x <= b.amount
    case SharpenSlash(d, p) => b.SharpenSlash? && 0.0 <= d <= b.damage && 0.0 <= p <= b.percent
    case _ => a == b
  }

  /** A dominating effect leaves the player at least as strong. */
  lemma DominatesNoWeaker(a: Effect, b: Effect, g: Stats)
    requires Sane(g) && Dominates(a, b)
    ensures NoWeaker(Apply(a, g), Apply(b, g))
  {
    if a.ScaleFireRate? || a.ScaleMoveSpeed? || a.ScaleRange? || a.ScaleMagnet? || a.SharpenSlash? {
      ScaledNoWeaker(a, b, g);
    }
  }

  /** The percentage effects: a larger percentage is at least as strong. */
  lemma ScaledNoWeaker(a: Effect, b: Effect, g: Stats)
    requires Sane(g) && Dominates(a, b)
    requires a.ScaleFireRate? || a.ScaleMoveSpeed? || a.ScaleRange? || a.ScaleMagnet? || a.SharpenSlash?
    ensures NoWeaker(Apply(a, g), Apply(b, g))
  {
    match a
    case ScaleFireRate(p) => FireRateNoWeaker(g, p, b.percent);
    case ScaleMoveSpeed(p) => MoveSpeedNoWeaker(g, p, b.percent);
    case ScaleRange(p) => RangeNoWeaker(g, p, b.percent);
    case ScaleMagnet(p) => MagnetNoWeaker(g, p, b.percent);
    case SharpenSlash(d, p) => SlashNoWeaker(g, d, p, b.damage, b.percent);
  }

  lemma FireRateNoWeaker(g: Stats, p: real, q: real)
    requires Sane(g) && p <= q
    ensures NoWeaker(Apply(ScaleFireRate(p), g), Apply(ScaleFireRate(q), g))
  {
    var x, y := g.fireRate * (1.0 - p / 100.0), g.fireRate * (1.0 - q / 100.0);
    ShrinksMore(g.fireRate, p, q);
    MaxMono(0.05, y, x);
  }

  lemma MoveSpeedNoWeaker(g: Stats, p: real, q: real)
    requires Sane(g) && p <= q
    ensures NoWeaker(Apply(ScaleMoveSpeed(p), g), Apply(ScaleMoveSpeed(q), g))
  {
    GrowsMore(g.moveSpeed, p, q);
  }

  lemma RangeNoWeaker(g: Stats, p: real, q: real)
    requires Sane(g) && p <= q
    ensures NoWeaker(Apply(ScaleRange(p), g), Apply(ScaleRange(q), g))
  {
    GrowsMore(g.projectileRange, p, q);
  }

  lemma MagnetNoWeaker(g: Stats, p: real, q: real)
    requires Sane(g) && p <= q
    ensures NoWeaker(Apply(ScaleMagnet(p), g), Apply(ScaleMagnet(q), g))
  {
    GrowsMore(g.xpPickupRange, p, q);
  }

  lemma SlashNoWeaker(g: Stats, d: real, p: real, e: real, q: real)
    requires Sane(g) && d <= e && p <= q
    ensures NoWeaker(Apply(SharpenSlash(d, p), g), Apply(SharpenSlash(e, q), g))
  {
    var x, y := g.slashCooldown * (1.0 - p / 100.0), g.slashCooldown * (1.0 - q / 100.0);
    ShrinksMore(g.slashCooldown, p, q);
    MaxMono(0.2, y, x);
  }

  lemma MaxMono(floor: real, x: real, y: real)
    requires x <= y
    ensures Max(floor, x) <= Max(floor, y)
  {
  }

  /** Shortening by a larger percentage gives a smaller value. */
  lemma ShrinksMore(x: real, p1: real, p2: real)
    requires x >= 0.0 && p1 <= p2
    ensures x * (1.0 - p2 / 100.0) <= x * (1.0 - p1 / 100.0)
  {
    assert x * (1.0 - p1 / 100.0) - x * (1.0 - p2 / 100.0) == x * ((p2 - p1) / 100.0);
  }

  /** Growing by a larger percentage gives a larger value. */
  lemma GrowsMore(x: real, p1: real, p2: real)
    requires x >= 0.0 && p1 <= p2
    ensures x * (1.0 + p1 / 100.0) <= x * (1.0 + p2 / 100.0)
  {
    assert x * (1.0 + p2 / 100.0) - x * (1.0 + p1 / 100.0) == x * ((p2 - p1) / 100.0);
  }

  // ---------------------------------------------------------------------------
  // Drawing the offers.

  predicate IsPermutation(perm: seq<nat>, n: nat) {
    && |perm| == n
    && (forall i :: 0 <= i < n ==> perm[i] < n)
    && (forall i, j :: 0 <= i < j < n ==> perm[i] != perm[j])
  }

  function MinNat(a: nat, b: nat): nat { if a <= b then a else b }

  /** Filters the catalogue, shuffles it (`perm` is the order the shuffle
    * produced), keeps the first `count` and binds a rarity to each (`rolls`
    * are the rarity rolls, scaled to [0, 100)). */
  function GetRandomUpgrades(count: nat, g: Stats, perm: seq<nat>, rolls: seq<real>): (offers: seq<Offer>)
    requires IsPermutation(perm, |Available(g)|)
    requires |rolls| >= MinNat(count, |Available(g)|)
    requires forall i :: 0 <= i < |rolls| ==> 0.0 <= rolls[i] < 100.0
    ensures |offers| == MinNat(count, |Available(g)|)
    ensures forall i :: 0 <= i < |offers| ==> Eligible(offers[i].id, g)
    ensures forall i, j :: 0 <= i < j < |offers| ==> offers[i].id != offers[j].id
    ensures forall i :: 0 <= i < |offers| ==>
      && (IsUnlockId(offers[i].id) ==> offers[i].rarity == Legendary)
      && (!IsUnlockId(offers[i].id) ==> offers[i].rarity == RollRarity(rolls[i]))
      && offers[i].color == Color(offers[i].rarity)
      && offers[i].name == TemplateOf(offers[i].id).name
    ensures forall i :: 0 <= i < |offers| ==> offers[i].id == Available(g)[perm[i]]
    ensures forall i :: 0 <= i < |offers| ==>
      offers[i].effect == if IsUnlockId(offers[i].id) then TemplateOf(offers[i].id).baseEffect
                          else DynamicEffect(offers[i].id, RollRarity(rolls[i]))
  {
    var avail := Available(g);
    seq(MinNat(count, |avail|), k requires 0 <= k < MinNat(count, |avail|) => Bind(avail[perm[k]], rolls[k]))
  }

  /** Each gated upgrade is available exactly when its condition holds. */
  lemma GatesRespected(g: Stats)
    ensures IceAuraUnlockId in Available(g) <==> !g.hasIceAura
    ensures IceAuraRadiusId in Available(g) <==> g.hasIceAura
    ensures IceAuraDamageId in Available(g) <==> g.hasIceAura
    ensures AutoSlashUnlockId in Available(g) <==> !g.hasAutoSlash
    ensures AutoSlashUpgradeId in Available(g) <==> g.hasAutoSlash
  {
  }
}
