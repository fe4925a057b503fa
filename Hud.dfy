/** The numbers the heads-up display shows: the health and experience bar
  * fill percentages and the rounded-up health label. */
module Hud {

  /** A bar's fill: a percentage, or not-a-number when 0 is divided by 0. */
  datatype Fill = Percent(value: real) | NotANumber

  function Clamp(lo: real, hi: real, x: real): real {
    if x < lo then lo else if x > hi then hi else x
  }

  /** `max(0, min(100, part / whole * 100))` with the floating-point
    * division: dividing a non-zero number by zero gives an infinity, which
    * the clamp turns into 0 or 100. */
  function BarFill(part: real, whole: real): (f: Fill)
    ensures f.Percent? ==> 0.0 <= f.value <= 100.0
    ensures f.NotANumber? <==> part == 0.0 && whole == 0.0
    ensures whole > 0.0 && part <= 0.0 ==> f == Percent(0.0)
    ensures whole > 0.0 && part >= whole ==> f == Percent(100.0)
    ensures whole > 0.0 && 0.0 <= part <= whole ==> f == Percent(part / whole * 100.0)
  {
    if whole == 0.0 then
      if part > 0.0 then Percent(100.0) else if part < 0.0 then Percent(0.0) else NotANumber
    else
      Percent(Clamp(0.0, 100.0, part / whole * 100.0))
  }

  /** `Math.ceil`. */
  function Ceil(x: real): (n: int)
    ensures x <= n as real < x + 1.0
  {
    -((-x).Floor)
  }

  /** The two bar fills and the health shown on the label. */
  datatype Bars = Bars(healthFill: Fill, xpFill: Fill, healthLabel: int)

  function BarsFor(health: real, maxHealth: real, xp: real, maxXp: real): (b: Bars)
    ensures b.healthFill == BarFill(health, maxHealth) && b.xpFill == BarFill(xp, maxXp)
    ensures health <= b.healthLabel as real < health + 1.0
  {
    Bars(BarFill(health, maxHealth), BarFill(xp, maxXp), Ceil(health))
  }
}
