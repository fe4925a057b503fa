/** The player's movement: walking, and a short dash with a cooldown.
  *
  * The camera-relative movement direction is an input: the direction the
  * held keys point in, already normalised (the zero vector when no key or
  * opposite keys are held). */
module Players {
  import opened Geometry
  import Inputs

  const StartSpeed := 5.0
  const DashSpeedMultiplier := 4.0
  const DashDuration := 0.2
  const DashCooldown := 1.0

  /** What `update` changes. */
  datatype Motion = Motion(position: Vec3, isDashing: bool, dashTime: real, cooldown: real, dashDirection: Vec3)

  /** The cooldown runs down only while it is positive. */
  function TickCooldown(cooldown: real, dt: real): real {
    if cooldown > 0.0 then cooldown - dt else cooldown
  }

  /** This update starts a dash: not dashing, a direction held, Space down
    * and the cooldown over. */
  predicate StartsDash(m: Motion, dt: real, moveDir: Vec3, space: bool) {
    !m.isDashing && LengthSq(moveDir) > 0.0 && space && TickCooldown(m.cooldown, dt) <= 0.0
  }

  /** One update of the player's movement. */
  function Step(m: Motion, speed: real, dt: real, moveDir: Vec3, space: bool): (r: Motion)
    ensures StartsDash(m, dt, moveDir, space) ==>
      r == Motion(m.position, true, DashDuration, DashCooldown, moveDir)
    ensures !StartsDash(m, dt, moveDir, space) ==>
      r.cooldown == TickCooldown(m.cooldown, dt) && r.dashDirection == m.dashDirection
    ensures m.isDashing ==> r.dashTime == m.dashTime - dt && (r.isDashing <==> r.dashTime > 0.0)
    ensures !m.isDashing && !StartsDash(m, dt, moveDir, space) ==> !r.isDashing && r.dashTime == m.dashTime
    ensures !m.isDashing && LengthSq(moveDir) <= 0.0 ==> r.position == m.position
  {
    var cooldown := TickCooldown(m.cooldown, dt);
    if m.isDashing then
      var dashTime := m.dashTime - dt;
      m.(position := Add(m.position, Scale(m.dashDirection, speed * DashSpeedMultiplier * dt)),
         dashTime := dashTime, cooldown := cooldown, isDashing := dashTime > 0.0)
    else if LengthSq(moveDir) > 0.0 then
      if space && cooldown <= 0.0 then
        Motion(m.position, true, DashDuration, DashCooldown, moveDir)
      else
        m.(position := Add(m.position, Scale(moveDir, speed * dt)), cooldown := cooldown)
    else
      m.(cooldown := cooldown)
  }

  /** While a dash is in progress it has time left, it points along a unit
    * vector, and the cooldown is exactly the dash time plus the part of the
    * cooldown that outlasts the dash. */
  predicate DashConsistent(m: Motion) {
    m.isDashing ==>
      && m.dashTime > 0.0
      && m.cooldown == m.dashTime + (DashCooldown - DashDuration)
      && IsUnit(m.dashDirection)
  }

  /** Every update keeps a dash consistent, and moves the player by exactly
    * `speed * dt` when walking, four times that when dashing, and not at
    * all on the update a dash starts or when no direction is held. */
  lemma StepKeepsDash(m: Motion, speed: real, dt: real, moveDir: Vec3, space: bool)
    requires DashConsistent(m)
    requires moveDir == Zero || IsUnit(moveDir)
    ensures DashConsistent(Step(m, speed, dt, moveDir, space))
    ensures var moved := DistSq(Step(m, speed, dt, moveDir, space).position, m.position);
      if m.isDashing then moved == (speed * DashSpeedMultiplier * dt) * (speed * DashSpeedMultiplier * dt)
      else if StartsDash(m, dt, moveDir, space) || moveDir == Zero then moved == 0.0
      else moved == (speed * dt) * (speed * dt)
  {
    var r := Step(m, speed, dt, moveDir, space);
    if m.isDashing {
      var k := speed * DashSpeedMultiplier * dt;
      assert Sub(r.position, m.position) == Scale(m.dashDirection, k);
      LengthSqScale(m.dashDirection, k);
    } else if !StartsDash(m, dt, moveDir, space) && moveDir != Zero {
      var k := speed * dt;
      assert Sub(r.position, m.position) == Scale(moveDir, k);
      LengthSqScale(moveDir, k);
    }
  }

  // ---------------------------------------------------------------------------
  // Several updates in a row.

  datatype Tick = Tick(dt: real, moveDir: Vec3, space: bool)

  function Run(m: Motion, speed: real, ticks: seq<Tick>): Motion {
    if ticks == [] then m
    else
      var t := ticks[|ticks| - 1];
      Step(Run(m, speed, ticks[..|ticks| - 1]), speed, t.dt, t.moveDir, t.space)
  }

  function Elapsed(ticks: seq<Tick>): real {
    if ticks == [] then 0.0 else Elapsed(ticks[..|ticks| - 1]) + ticks[|ticks| - 1].dt
  }

  predicate NoDashStarts(m: Motion, speed: real, ticks: seq<Tick>) {
    forall k :: 0 <= k < |ticks| ==>
      !StartsDash(Run(m, speed, ticks[..k]), ticks[k].dt, ticks[k].moveDir, ticks[k].space)
  }

  predicate ForwardInTime(ticks: seq<Tick>) {
    forall k :: 0 <= k < |ticks| ==> ticks[k].dt >= 0.0
  }

  /** Without a new dash, a positive cooldown runs down by exactly the time
    * elapsed until it is used up. */
  lemma {:induction false} CooldownRunsDown(m: Motion, speed: real, ticks: seq<Tick>)
    requires m.cooldown > 0.0
    requires ForwardInTime(ticks) && NoDashStarts(m, speed, ticks)
    ensures var c := Run(m, speed, ticks).cooldown;
      (c > 0.0 && c == m.cooldown - Elapsed(ticks)) || (c <= 0.0 && Elapsed(ticks) >= m.cooldown)
  {
    if ticks != [] {
      var prefix := ticks[..|ticks| - 1];
      var t := ticks[|ticks| - 1];
      assert ForwardInTime(prefix) by {
        forall k | 0 <= k < |prefix| ensures prefix[k].dt >= 0.0 {
          assert prefix[k] == ticks[k];
        }
      }
      assert NoDashStarts(m, speed, prefix) by {
        forall k | 0 <= k < |prefix|
          ensures !StartsDash(Run(m, speed, prefix[..k]), prefix[k].dt, prefix[k].moveDir, prefix[k].space)
        {
          assert prefix[..k] == ticks[..k];
          assert prefix[k] == ticks[k];
        }
      }
      CooldownRunsDown(m, speed, prefix);
      assert ticks[..|ticks| - 1] == prefix;
      assert !StartsDash(Run(m, speed, prefix), t.dt, t.moveDir, t.space);
      assert t.dt >= 0.0;
    }
  }

  /** A dash can only start once the cooldown set by the previous one has
    * fully elapsed: two dash starts are at least one second apart. */
  lemma DashesOneSecondApart(m: Motion, speed: real, first: Tick, between: seq<Tick>, next: Tick)
    requires first.dt >= 0.0 && ForwardInTime(between) && next.dt >= 0.0
    requires StartsDash(m, first.dt, first.moveDir, first.space)
    requires NoDashStarts(Step(m, speed, first.dt, first.moveDir, first.space), speed, between)
    requires StartsDash(Run(Step(m, speed, first.dt, first.moveDir, first.space), speed, between),
                        next.dt, next.moveDir, next.space)
    ensures Elapsed(between) + next.dt >= DashCooldown
  {
    var start := Step(m, speed, first.dt, first.moveDir, first.space);
    CooldownRunsDown(start, speed, between);
  }

  // ---------------------------------------------------------------------------

  class Player {
    var position: Vec3
    var speed: real
    var isDashing: bool
    var currentDashTime: real
    var currentCooldown: real
    var dashDirection: Vec3
    var yaw: real            // the turn of the player's mesh about the vertical axis

    /** The player stands on the ground at the origin, not dashing. */
    constructor ()
      ensures position == Vec3(0.0, 1.0, 0.0) && speed == StartSpeed
      ensures !isDashing && currentDashTime == 0.0 && currentCooldown == 0.0 && dashDirection == Zero
      ensures DashConsistent(State()) && yaw == 0.0
    {
      position := Vec3(0.0, 1.0, 0.0);
      speed := StartSpeed;
      isDashing := false;
      currentDashTime := 0.0;
      currentCooldown := 0.0;
      dashDirection := Zero;
      yaw := 0.0;
    }

    function State(): Motion
      reads this
    {
      Motion(position, isDashing, currentDashTime, currentCooldown, dashDirection)
    }

    /** One frame of movement, with `moveDir` the normalised direction of
      * the held movement keys. */
    method Update(dt: real, moveDir: Vec3, input: Inputs.Input)
      modifies this
      ensures State() == Step(old(State()), speed, dt, moveDir, input.IsDown("Space"))
      ensures speed == old(speed) && yaw == old(yaw)
    {
      if currentCooldown > 0.0 {
        currentCooldown := currentCooldown - dt;
      }
      if isDashing {
        Glide(dt);
      } else {
        Walk(dt, moveDir, input.IsDown("Space"));
      }
    }

    /** The dashing branch of `update`: along the dash direction at four
      * times the speed, until the dash time is used up. */
    method Glide(dt: real)
      requires isDashing
      modifies this`position, this`currentDashTime, this`isDashing
      ensures position == Add(old(position), Scale(dashDirection, speed * DashSpeedMultiplier * dt))
      ensures currentDashTime == old(currentDashTime) - dt && (isDashing <==> currentDashTime > 0.0)
    {
      position := Add(position, Scale(dashDirection, speed * DashSpeedMultiplier * dt));
      currentDashTime := currentDashTime - dt;
      if currentDashTime <= 0.0 {
        isDashing := false;
      }
    }

    /** The walking branch of `update`, with the cooldown already run down:
      * with a direction held, either a dash starts or the player walks. */
    method Walk(dt: real, moveDir: Vec3, space: bool)
      requires !isDashing
      modifies this`position, this`isDashing, this`currentDashTime, this`currentCooldown, this`dashDirection
      ensures LengthSq(moveDir) > 0.0 && space && old(currentCooldown) <= 0.0 ==>
        State() == Motion(old(position), true, DashDuration, DashCooldown, moveDir)
      ensures !(LengthSq(moveDir) > 0.0 && space && old(currentCooldown) <= 0.0) ==>
        State() == old(State()).(position := if LengthSq(moveDir) > 0.0 then Add(old(position), Scale(moveDir, speed * dt)) else old(position))
    {
      if LengthSq(moveDir) > 0.0 {
        if space && currentCooldown <= 0.0 {
          isDashing := true;
          currentDashTime := DashDuration;
          currentCooldown := DashCooldown;
          dashDirection := moveDir;
        } else {
          position := Add(position, Scale(moveDir, speed * dt));
        }
      }
    }
  }
}
