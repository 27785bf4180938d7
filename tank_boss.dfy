/** The tank boss. While its shell timer runs it drives toward the player;
    when the timer runs out it stops, charges for 0.6 s, fires one shell and
    restarts the 2.6 s timer. */
module TankBosses {
  import opened Geometry
  import opened GameEvents
  import opened Bosses

  const TankRadius: real := 36.0
  const ShellCooldown: real := 2.6
  const ChargeTime: real := 0.6
  const ShellSpeed: real := 4.0
  const ShellDamage: int := 60
  const ShellTtl: real := 2.5
  const ShellBlast: real := 110.0

  /** The timers of the charge-and-fire cycle. */
  datatype Gun = Gun(shellTimer: real, chargeTimer: real, charging: bool)

  /** One update of a living tank's gun: the new timers and whether a shell
      is fired. */
  function Cycle(g: Gun, deltaTime: real): (r: (Gun, bool))
    ensures r.1 ==> !r.0.charging && r.0.shellTimer == ShellCooldown
    ensures !r.1 ==> r.0.shellTimer == g.shellTimer - deltaTime
    ensures !g.charging && g.shellTimer - deltaTime > 0.0 ==>
      !r.1 && r.0 == Gun(g.shellTimer - deltaTime, g.chargeTimer, false)
    ensures !g.charging && g.shellTimer - deltaTime <= 0.0 ==>
      (r.1 <==> ChargeTime - deltaTime <= 0.0) &&
      (!r.1 ==> r.0.charging && r.0.chargeTimer == ChargeTime - deltaTime)
    ensures g.charging ==>
      (r.1 <==> g.chargeTimer - deltaTime <= 0.0) &&
      (!r.1 ==> r.0.charging && r.0.chargeTimer == g.chargeTimer - deltaTime)
  {
    var shell := g.shellTimer - deltaTime;
    var starts := !g.charging && shell <= 0.0;
    var charging := g.charging || starts;
    var charge := if starts then ChargeTime else g.chargeTimer;
    if charging then
      if charge - deltaTime <= 0.0 then (Gun(ShellCooldown, charge - deltaTime, false), true)
      else (Gun(shell, charge - deltaTime, true), false)
    else (Gun(shell, charge, false), false)
  }

  /** Whether the tank is charging, and so stands still, during this update. */
  predicate Holds(g: Gun, deltaTime: real)
  {
    g.charging || g.shellTimer - deltaTime <= 0.0
  }

  function Sum(steps: seq<real>): real
  {
    if steps == [] then 0.0 else steps[0] + Sum(steps[1..])
  }

  /** How many shells a living tank fires over updates of the given lengths. */
  function Shots(g: Gun, steps: seq<real>): nat
    decreases |steps|
  {
    if steps == [] then 0
    else
      var r := Cycle(g, steps[0]);
      (if r.1 then 1 else 0) + Shots(r.0, steps[1..])
  }

  lemma {:induction false} SumNonNegative(steps: seq<real>)
    requires forall i :: 0 <= i < |steps| ==> steps[i] >= 0.0
    ensures Sum(steps) >= 0.0
    decreases |steps|
  {
    if steps != [] {
      SumNonNegative(steps[1..]);
    }
  }

  /** No shell is fired before the running timer is used up: while the
      updates add up to less than the shell timer (or, when charging, the
      charge timer), the tank stays quiet. */
  lemma {:induction false} QuietUntilDue(g: Gun, steps: seq<real>)
    requires forall i :: 0 <= i < |steps| ==> steps[i] >= 0.0
    requires Sum(steps) < (if g.charging then g.chargeTimer else g.shellTimer)
    ensures Shots(g, steps) == 0
    decreases |steps|
  {
    if steps != [] {
      SumNonNegative(steps[1..]);
      QuietUntilDue(Cycle(g, steps[0]).0, steps[1..]);
    }
  }

  /** After a shell, the next one is at least 2.6 seconds away. */
  lemma ShellsSpaced(g: Gun, deltaTime: real, steps: seq<real>)
    requires Cycle(g, deltaTime).1
    requires forall i :: 0 <= i < |steps| ==> steps[i] >= 0.0
    requires Sum(steps) < ShellCooldown
    ensures Shots(Cycle(g, deltaTime).0, steps) == 0
  {
    QuietUntilDue(Cycle(g, deltaTime).0, steps);
  }

  /** moveToward: head for the player at full speed unless already within
      one unit (the source compares the length with 1; here its square). */
  function Approach(position: Vec, velocity: Vec, player: Vec, speed: real, root: real -> real): (Vec, Vec)
  {
    var dir := Minus(player, position);
    if DistSq(dir, Vec(0.0, 0.0)) > 1.0 then
      var v := Scale(Normalize(dir, root), speed);
      (Plus(position, v), v)
    else (position, velocity)
  }

  /** The calls fireShell makes: launch a shell from the tank at the player,
      then play the shot sound. */
  function Fire(from: Vec, player: Vec): seq<Event>
  {
    [LaunchShell(from, player, ShellSpeed, ShellDamage, ShellTtl, ShellBlast), Play(BossShot)]
  }

  class TankBoss {
    var position: Vec
    var velocity: Vec
    const radius: real
    var health: int
    const maxHealth: int
    const speed: real
    const shellCooldown: real := ShellCooldown
    var shellTimer: real
    var chargeTimer: real
    var charging: bool

    function GunState(): Gun
      reads this
    {
      Gun(shellTimer, chargeTimer, charging)
    }

    constructor (x: real, y: real, maxHealth: int, speed: real)
      ensures position == Vec(x, y) && velocity == Vec(0.0, 0.0) && radius == TankRadius
      ensures health == maxHealth && this.maxHealth == maxHealth && this.speed == speed
      ensures shellCooldown == ShellCooldown && GunState() == Gun(0.0, 0.0, false)
    {
      position := Vec(x, y);
      velocity := Vec(0.0, 0.0);
      radius := TankRadius;
      this.maxHealth := maxHealth;
      health := maxHealth;
      this.speed := speed;
      shellTimer := 0.0;
      chargeTimer := 0.0;
      charging := false;
    }

    /** One frame. A dead tank does nothing. A living one runs its gun
        cycle, fires when the charge completes, and drives toward the player
        only when it is not charging. */
    method Update(deltaTime: real, playerPos: Vec, root: real -> real) returns (events: seq<Event>)
      modifies this
      ensures !Alive(old(health)) ==>
        events == [] && GunState() == old(GunState()) && position == old(position) && velocity == old(velocity)
      ensures Alive(old(health)) ==>
        GunState() == Cycle(old(GunState()), deltaTime).0 &&
        events == (if Cycle(old(GunState()), deltaTime).1 then Fire(old(position), playerPos) else []) &&
        (position, velocity) == if Holds(old(GunState()), deltaTime) then (old(position), old(velocity))
                                else Approach(old(position), old(velocity), playerPos, speed, root)
      ensures health == old(health)
    {
      events := [];
      if !IsAlive() {
        return;
      }
      shellTimer := shellTimer - deltaTime;
      if !charging && shellTimer <= 0.0 {
        charging := true;
        chargeTimer := ChargeTime;
      }
      if charging {
        chargeTimer := chargeTimer - deltaTime;
        if chargeTimer <= 0.0 {
          charging := false;
          shellTimer := shellCooldown;
          events := FireShell(playerPos);
        }
      } else {
        MoveToward(playerPos, root);
      }
    }

    method MoveToward(playerPos: Vec, root: real -> real)
      modifies this
      ensures (position, velocity) == Approach(old(position), old(velocity), playerPos, speed, root)
      ensures GunState() == old(GunState()) && health == old(health)
    {
      var dir := Minus(playerPos, position);
      if DistSq(dir, Vec(0.0, 0.0)) > 1.0 {
        velocity := Scale(Normalize(dir, root), speed);
        position := Plus(position, velocity);
      }
    }

    method FireShell(playerPos: Vec) returns (events: seq<Event>)
      ensures events == Fire(position, playerPos)
    {
      events := [LaunchShell(position, playerPos, ShellSpeed, ShellDamage, ShellTtl, ShellBlast), Play(BossShot)];
    }

    function IsAlive(): (b: bool)
      reads this
    {
      Alive(health)
    }

    /** Lowers health by `damage`, never below zero. */
    method TakeDamage(damage: int)
      modifies this
      ensures health == Damaged(old(health), damage)
      ensures GunState() == old(GunState()) && position == old(position) && velocity == old(velocity)
    {
      health := health - damage;
      if health < 0 {
        health := 0;
      }
    }
  }
}
