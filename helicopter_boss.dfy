/** The helicopter boss. It hovers over the top of the field on a sine
    path, firing bursts of bullets at the player, and every 6 seconds dashes
    across the screen from one side to the other, dropping 3 to 5 enemies on
    the way. */
module Helicopters {
  import opened Geometry
  import opened GameEvents
  import opened Bosses

  datatype Mode = Hover | Dash

  const HeliRadius: real := 28.0
  const DashCooldown: real := 6.0
  const DashSpeed: real := 12.0
  const FirstDrop: real := 0.2
  const DropInterval: real := 0.3
  const Offscreen: real := 80.0
  const BurstLength: real := 1.0
  const FireInterval: real := 0.18
  const BurstCooldown: real := 1.6
  const BulletSpeed: real := 8.5
  const BulletDamage: int := 8
  const BulletTtl: real := 2.5

  /** The Math.random() values one update may draw: two for the aim of a
      burst shot, then three for a dash (its direction, its height and the
      number of drops). Each lies in [0, 1). */
  datatype Rolls = Rolls(spreadX: real, spreadY: real, direction: real, height: real, drops: real)

  predicate Unit(v: real)
  {
    0.0 <= v < 1.0
  }

  predicate RollsValid(r: Rolls)
  {
    Unit(r.spreadX) && Unit(r.spreadY) && Unit(r.direction) && Unit(r.height) && Unit(r.drops)
  }

  /** The timers of the burst cycle. */
  datatype Burst = Burst(burstCooldown: real, burstTimer: real, fireTimer: real, bursting: bool)

  /** One step of `updateBurst`: the new timers and whether a shot is fired.
      Idle, the cooldown runs and, once used up, a one-second burst starts
      with its first shot due at once. Bursting, a shot fires whenever the
      fire timer is used up, which rearms it for 0.18 s, and the burst ends
      when its timer is used up, rearming the 1.6 s cooldown. */
  function BurstStep(b: Burst, deltaTime: real): (r: (Burst, bool))
    ensures !b.bursting ==> !r.1
    ensures !b.bursting && b.burstCooldown - deltaTime <= 0.0 ==>
      r.0 == Burst(b.burstCooldown - deltaTime, BurstLength, 0.0, true)
    ensures !b.bursting && b.burstCooldown - deltaTime > 0.0 ==>
      r.0 == b.(burstCooldown := b.burstCooldown - deltaTime)
    ensures b.bursting ==> (r.1 <==> b.fireTimer - deltaTime <= 0.0)
    ensures b.bursting ==> r.0.fireTimer == if r.1 then FireInterval else b.fireTimer - deltaTime
    ensures b.bursting ==> r.0.burstTimer == b.burstTimer - deltaTime
    ensures b.bursting ==> (r.0.bursting <==> b.burstTimer - deltaTime > 0.0)
    ensures b.bursting ==> r.0.burstCooldown == if r.0.bursting then b.burstCooldown else BurstCooldown
  {
    if b.bursting then
      var fire := b.fireTimer - deltaTime;
      var timer := b.burstTimer - deltaTime;
      var ends := timer <= 0.0;
      (Burst(if ends then BurstCooldown else b.burstCooldown, timer,
             if fire <= 0.0 then FireInterval else fire, !ends),
       fire <= 0.0)
    else
      var cooldown := b.burstCooldown - deltaTime;
      if cooldown <= 0.0 then (Burst(cooldown, BurstLength, 0.0, true), false)
      else (b.(burstCooldown := cooldown), false)
  }

  /** A burst always opens with a shot on the update after it starts. */
  lemma BurstOpensWithShot(b: Burst, deltaTime: real, next: real)
    requires !b.bursting && BurstStep(b, deltaTime).0.bursting && next >= 0.0
    ensures BurstStep(BurstStep(b, deltaTime).0, next).1
  {
  }

  /** A target at most 15 units off the player sideways and 10 up or down
      (the upper ends excluded, since the rolls stay below 1). */
  predicate NearPlayer(target: Vec, player: Vec)
  {
    player.x - 15.0 <= target.x < player.x + 15.0 && player.y - 10.0 <= target.y < player.y + 10.0
  }

  /** The calls fireAt makes: a bullet aimed near the player (up to 15 units
      off sideways and 10 up or down), then the shot sound. */
  function Shot(from: Vec, player: Vec, rolls: Rolls): (events: seq<Event>)
    ensures |events| == 2 && events[0].LaunchBullet? && events[0].from == from && events[1] == Play(BossShot)
    ensures RollsValid(rolls) ==> NearPlayer(events[0].target, player)
  {
    [LaunchBullet(from, Vec(player.x + (rolls.spreadX - 0.5) * 30.0, player.y + (rolls.spreadY - 0.5) * 20.0),
                  BulletSpeed, BulletDamage, BulletTtl),
     Play(BossShot)]
  }

  /** Everything `update` changes on a living helicopter. */
  datatype Heli = Heli(mode: Mode, position: Vec, hoverTime: real, dashCooldown: real,
                       dashDirection: int, dropTimer: real, dropsLeft: int, burst: Burst)

  /** The helicopter's invariant: it dashes right or left, and has between
      0 and 5 drops left. */
  predicate Consistent(h: Heli)
  {
    (h.dashDirection == 1 || h.dashDirection == -1) && 0 <= h.dropsLeft <= 5
  }

  /** `startDash`: switch to DASH in a random direction, just off the side
      of the screen it starts from, at a random height, with 3 to 5 drops,
      the first due in 0.2 s. */
  function DashStart(h: Heli, worldWidth: real, rolls: Rolls): (r: Heli)
    requires RollsValid(rolls)
    ensures r.mode == Dash && r.dropTimer == FirstDrop && 3 <= r.dropsLeft <= 5
    ensures r.dashDirection == 1 || r.dashDirection == -1
    ensures r.position.x == if r.dashDirection > 0 then -Offscreen else worldWidth + Offscreen
    ensures 70.0 <= r.position.y < 130.0
    ensures r.hoverTime == h.hoverTime && r.dashCooldown == h.dashCooldown && r.burst == h.burst
  {
    var direction := if rolls.direction < 0.5 then 1 else -1;
    var drops := (rolls.drops * 3.0).Floor;
    assert 0 <= drops < 3;
    h.(mode := Dash, dashDirection := direction,
       position := Vec(if direction > 0 then -Offscreen else worldWidth + Offscreen, 70.0 + rolls.height * 60.0),
       dropsLeft := 3 + drops, dropTimer := FirstDrop)
  }

  /** The hovering position at time `t`: swaying about the middle of the
      world across 60% of its width, and bobbing 10 units about height 90. */
  function HoverAt(t: real, worldWidth: real, sin: real -> real): Vec
  {
    Vec(worldWidth / 2.0 + sin(t * 0.6) * (worldWidth * 0.3), 90.0 + sin(t * 1.2) * 10.0)
  }

  /** Whether a dash at `x` has left the screen on the far side. */
  predicate Gone(x: real, direction: int, worldWidth: real)
  {
    (direction > 0 && x > worldWidth + Offscreen) || (direction < 0 && x < -Offscreen)
  }

  /** The HOVER branch of `update`, once the clock reads `h.hoverTime`:
      take the hovering position, run the burst cycle, and start a dash when
      the dash cooldown is used up. */
  function HoverMove(h: Heli, deltaTime: real, player: Vec, worldWidth: real, sin: real -> real, rolls: Rolls): (Heli, seq<Event>)
    requires RollsValid(rolls)
  {
    var at := HoverAt(h.hoverTime, worldWidth, sin);
    var b := BurstStep(h.burst, deltaTime);
    var shots := if b.1 then Shot(at, player, rolls) else [];
    var h1 := h.(position := at, burst := b.0, dashCooldown := h.dashCooldown - deltaTime);
    if h1.dashCooldown <= 0.0 then (DashStart(h1, worldWidth, rolls), shots + [Play(BossDash)])
    else (h1, shots)
  }

  /** The DASH branch of `update`: fly 12 units on, drop an enemy when the
      drop timer is used up and drops are left, and go back to hovering once
      off the far side of the screen. */
  function DashMove(h: Heli, deltaTime: real, worldWidth: real): (Heli, seq<Event>)
  {
    var x := h.position.x + DashSpeed * h.dashDirection as real;
    var timer := h.dropTimer - deltaTime;
    var drops := timer <= 0.0 && h.dropsLeft > 0;
    var h1 := h.(position := Vec(x, h.position.y),
                 dropTimer := if drops then DropInterval else timer,
                 dropsLeft := if drops then h.dropsLeft - 1 else h.dropsLeft);
    var events := if drops then [SpawnEnemy(Vec(x, h.position.y + 30.0)), Play(Drop)] else [];
    if Gone(x, h.dashDirection, worldWidth) then (h1.(mode := Hover, dashCooldown := DashCooldown), events)
    else (h1, events)
  }

  /** One `update` of a living helicopter: the clock advances, then the
      branch of the current mode runs. Returns the new state and the calls
      made into the game. */
  function Step(h: Heli, deltaTime: real, player: Vec, worldWidth: real, sin: real -> real, rolls: Rolls): (Heli, seq<Event>)
    requires RollsValid(rolls)
  {
    var h1 := h.(hoverTime := h.hoverTime + deltaTime);
    match h.mode
    case Hover => HoverMove(h1, deltaTime, player, worldWidth, sin, rolls)
    case Dash => DashMove(h1, deltaTime, worldWidth)
  }

  /** What a hovering update does: the burst cycle runs, nothing is
      dropped, and the dash cooldown runs down, a dash starting (and
      announced once) when it is used up. The invariant is kept. */
  lemma HoverFacts(h: Heli, deltaTime: real, player: Vec, worldWidth: real, sin: real -> real, rolls: Rolls)
    requires RollsValid(rolls) && h.mode == Hover
    ensures var r := Step(h, deltaTime, player, worldWidth, sin, rolls);
      (Consistent(h) ==> Consistent(r.0)) &&
      r.0.hoverTime == h.hoverTime + deltaTime &&
      r.0.burst == BurstStep(h.burst, deltaTime).0 &&
      Spawns(r.1) == 0 &&
      Launches(r.1) == (if BurstStep(h.burst, deltaTime).1 then 1 else 0) &&
      (r.0.mode == Dash <==> h.dashCooldown - deltaTime <= 0.0) &&
      Dashes(r.1) == (if r.0.mode == Dash then 1 else 0)
  {
    var at := HoverAt(h.hoverTime + deltaTime, worldWidth, sin);
    var b := BurstStep(h.burst, deltaTime);
    var shots := if b.1 then Shot(at, player, rolls) else [];
    if b.1 {
      CountsOfPair(shots[0], shots[1]);
      assert shots == [shots[0], shots[1]];
    }
    CountsAdd(shots, [Play(BossDash)]);
  }

  /** What a dashing update does: the burst timers are frozen, nothing is
      fired, at most one enemy is dropped (only when the drop timer is used
      up and drops are left, and then one fewer is left), and the dash ends,
      rearming the 6 s cooldown, once the helicopter has left the screen.
      The invariant is kept. */
  lemma DashFacts(h: Heli, deltaTime: real, player: Vec, worldWidth: real, sin: real -> real, rolls: Rolls)
    requires RollsValid(rolls) && h.mode == Dash
    ensures var r := Step(h, deltaTime, player, worldWidth, sin, rolls);
      (Consistent(h) ==> Consistent(r.0)) &&
      r.0.hoverTime == h.hoverTime + deltaTime &&
      r.0.burst == h.burst && Launches(r.1) == 0 && Dashes(r.1) == 0 &&
      (Spawns(r.1) == 1 <==> h.dropTimer - deltaTime <= 0.0 && h.dropsLeft > 0) &&
      Spawns(r.1) <= 1 && r.0.dropsLeft == h.dropsLeft - Spawns(r.1) &&
      (r.0.mode == Hover <==> Gone(h.position.x + DashSpeed * h.dashDirection as real, h.dashDirection, worldWidth)) &&
      (r.0.mode == Hover ==> r.0.dashCooldown == DashCooldown)
  {
    var x := h.position.x + DashSpeed * h.dashDirection as real;
    CountsOfPair(SpawnEnemy(Vec(x, h.position.y + 30.0)), Play(Drop));
  }

  /** One input to an update: its time step, the player's position and the
      random draws. */
  datatype Input = Input(deltaTime: real, player: Vec, rolls: Rolls)

  /** A series of updates of a living helicopter: the final state and every
      call made, in order. */
  function Run(h: Heli, worldWidth: real, sin: real -> real, inputs: seq<Input>): (Heli, seq<Event>)
    requires forall i :: 0 <= i < |inputs| ==> RollsValid(inputs[i].rolls)
    decreases |inputs|
  {
    if inputs == [] then (h, [])
    else
      var r := Step(h, inputs[0].deltaTime, inputs[0].player, worldWidth, sin, inputs[0].rolls);
      var rest := Run(r.0, worldWidth, sin, inputs[1..]);
      (rest.0, r.1 + rest.1)
  }

  /** Drops are paid for by dashes: over any series of updates, the enemies
      dropped plus the drops still left never exceed the drops left at the
      start plus five per dash started, and the invariant holds throughout. */
  lemma {:induction false} DropsAccounted(h: Heli, worldWidth: real, sin: real -> real, inputs: seq<Input>)
    requires forall i :: 0 <= i < |inputs| ==> RollsValid(inputs[i].rolls)
    requires Consistent(h)
    ensures Consistent(Run(h, worldWidth, sin, inputs).0)
    ensures Spawns(Run(h, worldWidth, sin, inputs).1) + Run(h, worldWidth, sin, inputs).0.dropsLeft <=
      h.dropsLeft + 5 * Dashes(Run(h, worldWidth, sin, inputs).1)
    decreases |inputs|
  {
    if inputs != [] {
      var i := inputs[0];
      var r := Step(h, i.deltaTime, i.player, worldWidth, sin, i.rolls);
      if h.mode == Hover {
        HoverFacts(h, i.deltaTime, i.player, worldWidth, sin, i.rolls);
      } else {
        DashFacts(h, i.deltaTime, i.player, worldWidth, sin, i.rolls);
      }
      DropsAccounted(r.0, worldWidth, sin, inputs[1..]);
      var rest := Run(r.0, worldWidth, sin, inputs[1..]);
      CountsAdd(r.1, rest.1);
      if h.mode == Hover && r.0.mode == Dash {
        assert r.0.dropsLeft <= 5;
      }
    }
  }

  class HelicopterBoss {
    var position: Vec
    const radius: real
    var health: int
    const maxHealth: int
    var mode: Mode
    var hoverTime: real
    var dashCooldown: real
    var dashDirection: int
    const dashSpeed: real := DashSpeed
    var dropTimer: real
    var dropsLeft: int
    var burstCooldown: real
    var burstTimer: real
    var fireTimer: real
    var bursting: bool

    function Snapshot(): Heli
      reads this
    {
      Heli(mode, position, hoverTime, dashCooldown, dashDirection, dropTimer, dropsLeft,
           Burst(burstCooldown, burstTimer, fireTimer, bursting))
    }

    /** A new helicopter hovers with full health, a 6 s dash cooldown, no
        drops pending and a 1.6 s burst cooldown. */
    constructor (x: real, y: real, maxHealth: int)
      ensures Consistent(Snapshot()) && radius == HeliRadius
      ensures health == maxHealth && this.maxHealth == maxHealth
      ensures Snapshot() == Heli(Hover, Vec(x, y), 0.0, DashCooldown, 1, 0.0, 0, Burst(BurstCooldown, 0.0, 0.0, false))
    {
      position := Vec(x, y);
      radius := HeliRadius;
      this.maxHealth := maxHealth;
      health := maxHealth;
      mode := Hover;
      hoverTime := 0.0;
      dashCooldown := DashCooldown;
      dashDirection := 1;
      dropTimer := 0.0;
      dropsLeft := 0;
      burstCooldown := BurstCooldown;
      burstTimer := 0.0;
      fireTimer := 0.0;
      bursting := false;
    }

    /** One frame. A dead helicopter does nothing; a living one takes one
        step of its state machine. `worldWidth`, `sin` and `rolls` stand for
        the game's world width, Math.sin and the Math.random() draws. */
    method Update(deltaTime: real, playerPos: Vec, worldWidth: real, sin: real -> real, rolls: Rolls)
      returns (events: seq<Event>)
      requires RollsValid(rolls)
      modifies this
      ensures !Alive(old(health)) ==> events == [] && Snapshot() == old(Snapshot())
      ensures Alive(old(health)) ==>
        (Snapshot(), events) == Step(old(Snapshot()), deltaTime, playerPos, worldWidth, sin, rolls)
      ensures health == old(health)
    {
      events := [];
      if !Alive(health) {
        return;
      }
      hoverTime := hoverTime + deltaTime;
      if mode == Hover {
        events := HoverStep(deltaTime, playerPos, worldWidth, sin, rolls);
      } else {
        events := DashStep(deltaTime, worldWidth);
      }
    }

    /** The HOVER branch of `update`, after the clock has advanced. */
    method HoverStep(deltaTime: real, playerPos: Vec, worldWidth: real, sin: real -> real, rolls: Rolls)
      returns (events: seq<Event>)
      requires RollsValid(rolls) && mode == Hover
      modifies this
      ensures (Snapshot(), events) == HoverMove(old(Snapshot()), deltaTime, playerPos, worldWidth, sin, rolls)
      ensures health == old(health)
    {
      ghost var h := Snapshot();
      ghost var b := BurstStep(h.burst, deltaTime);
      position := HoverAt(hoverTime, worldWidth, sin);
      events := UpdateBurst(deltaTime, playerPos, rolls);
      dashCooldown := dashCooldown - deltaTime;
      assert Snapshot() == h.(position := position, burst := b.0, dashCooldown := h.dashCooldown - deltaTime);
      if dashCooldown <= 0.0 {
        var dash := StartDash(worldWidth, rolls);
        events := events + dash;
      }
    }

    /** The DASH branch of `update`, after the clock has advanced. */
    method DashStep(deltaTime: real, worldWidth: real) returns (events: seq<Event>)
      requires mode == Dash
      modifies this
      ensures (Snapshot(), events) == DashMove(old(Snapshot()), deltaTime, worldWidth)
      ensures health == old(health)
    {
      events := [];
      position := Vec(position.x + dashSpeed * dashDirection as real, position.y);
      dropTimer := dropTimer - deltaTime;
      if dropTimer <= 0.0 && dropsLeft > 0 {
        dropTimer := DropInterval;
        dropsLeft := dropsLeft - 1;
        events := [SpawnEnemy(Vec(position.x, position.y + 30.0)), Play(Drop)];
      }
      if (dashDirection > 0 && position.x > worldWidth + Offscreen) ||
         (dashDirection < 0 && position.x < -Offscreen) {
        mode := Hover;
        dashCooldown := DashCooldown;
      }
    }

    /** `updateBurst`: one step of the burst cycle, firing at the player
        when a shot is due. */
    method UpdateBurst(deltaTime: real, playerPos: Vec, rolls: Rolls) returns (events: seq<Event>)
      requires RollsValid(rolls)
      modifies this
      ensures Snapshot().burst == BurstStep(old(Snapshot()).burst, deltaTime).0
      ensures events == if BurstStep(old(Snapshot()).burst, deltaTime).1 then Shot(position, playerPos, rolls) else []
      ensures Snapshot() == old(Snapshot()).(burst := Snapshot().burst)
      ensures health == old(health)
    {
      events := [];
      if bursting {
        fireTimer := fireTimer - deltaTime;
        if fireTimer <= 0.0 {
          fireTimer := FireInterval;
          events := FireAt(playerPos, rolls);
        }
        burstTimer := burstTimer - deltaTime;
        if burstTimer <= 0.0 {
          bursting := false;
          burstCooldown := BurstCooldown;
        }
      } else {
        burstCooldown := burstCooldown - deltaTime;
        if burstCooldown <= 0.0 {
          bursting := true;
          burstTimer := BurstLength;
          fireTimer := 0.0;
        }
      }
    }

    /** `fireAt`: a bullet aimed near the player, and the shot sound. */
    method FireAt(playerPos: Vec, rolls: Rolls) returns (events: seq<Event>)
      requires RollsValid(rolls)
      ensures events == Shot(position, playerPos, rolls)
      ensures events[0].LaunchBullet? && NearPlayer(events[0].target, playerPos)
    {
      var targetX := playerPos.x + (rolls.spreadX - 0.5) * 30.0;
      var targetY := playerPos.y + (rolls.spreadY - 0.5) * 20.0;
      events := [LaunchBullet(position, Vec(targetX, targetY), BulletSpeed, BulletDamage, BulletTtl), Play(BossShot)];
    }

    /** Switches to DASH as `DashStart` says and plays the dash sound. */
    method StartDash(worldWidth: real, rolls: Rolls) returns (events: seq<Event>)
      requires RollsValid(rolls)
      modifies this
      ensures Snapshot() == DashStart(old(Snapshot()), worldWidth, rolls)
      ensures events == [Play(BossDash)]
      ensures health == old(health)
    {
      mode := Dash;
      dashDirection := if rolls.direction < 0.5 then 1 else -1;
      position := Vec(if dashDirection > 0 then -Offscreen else worldWidth + Offscreen, 70.0 + rolls.height * 60.0);
      dropsLeft := 3 + (rolls.drops * 3.0).Floor;
      dropTimer := FirstDrop;
      events := [Play(BossDash)];
    }

    function IsAlive(): (b: bool)
      reads this
    {
      Alive(health)
    }

    /** Lowers health by `damage`, never below zero. */
    method TakeDamage(damage: int)
      modifies this
      ensures health == Damaged(old(health), damage)
      ensures Snapshot() == old(Snapshot())
    {
      health := health - damage;
      if health < 0 {
        health := 0;
      }
    }
  }
}
