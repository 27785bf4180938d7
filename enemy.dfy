/** A chasing enemy. It steers toward a target each frame while alive;
    damage lowers its integer health, and the hit that takes health to zero
    or below kills it for good. */
module Enemies {
  import opened Geometry

  const EnemyHealth: int := 100
  const EnemyRadius: real := 15.0
  const EnemyColor: Color := Color(200, 50, 50)
  /** The share of the gap to the desired velocity closed each frame. */
  const Steering: real := 0.05

  /** The health fields `takeDamage` works on. */
  datatype Vitals = Vitals(health: int, alive: bool)

  /** The invariant of those fields: a living enemy has health left. */
  predicate Sound(v: Vitals)
  {
    v.alive ==> v.health > 0
  }

  /** `takeDamage(damage)` on values: the new vitals and whether the call
      reports a kill. */
  function Damage(v: Vitals, damage: int): (r: (Vitals, bool))
    ensures r.0.health == v.health - damage
    ensures r.1 <==> r.0.health <= 0
    ensures r.0.alive <==> v.alive && !r.1
    ensures Sound(v) ==> Sound(r.0)
  {
    var health := v.health - damage;
    if health <= 0 then (Vitals(health, false), true) else (Vitals(health, v.alive), false)
  }

  function Sum(damages: seq<int>): int
  {
    if damages == [] then 0 else damages[0] + Sum(damages[1..])
  }

  /** The vitals after a series of hits. */
  function AfterHits(v: Vitals, damages: seq<int>): Vitals
    decreases |damages|
  {
    if damages == [] then v else AfterHits(Damage(v, damages[0]).0, damages[1..])
  }

  /** Health starting at `health` stays positive through every partial total
      of `damages`. */
  predicate Survives(health: int, damages: seq<int>)
  {
    forall k :: 0 < k <= |damages| ==> health - Sum(damages[..k]) > 0
  }

  lemma SumPrefix(damages: seq<int>, k: nat)
    requires 0 < k <= |damages|
    ensures Sum(damages[..k]) == damages[0] + Sum(damages[1..][..k - 1])
  {
    assert damages[..k][1..] == damages[1..][..k - 1];
  }

  /** Surviving a series of hits is surviving the first and then the rest. */
  lemma SurvivesStep(health: int, damages: seq<int>)
    requires damages != []
    ensures Survives(health, damages) <==>
      health - damages[0] > 0 && Survives(health - damages[0], damages[1..])
  {
    var rest := damages[1..];
    SumPrefix(damages, 1);
    assert health - Sum(damages[..1]) == health - damages[0];
    forall k | 0 < k <= |rest|
      ensures health - Sum(damages[..k + 1]) == health - damages[0] - Sum(rest[..k])
    {
      SumPrefix(damages, k + 1);
    }
    if Survives(health - damages[0], rest) && health - damages[0] > 0 {
      forall k | 0 < k <= |damages|
        ensures health - Sum(damages[..k]) > 0
      {
        if k > 1 {
          assert health - Sum(damages[..(k - 1) + 1]) == health - damages[0] - Sum(rest[..k - 1]);
        }
      }
    }
  }

  /** After a series of hits, health is down by their total, and the enemy
      is alive exactly when it was alive before and no partial total of the
      hits brought its health to zero or below. */
  lemma {:induction false} HitsAccumulate(v: Vitals, damages: seq<int>)
    ensures AfterHits(v, damages).health == v.health - Sum(damages)
    ensures AfterHits(v, damages).alive <==> v.alive && Survives(v.health, damages)
    decreases |damages|
  {
    if damages != [] {
      HitsAccumulate(Damage(v, damages[0]).0, damages[1..]);
      SurvivesStep(v.health, damages);
    }
  }

  /** A dead enemy stays dead, and with non-negative damage every further
      hit reports a kill again. */
  lemma DeadStaysDead(v: Vitals, damage: int)
    requires !v.alive && v.health <= 0 && damage >= 0
    ensures !Damage(v, damage).0.alive && Damage(v, damage).1
  {
  }

  /** The velocity after one frame of steering: it closes 5% of the gap to
      `speed` along `direction`. */
  function Steer(velocity: Vec, direction: Vec, speed: real): Vec
  {
    Plus(velocity, Scale(Minus(Scale(direction, speed), velocity), Steering))
  }

  /** Steering shrinks the gap between the velocity and the desired one to
      95% of what it was. */
  lemma SteerClosesGap(velocity: Vec, direction: Vec, speed: real)
    ensures Minus(Steer(velocity, direction, speed), Scale(direction, speed)) ==
      Scale(Minus(velocity, Scale(direction, speed)), 1.0 - Steering)
  {
  }

  class Enemy {
    var position: Vec
    var velocity: Vec
    const radius: real
    const color: Color
    var health: int
    var isAlive: bool
    const speed: real

    function Condition(): Vitals
      reads this
    {
      Vitals(health, isAlive)
    }

    ghost predicate Valid()
      reads this
    {
      Sound(Condition())
    }

    /** A new enemy: full health, alive, heading for `target` at its speed.
        `random` is the value of Math.random() and `root` the square root. */
    constructor (x: real, y: real, target: Vec, random: real, root: real -> real)
      requires 0.0 <= random < 1.0
      ensures Valid()
      ensures position == Vec(x, y) && radius == EnemyRadius && color == EnemyColor
      ensures health == EnemyHealth && isAlive
      ensures speed == 1.0 + random * 2.0 && 1.0 <= speed < 3.0
      ensures velocity == Scale(Normalize(Vec(target.x - x, target.y - y), root), speed)
    {
      position := Vec(x, y);
      color := EnemyColor;
      radius := EnemyRadius;
      health := EnemyHealth;
      isAlive := true;
      speed := 1.0 + random * 2.0;
      velocity := Scale(Normalize(Vec(target.x - x, target.y - y), root), 1.0 + random * 2.0);
    }

    /** One frame: a dead enemy does nothing; a living one steers toward the
        target and moves by its new velocity. Health never changes here. */
    method Update(deltaTime: real, target: Vec, root: real -> real)
      modifies this
      ensures !old(isAlive) ==> position == old(position) && velocity == old(velocity)
      ensures old(isAlive) ==>
        velocity == Steer(old(velocity), Normalize(Minus(target, old(position)), root), speed) &&
        position == Plus(old(position), velocity)
      ensures health == old(health) && isAlive == old(isAlive)
    {
      if !isAlive {
        return;
      }
      var direction := Normalize(Minus(target, position), root);
      velocity := Steer(velocity, direction, speed);
      position := Plus(position, velocity);
    }

    /** Lowers health by `damage`; reports (and records) a kill when health
        is zero or below afterwards. */
    method TakeDamage(damage: int) returns (killed: bool)
      modifies this
      ensures (Condition(), killed) == Damage(old(Condition()), damage)
      ensures old(Valid()) ==> Valid()
      ensures position == old(position) && velocity == old(velocity)
    {
      health := health - damage;
      if health <= 0 {
        isAlive := false;
        return true;
      }
      return false;
    }
  }
}
