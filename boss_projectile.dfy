/** A projectile fired by a boss: a plain bullet, or a shell that explodes
    where it stops. It flies straight, loses time to live each frame, and
    stops on the first active obstacle it touches or when its time runs
    out; only an explosive projectile is ever marked exploded. */
module BossProjectiles {
  import opened Geometry
  import opened Obstacles

  datatype Kind = Bullet | Shell

  const BulletRadius: real := 3.5
  const ShellRadius: real := 6.0

  /** The state a projectile's `update` changes. */
  datatype Flight = Flight(position: Vec, ttl: real, exploded: bool)

  /** One `update` on values: the new flight and the returned flag (the
      projectile is done), given whether the moved projectile touches an
      active obstacle. */
  function Advance(f: Flight, velocity: Vec, explosive: bool, deltaTime: real, touching: bool): (r: (Flight, bool))
    ensures f.exploded ==> r == (f, true)
    ensures !f.exploded ==> r.0.position == Plus(f.position, velocity) && r.0.ttl == f.ttl - deltaTime
    ensures !f.exploded ==> (r.1 <==> touching || f.ttl - deltaTime <= 0.0)
    ensures r.0.exploded <==> f.exploded || (explosive && r.1)
  {
    if f.exploded then (f, true)
    else
      var moved := Flight(Plus(f.position, velocity), f.ttl - deltaTime, false);
      if touching || moved.ttl <= 0.0 then (moved.(exploded := explosive), true)
      else (moved, false)
  }

  /** The flight after a series of updates, with the time step and the
      obstacle contact of each. */
  function Fly(f: Flight, velocity: Vec, explosive: bool, steps: seq<(real, bool)>): Flight
    decreases |steps|
  {
    if steps == [] then f
    else Fly(Advance(f, velocity, explosive, steps[0].0, steps[0].1).0, velocity, explosive, steps[1..])
  }

  /** A projectile that is not explosive never explodes, whatever it hits;
      one that has exploded stays exactly as it is. */
  lemma {:induction false} ExplodesOnlyIfExplosive(f: Flight, velocity: Vec, explosive: bool, steps: seq<(real, bool)>)
    ensures !explosive && !f.exploded ==> !Fly(f, velocity, explosive, steps).exploded
    ensures f.exploded ==> Fly(f, velocity, explosive, steps) == f
    decreases |steps|
  {
    if steps != [] {
      ExplodesOnlyIfExplosive(Advance(f, velocity, explosive, steps[0].0, steps[0].1).0, velocity, explosive, steps[1..]);
    }
  }

  class BossProjectile {
    var position: Vec
    const velocity: Vec
    const radius: real
    const damage: int
    var ttl: real
    const explosive: bool
    const explosionRadius: real
    var exploded: bool
    const kind: Kind

    /** Only an explosive projectile is ever marked exploded. */
    ghost predicate Valid()
      reads this
    {
      exploded ==> explosive
    }

    function State(): Flight
      reads this
    {
      Flight(position, ttl, exploded)
    }

    /** The private constructor the two factories share; `direction` is the
        already normalised aim. */
    constructor (kind: Kind, startX: real, startY: real, direction: Vec, speed: real, radius: real,
                 damage: int, ttl: real, explosive: bool, explosionRadius: real)
      ensures Valid() && State() == Flight(Vec(startX, startY), ttl, false)
      ensures this.kind == kind && velocity == Scale(direction, speed) && this.radius == radius
      ensures this.damage == damage && this.explosive == explosive && this.explosionRadius == explosionRadius
    {
      this.kind := kind;
      position := Vec(startX, startY);
      velocity := Vec(direction.x * speed, direction.y * speed);
      this.radius := radius;
      this.damage := damage;
      this.ttl := ttl;
      this.explosive := explosive;
      this.explosionRadius := explosionRadius;
      exploded := false;
    }

    /** A small, harmless-on-impact bullet: kind BULLET, radius 3.5, not
        explosive, explosion radius 0. */
    static method CreateBullet(startX: real, startY: real, targetX: real, targetY: real,
                               speed: real, damage: int, ttl: real, root: real -> real) returns (p: BossProjectile)
      ensures fresh(p) && p.Valid() && p.State() == Flight(Vec(startX, startY), ttl, false)
      ensures p.kind == Bullet && p.radius == BulletRadius && !p.explosive && p.explosionRadius == 0.0
      ensures p.velocity == Scale(Normalize(Vec(targetX - startX, targetY - startY), root), speed)
      ensures p.damage == damage
    {
      var dir := Normalize(Vec(targetX - startX, targetY - startY), root);
      p := new BossProjectile(Bullet, startX, startY, dir, speed, BulletRadius, damage, ttl, false, 0.0);
    }

    /** A shell: kind SHELL, radius 6, explosive with the given radius. */
    static method CreateShell(startX: real, startY: real, targetX: real, targetY: real,
                              speed: real, damage: int, ttl: real, explosionRadius: real,
                              root: real -> real) returns (p: BossProjectile)
      ensures fresh(p) && p.Valid() && p.State() == Flight(Vec(startX, startY), ttl, false)
      ensures p.kind == Shell && p.radius == ShellRadius && p.explosive && p.explosionRadius == explosionRadius
      ensures p.velocity == Scale(Normalize(Vec(targetX - startX, targetY - startY), root), speed)
      ensures p.damage == damage
    {
      var dir := Normalize(Vec(targetX - startX, targetY - startY), root);
      p := new BossProjectile(Shell, startX, startY, dir, speed, ShellRadius, damage, ttl, true, explosionRadius);
    }

    /** One frame. An exploded projectile reports that it is done and
        changes nothing; otherwise it moves, loses `deltaTime` of its time to
        live, and is done when it touches an active obstacle or its time has
        run out, exploding then if it is explosive. */
    method Update(deltaTime: real, obstacles: seq<Obstacle>) returns (done: bool)
      requires Valid()
      requires forall i :: 0 <= i < |obstacles| ==> obstacles[i].Valid()
      modifies this
      ensures Valid()
      ensures (State(), done) == Advance(old(State()), velocity, explosive, deltaTime,
        !old(exploded) && Touches(obstacles, Plus(old(position), velocity), radius))
    {
      if exploded {
        return true;
      }
      position := Vec(position.x + velocity.x, position.y + velocity.y);
      ttl := ttl - deltaTime;
      var hit := FirstCollision(obstacles, position, radius);
      if hit {
        if explosive {
          exploded := true;
        }
        return true;
      }
      if ttl <= 0.0 {
        if explosive {
          exploded := true;
        }
        return true;
      }
      return false;
    }

    /** Whether the game should blow the projectile up now. */
    function ShouldExplode(): (b: bool)
      reads this
      requires Valid()
      ensures b <==> exploded
      ensures b ==> explosive
    {
      exploded && explosive
    }
  }
}
