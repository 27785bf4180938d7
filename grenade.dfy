/** A thrown grenade: it flies toward its target at speed 6, slowing by 2%
    a frame, and explodes when its 1.2-second fuse burns down or at once when
    it touches an active obstacle. Once exploded it stays exploded. */
module Grenades {
  import opened Geometry
  import opened Obstacles

  const Fuse: real := 1.2
  const GrenadeRadius: real := 6.0
  const ThrowSpeed: real := 6.0
  const Drag: real := 0.98

  /** The state a grenade's `update` changes. */
  datatype Flight = Flight(position: Vec, velocity: Vec, fuseTime: real, exploded: bool)

  /** One `update` on values, given whether the moved grenade touches an
      active obstacle. */
  function Tick(g: Flight, deltaTime: real, touching: bool): (r: Flight)
    ensures g.exploded ==> r == g
    ensures !g.exploded ==> r.position == Plus(g.position, g.velocity) && r.velocity == Scale(g.velocity, Drag)
    ensures !g.exploded ==> r.fuseTime == if touching then 0.0 else g.fuseTime - deltaTime
    ensures !g.exploded ==> (r.exploded <==> touching || g.fuseTime - deltaTime <= 0.0)
  {
    if g.exploded then g
    else
      var fuse := if touching then 0.0 else g.fuseTime - deltaTime;
      Flight(Plus(g.position, g.velocity), Scale(g.velocity, Drag), fuse, fuse <= 0.0)
  }

  /** The flight after one update per entry of `touches`, each `deltaTime`
      long. */
  function Run(g: Flight, deltaTime: real, touches: seq<bool>): Flight
    decreases |touches|
  {
    if touches == [] then g else Run(Tick(g, deltaTime, touches[0]), deltaTime, touches[1..])
  }

  /** Explosion is sticky, and the fuse cannot be outlived: with a positive
      time step, once at least one update has run and the updates have covered the remaining fuse time the
      grenade has exploded, whatever it touched on the way. */
  lemma {:induction false} FuseBurnsDown(g: Flight, deltaTime: real, touches: seq<bool>)
    ensures g.exploded ==> Run(g, deltaTime, touches) == g
    ensures deltaTime > 0.0 && touches != [] && |touches| as real * deltaTime >= g.fuseTime ==>
      Run(g, deltaTime, touches).exploded
    decreases |touches|
  {
    if touches != [] {
      var next := Tick(g, deltaTime, touches[0]);
      FuseBurnsDown(next, deltaTime, touches[1..]);
      var n := |touches| as real;
      assert |touches[1..]| as real == n - 1.0;
      assert (n - 1.0) * deltaTime == n * deltaTime - deltaTime;
      assert Run(g, deltaTime, touches) == Run(next, deltaTime, touches[1..]);
      if deltaTime > 0.0 && n * deltaTime >= g.fuseTime && !next.exploded {
        assert !g.exploded && next.fuseTime == g.fuseTime - deltaTime;
        assert |touches[1..]| as real * deltaTime >= next.fuseTime;
      }
    }
  }

  class Grenade {
    var position: Vec
    var velocity: Vec
    const radius: real
    var fuseTime: real
    var exploded: bool

    function State(): Flight
      reads this
    {
      Flight(position, velocity, fuseTime, exploded)
    }

    /** A new grenade at the start point with a full fuse, thrown toward the
        target. `root` is the square root Vector2D.normalize uses. */
    constructor (startX: real, startY: real, targetX: real, targetY: real, root: real -> real)
      ensures position == Vec(startX, startY) && radius == GrenadeRadius
      ensures fuseTime == Fuse && !exploded
      ensures velocity == Scale(Normalize(Vec(targetX - startX, targetY - startY), root), ThrowSpeed)
    {
      position := Vec(startX, startY);
      radius := GrenadeRadius;
      fuseTime := Fuse;
      exploded := false;
      var direction := Normalize(Vec(targetX - startX, targetY - startY), root);
      velocity := Vec(direction.x * ThrowSpeed, direction.y * ThrowSpeed);
    }

    /** One frame; reports whether the grenade has exploded. */
    method Update(deltaTime: real, obstacles: seq<Obstacle>) returns (done: bool)
      requires forall i :: 0 <= i < |obstacles| ==> obstacles[i].Valid()
      modifies this
      ensures State() == Tick(old(State()), deltaTime,
        !old(exploded) && Touches(obstacles, Plus(old(position), old(velocity)), radius))
      ensures done == exploded
    {
      if exploded {
        return true;
      }
      ghost var before := State();
      var moved := Plus(position, velocity);
      var hit := FirstCollision(obstacles, moved, radius);
      assert hit == Touches(obstacles, Plus(before.position, before.velocity), radius);
      var fuse := if hit then 0.0 else fuseTime - deltaTime;
      position, velocity, fuseTime, exploded := moved, Scale(velocity, Drag), fuse, fuse <= 0.0;
      assert State() == Tick(before, deltaTime, hit);
      return exploded;
    }
  }
}
