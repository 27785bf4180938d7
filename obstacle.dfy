/** A destructible 40x40 box. Its centre never moves; damage lowers its health
    and a box whose health reaches zero becomes inactive for good. */
module Obstacles {
  import opened Geometry

  const BoxSize: real := 40.0
  const BoxHealth: int := 100

  class Obstacle {
    const position: Vec
    const width: real
    const height: real
    var health: int
    const maxHealth: int
    var isActive: bool

    /** The state every obstacle keeps: positive extents, and an obstacle
        whose health is used up is no longer active. */
    ghost predicate Valid()
      reads this
    {
      width > 0.0 && height > 0.0 && (health <= 0 ==> !isActive)
    }

    constructor (x: real, y: real)
      ensures Valid()
      ensures position == Vec(x, y)
      ensures width == BoxSize && height == BoxSize
      ensures health == BoxHealth && maxHealth == BoxHealth && isActive
    {
      position := Vec(x, y);
      width, height := BoxSize, BoxSize;
      health, maxHealth := BoxHealth, BoxHealth;
      isActive := true;
    }

    /** Lowers health by exactly `damage`; reaching zero or below deactivates
        the obstacle, and nothing ever reactivates it. */
    method TakeDamage(damage: int)
      requires Valid()
      modifies this
      ensures Valid()
      ensures health == old(health) - damage
      ensures isActive <==> old(isActive) && health > 0
    {
      health := health - damage;
      if health <= 0 {
        isActive := false;
      }
    }

    /** Left, right, top and bottom edges of the box around its centre. */
    function Left(): real { position.x - width / 2.0 }
    function Right(): real { position.x + width / 2.0 }
    function Top(): real { position.y - height / 2.0 }
    function Bottom(): real { position.y + height / 2.0 }

    predicate Contains(p: Vec)
    {
      Left() <= p.x <= Right() && Top() <= p.y <= Bottom()
    }

    /** The point of the box nearest to `p`, found by clamping each coordinate. */
    function ClosestPoint(p: Vec): (q: Vec)
      requires width >= 0.0 && height >= 0.0
      ensures Contains(q)
      ensures Contains(p) ==> q == p
    {
      Vec(Clamp(p.x, Left(), Right()), Clamp(p.y, Top(), Bottom()))
    }

    /** Whether a circle overlaps the box; an inactive box collides with nothing.
        The source compares the root of the squared distance with the radius;
        that comparison is stated here on squares, which is exact for reals. */
    function CollidesWithCircle(circleX: real, circleY: real, radius: real): (hit: bool)
      reads this
      requires Valid()
      ensures !isActive ==> !hit
      ensures hit ==> radius > 0.0
      ensures isActive && radius > 0.0 && Contains(Vec(circleX, circleY)) ==> hit
    {
      if !isActive then false
      else
        var centre := Vec(circleX, circleY);
        var nearest := ClosestPoint(centre);
        assert Contains(centre) ==> DistSq(centre, nearest) == 0.0;
        assert radius > 0.0 ==> 0.0 < radius * radius;
        RootBelow(DistSq(centre, nearest), radius)
    }
  }

  /** No point of the box is nearer to the circle's centre than the clamped one,
      so the collision test does measure the circle's distance to the box. */
  lemma {:induction false} ClosestPointIsNearest(o: Obstacle, p: Vec, q: Vec)
    requires o.Valid() && o.Contains(q)
    ensures DistSq(p, o.ClosestPoint(p)) <= DistSq(p, q)
  {
    var c := o.ClosestPoint(p);
    ClampIsNearest(p.x, o.Left(), o.Right(), q.x);
    ClampIsNearest(p.y, o.Top(), o.Bottom(), q.y);
    assert (c.x - p.x) * (c.x - p.x) == (p.x - c.x) * (p.x - c.x);
    assert (c.y - p.y) * (c.y - p.y) == (p.y - c.y) * (p.y - c.y);
    assert (q.x - p.x) * (q.x - p.x) == (p.x - q.x) * (p.x - q.x);
    assert (q.y - p.y) * (q.y - p.y) == (p.y - q.y) * (p.y - q.y);
  }

  /** Whether some active obstacle of the list overlaps the circle. */
  predicate Touches(obstacles: seq<Obstacle>, centre: Vec, radius: real)
    reads obstacles
    requires forall i :: 0 <= i < |obstacles| ==> obstacles[i].Valid()
  {
    exists i :: 0 <= i < |obstacles| && obstacles[i].isActive && obstacles[i].CollidesWithCircle(centre.x, centre.y, radius)
  }

  /** The obstacle scan of a moving shell or grenade: skip inactive
      obstacles and stop at the first one the circle overlaps. */
  method FirstCollision(obstacles: seq<Obstacle>, centre: Vec, radius: real) returns (hit: bool)
    requires forall i :: 0 <= i < |obstacles| ==> obstacles[i].Valid()
    ensures hit <==> Touches(obstacles, centre, radius)
  {
    hit := false;
    var i := 0;
    while i < |obstacles| && !hit
      invariant 0 <= i <= |obstacles|
      invariant hit ==> Touches(obstacles, centre, radius)
      invariant !hit ==> forall j :: 0 <= j < i ==>
        !(obstacles[j].isActive && obstacles[j].CollidesWithCircle(centre.x, centre.y, radius))
      decreases |obstacles| - i, !hit
    {
      var obstacle := obstacles[i];
      if obstacle.isActive && obstacle.CollidesWithCircle(centre.x, centre.y, radius) {
        hit := true;
      } else {
        i := i + 1;
      }
    }
  }
}
