/** A player bullet: it flies in a straight line at speed 10 toward the
    point it was aimed at, deals a fixed 25 damage, and hits at most one
    enemy. */
module Bullets {
  import opened Geometry
  import Contact
  import Enemies

  const BulletDamage: int := 25
  const BulletRadius: real := 4.0
  const BulletSpeed: real := 10.0

  class Bullet {
    var position: Vec
    const velocity: Vec
    const radius: real
    const color: Color
    const damage: int := BulletDamage
    var isActive: bool

    /** A new active bullet at the start point, moving toward the target.
        `root` is the square root Vector2D.normalize uses. */
    constructor (startX: real, startY: real, targetX: real, targetY: real, color: Color, root: real -> real)
      ensures position == Vec(startX, startY) && this.color == color
      ensures velocity == Scale(Normalize(Vec(targetX - startX, targetY - startY), root), BulletSpeed)
      ensures radius == BulletRadius && damage == BulletDamage && isActive
    {
      position := Vec(startX, startY);
      this.color := color;
      velocity := Scale(Normalize(Vec(targetX - startX, targetY - startY), root), BulletSpeed);
      radius := BulletRadius;
      isActive := true;
    }

    /** Moves by the velocity, whether or not the bullet is still active. */
    method Update()
      modifies this
      ensures position == Plus(old(position), velocity)
      ensures isActive == old(isActive)
    {
      position := Vec(position.x + velocity.x, position.y + velocity.y);
    }

    /** Reports a hit when the bullet is active and overlaps the enemy, and
        then deactivates; otherwise nothing changes. */
    method CheckCollision(enemy: Enemies.Enemy) returns (hit: bool)
      modifies this
      ensures Contact.Outcome(hit, isActive) ==
        Contact.Check(old(isActive), Overlap(position, radius, enemy.position, enemy.radius))
      ensures position == old(position)
    {
      if !isActive {
        return false;
      }
      if Overlap(position, radius, enemy.position, enemy.radius) {
        isActive := false;
        return true;
      }
      return false;
    }

    /** The damage every bullet deals. */
    function GetDamage(): (d: int)
      ensures d == 25
    {
      damage
    }
  }
}
