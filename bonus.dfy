/** A pickup dropped on the field. Its kind (health or a new soldier) and
    colour are fixed when it appears; while active it drifts, slowing down
    and bobbing; the first player that touches it collects it. */
module Bonuses {
  import opened Geometry
  import Contact

  datatype BonusType = Health | NewSoldier

  const BonusRadius: real := 8.0
  const HealthShare: real := 0.3
  const Drag: real := 0.98
  const Bob: real := 0.1
  const Green: Color := Color(0, 255, 100)
  const Yellow: Color := Color(255, 200, 0)

  /** The kind a bonus gets from the Math.random() value `roll`: health with
      chance 0.3, a new soldier otherwise. */
  function TypeFor(roll: real): (t: BonusType)
    ensures t == Health <==> roll < HealthShare
  {
    if roll < HealthShare then Health else NewSoldier
  }

  /** The colour of each kind: green for health, yellow for a new soldier. */
  function ColorOf(t: BonusType): (c: Color)
    ensures c == Green <==> t == Health
    ensures c == Yellow <==> t == NewSoldier
  {
    match t
    case Health => Green
    case NewSoldier => Yellow
  }

  /** The moving part of a bonus. */
  datatype Drift = Drift(position: Vec, velocity: Vec, floatOffset: real)

  /** One frame of drifting for an active bonus: move by the velocity, slow
      down by 2%, advance the bobbing phase by 0.1 and bob by half its sine. */
  function Float(d: Drift, sin: real -> real): Drift
  {
    var offset := d.floatOffset + Bob;
    Drift(Vec(d.position.x + d.velocity.x, d.position.y + d.velocity.y + sin(offset) * 0.5),
          Scale(d.velocity, Drag), offset)
  }

  function Power(k: real, n: nat): real
  {
    if n == 0 then 1.0 else k * Power(k, n - 1)
  }

  /** `n` frames of drifting. */
  function DriftFor(d: Drift, sin: real -> real, n: nat): Drift
    decreases n
  {
    if n == 0 then d else DriftFor(Float(d, sin), sin, n - 1)
  }

  /** Over `n` frames the velocity decays geometrically by the drag and the
      bobbing phase advances by 0.1 a frame. */
  lemma {:induction false} DriftDecays(d: Drift, sin: real -> real, n: nat)
    ensures DriftFor(d, sin, n).velocity == Scale(d.velocity, Power(Drag, n))
    ensures DriftFor(d, sin, n).floatOffset == d.floatOffset + Bob * n as real
    decreases n
  {
    if n > 0 {
      DriftDecays(Float(d, sin), sin, n - 1);
      var k := Power(Drag, n - 1);
      assert d.velocity.x * Drag * k == d.velocity.x * (Drag * k);
      assert d.velocity.y * Drag * k == d.velocity.y * (Drag * k);
    }
  }

  class Bonus {
    var position: Vec
    var velocity: Vec
    const radius: real
    const bonusType: BonusType
    const color: Color
    var isActive: bool
    var floatOffset: real

    function Motion(): Drift
      reads this
    {
      Drift(position, velocity, floatOffset)
    }

    /** A new active bonus. `typeRoll`, `vxRoll` and `vyRoll` are the three
        Math.random() values the source draws, in order. */
    constructor (x: real, y: real, typeRoll: real, vxRoll: real, vyRoll: real)
      requires 0.0 <= typeRoll < 1.0 && 0.0 <= vxRoll < 1.0 && 0.0 <= vyRoll < 1.0
      ensures position == Vec(x, y) && radius == BonusRadius
      ensures bonusType == TypeFor(typeRoll) && color == ColorOf(bonusType)
      ensures velocity == Vec((vxRoll - 0.5) * 3.0, (vyRoll - 0.5) * 3.0)
      ensures isActive && floatOffset == 0.0
    {
      position := Vec(x, y);
      radius := BonusRadius;
      if typeRoll < HealthShare {
        bonusType := Health;
        color := Green;
      } else {
        bonusType := NewSoldier;
        color := Yellow;
      }
      velocity := Vec((vxRoll - 0.5) * 3.0, (vyRoll - 0.5) * 3.0);
      isActive := true;
      floatOffset := 0.0;
    }

    /** One frame: an inactive bonus stays put; an active one drifts. */
    method Update(sin: real -> real)
      modifies this
      ensures Motion() == if old(isActive) then Float(old(Motion()), sin) else old(Motion())
      ensures isActive == old(isActive)
    {
      if !isActive {
        return;
      }
      position := Vec(position.x + velocity.x, position.y + velocity.y);
      velocity := Vec(velocity.x * Drag, velocity.y * Drag);
      floatOffset := floatOffset + Bob;
      position := Vec(position.x, position.y + sin(floatOffset) * 0.5);
    }

    /** Collected when active and overlapping the player's circle, which
        deactivates it; otherwise nothing changes. */
    method CheckCollision(playerPos: Vec, playerRadius: real) returns (hit: bool)
      modifies this
      ensures Contact.Outcome(hit, isActive) ==
        Contact.Check(old(isActive), Overlap(position, radius, playerPos, playerRadius))
      ensures Motion() == old(Motion())
    {
      if !isActive {
        return false;
      }
      if Overlap(position, radius, playerPos, playerRadius) {
        isActive := false;
        return true;
      }
      return false;
    }
  }
}
