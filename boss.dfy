/** What every boss shares: integer health that damage lowers but never
    below zero, and being alive exactly while health is positive. */
module Bosses {

  /** Health after `takeDamage(damage)`: lowered by the damage, with
      anything below zero raised back to zero. */
  function Damaged(health: int, damage: int): (h: int)
    ensures h >= 0
    ensures health - damage >= 0 ==> h == health - damage
    ensures health - damage < 0 ==> h == 0
  {
    var lowered := health - damage;
    if lowered < 0 then 0 else lowered
  }

  /** `isAlive`. */
  predicate Alive(health: int)
  {
    health > 0
  }

  function Sum(damages: seq<int>): int
  {
    if damages == [] then 0 else damages[0] + Sum(damages[1..])
  }

  /** Health after a series of hits. */
  function AfterHits(health: int, damages: seq<int>): int
    decreases |damages|
  {
    if damages == [] then health else AfterHits(Damaged(health, damages[0]), damages[1..])
  }

  /** Under non-negative damage the clamp is never needed until health is
      gone: health ends at the starting health less the total, or at zero,
      whichever is larger; a boss brought to zero stays dead. */
  lemma {:induction false} HitsAccumulate(health: int, damages: seq<int>)
    requires health >= 0
    requires forall i :: 0 <= i < |damages| ==> damages[i] >= 0
    ensures AfterHits(health, damages) == if health - Sum(damages) >= 0 then health - Sum(damages) else 0
    ensures !Alive(health) ==> !Alive(AfterHits(health, damages))
    decreases |damages|
  {
    if damages != [] {
      HitsAccumulate(Damaged(health, damages[0]), damages[1..]);
      SumNonNegative(damages[1..]);
    }
  }

  lemma {:induction false} SumNonNegative(damages: seq<int>)
    requires forall i :: 0 <= i < |damages| ==> damages[i] >= 0
    ensures Sum(damages) >= 0
    decreases |damages|
  {
    if damages != [] {
      SumNonNegative(damages[1..]);
    }
  }
}
