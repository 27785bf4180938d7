/** What the bosses ask of the running game. The game object they call
    (`addBossProjectile`, `spawnEnemyAt`, the sound effects) is outside this
    model, so each call is recorded as an event, in call order. */
module GameEvents {
  import opened Geometry

  datatype Sound = BossShot | Drop | BossDash

  datatype Event =
    | LaunchBullet(from: Vec, target: Vec, speed: real, damage: int, ttl: real)
    | LaunchShell(from: Vec, target: Vec, speed: real, damage: int, ttl: real, explosionRadius: real)
    | SpawnEnemy(at: Vec)
    | Play(sound: Sound)

  /** How many enemies a list of events spawns. */
  function Spawns(events: seq<Event>): nat
  {
    if events == [] then 0
    else (if events[0].SpawnEnemy? then 1 else 0) + Spawns(events[1..])
  }

  /** How many projectiles a list of events launches. */
  function Launches(events: seq<Event>): nat
  {
    if events == [] then 0
    else (if events[0].LaunchBullet? || events[0].LaunchShell? then 1 else 0) + Launches(events[1..])
  }

  /** How many dashes a list of events announces (each dash plays its sound once). */
  function Dashes(events: seq<Event>): nat
  {
    if events == [] then 0
    else (if events[0] == Play(BossDash) then 1 else 0) + Dashes(events[1..])
  }

  /** The counts of a two-event list. */
  lemma CountsOfPair(a: Event, b: Event)
    ensures Spawns([a, b]) == (if a.SpawnEnemy? then 1 else 0) + (if b.SpawnEnemy? then 1 else 0)
    ensures Launches([a, b]) == (if a.LaunchBullet? || a.LaunchShell? then 1 else 0) +
                                (if b.LaunchBullet? || b.LaunchShell? then 1 else 0)
    ensures Dashes([a, b]) == (if a == Play(BossDash) then 1 else 0) + (if b == Play(BossDash) then 1 else 0)
  {
    assert [a, b][1..] == [b];
    assert [b][1..] == [];
    assert Spawns([b]) == (if b.SpawnEnemy? then 1 else 0) + Spawns([]);
    assert Launches([b]) == (if b.LaunchBullet? || b.LaunchShell? then 1 else 0) + Launches([]);
    assert Dashes([b]) == (if b == Play(BossDash) then 1 else 0) + Dashes([]);
  }

  /** The counts add up over consecutive stretches of events. */
  lemma {:induction false} CountsAdd(a: seq<Event>, b: seq<Event>)
    ensures Spawns(a + b) == Spawns(a) + Spawns(b)
    ensures Launches(a + b) == Launches(a) + Launches(b)
    ensures Dashes(a + b) == Dashes(a) + Dashes(b)
  {
    if a != [] {
      assert (a + b)[1..] == a[1..] + b;
      CountsAdd(a[1..], b);
    } else {
      assert a + b == b;
    }
  }
}
