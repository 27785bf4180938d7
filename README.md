# JavaShooter core, modelled in Dafny

JavaShooter is a top-down shooter. The player leads a squad of soldiers
against chasing enemies and two bosses: a tank that charges and fires
explosive shells, and a helicopter that fires bursts and drops enemies
during its dashes. This project models three parts of the game and proves
properties of each.

**Navigation layer.**
- `Grid`: a rows × cols array of cells with bounds-checked lookup by grid
  position and by world position.
- Obstacle marking on the single cell under an obstacle's centre.
- Eight-way neighbour listing.
- `GridCell`: identity by (row, col).
- `Pathfinder`: A* with an open list, a closed set, parent pointers and a
  path retrace.

**Sound byte buffers.**
- `SoundManager.concat` and `SoundManager.mix`.
- The 16-bit little-endian sample packing used by the tone and noise
  generators.

**Entity state machines.**
- Obstacles, enemies, player bullets, bonuses, boss projectiles and grenades.
- The tank boss's charge-and-fire cycle.
- The helicopter boss's hover/dash machine and its burst cycle.
- The squad's soldier list.

Each module follows one source file, except three shared ones:
- `Geometry` holds vectors, colours and Java's numeric conversions.
- `Contact` holds the one-shot collision test that bullets and bonuses share.
- `Bosses` holds the damage clamp both bosses share.

A fourth, `GameEvents`, records the calls the bosses make into the game.

Objects the source updates in place are Dafny classes with the same fields.
Their methods are proved against pure step functions on value snapshots
(`Enemy.Condition()`, `Grenade.State()`, `TankBoss.GunState()`,
`HelicopterBoss.Snapshot()`, ...). Lemmas about those functions state what
holds over whole runs of updates. The pathfinder and the grid work on heap
cells, as the source does. The search's bookkeeping is related to the heap
through ghost snapshots:
- the set of walkable cells;
- the obstacle map;
- the parent map.

## Model

| member | source | states |
|---|---|---|
| Geometry.Trunc | src/Grid.java:26-27 | Java's `(int)` cast rounds toward zero: the result is within one of the value, on the value's side of zero |
| Geometry.Ceil | src/Grid.java:10-11 | `(int) Math.ceil`: the least integer not below the value, non-negative for non-negative input |
| Geometry.Clamp | src/Obstacle.java:264-265 | the clamped value lies in [lo, hi], equals the value inside it and the nearer end outside it |
| Geometry.ClampIsNearest | src/Obstacle.java:264-265 | the clamped value is the point of [lo, hi] nearest to the input |
| Obstacles.Obstacle.constructor | src/Obstacle.java:11-16 | a new obstacle is 40×40, has health 100 of 100 and is active |
| Obstacles.Obstacle.TakeDamage | src/Obstacle.java:54-59 | health drops by exactly the damage; the obstacle stays active iff it was active and health is still positive, so it never reactivates |
| Obstacles.Obstacle.ClosestPoint | src/Obstacle.java:264-265 | the clamped point lies in the box, and is the circle centre itself when the centre is inside |
| Obstacles.Obstacle.CollidesWithCircle | src/Obstacle.java:260-273 | an inactive obstacle collides with nothing; a hit needs a positive radius; an active box collides with every positive-radius circle centred inside it |
| Obstacles.ClosestPointIsNearest | src/Obstacle.java:264-272 | the clamped point is the point of the box nearest to the circle centre, so the distance tested is the circle-to-box distance |
| Obstacles.FirstCollision | src/Grenade.java:32-38 | the obstacle scan (skip inactive, stop at the first hit) reports a hit iff some active obstacle of the list overlaps the circle |
| Cells.Wrap32 | src/GridCell.java:35 | 32-bit wrap-around: the result is an int32 congruent to the input modulo 2^32 |
| Cells.GridCell.constructor | src/GridCell.java:13-19 | a new cell stores its row, column and centre, is walkable, and has no obstacle, parent or costs |
| Cells.GridCell.FCost | src/GridCell.java:21-23 | the estimated total cost through the cell is at least each of its parts when both are non-negative |
| Cells.GridCell.Equals | src/GridCell.java:25-31 | a cell equals itself (the `this == obj` shortcut), never equals null, and equals only cells at its own row and column, which hash alike |
| Cells.GridCell.HashCode | src/GridCell.java:33-36 | `Objects.hash(row, col)` is a 32-bit value computed from row and column only |
| Cells.EqualsIsEquivalence | src/GridCell.java:25-31 | `equals` by (row, col) is reflexive, symmetric and transitive |
| Cells.EqualCellsHashAlike | src/GridCell.java:25-36 | equal cells have equal hash codes |
| Grids.FillRow | src/Grid.java:17-21 | the inner constructor loop fills row r with fresh, walkable cells at (r, c) centred in their squares, leaving other rows alone |
| Grids.Grid.constructor | src/Grid.java:8-23 | cols = ceil(width / cellSize) and rows = ceil(height / cellSize); every slot holds a fresh walkable, obstacle-free cell at its own (row, col) and centre |
| Grids.Grid.CellAtGridPos | src/Grid.java:35-40 | the result is non-null iff (row, col) is in bounds, and then it is the grid's cell at that position |
| Grids.Grid.CellAtWorldPos | src/Grid.java:25-33 | the result is non-null iff the truncated quotients are in bounds, and then it is the cell at (trunc(y/s), trunc(x/s)) |
| Grids.Grid.SetObstacle | src/Grid.java:42-48 | the cell under the obstacle's centre (if any) becomes unwalkable and holds the obstacle; that cell's search fields and every other cell are unchanged; walkable ⇔ no obstacle is preserved |
| Grids.Grid.RemoveObstacle | src/Grid.java:50-56 | the cell under the centre becomes walkable with no obstacle, whatever it held; that cell's search fields and every other cell are unchanged; walkable ⇔ no obstacle is preserved |
| Grids.Grid.GetNeighbors | src/Grid.java:58-77 | the list built by the double loop is exactly the walkable in-bounds 8-neighbours in scan order |
| Grids.Grid.VisitRow | src/Grid.java:62-74 | the inner loop extends the scan by the three offsets of one row |
| Grids.Grid.Visit | src/Grid.java:63-73 | one loop body skips the centre and keeps a walkable in-bounds cell, extending the scan by one step |
| Grids.ScanNext | src/Grid.java:61-75 | a scan step at (dr, dc) adds the walkable in-bounds cell at that offset, or nothing |
| Grids.CellSetMembership | src/Grid.java:16-22 | a cell belongs to the grid iff it sits at its own (row, col) in the array |
| Grids.EqualsIsIdentity | src/GridCell.java:25-31 | on grid cells, `equals` coincides with object identity, so the search's HashSet and list membership tests are identity tests |
| Grids.ProbeOffset | src/Grid.java:61-63 | scan step k probes offset (dr, dc) in {-1,0,1}², numbered row-major, and only step 4 is the centre |
| Grids.ScanSound | src/Grid.java:63-73 | every cell collected is in bounds, walkable and an 8-neighbour other than the cell itself |
| Grids.ScanOrdered | src/Grid.java:61-75 | cells are collected in strictly increasing scan position, hence without repeats |
| Grids.ScanComplete | src/Grid.java:61-75 | every walkable in-bounds 8-neighbour with a scan position below k has been collected |
| Grids.NeighborsCharacterized | src/Grid.java:58-77 | at most 8 distinct neighbours; a cell is listed iff it is a walkable, in-bounds 8-neighbour other than the cell itself |
| Grids.NotOwnNeighbor | src/Grid.java:63 | a cell is never among its own neighbours |
| Grids.CentreLookup | src/Grid.java:25-32 | looking up a cell's own world centre finds that cell |
| Grids.NearZeroMapsToZero | src/Grid.java:26-27 | with truncation, a coordinate strictly between -cellSize and cellSize maps to index 0 (so slightly negative positions fall in column 0) |
| Pathfinding.SquaredDistance | src/Pathfinder.java:79-84 | dx² + dy² is non-negative and zero exactly for cells at the same position |
| Pathfinding.Distance | src/Pathfinder.java:79-84 | with a true square root, `getDistance` is non-negative and squares to dx² + dy² |
| Pathfinding.DistanceSymmetric | src/Pathfinder.java:79-84 | `getDistance(a, b) == getDistance(b, a)` |
| Pathfinding.DistanceOfSquareRoot | src/Pathfinder.java:79-84 | with a true square root, the distance is non-negative, squares to dx² + dy², and is zero iff the positions coincide |
| Pathfinding.StepCost | src/Pathfinder.java:79-84 | between 8-neighbours the squared distance is 1 orthogonally and 2 diagonally |
| Pathfinding.LowestFCost | src/Pathfinder.java:27-35 | the scan returns an open index that no later cell beats under the f-cost/h-cost test, and whose f-cost exceeds that of the cell at position j by less than 0.001 per cell after j (the tolerance admits near-ties) |
| Pathfinding.Reverse | src/Pathfinder.java:75 | `Collections.reverse`: same length, element i is element n-1-i of the input |
| Pathfinding.ResetCosts | src/Pathfinder.java:14-24 | every grid cell ends with zero costs and no parent; walkable and obstacle fields are untouched |
| Pathfinding.RelaxNeighbors | src/Pathfinder.java:46-61 | the neighbour loop keeps the search invariant, discovers every walkable neighbour of the current cell, and changes only parents and costs |
| Pathfinding.Relax | src/Pathfinder.java:47-60 | a closed neighbour is skipped; otherwise the neighbour is re-parented to the current cell (and opened once) when the new cost is lower or it was not open; nothing else changes |
| Pathfinding.RelaxKeepsState | src/Pathfinder.java:51-59 | one relaxation keeps the open list duplicate-free and disjoint from the closed set, and keeps parents pointing at closed 8-neighbours |
| Pathfinding.NeighborListOf | src/Grid.java:58-77 | the neighbour list the search walks holds exactly the walkable 8-neighbours |
| Pathfinding.AllNeighborsDiscovered | src/Pathfinder.java:46-61 | once each listed neighbour is open or closed, every walkable neighbour of the current cell is discovered |
| Pathfinding.RetracePath | src/Pathfinder.java:67-77 | the retraced path is empty iff end is start, ends with end, excludes start, repeats no cell, and with start prepended is a walk of 8-adjacent walkable cells |
| Pathfinding.CollectParents | src/Pathfinder.java:71-74 | the loop follows parent pointers from end back to (but not including) start through closed cells |
| Pathfinding.ReversedChain | src/Pathfinder.java:71-75 | the collected chain reversed, with start in front, is a walk through walkable, 8-adjacent grid cells |
| Pathfinding.ReversedDistinct | src/Pathfinder.java:71-75 | the retraced path has no repeated cell, because parents were closed earlier than their children |
| Pathfinding.OrderDecreasing | src/Pathfinder.java:37-55 | along the parent chain the closing order strictly decreases, so the chain is acyclic |
| Pathfinding.WalkStaysInside | src/Pathfinder.java:26-64 | a walk from inside a set closed under walkable adjacency never leaves it |
| Pathfinding.CloseStep | src/Pathfinder.java:37-38 | moving the chosen cell from the open list to the closed set keeps the search invariant |
| Pathfinding.CloseKeepsChain | src/Pathfinder.java:37-38 | closing a cell gives it the next closing number and keeps every parent closed before its child |
| Pathfinding.CloseKeepsOpen | src/Pathfinder.java:37-38 | after the move, the open list is still duplicate-free, disjoint from the closed set and has closed parents |
| Pathfinding.FoundIsReachable | src/Pathfinder.java:41-43 | a path returned for the target witnesses that the target is reachable through walkable cells |
| Pathfinding.ExhaustedIsUnreachable | src/Pathfinder.java:26-64 | when the open list runs dry without closing the target, no walk of walkable cells reaches it |
| Pathfinding.FindPath | src/Pathfinder.java:5-65 | empty for a null start or target, an unwalkable target, or start == target; otherwise non-empty iff the target is reachable; a path consists of cells of this grid, ends at the target, excludes start, repeats no cell and is an 8-adjacent walkable walk from start; walkable and obstacle fields are untouched |
| Pathfinding.Search | src/Pathfinder.java:26-64 | the open/closed loop terminates (the closed set grows each round) with a path iff the target is reachable, and the path has the properties of FindPath, its cells all taken from this grid |
| Pathfinding.Expand | src/Pathfinder.java:27-61 | one round closes a new cell: either it is the target and the retraced path (of grid cells) is returned, or the invariant holds with a strictly larger closed set |
| SoundBuffers.LowBits | src/SoundManager.java:92 | `v & 0xFF` is in 0..255 |
| SoundBuffers.ShiftRight8 | src/SoundManager.java:93 | `v >> 8` is the arithmetic shift: floor(v / 256) |
| SoundBuffers.ToByte | src/SoundManager.java:92-93 | the `(byte)` cast of 0..255 is its two's-complement reading |
| SoundBuffers.ToShort | src/SoundManager.java:142 | the `(short)` cast is the identity on 16-bit values |
| SoundBuffers.UnpackPack | src/SoundManager.java:92-93 | unpacking the low and high bytes of a 16-bit sample gives the sample back |
| SoundBuffers.PackUnpack | src/SoundManager.java:142 | packing an unpacked sample gives the two bytes back |
| SoundBuffers.Packed | src/SoundManager.java:84-93 | the packed buffer has exactly two bytes per sample |
| SoundBuffers.PackedAt | src/SoundManager.java:91-93 | sample i sits at bytes 2i (low) and 2i+1 (high) |
| SoundBuffers.PackedRoundTrip | src/SoundManager.java:92-93 | every sample reads back from its packed bytes |
| SoundBuffers.PackSamples | src/SoundManager.java:84-94 | the sample loop of tone/noise fills a fresh 2·samples array with the packed samples |
| SoundBuffers.Concatenation | src/SoundManager.java:121-133 | the concatenation's length is the sum of the part lengths |
| SoundBuffers.Offset | src/SoundManager.java:127-131 | each part's running offset is within the total |
| SoundBuffers.ConcatenationHoldsParts | src/SoundManager.java:127-131 | each part appears contiguously at its running offset, in argument order |
| SoundBuffers.Concat | src/SoundManager.java:121-133 | `concat` returns a fresh array holding the parts end to end |
| SoundBuffers.MaxLength | src/SoundManager.java:136 | `Math.max` of the lengths is one of them and at least both |
| SoundBuffers.SampleAt | src/SoundManager.java:139-146 | a sample is read only when both its bytes exist; otherwise it contributes 0 |
| SoundBuffers.Clamp16 | src/SoundManager.java:148-149 | the mixed value is clamped to [-32768, 32767], unchanged inside that range |
| SoundBuffers.MixFrom | src/SoundManager.java:138-154 | the bytes written from index i have length max − i |
| SoundBuffers.MixOf | src/SoundManager.java:135-155 | the mixed buffer is as long as the longer input |
| SoundBuffers.MixFromAt | src/SoundManager.java:138-154 | byte j+2d holds the low byte of the mixed sample there, and byte j+2d+1 (when inside) its high byte |
| SoundBuffers.MixAt | src/SoundManager.java:139-149 | the loop body's read/gain/clamp computes the clamped mixed sample |
| SoundBuffers.Mix | src/SoundManager.java:135-155 | `mix` returns a fresh array equal to the specified mixed buffer |
| SoundBuffers.MixSamples | src/SoundManager.java:147-153 | every complete output sample reads back as the clamped gain of the two input samples |
| SoundBuffers.MixOddTail | src/SoundManager.java:150-153 | for an odd output length, the last byte is the low byte of a sample mixed from silence |
| SoundBuffers.MixWithSilence | src/SoundManager.java:139-153 | mixing whole samples with an empty buffer under a gain that keeps the first sample unchanged returns the input |
| Squads.RecruitKeepsNumbering | src/Squad.java:25-28 | appending the soldier addSoldier creates keeps every soldier's index equal to its place and its colour equal to palette[place mod 6] |
| Squads.ColorsRepeat | src/Squad.java:8-15 | soldiers six places apart share a colour |
| Squads.Squad.constructor | src/Squad.java:17-23 | a new squad holds exactly the main soldier, index 0, first colour, at the start point, which is also the target |
| Squads.Squad.AddSoldier | src/Squad.java:25-28 | exactly one soldier is appended, with index = old size and colour = palette[old size mod 6]; earlier soldiers, the main position and the target are unchanged |
| Squads.Squad.SetTargetPosition | src/Squad.java:42-45 | only the target changes |
| Squads.Squad.GetMainPosition | src/Squad.java:51-56 | the first soldier's position, or (0, 0) for an empty list |
| Squads.Squad.GetSize | src/Squad.java:58-60 | the number of soldiers, at least 1 in a valid squad |
| Enemies.Damage | src/Enemy.java:68-75 | health drops by the damage; a kill is reported iff health is now ≤ 0; alive afterwards iff alive before and no kill; a living enemy keeps positive health |
| Enemies.HitsAccumulate | src/Enemy.java:68-75 | after a series of hits, health is down by their total, and the enemy is alive iff it was alive and no partial total took health to 0 or below |
| Enemies.DeadStaysDead | src/Enemy.java:68-75 | a dead enemy stays dead and a further non-negative hit reports a kill again |
| Enemies.SteerClosesGap | src/Enemy.java:32-33 | each frame of steering leaves 95% of the gap between the velocity and the desired one |
| Enemies.Enemy.constructor | src/Enemy.java:13-22 | health 100, alive, speed 1 + 2·random in [1, 3), velocity the normalised aim times the speed |
| Enemies.Enemy.Update | src/Enemy.java:24-37 | a dead enemy does not move; a living one steers toward the target and moves by its new velocity; health never changes |
| Enemies.Enemy.TakeDamage | src/Enemy.java:68-75 | the new health/alive state and the returned flag are those of Damage |
| Contact.Check | src/Bullet.java:50-59 | a hit is reported iff the object is active and in reach; a hit deactivates; no hit changes nothing |
| Contact.HitsAtMostOnce | src/Bullet.java:50-59 | over any series of checks at most one hit is reported, none when inactive, and the object stays active iff none hit |
| Bullets.Bullet.constructor | src/Bullet.java:12-20 | an active bullet at the start, damage 25, radius 4, velocity the normalised aim times 10 |
| Bullets.Bullet.Update | src/Bullet.java:22-25 | the position moves by the velocity whether or not the bullet is active |
| Bullets.Bullet.CheckCollision | src/Bullet.java:50-59 | the result and the new active flag are Contact.Check on overlap with the enemy's circle |
| Bullets.Bullet.GetDamage | src/Bullet.java:9 | the damage is always 25 |
| Bonuses.TypeFor | src/Bonus.java:21-28 | the type is HEALTH iff the random roll is below 0.3 |
| Bonuses.ColorOf | src/Bonus.java:22-28 | green iff HEALTH, yellow iff NEW_SOLDIER |
| Bonuses.DriftDecays | src/Bonus.java:37-50 | over n active frames the velocity is scaled by 0.98ⁿ and the float phase advances by 0.1·n |
| Bonuses.Bonus.constructor | src/Bonus.java:18-35 | active, type and colour fixed from the first roll, initial velocity from the next two |
| Bonuses.Bonus.Update | src/Bonus.java:37-50 | an inactive bonus does not move; an active one drifts one frame; the active flag does not change |
| Bonuses.Bonus.CheckCollision | src/Bonus.java:85-94 | the result and new active flag are Contact.Check on overlap with the player's circle; nothing else changes |
| Bosses.Damaged | src/TankBoss.java:158-162 | health after takeDamage is never negative: health − damage, or 0 when that is below 0 |
| Bosses.HitsAccumulate | src/TankBoss.java:133-162 | under non-negative hits, health ends at max(health − total, 0), and a dead boss (health 0) stays dead |
| BossProjectiles.Advance | src/BossProjectile.java:47-72 | an exploded projectile is done and unchanged; otherwise it moves and loses dt of ttl, is done iff it touches or ttl ≤ 0, and explodes then only if explosive |
| BossProjectiles.ExplodesOnlyIfExplosive | src/BossProjectile.java:57-67 | over any run of updates a non-explosive projectile never explodes, and an exploded one never changes |
| BossProjectiles.BossProjectile.constructor | src/BossProjectile.java:35-45 | the fields as given, velocity = direction · speed, not exploded |
| BossProjectiles.BossProjectile.CreateBullet | src/BossProjectile.java:21-26 | kind BULLET, radius 3.5, not explosive, explosion radius 0, aimed at the target |
| BossProjectiles.BossProjectile.CreateShell | src/BossProjectile.java:28-33 | kind SHELL, radius 6, explosive with the given radius, aimed at the target |
| BossProjectiles.BossProjectile.Update | src/BossProjectile.java:47-72 | the new state and result are Advance, where touching means some active obstacle overlaps the moved projectile |
| BossProjectiles.BossProjectile.ShouldExplode | src/BossProjectile.java:95-97 | true iff the projectile has exploded (only explosive ones can) |
| Grenades.Tick | src/Grenade.java:19-46 | explosion is sticky; a live update moves, slows by 2%, burns dt of fuse (or zeroes it on contact), and explodes iff touching or the fuse is spent |
| Grenades.FuseBurnsDown | src/Grenade.java:19-46 | an exploded grenade never changes, and once the updates' total time covers the fuse the grenade has exploded |
| Grenades.Grenade.constructor | src/Grenade.java:12-17 | fuse 1.2, not exploded, radius 6, velocity the normalised aim times 6 |
| Grenades.Grenade.Update | src/Grenade.java:19-46 | the new state is Tick with the obstacle scan's result, and the result is the new exploded flag |
| TankBosses.Cycle | src/TankBoss.java:28-40 | the shell timer runs down; charging starts at 0.6 when it is used up; a shell fires exactly when the charge runs out, resetting the timer to 2.6 |
| TankBosses.QuietUntilDue | src/TankBoss.java:28-40 | no shell is fired while the updates add up to less than the running timer |
| TankBosses.ShellsSpaced | src/TankBoss.java:34-40 | after a shell, none fires within the next 2.6 seconds of updates |
| TankBosses.TankBoss.constructor | src/TankBoss.java:5-22 | full health, zero velocity, radius 36, cooldown 2.6, timers at 0, not charging |
| TankBosses.TankBoss.Update | src/TankBoss.java:25-44 | a dead tank does nothing; a living one steps Cycle, fires iff Cycle says so, and moves only when not charging |
| TankBosses.TankBoss.MoveToward | src/TankBoss.java:46-56 | the tank moves at full speed toward the player unless within one unit |
| TankBosses.TankBoss.FireShell | src/TankBoss.java:58-70 | one shell (speed 4, damage 60, ttl 2.5, blast 110) from the tank at the player, then the shot sound |
| TankBosses.TankBoss.TakeDamage | src/TankBoss.java:158-162 | health becomes Damaged(health, damage); gun state, position and velocity are unchanged |
| Helicopters.BurstStep | src/HelicopterBoss.java:70-90 | idle: cooldown runs down, a burst starts at ≤ 0 (1.0 s, fire timer 0), no shot; bursting: a shot iff the fire timer is used up (reset to 0.18), the burst ends at ≤ 0 with cooldown 1.6 |
| Helicopters.Shot | src/HelicopterBoss.java:92-103 | the calls `fireAt` makes: a bullet from the given point and the shot sound; with rolls in [0, 1) the target lies within ±15 sideways and ±10 vertically of the player |
| Helicopters.BurstOpensWithShot | src/HelicopterBoss.java:82-88 | the update after a burst starts always fires |
| Helicopters.DashStart | src/HelicopterBoss.java:105-113 | DASH, direction ±1, x at −80 (moving right) or width+80 (moving left), y in [70, 130), 3 to 5 drops, first in 0.2 s |
| Helicopters.HoverFacts | src/HelicopterBoss.java:40-51 | a hovering update drops nothing, runs the burst cycle, counts the dash cooldown down and starts at most one dash |
| Helicopters.DashFacts | src/HelicopterBoss.java:52-67 | a dashing update freezes the burst timers, drops at most one enemy, keeps drops ≥ 0 and returns to HOVER with cooldown 6 once off the far side |
| Helicopters.DropsAccounted | src/HelicopterBoss.java:52-60 | over any run, direction and drops stay valid, and enemies spawned plus drops left never exceed the initial drops plus 5 per dash |
| Helicopters.HelicopterBoss.constructor | src/HelicopterBoss.java:10-32 | hovering, full health, dash cooldown 6, direction 1, no drops, burst cooldown 1.6, not bursting |
| Helicopters.HelicopterBoss.Update | src/HelicopterBoss.java:35-68 | a dead helicopter does nothing; a living one takes one Step (clock, then the HOVER or DASH branch), health unchanged |
| Helicopters.HelicopterBoss.HoverStep | src/HelicopterBoss.java:40-51 | the HOVER branch: hover position, burst step, cooldown, dash when due |
| Helicopters.HelicopterBoss.DashStep | src/HelicopterBoss.java:52-67 | the DASH branch: fly on, drop when due, return to HOVER off the far side |
| Helicopters.HelicopterBoss.UpdateBurst | src/HelicopterBoss.java:70-90 | only the burst timers change, as BurstStep says, with a shot at the player when it fires |
| Helicopters.HelicopterBoss.FireAt | src/HelicopterBoss.java:92-103 | one bullet (speed 8.5, damage 8, ttl 2.5) aimed within ±15/±10 of the player, then the shot sound |
| Helicopters.HelicopterBoss.StartDash | src/HelicopterBoss.java:105-113 | the state becomes DashStart's and the dash sound plays |
| Helicopters.HelicopterBoss.TakeDamage | src/HelicopterBoss.java:206-210 | health becomes Damaged(health, damage) and nothing else changes |

## Left out

- The files modelled here have no footprint-based obstacle insertion, no shared distance field and no visibility or fog computation. `setObstacle` marks only the cell under the obstacle's centre, and `removeObstacle` clears it whatever it held. The model follows that code.
- Java doubles are exact reals. Rounding is not modelled.
- `Math.sqrt` is a parameter `root`. `Vector2D.normalize` divides by it when it is positive.
- Distance comparisons (`distance < r`, `dist > 1`) are made on squares. This is exact for a true square root.
- `Math.random()` and `Math.sin` are parameters: `random`, `typeRoll`, the `Rolls` record, `sin`. Random values are taken in [0, 1).
- Pathfinding.LowestFCost: the 0.001 f-cost tie-break is kept as written. The model does not prove that A* is optimal, and it does not fix a tie order.
- Grids.Grid.constructor requires non-negative screen sizes and a positive cell size. Java would build a grid with 0 columns for a width in (-cellSize, 0) and throws or misbehaves on the other excluded sizes; the game passes its fixed positive screen size.
- Pathfinding.FindPath requires start and target to be null or cells of the grid. Every grid lookup returns such cells.
- SoundBuffers.Mix: `(int)(sa * gainA + sb * gainB)` is an abstract integer function `gain`, because floating-point multiplication is not modelled. The sample synthesis of `tone`/`noise` (sine, noise, envelope, the `(short)(value * 32767)` cast) is left out: only the packing loop is modelled. `SoundManager.play` and the playback threads are left out.
- Game callbacks are recorded as `GameEvents.Event` values, in call order: `addBossProjectile`, `spawnEnemyAt` and the `SoundManager.play*` sound calls. `getWorldWidth` is a parameter. `GameManager` and the audio it triggers are not part of this model.
- `Vector2D` is a value (`Geometry.Vec`). Aliasing through the objects returned by `getPosition`, which callers could mutate, is not modelled.
- `PlayerSoldier` is reduced to the record the squad creates (`Squads.Soldier`). Its movement and `Squad.update` are left out, because `Squad.update` calls `PlayerSoldier.update` with a signature that does not match.
- Integer health is an unbounded `int`. 32-bit overflow of `health -= damage` is not modelled. `Cells.Wrap32` models the wrap-around only where it matters: the cell hash code.
- Enemies.Enemy.Update: `deltaTime` is accepted and unused, as in the source. Movement is per frame.
- Helicopters.HelicopterBoss: the `dashTimer` field is never read or written by the source's logic, so it is not modelled.
- The getters (`getRows`, `getCols`, `getCellSize`, `getPosition`, `getRadius`, `getHealth`, `getMaxHealth`, `isActive`, `isAlive`) are fields or one-line functions of the classes. Only `isAlive`'s meaning (health > 0) is stated, as `Bosses.Alive`.
- Rendering (`draw`, health bars, image loading), `Camera`, `Particle`, `GamePanel`, `MyFrame` and `Main` are not part of this model.
- Several loops and branches are split into helper methods so the verifier can handle them one at a time:
  - `Grids.Grid.VisitRow`/`Visit` for the loops of `getNeighbors`;
  - `Pathfinding.Search`, `Expand`, `RelaxNeighbors`, `Relax` and `CollectParents` for the loops of `findPath` and `retracePath`;
  - `SoundBuffers.MixAt` for the body of the `mix` loop;
  - `Helicopters.HelicopterBoss.HoverStep`/`DashStep` for the two branches of `update`.
  Each helper runs the same statements in the same order.
