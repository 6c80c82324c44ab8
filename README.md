# Space Invaders game engine, modelled in Dafny

This project models the per-frame game engine of the Android Space Invaders game: the
class `SpaceInvadersView` (its `prepareLevel()`, its `update()` tick and the menace-cue
rule of its `run()` loop) and the player's ship, `PlayerShip`.

The model has three layers:

- `View.SpaceInvadersView` is the game view as a Dafny class. It has the same fields and
  the same fixed-size arrays: 200 bullet slots, 60 invader slots and 400 brick slots. Every
  loop of the source is a method with a loop that updates those arrays in place.
- Module `Engine` describes the same state as one value, `World`, with one function per
  loop of `update()`. Each method of the class is proved to leave exactly the state its
  function computes from the old one: `Snapshot() == Tick(old(Snapshot()), fps, aims)`.
  When an iteration can see the effect of earlier ones, its function is written as
  "the first n iterations". This covers the bullet cursor, the score, a level rebuilt in
  the middle of a loop, and a brick knocked out by an earlier bullet.
- Module `Properties` proves what the game promises about those functions.
  - An invariant holds between ticks: the enemy-bullet cursor stays in [0, 10); slots 10
    to 199 are never fired; at least one life is left; the score is exactly 10 per invader
    shot down in the current wave, so it is a multiple of 10 below 300.
  - Within a round, nothing hidden appears again.
  - It states exactly when the wave bumps into a side and what the bump does.
  - It states exactly which bricks a bullet knocks out.
  - The "uh"/"oh" menace cues alternate.
- Module `GameLoop` carries that alternation over any run of the game loop. A tick of
  `update()` keeps the menace state and plays no "uh" or "oh", so over any sequence of
  frames the menace cues played still alternate, starting with the one uhOrOh named.

`Ship` models `PlayerShip`: its construction geometry, its latched movement state, and its
update. The update moves the ship by exactly `shipSpeed / fps` with no clamping to the
screen. `Sprites` holds the three entity kinds the view stores in its arrays. `Geometry`
holds `RectF.intersects` and Java's truncating integer division.

Inputs the source reads from the environment are parameters:

- the frame rate `fps`, which must be positive;
- the clock readings of `run()`;
- the random answers of each invader's `takeAim()`, as one boolean per invader slot.

Each sound the game plays is appended to a log of cues.

The local flag `lost` in `update()` is read (line 387) before the only code that sets it
(line 402). The view states this with an assertion at the place of the test, and
`Properties.AfterMovesInvaders` proves that the movement half of a tick never rebuilds the
level or changes score, lives or the pause flag, however low the invaders have come.

## Model

| member | source | states |
|---|---|---|
| Geometry.JavaDiv | app/src/main/java/com/dev/spaceinvadersgame/PlayerShip.java:59-66 | integer `/` truncates toward zero: the quotient's multiple lies within one divisor of the dividend, on the dividend's side of zero |
| Ship.NewShip | app/src/main/java/com/dev/spaceinvadersgame/PlayerShip.java:53-85 | a new ship has length screenX/10, height screenY/10 (integer division), x = screenX/2, y = screenY - 20, speed 350, state STOPPED and an empty rectangle |
| Ship.ShipUpdate | app/src/main/java/com/dev/spaceinvadersgame/PlayerShip.java:117-133 | LEFT moves x by exactly -speed/fps, RIGHT by +speed/fps, any other state leaves x alone; y, length, height, speed and the state never change; the rectangle is exactly (x, y, x + length, y + height) |
| Ship.NoClamping | app/src/main/java/com/dev/spaceinvadersgame/PlayerShip.java:117-124 | n updates on LEFT move x by exactly n steps, with no bound at the screen edge |
| Ship.LeavesScreen | app/src/main/java/com/dev/spaceinvadersgame/PlayerShip.java:117-124 | a ship held on LEFT for more steps than its distance to the edge ends with x < 0 |
| Ship.PlayerShip.constructor | app/src/main/java/com/dev/spaceinvadersgame/PlayerShip.java:53-85 | the object built is the ship `NewShip` describes |
| Ship.PlayerShip.SetMovementsState | app/src/main/java/com/dev/spaceinvadersgame/PlayerShip.java:109-111 | the state is stored verbatim, whatever its value, and nothing else changes |
| Ship.PlayerShip.Update | app/src/main/java/com/dev/spaceinvadersgame/PlayerShip.java:117-133 | the object afterwards is `ShipUpdate` of the object before |
| Sprites.Bullet.Shoot | app/src/main/java/com/dev/spaceinvadersgame/SpaceInvadersView.java:341-362 | shoot succeeds exactly when the slot is idle; a refused shot leaves the slot as it was; an accepted one takes the origin and heading and becomes active |
| Sprites.Bullet.SetInactive | app/src/main/java/com/dev/spaceinvadersgame/SpaceInvadersView.java:423-434 | the bullet goes idle and keeps its rectangle and impact point |
| Sprites.Bullet.ImpactPointY | app/src/main/java/com/dev/spaceinvadersgame/SpaceInvadersView.java:423-434 | the impact point is the bottom edge of a falling bullet and the top edge of a rising one |
| Sprites.Bullet.Update | app/src/main/java/com/dev/spaceinvadersgame/SpaceInvadersView.java:377-381 | moving keeps the status, x and heading, and the rectangle follows the new position |
| Sprites.NewBullet | app/src/main/java/com/dev/spaceinvadersgame/SpaceInvadersView.java:212-219 | a new bullet is idle with an empty rectangle |
| Sprites.Invader.Update | app/src/main/java/com/dev/spaceinvadersgame/SpaceInvadersView.java:336 | an invader's move keeps its visibility, y and length, and the rectangle follows the new x |
| Sprites.Invader.DropDownAndReverse | app/src/main/java/com/dev/spaceinvadersgame/SpaceInvadersView.java:395-397 | the invader turns round, comes one height lower and keeps its visibility |
| Sprites.Invader.SetInvisible | app/src/main/java/com/dev/spaceinvadersgame/SpaceInvadersView.java:443 | the invader is hidden and keeps its rectangle |
| Sprites.NewInvader | app/src/main/java/com/dev/spaceinvadersgame/SpaceInvadersView.java:227 | a new invader is visible at the given row and column, with an empty rectangle |
| Sprites.DefenceBrick.SetInvisible | app/src/main/java/com/dev/spaceinvadersgame/SpaceInvadersView.java:470 | the brick is knocked out and keeps its rectangle and shelter |
| Sprites.NewDefenceBrick | app/src/main/java/com/dev/spaceinvadersgame/SpaceInvadersView.java:239 | a new brick is visible at the given row, column and shelter |
| Engine.InvaderGrid | app/src/main/java/com/dev/spaceinvadersgame/SpaceInvadersView.java:224-230 | the level's wave has exactly 30 invaders |
| Engine.BrickGrid | app/src/main/java/com/dev/spaceinvadersgame/SpaceInvadersView.java:235-243 | the level's shelters have exactly 200 bricks |
| Engine.PrepareLevel | app/src/main/java/com/dev/spaceinvadersgame/SpaceInvadersView.java:199-249 | a new level has a new ship, every bullet idle, the first 30 invaders and first 200 bricks visible with the rest of the arrays untouched, numInvaders 30, numBricks 200 and menaceInterval 1000; score, lives, the pause flag, the cursor and the menace clock are unchanged |
| Engine.Initial | app/src/main/java/com/dev/spaceinvadersgame/SpaceInvadersView.java:78-128 | the arrays are allocated with 200, 60 and 400 slots |
| Engine.NewGame | app/src/main/java/com/dev/spaceinvadersgame/SpaceInvadersView.java:41-197 | the constructed view keeps the screen size it was given and holds a full level: paused, score 0, 5 lives, menaceInterval 1000, uhOrOh false, lastMenaceTime the clock reading, cursor 0, no sound played, a new ship for that screen, the player's bullet and all 200 enemy slots idle, the first 30 invaders and the first 200 bricks visible |
| Engine.ResetRound | app/src/main/java/com/dev/spaceinvadersgame/SpaceInvadersView.java:449-454 | a won or lost round pauses, sets score 0 and lives 3, keeps the cursor, the screen size, uhOrOh and lastMenaceTime, and rebuilds the level: a new ship, menaceInterval 1000, the player's bullet and all 200 enemy slots idle, the first 30 invaders and the first 200 bricks visible |
| Engine.AimAndFire | app/src/main/java/com/dev/spaceinvadersgame/SpaceInvadersView.java:341-362 | a shot into an active slot changes nothing; otherwise it activates slot nextBullet from the invader's middle, heading down, and the cursor becomes (nextBullet + 1) mod 10; nothing else changes |
| Engine.MoveShip | app/src/main/java/com/dev/spaceinvadersgame/SpaceInvadersView.java:326 | the ship moves as `ShipUpdate` says, and nothing else in the view changes |
| Engine.Moved | app/src/main/java/com/dev/spaceinvadersgame/SpaceInvadersView.java:332-336 | an invader's move, made only when it is visible, keeps its visibility, y and length; a hidden invader is left exactly as it was |
| Engine.MoveInvaderStep | app/src/main/java/com/dev/spaceinvadersgame/SpaceInvadersView.java:332-371 | an invader's turn replaces only its own slot, by the moved invader when visible; it reports a bump exactly when that invader is visible and its move ends past a side; when the invader is hidden or does not take aim, nothing but the wave changes; when it is visible and takes aim, the rest of the new state is `AimAndFire` of the moved invader; the cursor stays in [0, 10) and the screen is unchanged |
| Engine.MoveInvadersUpTo | app/src/main/java/com/dev/spaceinvadersgame/SpaceInvadersView.java:331-372 | after n turns the slots from n up are unchanged, and `bumped` is set exactly when some visible one among the first n ended its move past a side |
| Engine.OffSides | app/src/main/java/com/dev/spaceinvadersgame/SpaceInvadersView.java:368 | true exactly when the invader is not within [0, screenX] from its left edge to its right |
| Engine.RemoveOffScreen | app/src/main/java/com/dev/spaceinvadersgame/SpaceInvadersView.java:423-434 | afterwards the player's bullet is active exactly when it was active with impact y >= 0, and each enemy slot exactly when it was active with impact y <= screenY; each bullet keeps every field but its status (rectangle, position, heading, size, speed), and nothing else in the state changes |
| Engine.MoveInvadersBullets | app/src/main/java/com/dev/spaceinvadersgame/SpaceInvadersView.java:377-381 | only the enemy slots change; each keeps its status, an idle slot is unchanged and an active slot becomes its own `Update(fps)` |
| Engine.DropAndReverseAll | app/src/main/java/com/dev/spaceinvadersgame/SpaceInvadersView.java:391-411 | only the wave and menaceInterval change; each of the first numInvaders slots, visible or not, keeps its visibility, turns round and comes one height lower, the rest are unchanged, and menaceInterval falls by exactly 80 |
| Engine.Landed | app/src/main/java/com/dev/spaceinvadersgame/SpaceInvadersView.java:399-403 | false exactly when every one of the first numInvaders slots, visible or not, has y <= screenY / 10 (integer division) |
| Engine.MovePlayerBullet | app/src/main/java/com/dev/spaceinvadersgame/SpaceInvadersView.java:416-418 | only the player's bullet changes and it keeps its status; an idle bullet stays put; an active one becomes its own `Update(fps)`, keeping x and size with its rectangle following the new y |
| Engine.Bumped | app/src/main/java/com/dev/spaceinvadersgame/SpaceInvadersView.java:316-372 | the tick bumps exactly when some visible invader of the first 30 ends its move past a side of the screen |
| Engine.HitInvaderStep | app/src/main/java/com/dev/spaceinvadersgame/SpaceInvadersView.java:441-456 | a miss changes nothing. A hit plays the explosion and retires the bullet. A hit that does not complete the wave hides that invader, adds exactly 10 to the score, and leaves the player's bullet as `SetInactive()` of itself (its rectangle goes on hitting later invaders); nothing else changes: not lives, pause flag, enemy slots, bricks, ship, menaceInterval or cursor. The hit that brings the score to 300 pauses with score 0, lives 3, the cursor kept, a new ship, menaceInterval 1000, every enemy slot idle, a full wave and all 200 bricks visible |
| Engine.HitInvadersUpTo | app/src/main/java/com/dev/spaceinvadersgame/SpaceInvadersView.java:440-457 | the loop keeps the level's shape and the cursor range |
| Engine.PlayerHitsInvaders | app/src/main/java/com/dev/spaceinvadersgame/SpaceInvadersView.java:439-458 | the guarded loop keeps the level's shape and the cursor range |
| Engine.EnemyBrickStep | app/src/main/java/com/dev/spaceinvadersgame/SpaceInvadersView.java:466-473 | one bullet/brick test keeps the level's shape |
| Engine.EnemyBricksUpTo | app/src/main/java/com/dev/spaceinvadersgame/SpaceInvadersView.java:465-474 | one slot against the bricks keeps the level's shape |
| Engine.EnemyHitsBricksUpTo | app/src/main/java/com/dev/spaceinvadersgame/SpaceInvadersView.java:463-477 | the enemy/shelter loops keep the level's shape |
| Engine.PlayerBrickStep | app/src/main/java/com/dev/spaceinvadersgame/SpaceInvadersView.java:484-491 | one player-bullet/brick test keeps the level's shape |
| Engine.PlayerBricksUpTo | app/src/main/java/com/dev/spaceinvadersgame/SpaceInvadersView.java:483-492 | the player/shelter loop keeps the level's shape |
| Engine.PlayerHitsBricks | app/src/main/java/com/dev/spaceinvadersgame/SpaceInvadersView.java:482-493 | the guarded loop keeps the level's shape |
| Engine.ShipHitStep | app/src/main/java/com/dev/spaceinvadersgame/SpaceInvadersView.java:499-514 | a miss changes nothing. A hit retires that slot and plays the explosion. A hit that is not on the last life costs exactly one life, and apart from that slot, set inactive, nothing else changes: not score, pause flag, the other enemy slots, the player's bullet, invaders, bricks, ship, menaceInterval or cursor. The hit on the last life pauses with lives 3, score 0, the cursor kept, a new ship, menaceInterval 1000, the player's bullet and every enemy slot idle, a full wave and all 200 bricks visible |
| Engine.ShipHitsUpTo | app/src/main/java/com/dev/spaceinvadersgame/SpaceInvadersView.java:498-515 | the loop keeps the level's shape and the cursor range |
| Engine.AfterMoves | app/src/main/java/com/dev/spaceinvadersgame/SpaceInvadersView.java:326-434 | the movement half of the tick keeps the level's shape |
| Engine.Tick | app/src/main/java/com/dev/spaceinvadersgame/SpaceInvadersView.java:312-516 | a tick keeps the level's shape and the cursor range |
| Engine.MenaceCue | app/src/main/java/com/dev/spaceinvadersgame/SpaceInvadersView.java:285-307 | when running and more than menaceInterval ms have passed, exactly one cue plays ("uh" if uhOrOh, else "oh"), the cue time is noted and uhOrOh flips; otherwise nothing changes |
| Engine.Frame | app/src/main/java/com/dev/spaceinvadersgame/SpaceInvadersView.java:257-307 | a pass of the game loop keeps the level's shape |
| Engine.RequestPlayerShot | app/src/main/java/com/dev/spaceinvadersgame/SpaceInvadersView.java:639-645 | a fire request succeeds exactly when the player's bullet is idle; it then leaves from the ship's middle at the bottom edge heading up, and the shoot cue plays; a refused request changes nothing |
| Layout.InvaderGridAt | app/src/main/java/com/dev/spaceinvadersgame/SpaceInvadersView.java:224-230 | slot column * 5 + row of the wave holds the invader of that column and row |
| Layout.BrickGridAt | app/src/main/java/com/dev/spaceinvadersgame/SpaceInvadersView.java:235-243 | slot shelter * 50 + column * 5 + row holds the brick of that shelter, column and row |
| Layout.LevelLayout | app/src/main/java/com/dev/spaceinvadersgame/SpaceInvadersView.java:224-230 | after prepareLevel each (column, row) of the 6 x 5 grid is in slot column * 5 + row, column-major, inside the first 30 |
| Layout.LevelBricks | app/src/main/java/com/dev/spaceinvadersgame/SpaceInvadersView.java:235-243 | after prepareLevel each (shelter, column, row) of the 4 x 10 x 5 shelters is in slot shelter * 50 + column * 5 + row, inside the first 200 |
| Layout.LevelCovers | app/src/main/java/com/dev/spaceinvadersgame/SpaceInvadersView.java:224-243 | every one of the first 30 invader slots holds the invader of some (column, row) of the grid at slot column * 5 + row, and every one of the first 200 brick slots the brick of some (shelter, column, row) at shelter * 50 + column * 5 + row |
| Properties.Destroyed | app/src/main/java/com/dev/spaceinvadersgame/SpaceInvadersView.java:439-457 | the number of invaders shot down among the first n slots is between 0 and n |
| Properties.DestroyedHide | app/src/main/java/com/dev/spaceinvadersgame/SpaceInvadersView.java:441-446 | hiding one more visible invader adds exactly one to that count |
| Properties.ResetConsistent | app/src/main/java/com/dev/spaceinvadersgame/SpaceInvadersView.java:449-454 | a won or lost round leaves the invariant holding: lives 3, score 0 with no invader of the new wave shot down, slots 10 and up idle (all 200 slots idle is stated by `Engine.ResetRound`) |
| Properties.NewGameConsistent | app/src/main/java/com/dev/spaceinvadersgame/SpaceInvadersView.java:108-128 | the constructed game satisfies the invariant |
| Properties.MoveInvaderStepRetires | app/src/main/java/com/dev/spaceinvadersgame/SpaceInvadersView.java:332-371 | an invader's turn touches only its own slot of the wave and, by firing, only slots below 10; score, lives, pause flag, bricks, screen, ship and menace interval unchanged |
| Properties.MoveInvadersUpToSlots | app/src/main/java/com/dev/spaceinvadersgame/SpaceInvadersView.java:331-372 | after n turns each of the first n slots holds its invader moved once (if visible) |
| Properties.MoveInvadersUpToMoves | app/src/main/java/com/dev/spaceinvadersgame/SpaceInvadersView.java:331-372 | after n turns no score, life or pause changes, every invader keeps its visibility, no slot from 10 up fires, and the bricks, the ship and the menace interval are unchanged |
| Properties.AfterMovesInvaders | app/src/main/java/com/dev/spaceinvadersgame/SpaceInvadersView.java:387-411 | on a bump every one of the 30 slots, visible or not, drops and reverses and menaceInterval falls by exactly 80, else neither happens; the movement half never rebuilds the level or changes score, lives or pause, however low the invaders are |
| Properties.DropFacts | app/src/main/java/com/dev/spaceinvadersgame/SpaceInvadersView.java:391-411 | the bump pass drops every one of the 30 slots and takes 80 off menaceInterval, with no lower bound |
| Properties.LastMovesFrame | app/src/main/java/com/dev/spaceinvadersgame/SpaceInvadersView.java:416-434 | moving the player's bullet and the off-screen test touch nothing but bullets |
| Properties.AfterMovesRetires | app/src/main/java/com/dev/spaceinvadersgame/SpaceInvadersView.java:326-434 | the movement half scores nothing, costs no life, keeps every invader's visibility and fires no slot from 10 up |
| Properties.HitInvaderStepKeeps | app/src/main/java/com/dev/spaceinvadersgame/SpaceInvadersView.java:441-456 | a player-bullet/invader test keeps the invariant (score 10 per invader down, below 300) and revives nothing within the round |
| Properties.HitInvadersUpToKeeps | app/src/main/java/com/dev/spaceinvadersgame/SpaceInvadersView.java:439-458 | so does the whole loop, including a win in its middle |
| Properties.EnemyBricksUpToRetires | app/src/main/java/com/dev/spaceinvadersgame/SpaceInvadersView.java:465-474 | one slot's pass over the bricks only knocks bricks out and retires bullets: no bullet, the player's or any enemy slot, becomes active, and score, lives, the wave and the ship are unchanged |
| Properties.EnemyHitsBricksUpToRetires | app/src/main/java/com/dev/spaceinvadersgame/SpaceInvadersView.java:463-477 | the enemy/shelter loops only knock bricks out and retire bullets, in the same sense, over every slot and the player's bullet |
| Properties.PlayerBricksUpToRetires | app/src/main/java/com/dev/spaceinvadersgame/SpaceInvadersView.java:482-493 | the player/shelter loop only knocks bricks out and retires bullets, in the same sense |
| Properties.ShipHitStepKeeps | app/src/main/java/com/dev/spaceinvadersgame/SpaceInvadersView.java:499-514 | an enemy-bullet/ship test keeps the invariant: with lives > 0 before, lives > 0 after |
| Properties.ShipHitsUpToKeeps | app/src/main/java/com/dev/spaceinvadersgame/SpaceInvadersView.java:498-515 | so does the whole loop, including a game over in its middle |
| Properties.TickKeeps | app/src/main/java/com/dev/spaceinvadersgame/SpaceInvadersView.java:312-516 | a tick keeps the invariant, and within a round nothing hidden reappears |
| Properties.TickBounds | app/src/main/java/com/dev/spaceinvadersgame/SpaceInvadersView.java:312-516 | after a tick: 0 <= nextBullet < 10, slots 10..199 idle, lives > 0, score a multiple of 10 in [0, 300) |
| Properties.ConsistentBounds | app/src/main/java/com/dev/spaceinvadersgame/SpaceInvadersView.java:446-449 | the invariant gives those bounds |
| Properties.NoneRevived | app/src/main/java/com/dev/spaceinvadersgame/SpaceInvadersView.java:439-493 | if the game still runs after the tick, no invader and no brick hidden before it is visible |
| Properties.FrameKeeps | app/src/main/java/com/dev/spaceinvadersgame/SpaceInvadersView.java:257-307 | a pass of the game loop keeps the invariant |
| Properties.ShotKeeps | app/src/main/java/com/dev/spaceinvadersgame/SpaceInvadersView.java:639-645 | a fire request keeps the invariant |
| Properties.PlayerBricksUpToIff | app/src/main/java/com/dev/spaceinvadersgame/SpaceInvadersView.java:483-492 | among the first m bricks, exactly the visible ones the bullet overlaps are knocked out; the bullet stays active exactly when it overlapped none |
| Properties.PlayerHitsBricksIff | app/src/main/java/com/dev/spaceinvadersgame/SpaceInvadersView.java:482-493 | one player bullet, with no early exit, knocks out every visible brick it overlaps and no other |
| Properties.EnemyBricksUpToIff | app/src/main/java/com/dev/spaceinvadersgame/SpaceInvadersView.java:465-474 | among the first m bricks, exactly the visible ones slot i overlaps are knocked out; slot i stays active exactly when it was active and overlapped none of them; no other slot, the player's bullet, the wave and the ship change |
| Properties.EnemyHitsBricksUpToIff | app/src/main/java/com/dev/spaceinvadersgame/SpaceInvadersView.java:463-477 | a brick survives the enemy pass exactly when it was visible and no slot active before the pass overlaps it; no slot becomes active, and the player's bullet, the wave and the ship are unchanged |
| Properties.MenaceRun | app/src/main/java/com/dev/spaceinvadersgame/SpaceInvadersView.java:285-307 | repeated applications of the menace rule change only the cue log, the cue time and uhOrOh |
| Properties.MenaceAlternates | app/src/main/java/com/dev/spaceinvadersgame/SpaceInvadersView.java:285-307 | the menace cues played are all "uh" or "oh", the first is the one uhOrOh named, consecutive ones differ, and uhOrOh afterwards names the one not played last |
| GameLoop.MoveInvaderStepMenace | app/src/main/java/com/dev/spaceinvadersgame/SpaceInvadersView.java:332-371 | an invader's turn keeps uhOrOh, lastMenaceTime and the screen size, keeps the cue log as a prefix and appends no "uh" or "oh" |
| GameLoop.MoveInvadersUpToMenace | app/src/main/java/com/dev/spaceinvadersgame/SpaceInvadersView.java:331-372 | the first n invader turns keep the menace state and the screen and append no menace cue |
| GameLoop.AfterMovesMenace | app/src/main/java/com/dev/spaceinvadersgame/SpaceInvadersView.java:326-434 | the movement half of a tick (ship, invaders, bullets, the bump) keeps the menace state and the screen and appends no menace cue |
| GameLoop.HitInvaderStepMenace | app/src/main/java/com/dev/spaceinvadersgame/SpaceInvadersView.java:441-456 | the player's bullet against one invader, even when it wins the round, keeps the menace state and the screen and appends no menace cue |
| GameLoop.HitInvadersUpToMenace | app/src/main/java/com/dev/spaceinvadersgame/SpaceInvadersView.java:439-458 | the first n invader checks keep the menace state and the screen and append no menace cue |
| GameLoop.EnemyBrickStepMenace | app/src/main/java/com/dev/spaceinvadersgame/SpaceInvadersView.java:465-474 | one enemy bullet against one brick keeps the menace state and the screen and appends no menace cue |
| GameLoop.EnemyBricksUpToMenace | app/src/main/java/com/dev/spaceinvadersgame/SpaceInvadersView.java:465-474 | one enemy bullet against the first m bricks keeps the menace state and the screen and appends no menace cue |
| GameLoop.EnemyHitsBricksUpToMenace | app/src/main/java/com/dev/spaceinvadersgame/SpaceInvadersView.java:463-477 | the first n enemy bullets against the bricks keep the menace state and the screen and append no menace cue |
| GameLoop.PlayerBrickStepMenace | app/src/main/java/com/dev/spaceinvadersgame/SpaceInvadersView.java:482-493 | the player's bullet against one brick keeps the menace state and the screen and appends no menace cue |
| GameLoop.PlayerBricksUpToMenace | app/src/main/java/com/dev/spaceinvadersgame/SpaceInvadersView.java:482-493 | the player's bullet against the first m bricks keeps the menace state and the screen and appends no menace cue |
| GameLoop.ShipHitStepMenace | app/src/main/java/com/dev/spaceinvadersgame/SpaceInvadersView.java:499-514 | one enemy bullet against the ship, even on the last life, keeps the menace state and the screen and appends no menace cue |
| GameLoop.ShipHitsUpToMenace | app/src/main/java/com/dev/spaceinvadersgame/SpaceInvadersView.java:498-515 | the first n enemy bullets against the ship keep the menace state and the screen and append no menace cue |
| GameLoop.TickMenace | app/src/main/java/com/dev/spaceinvadersgame/SpaceInvadersView.java:312-516 | a whole update() keeps uhOrOh, lastMenaceTime and the screen size, keeps the cue log as a prefix and appends no "uh" or "oh" |
| GameLoop.Run | app/src/main/java/com/dev/spaceinvadersgame/SpaceInvadersView.java:257-307 | running the loop (update() when not paused, then the menace rule) over a sequence of passes keeps the level well formed |
| GameLoop.MenaceCues | app/src/main/java/com/dev/spaceinvadersgame/SpaceInvadersView.java:285-307 | the menace cues of a log are at most as many as its entries and are all "uh" or "oh" |
| GameLoop.MenaceCuesAppend | app/src/main/java/com/dev/spaceinvadersgame/SpaceInvadersView.java:285-307 | the menace cues of two logs joined are those of the first followed by those of the second |
| GameLoop.MenaceCuesNone | app/src/main/java/com/dev/spaceinvadersgame/SpaceInvadersView.java:285-307 | a log with no "uh" or "oh" has no menace cues |
| GameLoop.MenaceRuleAfter | app/src/main/java/com/dev/spaceinvadersgame/SpaceInvadersView.java:285-307 | after a stretch that kept the menace state and played no menace cue, the menace rule adds exactly one cue, the one uhOrOh named, and flips uhOrOh, or adds none and keeps uhOrOh |
| GameLoop.FrameMenace | app/src/main/java/com/dev/spaceinvadersgame/SpaceInvadersView.java:257-307 | one pass of the loop plays at most one menace cue: the one uhOrOh named, flipping uhOrOh, or none, keeping it |
| GameLoop.RunAlternates | app/src/main/java/com/dev/spaceinvadersgame/SpaceInvadersView.java:257-307 | over any run of passes the cue log before it is kept, the menace cues played alternate, the first is the one uhOrOh named, uhOrOh afterwards names the one not played last, and with no menace cue uhOrOh is unchanged |
| View.SpaceInvadersView.constructor | app/src/main/java/com/dev/spaceinvadersgame/SpaceInvadersView.java:134-197 | the new view holds `NewGame`'s state |
| View.SpaceInvadersView.PrepareLevel | app/src/main/java/com/dev/spaceinvadersgame/SpaceInvadersView.java:199-249 | in place, the view becomes `Engine.PrepareLevel` of its old state, with a fresh ship |
| View.SpaceInvadersView.BuildSlots | app/src/main/java/com/dev/spaceinvadersgame/SpaceInvadersView.java:215-243 | the three loops together: 200 new idle enemy bullets, the wave in slots 0..29 with numInvaders 30, the shelters in slots 0..199 with numBricks 200, the rest of both arrays untouched |
| View.SpaceInvadersView.RenewBullets | app/src/main/java/com/dev/spaceinvadersgame/SpaceInvadersView.java:212-219 | every one of the 200 slots holds a new idle bullet |
| View.SpaceInvadersView.BuildInvaders | app/src/main/java/com/dev/spaceinvadersgame/SpaceInvadersView.java:224-230 | the nested loops fill slots 0..29 with the grid, column-major, leave 30..59 as they were, and set numInvaders to 30 |
| View.SpaceInvadersView.BuildShelters | app/src/main/java/com/dev/spaceinvadersgame/SpaceInvadersView.java:235-243 | the triple loop fills slots 0..199 with the shelters, leaves 200..399 as they were, and sets numBricks to 200 |
| View.SpaceInvadersView.Update | app/src/main/java/com/dev/spaceinvadersgame/SpaceInvadersView.java:312-516 | in place, the view becomes `Tick` of its old state |
| View.SpaceInvadersView.MoveEverything | app/src/main/java/com/dev/spaceinvadersgame/SpaceInvadersView.java:326-434 | the movement half leaves `AfterMoves` of the old state |
| View.SpaceInvadersView.MoveBullets | app/src/main/java/com/dev/spaceinvadersgame/SpaceInvadersView.java:377-434 | enemy bullets, the drop on a bump, the player's bullet and the off-screen test, in that order |
| View.SpaceInvadersView.MoveShipAndInvaders | app/src/main/java/com/dev/spaceinvadersgame/SpaceInvadersView.java:326-372 | the ship's update and then the invader loop, as `MoveInvadersUpTo` from `MoveShip` of the old state, returning the bumped flag |
| View.SpaceInvadersView.MoveInvaders | app/src/main/java/com/dev/spaceinvadersgame/SpaceInvadersView.java:331-372 | the invader loop leaves `MoveInvadersUpTo` of the old state and returns its bumped flag |
| View.SpaceInvadersView.MoveInvader | app/src/main/java/com/dev/spaceinvadersgame/SpaceInvadersView.java:332-371 | one invader's turn, as `MoveInvaderStep` |
| View.SpaceInvadersView.MoveInvadersBullets | app/src/main/java/com/dev/spaceinvadersgame/SpaceInvadersView.java:377-381 | every active enemy slot moves, idle ones stay |
| View.SpaceInvadersView.DropAndReverseAll | app/src/main/java/com/dev/spaceinvadersgame/SpaceInvadersView.java:391-411 | the bump pass, as `Engine.DropAndReverseAll`; the returned `lost` is true exactly when some invader is now below screenY / 10 |
| View.SpaceInvadersView.RemoveOffScreen | app/src/main/java/com/dev/spaceinvadersgame/SpaceInvadersView.java:423-434 | the boundary pass, as `Engine.RemoveOffScreen` |
| View.SpaceInvadersView.PlayerHitsInvaders | app/src/main/java/com/dev/spaceinvadersgame/SpaceInvadersView.java:439-458 | the player-bullet/invader loop, rebuilding the level in place on a win |
| View.SpaceInvadersView.HitInvader | app/src/main/java/com/dev/spaceinvadersgame/SpaceInvadersView.java:441-456 | one turn of that loop, as `HitInvaderStep` |
| View.SpaceInvadersView.EnemyHitsBricks | app/src/main/java/com/dev/spaceinvadersgame/SpaceInvadersView.java:463-477 | the nested enemy/shelter loops, as `EnemyHitsBricksUpTo` over all 200 slots |
| View.SpaceInvadersView.EnemyHitsBrick | app/src/main/java/com/dev/spaceinvadersgame/SpaceInvadersView.java:466-473 | one slot against one brick, as `EnemyBrickStep` |
| View.SpaceInvadersView.PlayerHitsBricks | app/src/main/java/com/dev/spaceinvadersgame/SpaceInvadersView.java:482-493 | the player/shelter loop, as `PlayerBricksUpTo` over all 200 bricks |
| View.SpaceInvadersView.PlayerHitsBrick | app/src/main/java/com/dev/spaceinvadersgame/SpaceInvadersView.java:484-491 | the player's bullet against one brick, as `PlayerBrickStep` |
| View.SpaceInvadersView.EnemyHitsShip | app/src/main/java/com/dev/spaceinvadersgame/SpaceInvadersView.java:498-515 | the enemy-bullet/ship loop, rebuilding the level in place on a game over |
| View.SpaceInvadersView.EnemyHitsPlayer | app/src/main/java/com/dev/spaceinvadersgame/SpaceInvadersView.java:499-514 | one slot against the ship, as `ShipHitStep` |
| View.SpaceInvadersView.ResetRound | app/src/main/java/com/dev/spaceinvadersgame/SpaceInvadersView.java:449-454 | the restart shared by a win and a game over, in place: the view becomes `Engine.ResetRound` of its old state |
| View.SpaceInvadersView.MenaceCue | app/src/main/java/com/dev/spaceinvadersgame/SpaceInvadersView.java:285-307 | the menace rule, as `Engine.MenaceCue` |
| View.SpaceInvadersView.RunFrame | app/src/main/java/com/dev/spaceinvadersgame/SpaceInvadersView.java:257-307 | update() when not paused, then the menace rule, as `Frame` |
| View.SpaceInvadersView.RequestPlayerShot | app/src/main/java/com/dev/spaceinvadersgame/SpaceInvadersView.java:639-645 | the firing part of a touch, as `Engine.RequestPlayerShot` |

## Left out

- Drawing (`draw()`), the bitmaps of the ship and of the sprites, and `Canvas`/`Paint` are not modelled: they are display only.
- Sound: loading the sound pool is not modelled. Every `soundPool.play` call is one entry appended to the `cues` log, a ghost field of the view.
- Threads: the `playing` flag, the `run()` loop's control, `pause()` and `resume()` are not modelled. `RunFrame` is one pass of the loop.
- Concurrency between touches and the game loop: `onTouchEvent` runs on the UI thread and writes `paused`, the ship's movement state and the player's bullet while `run()` runs on the game thread. The model treats a touch (`RequestPlayerShot`, `SetMovementsState`) as one atomic step between two frames. A shot or a movement change that lands in the middle of `update()` or of the menace rule is not covered, nor is the visibility of those unsynchronised writes across threads.
- The fps measurement from `System.currentTimeMillis()` is not modelled: `fps` is a parameter, and every model member that moves something requires it to be positive. The model covers no frame run with `fps` 0, a case the source reaches in two ways (lines of `SpaceInvadersView.java`).
  - `fps` starts at 0 (line 52), and it changes only after a frame of at least 1 ms (lines 275-278). The game starts paused (line 41), so `update()` first runs after a touch, perhaps while `fps` is still 0.
  - `fps = 1000 / timeThisFrame` (line 277) is `long` division, so any frame longer than 1000 ms sets `fps` to 0 for the next one.
  - With `fps` 0, the float division `shipSpeed / fps` in `PlayerShip.update` gives an infinite step. The same zero divisor reaches the updates of Bullet and Invader, whose code is not part of this model.
- Clock readings are parameters: `startFrameTime` and the second reading stored in `lastMenaceTime`.
- `onTouchEvent`: only the fire request is modelled. The model leaves out three things:
  - how a touch position is classified into a screen region;
  - the `paused = false` of a touch down;
  - the `setMovementsState` calls, which `Ship.PlayerShip.SetMovementsState` models on the ship's side.
- Bullet.java, Invader.java and DefenceBrick.java are not part of this model. Bullet, Invader and DefenceBrick are records with the fields the view reads or changes through their methods.
- `takeAim()` is an input: one boolean per invader slot for the tick.
- Sprites.NewBullet: the width, height and speed are stand-ins. No proved property depends on them.
- Sprites.NewInvader: the sizes and start positions are stand-ins. No proved property depends on them.
- Sprites.NewDefenceBrick: the sizes and start positions are stand-ins. No proved property depends on them.
- Sprites.Bullet.Update: the distance per frame uses a stand-in speed, so its contract states only what stays fixed.
- Sprites.Invader.Update: the distance per frame uses a stand-in speed, so its contract states only what stays fixed.
- In-place object mutation: Java mutates objects in place (a `RectF` is edited field by field, and `getRect()` returns the live object). The model stores values in array slots instead, so aliasing between those objects is not modelled.
- Floating point: Java `float` coordinates are `real`, with no rounding. Java `long` times and the menace interval are unbounded integers, with no overflow.
- Unused array slots: Java leaves slots 30..59 of `invaders` and 200..399 of `bricks` null. The model holds hidden placeholders there, and no loop ever reaches them.
- The getters `getX()`, `getLength()` and `getRect()` of the ship are plain field reads (`GetX`, `GetLength`, `GetRect`), with no contract of their own.
- Engine.MoveInvadersUpTo: its own contract states the untouched slots and the bumped flag; what each moved slot holds is stated by `Properties.MoveInvadersUpToSlots`, and the frame by `Properties.MoveInvadersUpToMoves`.
- Engine.HitInvadersUpTo: its own contract states only the level's shape and the cursor range; what it computes is stated by the lemmas of module `Properties` listed against the same lines.
- Engine.PlayerHitsInvaders: its own contract states only the level's shape and the cursor range; what it computes is stated by the lemmas of module `Properties` listed against the same lines.
- Engine.EnemyBrickStep: its own contract states only the level's shape and the cursor range; what it computes is stated by the lemmas of module `Properties` listed against the same lines.
- Engine.EnemyBricksUpTo: its own contract states only the level's shape and the cursor range; what it computes is stated by the lemmas of module `Properties` listed against the same lines.
- Engine.EnemyHitsBricksUpTo: its own contract states only the level's shape and the cursor range; what it computes is stated by the lemmas of module `Properties` listed against the same lines.
- Engine.PlayerBrickStep: its own contract states only the level's shape and the cursor range; what it computes is stated by the lemmas of module `Properties` listed against the same lines.
- Engine.PlayerBricksUpTo: its own contract states only the level's shape and the cursor range; what it computes is stated by the lemmas of module `Properties` listed against the same lines.
- Engine.PlayerHitsBricks: its own contract states only the level's shape and the cursor range; what it computes is stated by the lemmas of module `Properties` listed against the same lines.
- Engine.ShipHitsUpTo: its own contract states only the level's shape and the cursor range; what it computes is stated by the lemmas of module `Properties` listed against the same lines.
- Engine.AfterMoves: its own contract states only the level's shape and the cursor range; what it computes is stated by the lemmas of module `Properties` listed against the same lines.
- Engine.Tick: its own contract states only the level's shape and the cursor range; what it computes is stated by the lemmas of module `Properties` listed against the same lines.
- Engine.Frame: its own contract states only the level's shape and the cursor range; what it computes is stated by the lemmas of module `Properties` listed against the same lines.
