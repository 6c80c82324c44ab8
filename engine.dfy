/** The game state of SpaceInvadersView as one value, and one tick of update()
    as a function of it. Every loop of update() is a function here that walks
    the same indices in the same order, so that the imperative view in module
    View can be proved to compute exactly this. Loops whose iterations depend
    on one another (the bullet cursor, scores and resets, bricks knocked out by
    earlier bullets) are written as "the first n iterations" functions. */
module Engine {
  import opened Geometry
  import opened Sprites
  import opened Ship

  /** invadersBullets.length: the enemy bullet pool. */
  const BulletPool: int := 200
  /** maxInvaderBullets: the cursor wraps here, so only the first 10 slots are used. */
  const MaxInvaderBullets: int := 10
  /** Capacity of the invaders array and how many prepareLevel builds (6 columns of 5). */
  const InvaderCapacity: int := 60
  const InvaderColumns: int := 6
  const InvaderRows: int := 5
  const NumInvaders: int := 30
  /** Capacity of the bricks array and how many prepareLevel builds (4 shelters of 10 columns of 5). */
  const BrickCapacity: int := 400
  const Shelters: int := 4
  const ShelterColumns: int := 10
  const ShelterRows: int := 5
  const NumBricks: int := 200
  /** Points for one invader. */
  const PointsPerInvader: int := 10
  /** menaceInterval after prepareLevel, and how much each bump takes off it. */
  const MenaceReset: int := 1000
  const MenaceStep: int := 80
  /** The field initialisers: lives, and menaceInterval before the first prepareLevel. */
  const StartingLives: int := 5
  const StartingMenace: int := 1500
  /** Lives after a won or lost round. */
  const LivesAfterReset: int := 3

  /** The sound effects the game plays, in the order they are played. */
  datatype Cue = ShootCue | InvaderExplode | DamageShelter | PlayerExplode | Uh | Oh

  /** Everything update(), prepareLevel() and the menace rule read or write. */
  datatype World = World(
    screenX: int, screenY: int,
    ship: ShipState,
    bullet: Bullet,
    invadersBullets: seq<Bullet>, nextBullet: int,
    invaders: seq<Invader>, numInvaders: int,
    bricks: seq<DefenceBrick>, numBricks: int,
    score: int, lives: int,
    menaceInterval: int, uhOrOh: bool, lastMenaceTime: int,
    paused: bool,
    cues: seq<Cue>)

  /** The arrays have the sizes the view allocates. */
  predicate Capacities(w: World) {
    |w.invadersBullets| == BulletPool && |w.invaders| == InvaderCapacity && |w.bricks| == BrickCapacity
  }

  /** The shape every state has once the view is built: a full level and a cursor
      inside the used part of the pool. */
  predicate WellFormed(w: World) {
    Capacities(w) && w.numInvaders == NumInvaders && w.numBricks == NumBricks &&
    0 <= w.nextBullet < MaxInvaderBullets
  }

  // ---------------------------------------------------------------- prepareLevel

  /** The invaders of a new level, column-major: index column * 5 + row. */
  function InvaderGrid(screenX: int, screenY: int): (g: seq<Invader>)
    ensures |g| == NumInvaders
  {
    seq(NumInvaders, k => NewInvader(k % InvaderRows, k / InvaderRows, screenX, screenY))
  }

  /** The bricks of a new level: index shelter * 50 + column * 5 + row. */
  function BrickGrid(screenX: int, screenY: int): (g: seq<DefenceBrick>)
    ensures |g| == NumBricks
  {
    seq(NumBricks, k => NewDefenceBrick(k % ShelterRows, k / ShelterRows % ShelterColumns,
                                        k / (ShelterRows * ShelterColumns), screenX, screenY))
  }

  /** prepareLevel(): a new ship, a new player bullet, all 200 enemy slots renewed,
      the first 30 invader slots and the first 200 brick slots rebuilt, and the
      menace interval reset. Score, lives, the pause flag and the cursor are left alone. */
  function PrepareLevel(w: World): (r: World)
    requires Capacities(w)
    ensures Capacities(r) && r.numInvaders == NumInvaders && r.numBricks == NumBricks
    ensures r.menaceInterval == MenaceReset && r.ship == NewShip(w.screenX, w.screenY)
    ensures r.score == w.score && r.lives == w.lives && r.paused == w.paused && r.nextBullet == w.nextBullet
    ensures r.screenX == w.screenX && r.screenY == w.screenY && r.cues == w.cues
    ensures r.uhOrOh == w.uhOrOh && r.lastMenaceTime == w.lastMenaceTime
    ensures !r.bullet.active && forall k :: 0 <= k < BulletPool ==> !r.invadersBullets[k].active
    ensures forall k :: 0 <= k < NumInvaders ==> r.invaders[k].visible
    ensures forall k :: 0 <= k < NumBricks ==> r.bricks[k].visible
    ensures r.invaders[NumInvaders..] == w.invaders[NumInvaders..]
    ensures r.bricks[NumBricks..] == w.bricks[NumBricks..]
  {
    w.(ship := NewShip(w.screenX, w.screenY),
       bullet := NewBullet(w.screenY),
       invadersBullets := seq(BulletPool, _ => NewBullet(w.screenY)),
       invaders := InvaderGrid(w.screenX, w.screenY) + w.invaders[NumInvaders..],
       numInvaders := NumInvaders,
       bricks := BrickGrid(w.screenX, w.screenY) + w.bricks[NumBricks..],
       numBricks := NumBricks,
       menaceInterval := MenaceReset)
  }

  /** The view's field initialisers, before its constructor calls prepareLevel().
      Java leaves the unused invader and brick slots null; here they hold hidden
      placeholders that no loop reaches. */
  function Initial(screenX: int, screenY: int, now: int): (w: World)
    ensures Capacities(w)
  {
    World(screenX, screenY, NewShip(screenX, screenY), NewBullet(screenY),
          seq(BulletPool, _ => NewBullet(screenY)), 0,
          seq(InvaderCapacity, _ => NewInvader(0, 0, screenX, screenY).SetInvisible()), 0,
          seq(BrickCapacity, _ => NewDefenceBrick(0, 0, 0, screenX, screenY).SetInvisible()), 0,
          0, StartingLives, StartingMenace, false, now, true, [])
  }

  /** The state the view's constructor leaves: a first level, paused, 5 lives, score 0. */
  function NewGame(screenX: int, screenY: int, now: int): (w: World)
    ensures WellFormed(w) && w.paused && w.score == 0 && w.lives == StartingLives
    ensures w.menaceInterval == MenaceReset && w.nextBullet == 0 && w.cues == []
    ensures w.screenX == screenX && w.screenY == screenY && w.ship == NewShip(screenX, screenY)
    ensures !w.uhOrOh && w.lastMenaceTime == now
    ensures !w.bullet.active && forall k :: 0 <= k < BulletPool ==> !w.invadersBullets[k].active
    ensures forall k :: 0 <= k < NumInvaders ==> w.invaders[k].visible
    ensures forall j :: 0 <= j < NumBricks ==> w.bricks[j].visible
  {
    PrepareLevel(Initial(screenX, screenY, now))
  }

  /** What a won round (all invaders hit) and a lost game (no lives left) both do:
      pause, score 0, lives 3, and a new level. */
  function ResetRound(w: World): (r: World)
    requires Capacities(w)
    ensures Capacities(r) && r.numInvaders == NumInvaders && r.numBricks == NumBricks
    ensures r.paused && r.score == 0 && r.lives == LivesAfterReset
    ensures r.nextBullet == w.nextBullet && r.cues == w.cues
    ensures r.screenX == w.screenX && r.screenY == w.screenY
    ensures r.uhOrOh == w.uhOrOh && r.lastMenaceTime == w.lastMenaceTime
    ensures r.menaceInterval == MenaceReset && r.ship == NewShip(w.screenX, w.screenY)
    ensures !r.bullet.active && forall k :: 0 <= k < BulletPool ==> !r.invadersBullets[k].active
    ensures forall k :: 0 <= k < NumInvaders ==> r.invaders[k].visible
    ensures forall j :: 0 <= j < NumBricks ==> r.bricks[j].visible
  {
    PrepareLevel(w.(paused := true, score := 0, lives := LivesAfterReset))
  }

  // ---------------------------------------------------------------- update(): moving

  /** The player's ship moves first; nothing else changes. */
  function MoveShip(w: World, fps: int): (r: World)
    requires fps > 0
    ensures r.ship == ShipUpdate(w.ship, fps) && r == w.(ship := r.ship)
  {
    w.(ship := ShipUpdate(w.ship, fps))
  }

  /** True if an invader at `v` is past either side of the screen, that is, not
      wholly inside [0, screenX]. */
  function OffSides(v: Invader, screenX: int): (b: bool)
    ensures b <==> !(0.0 <= v.x && v.x + v.length <= screenX as real)
  {
    v.x > screenX as real - v.length || v.x < 0.0
  }

  /** What an invader slot holds after its own turn in the first loop of update():
      a visible invader has moved, a hidden one is left where it is. */
  function Moved(v: Invader, fps: int): (m: Invader)
    requires fps > 0
    ensures m.visible == v.visible && m.y == v.y && m.length == v.length
    ensures !v.visible ==> m == v
  {
    if v.visible then v.Update(fps) else v
  }

  /** An invader that takes aim tries slot nextBullet. Only a shot that slot accepts
      moves the cursor on, and the cursor wraps from 10 back to 0. */
  function AimAndFire(w: World, v: Invader): (r: World)
    requires WellFormed(w)
    ensures WellFormed(r)
    ensures r == w.(invadersBullets := r.invadersBullets, nextBullet := r.nextBullet)
    ensures w.invadersBullets[w.nextBullet].active ==> r == w
    ensures !w.invadersBullets[w.nextBullet].active ==>
              r.nextBullet == (w.nextBullet + 1) % MaxInvaderBullets &&
              r.invadersBullets == w.invadersBullets[w.nextBullet :=
                w.invadersBullets[w.nextBullet].(x := v.x + v.length / 2.0, y := v.y,
                                                 heading := Down, active := true)]
  {
    var shot := w.invadersBullets[w.nextBullet].Shoot(v.x + v.length / 2.0, v.y, Down);
    var next := if shot.1 then (if w.nextBullet + 1 == MaxInvaderBullets then 0 else w.nextBullet + 1)
                else w.nextBullet;
    assert !shot.1 ==> w.invadersBullets[w.nextBullet := shot.0] == w.invadersBullets;
    w.(invadersBullets := w.invadersBullets[w.nextBullet := shot.0], nextBullet := next)
  }

  /** Invader i's turn in the first loop of update(): a hidden invader is skipped;
      a visible one moves, perhaps fires, and reports whether it is past a side. */
  function MoveInvaderStep(w: World, i: int, fps: int, aim: bool): (r: (World, bool))
    requires WellFormed(w) && 0 <= i < NumInvaders && fps > 0
    ensures WellFormed(r.0)
    ensures r.0.invaders == w.invaders[i := Moved(w.invaders[i], fps)]
    ensures r.0.screenX == w.screenX
    ensures r.1 <==> w.invaders[i].visible && OffSides(w.invaders[i].Update(fps), w.screenX)
    ensures !(w.invaders[i].visible && aim) ==> r.0 == w.(invaders := r.0.invaders)
    ensures w.invaders[i].visible && aim ==>
              r.0 == AimAndFire(w.(invaders := r.0.invaders), Moved(w.invaders[i], fps))
  {
    var v := w.invaders[i];
    if !v.visible then (w, false)
    else
      var moved := v.Update(fps);
      var w1 := w.(invaders := w.invaders[i := moved]);
      var w2 := if aim then AimAndFire(w1, moved) else w1;
      (w2, OffSides(moved, w.screenX))
  }

  /** The first n turns of that loop, with the bumped flag as it then stands.
      `aims[i]` is what invader i's takeAim() would answer this frame. */
  function MoveInvadersUpTo(w: World, fps: int, aims: seq<bool>, n: int): (r: (World, bool))
    requires WellFormed(w) && fps > 0 && |aims| == NumInvaders && 0 <= n <= NumInvaders
    ensures WellFormed(r.0) && r.0.screenX == w.screenX
    ensures forall k :: n <= k < InvaderCapacity ==> r.0.invaders[k] == w.invaders[k]
    ensures r.1 <==> exists k :: 0 <= k < n && w.invaders[k].visible &&
                                 OffSides(w.invaders[k].Update(fps), w.screenX)
    decreases n
  {
    if n == 0 then (w, false)
    else
      var before := MoveInvadersUpTo(w, fps, aims, n - 1);
      var step := MoveInvaderStep(before.0, n - 1, fps, aims[n - 1]);
      (step.0, before.1 || step.1)
  }

  /** Every active enemy bullet moves; idle slots stay where they are. */
  function MoveInvadersBullets(w: World, fps: int): (r: World)
    requires Capacities(w) && fps > 0
    ensures r == w.(invadersBullets := r.invadersBullets) && |r.invadersBullets| == BulletPool
    ensures forall k :: 0 <= k < BulletPool ==>
              r.invadersBullets[k].active == w.invadersBullets[k].active &&
              (!w.invadersBullets[k].active ==> r.invadersBullets[k] == w.invadersBullets[k]) &&
              (w.invadersBullets[k].active ==> r.invadersBullets[k] == w.invadersBullets[k].Update(fps))
  {
    w.(invadersBullets := seq(BulletPool, k requires 0 <= k < BulletPool =>
         if w.invadersBullets[k].active then w.invadersBullets[k].Update(fps) else w.invadersBullets[k]))
  }

  /** The bump: every invader slot in use, hidden or not, drops and turns round,
      and the menace interval shrinks by 80 with no lower bound. */
  function DropAndReverseAll(w: World): (r: World)
    requires Capacities(w) && 0 <= w.numInvaders <= InvaderCapacity
    ensures r == w.(invaders := r.invaders, menaceInterval := r.menaceInterval)
    ensures r.menaceInterval == w.menaceInterval - MenaceStep && |r.invaders| == InvaderCapacity
    ensures forall k :: 0 <= k < w.numInvaders ==>
              r.invaders[k].visible == w.invaders[k].visible &&
              r.invaders[k].movingRight == !w.invaders[k].movingRight &&
              r.invaders[k].y == w.invaders[k].y + w.invaders[k].height
    ensures forall k :: w.numInvaders <= k < InvaderCapacity ==> r.invaders[k] == w.invaders[k]
  {
    w.(invaders := seq(InvaderCapacity, k requires 0 <= k < InvaderCapacity =>
         if k < w.numInvaders then w.invaders[k].DropDownAndReverse() else w.invaders[k]),
       menaceInterval := w.menaceInterval - MenaceStep)
  }

  /** The `lost` flag of the bump loop: some invader is now below a tenth of the screen. */
  function Landed(w: World): (b: bool)
    requires Capacities(w) && 0 <= w.numInvaders <= InvaderCapacity
    ensures !b <==> forall k :: 0 <= k < w.numInvaders ==> w.invaders[k].y <= JavaDiv(w.screenY, 10) as real
  {
    exists k :: 0 <= k < w.numInvaders && w.invaders[k].y > JavaDiv(w.screenY, 10) as real
  }

  /** The player's bullet moves if it is in flight. */
  function MovePlayerBullet(w: World, fps: int): (r: World)
    requires fps > 0
    ensures r == w.(bullet := r.bullet) && r.bullet.active == w.bullet.active
    ensures !w.bullet.active ==> r == w
    ensures w.bullet.active ==> r.bullet == w.bullet.Update(fps)
    ensures w.bullet.active ==> r.bullet.rect == Rect(w.bullet.x, r.bullet.y, w.bullet.x + w.bullet.width,
                                                      r.bullet.y + w.bullet.height)
  {
    if w.bullet.active then w.(bullet := w.bullet.Update(fps)) else w
  }

  /** The player's bullet goes idle past the top, every enemy slot past the bottom.
      Idle slots are looked at too; setting one idle again changes nothing. */
  function RemoveOffScreen(w: World): (r: World)
    requires Capacities(w)
    ensures r == w.(bullet := r.bullet, invadersBullets := r.invadersBullets)
    ensures |r.invadersBullets| == BulletPool
    ensures r.bullet.active <==> w.bullet.active && w.bullet.ImpactPointY() >= 0.0
    ensures r.bullet == w.bullet.(active := r.bullet.active)
    ensures forall k :: 0 <= k < BulletPool ==>
              (r.invadersBullets[k].active <==>
                 w.invadersBullets[k].active && w.invadersBullets[k].ImpactPointY() <= w.screenY as real) &&
              r.invadersBullets[k] == w.invadersBullets[k].(active := r.invadersBullets[k].active)
  {
    var b := if w.bullet.ImpactPointY() < 0.0 then w.bullet.SetInactive() else w.bullet;
    w.(bullet := b,
       invadersBullets := seq(BulletPool, k requires 0 <= k < BulletPool =>
         if w.invadersBullets[k].ImpactPointY() > w.screenY as real
         then w.invadersBullets[k].SetInactive() else w.invadersBullets[k]))
  }

  // ---------------------------------------------------------------- update(): collisions

  /** The player's bullet against invader i. A hit hides the invader, retires the
      bullet and scores 10; the score then reaching 10 per invader wins the round.
      The loop does not look at the bullet's status again, so a retired bullet still
      hits whatever else its rectangle overlaps. */
  function HitInvaderStep(w: World, i: int): (r: World)
    requires WellFormed(w) && 0 <= i < NumInvaders
    ensures WellFormed(r)
    ensures var hit := w.invaders[i].visible && Intersects(w.bullet.rect, w.invaders[i].rect);
            var won := w.score + PointsPerInvader == NumInvaders * PointsPerInvader;
            (!hit ==> r == w) &&
            (hit ==> r.cues == w.cues + [InvaderExplode] && !r.bullet.active) &&
            (hit && !won ==> r.score == w.score + PointsPerInvader && !r.invaders[i].visible &&
                             r.lives == w.lives && r.paused == w.paused &&
                             r.invaders == w.invaders[i := w.invaders[i].SetInvisible()] &&
                             r.invadersBullets == w.invadersBullets && r.bricks == w.bricks &&
                             r.bullet == w.bullet.SetInactive() &&
                             r == w.(invaders := r.invaders, cues := r.cues, bullet := r.bullet, score := r.score)) &&
            (hit && won ==> r.paused && r.score == 0 && r.lives == LivesAfterReset && r.nextBullet == w.nextBullet &&
                            r.menaceInterval == MenaceReset && r.ship == NewShip(w.screenX, w.screenY) &&
                            (forall k :: 0 <= k < BulletPool ==> !r.invadersBullets[k].active) &&
                            (forall k :: 0 <= k < NumInvaders ==> r.invaders[k].visible) &&
                            (forall j :: 0 <= j < NumBricks ==> r.bricks[j].visible))
  {
    var v := w.invaders[i];
    if v.visible && Intersects(w.bullet.rect, v.rect) then
      var hit := w.(invaders := w.invaders[i := v.SetInvisible()],
                    cues := w.cues + [InvaderExplode],
                    bullet := w.bullet.SetInactive(),
                    score := w.score + PointsPerInvader);
      if hit.score == hit.numInvaders * PointsPerInvader then ResetRound(hit) else hit
    else w
  }

  /** The first n turns of the player-bullet/invader loop. */
  function HitInvadersUpTo(w: World, n: int): (r: World)
    requires WellFormed(w) && 0 <= n <= NumInvaders
    ensures WellFormed(r)
    decreases n
  {
    if n == 0 then w else HitInvaderStep(HitInvadersUpTo(w, n - 1), n - 1)
  }

  /** The loop runs only if the bullet was in flight when it was reached. */
  function PlayerHitsInvaders(w: World): (r: World)
    requires WellFormed(w)
    ensures WellFormed(r)
  {
    if w.bullet.active then HitInvadersUpTo(w, NumInvaders) else w
  }

  /** Enemy slot i against brick j: a hit retires the bullet and knocks the brick out. */
  function EnemyBrickStep(w: World, i: int, j: int): (r: World)
    requires WellFormed(w) && 0 <= i < BulletPool && 0 <= j < NumBricks
    ensures WellFormed(r)
  {
    var b := w.invadersBullets[i];
    if w.bricks[j].visible && Intersects(b.rect, w.bricks[j].rect) then
      w.(invadersBullets := w.invadersBullets[i := b.SetInactive()],
         bricks := w.bricks[j := w.bricks[j].SetInvisible()],
         cues := w.cues + [DamageShelter])
    else w
  }

  /** Enemy slot i against the first m bricks; nothing stops the walk at the first hit. */
  function EnemyBricksUpTo(w: World, i: int, m: int): (r: World)
    requires WellFormed(w) && 0 <= i < BulletPool && 0 <= m <= NumBricks
    ensures WellFormed(r)
    decreases m
  {
    if m == 0 then w else EnemyBrickStep(EnemyBricksUpTo(w, i, m - 1), i, m - 1)
  }

  /** The first n enemy slots against the shelters; a slot idle when its turn comes is skipped. */
  function EnemyHitsBricksUpTo(w: World, n: int): (r: World)
    requires WellFormed(w) && 0 <= n <= BulletPool
    ensures WellFormed(r)
    decreases n
  {
    if n == 0 then w
    else
      var before := EnemyHitsBricksUpTo(w, n - 1);
      if before.invadersBullets[n - 1].active then EnemyBricksUpTo(before, n - 1, NumBricks) else before
  }

  /** The player's bullet against brick j. */
  function PlayerBrickStep(w: World, j: int): (r: World)
    requires WellFormed(w) && 0 <= j < NumBricks
    ensures WellFormed(r)
  {
    if w.bricks[j].visible && Intersects(w.bullet.rect, w.bricks[j].rect) then
      w.(bullet := w.bullet.SetInactive(),
         bricks := w.bricks[j := w.bricks[j].SetInvisible()],
         cues := w.cues + [DamageShelter])
    else w
  }

  /** The player's bullet against the first m bricks. */
  function PlayerBricksUpTo(w: World, m: int): (r: World)
    requires WellFormed(w) && 0 <= m <= NumBricks
    ensures WellFormed(r)
    decreases m
  {
    if m == 0 then w else PlayerBrickStep(PlayerBricksUpTo(w, m - 1), m - 1)
  }

  /** That loop runs only if the bullet was in flight when it was reached. */
  function PlayerHitsBricks(w: World): (r: World)
    requires WellFormed(w)
    ensures WellFormed(r)
  {
    if w.bullet.active then PlayerBricksUpTo(w, NumBricks) else w
  }

  /** Enemy slot i against the ship: a hit retires the bullet and costs a life;
      the last life lost ends the game, which starts over paused with 3 lives and score 0. */
  function ShipHitStep(w: World, i: int): (r: World)
    requires WellFormed(w) && 0 <= i < BulletPool
    ensures WellFormed(r)
    ensures var hit := w.invadersBullets[i].active && Intersects(w.ship.rect, w.invadersBullets[i].rect);
            (!hit ==> r == w) &&
            (hit ==> r.cues == w.cues + [PlayerExplode] && !r.invadersBullets[i].active) &&
            (hit && w.lives != 1 ==> r.lives == w.lives - 1 && r.score == w.score && r.paused == w.paused &&
                                     r.invaders == w.invaders && r.bricks == w.bricks &&
                                     r.invadersBullets == w.invadersBullets[i := w.invadersBullets[i].SetInactive()] &&
                                     r == w.(invadersBullets := r.invadersBullets, lives := r.lives, cues := r.cues)) &&
            (hit && w.lives == 1 ==> r.paused && r.lives == LivesAfterReset && r.score == 0 &&
                                     r.nextBullet == w.nextBullet &&
                                     r.menaceInterval == MenaceReset && r.ship == NewShip(w.screenX, w.screenY) &&
                                     !r.bullet.active &&
                                     (forall k :: 0 <= k < BulletPool ==> !r.invadersBullets[k].active) &&
                                     (forall k :: 0 <= k < NumInvaders ==> r.invaders[k].visible) &&
                                     (forall j :: 0 <= j < NumBricks ==> r.bricks[j].visible))
  {
    var b := w.invadersBullets[i];
    if b.active && Intersects(w.ship.rect, b.rect) then
      var hit := w.(invadersBullets := w.invadersBullets[i := b.SetInactive()],
                    lives := w.lives - 1,
                    cues := w.cues + [PlayerExplode]);
      if hit.lives == 0 then ResetRound(hit) else hit
    else w
  }

  /** The first n enemy slots against the ship. */
  function ShipHitsUpTo(w: World, n: int): (r: World)
    requires WellFormed(w) && 0 <= n <= BulletPool
    ensures WellFormed(r)
    decreases n
  {
    if n == 0 then w else ShipHitStep(ShipHitsUpTo(w, n - 1), n - 1)
  }

  // ---------------------------------------------------------------- one tick

  /** Whether the first loop of update() sets `bumped`. */
  function Bumped(w: World, fps: int, aims: seq<bool>): (b: bool)
    requires WellFormed(w) && fps > 0 && |aims| == NumInvaders
    ensures b <==> exists k :: 0 <= k < NumInvaders && w.invaders[k].visible &&
                               OffSides(w.invaders[k].Update(fps), w.screenX)
  {
    MoveInvadersUpTo(MoveShip(w, fps), fps, aims, NumInvaders).1
  }

  /** The state once everything has moved, before any collision is looked at. */
  function AfterMoves(w: World, fps: int, aims: seq<bool>): (r: World)
    requires WellFormed(w) && fps > 0 && |aims| == NumInvaders
    ensures WellFormed(r)
  {
    var moved := MoveInvadersUpTo(MoveShip(w, fps), fps, aims, NumInvaders);
    var w3 := MoveInvadersBullets(moved.0, fps);
    // `lost` is still false where update() tests it, so landing never rebuilds the level.
    var w4 := if moved.1 then DropAndReverseAll(w3) else w3;
    RemoveOffScreen(MovePlayerBullet(w4, fps))
  }

  /** update(): one frame, in the order update() runs its loops. */
  function Tick(w: World, fps: int, aims: seq<bool>): (r: World)
    requires WellFormed(w) && fps > 0 && |aims| == NumInvaders
    ensures WellFormed(r)
  {
    var moved := AfterMoves(w, fps, aims);
    ShipHitsUpTo(PlayerHitsBricks(EnemyHitsBricksUpTo(PlayerHitsInvaders(moved), BulletPool)), BulletPool)
  }

  // ---------------------------------------------------------------- run() and touches

  /** The menace rule of run(): while the game runs, once more than menaceInterval ms
      have passed since the last cue, play "uh" or "oh" as uhOrOh says, note the time
      (`now`, a second clock reading) and switch to the other cue.
      The ensures spells the rule out case by case because `GameLoop.FrameMenace` and
      `GameLoop.RunAlternates` reason from it; what the rule means over a run is theirs. */
  function MenaceCue(w: World, startFrameTime: int, now: int): (r: World)
    ensures var due := !w.paused && startFrameTime - w.lastMenaceTime > w.menaceInterval;
            (due ==> r == w.(cues := w.cues + [if w.uhOrOh then Uh else Oh],
                             lastMenaceTime := now, uhOrOh := !w.uhOrOh)) &&
            (!due ==> r == w)
  {
    if !w.paused && startFrameTime - w.lastMenaceTime > w.menaceInterval then
      w.(cues := w.cues + [if w.uhOrOh then Uh else Oh], lastMenaceTime := now, uhOrOh := !w.uhOrOh)
    else w
  }

  /** One pass of run()'s loop without drawing and fps measurement: update() if not
      paused, then the menace rule, which sees the pause update() may have set. */
  function Frame(w: World, startFrameTime: int, fps: int, aims: seq<bool>, now: int): (r: World)
    requires WellFormed(w) && fps > 0 && |aims| == NumInvaders
    ensures WellFormed(r)
  {
    MenaceCue(if !w.paused then Tick(w, fps, aims) else w, startFrameTime, now)
  }

  /** A touch in the upper part of the screen: the player's bullet is fired from the
      middle of the ship at the bottom edge, unless it is already in flight. */
  function RequestPlayerShot(w: World): (r: (World, bool))
    ensures r.1 <==> !w.bullet.active
    ensures !r.1 ==> r.0 == w
    ensures r.1 ==> r.0 == w.(bullet := w.bullet.(x := w.ship.x + w.ship.length / 2.0, y := w.screenY as real,
                                                  heading := Up, active := true),
                              cues := w.cues + [ShootCue])
  {
    var shot := w.bullet.Shoot(w.ship.x + w.ship.length / 2.0, w.screenY as real, Up);
    (w.(bullet := shot.0, cues := if shot.1 then w.cues + [ShootCue] else w.cues), shot.1)
  }
}
