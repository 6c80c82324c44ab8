/** SpaceInvadersView: the game state in fields and fixed-size arrays, changed in
    place by prepareLevel(), update() and the menace rule of run(). Every method
    is proved to leave Snapshot() equal to the matching function of module Engine
    applied to the state it started from. */
module View {
  import opened Geometry
  import opened Sprites
  import opened Ship
  import opened Engine
  import Layout

  class SpaceInvadersView {
    const screenX: int
    const screenY: int
    var playerShip: PlayerShip
    /** The player's bullet. */
    var bullet: Bullet
    /** The enemy bullet pool and its round-robin cursor. */
    const invadersBullets: array<Bullet>
    var nextBullet: int
    const maxInvaderBullets: int := 10
    /** Up to 60 invaders, of which prepareLevel fills 30. */
    const invaders: array<Invader>
    var numInvaders: int
    /** Up to 400 bricks, of which prepareLevel fills 200. */
    const bricks: array<DefenceBrick>
    var numBricks: int
    var score: int
    var lives: int
    /** Milliseconds between menace cues, which cue comes next, and when the last one played. */
    var menaceInterval: int
    var uhOrOh: bool
    var lastMenaceTime: int
    var paused: bool
    /** The sound effects played so far, in order. */
    ghost var cues: seq<Cue>

    /** The whole state as a value. */
    ghost function Snapshot(): World
      reads this, playerShip, invadersBullets, invaders, bricks
    {
      World(screenX, screenY, playerShip.State(), bullet, invadersBullets[..], nextBullet,
            invaders[..], numInvaders, bricks[..], numBricks, score, lives,
            menaceInterval, uhOrOh, lastMenaceTime, paused, cues)
    }

    /** The arrays have the sizes the view allocates. */
    ghost predicate Allocated()
      reads this
    {
      invadersBullets.Length == BulletPool && invaders.Length == InvaderCapacity &&
      bricks.Length == BrickCapacity
    }

    ghost predicate Valid()
      reads this, playerShip, invadersBullets, invaders, bricks
    {
      Allocated() && WellFormed(Snapshot())
    }

    /** SpaceInvadersView(context, x, y) without sounds and graphics; `now` is the
        clock reading lastMenaceTime starts from. */
    constructor (x: int, y: int, now: int)
      ensures Valid() && Snapshot() == NewGame(x, y, now)
    {
      screenX, screenY := x, y;
      playerShip := new PlayerShip(x, y);
      bullet := NewBullet(y);
      invadersBullets := new Bullet[BulletPool](_ => NewBullet(y));
      nextBullet := 0;
      invaders := new Invader[InvaderCapacity](_ => NewInvader(0, 0, x, y).SetInvisible());
      numInvaders := 0;
      bricks := new DefenceBrick[BrickCapacity](_ => NewDefenceBrick(0, 0, 0, x, y).SetInvisible());
      numBricks := 0;
      score, lives := 0, StartingLives;
      menaceInterval, uhOrOh, lastMenaceTime := StartingMenace, false, now;
      paused := true;
      cues := [];
      new;
      assert Snapshot() == Initial(x, y, now);
      PrepareLevel();
    }

    /** prepareLevel(). */
    method PrepareLevel()
      requires Allocated()
      modifies this, invadersBullets, invaders, bricks
      ensures Allocated() && fresh(playerShip)
      ensures Snapshot() == Engine.PrepareLevel(old(Snapshot()))
    {
      ghost var w0 := Snapshot();
      playerShip := new PlayerShip(screenX, screenY);
      bullet := NewBullet(screenY);
      BuildSlots();
      menaceInterval := MenaceReset;
      ghost var r := Engine.PrepareLevel(w0);
      assert invadersBullets[..] == r.invadersBullets;
      assert invaders[..] == r.invaders;
      assert bricks[..] == r.bricks;
    }

    /** The three loops of prepareLevel(): the enemy slots, the wave, the shelters. */
    method BuildSlots()
      requires Allocated()
      modifies this`numInvaders, this`numBricks, invadersBullets, invaders, bricks
      ensures numInvaders == NumInvaders && numBricks == NumBricks
      ensures invadersBullets[..] == seq(BulletPool, _ => NewBullet(screenY))
      ensures invaders[..] == InvaderGrid(screenX, screenY) + old(invaders[..])[NumInvaders..]
      ensures bricks[..] == BrickGrid(screenX, screenY) + old(bricks[..])[NumBricks..]
    {
      RenewBullets();
      BuildInvaders();
      BuildShelters();
    }

    /** The loop of prepareLevel() that puts a new bullet in every enemy slot. */
    method RenewBullets()
      requires Allocated()
      modifies invadersBullets
      ensures invadersBullets[..] == seq(BulletPool, _ => NewBullet(screenY))
    {
      for i := 0 to invadersBullets.Length
        invariant forall k :: 0 <= k < i ==> invadersBullets[k] == NewBullet(screenY)
      {
        invadersBullets[i] := NewBullet(screenY);
      }
    }

    /** The loops of prepareLevel() that build the wave, column by column. */
    method BuildInvaders()
      requires Allocated()
      modifies this`numInvaders, invaders
      ensures numInvaders == NumInvaders
      ensures invaders[..] == InvaderGrid(screenX, screenY) + old(invaders[..])[NumInvaders..]
    {
      numInvaders := 0;
      for column := 0 to InvaderColumns
        invariant numInvaders == column * InvaderRows
        invariant forall k :: 0 <= k < numInvaders ==> invaders[k] == InvaderGrid(screenX, screenY)[k]
        invariant forall k :: NumInvaders <= k < InvaderCapacity ==> invaders[k] == old(invaders[k])
      {
        for row := 0 to InvaderRows
          invariant numInvaders == column * InvaderRows + row
          invariant forall k :: 0 <= k < numInvaders ==> invaders[k] == InvaderGrid(screenX, screenY)[k]
          invariant forall k :: NumInvaders <= k < InvaderCapacity ==> invaders[k] == old(invaders[k])
        {
          Layout.InvaderGridAt(screenX, screenY, column, row);
          invaders[numInvaders] := NewInvader(row, column, screenX, screenY);
          numInvaders := numInvaders + 1;
        }
      }
    }

    /** The loops of prepareLevel() that build the four shelters. */
    method BuildShelters()
      requires Allocated()
      modifies this`numBricks, bricks
      ensures numBricks == NumBricks
      ensures bricks[..] == BrickGrid(screenX, screenY) + old(bricks[..])[NumBricks..]
    {
      numBricks := 0;
      for shelterNumber := 0 to Shelters
        invariant numBricks == shelterNumber * ShelterColumns * ShelterRows
        invariant forall k :: 0 <= k < numBricks ==> bricks[k] == BrickGrid(screenX, screenY)[k]
        invariant forall k :: NumBricks <= k < BrickCapacity ==> bricks[k] == old(bricks[k])
      {
        for column := 0 to ShelterColumns
          invariant numBricks == (shelterNumber * ShelterColumns + column) * ShelterRows
          invariant forall k :: 0 <= k < numBricks ==> bricks[k] == BrickGrid(screenX, screenY)[k]
          invariant forall k :: NumBricks <= k < BrickCapacity ==> bricks[k] == old(bricks[k])
        {
          for row := 0 to ShelterRows
            invariant numBricks == (shelterNumber * ShelterColumns + column) * ShelterRows + row
            invariant forall k :: 0 <= k < numBricks ==> bricks[k] == BrickGrid(screenX, screenY)[k]
            invariant forall k :: NumBricks <= k < BrickCapacity ==> bricks[k] == old(bricks[k])
          {
            Layout.BrickGridAt(screenX, screenY, shelterNumber, column, row);
            bricks[numBricks] := NewDefenceBrick(row, column, shelterNumber, screenX, screenY);
            numBricks := numBricks + 1;
          }
        }
      }
    }

    /** update(): one frame. `aims[i]` is what invader i's takeAim() answers. */
    method Update(fps: int, aims: seq<bool>)
      requires Valid() && fps > 0 && |aims| == NumInvaders
      modifies this, playerShip, invadersBullets, invaders, bricks
      ensures Valid()
      ensures Snapshot() == Tick(old(Snapshot()), fps, aims)
    {
      MoveEverything(fps, aims);
      if bullet.active {
        PlayerHitsInvaders();
      }
      EnemyHitsBricks();
      if bullet.active {
        PlayerHitsBricks();
      }
      EnemyHitsShip();
    }

    /** The movement half of update(): the ship, the invaders (which may fire), then
        the bullets and the drop on a bump. */
    method MoveEverything(fps: int, aims: seq<bool>)
      requires Valid() && fps > 0 && |aims| == NumInvaders
      modifies this, playerShip, invadersBullets, invaders
      ensures Valid()
      ensures Snapshot() == AfterMoves(old(Snapshot()), fps, aims)
    {
      var bumped := MoveShipAndInvaders(fps, aims);
      MoveBullets(fps, bumped);
    }

    /** The ship, then the invader loop. */
    method MoveShipAndInvaders(fps: int, aims: seq<bool>) returns (bumped: bool)
      requires Valid() && fps > 0 && |aims| == NumInvaders
      modifies playerShip, this`nextBullet, invadersBullets, invaders
      ensures Valid()
      ensures (Snapshot(), bumped) == MoveInvadersUpTo(MoveShip(old(Snapshot()), fps), fps, aims, NumInvaders)
    {
      ghost var w0 := Snapshot();
      playerShip.Update(fps);
      assert Snapshot() == MoveShip(w0, fps);
      bumped := MoveInvaders(fps, aims);
    }

    /** The rest of the movement half: the enemy bullets, the drop if some invader
        bumped, the player's bullet, and the off-screen test. */
    method MoveBullets(fps: int, bumped: bool)
      requires Valid() && fps > 0
      modifies this, invadersBullets, invaders
      ensures Valid()
      ensures var w3 := Engine.MoveInvadersBullets(old(Snapshot()), fps);
              Snapshot() == Engine.RemoveOffScreen(MovePlayerBullet(
                              if bumped then Engine.DropAndReverseAll(w3) else w3, fps))
    {
      var lost := false;
      MoveInvadersBullets(fps);
      // The landing test comes before the bump pass that could set `lost`.
      assert !lost;
      if bumped {
        lost := DropAndReverseAll();
      }
      ghost var w4 := Snapshot();
      if bullet.active {
        bullet := bullet.Update(fps);
      }
      assert Snapshot() == MovePlayerBullet(w4, fps);
      RemoveOffScreen();
    }

    /** The first loop of update(): each visible invader moves, may fire into slot
        nextBullet, and raises `bumped` if it is now past a side of the screen. */
    method MoveInvaders(fps: int, aims: seq<bool>) returns (bumped: bool)
      requires Valid() && fps > 0 && |aims| == NumInvaders
      modifies this`nextBullet, invadersBullets, invaders
      ensures Valid()
      ensures (Snapshot(), bumped) == MoveInvadersUpTo(old(Snapshot()), fps, aims, NumInvaders)
    {
      bumped := false;
      var i := 0;
      while i < numInvaders
        invariant Valid() && 0 <= i <= NumInvaders
        invariant (Snapshot(), bumped) == MoveInvadersUpTo(old(Snapshot()), fps, aims, i)
      {
        var bump := MoveInvader(i, fps, aims[i]);
        bumped := bumped || bump;
        i := i + 1;
      }
    }

    /** Invader i's turn in that loop. */
    method MoveInvader(i: int, fps: int, aim: bool) returns (bump: bool)
      requires Valid() && 0 <= i < NumInvaders && fps > 0
      modifies this`nextBullet, invadersBullets, invaders
      ensures (Snapshot(), bump) == MoveInvaderStep(old(Snapshot()), i, fps, aim)
    {
      bump := false;
      if invaders[i].visible {
        invaders[i] := invaders[i].Update(fps);
        if aim {
          var shot := invadersBullets[nextBullet].Shoot(invaders[i].x + invaders[i].length / 2.0,
                                                        invaders[i].y, Down);
          if shot.1 {
            invadersBullets[nextBullet] := shot.0;
            nextBullet := nextBullet + 1;
            if nextBullet == maxInvaderBullets {
              nextBullet := 0;
            }
          }
        }
        if invaders[i].x > screenX as real - invaders[i].length || invaders[i].x < 0.0 {
          bump := true;
        }
      }
    }

    /** The second loop: every active enemy bullet moves. */
    method MoveInvadersBullets(fps: int)
      requires Valid() && fps > 0
      modifies invadersBullets
      ensures Valid()
      ensures Snapshot() == Engine.MoveInvadersBullets(old(Snapshot()), fps)
    {
      for i := 0 to invadersBullets.Length
        invariant forall k :: 0 <= k < i ==>
                    invadersBullets[k] == (if old(invadersBullets[k]).active
                                           then old(invadersBullets[k]).Update(fps)
                                           else old(invadersBullets[k]))
        invariant forall k :: i <= k < BulletPool ==> invadersBullets[k] == old(invadersBullets[k])
      {
        if invadersBullets[i].active {
          invadersBullets[i] := invadersBullets[i].Update(fps);
        }
      }
      assert invadersBullets[..] == Engine.MoveInvadersBullets(old(Snapshot()), fps).invadersBullets;
    }

    /** The bump: every invader drops and turns round, `lost` records whether one is
        now below a tenth of the screen, and the menace interval shrinks by 80. */
    method DropAndReverseAll() returns (lost: bool)
      requires Valid()
      modifies this, invaders
      ensures Valid()
      ensures Snapshot() == Engine.DropAndReverseAll(old(Snapshot()))
      ensures lost == Landed(Snapshot())
    {
      lost := false;
      for i := 0 to numInvaders
        modifies invaders
        invariant forall k :: 0 <= k < i ==> invaders[k] == old(invaders[k]).DropDownAndReverse()
        invariant forall k :: i <= k < InvaderCapacity ==> invaders[k] == old(invaders[k])
        invariant lost <==> exists k :: 0 <= k < i && invaders[k].y > JavaDiv(screenY, 10) as real
      {
        invaders[i] := invaders[i].DropDownAndReverse();
        if invaders[i].y > JavaDiv(screenY, 10) as real {
          lost := true;
        }
      }
      menaceInterval := menaceInterval - MenaceStep;
      assert invaders[..] == Engine.DropAndReverseAll(old(Snapshot())).invaders;
    }

    /** The player's bullet past the top and every enemy slot past the bottom go idle. */
    method RemoveOffScreen()
      requires Valid()
      modifies this, invadersBullets
      ensures Valid()
      ensures Snapshot() == Engine.RemoveOffScreen(old(Snapshot()))
    {
      if bullet.ImpactPointY() < 0.0 {
        bullet := bullet.SetInactive();
      }
      for i := 0 to invadersBullets.Length
        modifies invadersBullets
        invariant forall k :: 0 <= k < i ==>
                    invadersBullets[k] == (if old(invadersBullets[k]).ImpactPointY() > screenY as real
                                           then old(invadersBullets[k]).SetInactive()
                                           else old(invadersBullets[k]))
        invariant forall k :: i <= k < BulletPool ==> invadersBullets[k] == old(invadersBullets[k])
      {
        if invadersBullets[i].ImpactPointY() > screenY as real {
          invadersBullets[i] := invadersBullets[i].SetInactive();
        }
      }
      assert invadersBullets[..] == Engine.RemoveOffScreen(old(Snapshot())).invadersBullets;
    }

    /** The player's bullet against the invaders; a hit scores 10 and the last hit
        of the wave wins the round. */
    method PlayerHitsInvaders()
      requires Valid() && bullet.active
      modifies this, invadersBullets, invaders, bricks
      ensures Valid()
      ensures Snapshot() == Engine.PlayerHitsInvaders(old(Snapshot()))
    {
      var i := 0;
      while i < numInvaders
        invariant Valid() && 0 <= i <= NumInvaders
        invariant Snapshot() == HitInvadersUpTo(old(Snapshot()), i)
      {
        HitInvader(i);
        i := i + 1;
      }
    }

    /** Invader i's turn in that loop. */
    method HitInvader(i: int)
      requires Valid() && 0 <= i < NumInvaders
      modifies this, invadersBullets, invaders, bricks
      ensures Valid()
      ensures Snapshot() == HitInvaderStep(old(Snapshot()), i)
    {
      if invaders[i].visible && Intersects(bullet.rect, invaders[i].rect) {
        invaders[i] := invaders[i].SetInvisible();
        cues := cues + [InvaderExplode];
        bullet := bullet.SetInactive();
        score := score + PointsPerInvader;
        if score == numInvaders * PointsPerInvader {
          ResetRound();
        }
      }
    }

    /** Every enemy slot active when its turn comes against every visible brick. */
    method EnemyHitsBricks()
      requires Valid()
      modifies this, invadersBullets, bricks
      ensures Valid()
      ensures Snapshot() == EnemyHitsBricksUpTo(old(Snapshot()), BulletPool)
    {
      for i := 0 to invadersBullets.Length
        invariant Valid()
        invariant Snapshot() == EnemyHitsBricksUpTo(old(Snapshot()), i)
      {
        if invadersBullets[i].active {
          ghost var before := Snapshot();
          for j := 0 to numBricks
            invariant Valid()
            invariant Snapshot() == EnemyBricksUpTo(before, i, j)
          {
            EnemyHitsBrick(i, j);
          }
        }
      }
    }

    /** Enemy slot i against brick j. */
    method EnemyHitsBrick(i: int, j: int)
      requires Valid() && 0 <= i < BulletPool && 0 <= j < NumBricks
      modifies this`cues, invadersBullets, bricks
      ensures Valid()
      ensures Snapshot() == EnemyBrickStep(old(Snapshot()), i, j)
    {
      if bricks[j].visible && Intersects(invadersBullets[i].rect, bricks[j].rect) {
        invadersBullets[i] := invadersBullets[i].SetInactive();
        bricks[j] := bricks[j].SetInvisible();
        cues := cues + [DamageShelter];
      }
    }

    /** The player's bullet against every visible brick. */
    method PlayerHitsBricks()
      requires Valid() && bullet.active
      modifies this, bricks
      ensures Valid()
      ensures Snapshot() == Engine.PlayerHitsBricks(old(Snapshot()))
    {
      for i := 0 to numBricks
        invariant Valid()
        invariant Snapshot() == PlayerBricksUpTo(old(Snapshot()), i)
      {
        PlayerHitsBrick(i);
      }
    }

    /** The player's bullet against brick j. */
    method PlayerHitsBrick(j: int)
      requires Valid() && 0 <= j < NumBricks
      modifies this`bullet, this`cues, bricks
      ensures Valid()
      ensures Snapshot() == PlayerBrickStep(old(Snapshot()), j)
    {
      if bricks[j].visible && Intersects(bullet.rect, bricks[j].rect) {
        bullet := bullet.SetInactive();
        bricks[j] := bricks[j].SetInvisible();
        cues := cues + [DamageShelter];
      }
    }

    /** Every active enemy slot against the ship; the last life lost ends the game. */
    method EnemyHitsShip()
      requires Valid()
      modifies this, invadersBullets, invaders, bricks
      ensures Valid()
      ensures Snapshot() == ShipHitsUpTo(old(Snapshot()), BulletPool)
    {
      for i := 0 to invadersBullets.Length
        invariant Valid()
        invariant Snapshot() == ShipHitsUpTo(old(Snapshot()), i)
      {
        EnemyHitsPlayer(i);
      }
    }

    /** Enemy slot i against the ship. */
    method EnemyHitsPlayer(i: int)
      requires Valid() && 0 <= i < BulletPool
      modifies this, invadersBullets, invaders, bricks
      ensures Valid()
      ensures Snapshot() == ShipHitStep(old(Snapshot()), i)
    {
      if invadersBullets[i].active && Intersects(playerShip.GetRect(), invadersBullets[i].rect) {
        invadersBullets[i] := invadersBullets[i].SetInactive();
        lives := lives - 1;
        cues := cues + [PlayerExplode];
        if lives == 0 {
          ResetRound();
        }
      }
    }

    /** What a win and the loss of the last life both do: pause, score 0, three lives,
        and prepareLevel(). */
    method ResetRound()
      requires Valid()
      modifies this, invadersBullets, invaders, bricks
      ensures Valid()
      ensures Snapshot() == Engine.ResetRound(old(Snapshot()))
    {
      paused := true;
      score := 0;
      lives := LivesAfterReset;
      PrepareLevel();
    }

    /** The menace rule of run(), with the frame's start time and a second clock
        reading `now` passed in. */
    method MenaceCue(startFrameTime: int, now: int)
      requires Valid()
      modifies this`cues, this`lastMenaceTime, this`uhOrOh
      ensures Valid()
      ensures Snapshot() == Engine.MenaceCue(old(Snapshot()), startFrameTime, now)
    {
      if !paused {
        if startFrameTime - lastMenaceTime > menaceInterval {
          if uhOrOh {
            cues := cues + [Uh];
          } else {
            cues := cues + [Oh];
          }
          lastMenaceTime := now;
          uhOrOh := !uhOrOh;
        }
      }
    }

    /** One pass of run()'s loop, leaving out drawing and the fps measurement. */
    method RunFrame(startFrameTime: int, fps: int, aims: seq<bool>, now: int)
      requires Valid() && fps > 0 && |aims| == NumInvaders
      modifies this, playerShip, invadersBullets, invaders, bricks
      ensures Valid()
      ensures Snapshot() == Frame(old(Snapshot()), startFrameTime, fps, aims, now)
    {
      ghost var w0 := Snapshot();
      if !paused {
        Update(fps, aims);
      }
      ghost var w1 := Snapshot();
      assert w1 == if w0.paused then w0 else Tick(w0, fps, aims);
      MenaceCue(startFrameTime, now);
      assert Snapshot() == Engine.MenaceCue(w1, startFrameTime, now);
    }

    /** The firing part of onTouchEvent(): the player's bullet starts from the middle
        of the ship at the bottom edge, and the shoot cue plays only if it was idle. */
    method RequestPlayerShot() returns (fired: bool)
      modifies this
      ensures (Snapshot(), fired) == Engine.RequestPlayerShot(old(Snapshot()))
    {
      var shot := bullet.Shoot(playerShip.GetX() + playerShip.GetLength() / 2.0, screenY as real, Up);
      bullet := shot.0;
      fired := shot.1;
      if fired {
        cues := cues + [ShootCue];
      }
    }
  }
}
