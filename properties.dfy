/** What one tick of update() keeps true of the game state, and what each of
    its passes does beyond the step-by-step definitions in module Engine. */
module Properties {
  import opened Geometry
  import opened Sprites
  import opened Ship
  import opened Engine

  // ---------------------------------------------------------------- counting the wave

  /** How many of the first n invader slots have been shot down. */
  function Destroyed(s: seq<Invader>, n: int): (d: int)
    requires 0 <= n <= |s|
    ensures 0 <= d <= n
    decreases n
  {
    if n == 0 then 0 else Destroyed(s, n - 1) + (if s[n - 1].visible then 0 else 1)
  }

  /** The count only looks at visibility. */
  lemma {:induction false} DestroyedSameVisibility(s: seq<Invader>, t: seq<Invader>, n: int)
    requires 0 <= n <= |s| && n <= |t|
    requires forall k :: 0 <= k < n ==> s[k].visible == t[k].visible
    ensures Destroyed(s, n) == Destroyed(t, n)
    decreases n
  {
    if n > 0 {
      DestroyedSameVisibility(s, t, n - 1);
    }
  }

  /** Shooting down one more visible invader adds exactly one. */
  lemma {:induction false} DestroyedHide(s: seq<Invader>, i: int, n: int)
    requires 0 <= i < n <= |s| && s[i].visible
    ensures Destroyed(s[i := s[i].SetInvisible()], n) == Destroyed(s, n) + 1
    decreases n
  {
    if i == n - 1 {
      DestroyedSameVisibility(s[i := s[i].SetInvisible()], s, n - 1);
    } else {
      DestroyedHide(s, i, n - 1);
    }
  }

  /** A full wave has nothing shot down. */
  lemma {:induction false} DestroyedNone(s: seq<Invader>, n: int)
    requires 0 <= n <= |s|
    requires forall k :: 0 <= k < n ==> s[k].visible
    ensures Destroyed(s, n) == 0
    decreases n
  {
    if n > 0 {
      DestroyedNone(s, n - 1);
    }
  }

  // ---------------------------------------------------------------- the invariant

  /** Only the first maxInvaderBullets enemy slots are ever fired. */
  predicate IdleTail(w: World)
    requires Capacities(w)
  {
    forall k :: MaxInvaderBullets <= k < BulletPool ==> !w.invadersBullets[k].active
  }

  /** What holds between ticks: a full level, the cursor inside [0, 10), at least one
      life, the unused slots idle, and a score of exactly 10 per invader shot down in
      this wave, which is never the whole wave (that win starts a new one). */
  predicate Consistent(w: World) {
    WellFormed(w) && w.lives > 0 && IdleTail(w) &&
    Destroyed(w.invaders, NumInvaders) < NumInvaders &&
    w.score == PointsPerInvader * Destroyed(w.invaders, NumInvaders)
  }

  /** A pass that scores nothing, costs no life, pauses nothing, keeps every invader's
      visibility, and can only knock bricks out and retire slots past the used ones. */
  predicate OnlyRetires(a: World, b: World) {
    WellFormed(a) && WellFormed(b) &&
    b.score == a.score && b.lives == a.lives && b.paused == a.paused &&
    (forall k :: 0 <= k < NumInvaders ==> b.invaders[k].visible == a.invaders[k].visible) &&
    (forall j :: 0 <= j < NumBricks ==> b.bricks[j].visible ==> a.bricks[j].visible) &&
    (forall k :: MaxInvaderBullets <= k < BulletPool ==>
                   b.invadersBullets[k].active ==> a.invadersBullets[k].active)
  }

  /** Within a round nothing reappears: a pause, once set, stays set, and while the
      game is still running every hidden invader and brick is still hidden. */
  predicate Shrinks(a: World, b: World)
    requires WellFormed(a) && WellFormed(b)
  {
    (a.paused ==> b.paused) &&
    (!b.paused ==>
       (forall k :: 0 <= k < NumInvaders ==> !a.invaders[k].visible ==> !b.invaders[k].visible) &&
       (forall j :: 0 <= j < NumBricks ==> !a.bricks[j].visible ==> !b.bricks[j].visible))
  }

  /** A collision pass with the shelters: it only knocks bricks out and retires
      bullets, the player's and every enemy slot alike, and leaves the wave and the ship. */
  predicate OnlyKnocksOut(a: World, b: World) {
    OnlyRetires(a, b) && b.invaders == a.invaders && b.ship == a.ship &&
    (b.bullet.active ==> a.bullet.active) &&
    (forall k :: 0 <= k < BulletPool ==> b.invadersBullets[k].active ==> a.invadersBullets[k].active)
  }

  lemma OnlyKnocksOutTrans(a: World, b: World, c: World)
    requires OnlyKnocksOut(a, b) && OnlyKnocksOut(b, c)
    ensures OnlyKnocksOut(a, c)
  {
  }

  lemma OnlyRetiresTrans(a: World, b: World, c: World)
    requires OnlyRetires(a, b) && OnlyRetires(b, c)
    ensures OnlyRetires(a, c)
  {
  }

  /** Such a pass keeps the invariant. */
  lemma OnlyRetiresConsistent(a: World, b: World)
    requires Consistent(a) && OnlyRetires(a, b)
    ensures Consistent(b) && Shrinks(a, b)
  {
    DestroyedSameVisibility(a.invaders, b.invaders, NumInvaders);
  }

  lemma ShrinksTrans(a: World, b: World, c: World)
    requires WellFormed(a) && WellFormed(b) && WellFormed(c)
    requires Shrinks(a, b) && Shrinks(b, c)
    ensures Shrinks(a, c)
  {
  }

  /** Winning the round and losing the game both leave the invariant holding. */
  lemma ResetConsistent(w: World)
    requires WellFormed(w)
    ensures Consistent(ResetRound(w)) && Destroyed(ResetRound(w).invaders, NumInvaders) == 0
  {
    var r := ResetRound(w);
    DestroyedNone(r.invaders, NumInvaders);
  }

  /** The constructor's state satisfies it. */
  lemma NewGameConsistent(screenX: int, screenY: int, now: int)
    ensures Consistent(NewGame(screenX, screenY, now))
  {
    var w := NewGame(screenX, screenY, now);
    DestroyedNone(w.invaders, NumInvaders);
  }

  // ---------------------------------------------------------------- the moves

  /** A slot's turn touches only that slot of the wave and, when it fires, one of the
      slots before maxInvaderBullets. */
  lemma MoveInvaderStepRetires(w: World, i: int, fps: int, aim: bool)
    requires WellFormed(w) && 0 <= i < NumInvaders && fps > 0
    ensures var r := MoveInvaderStep(w, i, fps, aim).0;
            OnlyRetires(w, r) && r.screenX == w.screenX && r.bricks == w.bricks &&
            r.menaceInterval == w.menaceInterval && r.ship == w.ship &&
            r.invaders == w.invaders[i := Moved(w.invaders[i], fps)]
  {
    var v := w.invaders[i];
    if v.visible {
      var w1 := w.(invaders := w.invaders[i := v.Update(fps)]);
      if aim {
        var w2 := AimAndFire(w1, v.Update(fps));
        assert forall k :: MaxInvaderBullets <= k < BulletPool ==>
                             w2.invadersBullets[k] == w1.invadersBullets[k];
      }
    }
  }

  /** The first n turns score nothing, cost no life, keep every invader's visibility,
      fire no slot from 10 up, and leave the bricks, the ship and the menace interval. */
  lemma {:induction false} MoveInvadersUpToMoves(w: World, fps: int, aims: seq<bool>, n: int)
    requires WellFormed(w) && fps > 0 && |aims| == NumInvaders && 0 <= n <= NumInvaders
    ensures var r := MoveInvadersUpTo(w, fps, aims, n);
            OnlyRetires(w, r.0) && r.0.bricks == w.bricks &&
            r.0.menaceInterval == w.menaceInterval && r.0.ship == w.ship
    decreases n
  {
    if n > 0 {
      MoveInvadersUpToMoves(w, fps, aims, n - 1);
      MoveInvadersUpToNext(w, fps, aims, n);
    }
  }

  /** Turn n - 1 after the first n - 1 kept that frame. */
  lemma MoveInvadersUpToNext(w: World, fps: int, aims: seq<bool>, n: int)
    requires WellFormed(w) && fps > 0 && |aims| == NumInvaders && 0 < n <= NumInvaders
    requires var r := MoveInvadersUpTo(w, fps, aims, n - 1);
             OnlyRetires(w, r.0) && r.0.bricks == w.bricks &&
             r.0.menaceInterval == w.menaceInterval && r.0.ship == w.ship
    ensures var r := MoveInvadersUpTo(w, fps, aims, n);
            OnlyRetires(w, r.0) && r.0.bricks == w.bricks &&
            r.0.menaceInterval == w.menaceInterval && r.0.ship == w.ship
  {
    MoveInvaderAfter(w, MoveInvadersUpTo(w, fps, aims, n - 1).0, n - 1, fps, aims[n - 1],
                     MoveInvadersUpTo(w, fps, aims, n).0);
  }

  /** One more turn after turns that kept that frame. */
  lemma MoveInvaderAfter(w: World, before: World, i: int, fps: int, aim: bool, after: World)
    requires WellFormed(before) && 0 <= i < NumInvaders && fps > 0
    requires OnlyRetires(w, before) && before.bricks == w.bricks &&
             before.menaceInterval == w.menaceInterval && before.ship == w.ship
    requires after == MoveInvaderStep(before, i, fps, aim).0
    ensures OnlyRetires(w, after) && after.bricks == w.bricks &&
            after.menaceInterval == w.menaceInterval && after.ship == w.ship
  {
    MoveInvaderStepRetires(before, i, fps, aim);
    OnlyRetiresTrans(w, before, after);
  }

  /** After the first n turns every slot before n has moved once. */
  lemma {:induction false} MoveInvadersUpToSlots(w: World, fps: int, aims: seq<bool>, n: int)
    requires WellFormed(w) && fps > 0 && |aims| == NumInvaders && 0 <= n <= NumInvaders
    ensures var r := MoveInvadersUpTo(w, fps, aims, n).0;
            forall k :: 0 <= k < n ==> r.invaders[k] == Moved(w.invaders[k], fps)
    decreases n
  {
    if n > 0 {
      MoveInvadersUpToSlots(w, fps, aims, n - 1);
      var before := MoveInvadersUpTo(w, fps, aims, n - 1);
      MoveInvaderStepRetires(before.0, n - 1, fps, aims[n - 1]);
    }
  }

  /** After the moves every invader of the wave, visible or not, has moved once and,
      on a bump, dropped and reversed; the menace interval is 80 shorter exactly on a
      bump; and nothing has reset the level, whatever height the invaders reached. */
  lemma AfterMovesInvaders(w: World, fps: int, aims: seq<bool>)
    requires WellFormed(w) && fps > 0 && |aims| == NumInvaders
    ensures var r := AfterMoves(w, fps, aims);
            var bumped := Bumped(w, fps, aims);
            (forall k :: 0 <= k < NumInvaders ==>
               r.invaders[k] == if bumped then Moved(w.invaders[k], fps).DropDownAndReverse()
                                else Moved(w.invaders[k], fps)) &&
            r.menaceInterval == (if bumped then w.menaceInterval - MenaceStep else w.menaceInterval) &&
            r.ship == ShipUpdate(w.ship, fps) && r.bricks == w.bricks &&
            r.score == w.score && r.lives == w.lives && r.paused == w.paused
  {
    var moved := MoveInvadersUpTo(MoveShip(w, fps), fps, aims, NumInvaders);
    WaveMoved(w, fps, aims);
    FinishMoves(w, MoveInvadersBullets(moved.0, fps), moved.1, fps);
  }

  /** The bump, if any, and the player's bullet, after the wave has moved. */
  lemma FinishMoves(w: World, w3: World, bumped: bool, fps: int)
    requires WellFormed(w) && WellFormed(w3) && fps > 0
    requires (forall k :: 0 <= k < NumInvaders ==> w3.invaders[k] == Moved(w.invaders[k], fps)) &&
             w3.menaceInterval == w.menaceInterval &&
             w3.ship == ShipUpdate(w.ship, fps) && w3.bricks == w.bricks &&
             w3.score == w.score && w3.lives == w.lives && w3.paused == w.paused
    ensures var r := RemoveOffScreen(MovePlayerBullet(if bumped then DropAndReverseAll(w3) else w3, fps));
            (forall k :: 0 <= k < NumInvaders ==>
               r.invaders[k] == if bumped then Moved(w.invaders[k], fps).DropDownAndReverse()
                                else Moved(w.invaders[k], fps)) &&
            r.menaceInterval == (if bumped then w.menaceInterval - MenaceStep else w.menaceInterval) &&
            r.ship == ShipUpdate(w.ship, fps) && r.bricks == w.bricks &&
            r.score == w.score && r.lives == w.lives && r.paused == w.paused
  {
    var w4 := if bumped then DropAndReverseAll(w3) else w3;
    if bumped {
      DropFacts(w3);
    }
    LastMovesFrame(w4, fps);
  }

  /** The ship, the invaders' turns and the enemy bullets, before any bump. */
  lemma WaveMoved(w: World, fps: int, aims: seq<bool>)
    requires WellFormed(w) && fps > 0 && |aims| == NumInvaders
    ensures var moved := MoveInvadersUpTo(MoveShip(w, fps), fps, aims, NumInvaders);
            var r := MoveInvadersBullets(moved.0, fps);
            (forall k :: 0 <= k < NumInvaders ==> r.invaders[k] == Moved(w.invaders[k], fps)) &&
            r.menaceInterval == w.menaceInterval &&
            r.ship == ShipUpdate(w.ship, fps) && r.bricks == w.bricks &&
            r.score == w.score && r.lives == w.lives && r.paused == w.paused
  {
    var w1 := MoveShip(w, fps);
    MoveInvadersUpToMoves(w1, fps, aims, NumInvaders);
    MoveInvadersUpToSlots(w1, fps, aims, NumInvaders);
  }

  /** The bump pass on its own. */
  lemma DropFacts(w: World)
    requires WellFormed(w)
    ensures var r := DropAndReverseAll(w);
            (forall k :: 0 <= k < NumInvaders ==> r.invaders[k] == w.invaders[k].DropDownAndReverse()) &&
            r.menaceInterval == w.menaceInterval - MenaceStep &&
            r.ship == w.ship && r.bricks == w.bricks &&
            r.score == w.score && r.lives == w.lives && r.paused == w.paused
  {
  }

  /** The player's bullet and the off-screen test touch only the bullets. */
  lemma LastMovesFrame(w: World, fps: int)
    requires WellFormed(w) && fps > 0
    ensures var r := RemoveOffScreen(MovePlayerBullet(w, fps));
            r.invaders == w.invaders && r.menaceInterval == w.menaceInterval &&
            r.ship == w.ship && r.bricks == w.bricks &&
            r.score == w.score && r.lives == w.lives && r.paused == w.paused
  {
  }

  lemma MoveShipRetires(w: World, fps: int)
    requires WellFormed(w) && fps > 0
    ensures OnlyRetires(w, MoveShip(w, fps))
  {
    assert MoveShip(w, fps) == w.(ship := ShipUpdate(w.ship, fps));
  }

  lemma MoveInvadersBulletsRetires(w: World, fps: int)
    requires WellFormed(w) && fps > 0
    ensures OnlyRetires(w, MoveInvadersBullets(w, fps))
  {
    assert MoveInvadersBullets(w, fps).invaders == w.invaders;
  }

  lemma DropAndReverseAllRetires(w: World)
    requires WellFormed(w)
    ensures OnlyRetires(w, DropAndReverseAll(w))
  {
    assert DropAndReverseAll(w).invadersBullets == w.invadersBullets;
  }

  lemma MovePlayerBulletRetires(w: World, fps: int)
    requires WellFormed(w) && fps > 0
    ensures OnlyRetires(w, MovePlayerBullet(w, fps))
  {
  }

  lemma RemoveOffScreenRetires(w: World)
    requires WellFormed(w)
    ensures OnlyRetires(w, RemoveOffScreen(w))
  {
  }

  /** The moves keep the invariant. */
  lemma AfterMovesRetires(w: World, fps: int, aims: seq<bool>)
    requires WellFormed(w) && fps > 0 && |aims| == NumInvaders
    ensures OnlyRetires(w, AfterMoves(w, fps, aims))
  {
    var w1 := MoveShip(w, fps);
    MoveShipRetires(w, fps);
    var moved := MoveInvadersUpTo(w1, fps, aims, NumInvaders);
    MoveInvadersUpToMoves(w1, fps, aims, NumInvaders);
    OnlyRetiresTrans(w, w1, moved.0);
    var w3 := MoveInvadersBullets(moved.0, fps);
    MoveInvadersBulletsRetires(moved.0, fps);
    OnlyRetiresTrans(w, moved.0, w3);
    var w4 := if moved.1 then DropAndReverseAll(w3) else w3;
    if moved.1 {
      DropAndReverseAllRetires(w3);
      OnlyRetiresTrans(w, w3, w4);
    }
    var w5 := MovePlayerBullet(w4, fps);
    MovePlayerBulletRetires(w4, fps);
    OnlyRetiresTrans(w, w4, w5);
    RemoveOffScreenRetires(w5);
    OnlyRetiresTrans(w, w5, RemoveOffScreen(w5));
  }

  // ---------------------------------------------------------------- the collisions

  /** One turn of the player-bullet/invader loop keeps the invariant: a hit scores
      10 for one more invader down, and the hit that downs the last one starts a new
      wave with score 0; nothing hidden reappears unless the round ended. */
  lemma HitInvaderStepKeeps(w: World, i: int)
    requires Consistent(w) && 0 <= i < NumInvaders
    ensures Consistent(HitInvaderStep(w, i)) && Shrinks(w, HitInvaderStep(w, i))
  {
    var v := w.invaders[i];
    if v.visible && Intersects(w.bullet.rect, v.rect) {
      if w.score + PointsPerInvader == NumInvaders * PointsPerInvader {
        ResetConsistent(w.(invaders := w.invaders[i := v.SetInvisible()],
                           cues := w.cues + [InvaderExplode],
                           bullet := w.bullet.SetInactive(),
                           score := w.score + PointsPerInvader));
      } else {
        DestroyedHide(w.invaders, i, NumInvaders);
      }
    }
  }

  lemma {:induction false} HitInvadersUpToKeeps(w: World, n: int)
    requires Consistent(w) && 0 <= n <= NumInvaders
    ensures Consistent(HitInvadersUpTo(w, n)) && Shrinks(w, HitInvadersUpTo(w, n))
    decreases n
  {
    if n > 0 {
      HitInvadersUpToKeeps(w, n - 1);
      HitInvadersUpToNext(w, n);
    }
  }

  /** Invader n - 1's test after the first n - 1 kept the invariant and revived nothing. */
  lemma HitInvadersUpToNext(w: World, n: int)
    requires WellFormed(w) && 0 < n <= NumInvaders
    requires Consistent(HitInvadersUpTo(w, n - 1)) && Shrinks(w, HitInvadersUpTo(w, n - 1))
    ensures Consistent(HitInvadersUpTo(w, n)) && Shrinks(w, HitInvadersUpTo(w, n))
  {
    HitInvaderAfter(w, HitInvadersUpTo(w, n - 1), n - 1, HitInvadersUpTo(w, n));
  }

  /** An invader's test after passes that kept the invariant and revived nothing. */
  lemma HitInvaderAfter(w: World, before: World, i: int, after: World)
    requires WellFormed(w) && Consistent(before) && Shrinks(w, before) && 0 <= i < NumInvaders
    requires after == HitInvaderStep(before, i)
    ensures Consistent(after) && Shrinks(w, after)
  {
    HitInvaderStepKeeps(before, i);
    ShrinksTrans(w, before, after);
  }

  lemma EnemyBrickStepRetires(w: World, i: int, j: int)
    requires WellFormed(w) && 0 <= i < BulletPool && 0 <= j < NumBricks
    ensures OnlyKnocksOut(w, EnemyBrickStep(w, i, j))
  {
  }

  lemma {:induction false} EnemyBricksUpToRetires(w: World, i: int, m: int)
    requires WellFormed(w) && 0 <= i < BulletPool && 0 <= m <= NumBricks
    ensures OnlyKnocksOut(w, EnemyBricksUpTo(w, i, m))
    decreases m
  {
    if m > 0 {
      var before := EnemyBricksUpTo(w, i, m - 1);
      EnemyBricksUpToRetires(w, i, m - 1);
      EnemyBrickStepRetires(before, i, m - 1);
      OnlyKnocksOutTrans(w, before, EnemyBrickStep(before, i, m - 1));
    }
  }

  lemma {:induction false} EnemyHitsBricksUpToRetires(w: World, n: int)
    requires WellFormed(w) && 0 <= n <= BulletPool
    ensures OnlyKnocksOut(w, EnemyHitsBricksUpTo(w, n))
    decreases n
  {
    if n > 0 {
      var before := EnemyHitsBricksUpTo(w, n - 1);
      EnemyHitsBricksUpToRetires(w, n - 1);
      if before.invadersBullets[n - 1].active {
        EnemyBricksUpToRetires(before, n - 1, NumBricks);
        OnlyKnocksOutTrans(w, before, EnemyBricksUpTo(before, n - 1, NumBricks));
      }
    }
  }

  lemma PlayerBrickStepRetires(w: World, j: int)
    requires WellFormed(w) && 0 <= j < NumBricks
    ensures OnlyKnocksOut(w, PlayerBrickStep(w, j))
  {
  }

  lemma {:induction false} PlayerBricksUpToRetires(w: World, m: int)
    requires WellFormed(w) && 0 <= m <= NumBricks
    ensures OnlyKnocksOut(w, PlayerBricksUpTo(w, m))
    decreases m
  {
    if m > 0 {
      var before := PlayerBricksUpTo(w, m - 1);
      PlayerBricksUpToRetires(w, m - 1);
      PlayerBrickStepRetires(before, m - 1);
      OnlyKnocksOutTrans(w, before, PlayerBrickStep(before, m - 1));
    }
  }

  /** One turn of the enemy-bullet/ship loop keeps the invariant: a hit costs one
      life, and the hit that costs the last one starts over with 3. */
  lemma ShipHitStepKeeps(w: World, i: int)
    requires Consistent(w) && 0 <= i < BulletPool
    ensures Consistent(ShipHitStep(w, i)) && Shrinks(w, ShipHitStep(w, i))
  {
    var b := w.invadersBullets[i];
    if b.active && Intersects(w.ship.rect, b.rect) {
      var hit := w.(invadersBullets := w.invadersBullets[i := b.SetInactive()],
                    lives := w.lives - 1,
                    cues := w.cues + [PlayerExplode]);
      if hit.lives == 0 {
        ResetConsistent(hit);
      } else {
        DestroyedSameVisibility(w.invaders, hit.invaders, NumInvaders);
      }
    }
  }

  /** Slot n - 1's test after the first n - 1 kept the invariant and revived nothing. */
  lemma ShipHitsUpToNext(w: World, n: int)
    requires WellFormed(w) && 0 < n <= BulletPool
    requires Consistent(ShipHitsUpTo(w, n - 1)) && Shrinks(w, ShipHitsUpTo(w, n - 1))
    ensures Consistent(ShipHitsUpTo(w, n)) && Shrinks(w, ShipHitsUpTo(w, n))
  {
    ShipHitAfter(w, ShipHitsUpTo(w, n - 1), n - 1, ShipHitsUpTo(w, n));
  }

  /** A slot's test after passes that kept the invariant and revived nothing. */
  lemma ShipHitAfter(w: World, before: World, i: int, after: World)
    requires WellFormed(w) && Consistent(before) && Shrinks(w, before) && 0 <= i < BulletPool
    requires after == ShipHitStep(before, i)
    ensures Consistent(after) && Shrinks(w, after)
  {
    ShipHitStepKeeps(before, i);
    ShrinksTrans(w, before, after);
  }

  lemma {:induction false} ShipHitsUpToKeeps(w: World, n: int)
    requires Consistent(w) && 0 <= n <= BulletPool
    ensures Consistent(ShipHitsUpTo(w, n)) && Shrinks(w, ShipHitsUpTo(w, n))
    decreases n
  {
    if n > 0 {
      ShipHitsUpToKeeps(w, n - 1);
      ShipHitsUpToNext(w, n);
    }
  }

  // ---------------------------------------------------------------- one tick

  /** update() keeps the invariant, and within a round it hides things and never
      shows them again. */
  lemma TickKeeps(w: World, fps: int, aims: seq<bool>)
    requires Consistent(w) && fps > 0 && |aims| == NumInvaders
    ensures Consistent(Tick(w, fps, aims)) && Shrinks(w, Tick(w, fps, aims))
  {
    var w2 := PlayerHitsInvaders(AfterMoves(w, fps, aims));
    MovesAndHitsKeep(w, fps, aims);
    var w4 := PlayerHitsBricks(EnemyHitsBricksUpTo(w2, BulletPool));
    SheltersKeep(w2);
    ShrinksTrans(w, w2, w4);
    ShipHitsUpToKeeps(w4, BulletPool);
    ShrinksTrans(w, w4, ShipHitsUpTo(w4, BulletPool));
  }

  /** The moves, then the player's bullet against the wave. */
  lemma MovesAndHitsKeep(w: World, fps: int, aims: seq<bool>)
    requires Consistent(w) && fps > 0 && |aims| == NumInvaders
    ensures var r := PlayerHitsInvaders(AfterMoves(w, fps, aims));
            Consistent(r) && Shrinks(w, r)
  {
    var w1 := AfterMoves(w, fps, aims);
    AfterMovesRetires(w, fps, aims);
    OnlyRetiresConsistent(w, w1);
    if w1.bullet.active {
      HitInvadersUpToKeeps(w1, NumInvaders);
    }
    ShrinksTrans(w, w1, PlayerHitsInvaders(w1));
  }

  /** The two shelter passes. */
  lemma SheltersKeep(w: World)
    requires Consistent(w)
    ensures var r := PlayerHitsBricks(EnemyHitsBricksUpTo(w, BulletPool));
            Consistent(r) && Shrinks(w, r)
  {
    var w3 := EnemyHitsBricksUpTo(w, BulletPool);
    EnemyHitsBricksUpToRetires(w, BulletPool);
    OnlyRetiresConsistent(w, w3);
    var w4 := PlayerHitsBricks(w3);
    if w3.bullet.active {
      PlayerBricksUpToRetires(w3, NumBricks);
      OnlyRetiresConsistent(w3, w4);
    }
    ShrinksTrans(w, w3, w4);
  }

  /** So after every tick: the cursor is in [0, 10), slots 10 to 199 have never been
      fired, at least one life is left, and the score is a multiple of 10 below 300. */
  lemma TickBounds(w: World, fps: int, aims: seq<bool>)
    requires Consistent(w) && fps > 0 && |aims| == NumInvaders
    ensures var r := Tick(w, fps, aims);
            0 <= r.nextBullet < MaxInvaderBullets && r.lives > 0 &&
            (forall k :: MaxInvaderBullets <= k < BulletPool ==> !r.invadersBullets[k].active) &&
            r.score % PointsPerInvader == 0 && 0 <= r.score < NumInvaders * PointsPerInvader
  {
    TickKeeps(w, fps, aims);
    ConsistentBounds(Tick(w, fps, aims));
  }

  /** What the invariant says in plain numbers. */
  lemma ConsistentBounds(r: World)
    requires Consistent(r)
    ensures 0 <= r.nextBullet < MaxInvaderBullets && r.lives > 0
    ensures forall k :: MaxInvaderBullets <= k < BulletPool ==> !r.invadersBullets[k].active
    ensures r.score % PointsPerInvader == 0 && 0 <= r.score < NumInvaders * PointsPerInvader
  {
    var d := Destroyed(r.invaders, NumInvaders);
    assert r.score == PointsPerInvader * d && 0 <= d < NumInvaders;
  }

  /** Within a round (running before and after the tick) no invader and no brick
      that was hidden is visible again. */
  lemma NoneRevived(w: World, fps: int, aims: seq<bool>)
    requires Consistent(w) && fps > 0 && |aims| == NumInvaders
    requires !Tick(w, fps, aims).paused
    ensures forall k :: 0 <= k < NumInvaders && !w.invaders[k].visible ==>
                          !Tick(w, fps, aims).invaders[k].visible
    ensures forall j :: 0 <= j < NumBricks && !w.bricks[j].visible ==>
                          !Tick(w, fps, aims).bricks[j].visible
  {
    TickKeeps(w, fps, aims);
  }

  /** A whole pass of run()'s loop keeps the invariant; so does a fire request. */
  lemma FrameKeeps(w: World, startFrameTime: int, fps: int, aims: seq<bool>, now: int)
    requires Consistent(w) && fps > 0 && |aims| == NumInvaders
    ensures Consistent(Frame(w, startFrameTime, fps, aims, now))
  {
    var t := if !w.paused then Tick(w, fps, aims) else w;
    if !w.paused {
      TickKeeps(w, fps, aims);
    }
    assert MenaceCue(t, startFrameTime, now).invaders == t.invaders;
  }

  lemma ShotKeeps(w: World)
    requires Consistent(w)
    ensures Consistent(RequestPlayerShot(w).0)
  {
    assert RequestPlayerShot(w).0.invaders == w.invaders;
  }

  // ---------------------------------------------------------------- the shelters

  /** The player's bullet against the first m bricks. The walk never stops early and
      a retired bullet keeps its rectangle, so every visible brick it overlaps among
      them is knocked out, and no other; the bullet ends active exactly when it was
      active and overlapped none. */
  lemma {:induction false} PlayerBricksUpToIff(w: World, m: int)
    requires WellFormed(w) && 0 <= m <= NumBricks
    ensures var r := PlayerBricksUpTo(w, m);
            r.bullet.rect == w.bullet.rect &&
            (forall j :: 0 <= j < BrickCapacity ==> r.bricks[j].rect == w.bricks[j].rect) &&
            (forall j :: 0 <= j < m ==>
               (r.bricks[j].visible <==> w.bricks[j].visible && !Intersects(w.bullet.rect, w.bricks[j].rect))) &&
            (forall j :: m <= j < BrickCapacity ==> r.bricks[j] == w.bricks[j]) &&
            (r.bullet.active <==>
               w.bullet.active && forall j :: 0 <= j < m ==>
                                    !(w.bricks[j].visible && Intersects(w.bullet.rect, w.bricks[j].rect)))
    decreases m
  {
    if m > 0 {
      PlayerBricksUpToIff(w, m - 1);
    }
  }

  /** The whole pass, which runs when the player's bullet is in flight. */
  lemma PlayerHitsBricksIff(w: World)
    requires WellFormed(w) && w.bullet.active
    ensures var r := PlayerHitsBricks(w);
            (forall j :: 0 <= j < NumBricks ==>
               (r.bricks[j].visible <==> w.bricks[j].visible && !Intersects(w.bullet.rect, w.bricks[j].rect))) &&
            (r.bullet.active <==>
               forall j :: 0 <= j < NumBricks ==>
                 !(w.bricks[j].visible && Intersects(w.bullet.rect, w.bricks[j].rect)))
  {
    PlayerBricksUpToIff(w, NumBricks);
  }

  /** Enemy slot i against the first m bricks: the same, and no other slot changes. */
  lemma {:induction false} EnemyBricksUpToIff(w: World, i: int, m: int)
    requires WellFormed(w) && 0 <= i < BulletPool && 0 <= m <= NumBricks
    ensures var r := EnemyBricksUpTo(w, i, m);
            r.bullet == w.bullet && r.ship == w.ship && r.invaders == w.invaders &&
            r.invadersBullets[i].rect == w.invadersBullets[i].rect &&
            (r.invadersBullets[i].active <==>
               w.invadersBullets[i].active &&
               forall j :: 0 <= j < m ==>
                 !(w.bricks[j].visible && Intersects(w.invadersBullets[i].rect, w.bricks[j].rect))) &&
            (forall k :: 0 <= k < BulletPool && k != i ==> r.invadersBullets[k] == w.invadersBullets[k]) &&
            (forall j :: 0 <= j < BrickCapacity ==> r.bricks[j].rect == w.bricks[j].rect) &&
            (forall j :: 0 <= j < m ==>
               (r.bricks[j].visible <==>
                  w.bricks[j].visible && !Intersects(w.invadersBullets[i].rect, w.bricks[j].rect))) &&
            (forall j :: m <= j < BrickCapacity ==> r.bricks[j] == w.bricks[j])
    decreases m
  {
    if m > 0 {
      EnemyBricksUpToIff(w, i, m - 1);
    }
  }

  /** The first n enemy slots against the shelters: a brick survives exactly when it
      was visible and none of those slots that was in flight overlaps it. A slot's
      status at its turn is its status before the pass, since only its own turn
      retires it. */
  lemma {:induction false} EnemyHitsBricksUpToIff(w: World, n: int)
    requires WellFormed(w) && 0 <= n <= BulletPool
    ensures var r := EnemyHitsBricksUpTo(w, n);
            r.bullet == w.bullet && r.ship == w.ship && r.invaders == w.invaders &&
            (forall k :: 0 <= k < n ==> r.invadersBullets[k].rect == w.invadersBullets[k].rect) &&
            (forall k :: 0 <= k < BulletPool ==> r.invadersBullets[k].active ==> w.invadersBullets[k].active) &&
            (forall k :: n <= k < BulletPool ==> r.invadersBullets[k] == w.invadersBullets[k]) &&
            (forall j :: 0 <= j < BrickCapacity ==> r.bricks[j].rect == w.bricks[j].rect) &&
            (forall j :: 0 <= j < NumBricks ==>
               (r.bricks[j].visible <==>
                  w.bricks[j].visible &&
                  forall k :: 0 <= k < n ==>
                    !(w.invadersBullets[k].active && Intersects(w.invadersBullets[k].rect, w.bricks[j].rect))))
    decreases n
  {
    if n > 0 {
      var before := EnemyHitsBricksUpTo(w, n - 1);
      EnemyHitsBricksUpToIff(w, n - 1);
      if before.invadersBullets[n - 1].active {
        EnemyBricksUpToIff(before, n - 1, NumBricks);
      }
    }
  }

  // ---------------------------------------------------------------- the menace rule

  /** The menace rule of run() alone over successive passes, with each pass's two
      clock readings (startFrameTime, then the time of the cue). */
  function MenaceRun(w: World, clocks: seq<(int, int)>): (r: World)
    ensures r == w.(cues := r.cues, lastMenaceTime := r.lastMenaceTime, uhOrOh := r.uhOrOh)
    decreases |clocks|
  {
    if clocks == [] then w
    else
      var last := clocks[|clocks| - 1];
      MenaceCue(MenaceRun(w, clocks[..|clocks| - 1]), last.0, last.1)
  }

  /** The cues it plays keep what was logged before, are all "uh" or "oh", start with
      the one uhOrOh named, alternate, and leave uhOrOh naming the one not played last. */
  lemma {:induction false} MenaceAlternates(w: World, clocks: seq<(int, int)>)
    ensures var r := MenaceRun(w, clocks);
            |w.cues| <= |r.cues| && r.cues[..|w.cues|] == w.cues &&
            (forall k :: |w.cues| <= k < |r.cues| ==> r.cues[k] == Uh || r.cues[k] == Oh) &&
            (forall k :: |w.cues| <= k < |r.cues| - 1 ==> r.cues[k] != r.cues[k + 1]) &&
            (|w.cues| < |r.cues| ==> r.cues[|w.cues|] == (if w.uhOrOh then Uh else Oh)) &&
            (|w.cues| < |r.cues| ==> (r.cues[|r.cues| - 1] == Uh <==> !r.uhOrOh)) &&
            (|w.cues| == |r.cues| ==> r.uhOrOh == w.uhOrOh)
    decreases |clocks|
  {
    if clocks != [] {
      var prefix := clocks[..|clocks| - 1];
      MenaceAlternates(w, prefix);
      var before := MenaceRun(w, prefix);
      var last := clocks[|clocks| - 1];
      var r := MenaceCue(before, last.0, last.1);
      assert MenaceRun(w, clocks) == r;
      if |r.cues| > |before.cues| {
        assert r.cues == before.cues + [if before.uhOrOh then Uh else Oh];
        assert r.cues[..|w.cues|] == before.cues[..|w.cues|];
      }
    }
  }
}
