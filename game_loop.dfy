/** run()'s loop over many passes: update() never touches the menace rule's
    state and never plays "uh" or "oh", so over any run of the game the menace
    cues, picked out of the whole log, alternate. */
module GameLoop {
  import opened Geometry
  import opened Engine

  // ---------------------------------------------------------------- update() and the menace state

  /** A pass that leaves the menace rule's state (uhOrOh and lastMenaceTime) and the
      screen alone and only appends cues to the log, none of them "uh" or "oh". */
  predicate KeepsMenace(a: World, b: World) {
    b.uhOrOh == a.uhOrOh && b.lastMenaceTime == a.lastMenaceTime &&
    b.screenX == a.screenX && b.screenY == a.screenY &&
    |a.cues| <= |b.cues| && b.cues[..|a.cues|] == a.cues &&
    forall k :: |a.cues| <= k < |b.cues| ==> b.cues[k] != Uh && b.cues[k] != Oh
  }

  lemma KeepsMenaceTrans(a: World, b: World, c: World)
    requires KeepsMenace(a, b) && KeepsMenace(b, c)
    ensures KeepsMenace(a, c)
  {
    assert c.cues[..|a.cues|] == c.cues[..|b.cues|][..|a.cues|];
    forall k | |a.cues| <= k < |c.cues|
      ensures c.cues[k] != Uh && c.cues[k] != Oh
    {
      if k < |b.cues| {
        assert c.cues[k] == c.cues[..|b.cues|][k];
      }
    }
  }

  /** A pass that leaves the log as it is. */
  lemma SameMenace(a: World, b: World)
    requires b.uhOrOh == a.uhOrOh && b.lastMenaceTime == a.lastMenaceTime
    requires b.screenX == a.screenX && b.screenY == a.screenY && b.cues == a.cues
    ensures KeepsMenace(a, b)
  {
    assert b.cues[..|a.cues|] == a.cues;
  }

  /** A pass that plays one sound effect other than the menace cues. */
  lemma OneCue(a: World, b: World, c: Cue)
    requires b.uhOrOh == a.uhOrOh && b.lastMenaceTime == a.lastMenaceTime
    requires b.screenX == a.screenX && b.screenY == a.screenY
    requires b.cues == a.cues + [c] && c != Uh && c != Oh
    ensures KeepsMenace(a, b)
  {
    assert b.cues[..|a.cues|] == a.cues;
  }

  lemma MoveInvaderStepMenace(w: World, i: int, fps: int, aim: bool)
    requires WellFormed(w) && 0 <= i < NumInvaders && fps > 0
    ensures KeepsMenace(w, MoveInvaderStep(w, i, fps, aim).0)
  {
    SameMenace(w, MoveInvaderStep(w, i, fps, aim).0);
  }

  lemma {:induction false} MoveInvadersUpToMenace(w: World, fps: int, aims: seq<bool>, n: int)
    requires WellFormed(w) && fps > 0 && |aims| == NumInvaders && 0 <= n <= NumInvaders
    ensures KeepsMenace(w, MoveInvadersUpTo(w, fps, aims, n).0)
    decreases n
  {
    if n == 0 {
      SameMenace(w, w);
    } else {
      MoveInvadersUpToMenace(w, fps, aims, n - 1);
      var before := MoveInvadersUpTo(w, fps, aims, n - 1).0;
      MoveInvaderStepMenace(before, n - 1, fps, aims[n - 1]);
      KeepsMenaceTrans(w, before, MoveInvaderStep(before, n - 1, fps, aims[n - 1]).0);
    }
  }

  /** The movement half: the ship, the wave, the bullets and the drop play nothing. */
  lemma AfterMovesMenace(w: World, fps: int, aims: seq<bool>)
    requires WellFormed(w) && fps > 0 && |aims| == NumInvaders
    ensures KeepsMenace(w, AfterMoves(w, fps, aims))
  {
    var w1 := MoveShip(w, fps);
    SameMenace(w, w1);
    MoveInvadersUpToMenace(w1, fps, aims, NumInvaders);
    var moved := MoveInvadersUpTo(w1, fps, aims, NumInvaders);
    KeepsMenaceTrans(w, w1, moved.0);
    SameMenace(moved.0, AfterMoves(w, fps, aims));
    KeepsMenaceTrans(w, moved.0, AfterMoves(w, fps, aims));
  }

  lemma HitInvaderStepMenace(w: World, i: int)
    requires WellFormed(w) && 0 <= i < NumInvaders
    ensures KeepsMenace(w, HitInvaderStep(w, i))
  {
    var v := w.invaders[i];
    if v.visible && Intersects(w.bullet.rect, v.rect) {
      var hit := w.(invaders := w.invaders[i := v.SetInvisible()],
                    cues := w.cues + [InvaderExplode],
                    bullet := w.bullet.SetInactive(),
                    score := w.score + PointsPerInvader);
      OneCue(w, hit, InvaderExplode);
      if hit.score == hit.numInvaders * PointsPerInvader {
        SameMenace(hit, ResetRound(hit));
        KeepsMenaceTrans(w, hit, ResetRound(hit));
      }
    } else {
      SameMenace(w, w);
    }
  }

  lemma {:induction false} HitInvadersUpToMenace(w: World, n: int)
    requires WellFormed(w) && 0 <= n <= NumInvaders
    ensures KeepsMenace(w, HitInvadersUpTo(w, n))
    decreases n
  {
    if n == 0 {
      SameMenace(w, w);
    } else {
      HitInvadersUpToMenace(w, n - 1);
      var before := HitInvadersUpTo(w, n - 1);
      HitInvaderStepMenace(before, n - 1);
      KeepsMenaceTrans(w, before, HitInvaderStep(before, n - 1));
    }
  }

  lemma EnemyBrickStepMenace(w: World, i: int, j: int)
    requires WellFormed(w) && 0 <= i < BulletPool && 0 <= j < NumBricks
    ensures KeepsMenace(w, EnemyBrickStep(w, i, j))
  {
    if w.bricks[j].visible && Intersects(w.invadersBullets[i].rect, w.bricks[j].rect) {
      OneCue(w, EnemyBrickStep(w, i, j), DamageShelter);
    } else {
      SameMenace(w, w);
    }
  }

  lemma {:induction false} EnemyBricksUpToMenace(w: World, i: int, m: int)
    requires WellFormed(w) && 0 <= i < BulletPool && 0 <= m <= NumBricks
    ensures KeepsMenace(w, EnemyBricksUpTo(w, i, m))
    decreases m
  {
    if m == 0 {
      SameMenace(w, w);
    } else {
      EnemyBricksUpToMenace(w, i, m - 1);
      var before := EnemyBricksUpTo(w, i, m - 1);
      EnemyBrickStepMenace(before, i, m - 1);
      KeepsMenaceTrans(w, before, EnemyBrickStep(before, i, m - 1));
    }
  }

  lemma {:induction false} EnemyHitsBricksUpToMenace(w: World, n: int)
    requires WellFormed(w) && 0 <= n <= BulletPool
    ensures KeepsMenace(w, EnemyHitsBricksUpTo(w, n))
    decreases n
  {
    if n == 0 {
      SameMenace(w, w);
    } else {
      EnemyHitsBricksUpToMenace(w, n - 1);
      var before := EnemyHitsBricksUpTo(w, n - 1);
      if before.invadersBullets[n - 1].active {
        EnemyBricksUpToMenace(before, n - 1, NumBricks);
        KeepsMenaceTrans(w, before, EnemyBricksUpTo(before, n - 1, NumBricks));
      }
    }
  }

  lemma PlayerBrickStepMenace(w: World, j: int)
    requires WellFormed(w) && 0 <= j < NumBricks
    ensures KeepsMenace(w, PlayerBrickStep(w, j))
  {
    if w.bricks[j].visible && Intersects(w.bullet.rect, w.bricks[j].rect) {
      OneCue(w, PlayerBrickStep(w, j), DamageShelter);
    } else {
      SameMenace(w, w);
    }
  }

  lemma {:induction false} PlayerBricksUpToMenace(w: World, m: int)
    requires WellFormed(w) && 0 <= m <= NumBricks
    ensures KeepsMenace(w, PlayerBricksUpTo(w, m))
    decreases m
  {
    if m == 0 {
      SameMenace(w, w);
    } else {
      PlayerBricksUpToMenace(w, m - 1);
      var before := PlayerBricksUpTo(w, m - 1);
      PlayerBrickStepMenace(before, m - 1);
      KeepsMenaceTrans(w, before, PlayerBrickStep(before, m - 1));
    }
  }

  lemma ShipHitStepMenace(w: World, i: int)
    requires WellFormed(w) && 0 <= i < BulletPool
    ensures KeepsMenace(w, ShipHitStep(w, i))
  {
    var b := w.invadersBullets[i];
    if b.active && Intersects(w.ship.rect, b.rect) {
      var hit := w.(invadersBullets := w.invadersBullets[i := b.SetInactive()],
                    lives := w.lives - 1,
                    cues := w.cues + [PlayerExplode]);
      OneCue(w, hit, PlayerExplode);
      if hit.lives == 0 {
        SameMenace(hit, ResetRound(hit));
        KeepsMenaceTrans(w, hit, ResetRound(hit));
      }
    } else {
      SameMenace(w, w);
    }
  }

  lemma {:induction false} ShipHitsUpToMenace(w: World, n: int)
    requires WellFormed(w) && 0 <= n <= BulletPool
    ensures KeepsMenace(w, ShipHitsUpTo(w, n))
    decreases n
  {
    if n == 0 {
      SameMenace(w, w);
    } else {
      ShipHitsUpToMenace(w, n - 1);
      var before := ShipHitsUpTo(w, n - 1);
      ShipHitStepMenace(before, n - 1);
      KeepsMenaceTrans(w, before, ShipHitStep(before, n - 1));
    }
  }

  /** update() as a whole: uhOrOh, lastMenaceTime and the screen are kept, and every
      cue it plays is a shot, an explosion or shelter damage. */
  lemma TickMenace(w: World, fps: int, aims: seq<bool>)
    requires WellFormed(w) && fps > 0 && |aims| == NumInvaders
    ensures KeepsMenace(w, Tick(w, fps, aims))
  {
    var w1 := AfterMoves(w, fps, aims);
    AfterMovesMenace(w, fps, aims);
    var w2 := PlayerHitsInvaders(w1);
    if w1.bullet.active {
      HitInvadersUpToMenace(w1, NumInvaders);
    } else {
      SameMenace(w1, w2);
    }
    KeepsMenaceTrans(w, w1, w2);
    var w3 := EnemyHitsBricksUpTo(w2, BulletPool);
    EnemyHitsBricksUpToMenace(w2, BulletPool);
    KeepsMenaceTrans(w, w2, w3);
    var w4 := PlayerHitsBricks(w3);
    if w3.bullet.active {
      PlayerBricksUpToMenace(w3, NumBricks);
    } else {
      SameMenace(w3, w4);
    }
    KeepsMenaceTrans(w, w3, w4);
    ShipHitsUpToMenace(w4, BulletPool);
    KeepsMenaceTrans(w, w4, ShipHitsUpTo(w4, BulletPool));
  }

  // ---------------------------------------------------------------- many passes of run()

  /** The inputs of one pass of run()'s loop: the clock reading at its start, the fps
      update() uses, what each invader's takeAim() answers, and the clock reading the
      menace rule stores. */
  datatype Pass = Pass(startFrameTime: int, fps: int, aims: seq<bool>, now: int)

  /** Inputs update() can be run on. */
  predicate Playable(passes: seq<Pass>) {
    forall k :: 0 <= k < |passes| ==> passes[k].fps > 0 && |passes[k].aims| == NumInvaders
  }

  /** run()'s loop over the given passes, one Frame each, with no touch between them. */
  function Run(w: World, passes: seq<Pass>): (r: World)
    requires WellFormed(w) && Playable(passes)
    ensures WellFormed(r)
    decreases |passes|
  {
    if passes == [] then w
    else
      var p := passes[|passes| - 1];
      Frame(Run(w, passes[..|passes| - 1]), p.startFrameTime, p.fps, p.aims, p.now)
  }

  /** The menace cues of a log, in order, with every other sound effect dropped. */
  function MenaceCues(s: seq<Cue>): (m: seq<Cue>)
    ensures |m| <= |s|
    ensures forall k :: 0 <= k < |m| ==> m[k] == Uh || m[k] == Oh
    decreases |s|
  {
    if s == [] then []
    else MenaceCues(s[..|s| - 1]) + (if s[|s| - 1] == Uh || s[|s| - 1] == Oh then [s[|s| - 1]] else [])
  }

  lemma {:induction false} MenaceCuesAppend(a: seq<Cue>, b: seq<Cue>)
    ensures MenaceCues(a + b) == MenaceCues(a) + MenaceCues(b)
    decreases |b|
  {
    if b != [] {
      var b0 := b[..|b| - 1];
      assert (a + b)[..|a + b| - 1] == a + b0;
      MenaceCuesAppend(a, b0);
    } else {
      assert a + b == a;
    }
  }

  lemma {:induction false} MenaceCuesNone(s: seq<Cue>)
    requires forall k :: 0 <= k < |s| ==> s[k] != Uh && s[k] != Oh
    ensures MenaceCues(s) == []
    decreases |s|
  {
    if s != [] {
      MenaceCuesNone(s[..|s| - 1]);
    }
  }

  /** What one pass does to the log: it keeps what was there, and plays either no
      menace cue, leaving uhOrOh, or exactly the one uhOrOh names, flipping it. */
  predicate MenacePass(w: World, r: World) {
    |w.cues| <= |r.cues| && r.cues[..|w.cues|] == w.cues &&
    ((MenaceCues(r.cues[|w.cues|..]) == [] && r.uhOrOh == w.uhOrOh) ||
     (MenaceCues(r.cues[|w.cues|..]) == [if w.uhOrOh then Uh else Oh] && r.uhOrOh == !w.uhOrOh))
  }

  /** What a run does to the log: it keeps what was there, and the menace cues played
      since alternate, start with the one uhOrOh named, and leave uhOrOh naming the
      one not played last. */
  predicate Alternating(w: World, r: World) {
    |w.cues| <= |r.cues| && r.cues[..|w.cues|] == w.cues &&
    var m := MenaceCues(r.cues[|w.cues|..]);
    (forall k :: 0 <= k < |m| - 1 ==> m[k] != m[k + 1]) &&
    (|m| > 0 ==> m[0] == (if w.uhOrOh then Uh else Oh)) &&
    (|m| > 0 ==> (m[|m| - 1] == Uh <==> !r.uhOrOh)) &&
    (|m| == 0 ==> r.uhOrOh == w.uhOrOh)
  }

  /** A log that grew by sound effects other than the menace cues, then by `tail`. */
  lemma AppendedLog(a: seq<Cue>, extra: seq<Cue>, tail: seq<Cue>, s: seq<Cue>)
    requires s == a + extra + tail
    requires forall k :: 0 <= k < |extra| ==> extra[k] != Uh && extra[k] != Oh
    ensures |a| <= |s| && s[..|a|] == a && MenaceCues(s[|a|..]) == MenaceCues(tail)
  {
    assert s[..|a|] == a;
    assert s[|a|..] == extra + tail;
    MenaceCuesAppend(extra, tail);
    MenaceCuesNone(extra);
  }

  /** The menace rule after a pass that kept the menace state. */
  lemma MenaceRuleAfter(w: World, t: World, r: World, startFrameTime: int, now: int)
    requires KeepsMenace(w, t) && r == MenaceCue(t, startFrameTime, now)
    ensures MenacePass(w, r)
  {
    var extra := t.cues[|w.cues|..];
    assert t.cues == w.cues + extra;
    if !t.paused && startFrameTime - t.lastMenaceTime > t.menaceInterval {
      var c := if t.uhOrOh then Uh else Oh;
      AppendedLog(w.cues, extra, [c], r.cues);
      assert MenaceCues([c]) == MenaceCues([c][..0]) + [c];
    } else {
      AppendedLog(w.cues, extra, [], r.cues);
    }
  }

  /** One pass of run(): update() plays no menace cue, and the menace rule at most one. */
  lemma FrameMenace(w: World, p: Pass)
    requires WellFormed(w) && p.fps > 0 && |p.aims| == NumInvaders
    ensures MenacePass(w, Frame(w, p.startFrameTime, p.fps, p.aims, p.now))
  {
    if !w.paused {
      TickMenace(w, p.fps, p.aims);
      MenaceRuleAfter(w, Tick(w, p.fps, p.aims), Frame(w, p.startFrameTime, p.fps, p.aims, p.now),
                      p.startFrameTime, p.now);
    } else {
      SameMenace(w, w);
      MenaceRuleAfter(w, w, Frame(w, p.startFrameTime, p.fps, p.aims, p.now), p.startFrameTime, p.now);
    }
  }

  /** A run, then one more pass. */
  lemma AlternatingNext(w: World, before: World, r: World)
    requires Alternating(w, before) && MenacePass(before, r)
    ensures Alternating(w, r)
  {
    var oldPart := before.cues[|w.cues|..];
    var newPart := r.cues[|before.cues|..];
    assert r.cues[..|w.cues|] == r.cues[..|before.cues|][..|w.cues|];
    assert r.cues[|w.cues|..] == oldPart + newPart;
    MenaceCuesAppend(oldPart, newPart);
  }

  /** Over any run of the game the cue log keeps what was logged before, and the menace
      cues played during the run alternate, start with the one uhOrOh named, and leave
      uhOrOh naming the one not played last. */
  lemma {:induction false} RunAlternates(w: World, passes: seq<Pass>)
    requires WellFormed(w) && Playable(passes)
    ensures Alternating(w, Run(w, passes))
    decreases |passes|
  {
    if passes == [] {
      assert w.cues[|w.cues|..] == [];
      assert w.cues[..|w.cues|] == w.cues;
    } else {
      var prefix := passes[..|passes| - 1];
      var p := passes[|passes| - 1];
      RunAlternates(w, prefix);
      FrameMenace(Run(w, prefix), p);
      AlternatingNext(w, Run(w, prefix), Run(w, passes));
    }
  }
}
