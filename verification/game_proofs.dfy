/**
  Properties of whole frames: the state invariant every frame keeps, and
  how lives, score, level, speeds and the wall change from one frame to the
  next, stated in terms of the state before the frame.
*/
module GameProofs {
  import opened Geometry
  import opened Wall
  import opened Game

  /** What holds of the state between any two phases of a frame: the ball
      keeps its size, the bat its size and row (and stays inside a window it
      fits in), the score is a non-negative multiple of `BrickPoints`, the
      level is at least 1, lives are between 1 and `MaxLives`, neither speed
      is slower than its initial value, and every brick left on the wall is
      one that `build_wall` laid for the current level. */
  predicate Steady(cfg: Config, s: GameState)
    requires cfg.Valid()
  {
    && s.ball.w == BallSize && s.ball.h == BallSize
    && s.bat.w == cfg.batWidth && s.bat.h == cfg.batHeight && s.bat.y == BatY(cfg)
    && (cfg.batWidth <= cfg.width ==> BatInside(cfg, s.bat))
    && s.score >= 0 && s.score % BrickPoints == 0
    && s.level >= 1
    && 1 <= s.lives <= MaxLives
    && Abs(s.xspeed) >= XSpeedInit && Abs(s.yspeed) >= YSpeedInit
    && forall b :: b in s.wall ==> b in WallFor(cfg, s.level)
  }

  /** The invariant at the start of every frame: steady, and a wall with at
      least one brick. */
  predicate Inv(cfg: Config, s: GameState)
    requires cfg.Valid()
  {
    Steady(cfg, s) && |s.wall| > 0
  }

  /** The ball, once advanced by its speed, is past the bottom of the window:
      this frame costs a life. */
  predicate LosesLife(cfg: Config, s: GameState) {
    PastFloor(cfg, Move(s.ball, s.xspeed, s.yspeed))
  }

  /** This frame costs the last life: the game restarts within it. */
  predicate GameOver(cfg: Config, s: GameState) {
    LosesLife(cfg, s) && s.lives == 1
  }

  /** The state `main` builds before its loop satisfies the invariant. */
  lemma InitialInv(cfg: Config)
    requires cfg.Valid()
    ensures Inv(cfg, InitialState(cfg))
  {
    var s := InitialState(cfg);
    if cfg.batWidth <= cfg.width {
      assert cfg.width / 2 - cfg.batWidth / 2 + cfg.batWidth <= cfg.width;
    }
  }

  /** `reset_game` brings score, level, lives and speeds to exactly the values
      the game starts with, whatever the state before, and it is idempotent. */
  lemma ResetMatchesStart(cfg: Config, s: GameState)
    requires cfg.Valid()
    ensures var r := ResetGame(s); var i := InitialState(cfg);
            && r.score == i.score && r.level == i.level && r.lives == i.lives
            && r.xspeed == i.xspeed && r.yspeed == i.yspeed
    ensures ResetGame(ResetGame(s)) == ResetGame(s)
  {
  }

  /** A game over restarts the game where `main` started it, except that the
      bat stays where the player left it. */
  lemma GameOverRestarts(cfg: Config, s: GameState, inp: TickInput)
    requires cfg.Valid()
    requires s.ball.w == BallSize && s.ball.h == BallSize
    requires PastFloor(cfg, s.ball) && s.lives == 1
    ensures CheckFloor(cfg, s, inp) == InitialState(cfg).(bat := s.bat)
  {
  }

  /** The bat moves, the ball advances and bounces off the sides and the
      ceiling: all of it keeps the invariant. */
  lemma MotionKeepsInv(cfg: Config, s: GameState, inp: TickInput)
    requires cfg.Valid() && Inv(cfg, s)
    ensures Inv(cfg, BounceCeiling(BounceSides(cfg, Advance(s.(bat := MoveBatAll(cfg, s.bat, inp.keys))))))
  {
  }

  /** Advancing is undone by advancing again with both speeds negated: the
      ball moves by exactly its speed and nothing else. */
  lemma AdvanceReverses(s: GameState)
    ensures var a := Advance(s);
            Advance(a.(xspeed := -s.xspeed, yspeed := -s.yspeed)).ball == s.ball
  {
  }

  /** The floor check keeps the invariant: a lost life leaves at least one,
      a game over brings back a full wall for level 1. */
  lemma FloorKeepsInv(cfg: Config, s: GameState, inp: TickInput)
    requires cfg.Valid() && Inv(cfg, s)
    ensures Inv(cfg, CheckFloor(cfg, s, inp))
  {
    var r := CheckFloor(cfg, s, inp);
    if PastFloor(cfg, s.ball) && s.lives == 1 {
      assert r.wall == WallFor(cfg, 1);
    }
  }

  /** A re-served ball is centred inside the window: at the drawn serve
      position a third of the way down, or in the middle after a game over. */
  lemma ServeInWindow(cfg: Config, s: GameState, inp: TickInput)
    requires cfg.Valid() && ValidInput(cfg, inp) && PastFloor(cfg, s.ball)
    ensures var r := CheckFloor(cfg, s, inp);
            0 <= CenterX(r.ball) < cfg.width && 0 <= CenterY(r.ball) < cfg.height
  {
  }

  /** The brick check keeps everything but a non-empty wall: the brick it
      removes was on the wall, and the score gains `BrickPoints`. */
  lemma HitKeepsSteady(cfg: Config, s: GameState)
    requires cfg.Valid() && Steady(cfg, s)
    ensures Steady(cfg, HitBrick(s))
  {
    var r := HitBrick(s);
    var i := CollideList(s.ball, s.wall);
    if i != -1 {
      assert FirstCollision(s.ball, s.wall, i);
      assert r.wall == Pop(s.wall, i);
    }
  }

  /** The level-up check turns a steady state into one that satisfies the
      invariant: an empty wall is replaced by the next level's full wall. */
  lemma LevelUpRestoresInv(cfg: Config, s: GameState)
    requires cfg.Valid() && Steady(cfg, s)
    ensures Inv(cfg, CheckLevelUp(cfg, s))
  {
    var r := CheckLevelUp(cfg, s);
    if |s.wall| == 0 {
      assert |r.wall| == BricksPerRow * (2 + s.level);
    }
  }

  /** A whole frame keeps the invariant. */
  lemma TickPreservesInv(cfg: Config, s: GameState, inp: TickInput)
    requires cfg.Valid() && Inv(cfg, s)
    ensures Inv(cfg, Tick(cfg, s, inp))
  {
    var ceiling := BounceCeiling(BounceSides(cfg, Advance(s.(bat := MoveBatAll(cfg, s.bat, inp.keys)))));
    MotionKeepsInv(cfg, s, inp);
    var floor := CheckFloor(cfg, ceiling, inp);
    FloorKeepsInv(cfg, ceiling, inp);
    var hit := HitBrick(floor);
    HitKeepsSteady(cfg, floor);
    var batted := BounceBat(hit);
    assert Steady(cfg, batted);
    LevelUpRestoresInv(cfg, batted);
  }

  /** Only the frame's arrow keys move the bat; no collision does. */
  lemma TickMovesBatByKeysOnly(cfg: Config, s: GameState, inp: TickInput)
    requires cfg.Valid()
    ensures Tick(cfg, s, inp).bat == MoveBatAll(cfg, s.bat, inp.keys)
  {
  }

  /** Lives drop by exactly one in a frame where the ball falls past the
      bottom (and come back to `MaxLives` when that was the last one), and
      are unchanged otherwise. */
  lemma TickLives(cfg: Config, s: GameState, inp: TickInput)
    requires cfg.Valid()
    ensures Tick(cfg, s, inp).lives ==
              if !LosesLife(cfg, s) then s.lives
              else if s.lives == 1 then MaxLives
              else s.lives - 1
  {
  }

  /** The score never goes down except through a game over; a frame adds at
      most one brick's points. */
  lemma TickScore(cfg: Config, s: GameState, inp: TickInput)
    requires cfg.Valid()
    ensures var r := Tick(cfg, s, inp);
            !GameOver(cfg, s) ==> r.score == s.score || r.score == s.score + BrickPoints
    ensures var r := Tick(cfg, s, inp);
            GameOver(cfg, s) ==> r.score == 0 || r.score == BrickPoints
  {
  }

  /** A frame raises the level by at most one; a game over puts it back to 1,
      and the fresh 20-brick wall cannot be cleared in that same frame. */
  lemma TickLevel(cfg: Config, s: GameState, inp: TickInput)
    requires cfg.Valid()
    ensures var r := Tick(cfg, s, inp);
            !GameOver(cfg, s) ==> r.level == s.level || r.level == s.level + 1
    ensures GameOver(cfg, s) ==> Tick(cfg, s, inp).level == 1
  {
    var moved := s.(bat := MoveBatAll(cfg, s.bat, inp.keys));
    var ceiling := BounceCeiling(BounceSides(cfg, Advance(moved)));
    var floor := CheckFloor(cfg, ceiling, inp);
    var batted := BounceBat(HitBrick(floor));
    if GameOver(cfg, s) {
      assert |floor.wall| == 20;
      assert |batted.wall| >= 19;
    }
  }

  /** When a frame raises the level, it rebuilt the wall for the new level
      with `10 * (1 + level)` bricks and made both speeds one faster in the
      same direction. */
  lemma TickLevelUp(cfg: Config, s: GameState, inp: TickInput)
    requires cfg.Valid() && Inv(cfg, s)
    requires !GameOver(cfg, s) && Tick(cfg, s, inp).level == s.level + 1
    ensures Tick(cfg, s, inp).wall == WallFor(cfg, s.level + 1)
    ensures |Tick(cfg, s, inp).wall| == BricksPerRow * (2 + s.level)
    ensures !LosesLife(cfg, s) ==>
              && Abs(Tick(cfg, s, inp).xspeed) == Abs(s.xspeed) + 1
              && Abs(Tick(cfg, s, inp).yspeed) == Abs(s.yspeed) + 1
  {
  }

  /** Within a level and without a game over, points are conserved: every
      brick that leaves the wall turns into `BrickPoints` of score, and no
      brick is added. */
  lemma TickConservesPoints(cfg: Config, s: GameState, inp: TickInput)
    requires cfg.Valid()
    requires !GameOver(cfg, s) && Tick(cfg, s, inp).level == s.level
    ensures Tick(cfg, s, inp).score + BrickPoints * |Tick(cfg, s, inp).wall|
            == s.score + BrickPoints * |s.wall|
    ensures multiset(Tick(cfg, s, inp).wall) <= multiset(s.wall)
  {
    var moved := s.(bat := MoveBatAll(cfg, s.bat, inp.keys));
    var ceiling := BounceCeiling(BounceSides(cfg, Advance(moved)));
    var floor := CheckFloor(cfg, ceiling, inp);
    assert floor.wall == s.wall && floor.score == s.score && floor.level == s.level;
    var hit := HitBrick(floor);
    var batted := BounceBat(hit);
    assert batted.wall == hit.wall && batted.score == hit.score && batted.level == s.level;
    assert Tick(cfg, s, inp) == CheckLevelUp(cfg, batted);
    assert |batted.wall| > 0;
    assert Tick(cfg, s, inp) == batted;
    var i := CollideList(floor.ball, floor.wall);
    if i != -1 {
      assert FirstCollision(floor.ball, floor.wall, i);
      assert hit.wall == Pop(floor.wall, i);
      assert multiset(hit.wall) + multiset{floor.wall[i]} == multiset(floor.wall);
    } else {
      assert hit == floor;
    }
  }

  /** Without a life lost or a level change, both speeds keep their
      magnitude: bounces only ever negate them. */
  lemma TickKeepsSpeedMagnitudes(cfg: Config, s: GameState, inp: TickInput)
    requires cfg.Valid()
    requires !LosesLife(cfg, s) && Tick(cfg, s, inp).level == s.level
    ensures Abs(Tick(cfg, s, inp).xspeed) == Abs(s.xspeed)
    ensures Abs(Tick(cfg, s, inp).yspeed) == Abs(s.yspeed)
  {
  }

  /** Hitting the last brick clears the level within the same frame: ten
      more points, the next level, and its full wall. */
  lemma LastBrickLevelsUp(cfg: Config, s: GameState, inp: TickInput)
    requires cfg.Valid() && Inv(cfg, s)
    requires |s.wall| == 1 && !LosesLife(cfg, s)
    requires Collide(Move(s.ball, s.xspeed, s.yspeed), s.wall[0])
    ensures Tick(cfg, s, inp).score == s.score + BrickPoints
    ensures Tick(cfg, s, inp).level == s.level + 1
    ensures Tick(cfg, s, inp).wall == WallFor(cfg, s.level + 1)
    ensures |Tick(cfg, s, inp).wall| == BricksPerRow * (2 + s.level)
  {
    var moved := s.(bat := MoveBatAll(cfg, s.bat, inp.keys));
    var ceiling := BounceCeiling(BounceSides(cfg, Advance(moved)));
    var floor := CheckFloor(cfg, ceiling, inp);
    assert floor == ceiling;
    assert FirstCollision(floor.ball, floor.wall, 0);
  }

  /** Many frames keep the invariant. */
  lemma {:induction false} RunPreservesInv(cfg: Config, s: GameState, inputs: seq<TickInput>)
    requires cfg.Valid() && Inv(cfg, s)
    ensures Inv(cfg, Run(cfg, s, inputs))
    decreases |inputs|
  {
    if |inputs| > 0 {
      TickPreservesInv(cfg, s, inputs[0]);
      RunPreservesInv(cfg, Tick(cfg, s, inputs[0]), inputs[1..]);
    }
  }

  /** Frames with neither a game over nor a level change. */
  predicate QuietRun(cfg: Config, s: GameState, inputs: seq<TickInput>)
    requires cfg.Valid()
    decreases |inputs|
  {
    |inputs| == 0 ||
      (&& !GameOver(cfg, s)
       && Tick(cfg, s, inputs[0]).level == s.level
       && QuietRun(cfg, Tick(cfg, s, inputs[0]), inputs[1..]))
  }

  /** Over quiet frames, score plus the points left on the wall is constant. */
  lemma {:induction false} RunConservesPoints(cfg: Config, s: GameState, inputs: seq<TickInput>)
    requires cfg.Valid() && QuietRun(cfg, s, inputs)
    ensures Run(cfg, s, inputs).score + BrickPoints * |Run(cfg, s, inputs).wall|
            == s.score + BrickPoints * |s.wall|
    ensures Run(cfg, s, inputs).level == s.level
    decreases |inputs|
  {
    if |inputs| > 0 {
      TickConservesPoints(cfg, s, inputs[0]);
      RunConservesPoints(cfg, Tick(cfg, s, inputs[0]), inputs[1..]);
    }
  }

  /** Clearing the first wall: from the starting state, quiet frames that
      leave one brick, then a frame whose ball hits it, give 200 points,
      level 2 and a 30-brick wall. */
  lemma ClearFirstWall(cfg: Config, inputs: seq<TickInput>, last: TickInput)
    requires cfg.Valid() && QuietRun(cfg, InitialState(cfg), inputs)
    requires var s := Run(cfg, InitialState(cfg), inputs);
             && |s.wall| == 1 && !LosesLife(cfg, s)
             && Collide(Move(s.ball, s.xspeed, s.yspeed), s.wall[0])
    ensures var r := Tick(cfg, Run(cfg, InitialState(cfg), inputs), last);
            r.score == 200 && r.level == 2 && |r.wall| == 30
  {
    var s0 := InitialState(cfg);
    var s := Run(cfg, s0, inputs);
    InitialInv(cfg);
    RunPreservesInv(cfg, s0, inputs);
    RunConservesPoints(cfg, s0, inputs);
    LastBrickLevelsUp(cfg, s, last);
  }
}
