/**
  The game state of `Basketball` and one frame of its main loop, with
  rendering, audio and the event pump removed. A frame is a pipeline of
  phases applied in the loop's order: bat moves for the frame's arrow keys,
  ball advance, side-wall bounce, ceiling bounce, floor (life loss and game
  over), brick hit, bat bounce, level-up.
*/
module Game {
  import opened Geometry
  import opened Wall

  /** Starting horizontal speed of the ball. */
  const XSpeedInit := 10
  /** Starting vertical speed of the ball. */
  const YSpeedInit := 10
  /** Lives at the start of a game. */
  const MaxLives := 5
  /** Pixels the bat moves per arrow-key event. */
  const BatSpeed := 30
  /** The ball image is cut to a circle of this radius ... */
  const BallRadius := 35
  /** ... so the ball's rectangle is this wide and high. */
  const BallSize := 2 * BallRadius
  /** Points for each brick hit. */
  const BrickPoints := 10
  /** Gap between the bat's bottom edge and the bottom of the window. */
  const BatLift := 20

  /** What the game takes from its surroundings: the window size, and the
      sizes of the bat image (already doubled in width) and the brick image. */
  datatype Config = Config(width: int, height: int,
                           batWidth: int, batHeight: int,
                           brickWidth: int, brickHeight: int)
  {
    predicate Valid() {
      && width > 0 && height > 0
      && batWidth > 0 && batHeight > 0
      && brickWidth > 0 && brickHeight > 0
    }
  }

  datatype GameState = GameState(
    score: int, level: int, lives: int,
    xspeed: int, yspeed: int,
    ball: Rect, bat: Rect, wall: seq<Rect>)

  /** The arrow keys the loop reacts to. */
  datatype Key = LeftKey | RightKey

  /** The sign `random.choice([-1, 1])` picks. */
  datatype Sign = Minus | Plus

  /** What the world supplies for one frame: the arrow-key events delivered
      this frame (in order; none is the empty sequence), and the two random
      draws used when the ball is served again after a life is lost. */
  datatype TickInput = TickInput(keys: seq<Key>, serve: Sign, serveX: int)

  function Abs(n: int): int { if n < 0 then -n else n }

  function SignOf(s: Sign): int { if s == Minus then -1 else 1 }

  /** `width * random.random()` truncated to a pixel lies in [0, width). */
  predicate ValidInput(cfg: Config, inp: TickInput) {
    0 <= inp.serveX < cfg.width
  }

  /** The wall `build_wall(width, level)` lays with this configuration's bricks. */
  function WallFor(cfg: Config, level: int): seq<Rect>
    requires cfg.Valid()
  {
    BuildWall(cfg.width, level, cfg.brickWidth, cfg.brickHeight)
  }

  /** y coordinate of the bat's top edge; the bat never moves vertically. */
  function BatY(cfg: Config): int {
    cfg.height - BatLift - cfg.batHeight
  }

  predicate BatInside(cfg: Config, bat: Rect) {
    0 <= Left(bat) && Right(bat) <= cfg.width
  }

  /** The state `main` sets up before its loop: the level-1 wall, the bat
      centred at the bottom, the ball centred in the window, initial speeds,
      full lives, no score. */
  function InitialState(cfg: Config): (s: GameState)
    requires cfg.Valid()
    ensures s.score == 0 && s.level == 1 && s.lives == MaxLives
    ensures s.xspeed == XSpeedInit && s.yspeed == YSpeedInit
    ensures s.wall == WallFor(cfg, 1) && |s.wall| == BrickCount(1) == 20
    ensures s.ball.w == BallSize && s.ball.h == BallSize
    ensures s.bat.w == cfg.batWidth && s.bat.h == cfg.batHeight
    ensures CenterX(s.ball) == cfg.width / 2 && CenterY(s.ball) == cfg.height / 2
    ensures CenterX(s.bat) == cfg.width / 2 && Bottom(s.bat) == cfg.height - BatLift
  {
    var bat := WithMidBottom(Rect(0, 0, cfg.batWidth, cfg.batHeight), cfg.width / 2, cfg.height - BatLift);
    var ball := WithCenter(Rect(0, 0, BallSize, BallSize), cfg.width / 2, cfg.height / 2);
    GameState(0, 1, MaxLives, XSpeedInit, YSpeedInit, ball, bat, WallFor(cfg, 1))
  }

  /** `reset_game`: score, level, lives and both speeds go back to their
      starting values, whatever they were; nothing else is touched. */
  function ResetGame(s: GameState): (r: GameState)
    ensures r.score == 0 && r.level == 1 && r.lives == MaxLives
    ensures r.xspeed == XSpeedInit && r.yspeed == YSpeedInit
    ensures r.ball == s.ball && r.bat == s.bat && r.wall == s.wall
  {
    s.(score := 0, level := 1, lives := MaxLives, xspeed := XSpeedInit, yspeed := YSpeedInit)
  }

  // ---------------------------------------------------------------------
  // The phases of one frame, in the loop's order.

  /** One arrow-key event: the bat moves `BatSpeed` to that side, and if its
      leading edge then lies past the window's side it is put back on it. */
  function MoveBat(cfg: Config, bat: Rect, key: Key): (r: Rect)
    ensures r.y == bat.y && r.w == bat.w && r.h == bat.h
    ensures key == LeftKey ==> Left(r) >= 0 && (Left(r) > 0 ==> r.x == bat.x - BatSpeed)
    ensures key == LeftKey && Left(bat) >= 0 ==> bat.x - BatSpeed <= r.x <= bat.x
    ensures key == RightKey ==> Right(r) <= cfg.width && (Right(r) < cfg.width ==> r.x == bat.x + BatSpeed)
    ensures key == RightKey && Right(bat) <= cfg.width ==> bat.x <= r.x <= bat.x + BatSpeed
    ensures BatInside(cfg, bat) ==> BatInside(cfg, r)
  {
    match key
    case LeftKey =>
      var m := Move(bat, -BatSpeed, 0);
      if Left(m) < 0 then m.(x := 0) else m
    case RightKey =>
      var m := Move(bat, BatSpeed, 0);
      if Right(m) > cfg.width then m.(x := cfg.width - m.w) else m
  }

  /** All arrow-key events of a frame, in the order the event queue holds
      them: the bat keeps its row and size, a bat inside the window stays
      inside, and it ends at most `BatSpeed` per event from where it was. */
  function MoveBatAll(cfg: Config, bat: Rect, keys: seq<Key>): (r: Rect)
    ensures r.y == bat.y && r.w == bat.w && r.h == bat.h
    ensures BatInside(cfg, bat) ==> BatInside(cfg, r)
    ensures BatInside(cfg, bat) ==> Abs(r.x - bat.x) <= |keys| * BatSpeed
    decreases |keys|
  {
    if |keys| == 0 then bat
    else MoveBatAll(cfg, MoveBat(cfg, bat, keys[0]), keys[1..])
  }

  /** The ball moves by its speed. */
  function Advance(s: GameState): (r: GameState)
    ensures r.(ball := s.ball) == s
    ensures Left(r.ball) == Left(s.ball) + s.xspeed && Top(r.ball) == Top(s.ball) + s.yspeed
    ensures r.ball.w == s.ball.w && r.ball.h == s.ball.h
  {
    s.(ball := Move(s.ball, s.xspeed, s.yspeed))
  }

  /** A ball past the left or right side of the window has its x-speed
      negated; nothing else changes, and the speed keeps its magnitude. */
  function BounceSides(cfg: Config, s: GameState): (r: GameState)
    ensures r.(xspeed := s.xspeed) == s
    ensures Abs(r.xspeed) == Abs(s.xspeed)
    ensures Left(s.ball) < 0 || Right(s.ball) > cfg.width ==> r.xspeed == -s.xspeed
    ensures 0 <= Left(s.ball) && Right(s.ball) <= cfg.width ==> r.xspeed == s.xspeed
  {
    if Left(s.ball) < 0 || Right(s.ball) > cfg.width then s.(xspeed := -s.xspeed) else s
  }

  /** A ball above the top of the window has its y-speed negated; nothing
      else changes, and the speed keeps its magnitude. */
  function BounceCeiling(s: GameState): (r: GameState)
    ensures r.(yspeed := s.yspeed) == s
    ensures Abs(r.yspeed) == Abs(s.yspeed)
    ensures Top(s.ball) < 0 ==> r.yspeed == -s.yspeed
    ensures Top(s.ball) >= 0 ==> r.yspeed == s.yspeed
  {
    if Top(s.ball) < 0 then s.(yspeed := -s.yspeed) else s
  }

  /** The ball's top edge is below the bottom of the window. */
  predicate PastFloor(cfg: Config, ball: Rect) {
    Top(ball) > cfg.height
  }

  /** The floor check. A ball past the bottom costs a life and is served
      again at (serveX, height / 3) with x-speed `XSpeedInit` in the random
      direction and y-speed `YSpeedInit`. When that was the last life, the
      game restarts at once: `reset_game`, a fresh level-1 wall, and the ball
      centred in the window. The later phases of the frame still run. */
  function CheckFloor(cfg: Config, s: GameState, inp: TickInput): (r: GameState)
    requires cfg.Valid()
    ensures !PastFloor(cfg, s.ball) ==> r == s
    ensures r.bat == s.bat && r.ball.w == s.ball.w && r.ball.h == s.ball.h
    ensures PastFloor(cfg, s.ball) && s.lives != 1 ==>
              && r.lives == s.lives - 1
              && r.xspeed == XSpeedInit * SignOf(inp.serve) && r.yspeed == YSpeedInit
              && CenterX(r.ball) == inp.serveX && CenterY(r.ball) == cfg.height / 3
              && r.score == s.score && r.level == s.level && r.wall == s.wall
    ensures PastFloor(cfg, s.ball) && s.lives == 1 ==>
              && r.score == 0 && r.level == 1 && r.lives == MaxLives
              && r.xspeed == XSpeedInit && r.yspeed == YSpeedInit
              && r.wall == WallFor(cfg, 1)
              && CenterX(r.ball) == cfg.width / 2 && CenterY(r.ball) == cfg.height / 2
  {
    if PastFloor(cfg, s.ball) then
      var served := s.(lives := s.lives - 1,
                       xspeed := XSpeedInit * SignOf(inp.serve),
                       yspeed := YSpeedInit,
                       ball := WithCenter(s.ball, inp.serveX, cfg.height / 3));
      if served.lives == 0 then
        var reset := ResetGame(served);
        reset.(wall := WallFor(cfg, reset.level),
               ball := WithCenter(reset.ball, cfg.width / 2, cfg.height / 2))
      else served
    else s
  }

  /** `wall.brickrect.pop(i)`. */
  function Pop(bricks: seq<Rect>, i: int): (r: seq<Rect>)
    requires 0 <= i < |bricks|
    ensures |r| == |bricks| - 1
    ensures forall j :: 0 <= j < i ==> r[j] == bricks[j]
    ensures forall j :: i <= j < |r| ==> r[j] == bricks[j + 1]
    ensures multiset(r) + multiset{bricks[i]} == multiset(bricks)
    ensures forall b :: b in r ==> b in bricks
  {
    assert bricks == bricks[..i] + [bricks[i]] + bricks[i + 1..];
    bricks[..i] + bricks[i + 1..]
  }

  /** The ball's centre lies left or right of the brick, so the hit is taken
      as a hit on the brick's side. This is `main`'s heuristic: it does
      not look at how deep the ball went in, and can misjudge corner hits. */
  predicate SideHit(ball: Rect, brick: Rect) {
    CenterX(ball) > Right(brick) || CenterX(ball) < Left(brick)
  }

  /** The ball hits brick `i`: the brick leaves the wall, the score gains
      `BrickPoints`, and the x-speed is negated for a side hit, the y-speed
      otherwise. */
  function Strike(s: GameState, i: int): (r: GameState)
    requires 0 <= i < |s.wall|
    ensures r.wall == Pop(s.wall, i) && r.score == s.score + BrickPoints
    ensures SideHit(s.ball, s.wall[i]) ==> r.xspeed == -s.xspeed && r.yspeed == s.yspeed
    ensures !SideHit(s.ball, s.wall[i]) ==> r.xspeed == s.xspeed && r.yspeed == -s.yspeed
    ensures r.level == s.level && r.lives == s.lives && r.ball == s.ball && r.bat == s.bat
  {
    var bounced :=
      if SideHit(s.ball, s.wall[i]) then s.(xspeed := -s.xspeed) else s.(yspeed := -s.yspeed);
    bounced.(wall := Pop(s.wall, i), score := s.score + BrickPoints)
  }

  /** The brick check: the ball strikes the first brick of the wall that it
      overlaps, and only that one. Without an overlap nothing changes. */
  function HitBrick(s: GameState): (r: GameState)
    ensures (forall j :: 0 <= j < |s.wall| ==> !Collide(s.ball, s.wall[j])) ==> r == s
    ensures forall i {:trigger FirstCollision(s.ball, s.wall, i)} ::
              FirstCollision(s.ball, s.wall, i) ==> r == Strike(s, i)
    ensures r.level == s.level && r.lives == s.lives && r.ball == s.ball && r.bat == s.bat
  {
    var i := CollideList(s.ball, s.wall);
    if i == -1 then s else Strike(s, i)
  }

  /** A ball overlapping the bat has its y-speed negated, wherever on the bat
      it landed; nothing else changes. */
  function BounceBat(s: GameState): (r: GameState)
    ensures r.(yspeed := s.yspeed) == s
    ensures Abs(r.yspeed) == Abs(s.yspeed)
    ensures Collide(s.ball, s.bat) ==> r.yspeed == -s.yspeed
    ensures !Collide(s.ball, s.bat) ==> r.yspeed == s.yspeed
  {
    if Collide(s.ball, s.bat) then s.(yspeed := -s.yspeed) else s
  }

  /** Speed after a level-up: one faster, in the same direction (a zero
      speed counts as negative, as `xspeed > 0` decides it). */
  function SpeedUp(v: int): (r: int)
    ensures v != 0 ==> Abs(r) == Abs(v) + 1 && (r > 0 <==> v > 0)
  {
    v + (if v > 0 then 1 else -1)
  }

  /** The level-up check. An empty wall means the level is cleared: the level
      rises by one, the wall is rebuilt for it, both speeds get one faster,
      and the ball is centred at (width / 2, height / 3). Otherwise nothing
      changes. */
  function CheckLevelUp(cfg: Config, s: GameState): (r: GameState)
    requires cfg.Valid()
    ensures |s.wall| > 0 ==> r == s
    ensures |s.wall| == 0 ==>
              && r.level == s.level + 1
              && r.wall == WallFor(cfg, r.level)
              && (s.level >= -2 ==> |r.wall| == BricksPerRow * (2 + s.level))
              && (s.xspeed != 0 ==> Abs(r.xspeed) == Abs(s.xspeed) + 1 && (r.xspeed > 0 <==> s.xspeed > 0))
              && (s.yspeed != 0 ==> Abs(r.yspeed) == Abs(s.yspeed) + 1 && (r.yspeed > 0 <==> s.yspeed > 0))
              && CenterX(r.ball) == cfg.width / 2 && CenterY(r.ball) == cfg.height / 3
              && r.ball.w == s.ball.w && r.ball.h == s.ball.h
              && r.score == s.score && r.lives == s.lives && r.bat == s.bat
  {
    if |s.wall| == 0 then
      s.(level := s.level + 1,
         wall := WallFor(cfg, s.level + 1),
         xspeed := SpeedUp(s.xspeed),
         yspeed := SpeedUp(s.yspeed),
         ball := WithCenter(s.ball, cfg.width / 2, cfg.height / 3))
    else s
  }

  /** One frame of the main loop. */
  function Tick(cfg: Config, s: GameState, inp: TickInput): GameState
    requires cfg.Valid()
  {
    var moved := s.(bat := MoveBatAll(cfg, s.bat, inp.keys));
    var advanced := Advance(moved);
    var sides := BounceSides(cfg, advanced);
    var ceiling := BounceCeiling(sides);
    var floor := CheckFloor(cfg, ceiling, inp);
    var hit := HitBrick(floor);
    var batted := BounceBat(hit);
    CheckLevelUp(cfg, batted)
  }

  /** Frames one after another. */
  function Run(cfg: Config, s: GameState, inputs: seq<TickInput>): GameState
    requires cfg.Valid()
    decreases |inputs|
  {
    if |inputs| == 0 then s else Run(cfg, Tick(cfg, s, inputs[0]), inputs[1..])
  }
}
