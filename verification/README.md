# PyGame Basketball: the game logic in Dafny

PyGame Basketball is a breakout game. A bat at the bottom of the window
deflects a ball, and the ball knocks bricks out of a wall. Each brick is worth
10 points. Clearing the wall raises the level and makes the ball faster.
Losing the ball past the bottom costs one of five lives, and losing the last
life restarts the game.

This project models the game logic in `main.py` as pure functions over
immutable values. Rendering, audio and the event pump are left out.

- **Geometry** (`geometry.dfy`) holds the `Rect` operations the game uses:
  `move`, the `center` and `midbottom` setters, `colliderect` and
  `collidelist`. These are pygame's, and pygame is not part of this model.
  The definitions state the library behaviour that the game assumes:
  - coordinates are integers;
  - the centre is `x + w / 2` with integer halving;
  - `colliderect` means strict overlap, so rectangles that only touch, and
    empty rectangles, do not collide;
  - `collidelist` gives the index of the first colliding rectangle, or -1.
- **Wall** (`wall.dfy`) models `Wall.build_wall` as a pure function of the
  window width, the level and the brick size. The model also has the same
  loop written as a method, and an independent closed form (column `i % k`,
  row `i / k`) that every laid brick is proved to match.
- **Game** (`game.dfy`) holds the state (score, level, lives, both speeds,
  ball, bat, wall), `reset_game`, the state `main` builds before its loop,
  and one frame of the loop as `Tick`. `Tick` runs eight phases in the
  code's order:
  1. the bat moves for each arrow key of the frame;
  2. the ball advances;
  3. the ball bounces off a side wall;
  4. the ball bounces off the ceiling;
  5. the floor check, with life loss and game over;
  6. the first overlapping brick is hit;
  7. the ball bounces off the bat;
  8. the level goes up if the wall is empty.
- **GameProofs** (`game_proofs.dfy`) proves properties of whole frames and
  of runs of frames:
  - the state invariant;
  - how lives, score, level and speeds change;
  - points are conserved within a level;
  - the scenario where clearing the 20-brick first wall gives 200 points,
    level 2 and a 30-brick wall.

Things the world supplies become inputs to `Tick` (`TickInput`):
- the arrow-key events of the frame;
- the random direction `random.choice([-1, 1])`;
- the random serve position `width * random.random()`, truncated to a pixel
  in `[0, width)`.

The window size and the bat and brick image sizes are parameters (`Config`).
Positions that the source computes with float division (`width / 2`,
`height / 3`, `height / 2`) use integer division, which is where pygame
truncates them to pixels.

`Tick` and `Run` have no contract of their own. Their properties are the
`GameProofs` lemmas in the table.

The model follows the code as written, including where it may surprise a
reader:
- A lost life does not end the frame. The brick, bat and level-up checks
  still run on the re-served ball, so a game over can still score a brick in
  the same frame (`TickScore`). A game over cannot level up in that frame,
  because the fresh wall has 20 bricks (`TickLevel`).
- The wall is rebuilt only on game over and on level-up, not on every lost
  life. The bat is placed once, before the loop, and is never re-centred.
- A speed can be negated more than once in one frame:
  - x by a side wall and then by a side hit on a brick;
  - y by the ceiling, a brick and the bat.
  
  So a speed can be negated more than once on the same axis in one frame.
- The bat is clamped on its leading edge only. A left move clamps the left
  edge at 0, and a right move clamps the right edge at `width`. A bat wider
  than the window can therefore end at a negative x. The model keeps this,
  and the "stays inside" property assumes the bat fits (`MoveBat`).

## Model

| member | source | states |
|---|---|---|
| Geometry.Move | main.py:158 | a moved rectangle has every edge shifted by the offset and keeps its size |
| Geometry.WithCenter | main.py:172 | after assigning a centre, the rectangle reports exactly that centre and keeps its size |
| Geometry.WithMidBottom | main.py:131 | after assigning `midbottom`, the rectangle is centred on the given x with its bottom edge at the given y |
| Geometry.Collide | main.py:179-189 | assumed `colliderect` semantics: both rectangles non-empty and strictly overlapping on both axes; no contract of its own, used by `CollideList`, `HitBrick` and `BounceBat` |
| Geometry.CollideList | main.py:179 | the index is -1 exactly when no rectangle overlaps; otherwise it is the unique first overlapping one |
| Geometry.TouchingDoesNotCollide | main.py:179-189 | rectangles that only share an edge, vertical or horizontal, do not collide in either order (assumed `colliderect` semantics) |
| Wall.Lay | main.py:242-249 | the loop lays exactly as many bricks as it is asked for |
| Wall.LayInside | main.py:242-249 | from any cursor, laid bricks have the brick size, never go left of the margin when the cursor does not, never go above the cursor's row, and never pass `width - 30` when one brick fits between the margins |
| Wall.LayFollows | main.py:242-249 | from any cursor, each laid brick either abuts the one before it on the same row or, when it would pass `width - 30`, starts a new row at x = 30 one brick lower |
| Wall.LayDescends | main.py:242-249 | from any cursor, the y coordinates of the laid bricks never decrease |
| Wall.BuildWall | main.py:234-249 | a fresh wall of exactly `10 * (1 + level)` bricks of the brick size, each at x >= 30 and y >= 60, and with right edges at most `width - 30` when a brick fits between the margins |
| Wall.BuildWallOrder | main.py:243-249 | consecutive bricks either abut on the same row or wrap to x = 30 one brick lower, and y never decreases along the wall |
| Wall.FirstBrick | main.py:237-245 | the first brick is at (30, 60), or at (30, 60 + brick height) when no brick fits between the margins |
| Wall.LayOntoLay | main.py:242-249 | appending the loop's bricks one at a time onto those already laid gives the laid bricks followed by exactly what `Lay` lays from the same cursor |
| Wall.BuildWallLoop | main.py:236-249 | the source's cursor loop, with its mutable x and y and an append per brick, produces the same wall as the functional definition |
| Wall.LayRows | main.py:242-249 | with k >= 1 bricks per row, a cursor at column c of row q lays its j-th brick at closed-form slot `q * k + c + j` |
| Wall.LayColumn | main.py:243-245 | when no brick fits between the margins, every brick wraps onto a new row at x = 30 |
| Wall.BuildWallSlots | main.py:237-249 | every brick of the wall is at its closed-form slot: column `i % k`, row `i / k` |
| Wall.BuildWallDistinct | main.py:242-249 | no two bricks of a fresh wall coincide |
| Game.InitialState | main.py:126-135 | the game starts with score 0, level 1, 5 lives, both speeds 10, the wall `build_wall(width, 1)` of 20 bricks, a 70×70 ball centred in the window, and a bat of the configured size centred 20 pixels above the bottom |
| Game.ResetGame | main.py:74-80 | score 0, level 1, lives 5, both speeds 10, whatever the prior state; ball, bat and wall are untouched |
| Game.MoveBat | main.py:149-156 | a key press moves only the bat's x: left gives x >= 0 and moves by exactly 30 unless clamped at 0, right gives a right edge <= width and moves by exactly 30 unless clamped at `width`; when the bat starts inside the window it moves at most 30, never against the key, and stays inside |
| Game.MoveBatAll | main.py:143-156 | over a frame's key events the bat keeps its row and size; when it starts inside the window it stays inside and ends at most 30 pixels per event from where it was |
| Game.Advance | main.py:158 | the ball moves by exactly (xspeed, yspeed) and keeps its size; nothing else changes |
| Game.BounceSides | main.py:160-162 | the x-speed is negated exactly when the ball is past a side; its magnitude and everything else are kept |
| Game.BounceCeiling | main.py:164-166 | the y-speed is negated exactly when the ball's top is above 0; its magnitude and everything else are kept |
| Game.CheckFloor | main.py:168-177 | past the bottom, one life is lost and the ball is re-served at (serveX, height / 3) with x-speed ±10 and y-speed 10; on the last life the game resets to score 0, level 1, 5 lives and the level-1 wall, with the ball centred; otherwise nothing changes |
| Game.Pop | main.py:186 | removing index i keeps the other bricks in their order and takes exactly that one brick out of the multiset |
| Game.Strike | main.py:181-187 | striking brick i removes exactly that brick, adds 10 points, negates the x-speed for a side hit (ball centre x left or right of the brick) and the y-speed otherwise, and leaves level, lives, ball and bat alone |
| Game.HitBrick | main.py:179-187 | the first overlapping brick is removed, score +10, and the x-speed is negated iff the ball's centre x lies outside the brick's left and right edges (otherwise the y-speed is); with no overlap nothing changes |
| Game.BounceBat | main.py:189-191 | the y-speed is negated exactly when the ball overlaps the bat; nothing else changes |
| Game.SpeedUp | main.py:196-197 | a nonzero speed grows by one in magnitude and keeps its sign |
| Game.CheckLevelUp | main.py:193-198 | an empty wall raises the level by exactly one, rebuilds the wall for it with `10 * (1 + level)` bricks, speeds both speeds up by one keeping their signs, and centres the ball at (width / 2, height / 3); a non-empty wall changes nothing |
| GameProofs.InitialInv | main.py:126-135 | the starting state satisfies the frame invariant |
| GameProofs.ResetMatchesStart | main.py:74-80 | `reset_game` gives exactly the starting counters and speeds from any state, and applying it twice is the same as once |
| GameProofs.GameOverRestarts | main.py:168-177 | after a game over, the state equals the starting state except for the bat's position |
| GameProofs.AdvanceReverses | main.py:158 | advancing and then advancing again with both speeds negated brings the ball back where it was |
| GameProofs.MotionKeepsInv | main.py:149-166 | bat moves, ball advance and the side and ceiling bounces keep the invariant |
| GameProofs.FloorKeepsInv | main.py:168-177 | the floor check keeps lives in 1..5 and the wall non-empty |
| GameProofs.ServeInWindow | main.py:168-177 | when the ball falls past the bottom and the serve position is drawn in [0, width), the re-served ball is centred inside the window |
| GameProofs.HitKeepsSteady | main.py:179-187 | a brick hit keeps the score a multiple of 10 and leaves only bricks that the current level's wall laid |
| GameProofs.LevelUpRestoresInv | main.py:193-198 | the level-up check always leaves a non-empty wall |
| GameProofs.TickPreservesInv | main.py:149-198 | a frame keeps the invariant: ball and bat sizes, bat row and bounds, score, level >= 1, lives in 1..5, speeds at least 10, and a non-empty wall of this level's bricks |
| Game.Tick | main.py:149-198 | one frame as the eight phases in code order; no contract of its own, its properties are the `GameProofs.Tick*` lemmas |
| GameProofs.TickMovesBatByKeysOnly | main.py:149-156 | in a frame, only the arrow keys move the bat; no collision does |
| GameProofs.TickLives | main.py:168-177 | lives drop by exactly one in a frame where the ball falls past the bottom, go back to 5 when that was the last life, and are unchanged otherwise |
| GameProofs.TickScore | main.py:168-187 | without a game over the score stays the same or rises by 10; a game over leaves 0 or 10 |
| GameProofs.TickLevel | main.py:173-198 | the level rises by at most one per frame; a game over leaves level 1 |
| GameProofs.TickLevelUp | main.py:193-198 | a frame that raises the level has rebuilt the wall for the new level, and without a lost life both speeds are one faster |
| GameProofs.TickConservesPoints | main.py:179-198 | within a level and without a game over, score + 10 × bricks left is unchanged, and no brick is added |
| GameProofs.TickKeepsSpeedMagnitudes | main.py:160-198 | without a lost life or a level change, both speeds keep their magnitude |
| GameProofs.LastBrickLevelsUp | main.py:179-198 | hitting the last brick gives +10, the next level, and that level's full wall in the same frame |
| Game.Run | main.py:140-198 | the loop as frames one after another; no contract of its own, its properties are `GameProofs.RunPreservesInv`, `RunConservesPoints` and `ClearFirstWall` |
| GameProofs.RunPreservesInv | main.py:140-198 | any number of frames keeps the invariant |
| GameProofs.RunConservesPoints | main.py:140-198 | over frames with no game over and no level change, score + 10 × bricks left is constant |
| GameProofs.ClearFirstWall | main.py:126-198 | from the start, clearing all 20 first-level bricks without losing the game gives 200 points, level 2 and a 30-brick wall |

## Left out

- Rendering is left out because it is pure presentation. This covers
  `draw_text_with_background`, `draw_ui`, the blits, `display.flip`, the
  background fill and the mouse cursor.
- Asset loading and `create_circular_surface` are foreign pygame calls. Only
  their sizes matter. The ball is the 70×70 rectangle of a radius-35 circle,
  and the bat and brick sizes are `Config` parameters.
- Audio is side-effecting I/O: `pong.play`, `mixer.music` and the volumes.
- The event pump is left out:
  - `QUIT` and `Escape` end the process with `sys.exit`;
  - keys other than the arrows are ignored;
  - `key.set_repeat` timing is not modelled, and the frame's arrow-key
    events are given as a sequence.
- Timing is left out: `clock.tick(60)` and the five-second start image.
- `show_start_screen` and `show_game_over` wait on input. The game-over wait
  is modelled as an immediate restart.
- `random` is not reimplemented. Its two draws are inputs to `Tick`.
- Window size: `display.Info()` scaled by 0.8 is replaced by the `width` and
  `height` parameters.
- Float positions are truncated to integers, as pygame stores rectangle
  coordinates as integers.
- Geometry.CollideList and Geometry.Collide cover only rectangles with
  non-negative sizes. pygame normalises negative sizes, but every rectangle
  in the game has a positive size.
- Integer overflow is not modelled. pygame stores rectangle coordinates as C
  ints, and the model uses unbounded integers. Coordinates in the game stay
  far from the limits.
