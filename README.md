# Neon Snake: a verified model of the game rules

This project models the rules engine of a turtle-graphics Snake game: the
`SnakeGame` class of `app.py`, and its near-identical second version in
`v2.py`. The snake is a list of grid cells, tail first and head last. Each
timed tick:

- moves the head one segment in the current direction;
- ends the game when the new head lands on the body or beyond a wall;
- grows the snake and adds 10 to the score when the new head reaches the
  food, or drops the tail otherwise;
- schedules the next tick at the interval of the current speed tier.

Food is placed by drawing random coordinates inside a one-segment margin,
snapping them down to the grid, and retrying until the cell is free.

The keyboard handlers:

- start the game, which runs a tick at once;
- toggle the pause;
- choose one of four speed tiers;
- turn the snake, but never straight back onto its current direction.

Game over keeps the best score and schedules a reset two seconds later.
Each body segment is coloured along a four-colour gradient and written as a
`#rrggbb` string.

The modules are:

- `Geometry` (`geometry.dfy`): cells, directions, the step vectors, the
  wall test and the pickup distance test.
- `Food` (`food.dfy`): one sampling attempt, and the retry loop
  `RandomFoodPos` as a method proved against the function `FirstAccepted`.
- `Gradient` (`gradient.dfy`): the segment colour in exact arithmetic and
  its hex formatting.
- `Rules` (`rules.dfy`): the game state as a value, each handler as a pure
  transition, the invariant `Inv` and the lemmas about them.
- `Game` (`game.dfy`): the class `SnakeGame`. Its fields are those of the
  Python object, and its methods update them in place. Each method is
  proved to perform the `Rules` transition of the same name and to keep
  `Inv`.
- `Wrappers` (`wrappers.dfy`): `Option`.

The random generator is a parameter. `draws` is the sequence of pairs that
`random.randint` would return, in order. The retry loop `while True` is
modelled as a loop over that sequence. Its precondition `SomeAccepted`
says that some draw proposes a free cell, which is exactly the condition
under which the source loop returns. Timers (`turtle.ontimer`) are
modelled as the `Timer` each handler leaves pending:

- `TickAfter(ms)` for the next tick;
- `ResetAfter(2000)` after game over;
- `NoTimer` when nothing is scheduled.

The invariant `Rules.Inv` holds of every reachable state:

- the snake has at least three cells;
- its cells are on the grid, inside the field, pairwise distinct, and each
  one segment from the next;
- the food is on a grid cell inside the margin and off the snake;
- the score is exactly 10 per cell grown;
- the high score is not negative;
- a paused game is a started one.

`Rules.RunPreservesInv` shows that every sequence of timer and key events
keeps the invariant and never lowers the high score.

Two behaviours that the rules allow are stated as lemmas:

- The collision test runs before the tail moves. Heading into the cell the
  tail is about to leave therefore ends the game (`Rules.TailCellEndsGame`).
- A turn is checked only against the current direction. Two arrow keys
  between ticks can therefore reverse the snake into its own neck
  (`Rules.TwoTurnsReverse`).

The rules in `v2.py` are the same as in `app.py`, and the table cites the
lines of `app.py`. The corresponding spans in `v2.py` are:

- the tick: lines 151-191;
- food placement: lines 215-222;
- the colour helpers: lines 128-138;
- game over and reset: lines 249-260;
- the key handlers: lines 269-285 and 300-304.

The tick there also animates the food colour, which is left out below.

## Model

| member | source | states |
|---|---|---|
| Geometry.Opposite | app.py:268-272 | the `opposites` table never maps a direction to itself |
| Geometry.StepOpposite | app.py:268-272 | the opposite of the opposite is the direction itself; a step and its opposite return to the start; a step lands on an adjacent cell |
| Geometry.Step | app.py:125-137 | the new head is the old head plus the vector of the direction table (`DeltaX`, `DeltaY`); it is adjacent to the old head and never equal to it; `StepOnGrid` and `StepOpposite` state the rest |
| Geometry.OutOfField | app.py:140-142 | the wall test: a cell strictly beyond x = ±400 or y = ±300 is out; its use in the tick is stated by `Rules.TickCollision` |
| Geometry.WithinPickup | app.py:149 | `get_distance(head, food) < SEGMENT_SIZE`, compared on squares; `PickupIffSameCell` states that on grid cells it means equality |
| Geometry.StepOnGrid | app.py:125-137 | a step of the direction table keeps a grid cell on the grid, moves exactly one segment, and never stays in place |
| Geometry.SquaredDistance | app.py:192-193 | the squared distance is never negative, and is zero exactly for equal cells |
| Geometry.PickupIffSameCell | app.py:149 | on grid cells, `distance < SEGMENT_SIZE` holds exactly when the head is on the food cell |
| Food.Proposed | app.py:185-188 | the cell one attempt proposes is on the grid, and for an in-range draw it lies inside the one-segment margin |
| Food.Snap | app.py:186 | `x - x % 20` is a multiple of 20, at most x and more than x - 20 |
| Food.SnapInRange | app.py:185-188 | snapping a drawn coordinate keeps it inside the margin of the field |
| Food.Attempt | app.py:185-190 | one attempt yields a cell exactly when the snapped cell is off the snake; the cell it yields is that snapped cell, a food cell off the snake |
| Food.AttemptReachesEveryFreeCell | app.py:185-190 | every free food cell is produced by some in-range draw, so no free cell is unreachable |
| Food.FirstAccepted | app.py:183-190 | the loop's result is a food cell that is not on the snake |
| Food.FirstAcceptedIsFirst | app.py:183-190 | the result is the cell of some draw, and every draw before it proposed a cell on the snake |
| Food.RandomFoodPos | app.py:183-190 | the loop returns the cell of the first accepted draw; it lies on the grid inside the margin and off the snake; every earlier attempt was rejected |
| Gradient.Trunc | app.py:94 | `int()` truncates toward zero: the quotient is bounded from the side of zero |
| Gradient.InterpolateChannel | app.py:93-94 | one channel of interpolate_color, exact over the denominator; `InterpolateChannelBetween` and `LastChannelNear` state its bounds |
| Gradient.InterpolateColor | app.py:93-94 | interpolate_color channel by channel; its bounds follow from `InterpolateChannelBetween` per channel |
| Gradient.InterpolateChannelBetween | app.py:93-94 | for a fraction in [0, 1], each interpolated channel lies between the two anchor channels, and equals the first at fraction 0 |
| Gradient.ColorIndex | app.py:98-99 | the palette index is 0, 1 or 2 and is the integer part of `index / total * 3` |
| Gradient.SegmentRgb | app.py:96-103 | the colour get_segment_color computes before formatting; `SegmentChannelsBetween`, `SegmentOnAnchor`, `SegmentColorFirst` and `LastSegmentNearLastAnchor` state its properties |
| Gradient.SegmentChannelsBetween | app.py:96-103 | the span ends at the next palette colour, every channel lies between the span's two anchor colours, and the colour is a valid RGB triple |
| Gradient.SegmentOnAnchor | app.py:96-103 | a segment whose position falls exactly on a palette entry gets that entry's colour |
| Gradient.LastSegmentNearLastAnchor | app.py:96-103 | the head segment's colour is within 3/total of the last span (plus one unit of truncation) of the last palette colour in every channel |
| Gradient.LastChannelNear | app.py:93-94 | one channel interpolated at fraction (total-3)/total is within that bound of the second anchor |
| Gradient.Hex2 | app.py:104 | `{v:02x}` is exactly two characters |
| Gradient.HexColor | app.py:104 | the colour string has seven characters and starts with `#` |
| Gradient.HexColorRoundTrip | app.py:104 | reading the `#rrggbb` string back gives the same three channels |
| Gradient.SegmentColor | app.py:96-104 | get_segment_color returns a seven-character string that reads back as the segment's colour |
| Gradient.SegmentColorFirst | app.py:96-104 | the tail segment is always `#2ecc71`, the first palette colour |
| Rules.Interval | app.py:22-28 | the speed_levels table: 180, 130, 80 and 50 ms, so every interval lies in 50..180 ms; `SetSpeedPacesTicks` states its use |
| Rules.Tick | app.py:119-160 | move_snake: never lowers the high score, keeps direction, pause and speed, and leaves either the next tick at the current interval (the game's started flag unchanged) or the reset after game over; `TickWhenIdle`, `TickCollision`, `TickMoves`, `TickEats` and `TickPreservesInv` state its cases |
| Rules.GameOver | app.py:217-222 | game_over stops the game, keeps a high score at least the old one and the score, and schedules the reset; `GameOverKeepsBest` states the rest |
| Rules.Reset | app.py:224-228 | reset_game gives a three-cell snake, score 0, the same high score, and food off the snake; `ResetFresh` states the rest |
| Rules.StartGame | app.py:237-241 | start_game never lowers the high score or changes the speed, and leaves no timer exactly when the game was already started; `StartGameRule` states the rest |
| Rules.TogglePause | app.py:243-245 | toggle_pause; `TogglePauseRule` states it |
| Rules.SetSpeed | app.py:251-252 | set_speed; `SetSpeedRule` and `SetSpeedPacesTicks` state it |
| Rules.SetDirection | app.py:268-272 | set_direction never leaves the snake heading opposite to its old direction; `SetDirectionRule` states the rest |
| Rules.Initial | app.py:13-33 | the constructed game is not started, not paused, at normal speed, with score and high score 0; `InitialInv` states that it is valid |
| Rules.TickWhenIdle | app.py:120-122 | a tick while paused or not started changes nothing and reschedules itself at the current interval |
| Rules.TickCollision | app.py:139-144 | the game stops exactly when the new head is on the body or beyond a wall; the best score is kept, the reset is scheduled, and every other field (body, score, direction, pause, speed, food) stays |
| Rules.TickMoves | app.py:124-160 | a move without eating puts the head at old head plus the direction vector, drops the tail, keeps length, score and food, and schedules the next tick |
| Rules.TickEats | app.py:146-156 | on a valid state, eating means the new head is the food cell; the snake grows by one, the score rises by 10, and the new food is off the grown snake |
| Rules.TickPreservesInv | app.py:119-160 | every tick from a valid state leads to a valid state |
| Rules.GameOverKeepsBest | app.py:217-222 | game over keeps the larger of score and high score, stops the game, changes no other field, and schedules a reset after 2000 ms |
| Rules.GameOverPreservesInv | app.py:217-222 | game over from a valid unpaused state keeps the invariant |
| Rules.ResetFresh | app.py:224-228 | reset gives the three-cell snake at the origin heading up, score 0 and food off the snake, and leaves high score, flags and speed alone |
| Rules.ResetPreservesInv | app.py:224-228 | reset from any state with a non-negative high score and no pause without a start gives a valid state |
| Rules.StartGameRule | app.py:237-241 | starting a started game does nothing; otherwise it sets the started flag and runs one tick at once |
| Rules.StartGamePreservesInv | app.py:237-241 | start keeps the invariant |
| Rules.TogglePauseRule | app.py:243-245 | the pause flag flips exactly when the game is started, and nothing else changes |
| Rules.SetSpeedRule | app.py:251-252 | the speed tier becomes the chosen one, and nothing else changes |
| Rules.SetSpeedPacesTicks | app.py:160 | after a speed change, the next tick is rescheduled at the new tier's interval exactly when it does not end the game |
| Rules.SetDirectionRule | app.py:268-272 | nothing changes unless the game is running; the direction becomes the requested one exactly when that is not the reverse of the current one; it never becomes that reverse |
| Rules.ApplyPreservesInv | app.py:255-266 | every key or timer event keeps a valid state valid and never lowers the high score |
| Rules.RunPreservesInv | app.py:255-266 | every run of events keeps the invariant and never lowers the high score |
| Rules.InitialInv | app.py:13-33 | the game as constructed is valid, not started, with score and high score 0 |
| Rules.InitialSnakeInv | app.py:225 | the initial snake is on the grid, inside the field, distinct and connected |
| Rules.GrowKeepsShape | app.py:146 | appending the stepped head, when it is neither on the body nor beyond a wall, keeps the body on the grid, inside the field, distinct and connected |
| Rules.DropTailKeepsShape | app.py:156 | dropping the tail keeps the body on the grid, inside the field, distinct and connected |
| Rules.TailCellEndsGame | app.py:139-144 | a valid snake heading into the cell its tail is about to leave loses the game |
| Rules.TwoTurnsReverse | app.py:268-272 | two accepted turns between ticks reverse the snake, and the next tick runs into its neck and ends the game |
| Game.SnakeGame.constructor | app.py:13-33 | the new game is valid and equals `Rules.Initial` |
| Game.SnakeGame.MoveSnake | app.py:119-160 | the fields and the pending timer after the tick are those of `Rules.Tick`, and the game stays valid |
| Game.SnakeGame.GameOver | app.py:217-222 | the fields and timer are those of `Rules.GameOver`; a valid unpaused game stays valid |
| Game.SnakeGame.ResetGame | app.py:224-228 | the fields are those of `Rules.Reset`, and the game is valid afterwards |
| Game.SnakeGame.StartGame | app.py:237-241 | the fields and timer are those of `Rules.StartGame`, and the game stays valid |
| Game.SnakeGame.TogglePause | app.py:243-245 | the fields are those of `Rules.TogglePause`, and the game stays valid |
| Game.SnakeGame.SetSpeed | app.py:251-252 | the fields are those of `Rules.SetSpeed`, and the game stays valid |
| Game.SnakeGame.SetDirection | app.py:268-272 | the fields are those of `Rules.SetDirection`, and the game stays valid |

## Left out

- Drawing: the screen, the background grid, the score, message and
  instruction texts, the snake's stamps and glow, and `draw_snake` are
  rendering only; no game state depends on them.
- The `turtle.ontimer` scheduler is not modelled. Each handler returns the
  timer it would schedule, and `Rules.Run` applies events in any order the
  caller chooses.
- `spawn_food_effect` and its pulse animation (both versions), and
  `update_food_color` with its hue cycling (v2.py): these are visual only
  and use floating point.
- `add_credits` (v2.py) is drawing only.
- `setup_events` and `main` bind keys and start the turtle loop. The
  bindings appear as the `Rules.Event` cases.
- `Food.RandomFoodPos` models the random generator as the `draws`
  parameter. It requires that some draw proposes a free cell. The source
  loops forever when every grid cell inside the margin (39 by 29 cells,
  x from -380 to 380 and y from -280 to 280) is on the snake, even while
  cells of the outer ring of the field are still free; the model does not
  cover that case.
- `Gradient.SegmentRgb` uses exact rationals for `index / total * 3`. The
  source computes it in floating point, and rounding could move a
  truncation by one unit near a palette boundary.
- `Geometry.WithinPickup` compares squared distances instead of taking a
  floating-point square root. The two agree exactly for these integer
  coordinates.
- `food_pos` starts as `None` in the constructor, before `reset_game` sets
  it. The model gives the field a placeholder cell, which the constructor's
  reset replaces.
- `Game.SnakeGame.GameOver` ensures validity only for a game that is not
  paused. Game over from a paused game would leave a paused game that is
  not started, but the only caller, the tick, calls it only while the game
  runs.
