# Snake game engine, modelled in Dafny

This project models the game-state engine of a browser snake game with two
modes. The classic mode (`src/hooks/useSnakeGame.ts`) is endless, on an empty
board, with a tick interval that shrinks as the score grows and a kept high
score. The level mode (`src/hooks/useLevelGame.ts`) has ten levels with
obstacles and a food quota per level.

Both modes play on a 30×30 grid. Both share four pieces:

- a per-tick reducer that replaces the state record wholesale;
- rejection-sampling generators for food and obstacles;
- reset operations that respawn the three-cell snake at the centre, facing right;
- a key handler that buffers one direction and dispatches the space key.

Files:

- `optional.dfy`: `Option`.
- `grid.dfy` (module `Grid`): positions, board bounds, the `Cell` subtype of
  in-bounds positions, directions with unit steps and opposites, the key table,
  the frame-interval gate `TickDue`, the spawn snake.
- `placement.dfy` (module `Placement`): the safe zone, and `generateFood` and
  `generateObstacles`. Each is written twice: as a recursive specification
  function (`FoodFrom`, `ObstaclesFrom`), and as the source's loop (a method,
  `GenerateFood`, `GenerateObstacles`) proved equal to it.
- `levels.dfy` (module `LevelTable`): the `LEVELS` table.
- `level_game.dfy` (module `LevelGame`): the level-mode state and its parts:
  - the reducer `Tick` and its surviving part `Move`;
  - the reducer's intermediate values (`NewHead`, `WillEat`, `Body`,
    `Collides`, `Completes`), named so that the lemmas can state its result;
  - the resets, the input rules, the frame gate and the invariant `LevelInv`;
  - the hook as a class, `LevelSession`, whose fields are the game state and
    `lastUpdateRef`.
- `snake_game.dfy` (module `SnakeGame`): the same for the classic mode, with
  `getSpeed` as `Speed`, the invariant `SnakeInv` and the class `SnakeSession`.

A finite sequence of draws, each an in-bounds cell, stands in for the random
source: one draw is the pair `Math.floor(Math.random() * CELL_COUNT)` for x
and y. Each retry loop consumes draws from the front. If the draws run out
before the loop can stop, the generator returns `Exhausted`, and a reducer
built on it returns `None`. In the source, the loop would keep drawing
instead. The table below means this whenever it says "fails".

Behaviour of the code that the model keeps as written:

- On the tick that completes levels 1 to 9 by eating, the code places new food
  (`src/hooks/useLevelGame.ts:249`). Only the final tick of level 10 leaves the
  food in place. That food lies under the new head, so "food is not on the
  snake" holds only while `allLevelsComplete` is false. `LevelInv` says exactly
  this.
- A completing tick does not commit `nextDirection` to `direction`. So the
  invariant "the head's last step is the committed direction" holds only while
  `levelComplete` is false.
- The placement loops have no retry ceiling and no fallback scan of free cells.
  The model bounds them only by the number of draws supplied.
- There is no out-of-range error for levels. The code indexes `LEVELS`
  directly, so `ConfigFor`, `NextLevelState` and `SelectLevelState` require a
  level that has a table entry. `nextLevel` does not check `levelComplete`; it
  needs only that a next level exists.
- When the head moves into the tail's cell on the tick it eats, the code checks
  the whole snake, tail included, and so ends the game
  (`src/hooks/useLevelGame.ts:220`, `src/hooks/useSnakeGame.ts:166`). Under the
  invariants the food is never on the tail, so this cannot happen in play.
- The classic `generateFood(snake)` checks only the snake. It is modelled as
  the level-mode generator with an empty obstacle list.

## Model

| member | source | states |
|---|---|---|
| `Grid.Center` | src/hooks/useLevelGame.ts:66 | the spawn anchor is the floor-midpoint of the 30-cell side |
| `Grid.Delta` | src/hooks/useLevelGame.ts:7-12 | each direction is a unit step along exactly one axis; y grows downwards, so UP is the only step with y = -1 and DOWN the only one with y = 1, while LEFT is the only step with x = -1 and RIGHT the only one with x = 1 |
| `Grid.Step` | src/hooks/useLevelGame.ts:200-206 | the new head is one of the four orthogonal neighbours of the old head |
| `Grid.Opposite` | src/hooks/useLevelGame.ts:14-19 | the opposite of a direction is the one whose unit step is the negated step |
| `Grid.OppositeIsInvolution` | src/hooks/useLevelGame.ts:14-19 | no direction is its own opposite, and the opposite of the opposite is the direction |
| `Grid.StepBack` | src/hooks/useLevelGame.ts:7-19 | a step followed by a step in the opposite direction returns to the start cell |
| `Grid.KeyToDirection` | src/hooks/useLevelGame.ts:163-172 | the arrow keys and lower-case w/s/a/d map to UP/DOWN/LEFT/RIGHT; every other key maps to nothing |
| `Grid.InitialSnake` | src/hooks/useLevelGame.ts:106-113 | the spawn snake has three cells, its head at the centre, each segment one step right of the next |
| `Grid.InitialSnakeIsLegal` | src/hooks/useLevelGame.ts:106-113 | the spawn snake is on the board and has no repeated cells |
| `Placement.InSafeZone` | src/hooks/useLevelGame.ts:69-71 | the safe zone is the 9×5 block of columns 11..19 and rows 13..17 around the centre |
| `Placement.FoodFrom` | src/hooks/useLevelGame.ts:92-104 | the chosen food is the first draw that is on neither the snake nor an obstacle, every earlier draw is occupied, and it fails only when every draw is occupied |
| `Placement.GenerateFood` | src/hooks/useLevelGame.ts:92-104 | the retry loop returns exactly the cell and draw count of `FoodFrom` |
| `Placement.ObstaclesFrom` | src/hooks/useLevelGame.ts:73-86 | when it finishes, the loop yields exactly `count` distinct in-bounds cells, none on the snake, none in the safe zone with \|x-15\|<=4 and \|y-15\|<=2, extending those already accepted |
| `Placement.AppendObstacle` | src/hooks/useLevelGame.ts:83-85 | pushing an accepted draw keeps the obstacle list legal and appends exactly that cell |
| `Placement.PlaceObstacles` | src/hooks/useLevelGame.ts:64-89 | `generateObstacles(count, snake)` returns exactly `count` legal obstacles when it finishes |
| `Placement.GenerateObstacles` | src/hooks/useLevelGame.ts:64-89 | the push loop returns exactly what `PlaceObstacles` describes |
| `LevelTable.ConfigFor` | src/hooks/useLevelGame.ts:34-45 | the table has ten entries, and entry `level - 1` configures level `level` |
| `LevelTable.AdjacentLevelsHarder` | src/hooks/useLevelGame.ts:34-45 | each level is faster, has more obstacles and needs more food than the one before |
| `LevelTable.LevelsStrictlyHarder` | src/hooks/useLevelGame.ts:34-45 | over any two levels, `speed` strictly decreases while `obstacleCount` and `foodToWin` strictly increase |
| `LevelGame.Tick` | src/hooks/useLevelGame.ts:198-264 | no tick changes the obstacles, the level, `isPlaying` or `isPaused`, or lowers the score; it fails only when the new head is on the food |
| `LevelGame.Move` | src/hooks/useLevelGame.ts:225-263 | a surviving move grows the snake by one cell exactly when eating, keeps the obstacles, level, flags `isPlaying`/`isPaused`/`gameOver`, never lowers the score, and fails only when eating |
| `LevelGame.TickCollision` | src/hooks/useLevelGame.ts:208-223 | a head off the board, on an obstacle or on the checked body gives `prev` with only `gameOver` set |
| `LevelGame.TickMoves` | src/hooks/useLevelGame.ts:225-261 | on a surviving tick the new snake is the new head followed by the whole old snake when eating, or all but its tail otherwise. The length grows by 1 exactly when eating. Score rises by 10×level and `foodEaten` by 1 exactly when eating. Obstacles, level, the buffered direction and the flags `gameOver`, `isPlaying` and `isPaused` are kept |
| `LevelGame.TickScoreNeverDecreases` | src/hooks/useLevelGame.ts:208-263 | no tick lowers the score or the food count |
| `LevelGame.TickCompletion` | src/hooks/useLevelGame.ts:234-263 | reaching the quota sets `levelComplete` and keeps the committed direction. `allLevelsComplete` is set exactly when the level is 10 or more. On level 10 the food stays. Any other surviving tick commits `nextDirection` and leaves both flags alone |
| `LevelGame.TickFood` | src/hooks/useLevelGame.ts:246-262 | uneaten food stays. Eaten food (except on level 10's final tick) is replaced by `generateFood` of the new snake and obstacles: in bounds, off the new snake, off the obstacles |
| `LevelGame.TickRunsOutOnlyPlacingFood` | src/hooks/useLevelGame.ts:249-259 | the reducer fails exactly when it survives, eats, is not level 10's final tick, and no draw is free |
| `LevelGame.TailCellIsFree` | src/hooks/useLevelGame.ts:218-223 | for a snake without repeats, a head moving into the tail's cell without eating (and not onto an obstacle) is no collision |
| `LevelGame.TailCellBlocksWhenEating` | src/hooks/useLevelGame.ts:219-222 | a head moving into the tail's cell while eating is a collision |
| `LevelGame.NoReversal` | src/hooks/useLevelGame.ts:174-177 | in a valid state that has not completed its level, the buffered direction never moves the head onto the neck |
| `LevelGame.TickPreservesInvariant` | src/hooks/useLevelGame.ts:198-264 | every tick keeps `LevelInv`. The snake and obstacles stay legal and disjoint. Food stays on the board and off the obstacles, and off the snake unless all levels are complete. The buffer is never a reversal. `allLevelsComplete` holds iff level 10 is complete |
| `LevelGame.LayOut` | src/hooks/useLevelGame.ts:290-296 | a fresh level has as many obstacles as its table entry, legal around the spawn snake, and food on the board off the snake and the obstacles |
| `LevelGame.NextLevelState` | src/hooks/useLevelGame.ts:288-306 | `nextLevel` moves to the following level with the score carried over, `foodEaten` 0, playing, and the new level's obstacle count |
| `LevelGame.RestartState` | src/hooks/useLevelGame.ts:308-328 | `restartGame` gives a state satisfying `LevelInv` on level 1, score 0, playing |
| `LevelGame.SelectLevelState` | src/hooks/useLevelGame.ts:330-349 | `selectLevel(k)` gives a state satisfying `LevelInv` on level k, score 0, not playing |
| `LevelGame.InitialState` | src/hooks/useLevelGame.ts:116-134 | the initial state satisfies `LevelInv` and is level 1, score 0, not playing |
| `LevelGame.NextLevelAdvances` | src/hooks/useLevelGame.ts:288-306 | `nextLevel` respawns the snake `[(15,15),(14,15),(13,15)]` facing RIGHT, sets `isPlaying`, adds 1 to the level, zeroes `foodEaten`, clears `levelComplete`, keeps the score and the other flags, and lays out the next level's obstacle count |
| `LevelGame.RestartResets` | src/hooks/useLevelGame.ts:308-328 | `restartGame` respawns the snake facing RIGHT on level 1, with score and food count 0, every terminal flag and pause cleared, and `isPlaying` set |
| `LevelGame.SelectLevelResets` | src/hooks/useLevelGame.ts:330-349 | `selectLevel(k)` does the same on level k but leaves `isPlaying` false |
| `LevelGame.RestartIsLevelOneStarted` | src/hooks/useLevelGame.ts:116-134 | restarting is selecting level 1 and starting it, and the initial state is selecting level 1; so restarting after any `selectLevel` returns to level 1 with score 0 |
| `LevelGame.FreshLevelInvariant` | src/hooks/useLevelGame.ts:312-326 | a freshly laid-out level satisfies `LevelInv` |
| `LevelGame.NextLevelWithInvariant` | src/hooks/useLevelGame.ts:288-306 | moving a valid state to the following level with a layout made for that level keeps `LevelInv` |
| `LevelGame.NextLevelKeepsInvariant` | src/hooks/useLevelGame.ts:288-306 | `nextLevel` from a valid state below level 10 installs a state satisfying `LevelInv` |
| `LevelGame.SubmitDirection` | src/hooks/useLevelGame.ts:174-177 | a direction key changes only the buffered direction, and a changed buffer is never the reversal of the committed direction |
| `LevelGame.DirectionGuard` | src/hooks/useLevelGame.ts:174-177 | an intent equal to the opposite of the committed direction leaves the state unchanged. Any other intent replaces `nextDirection` and nothing else. So the buffer never holds a reversal of the committed direction |
| `LevelGame.Started` | src/hooks/useLevelGame.ts:280-282 | `startGame` sets `isPlaying` and changes nothing else |
| `LevelGame.PauseToggled` | src/hooks/useLevelGame.ts:284-286 | `togglePause` flips `isPaused` and changes nothing else |
| `LevelGame.TogglePauseTwice` | src/hooks/useLevelGame.ts:284-286 | toggling pause flips `isPaused`, and toggling twice restores the state |
| `LevelGame.SpaceCommand` | src/hooks/useLevelGame.ts:150-161 | space pauses only a game being played that is neither lost nor complete, and starts only one not yet playing, not lost, not complete |
| `LevelGame.SpaceDispatch` | src/hooks/useLevelGame.ts:150-161 | space restarts iff the game is over or all levels are complete. Otherwise it goes to the next level iff the level is complete, starts iff not playing, and toggles pause otherwise. It reaches `nextLevel` only below level 10 |
| `LevelGame.HandleKey` | src/hooks/useLevelGame.ts:145-178 | a key press fails only when space restarts or advances and the draws run out; any other key changes at most the buffered direction |
| `LevelGame.LoopRunning` | src/hooks/useLevelGame.ts:186-188 | in a valid state, while the loop is running, space pauses |
| `LevelGame.HandleKeyPreservesInvariant` | src/hooks/useLevelGame.ts:145-178 | every key press keeps `LevelInv` |
| `LevelGame.LevelSession.constructor` | src/hooks/useLevelGame.ts:116-137 | the hook starts from `InitialState` of the draws, laid out by the generator loops, valid, with `lastUpdateRef` 0 |
| `LevelGame.LevelSession.OnFrame` | src/hooks/useLevelGame.ts:185-197 | a frame does nothing unless playing, unpaused, not over and not complete, and the level's `speed` has elapsed. Otherwise it records the timestamp and applies `Tick`, keeping the invariant |
| `LevelGame.LevelSession.StartGame` | src/hooks/useLevelGame.ts:280-282 | sets `isPlaying` and nothing else |
| `LevelGame.LevelSession.TogglePause` | src/hooks/useLevelGame.ts:284-286 | flips `isPaused` and nothing else |
| `LevelGame.LevelSession.Generate` | src/hooks/useLevelGame.ts:290-296 | running the obstacle loop and then the food loop gives exactly `LayOut` |
| `LevelGame.LevelSession.NextLevel` | src/hooks/useLevelGame.ts:288-306 | installs `NextLevelState` and zeroes `lastUpdateRef`, keeping the invariant |
| `LevelGame.LevelSession.RestartGame` | src/hooks/useLevelGame.ts:308-328 | installs `RestartState` and zeroes `lastUpdateRef`, keeping the invariant |
| `LevelGame.LevelSession.SelectLevel` | src/hooks/useLevelGame.ts:330-349 | installs `SelectLevelState` and leaves `lastUpdateRef` alone |
| `LevelGame.LevelSession.KeyDown` | src/hooks/useLevelGame.ts:145-178 | the listener's effect is `HandleKey`. It zeroes `lastUpdateRef` exactly when space restarts or advances |
| `SnakeGame.Speed` | src/hooks/useSnakeGame.ts:87-90 | the classic tick interval always lies in [50,150] ms |
| `SnakeGame.SpeedNonIncreasing` | src/hooks/useSnakeGame.ts:87-90 | a higher score never gives a longer interval |
| `SnakeGame.SpeedSteps` | src/hooks/useSnakeGame.ts:87-90 | five more points shorten the interval by 5 ms down to the 50 ms floor, which is reached exactly from score 100 on |
| `SnakeGame.GameOver` | src/hooks/useSnakeGame.ts:158-171 | losing sets `gameOver`, makes `highScore` the larger of score and high score, and changes nothing else |
| `SnakeGame.Tick` | src/hooks/useSnakeGame.ts:147-186 | no tick changes `isPlaying` or `isPaused` or lowers the score or the high score; it fails only when the new head is on the food |
| `SnakeGame.TickCollision` | src/hooks/useSnakeGame.ts:157-171 | a wall or self collision sets `gameOver` and makes `highScore` the larger of score and high score. Snake, food, score and direction are unchanged |
| `SnakeGame.TickMoves` | src/hooks/useSnakeGame.ts:173-185 | on a surviving tick the snake advances head first and grows by 1 exactly when eating. The score rises by 1 exactly when eating. `direction` becomes `nextDirection`. The high score is kept |
| `SnakeGame.TickFood` | src/hooks/useSnakeGame.ts:174-182 | eaten food is replaced by `generateFood` of the new snake: in bounds, off the new snake, not under the new head. Uneaten food stays |
| `SnakeGame.TickRunsOutOnlyPlacingFood` | src/hooks/useSnakeGame.ts:45-54 | the reducer fails exactly when it survives, eats and no draw is off the new snake |
| `SnakeGame.TickScoreNeverDecreases` | src/hooks/useSnakeGame.ts:147-186 | no tick lowers the score or the high score |
| `SnakeGame.TailRule` | src/hooks/useSnakeGame.ts:164-171 | for a snake without repeats, moving into the tail's cell is a collision iff the head moves onto food |
| `SnakeGame.NoReversal` | src/hooks/useSnakeGame.ts:123-126 | in a valid state the buffered direction never moves the head onto the neck |
| `SnakeGame.QuietTickFromSpawn` | src/hooks/useSnakeGame.ts:147-185 | from the spawn snake facing RIGHT with food at (5,5), one tick gives `[(16,15),(15,15),(14,15)]` with the score unchanged |
| `SnakeGame.LeftEdgeIsAWall` | src/hooks/useSnakeGame.ts:157-162 | a head at (0,15) moving LEFT ends the game, because the board does not wrap |
| `SnakeGame.TickPreservesInvariant` | src/hooks/useSnakeGame.ts:147-186 | every tick keeps `SnakeInv`. The snake stays legal, the food stays on the board and off the snake, the buffer is never a reversal, and the head's last step is the committed direction |
| `SnakeGame.Fresh` | src/hooks/useSnakeGame.ts:212-224 | a fresh classic game satisfies `SnakeInv` |
| `SnakeGame.InitialState` | src/hooks/useSnakeGame.ts:67-81 | the initial state satisfies `SnakeInv`, has score 0, the given high score, and is neither playing nor over |
| `SnakeGame.RestartState` | src/hooks/useSnakeGame.ts:212-226 | `restartGame` gives a state satisfying `SnakeInv`, playing, with the high score kept |
| `SnakeGame.RestartResets` | src/hooks/useSnakeGame.ts:212-226 | `restartGame` gives score 0 and the spawn snake facing RIGHT, with `gameOver` and pause cleared and `isPlaying` set. It keeps `highScore` |
| `SnakeGame.SubmitDirection` | src/hooks/useSnakeGame.ts:123-126 | a direction key changes only the buffered direction, and a changed buffer is never the reversal of the committed direction |
| `SnakeGame.DirectionGuard` | src/hooks/useSnakeGame.ts:123-126 | an intent equal to `OPPOSITES[direction]` of the committed direction is ignored. Any other intent replaces `nextDirection` and nothing else |
| `SnakeGame.Started` | src/hooks/useSnakeGame.ts:204-206 | `startGame` sets `isPlaying` and changes nothing else |
| `SnakeGame.PauseToggled` | src/hooks/useSnakeGame.ts:208-210 | `togglePause` flips `isPaused` and changes nothing else |
| `SnakeGame.TogglePauseTwice` | src/hooks/useSnakeGame.ts:208-210 | toggling pause flips `isPaused`, and toggling twice restores the state |
| `SnakeGame.SpaceCommand` | src/hooks/useSnakeGame.ts:100-108 | space pauses only a game being played and not lost, and starts only one not yet playing and not lost |
| `SnakeGame.SpaceDispatch` | src/hooks/useSnakeGame.ts:100-108 | space restarts iff the game is over, starts iff it is not over and not playing, and toggles pause iff it is not over and playing |
| `SnakeGame.HandleKey` | src/hooks/useSnakeGame.ts:94-127 | a key press fails only when space restarts a lost game and the draws run out; any other key changes at most the buffered direction |
| `SnakeGame.LoopRunning` | src/hooks/useSnakeGame.ts:135-137 | while the loop is running, space pauses |
| `SnakeGame.HandleKeyPreservesInvariant` | src/hooks/useSnakeGame.ts:94-127 | every key press keeps `SnakeInv` |
| `SnakeGame.SnakeSession.constructor` | src/hooks/useSnakeGame.ts:67-84 | given the stored high score, the hook starts from `InitialState`, its food placed by the generator loop, valid, with `lastUpdateRef` 0 |
| `SnakeGame.SnakeSession.OnFrame` | src/hooks/useSnakeGame.ts:134-146 | a frame does nothing unless playing, unpaused and not over, and `getSpeed()` of the score has elapsed. Otherwise it records the timestamp and applies `Tick`, keeping the invariant |
| `SnakeGame.SnakeSession.StartGame` | src/hooks/useSnakeGame.ts:204-206 | sets `isPlaying` and nothing else |
| `SnakeGame.SnakeSession.TogglePause` | src/hooks/useSnakeGame.ts:208-210 | flips `isPaused` and nothing else |
| `SnakeGame.SnakeSession.RestartGame` | src/hooks/useSnakeGame.ts:212-226 | runs the food loop around the spawn snake, installs `RestartState` and zeroes `lastUpdateRef` |
| `SnakeGame.SnakeSession.KeyDown` | src/hooks/useSnakeGame.ts:94-127 | the listener's effect is `HandleKey`. It zeroes `lastUpdateRef` exactly when space restarts |

## Left out

- `Math.random`. A supplied sequence of in-bounds draws replaces it. Nothing
  is said about probabilities, or about the unbounded retry loops terminating.
  When the draws run out, the pure reducers return `None`, and the session
  methods report `ok == false` and keep the game state.
- Frame scheduling. `requestAnimationFrame`, `cancelAnimationFrame` and the
  `useEffect`/`useCallback` wiring are not modelled. A frame is one call of
  `OnFrame` with a timestamp, and the timestamp is an integer number of
  milliseconds, not a floating-point one.
- Event ordering. The key handler and the frame callback read the state they
  were created with (a stale closure). The model gives them the current state.
- `localStorage`. The read of the stored high score and its writes on game over
  are left out. `highScore` is a plain field, and the initial value is a
  parameter of `InitialState`.
- The `window` keydown listener and `preventDefault`. A key is the string
  `e.key`.
- Rendering and the JSX components (`GRID_SIZE` is the cell size in pixels)
  are not modelled.
- Placement.ObstaclesFrom: when it is `Exhausted`, the contract does not say
  why. It does not state that fewer than `count` eligible draws were supplied.
