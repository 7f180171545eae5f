/**
 * The level mode (`useLevelGame`): ten levels with obstacles and a food
 * quota. The per-tick reducer, the level resets, the key rules and the hook
 * itself as an object holding the game state and the last tick time.
 */
module LevelGame {
  import opened Optional
  import opened Grid
  import opened Placement
  import opened LevelTable

  datatype LevelState = LevelState(
    snake: seq<Position>,
    food: Position,
    obstacles: seq<Position>,
    direction: Direction,      // committed by the last tick
    nextDirection: Direction,  // buffered by the key handler
    score: nat,
    foodEaten: nat,
    currentLevel: int,
    gameOver: bool,
    levelComplete: bool,
    isPlaying: bool,
    isPaused: bool,
    allLevelsComplete: bool)

  /** What the reducer needs of its input to run at all: a head to move and a level that has a table entry. */
  predicate CanTick(s: LevelState) {
    |s.snake| > 0 && 1 <= s.currentLevel <= LevelCount
  }

  /** The invariant every state the level game produces satisfies. */
  predicate LevelInv(s: LevelState) {
    && CanTick(s)
    && OnBoard(s.snake) && Distinct(s.snake)
    && |s.obstacles| == ConfigFor(s.currentLevel).obstacleCount
    && ObstaclesOk(s.obstacles, s.snake)
    && InBounds(s.food) && s.food !in s.obstacles
    // only the final tick of level 10 leaves the eaten food under the head
    && (!s.allLevelsComplete ==> s.food !in s.snake)
    && s.nextDirection != Opposite(s.direction)
    // the head's last step is the committed direction, except after a completing tick
    && (!s.levelComplete && |s.snake| >= 2 ==> s.snake[0] == Step(s.snake[1], s.direction))
    && (s.allLevelsComplete <==> s.levelComplete && s.currentLevel == LevelCount)
  }

  // ---------------------------------------------------------------------
  // The tick reducer

  /**
   * One logical step (`setGameState(prev => …)` inside `gameLoop`). `draws`
   * feeds `generateFood` when food is eaten; `None` means the draws ran out
   * before a free cell came up.
   */
  function Tick(prev: LevelState, draws: seq<Cell>): (r: Option<LevelState>)
    requires CanTick(prev)
    ensures r.Some? ==> && r.value.obstacles == prev.obstacles && r.value.currentLevel == prev.currentLevel
                        && r.value.isPlaying == prev.isPlaying && r.value.isPaused == prev.isPaused
                        && r.value.score >= prev.score
    ensures r.None? ==> Step(prev.snake[0], prev.nextDirection) == prev.food
  {
    var direction := prev.nextDirection;
    var head := prev.snake[0];
    var newHead := Step(head, direction);
    if !InBounds(newHead) then Some(prev.(gameOver := true))
    else if newHead in prev.obstacles then Some(prev.(gameOver := true))
    else
      var willEat := newHead == prev.food;
      var bodyToCheck := if willEat then prev.snake else prev.snake[..|prev.snake| - 1];
      if newHead in bodyToCheck then Some(prev.(gameOver := true))
      else Move(prev, newHead, willEat, draws)
  }

  /** The surviving part of the tick: move or grow, score, re-place food, check the quota. */
  function Move(prev: LevelState, newHead: Position, willEat: bool, draws: seq<Cell>): (r: Option<LevelState>)
    requires CanTick(prev)
    ensures r.Some? ==> && r.value.obstacles == prev.obstacles && r.value.currentLevel == prev.currentLevel
                        && r.value.isPlaying == prev.isPlaying && r.value.isPaused == prev.isPaused
                        && r.value.gameOver == prev.gameOver && r.value.score >= prev.score
                        && |r.value.snake| == |prev.snake| + (if willEat then 1 else 0)
    ensures r.None? ==> willEat
  {
    var grown := [newHead] + prev.snake;
    var newSnake := if willEat then grown else grown[..|grown| - 1];
    var newFoodEaten := if willEat then prev.foodEaten + 1 else prev.foodEaten;
    var newScore := prev.score + (if willEat then 10 * prev.currentLevel else 0);
    var levelConfig := ConfigFor(prev.currentLevel);
    if newFoodEaten >= levelConfig.foodToWin && prev.currentLevel >= 10 then
      Some(prev.(snake := newSnake, score := newScore, foodEaten := newFoodEaten,
                 allLevelsComplete := true, levelComplete := true))
    else
      var food := if willEat then Drawn(FoodFrom(newSnake, prev.obstacles, draws)) else Some(prev.food);
      match food
      case None => None
      case Some(f) =>
        if newFoodEaten >= levelConfig.foodToWin then
          Some(prev.(snake := newSnake, food := f, score := newScore, foodEaten := newFoodEaten,
                     levelComplete := true))
        else
          Some(prev.(snake := newSnake, food := f, direction := prev.nextDirection, score := newScore,
                     foodEaten := newFoodEaten))
  }

  // The reducer's intermediate values, named so that the lemmas can state its result.

  function NewHead(s: LevelState): Position
    requires |s.snake| > 0
  {
    Step(s.snake[0], s.nextDirection)
  }

  predicate WillEat(s: LevelState)
    requires |s.snake| > 0
  {
    NewHead(s) == s.food
  }

  /** The cells the new head must avoid: the whole snake when eating, else all but the tail, which moves away. */
  function Body(s: LevelState): seq<Position>
    requires |s.snake| > 0
  {
    if WillEat(s) then s.snake else s.snake[..|s.snake| - 1]
  }

  /** The tick ends the game: the new head leaves the board, hits an obstacle or hits the body. */
  predicate Collides(s: LevelState)
    requires |s.snake| > 0
  {
    !InBounds(NewHead(s)) || NewHead(s) in s.obstacles || NewHead(s) in Body(s)
  }

  /** The tick completes the level: the food count it produces reaches the quota. */
  predicate Completes(s: LevelState)
    requires CanTick(s)
  {
    (if WillEat(s) then s.foodEaten + 1 else s.foodEaten) >= ConfigFor(s.currentLevel).foodToWin
  }

  /** Without a collision the tick is a move. */
  lemma TickIsMove(prev: LevelState, draws: seq<Cell>)
    requires CanTick(prev) && !Collides(prev)
    ensures Tick(prev, draws) == Move(prev, NewHead(prev), WillEat(prev), draws)
  {
  }

  /** A colliding tick returns `prev` with only `gameOver` set. */
  lemma TickCollision(prev: LevelState, draws: seq<Cell>)
    requires CanTick(prev) && Collides(prev)
    ensures Tick(prev, draws) == Some(prev.(gameOver := true))
  {
  }

  /**
   * A surviving tick moves the snake one cell, growing it by exactly one cell
   * when it eats; score and food count rise exactly when it eats.
   */
  lemma TickMoves(prev: LevelState, draws: seq<Cell>)
    requires CanTick(prev) && !Collides(prev) && Tick(prev, draws).Some?
    ensures var r := Tick(prev, draws).value;
      && r.snake == [NewHead(prev)] + Body(prev)
      && |r.snake| == |prev.snake| + (if WillEat(prev) then 1 else 0)
      && r.score == prev.score + (if WillEat(prev) then 10 * prev.currentLevel else 0)
      && r.foodEaten == prev.foodEaten + (if WillEat(prev) then 1 else 0)
      && r.obstacles == prev.obstacles && r.currentLevel == prev.currentLevel
      && r.nextDirection == prev.nextDirection && r.gameOver == prev.gameOver
      && r.isPlaying == prev.isPlaying && r.isPaused == prev.isPaused
  {
    TickIsMove(prev, draws);
    var grown := [NewHead(prev)] + prev.snake;
    assert grown[..|grown| - 1] == [NewHead(prev)] + prev.snake[..|prev.snake| - 1];
  }

  /** No tick lowers the score or the food count. */
  lemma TickScoreNeverDecreases(prev: LevelState, draws: seq<Cell>)
    requires CanTick(prev) && Tick(prev, draws).Some?
    ensures Tick(prev, draws).value.score >= prev.score
    ensures Tick(prev, draws).value.foodEaten >= prev.foodEaten
  {
    if Collides(prev) {
      TickCollision(prev, draws);
    } else {
      TickMoves(prev, draws);
    }
  }

  /**
   * Reaching the quota sets `levelComplete`, and `allLevelsComplete` on level
   * 10; such a tick does not commit the direction, and on level 10 it does
   * not place new food. Any other surviving tick commits the direction and
   * leaves both flags alone.
   */
  lemma TickCompletion(prev: LevelState, draws: seq<Cell>)
    requires CanTick(prev) && !Collides(prev) && Tick(prev, draws).Some?
    ensures var r := Tick(prev, draws).value;
      if Completes(prev) then
        && r.levelComplete && r.direction == prev.direction
        && (r.allLevelsComplete <==> prev.allLevelsComplete || prev.currentLevel >= LevelCount)
        && (prev.currentLevel >= LevelCount ==> r.food == prev.food)
      else
        && r.levelComplete == prev.levelComplete
        && r.allLevelsComplete == prev.allLevelsComplete
        && r.direction == prev.nextDirection
  {
    TickIsMove(prev, draws);
  }

  /**
   * Food is re-placed exactly when it is eaten (except on the final tick of
   * level 10), by `generateFood` against the new snake and the obstacles.
   */
  lemma TickFood(prev: LevelState, draws: seq<Cell>)
    requires CanTick(prev) && !Collides(prev) && Tick(prev, draws).Some?
    ensures var r := Tick(prev, draws).value;
      && (!WillEat(prev) ==> r.food == prev.food)
      && (WillEat(prev) && !(Completes(prev) && prev.currentLevel >= LevelCount) ==>
            && Drawn(FoodFrom(r.snake, prev.obstacles, draws)) == Some(r.food)
            && InBounds(r.food) && r.food !in r.snake && r.food !in r.obstacles)
  {
    TickIsMove(prev, draws);
    TickMoves(prev, draws);
  }

  /** The reducer fails only when it must place food and no draw is free. */
  lemma TickRunsOutOnlyPlacingFood(prev: LevelState, draws: seq<Cell>)
    requires CanTick(prev)
    ensures Tick(prev, draws).None? <==>
      && !Collides(prev) && WillEat(prev)
      && !(Completes(prev) && prev.currentLevel >= LevelCount)
      && FoodFrom([NewHead(prev)] + prev.snake, prev.obstacles, draws).Exhausted?
  {
  }

  /** Moving into the cell the tail leaves is no collision when not eating… */
  lemma TailCellIsFree(prev: LevelState)
    requires CanTick(prev) && OnBoard(prev.snake) && Distinct(prev.snake)
    requires NewHead(prev) == prev.snake[|prev.snake| - 1]
    requires !WillEat(prev) && NewHead(prev) !in prev.obstacles
    ensures !Collides(prev)
  {
  }

  /** …but it is one when eating, because the tail stays in place. */
  lemma TailCellBlocksWhenEating(prev: LevelState)
    requires CanTick(prev)
    requires NewHead(prev) == prev.snake[|prev.snake| - 1] && WillEat(prev)
    ensures Collides(prev)
  {
  }

  /** The buffered direction never reverses the snake onto its own neck. */
  lemma NoReversal(s: LevelState)
    requires LevelInv(s) && !s.levelComplete && |s.snake| >= 2
    ensures NewHead(s) != s.snake[1]
  {
    StepBack(s.snake[1], s.direction);
  }

  /** Every tick keeps the invariant. */
  lemma TickPreservesInvariant(prev: LevelState, draws: seq<Cell>)
    requires LevelInv(prev) && Tick(prev, draws).Some?
    ensures LevelInv(Tick(prev, draws).value)
  {
    if !Collides(prev) {
      var r := Tick(prev, draws).value;
      TickMoves(prev, draws);
      TickFood(prev, draws);
      TickCompletion(prev, draws);
      var body := Body(prev);
      assert Distinct(body);
      DistinctPrepend(NewHead(prev), body);
      forall p | p in r.snake ensures p == NewHead(prev) || p in prev.snake {
        if p != NewHead(prev) {
          assert p in body;
        }
      }
      assert OnBoard(r.snake);
      assert ObstaclesOk(r.obstacles, r.snake);
      OppositeIsInvolution(prev.nextDirection);
    }
  }

  // ---------------------------------------------------------------------
  // Level resets

  /** Where a fresh level puts its obstacles and its food. */
  datatype Layout = Layout(obstacles: seq<Position>, food: Position)

  /**
   * `generateObstacles(LEVELS[level - 1].obstacleCount, getInitialSnake())`
   * followed by `generateFood` on the remaining draws.
   */
  function LayOut(level: int, draws: seq<Cell>): (r: Option<Layout>)
    requires 1 <= level <= LevelCount
    ensures r.Some? ==>
      && |r.value.obstacles| == ConfigFor(level).obstacleCount
      && ObstaclesOk(r.value.obstacles, InitialSnake())
      && InBounds(r.value.food)
      && r.value.food !in InitialSnake() && r.value.food !in r.value.obstacles
  {
    match PlaceObstacles(ConfigFor(level).obstacleCount, InitialSnake(), draws)
    case Exhausted => None
    case Placed(obstacles, used) =>
      match FoodFrom(InitialSnake(), obstacles, draws[used..])
      case Exhausted => None
      case Placed(food, _) => Some(Layout(obstacles, food))
  }

  /** A layout fit for `level`: what `LayOut` guarantees. */
  predicate LayoutFor(l: Layout, level: int)
    requires 1 <= level <= LevelCount
  {
    && |l.obstacles| == ConfigFor(level).obstacleCount
    && ObstaclesOk(l.obstacles, InitialSnake())
    && InBounds(l.food) && l.food !in InitialSnake() && l.food !in l.obstacles
  }

  /** The state `nextLevel` installs, given the new level's layout. */
  function NextLevelWith(prev: LevelState, l: Layout): LevelState {
    prev.(snake := InitialSnake(), food := l.food, obstacles := l.obstacles,
          direction := Right, nextDirection := Right, foodEaten := 0,
          currentLevel := prev.currentLevel + 1, levelComplete := false, isPlaying := true)
  }

  /** The state `restartGame` (playing) or `selectLevel` (not yet playing) installs. */
  function FreshLevel(level: int, l: Layout, isPlaying: bool): LevelState {
    LevelState(InitialSnake(), l.food, l.obstacles, Right, Right, 0, 0, level,
               false, false, isPlaying, false, false)
  }

  /** `nextLevel`: requires a following level, since `LEVELS[newLevel - 1]` must exist. */
  function NextLevelState(prev: LevelState, draws: seq<Cell>): (r: Option<LevelState>)
    requires 1 <= prev.currentLevel < LevelCount
    ensures r.Some? ==> && r.value.currentLevel == prev.currentLevel + 1 && r.value.score == prev.score
                        && r.value.foodEaten == 0 && r.value.isPlaying
                        && |r.value.obstacles| == ConfigFor(prev.currentLevel + 1).obstacleCount
  {
    match LayOut(prev.currentLevel + 1, draws)
    case None => None
    case Some(l) => Some(NextLevelWith(prev, l))
  }

  /** `restartGame`: back to level 1 with score 0, playing. */
  function RestartState(draws: seq<Cell>): (r: Option<LevelState>)
    ensures r.Some? ==> LevelInv(r.value) && r.value.currentLevel == 1 && r.value.score == 0 && r.value.isPlaying
  {
    match LayOut(1, draws)
    case None => None
    case Some(l) => FreshLevelInvariant(1, l, true); Some(FreshLevel(1, l, true))
  }

  /** `selectLevel(level)`: that level with score 0, waiting to be started. */
  function SelectLevelState(level: int, draws: seq<Cell>): (r: Option<LevelState>)
    requires 1 <= level <= LevelCount
    ensures r.Some? ==> LevelInv(r.value) && r.value.currentLevel == level && r.value.score == 0 && !r.value.isPlaying
  {
    match LayOut(level, draws)
    case None => None
    case Some(l) => FreshLevelInvariant(level, l, false); Some(FreshLevel(level, l, false))
  }

  /** The `useState` initialiser: level 1 with score 0, waiting to be started. */
  function InitialState(draws: seq<Cell>): (r: Option<LevelState>)
    ensures r.Some? ==> LevelInv(r.value) && r.value.currentLevel == 1 && r.value.score == 0 && !r.value.isPlaying
  {
    match LayOut(1, draws)
    case None => None
    case Some(l) =>
      FreshLevelInvariant(1, l, false);
      Some(FreshLevel(1, l, false))
  }

  /** `nextLevel` respawns the snake facing right, moves up one level, zeroes the food count and keeps the score. */
  lemma NextLevelAdvances(prev: LevelState, draws: seq<Cell>)
    requires 1 <= prev.currentLevel < LevelCount && NextLevelState(prev, draws).Some?
    ensures var r := NextLevelState(prev, draws).value;
      && r.snake == [Position(15, 15), Position(14, 15), Position(13, 15)]
      && r.direction == Right && r.nextDirection == Right && r.isPlaying
      && r.currentLevel == prev.currentLevel + 1 && r.foodEaten == 0 && !r.levelComplete
      && r.score == prev.score
      && r.gameOver == prev.gameOver && r.allLevelsComplete == prev.allLevelsComplete
      && r.isPaused == prev.isPaused
      && |r.obstacles| == ConfigFor(prev.currentLevel + 1).obstacleCount
  {
  }

  /** `restartGame` respawns the snake on level 1 with score 0 and every flag cleared, and starts play. */
  lemma RestartResets(draws: seq<Cell>)
    requires RestartState(draws).Some?
    ensures var r := RestartState(draws).value;
      && r.snake == [Position(15, 15), Position(14, 15), Position(13, 15)]
      && r.direction == Right && r.nextDirection == Right
      && r.currentLevel == 1 && r.score == 0 && r.foodEaten == 0 && r.isPlaying
      && !r.gameOver && !r.levelComplete && !r.allLevelsComplete && !r.isPaused
  {
    var l := LayOut(1, draws).value;
    assert RestartState(draws).value == FreshLevel(1, l, true);
  }

  /** `selectLevel(k)` respawns the snake on level k with score 0 and every flag cleared, and waits to be started. */
  lemma SelectLevelResets(level: int, draws: seq<Cell>)
    requires 1 <= level <= LevelCount && SelectLevelState(level, draws).Some?
    ensures var r := SelectLevelState(level, draws).value;
      && r.snake == [Position(15, 15), Position(14, 15), Position(13, 15)]
      && r.direction == Right && r.nextDirection == Right
      && r.currentLevel == level && r.score == 0 && r.foodEaten == 0 && !r.isPlaying
      && !r.gameOver && !r.levelComplete && !r.allLevelsComplete && !r.isPaused
  {
    var l := LayOut(level, draws).value;
    assert SelectLevelState(level, draws).value == FreshLevel(level, l, false);
  }

  /** Restarting is selecting level 1 and starting it; the initial state is selecting level 1. */
  lemma RestartIsLevelOneStarted(draws: seq<Cell>)
    ensures RestartState(draws).Some? <==> SelectLevelState(1, draws).Some?
    ensures RestartState(draws).Some? ==>
      RestartState(draws).value == Started(SelectLevelState(1, draws).value)
    ensures InitialState(draws) == SelectLevelState(1, draws)
  {
  }

  lemma FreshLevelInvariant(level: int, l: Layout, isPlaying: bool)
    requires 1 <= level <= LevelCount && LayoutFor(l, level)
    ensures LevelInv(FreshLevel(level, l, isPlaying))
  {
    InitialSnakeIsLegal();
  }

  /** Moving on to the following level with a layout made for it keeps the invariant. */
  lemma NextLevelWithInvariant(prev: LevelState, l: Layout)
    requires LevelInv(prev) && 1 <= prev.currentLevel < LevelCount && LayoutFor(l, prev.currentLevel + 1)
    ensures LevelInv(NextLevelWith(prev, l))
  {
    InitialSnakeIsLegal();
  }

  /** `nextLevel` keeps the invariant. */
  lemma NextLevelKeepsInvariant(prev: LevelState, draws: seq<Cell>)
    requires LevelInv(prev) && prev.currentLevel < LevelCount && NextLevelState(prev, draws).Some?
    ensures LevelInv(NextLevelState(prev, draws).value)
  {
    NextLevelWithInvariant(prev, LayOut(prev.currentLevel + 1, draws).value);
  }

  // ---------------------------------------------------------------------
  // Input rules

  /** A direction key: accepted into the buffer unless it reverses the committed direction. */
  function SubmitDirection(s: LevelState, d: Direction): (r: LevelState)
    ensures r.(nextDirection := s.nextDirection) == s
    ensures r == s || r.nextDirection != Opposite(r.direction)
  {
    if d != Opposite(s.direction) then s.(nextDirection := d) else s
  }

  /**
   * The guard compares with the committed direction: a reversal of it is
   * ignored, anything else replaces the buffered direction, and nothing else
   * changes; so the buffer never holds a reversal of the committed direction.
   */
  lemma DirectionGuard(s: LevelState, d: Direction)
    ensures var r := SubmitDirection(s, d);
      && r.(nextDirection := s.nextDirection) == s
      && r.nextDirection == (if d == Opposite(s.direction) then s.nextDirection else d)
      && (s.nextDirection != Opposite(s.direction) ==> r.nextDirection != Opposite(r.direction))
  {
  }

  /** `startGame`. */
  function Started(s: LevelState): (r: LevelState)
    ensures r.isPlaying && r.(isPlaying := s.isPlaying) == s
  {
    s.(isPlaying := true)
  }

  /** `togglePause`. */
  function PauseToggled(s: LevelState): (r: LevelState)
    ensures r.isPaused == !s.isPaused && r.(isPaused := s.isPaused) == s
  {
    s.(isPaused := !s.isPaused)
  }

  lemma TogglePauseTwice(s: LevelState)
    ensures PauseToggled(PauseToggled(s)) == s
    ensures PauseToggled(s).isPaused != s.isPaused
  {
  }

  datatype SpaceAction = Restart | Advance | Start | Pause

  /** What the space key does in state `s`. */
  function SpaceCommand(s: LevelState): (a: SpaceAction)
    ensures a == Pause ==> s.isPlaying && !s.gameOver && !s.levelComplete && !s.allLevelsComplete
    ensures a == Start ==> !s.isPlaying && !s.gameOver && !s.levelComplete
  {
    if s.gameOver || s.allLevelsComplete then Restart
    else if s.levelComplete then Advance
    else if !s.isPlaying then Start
    else Pause
  }

  /** The space key restarts a finished game, advances a completed level, starts a waiting one and otherwise toggles pause; it advances only when a next level exists. */
  lemma SpaceDispatch(s: LevelState)
    requires LevelInv(s)
    ensures SpaceCommand(s) == Restart <==> s.gameOver || s.allLevelsComplete
    ensures SpaceCommand(s) == Advance <==> !s.gameOver && !s.allLevelsComplete && s.levelComplete
    ensures SpaceCommand(s) == Start <==> !s.gameOver && !s.levelComplete && !s.isPlaying
    ensures SpaceCommand(s) == Advance ==> s.currentLevel < LevelCount
  {
  }

  /** The key handler: space dispatches a command, a direction key goes to the buffer, other keys do nothing. */
  function HandleKey(s: LevelState, key: string, draws: seq<Cell>): (r: Option<LevelState>)
    requires LevelInv(s)
    ensures r.None? ==> key == " " && (SpaceCommand(s) == Restart || SpaceCommand(s) == Advance)
    ensures key != " " ==> r.Some? && r.value.(nextDirection := s.nextDirection) == s
  {
    if key == " " then
      match SpaceCommand(s)
      case Restart => RestartState(draws)
      case Advance => NextLevelState(s, draws)
      case Start => Some(Started(s))
      case Pause => Some(PauseToggled(s))
    else
      match KeyToDirection(key)
      case None => Some(s)
      case Some(d) => Some(SubmitDirection(s, d))
  }

  /** Every key keeps the invariant. */
  lemma HandleKeyPreservesInvariant(s: LevelState, key: string, draws: seq<Cell>)
    requires LevelInv(s) && HandleKey(s, key, draws).Some?
    ensures LevelInv(HandleKey(s, key, draws).value)
  {
    if key == " " {
      match SpaceCommand(s)
      case Restart =>
      case Advance => SpaceDispatch(s); NextLevelKeepsInvariant(s, draws);
      case Start =>
      case Pause =>
    }
  }

  // ---------------------------------------------------------------------
  // Scheduling gates

  /** `gameLoop` does nothing unless the game is being played, unpaused, and neither lost nor complete. */
  function LoopRunning(s: LevelState): (running: bool)
    ensures LevelInv(s) && running ==> SpaceCommand(s) == Pause
  {
    s.isPlaying && !s.isPaused && !s.gameOver && !s.levelComplete
  }

  // ---------------------------------------------------------------------
  // The hook

  /** The `useLevelGame` hook: the game state and `lastUpdateRef`. */
  class LevelSession {
    var state: LevelState
    var lastUpdate: int

    ghost predicate Valid()
      reads this
    {
      LevelInv(state)
    }

    /** The `useState` initialiser: level 1 laid out from `draws`, score 0, not yet playing. */
    constructor (draws: seq<Cell>)
      requires InitialState(draws).Some?
      ensures Valid() && state == InitialState(draws).value && lastUpdate == 0
    {
      var layout := Generate(1, draws);
      FreshLevelInvariant(1, layout.value, false);
      state := FreshLevel(1, layout.value, false);
      lastUpdate := 0;
    }

    /** One animation frame of `gameLoop` at time `timestamp`. */
    method OnFrame(timestamp: int, draws: seq<Cell>) returns (ok: bool)
      requires Valid()
      modifies this
      ensures Valid()
      ensures var due := LoopRunning(old(state))
                         && TickDue(timestamp, old(lastUpdate), ConfigFor(old(state).currentLevel).speed);
        && (!due ==> ok && state == old(state) && lastUpdate == old(lastUpdate))
        && (due ==> lastUpdate == timestamp && ok == Tick(old(state), draws).Some?)
        && (due && ok ==> state == Tick(old(state), draws).value)
        && (due && !ok ==> state == old(state))
    {
      ok := true;
      if !state.isPlaying || state.isPaused || state.gameOver || state.levelComplete {
        return;
      }
      var config := ConfigFor(state.currentLevel);
      if timestamp - lastUpdate < config.speed {
        return;
      }
      lastUpdate := timestamp;
      match Tick(state, draws)
      case None => ok := false;
      case Some(next) =>
        TickPreservesInvariant(state, draws);
        state := next;
    }

    method StartGame()
      requires Valid()
      modifies this
      ensures Valid() && state == Started(old(state)) && lastUpdate == old(lastUpdate)
    {
      state := state.(isPlaying := true);
    }

    method TogglePause()
      requires Valid()
      modifies this
      ensures Valid() && state == PauseToggled(old(state)) && lastUpdate == old(lastUpdate)
    {
      state := state.(isPaused := !state.isPaused);
    }

    /** Lay out `level` with the imperative generators. */
    static method Generate(level: int, draws: seq<Cell>) returns (l: Option<Layout>)
      requires 1 <= level <= LevelCount
      ensures l == LayOut(level, draws)
    {
      var initialSnake := InitialSnake();
      var obstacles := GenerateObstacles(ConfigFor(level).obstacleCount, initialSnake, draws);
      if obstacles.Exhausted? {
        return None;
      }
      var food := GenerateFood(initialSnake, obstacles.value, draws[obstacles.used..]);
      if food.Exhausted? {
        return None;
      }
      return Some(Layout(obstacles.value, food.value));
    }

    method NextLevel(draws: seq<Cell>) returns (ok: bool)
      requires Valid() && state.currentLevel < LevelCount
      modifies this
      ensures Valid()
      ensures ok == NextLevelState(old(state), draws).Some?
      ensures ok ==> state == NextLevelState(old(state), draws).value && lastUpdate == 0
      ensures !ok ==> state == old(state) && lastUpdate == old(lastUpdate)
    {
      var newLevel := state.currentLevel + 1;
      var layout := Generate(newLevel, draws);
      if layout.None? {
        return false;
      }
      NextLevelWithInvariant(state, layout.value);
      state := NextLevelWith(state, layout.value);
      lastUpdate := 0;
      return true;
    }

    method RestartGame(draws: seq<Cell>) returns (ok: bool)
      requires Valid()
      modifies this
      ensures Valid()
      ensures ok == RestartState(draws).Some?
      ensures ok ==> state == RestartState(draws).value && lastUpdate == 0
      ensures !ok ==> state == old(state) && lastUpdate == old(lastUpdate)
    {
      var layout := Generate(1, draws);
      if layout.None? {
        return false;
      }
      FreshLevelInvariant(1, layout.value, true);
      state := FreshLevel(1, layout.value, true);
      lastUpdate := 0;
      return true;
    }

    /** `selectLevel` leaves `lastUpdateRef` alone. */
    method SelectLevel(level: int, draws: seq<Cell>) returns (ok: bool)
      requires Valid() && 1 <= level <= LevelCount
      modifies this
      ensures Valid()
      ensures ok == SelectLevelState(level, draws).Some?
      ensures ok ==> state == SelectLevelState(level, draws).value
      ensures !ok ==> state == old(state)
      ensures lastUpdate == old(lastUpdate)
    {
      var layout := Generate(level, draws);
      if layout.None? {
        return false;
      }
      state := FreshLevel(level, layout.value, false);
      return true;
    }

    /** The keydown listener. */
    method KeyDown(key: string, draws: seq<Cell>) returns (ok: bool)
      requires Valid()
      modifies this
      ensures Valid()
      ensures ok == HandleKey(old(state), key, draws).Some?
      ensures ok ==> state == HandleKey(old(state), key, draws).value
      ensures !ok ==> state == old(state)
      ensures lastUpdate == (if ok && key == " " && SpaceCommand(old(state)) in {Restart, Advance}
                             then 0 else old(lastUpdate))
    {
      if key == " " {
        if state.gameOver || state.allLevelsComplete {
          ok := RestartGame(draws);
        } else if state.levelComplete {
          ok := NextLevel(draws);
        } else if !state.isPlaying {
          StartGame();
          ok := true;
        } else {
          TogglePause();
          ok := true;
        }
        return;
      }
      ok := true;
      var newDirection := KeyToDirection(key);
      if newDirection.Some? && newDirection.value != Opposite(state.direction) {
        state := state.(nextDirection := newDirection.value);
      }
    }
  }
}
