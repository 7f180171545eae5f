/**
 * The classic mode (`useSnakeGame`): an endless game on an empty board whose
 * tick interval shrinks with the score, with a high score kept across games.
 */
module SnakeGame {
  import opened Optional
  import opened Grid
  import opened Placement

  const InitialSpeed: int := 150
  const SpeedIncrement: int := 5
  const MinSpeed: int := 50

  datatype SnakeState = SnakeState(
    snake: seq<Position>,
    food: Position,
    direction: Direction,      // committed by the last tick
    nextDirection: Direction,  // buffered by the key handler
    score: nat,
    gameOver: bool,
    isPlaying: bool,
    isPaused: bool,
    highScore: nat)

  function Max(a: int, b: int): int {
    if a >= b then a else b
  }

  /** `getSpeed`: the tick interval in milliseconds, 5 ms shorter for every 5 points, never below 50 ms. */
  function Speed(score: nat): (r: int)
    ensures MinSpeed <= r <= InitialSpeed
  {
    var speedReduction := (score / 5) * SpeedIncrement;
    Max(MinSpeed, InitialSpeed - speedReduction)
  }

  /** A higher score never gives a slower game. */
  lemma SpeedNonIncreasing(a: nat, b: nat)
    requires a <= b
    ensures Speed(b) <= Speed(a)
  {
    assert a / 5 <= b / 5;
  }

  /** Five more points take 5 ms off the interval until it bottoms out at 50 ms, which happens from score 100 on. */
  lemma SpeedSteps(score: nat)
    ensures Speed(score + 5) == Max(MinSpeed, Speed(score) - SpeedIncrement)
    ensures Speed(score) == MinSpeed <==> score >= 100
  {
    assert (score + 5) / 5 == score / 5 + 1;
  }

  /** The invariant every state the classic game produces satisfies. */
  predicate SnakeInv(s: SnakeState) {
    && |s.snake| > 0 && OnBoard(s.snake) && Distinct(s.snake)
    && InBounds(s.food) && s.food !in s.snake
    && s.nextDirection != Opposite(s.direction)
    && (|s.snake| >= 2 ==> s.snake[0] == Step(s.snake[1], s.direction))
  }

  // ---------------------------------------------------------------------
  // The tick reducer

  /** The losing transition: record the high score and stop. */
  function GameOver(prev: SnakeState): (r: SnakeState)
    ensures r.gameOver && r.highScore >= prev.score && r.highScore >= prev.highScore
    ensures r.highScore == prev.score || r.highScore == prev.highScore
    ensures r.(gameOver := prev.gameOver, highScore := prev.highScore) == prev
  {
    prev.(gameOver := true, highScore := Max(prev.score, prev.highScore))
  }

  /**
   * One logical step (`setGameState(prev => …)` inside `gameLoop`). `draws`
   * feeds `generateFood` when food is eaten; `None` means the draws ran out
   * before a free cell came up.
   */
  function Tick(prev: SnakeState, draws: seq<Cell>): (r: Option<SnakeState>)
    requires |prev.snake| > 0
    ensures r.Some? ==> && r.value.isPlaying == prev.isPlaying && r.value.isPaused == prev.isPaused
                        && r.value.score >= prev.score && r.value.highScore >= prev.highScore
    ensures r.None? ==> Step(prev.snake[0], prev.nextDirection) == prev.food
  {
    var direction := prev.nextDirection;
    var head := prev.snake[0];
    var newHead := Step(head, direction);
    if !InBounds(newHead) then Some(GameOver(prev))
    else
      var willEat := newHead == prev.food;
      var bodyToCheck := if willEat then prev.snake else prev.snake[..|prev.snake| - 1];
      if newHead in bodyToCheck then Some(GameOver(prev))
      else
        var grown := [newHead] + prev.snake;
        var newSnake := if willEat then grown else grown[..|grown| - 1];
        // this mode's `generateFood(snake)` is the level mode's with no obstacles
        var food := if willEat then Drawn(FoodFrom(newSnake, [], draws)) else Some(prev.food);
        match food
        case None => None
        case Some(f) =>
          Some(prev.(snake := newSnake, food := f, direction := direction,
                     score := if willEat then prev.score + 1 else prev.score))
  }

  // The reducer's intermediate values, named so that the lemmas can state its result.

  function NewHead(s: SnakeState): Position
    requires |s.snake| > 0
  {
    Step(s.snake[0], s.nextDirection)
  }

  predicate WillEat(s: SnakeState)
    requires |s.snake| > 0
  {
    NewHead(s) == s.food
  }

  /** The cells the new head must avoid: the whole snake when eating, else all but the tail, which moves away. */
  function Body(s: SnakeState): seq<Position>
    requires |s.snake| > 0
  {
    if WillEat(s) then s.snake else s.snake[..|s.snake| - 1]
  }

  predicate Collides(s: SnakeState)
    requires |s.snake| > 0
  {
    !InBounds(NewHead(s)) || NewHead(s) in Body(s)
  }

  /**
   * A colliding tick sets `gameOver`, raises the high score to the score if
   * it is higher, and changes nothing else.
   */
  lemma TickCollision(prev: SnakeState, draws: seq<Cell>)
    requires |prev.snake| > 0 && Collides(prev)
    ensures var r := Tick(prev, draws).value;
      && Tick(prev, draws).Some?
      && r.gameOver
      && r.highScore >= prev.score && r.highScore >= prev.highScore
      && (r.highScore == prev.score || r.highScore == prev.highScore)
      && r.(gameOver := prev.gameOver, highScore := prev.highScore) == prev
  {
  }

  /**
   * A surviving tick advances the snake with the head first, grows it by exactly
   * one cell and the score by exactly one point when it eats, and commits the
   * buffered direction.
   */
  lemma TickMoves(prev: SnakeState, draws: seq<Cell>)
    requires |prev.snake| > 0 && !Collides(prev) && Tick(prev, draws).Some?
    ensures var r := Tick(prev, draws).value;
      && r.snake == [NewHead(prev)] + Body(prev)
      && |r.snake| == |prev.snake| + (if WillEat(prev) then 1 else 0)
      && r.score == prev.score + (if WillEat(prev) then 1 else 0)
      && r.direction == prev.nextDirection && r.nextDirection == prev.nextDirection
      && r.gameOver == prev.gameOver && r.highScore == prev.highScore
      && r.isPlaying == prev.isPlaying && r.isPaused == prev.isPaused
  {
    var grown := [NewHead(prev)] + prev.snake;
    assert grown[..|grown| - 1] == [NewHead(prev)] + prev.snake[..|prev.snake| - 1];
  }

  /**
   * Eaten food is replaced by `generateFood` on the new snake, so the new food
   * is on the board, off the snake and in particular not under the new head;
   * uneaten food stays where it is.
   */
  lemma TickFood(prev: SnakeState, draws: seq<Cell>)
    requires |prev.snake| > 0 && !Collides(prev) && Tick(prev, draws).Some?
    ensures var r := Tick(prev, draws).value;
      && (!WillEat(prev) ==> r.food == prev.food)
      && (WillEat(prev) ==>
            && Drawn(FoodFrom(r.snake, [], draws)) == Some(r.food)
            && InBounds(r.food) && r.food !in r.snake && r.food != r.snake[0])
  {
    TickMoves(prev, draws);
  }

  /** The reducer fails only when it must place food and no draw is free. */
  lemma TickRunsOutOnlyPlacingFood(prev: SnakeState, draws: seq<Cell>)
    requires |prev.snake| > 0
    ensures Tick(prev, draws).None? <==>
      !Collides(prev) && WillEat(prev) && FoodFrom([NewHead(prev)] + prev.snake, [], draws).Exhausted?
  {
  }

  /** No tick lowers the score or the high score. */
  lemma TickScoreNeverDecreases(prev: SnakeState, draws: seq<Cell>)
    requires |prev.snake| > 0 && Tick(prev, draws).Some?
    ensures Tick(prev, draws).value.score >= prev.score
    ensures Tick(prev, draws).value.highScore >= prev.highScore
  {
    if Collides(prev) {
      TickCollision(prev, draws);
    } else {
      TickMoves(prev, draws);
    }
  }

  /** Moving into the cell the tail leaves is no collision when not eating, but is one when eating. */
  lemma TailRule(prev: SnakeState)
    requires |prev.snake| > 0 && OnBoard(prev.snake) && Distinct(prev.snake)
    requires NewHead(prev) == prev.snake[|prev.snake| - 1]
    ensures !Collides(prev) <==> !WillEat(prev)
  {
  }

  /** The buffered direction never reverses the snake onto its own neck. */
  lemma NoReversal(s: SnakeState)
    requires SnakeInv(s) && |s.snake| >= 2
    ensures NewHead(s) != s.snake[1]
  {
    StepBack(s.snake[1], s.direction);
  }

  /** From the spawn snake facing right with food far away, one tick shifts the snake one cell right and leaves the score alone. */
  lemma QuietTickFromSpawn(draws: seq<Cell>)
    ensures var prev := SnakeState(InitialSnake(), Position(5, 5), Right, Right, 0, false, true, false, 0);
      && Tick(prev, draws).Some?
      && Tick(prev, draws).value.snake == [Position(16, 15), Position(15, 15), Position(14, 15)]
      && Tick(prev, draws).value.score == 0 && !Tick(prev, draws).value.gameOver
  {
  }

  /** The board does not wrap: moving left from column 0 ends the game. */
  lemma LeftEdgeIsAWall(draws: seq<Cell>, highScore: nat)
    ensures var prev := SnakeState([Position(0, 15), Position(1, 15), Position(2, 15)], Position(5, 5),
                                   Left, Left, 7, false, true, false, highScore);
      && Tick(prev, draws) == Some(prev.(gameOver := true, highScore := Max(7, highScore)))
  {
  }

  /** Every tick keeps the invariant. */
  lemma TickPreservesInvariant(prev: SnakeState, draws: seq<Cell>)
    requires SnakeInv(prev) && Tick(prev, draws).Some?
    ensures SnakeInv(Tick(prev, draws).value)
  {
    if !Collides(prev) {
      var r := Tick(prev, draws).value;
      TickMoves(prev, draws);
      TickFood(prev, draws);
      var body := Body(prev);
      assert Distinct(body);
      DistinctPrepend(NewHead(prev), body);
      forall p | p in r.snake ensures p == NewHead(prev) || p in prev.snake {
        if p != NewHead(prev) {
          assert p in body;
        }
      }
      assert OnBoard(r.snake);
      OppositeIsInvolution(prev.nextDirection);
    }
  }

  // ---------------------------------------------------------------------
  // Resets and input rules

  /** A fresh game with food placed around the spawn snake; `None` when the draws run out. */
  function Fresh(highScore: nat, isPlaying: bool, draws: seq<Cell>): (r: Option<SnakeState>)
    ensures r.Some? ==> SnakeInv(r.value)
  {
    InitialSnakeIsLegal();
    match FoodFrom(InitialSnake(), [], draws)
    case Exhausted => None
    case Placed(food, _) =>
      Some(SnakeState(InitialSnake(), food, Right, Right, 0, false, isPlaying, false, highScore))
  }

  /** The `useState` initialiser, given the stored high score. */
  function InitialState(highScore: nat, draws: seq<Cell>): (r: Option<SnakeState>)
    ensures r.Some? ==> && SnakeInv(r.value) && r.value.highScore == highScore && r.value.score == 0
                        && !r.value.isPlaying && !r.value.gameOver
  {
    Fresh(highScore, false, draws)
  }

  /** `restartGame`: a new game, playing, that keeps the high score. */
  function RestartState(prev: SnakeState, draws: seq<Cell>): (r: Option<SnakeState>)
    ensures r.Some? ==> SnakeInv(r.value) && r.value.highScore == prev.highScore && r.value.isPlaying
  {
    Fresh(prev.highScore, true, draws)
  }

  /** Restarting gives score 0 and the spawn snake facing right, playing, with the high score kept. */
  lemma RestartResets(prev: SnakeState, draws: seq<Cell>)
    requires RestartState(prev, draws).Some?
    ensures var r := RestartState(prev, draws).value;
      && r.snake == [Position(15, 15), Position(14, 15), Position(13, 15)]
      && r.direction == Right && r.nextDirection == Right
      && r.score == 0 && !r.gameOver && r.isPlaying && !r.isPaused
      && r.highScore == prev.highScore
      && SnakeInv(r)
  {
    var food := FoodFrom(InitialSnake(), [], draws).value;
    assert RestartState(prev, draws).value
      == SnakeState(InitialSnake(), food, Right, Right, 0, false, true, false, prev.highScore);
  }

  /** A direction key: accepted into the buffer unless it reverses the committed direction. */
  function SubmitDirection(s: SnakeState, d: Direction): (r: SnakeState)
    ensures r.(nextDirection := s.nextDirection) == s
    ensures r == s || r.nextDirection != Opposite(r.direction)
  {
    if d != Opposite(s.direction) then s.(nextDirection := d) else s
  }

  /**
   * The guard compares with the committed direction: a reversal of it is
   * ignored, anything else replaces the buffered direction, and nothing else
   * changes; so the buffer never holds a reversal of the committed direction.
   */
  lemma DirectionGuard(s: SnakeState, d: Direction)
    ensures var r := SubmitDirection(s, d);
      && r.(nextDirection := s.nextDirection) == s
      && r.nextDirection == (if d == Opposite(s.direction) then s.nextDirection else d)
      && (s.nextDirection != Opposite(s.direction) ==> r.nextDirection != Opposite(r.direction))
  {
  }

  /** `startGame`. */
  function Started(s: SnakeState): (r: SnakeState)
    ensures r.isPlaying && r.(isPlaying := s.isPlaying) == s
  {
    s.(isPlaying := true)
  }

  /** `togglePause`. */
  function PauseToggled(s: SnakeState): (r: SnakeState)
    ensures r.isPaused == !s.isPaused && r.(isPaused := s.isPaused) == s
  {
    s.(isPaused := !s.isPaused)
  }

  lemma TogglePauseTwice(s: SnakeState)
    ensures PauseToggled(PauseToggled(s)) == s
    ensures PauseToggled(s).isPaused != s.isPaused
  {
  }

  datatype SpaceAction = Restart | Start | Pause

  /** What the space key does in state `s`. */
  function SpaceCommand(s: SnakeState): (a: SpaceAction)
    ensures a == Pause ==> s.isPlaying && !s.gameOver
    ensures a == Start ==> !s.isPlaying && !s.gameOver
  {
    if s.gameOver then Restart
    else if !s.isPlaying then Start
    else Pause
  }

  /** The space key restarts a lost game, starts a waiting one and otherwise toggles pause. */
  lemma SpaceDispatch(s: SnakeState)
    ensures SpaceCommand(s) == Restart <==> s.gameOver
    ensures SpaceCommand(s) == Start <==> !s.gameOver && !s.isPlaying
    ensures SpaceCommand(s) == Pause <==> !s.gameOver && s.isPlaying
  {
  }

  /** The key handler: space dispatches a command, a direction key goes to the buffer, other keys do nothing. */
  function HandleKey(s: SnakeState, key: string, draws: seq<Cell>): (r: Option<SnakeState>)
    ensures r.None? ==> key == " " && s.gameOver
    ensures key != " " ==> r.Some? && r.value.(nextDirection := s.nextDirection) == s
  {
    if key == " " then
      match SpaceCommand(s)
      case Restart => RestartState(s, draws)
      case Start => Some(Started(s))
      case Pause => Some(PauseToggled(s))
    else
      match KeyToDirection(key)
      case None => Some(s)
      case Some(d) => Some(SubmitDirection(s, d))
  }

  /** Every key keeps the invariant. */
  lemma HandleKeyPreservesInvariant(s: SnakeState, key: string, draws: seq<Cell>)
    requires SnakeInv(s) && HandleKey(s, key, draws).Some?
    ensures SnakeInv(HandleKey(s, key, draws).value)
  {
  }

  /** `gameLoop` does nothing unless the game is being played, unpaused and not lost. */
  function LoopRunning(s: SnakeState): (running: bool)
    ensures running ==> SpaceCommand(s) == Pause
  {
    s.isPlaying && !s.isPaused && !s.gameOver
  }

  // ---------------------------------------------------------------------
  // The hook

  /** The `useSnakeGame` hook: the game state and `lastUpdateRef`. */
  class SnakeSession {
    var state: SnakeState
    var lastUpdate: int

    ghost predicate Valid()
      reads this
    {
      SnakeInv(state)
    }

    /** The `useState` initialiser, given the stored high score: a fresh game, not yet playing. */
    constructor (highScore: nat, draws: seq<Cell>)
      requires InitialState(highScore, draws).Some?
      ensures Valid() && state == InitialState(highScore, draws).value && lastUpdate == 0
    {
      var initialSnake := InitialSnake();
      var food := GenerateFood(initialSnake, [], draws);
      InitialSnakeIsLegal();
      state := SnakeState(initialSnake, food.value, Right, Right, 0, false, false, false, highScore);
      lastUpdate := 0;
    }

    /** One animation frame of `gameLoop` at time `timestamp`; the interval comes from the score. */
    method OnFrame(timestamp: int, draws: seq<Cell>) returns (ok: bool)
      requires Valid()
      modifies this
      ensures Valid()
      ensures var due := LoopRunning(old(state)) && TickDue(timestamp, old(lastUpdate), Speed(old(state).score));
        && (!due ==> ok && state == old(state) && lastUpdate == old(lastUpdate))
        && (due ==> lastUpdate == timestamp && ok == Tick(old(state), draws).Some?)
        && (due && ok ==> state == Tick(old(state), draws).value)
        && (due && !ok ==> state == old(state))
    {
      ok := true;
      if !state.isPlaying || state.isPaused || state.gameOver {
        return;
      }
      var speed := Speed(state.score);
      if timestamp - lastUpdate < speed {
        return;
      }
      lastUpdate := timestamp;
      match Tick(state, draws)
      case None => ok := false;
      case Some(next) =>
        TickPreservesInvariant(state, draws);
        state := next;
    }

    method StartGame()
      requires Valid()
      modifies this
      ensures Valid() && state == Started(old(state)) && lastUpdate == old(lastUpdate)
    {
      state := state.(isPlaying := true);
    }

    method TogglePause()
      requires Valid()
      modifies this
      ensures Valid() && state == PauseToggled(old(state)) && lastUpdate == old(lastUpdate)
    {
      state := state.(isPaused := !state.isPaused);
    }

    method RestartGame(draws: seq<Cell>) returns (ok: bool)
      requires Valid()
      modifies this
      ensures Valid()
      ensures ok == RestartState(old(state), draws).Some?
      ensures ok ==> state == RestartState(old(state), draws).value && lastUpdate == 0
      ensures !ok ==> state == old(state) && lastUpdate == old(lastUpdate)
    {
      var initialSnake := InitialSnake();
      var food := GenerateFood(initialSnake, [], draws);
      if food.Exhausted? {
        return false;
      }
      InitialSnakeIsLegal();
      state := SnakeState(initialSnake, food.value, Right, Right, 0, false, true, false, state.highScore);
      lastUpdate := 0;
      return true;
    }

    /** The keydown listener. */
    method KeyDown(key: string, draws: seq<Cell>) returns (ok: bool)
      requires Valid()
      modifies this
      ensures Valid()
      ensures ok == HandleKey(old(state), key, draws).Some?
      ensures ok ==> state == HandleKey(old(state), key, draws).value
      ensures !ok ==> state == old(state)
      ensures lastUpdate == (if ok && key == " " && SpaceCommand(old(state)) == Restart then 0 else old(lastUpdate))
    {
      if key == " " {
        if state.gameOver {
          ok := RestartGame(draws);
        } else if !state.isPlaying {
          StartGame();
          ok := true;
        } else {
          TogglePause();
          ok := true;
        }
        return;
      }
      ok := true;
      var newDirection := KeyToDirection(key);
      if newDirection.Some? && newDirection.value != Opposite(state.direction) {
        state := state.(nextDirection := newDirection.value);
      }
    }
  }
}
