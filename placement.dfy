/**
 * Placement of food and obstacles by rejection sampling.
 *
 * The random source is a finite sequence of draws, each an in-bounds cell.
 * Each retry loop consumes draws from the front; when the sequence runs out
 * before the loop could stop, the outcome is `Exhausted` (the original keeps
 * drawing without bound).
 */
module Placement {
  import opened Optional
  import opened Grid

  function Abs(n: int): nat {
    if n < 0 then -n else n
  }

  /** The rectangle around the centre kept free of obstacles (`isSafeZone`): 9 columns by 5 rows. */
  function InSafeZone(p: Position): (b: bool)
    ensures b <==> 11 <= p.x <= 19 && 13 <= p.y <= 17
  {
    Abs(p.x - Center()) <= 4 && Abs(p.y - Center()) <= 2
  }

  /** What a retry loop returns: its value and the number of draws it consumed, or `Exhausted`. */
  datatype Placed<T> = Placed(value: T, used: nat) | Exhausted

  /** The outcome `r` with `k` more draws counted as consumed. */
  function Later<T>(r: Placed<T>, k: nat): Placed<T> {
    match r
    case Placed(v, n) => Placed(v, n + k)
    case Exhausted => Exhausted
  }

  /** The cell a placement settled on, or `None` when it ran out of draws. */
  function Drawn(r: Placed<Cell>): Option<Position> {
    match r
    case Placed(c, _) => Some(c)
    case Exhausted => None
  }

  /** The food test of `generateFood`: the cell is on the snake or on an obstacle. */
  predicate Occupied(p: Position, snake: seq<Position>, obstacles: seq<Position>) {
    p in snake || p in obstacles
  }

  /**
   * The food cell the `do…while` loop of `generateFood` settles on: the first
   * draw that is neither on the snake nor on an obstacle.
   */
  function FoodFrom(snake: seq<Position>, obstacles: seq<Position>, draws: seq<Cell>): (r: Placed<Cell>)
    ensures r.Placed? ==>
      && 0 < r.used <= |draws| && r.value == draws[r.used - 1]
      && !Occupied(r.value, snake, obstacles)
      && forall j :: 0 <= j < r.used - 1 ==> Occupied(draws[j], snake, obstacles)
    ensures r.Exhausted? ==> forall j :: 0 <= j < |draws| ==> Occupied(draws[j], snake, obstacles)
    decreases |draws|
  {
    if draws == [] then Exhausted
    else if !Occupied(draws[0], snake, obstacles) then Placed(draws[0], 1)
    else Later(FoodFrom(snake, obstacles, draws[1..]), 1)
  }

  /** `generateFood`: redraw until the cell is free of snake and obstacles. */
  method GenerateFood(snake: seq<Position>, obstacles: seq<Position>, draws: seq<Cell>) returns (r: Placed<Cell>)
    ensures r == FoodFrom(snake, obstacles, draws)
  {
    var i := 0;
    while i < |draws|
      invariant 0 <= i <= |draws|
      invariant FoodFrom(snake, obstacles, draws) == Later(FoodFrom(snake, obstacles, draws[i..]), i)
    {
      var candidate := draws[i];
      assert draws[i..][1..] == draws[i + 1..];
      if !(candidate in snake || candidate in obstacles) {
        return Placed(candidate, i + 1);
      }
      i := i + 1;
    }
    return Exhausted;
  }

  /** The acceptance test of `generateObstacles`. */
  predicate Eligible(p: Position, snake: seq<Position>, placed: seq<Position>) {
    p !in snake && p !in placed && !InSafeZone(p)
  }

  /** A legal obstacle list: distinct board cells, none on the snake, none in the safe zone. */
  predicate ObstaclesOk(obstacles: seq<Position>, snake: seq<Position>) {
    && Distinct(obstacles)
    && forall i :: 0 <= i < |obstacles| ==>
         InBounds(obstacles[i]) && obstacles[i] !in snake && !InSafeZone(obstacles[i])
  }

  /**
   * The obstacle list the loop of `generateObstacles` returns when it has
   * already accepted `placed`: draws are accepted in order while fewer than
   * `count` have been accepted.
   */
  function ObstaclesFrom(count: nat, snake: seq<Position>, placed: seq<Position>, draws: seq<Cell>)
    : (r: Placed<seq<Position>>)
    requires ObstaclesOk(placed, snake) && |placed| <= count
    ensures r.Placed? ==>
      && |r.value| == count && ObstaclesOk(r.value, snake)
      && r.value[..|placed|] == placed && r.used <= |draws|
    decreases |draws|
  {
    if |placed| >= count then Placed(placed, 0)
    else if draws == [] then Exhausted
    else
      var p := draws[0];
      if Eligible(p, snake, placed) then
        Later(ObstaclesFrom(count, snake, AppendObstacle(placed, p, snake), draws[1..]), 1)
      else
        Later(ObstaclesFrom(count, snake, placed, draws[1..]), 1)
  }

  /** `obstacles.push(pos)` for an accepted cell: the list stays legal. */
  function AppendObstacle(placed: seq<Position>, p: Cell, snake: seq<Position>): (r: seq<Position>)
    requires ObstaclesOk(placed, snake) && Eligible(p, snake, placed)
    ensures ObstaclesOk(r, snake) && |r| == |placed| + 1 && r[..|placed|] == placed && r[|placed|] == p
  {
    placed + [p]
  }

  /** `generateObstacles(count, snake)` fed by `draws`. */
  function PlaceObstacles(count: nat, snake: seq<Position>, draws: seq<Cell>): (r: Placed<seq<Position>>)
    ensures r.Placed? ==> |r.value| == count && ObstaclesOk(r.value, snake) && r.used <= |draws|
  {
    ObstaclesFrom(count, snake, [], draws)
  }

  /** `generateObstacles`: accept draws off the snake, off earlier obstacles and outside the safe zone, until `count` are accepted. */
  method GenerateObstacles(count: nat, snake: seq<Position>, draws: seq<Cell>) returns (r: Placed<seq<Position>>)
    ensures r == PlaceObstacles(count, snake, draws)
  {
    var obstacles: seq<Position> := [];
    var i := 0;
    while |obstacles| < count
      invariant 0 <= i <= |draws|
      invariant ObstaclesOk(obstacles, snake) && |obstacles| <= count
      invariant PlaceObstacles(count, snake, draws) == Later(ObstaclesFrom(count, snake, obstacles, draws[i..]), i)
      decreases |draws| - i
    {
      if i == |draws| {
        return Exhausted;
      }
      var pos := draws[i];
      assert draws[i..][1..] == draws[i + 1..];
      var isOnSnake := pos in snake;
      var isOnObstacle := pos in obstacles;
      var isInSafeZone := InSafeZone(pos);
      i := i + 1;
      if !isOnSnake && !isOnObstacle && !isInSafeZone {
        obstacles := AppendObstacle(obstacles, pos, snake);
      }
    }
    return Placed(obstacles, i);
  }
}
