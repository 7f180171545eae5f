/**
 * The fixed 30×30 board shared by both game modes: positions, the four
 * directions with their unit steps and opposites, the key table that maps
 * keys to directions, the frame gate and the spawn snake.
 */
module Grid {
  import opened Optional

  /** Cells per side of the square board (`CELL_COUNT`). */
  const CellCount: int := 30

  datatype Position = Position(x: int, y: int)

  predicate InBounds(p: Position) {
    0 <= p.x < CellCount && 0 <= p.y < CellCount
  }

  /** A cell of the board: what two draws of `floor(random * CELL_COUNT)` produce. */
  type Cell = p: Position | InBounds(p) witness Position(0, 0)

  /** The floor-midpoint of the board, `floor(CELL_COUNT / 2)`. */
  function Center(): (c: int)
    ensures 2 * c <= CellCount < 2 * c + 2
  {
    CellCount / 2
  }

  /** Every cell of `s` lies on the board. */
  predicate OnBoard(s: seq<Position>) {
    forall i :: 0 <= i < |s| ==> InBounds(s[i])
  }

  /** No cell occurs twice in `s`. */
  predicate Distinct(s: seq<Position>) {
    forall i, j :: 0 <= i < j < |s| ==> s[i] != s[j]
  }

  datatype Direction = Up | Down | Left | Right

  /** The unit vector of a direction (`DIRECTIONS`); y grows downwards. */
  function Delta(d: Direction): (v: Position)
    ensures (v.x == 0) != (v.y == 0) && -1 <= v.x <= 1 && -1 <= v.y <= 1
    ensures v.y == -1 <==> d == Up
    ensures v.x == 1 <==> d == Right
    ensures v.y == 1 <==> d == Down
    ensures v.x == -1 <==> d == Left
  {
    match d
    case Up => Position(0, -1)
    case Down => Position(0, 1)
    case Left => Position(-1, 0)
    case Right => Position(1, 0)
  }

  /** The opposite of a direction (`OPPOSITES`): the one whose step undoes it. */
  function Opposite(d: Direction): (o: Direction)
    ensures Delta(o) == Position(-Delta(d).x, -Delta(d).y)
  {
    match d
    case Up => Down
    case Down => Up
    case Left => Right
    case Right => Left
  }

  lemma OppositeIsInvolution(d: Direction)
    ensures Opposite(d) != d && Opposite(Opposite(d)) == d
  {
  }

  /** The cell one step from `p` in direction `d`: one of its four neighbours. */
  function Step(p: Position, d: Direction): (q: Position)
    ensures (q.x == p.x && (q.y == p.y - 1 || q.y == p.y + 1))
         || (q.y == p.y && (q.x == p.x - 1 || q.x == p.x + 1))
  {
    Position(p.x + Delta(d).x, p.y + Delta(d).y)
  }

  /** A step followed by a step in the opposite direction returns to the start. */
  lemma StepBack(p: Position, d: Direction)
    ensures Step(Step(p, d), Opposite(d)) == p
  {
  }

  /** The frame gate of `gameLoop`: a tick is due once `interval` milliseconds have passed since the last one. */
  predicate TickDue(timestamp: int, lastUpdate: int, interval: int) {
    !(timestamp - lastUpdate < interval)
  }

  /** The key table `keyToDirection`: arrow keys and lower-case w, a, s, d. */
  function KeyToDirection(key: string): (r: Option<Direction>)
    ensures r == Some(Up) <==> key == "ArrowUp" || key == "w"
    ensures r == Some(Down) <==> key == "ArrowDown" || key == "s"
    ensures r == Some(Left) <==> key == "ArrowLeft" || key == "a"
    ensures r == Some(Right) <==> key == "ArrowRight" || key == "d"
  {
    if key == "ArrowUp" || key == "w" then Some(Up)
    else if key == "ArrowDown" || key == "s" then Some(Down)
    else if key == "ArrowLeft" || key == "a" then Some(Left)
    else if key == "ArrowRight" || key == "d" then Some(Right)
    else None
  }

  /** The spawn snake `getInitialSnake`: three cells ending at the centre, head first, facing right. */
  function InitialSnake(): (s: seq<Position>)
    ensures |s| == 3 && s[0] == Position(Center(), Center())
    ensures forall i :: 0 < i < |s| ==> s[i - 1] == Step(s[i], Right)
  {
    var c := Center();
    [Position(c, c), Position(c - 1, c), Position(c - 2, c)]
  }

  /** The spawn snake is a legal snake: on the board and without repeated cells. */
  lemma InitialSnakeIsLegal()
    ensures OnBoard(InitialSnake()) && Distinct(InitialSnake())
  {
  }

  /** Putting a fresh cell in front of a snake without repeats gives a snake without repeats. */
  lemma DistinctPrepend(h: Position, body: seq<Position>)
    requires Distinct(body) && h !in body
    ensures Distinct([h] + body)
  {
  }
}
