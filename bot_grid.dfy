/** The bot's view of the map: which cells it may enter, where a step leads,
    and which way to turn to approach a cell. */
module BotGrid {
  import opened GameTypes
  import opened MapGen

  /** canMove: a row of the map, a column of its first row, and an empty cell.
      A cell past the end of a shorter row is not empty. */
  predicate CanMove(grid: Grid, x: int, y: int) {
    0 <= y < |grid| && 0 <= x < |grid[0]| && x < |grid[y]| && grid[y][x] == Empty
  }

  /** On a map the server generated, the bot may enter exactly the cells the
      server lets a player stand on. */
  lemma CanMoveIsServerFloor(grid: Grid, w: int, h: int, x: int, y: int)
    requires GeneratedShape(grid, w, h)
    ensures CanMove(grid, x, y) <==> IsFloor(grid, w, h, x, y)
  {
    if CanMove(grid, x, y) || IsFloor(grid, w, h, x, y) {
      assert |grid[0]| == w;
    }
  }

  /** getNextPos: the neighbour in direction 0..3; any other value stays. It is
      the same step the server applies to moving players and bullets. */
  function NextPos(x: int, y: int, dir: int): (r: Cell)
    ensures r == Step(x, y, dir)
    ensures 0 <= dir < 4 ==> Manhattan(r, Cell(x, y)) == 1
  {
    match dir
    case 0 => Cell(x, y - 1)
    case 1 => Cell(x + 1, y)
    case 2 => Cell(x, y + 1)
    case 3 => Cell(x - 1, y)
    case _ => Cell(x, y)
  }

  predicate Adjacent(a: Cell, b: Cell) { Manhattan(a, b) == 1 }

  /** getDirectionTo: the horizontal axis first, then down, and up otherwise.
      The step it picks toward a different cell always brings the bot one cell
      closer, so for a neighbouring cell it lands exactly on it. */
  function DirectionTo(x1: int, y1: int, x2: int, y2: int): (d: int)
    ensures 0 <= d < 4
    ensures (x2 != x1 ==> d == Right || d == Left) && (x2 == x1 && y2 != y1 ==> d == Up || d == Down)
    ensures Cell(x1, y1) != Cell(x2, y2) ==>
      Manhattan(NextPos(x1, y1, d), Cell(x2, y2)) + 1 == Manhattan(Cell(x1, y1), Cell(x2, y2))
    ensures Adjacent(Cell(x1, y1), Cell(x2, y2)) ==> NextPos(x1, y1, d) == Cell(x2, y2)
    ensures Cell(x1, y1) == Cell(x2, y2) ==> d == Up
  {
    if x2 > x1 then Right
    else if x2 < x1 then Left
    else if y2 > y1 then Down
    else Up
  }

  /** Every neighbour is reached by some direction 0..3. */
  lemma NeighbourByDirection(a: Cell, b: Cell)
    requires Adjacent(a, b)
    ensures exists d :: 0 <= d < 4 && NextPos(a.x, a.y, d) == b
  {
    var d := DirectionTo(a.x, a.y, b.x, b.y);
    assert NextPos(a.x, a.y, d) == b;
  }
}
