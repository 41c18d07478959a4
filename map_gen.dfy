/** Map generation of the room engine: a bordered grid with random interior
    walls kept away from the four corner spawn points. */
module MapGen {
  import opened GameTypes

  /** The four fixed spawn points, in slot order. */
  function SpawnPoints(w: int, h: int): (r: seq<Cell>)
    ensures |r| == 4
  {
    [Cell(1, 1), Cell(w - 2, 1), Cell(1, h - 2), Cell(w - 2, h - 2)]
  }

  predicate Near(s: Cell, x: int, y: int) { Abs(s.x - x) <= 1 && Abs(s.y - y) <= 1 }

  /** The cell is within Chebyshev distance 1 of some spawn point. */
  predicate NearSpawn(w: int, h: int, x: int, y: int) {
    var s := SpawnPoints(w, h);
    Near(s[0], x, y) || Near(s[1], x, y) || Near(s[2], x, y) || Near(s[3], x, y)
  }

  predicate OnBorder(w: int, h: int, x: int, y: int) {
    x == 0 || y == 0 || x == w - 1 || y == h - 1
  }

  /** A random draw of the generator: a cell with 1 <= x <= w-2 and 1 <= y <= h-2. */
  predicate CandidatesInRange(w: int, h: int, candidates: seq<Cell>) {
    forall k :: 0 <= k < |candidates| ==>
      1 <= candidates[k].x <= w - 2 && 1 <= candidates[k].y <= h - 2
  }

  /** The shape every generated map has: only 0/1 cells, walls all along the
      border, and no wall near a spawn point. */
  ghost predicate GeneratedShape(grid: Grid, w: int, h: int) {
    && Shaped(grid, w, h)
    && (forall y, x :: 0 <= y < h && 0 <= x < w ==> grid[y][x] == Empty || grid[y][x] == Wall)
    && (forall y, x :: 0 <= y < h && 0 <= x < w && OnBorder(w, h, x, y) ==> grid[y][x] == Wall)
    && (forall y, x :: 0 <= y < h && 0 <= x < w && !OnBorder(w, h, x, y) && NearSpawn(w, h, x, y) ==>
          grid[y][x] == Empty)
  }

  /** The interior cells that hold a wall. */
  ghost function InteriorWalls(grid: Grid, w: int, h: int): set<Cell>
    requires Shaped(grid, w, h)
  {
    set y, x | 1 <= y < h - 1 && 1 <= x < w - 1 && grid[y][x] == Wall :: Cell(x, y)
  }

  function Attempts(wallCount: int): nat { if wallCount < 0 then 0 else wallCount }

  /** Builds the map for a w x h room asking for `wallCount` interior walls.
      `candidates` stands for the successive random draws of the generator; the
      generator keeps drawing until every wall is placed, the model also stops
      when the draws run out, and `used` is the number of draws consumed. */
  method GenerateMap(w: int, h: int, wallCount: int, candidates: seq<Cell>)
    returns (grid: Grid, placed: nat, used: nat)
    requires w >= 3 && h >= 3
    requires CandidatesInRange(w, h, candidates)
    ensures GeneratedShape(grid, w, h)
    ensures placed <= Attempts(wallCount) && used <= |candidates|
    ensures placed < Attempts(wallCount) ==> used == |candidates|
    ensures |InteriorWalls(grid, w, h)| == placed
    ensures forall c :: c in InteriorWalls(grid, w, h) ==> c in candidates[..used] && !NearSpawn(w, h, c.x, c.y)
    ensures forall k :: 0 <= k < used && !NearSpawn(w, h, candidates[k].x, candidates[k].y) ==>
      candidates[k] in InteriorWalls(grid, w, h)
    ensures w <= 6 && h <= 6 ==> placed == 0
  {
    grid := BorderedGrid(w, h);
    BorderedGridShape(grid, w, h);
    var attempts := Attempts(wallCount);
    placed, used := 0, 0;
    ghost var walls: set<Cell> := {};
    while placed < attempts && used < |candidates|
      invariant used <= |candidates| && placed <= attempts
      invariant GeneratedShape(grid, w, h)
      invariant InteriorWalls(grid, w, h) == walls && |walls| == placed
      invariant forall c :: c in walls ==> c in candidates[..used] && !NearSpawn(w, h, c.x, c.y)
      invariant forall k :: 0 <= k < used && !NearSpawn(w, h, candidates[k].x, candidates[k].y) ==> candidates[k] in walls
      invariant w <= 6 && h <= 6 ==> placed == 0
    {
      var c := candidates[used];
      used := used + 1;
      DrawnSoFar(candidates, used, walls);
      if !NearSpawn(w, h, c.x, c.y) && grid[c.y][c.x] == Empty {
        PlaceWall(grid, w, h, c);
        grid := grid[c.y := grid[c.y][c.x := Wall]];
        AwayDrawsPlaced(w, h, candidates, used, walls, walls + {c});
        walls := walls + {c};
        placed := placed + 1;
      } else {
        if !NearSpawn(w, h, c.x, c.y) {
          WallIsInterior(grid, w, h, c);
        }
        AwayDrawsPlaced(w, h, candidates, used, walls, walls);
        // the generator's escape test at this point can never hold inside the loop
        assert !(placed > attempts * 5);
      }
    }
  }

  /** The walls placed so far are still among the draws after one more draw,
      and the newest draw is among them too. */
  lemma DrawnSoFar(candidates: seq<Cell>, used: nat, walls: set<Cell>)
    requires 1 <= used <= |candidates|
    requires forall c :: c in walls ==> c in candidates[..used - 1]
    ensures forall c :: c in walls + {candidates[used - 1]} ==> c in candidates[..used]
  {
    assert candidates[..used] == candidates[..used - 1] + [candidates[used - 1]];
  }

  /** Once the newest draw, when it is away from the spawn points, is a wall,
      every draw so far that is away from the spawn points is a wall. */
  lemma AwayDrawsPlaced(w: int, h: int, candidates: seq<Cell>, used: nat, walls: set<Cell>, walls': set<Cell>)
    requires 1 <= used <= |candidates| && walls <= walls'
    requires forall k :: 0 <= k < used - 1 && !NearSpawn(w, h, candidates[k].x, candidates[k].y) ==> candidates[k] in walls
    requires !NearSpawn(w, h, candidates[used - 1].x, candidates[used - 1].y) ==> candidates[used - 1] in walls'
    ensures forall k :: 0 <= k < used && !NearSpawn(w, h, candidates[k].x, candidates[k].y) ==> candidates[k] in walls'
  {
  }

  /** A draw on a cell that already holds a wall is already an interior wall. */
  lemma WallIsInterior(grid: Grid, w: int, h: int, c: Cell)
    requires GeneratedShape(grid, w, h) && 1 <= c.x <= w - 2 && 1 <= c.y <= h - 2
    requires grid[c.y][c.x] != Empty
    ensures c in InteriorWalls(grid, w, h)
  {
    assert grid[c.y][c.x] == Wall;
    assert c == Cell(c.x, c.y);
  }

  /** Placing one accepted draw: the map keeps its shape, gains exactly that
      interior wall, and the map must be larger than 6 x 6. */
  lemma PlaceWall(grid: Grid, w: int, h: int, c: Cell)
    requires GeneratedShape(grid, w, h) && 1 <= c.x <= w - 2 && 1 <= c.y <= h - 2
    requires !NearSpawn(w, h, c.x, c.y) && grid[c.y][c.x] == Empty
    ensures GeneratedShape(grid[c.y := grid[c.y][c.x := Wall]], w, h)
    ensures c !in InteriorWalls(grid, w, h)
    ensures InteriorWalls(grid[c.y := grid[c.y][c.x := Wall]], w, h) == InteriorWalls(grid, w, h) + {c}
    ensures w > 6 || h > 6
  {
    FreeCellNeedsRoom(w, h, c.x, c.y);
    InteriorWallsAdd(grid, w, h, c);
    PlaceWallKeepsShape(grid, w, h, c);
  }

  /** The all-empty grid with walls along its four borders. */
  method BorderedGrid(w: int, h: int) returns (grid: Grid)
    requires w >= 1 && h >= 1
    ensures Shaped(grid, w, h)
    ensures forall y, x :: 0 <= y < h && 0 <= x < w ==>
      grid[y][x] == (if OnBorder(w, h, x, y) then Wall else Empty)
  {
    grid := seq(h, _ => seq(w, _ => Empty));
    // top and bottom rows
    var x := 0;
    while x < w
      invariant 0 <= x <= w
      invariant Shaped(grid, w, h)
      invariant forall yy, xx :: 0 <= yy < h && 0 <= xx < w ==>
        grid[yy][xx] == (if (yy == 0 || yy == h - 1) && xx < x then Wall else Empty)
    {
      grid := grid[0 := grid[0][x := Wall]];
      grid := grid[h - 1 := grid[h - 1][x := Wall]];
      x := x + 1;
    }
    // left and right columns
    var y := 0;
    while y < h
      invariant 0 <= y <= h
      invariant Shaped(grid, w, h)
      invariant forall yy, xx :: 0 <= yy < h && 0 <= xx < w ==>
        grid[yy][xx] == (if yy == 0 || yy == h - 1 || ((xx == 0 || xx == w - 1) && yy < y) then Wall else Empty)
    {
      grid := grid[y := grid[y][0 := Wall]];
      grid := grid[y := grid[y][w - 1 := Wall]];
      y := y + 1;
    }
  }

  lemma BorderedGridShape(grid: Grid, w: int, h: int)
    requires Shaped(grid, w, h)
    requires forall y, x :: 0 <= y < h && 0 <= x < w ==>
      grid[y][x] == (if OnBorder(w, h, x, y) then Wall else Empty)
    ensures GeneratedShape(grid, w, h) && InteriorWalls(grid, w, h) == {}
  {
  }

  lemma PlaceWallKeepsShape(grid: Grid, w: int, h: int, c: Cell)
    requires GeneratedShape(grid, w, h) && 1 <= c.x < w - 1 && 1 <= c.y < h - 1
    requires !NearSpawn(w, h, c.x, c.y)
    ensures GeneratedShape(grid[c.y := grid[c.y][c.x := Wall]], w, h)
  {
  }

  /** Placing one wall at an empty interior cell adds exactly that cell to the
      interior walls. */
  lemma InteriorWallsAdd(grid: Grid, w: int, h: int, c: Cell)
    requires Shaped(grid, w, h) && 1 <= c.x < w - 1 && 1 <= c.y < h - 1
    requires grid[c.y][c.x] == Empty
    ensures Shaped(grid[c.y := grid[c.y][c.x := Wall]], w, h)
    ensures c !in InteriorWalls(grid, w, h)
    ensures InteriorWalls(grid[c.y := grid[c.y][c.x := Wall]], w, h) == InteriorWalls(grid, w, h) + {c}
  {
    var g' := grid[c.y := grid[c.y][c.x := Wall]];
    assert Shaped(g', w, h);
    forall d | d in InteriorWalls(g', w, h) ensures d in InteriorWalls(grid, w, h) + {c} {
    }
    forall d | d in InteriorWalls(grid, w, h) + {c} ensures d in InteriorWalls(g', w, h) {
      if d != c {
        assert grid[d.y][d.x] == Wall;
        assert g'[d.y][d.x] == Wall;
      }
    }
  }

  /** An interior cell away from every spawn point exists only on a map wider
      or taller than 6: on a map at most 6 x 6 every interior cell is within one
      cell of a spawn point, so no random wall can ever be accepted, and the
      generator's loop, which only stops once every requested wall is placed,
      never ends when walls are requested. */
  lemma FreeCellNeedsRoom(w: int, h: int, x: int, y: int)
    requires 1 <= x <= w - 2 && 1 <= y <= h - 2
    requires !NearSpawn(w, h, x, y)
    ensures w > 6 || h > 6
  {
  }

  /** Every spawn point of a generated map is a floor cell. */
  lemma SpawnIsFloor(grid: Grid, w: int, h: int, slot: nat)
    requires w >= 3 && h >= 3 && GeneratedShape(grid, w, h) && slot < 4
    ensures IsFloor(grid, w, h, SpawnPoints(w, h)[slot].x, SpawnPoints(w, h)[slot].y)
  {
    var s := SpawnPoints(w, h)[slot];
    assert Near(s, s.x, s.y);
  }
}
