/** Records shared by the room engine and the bot: players, bullets, actions,
    the room configuration and the tile grid (0 = empty, 1 = wall). */
module GameTypes {

  datatype Option<+T> = None | Some(value: T)

  /** A tile grid, indexed grid[y][x]. */
  type Grid = seq<seq<int>>

  const Empty := 0
  const Wall := 1

  /** Direction encoding shared by server and clients. */
  const Up := 0
  const Right := 1
  const Down := 2
  const Left := 3

  datatype Cell = Cell(x: int, y: int)

  datatype Status = Waiting | Playing | Finished

  /** An inbound action. `direction` is optional in the message; only move and
      rotate read it. The timestamp a message carries is never read by the
      engine and is not part of the model. */
  datatype PlayerAction =
    | Move(direction: Option<int>)
    | Rotate(direction: Option<int>)
    | Shoot
    | Idle

  datatype Player = Player(
    id: string,
    name: string,
    x: int,
    y: int,
    direction: int,
    health: int,
    score: int,
    color: string,
    isAlive: bool,
    lastAction: Option<PlayerAction>)

  /** A projectile. `rangeCounter` is the extra property the engine attaches
      when the bullet is spawned; its companion `maxDistance` is always 3 and
      is the constant MaxDistance of the bullet module. */
  datatype Bullet = Bullet(
    id: string,
    x: int,
    y: int,
    direction: int,
    speed: int,
    ownerId: string,
    damage: int,
    rangeCounter: int)

  datatype Config = Config(
    mapWidth: int,
    mapHeight: int,
    tileSize: int,
    maxPlayers: nat,
    tickRate: int,
    bulletSpeed: int,
    bulletDamage: int,
    randomWallCount: int)

  function Abs(n: int): nat { if n < 0 then -n else n }

  function Manhattan(a: Cell, b: Cell): nat { Abs(a.x - b.x) + Abs(a.y - b.y) }

  /** The one-cell step the engine applies to a moving player or bullet:
      up is y-1, right x+1, down y+1, left x-1; any other value stays put. */
  function Step(x: int, y: int, dir: int): (r: Cell)
    ensures 0 <= dir < 4 ==> Manhattan(r, Cell(x, y)) == 1
    ensures !(0 <= dir < 4) ==> r == Cell(x, y)
  {
    if dir == Up then Cell(x, y - 1)
    else if dir == Right then Cell(x + 1, y)
    else if dir == Down then Cell(x, y + 1)
    else if dir == Left then Cell(x - 1, y)
    else Cell(x, y)
  }

  predicate InMap(w: int, h: int, x: int, y: int) { 0 <= x < w && 0 <= y < h }

  /** The grid has exactly h rows of exactly w cells. */
  ghost predicate Shaped(grid: Grid, w: int, h: int) {
    |grid| == h && forall y :: 0 <= y < h ==> |grid[y]| == w
  }

  /** A cell a player may stand on: inside the map and not a wall. */
  predicate IsFloor(grid: Grid, w: int, h: int, x: int, y: int)
    requires Shaped(grid, w, h)
  {
    InMap(w, h, x, y) && grid[y][x] != Wall
  }
}
