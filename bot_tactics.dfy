/** The bot's combat decisions: line of sight, the nearest enemy, aiming, and
    sidestepping incoming bullets. Actions are the messages the bot sends:
    Shoot, Rotate(Some(d)) and Move(Some(d)). */
module BotTactics {
  import opened GameTypes
  import opened BotGrid

  /** Every row of the grid as long as the first. */
  predicate Rectangular(grid: Grid) {
    forall y :: 0 <= y < |grid| ==> |grid[y]| == |grid[0]|
  }

  predicate OnGrid(grid: Grid, c: Cell) {
    0 <= c.y < |grid| && 0 <= c.x < |grid[c.y]|
  }

  function Min(a: int, b: int): int { if a <= b then a else b }
  function Max(a: int, b: int): int { if a <= b then b else a }

  /** No wall strictly between the two cells of column x. */
  ghost predicate ColumnClear(grid: Grid, x: int, y1: int, y2: int)
    requires Rectangular(grid) && 0 <= y1 < |grid| && 0 <= y2 < |grid| && 0 <= x < |grid[0]|
  {
    forall y :: Min(y1, y2) < y < Max(y1, y2) ==> grid[y][x] != Wall
  }

  /** No wall strictly between the two cells of row y. */
  ghost predicate RowClear(grid: Grid, y: int, x1: int, x2: int)
    requires Rectangular(grid) && 0 <= y < |grid| && 0 <= x1 < |grid[0]| && 0 <= x2 < |grid[0]|
  {
    forall x :: Min(x1, x2) < x < Max(x1, x2) ==> grid[y][x] != Wall
  }

  /** The two cells share a column or a row with no wall strictly between. */
  ghost predicate LineOfSight(grid: Grid, a: Cell, b: Cell)
    requires Rectangular(grid) && OnGrid(grid, a) && OnGrid(grid, b)
  {
    || (a.x == b.x && ColumnClear(grid, a.x, a.y, b.y))
    || (a.y == b.y && RowClear(grid, a.y, a.x, b.x))
  }

  /** Sight goes both ways, and only along a row or a column. */
  lemma LineOfSightSymmetric(grid: Grid, a: Cell, b: Cell)
    requires Rectangular(grid) && OnGrid(grid, a) && OnGrid(grid, b)
    ensures LineOfSight(grid, a, b) == LineOfSight(grid, b, a)
    ensures LineOfSight(grid, a, b) ==> a.x == b.x || a.y == b.y
  {
  }

  /** canSeeEnemy: scan the column when the x coordinates agree, else the row
      when the y coordinates agree; otherwise there is no sight. */
  method CanSeeEnemy(grid: Grid, me: Player, enemy: Player) returns (r: bool)
    requires Rectangular(grid) && OnGrid(grid, Cell(me.x, me.y)) && OnGrid(grid, Cell(enemy.x, enemy.y))
    ensures r <==> LineOfSight(grid, Cell(me.x, me.y), Cell(enemy.x, enemy.y))
  {
    if me.x == enemy.x {
      var minY, maxY := Min(me.y, enemy.y), Max(me.y, enemy.y);
      assert forall v :: 0 <= v < |grid| ==> me.x < |grid[v]|;
      var y := minY + 1;
      while y < maxY
        invariant minY + 1 <= y <= maxY + 1
        invariant forall v :: minY < v < y ==> grid[v][me.x] != Wall
      {
        if grid[y][me.x] == Wall {
          return false;
        }
        y := y + 1;
      }
      return true;
    }
    if me.y == enemy.y {
      var minX, maxX := Min(me.x, enemy.x), Max(me.x, enemy.x);
      var x := minX + 1;
      while x < maxX
        invariant minX + 1 <= x <= maxX + 1
        invariant forall v :: minX < v < x ==> grid[me.y][v] != Wall
      {
        if grid[me.y][x] == Wall {
          return false;
        }
        x := x + 1;
      }
      return true;
    }
    return false;
  }

  /** A living player other than `me`. */
  predicate Enemy(me: Player, p: Player) { p.id != me.id && p.isAlive }

  function Distance(me: Player, p: Player): nat { Manhattan(Cell(p.x, p.y), Cell(me.x, me.y)) }

  /** Entry k is an enemy at the smallest distance of all enemies, and every
      enemy listed before it is strictly farther. */
  ghost predicate IsClosest(me: Player, ps: seq<Player>, k: int) {
    && 0 <= k < |ps| && Enemy(me, ps[k])
    && (forall j :: 0 <= j < |ps| && Enemy(me, ps[j]) ==> Distance(me, ps[k]) <= Distance(me, ps[j]))
    && (forall j :: 0 <= j < k && Enemy(me, ps[j]) ==> Distance(me, ps[k]) < Distance(me, ps[j]))
  }

  /** At most one entry is the closest: ties go to the earliest. */
  lemma ClosestIsUnique(me: Player, ps: seq<Player>, k: int, l: int)
    requires IsClosest(me, ps, k) && IsClosest(me, ps, l)
    ensures k == l
  {
  }

  /** getClosestEnemy: none exactly when there is no enemy; otherwise the
      closest enemy, the earliest one on ties. */
  method GetClosestEnemy(me: Player, players: seq<Player>) returns (nearest: Option<Player>)
    ensures nearest.None? <==> forall j :: 0 <= j < |players| ==> !Enemy(me, players[j])
    ensures nearest.Some? ==> exists k :: IsClosest(me, players, k) && nearest.value == players[k]
  {
    nearest := None;
    ghost var at := -1;
    var minDist := 0;
    var i := 0;
    while i < |players|
      invariant 0 <= i <= |players|
      invariant nearest.None? <==> forall j :: 0 <= j < i ==> !Enemy(me, players[j])
      invariant nearest.Some? ==>
        IsClosest(me, players[..i], at) && nearest.value == players[at] && minDist == Distance(me, players[at])
    {
      var p := players[i];
      if p.id == me.id || !p.isAlive {
        i := i + 1;
        continue;
      }
      var d := Abs(p.x - me.x) + Abs(p.y - me.y);
      if nearest.None? || d < minDist {
        minDist := d;
        nearest := Some(p);
        at := i;
      }
      i := i + 1;
    }
    assert players[..i] == players;
  }

  /** The direction to aim at `target`: along x when |dx| > |dy|, else along y
      (down when dy > 0, up otherwise). */
  function AimDirection(me: Player, target: Player): (d: int)
    ensures 0 <= d < 4
    ensures (d == Right || d == Left) <==> Abs(target.x - me.x) > Abs(target.y - me.y)
  {
    var dx, dy := target.x - me.x, target.y - me.y;
    if Abs(dx) > Abs(dy) then (if dx > 0 then Right else Left)
    else if dy > 0 then Down else Up
  }

  /** The aimed direction always heads toward a target on another cell: one
      step that way is one cell closer. */
  lemma AimApproaches(me: Player, target: Player)
    requires Cell(me.x, me.y) != Cell(target.x, target.y)
    ensures var c := Step(me.x, me.y, AimDirection(me, target));
      Manhattan(c, Cell(target.x, target.y)) + 1 == Manhattan(Cell(me.x, me.y), Cell(target.x, target.y))
  {
  }

  /** aimAndShoot: shoot exactly when already facing the aimed direction, and
      otherwise turn to it. */
  function AimAndShoot(me: Player, target: Player): (a: PlayerAction)
    ensures a == Shoot <==> AimDirection(me, target) == me.direction
    ensures a != Shoot ==> a == Rotate(Some(AimDirection(me, target)))
  {
    var dir := AimDirection(me, target);
    if dir == me.direction then Shoot else Rotate(Some(dir))
  }

  /** Moving if already facing `d`, otherwise turning to it. */
  function Toward(p: Player, d: int): (a: PlayerAction)
    ensures a == Move(Some(d)) || a == Rotate(Some(d))
  {
    if p.direction == d then Move(Some(d)) else Rotate(Some(d))
  }

  predicate Movable(grid: Grid, p: Player, d: int) {
    var n := NextPos(p.x, p.y, d);
    CanMove(grid, n.x, n.y)
  }

  /** The first listed direction, from index i on, whose next cell the bot may
      enter. */
  function FirstMovable(grid: Grid, p: Player, dirs: seq<int>, i: nat): (r: Option<nat>)
    requires i <= |dirs|
    decreases |dirs| - i
    ensures r.Some? ==> i <= r.value < |dirs| && Movable(grid, p, dirs[r.value])
    ensures r.Some? ==> forall j :: i <= j < r.value ==> !Movable(grid, p, dirs[j])
    ensures r.None? <==> forall j :: i <= j < |dirs| ==> !Movable(grid, p, dirs[j])
  {
    if i == |dirs| then None
    else if Movable(grid, p, dirs[i]) then Some(i)
    else FirstMovable(grid, p, dirs, i + 1)
  }

  /** The sidestep for a list of directions, as a value. */
  function Sidestep(grid: Grid, p: Player, dirs: seq<int>): (r: Option<PlayerAction>)
    ensures r.Some? ==> exists d :: d in dirs && Movable(grid, p, d) && (r.value == Move(Some(d)) || r.value == Rotate(Some(d)))
  {
    match FirstMovable(grid, p, dirs, 0)
    case None => None
    case Some(i) => Some(Toward(p, dirs[i]))
  }

  /** trySidestep. */
  method TrySidestep(grid: Grid, player: Player, dirs: seq<int>) returns (r: Option<PlayerAction>)
    ensures r == Sidestep(grid, player, dirs)
  {
    var i := 0;
    while i < |dirs|
      invariant 0 <= i <= |dirs|
      invariant FirstMovable(grid, player, dirs, i) == FirstMovable(grid, player, dirs, 0)
    {
      var d := dirs[i];
      var next := NextPos(player.x, player.y, d);
      if CanMove(grid, next.x, next.y) {
        return if player.direction == d then Some(Move(Some(d))) else Some(Rotate(Some(d)));
      }
      i := i + 1;
    }
    return None;
  }

  /** A sidestep is either none, when no listed direction can be entered, or
      for the first listed direction that can be entered a move if the bot
      already faces it and a turn to it otherwise; a move always leads onto an
      enterable cell. */
  lemma SidestepChoice(grid: Grid, p: Player, dirs: seq<int>)
    ensures Sidestep(grid, p, dirs).None? <==> forall j :: 0 <= j < |dirs| ==> !Movable(grid, p, dirs[j])
    ensures Sidestep(grid, p, dirs).Some? ==> exists i ::
      && 0 <= i < |dirs| && Movable(grid, p, dirs[i])
      && (forall j :: 0 <= j < i ==> !Movable(grid, p, dirs[j]))
      && Sidestep(grid, p, dirs) == Some(if p.direction == dirs[i] then Move(Some(dirs[i])) else Rotate(Some(dirs[i])))
    ensures forall d :: Sidestep(grid, p, dirs) == Some(Move(Some(d))) ==> d == p.direction && Movable(grid, p, d)
  {
    if FirstMovable(grid, p, dirs, 0).Some? {
      var i := FirstMovable(grid, p, dirs, 0).value;
      assert Sidestep(grid, p, dirs) == Some(Toward(p, dirs[i]));
    }
  }

  const DangerDist := 3

  /** A bullet of someone else heading at the player from at most 3 cells away
      along its own row or column. */
  predicate Threatens(p: Player, b: Bullet) {
    && b.ownerId != p.id
    && match b.direction
       case 0 => b.x == p.x && b.y > p.y && b.y - p.y <= DangerDist
       case 2 => b.x == p.x && p.y > b.y && p.y - b.y <= DangerDist
       case 3 => b.y == p.y && b.x > p.x && b.x - p.x <= DangerDist
       case 1 => b.y == p.y && p.x > b.x && p.x - b.x <= DangerDist
       case _ => false
  }

  /** The cell a bullet reaches after k steps of the server's movement. */
  function Ray(x: int, y: int, dir: int, k: nat): Cell
    decreases k
  {
    if k == 0 then Cell(x, y)
    else var c := Step(x, y, dir); Ray(c.x, c.y, dir, k - 1)
  }

  lemma {:induction false} RayClosedForm(x: int, y: int, dir: int, k: nat)
    requires 0 <= dir < 4
    decreases k
    ensures Ray(x, y, dir, k) ==
      if dir == Up then Cell(x, y - k) else if dir == Right then Cell(x + k, y)
      else if dir == Down then Cell(x, y + k) else Cell(x - k, y)
  {
    if k > 0 {
      var c := Step(x, y, dir);
      RayClosedForm(c.x, c.y, dir, k - 1);
    }
  }

  /** A bullet threatens the player exactly when it belongs to someone else
      and, moving as the server moves it, reaches the player's cell within 1
      to 3 steps. */
  lemma ThreatMeansIncoming(p: Player, b: Bullet)
    requires 0 <= b.direction < 4
    ensures Threatens(p, b) <==>
      b.ownerId != p.id && exists k :: 1 <= k <= DangerDist && Ray(b.x, b.y, b.direction, k) == Cell(p.x, p.y)
  {
    if Threatens(p, b) {
      var k := Abs(b.x - p.x) + Abs(b.y - p.y);
      RayClosedForm(b.x, b.y, b.direction, k);
      assert Ray(b.x, b.y, b.direction, k) == Cell(p.x, p.y);
    }
    if b.ownerId != p.id && exists k :: 1 <= k <= DangerDist && Ray(b.x, b.y, b.direction, k) == Cell(p.x, p.y) {
      var k :| 1 <= k <= DangerDist && Ray(b.x, b.y, b.direction, k) == Cell(p.x, p.y);
      RayClosedForm(b.x, b.y, b.direction, k);
    }
  }

  /** The directions to dodge into: sideways to the bullet's line. */
  function DodgeDirs(b: Bullet): (r: seq<int>)
    ensures |r| == 2 && r[0] != r[1]
  {
    if b.direction == Up || b.direction == Down then [Left, Right] else [Up, Down]
  }

  /** The first threatening bullet from index i on. */
  function FirstThreat(p: Player, bs: seq<Bullet>, i: nat): (r: Option<nat>)
    requires i <= |bs|
    decreases |bs| - i
    ensures r.Some? ==> i <= r.value < |bs| && Threatens(p, bs[r.value])
    ensures r.Some? ==> forall j :: i <= j < r.value ==> !Threatens(p, bs[j])
    ensures r.None? <==> forall j :: i <= j < |bs| ==> !Threatens(p, bs[j])
  {
    if i == |bs| then None
    else if Threatens(p, bs[i]) then Some(i)
    else FirstThreat(p, bs, i + 1)
  }

  /** avoidBullets: no action when nothing threatens; otherwise the first
      threatening bullet alone decides, by a sidestep across its line, which
      may itself be none. */
  method AvoidBullets(grid: Grid, player: Player, bullets: seq<Bullet>) returns (r: Option<PlayerAction>)
    ensures FirstThreat(player, bullets, 0).None? ==> r.None?
    ensures FirstThreat(player, bullets, 0).Some? ==>
      r == Sidestep(grid, player, DodgeDirs(bullets[FirstThreat(player, bullets, 0).value]))
  {
    var i := 0;
    while i < |bullets|
      invariant 0 <= i <= |bullets|
      invariant FirstThreat(player, bullets, i) == FirstThreat(player, bullets, 0)
    {
      var b := bullets[i];
      if b.ownerId == player.id {
        i := i + 1;
        continue;
      }
      var x, y := player.x, player.y;
      if b.direction == Up {
        if b.x == x && b.y > y && b.y - y <= DangerDist {
          r := TrySidestep(grid, player, [Left, Right]);
          return;
        }
      } else if b.direction == Down {
        if b.x == x && y > b.y && y - b.y <= DangerDist {
          r := TrySidestep(grid, player, [Left, Right]);
          return;
        }
      } else if b.direction == Left {
        if b.y == y && b.x > x && b.x - x <= DangerDist {
          r := TrySidestep(grid, player, [Up, Down]);
          return;
        }
      } else if b.direction == Right {
        if b.y == y && x > b.x && x - b.x <= DangerDist {
          r := TrySidestep(grid, player, [Up, Down]);
          return;
        }
      }
      i := i + 1;
    }
    return None;
  }

  /** A dodge never moves along the bullet's line: a move it proposes goes
      sideways to the bullet and onto a cell the bot may enter. */
  lemma DodgeIsSideways(grid: Grid, p: Player, b: Bullet, d: int)
    requires Sidestep(grid, p, DodgeDirs(b)) == Some(Move(Some(d)))
    ensures Movable(grid, p, d)
    ensures (b.direction == Up || b.direction == Down) ==> d == Left || d == Right
    ensures !(b.direction == Up || b.direction == Down) ==> d == Up || d == Down
  {
    SidestepChoice(grid, p, DodgeDirs(b));
  }
}
