/** The authoritative room engine: one room's status, roster, bullets and tick
    counter, changed by joins, leaves, player actions and ticks. */
module Engine {
  import opened GameTypes
  import opened MapGen
  import opened BulletPhysics

  const MaxBulletsPerOwner := 3
  const StartHealth := 100
  const Palette: seq<string> := ["#ff4d4d", "#4dff4d", "#4d4dff", "#ffff4d"]

  /** The model needs room for the four spawn points inside the border. */
  predicate ValidConfig(c: Config) { c.mapWidth >= 3 && c.mapHeight >= 3 }

  ghost predicate DistinctIds(ps: seq<Player>) {
    forall i, j :: 0 <= i < j < |ps| ==> ps[i].id != ps[j].id
  }

  /** A player stands on a floor cell and is alive exactly while its health
      is positive. */
  ghost predicate PlayerOn(grid: Grid, w: int, h: int, p: Player) {
    Shaped(grid, w, h) && IsFloor(grid, w, h, p.x, p.y) && (p.isAlive <==> p.health > 0)
  }

  /** A bullet sits on a floor cell with range counter below 3. */
  ghost predicate BulletOn(grid: Grid, w: int, h: int, b: Bullet) {
    Shaped(grid, w, h) && IsFloor(grid, w, h, b.x, b.y) && 0 <= b.rangeCounter < MaxDistance
  }

  /** Distinct ids, every player placed as `PlayerOn` says. */
  ghost predicate RosterOk(grid: Grid, w: int, h: int, ps: seq<Player>) {
    DistinctIds(ps) && forall k :: 0 <= k < |ps| ==> PlayerOn(grid, w, h, ps[k])
  }

  /** Every bullet placed as `BulletOn` says, at most 3 per owner. */
  ghost predicate ArsenalOk(grid: Grid, w: int, h: int, bs: seq<Bullet>) {
    && (forall k :: 0 <= k < |bs| ==> BulletOn(grid, w, h, bs[k]))
    && (forall owner :: CountOwned(bs, owner) <= MaxBulletsPerOwner)
  }

  /** Changing one player in place, keeping its id, keeps the roster sound. */
  lemma ReplaceKeepsRoster(grid: Grid, w: int, h: int, ps: seq<Player>, k: nat, q: Player)
    requires RosterOk(grid, w, h, ps) && k < |ps| && q.id == ps[k].id && PlayerOn(grid, w, h, q)
    ensures RosterOk(grid, w, h, ps[k := q])
  {
    assert forall j :: 0 <= j < |ps| ==> ps[k := q][j].id == ps[j].id;
  }

  /** Appending a player with a new id keeps the roster sound. */
  lemma AppendKeepsRoster(grid: Grid, w: int, h: int, ps: seq<Player>, q: Player)
    requires RosterOk(grid, w, h, ps) && IndexOf(ps, q.id).None? && PlayerOn(grid, w, h, q)
    ensures RosterOk(grid, w, h, ps + [q])
  {
  }

  /** The bullet update keeps the roster and the bullets sound, and keeps the
      roster's length. */
  lemma StepKeepsRoom(grid: Grid, w: int, h: int, bs: seq<Bullet>, ps: seq<Player>)
    requires Shaped(grid, w, h) && RosterOk(grid, w, h, ps) && ArsenalOk(grid, w, h, bs)
    ensures |StepBullets(grid, w, h, bs, ps).1| == |ps|
    ensures RosterOk(grid, w, h, StepBullets(grid, w, h, bs, ps).1)
    ensures ArsenalOk(grid, w, h, StepBullets(grid, w, h, bs, ps).0)
  {
    StepBulletsSurvivors(grid, w, h, bs, ps);
    StepBulletsPlayers(grid, w, h, bs, ps);
    var ps' := StepBullets(grid, w, h, bs, ps).1;
    forall a, c | 0 <= a < c < |ps'| ensures ps'[a].id != ps'[c].id {
      assert SamePlayerBut(ps[a], ps'[a]) && SamePlayerBut(ps[c], ps'[c]);
    }
    forall a | 0 <= a < |ps'| ensures PlayerOn(grid, w, h, ps'[a]) {
      assert SamePlayerBut(ps[a], ps'[a]);
    }
    var bs' := StepBullets(grid, w, h, bs, ps).0;
    forall k | 0 <= k < |bs'| ensures BulletOn(grid, w, h, bs'[k]) {
      assert bs'[k] in bs';
      var j :| 0 <= j < |bs| && bs'[k] == Advance(bs[j]);
      assert BulletOn(grid, w, h, bs[j]);
    }
  }

  /** Map.get on the roster: the position of the entry with this id. */
  function IndexOf(ps: seq<Player>, id: string): (r: Option<nat>)
    ensures r.Some? ==> r.value < |ps| && ps[r.value].id == id
    ensures r.None? <==> forall k :: 0 <= k < |ps| ==> ps[k].id != id
  {
    if |ps| == 0 then None
    else if ps[0].id == id then Some(0)
    else match IndexOf(ps[1..], id)
      case None => None
      case Some(k) => Some(k + 1)
  }

  /** Map.delete on the roster: every entry with this id goes, the others keep
      their order. */
  function RemoveId(ps: seq<Player>, id: string): (r: seq<Player>)
    ensures |r| <= |ps|
    ensures forall q :: q in r <==> q in ps && q.id != id
    ensures DistinctIds(ps) ==> DistinctIds(r)
    ensures IndexOf(ps, id).None? ==> r == ps
    ensures DistinctIds(ps) && IndexOf(ps, id).Some? ==>
      r == ps[..IndexOf(ps, id).value] + ps[IndexOf(ps, id).value + 1..]
  {
    if |ps| == 0 then []
    else
      var rest := RemoveId(ps[1..], id);
      var r := (if ps[0].id == id then [] else [ps[0]]) + rest;
      RemoveIdCons(ps, id, rest, r);
      r
  }

  /** One step of RemoveId: what holds of the removal from the rest of the
      roster holds of the removal from the whole roster. */
  lemma RemoveIdCons(ps: seq<Player>, id: string, rest: seq<Player>, r: seq<Player>)
    requires |ps| > 0 && r == (if ps[0].id == id then [] else [ps[0]]) + rest
    requires forall q :: q in rest <==> q in ps[1..] && q.id != id
    requires DistinctIds(ps[1..]) ==> DistinctIds(rest)
    requires IndexOf(ps[1..], id).None? ==> rest == ps[1..]
    requires DistinctIds(ps[1..]) && IndexOf(ps[1..], id).Some? ==>
      rest == ps[1..][..IndexOf(ps[1..], id).value] + ps[1..][IndexOf(ps[1..], id).value + 1..]
    ensures forall q :: q in r <==> q in ps && q.id != id
    ensures DistinctIds(ps) ==> DistinctIds(r)
    ensures IndexOf(ps, id).None? ==> r == ps
    ensures DistinctIds(ps) && IndexOf(ps, id).Some? ==>
      r == ps[..IndexOf(ps, id).value] + ps[IndexOf(ps, id).value + 1..]
  {
    RemoveIdConsMembers(ps, id, rest, r);
    RemoveIdConsDistinct(ps, id, rest, r);
    RemoveIdConsOrder(ps, id, rest, r);
  }

  /** One step of RemoveId keeps exactly the entries with other ids. */
  lemma RemoveIdConsMembers(ps: seq<Player>, id: string, rest: seq<Player>, r: seq<Player>)
    requires |ps| > 0 && r == (if ps[0].id == id then [] else [ps[0]]) + rest
    requires forall q :: q in rest <==> q in ps[1..] && q.id != id
    requires IndexOf(ps[1..], id).None? ==> rest == ps[1..]
    ensures forall q :: q in r <==> q in ps && q.id != id
    ensures IndexOf(ps, id).None? ==> r == ps
  {
    assert ps == [ps[0]] + ps[1..];
    if IndexOf(ps, id).None? {
      assert IndexOf(ps[1..], id).None? by {
        forall k | 0 <= k < |ps[1..]| ensures ps[1..][k].id != id {
          assert ps[1..][k] == ps[k + 1];
        }
      }
    }
  }

  /** One step of RemoveId keeps ids distinct. */
  lemma RemoveIdConsDistinct(ps: seq<Player>, id: string, rest: seq<Player>, r: seq<Player>)
    requires |ps| > 0 && r == (if ps[0].id == id then [] else [ps[0]]) + rest
    requires forall q :: q in rest ==> q in ps[1..]
    requires DistinctIds(ps[1..]) ==> DistinctIds(rest)
    ensures DistinctIds(ps) ==> DistinctIds(r)
  {
    if DistinctIds(ps) {
      TailDistinct(ps);
      if ps[0].id != id {
        FrontStaysDistinct(ps, rest);
      }
    }
  }

  /** One step of RemoveId: with distinct ids, the entry with the id is cut
      out and the others keep their order. */
  lemma RemoveIdConsOrder(ps: seq<Player>, id: string, rest: seq<Player>, r: seq<Player>)
    requires |ps| > 0 && r == (if ps[0].id == id then [] else [ps[0]]) + rest
    requires IndexOf(ps[1..], id).None? ==> rest == ps[1..]
    requires DistinctIds(ps[1..]) && IndexOf(ps[1..], id).Some? ==>
      rest == ps[1..][..IndexOf(ps[1..], id).value] + ps[1..][IndexOf(ps[1..], id).value + 1..]
    ensures DistinctIds(ps) && IndexOf(ps, id).Some? ==>
      r == ps[..IndexOf(ps, id).value] + ps[IndexOf(ps, id).value + 1..]
  {
    if DistinctIds(ps) && IndexOf(ps, id).Some? {
      TailDistinct(ps);
      if ps[0].id == id {
        assert IndexOf(ps[1..], id).None?;
      } else {
        var k := IndexOf(ps[1..], id).value;
        assert ps[..k + 1] == [ps[0]] + ps[1..][..k];
        assert ps[k + 2..] == ps[1..][k + 1..];
      }
    }
  }

  /** The tail of a roster with distinct ids has distinct ids, none of them
      the head's. */
  lemma TailDistinct(ps: seq<Player>)
    requires |ps| > 0 && DistinctIds(ps)
    ensures DistinctIds(ps[1..])
    ensures forall k :: 0 <= k < |ps[1..]| ==> ps[1..][k].id != ps[0].id
  {
    forall i, j | 0 <= i < j < |ps| - 1 ensures ps[1..][i].id != ps[1..][j].id {
      assert ps[1..][i] == ps[i + 1] && ps[1..][j] == ps[j + 1];
    }
    forall k | 0 <= k < |ps[1..]| ensures ps[1..][k].id != ps[0].id {
      assert ps[1..][k] == ps[k + 1];
    }
  }

  /** Keeping the head in front of a distinct selection of the tail keeps ids
      distinct. */
  lemma FrontStaysDistinct(ps: seq<Player>, rest: seq<Player>)
    requires |ps| > 0 && DistinctIds(rest)
    requires forall k :: 0 <= k < |ps[1..]| ==> ps[1..][k].id != ps[0].id
    requires forall q :: q in rest ==> q in ps[1..]
    ensures DistinctIds([ps[0]] + rest)
  {
    forall j | 0 <= j < |rest| ensures ps[0].id != rest[j].id {
      assert rest[j] in ps[1..];
    }
    var r := [ps[0]] + rest;
    forall i, j | 0 <= i < j < |r| ensures r[i].id != r[j].id {
      if i > 0 { assert r[i] == rest[i - 1] && r[j] == rest[j - 1]; }
      else { assert r[j] == rest[j - 1]; }
    }
  }

  /** The player an action is for, when that player exists and is alive. */
  function Actor(ps: seq<Player>, id: string): (r: Option<nat>)
    ensures r.Some? ==> r.value < |ps| && ps[r.value].id == id && ps[r.value].isAlive
    ensures r.None? ==> IndexOf(ps, id).None? || !ps[IndexOf(ps, id).value].isAlive
  {
    match IndexOf(ps, id)
    case None => None
    case Some(k) => if ps[k].isAlive then Some(k) else None
  }

  /** movePlayer: step once toward `direction`, turning to it, when the target
      cell is inside the map and not a wall; otherwise nothing changes. */
  function Moved(grid: Grid, w: int, h: int, p: Player, direction: int): (r: Player)
    requires Shaped(grid, w, h)
    ensures r.(x := p.x, y := p.y, direction := p.direction) == p
  {
    var c := Step(p.x, p.y, direction);
    if IsFloor(grid, w, h, c.x, c.y) then p.(x := c.x, y := c.y, direction := direction) else p
  }

  /** For a direction 0..3 a move either shifts the player by exactly one cell
      toward it and turns the player to it, or changes nothing; for any other
      value the player stays, turning to the value when it already stands on a
      floor cell. A player on a floor cell stays on a floor cell. */
  lemma MovedIsStepOrStay(grid: Grid, w: int, h: int, p: Player, d: int)
    requires Shaped(grid, w, h)
    ensures var r := Moved(grid, w, h, p, d);
      && (0 <= d < 4 ==>
            || r == p
            || (r == p.(x := r.x, y := r.y, direction := d) && Cell(r.x, r.y) == Step(p.x, p.y, d)
                && Manhattan(Cell(r.x, r.y), Cell(p.x, p.y)) == 1))
      && (!(0 <= d < 4) ==>
            r.x == p.x && r.y == p.y && (IsFloor(grid, w, h, p.x, p.y) ==> r == p.(direction := d)))
      && (IsFloor(grid, w, h, p.x, p.y) ==> IsFloor(grid, w, h, r.x, r.y))
  {
  }

  /** Decimal digits of a natural number. */
  function Digits(n: nat): (r: string)
    ensures |r| >= 1 && forall c :: c in r ==> '0' <= c <= '9'
  {
    var d := "0123456789"[n % 10];
    if n < 10 then [d] else Digits(n / 10) + [d]
  }

  /** A bullet id: the owner's id, '_', and the clock reading in milliseconds. */
  function BulletId(ownerId: string, clock: nat): (r: string)
    ensures |r| > |ownerId| + 1 && r[..|ownerId| + 1] == ownerId + "_"
  {
    ownerId + "_" + Digits(clock)
  }

  /** spawnBullet: a fourth bullet of the same owner is refused; otherwise a new
      bullet starts on the shooter's cell, facing the shooter's way. */
  function Fired(bs: seq<Bullet>, p: Player, speed: int, damage: int, clock: nat): (r: seq<Bullet>)
    ensures r == bs || (|r| == |bs| + 1 && r[..|bs|] == bs)
  {
    if CountOwned(bs, p.id) >= MaxBulletsPerOwner then bs
    else bs + [Bullet(BulletId(p.id, clock), p.x, p.y, p.direction, speed, p.id, damage, 0)]
  }

  /** Shooting never gives an owner more than 3 live bullets; a refused shot
      leaves the list unchanged, an accepted one appends exactly one bullet at
      the shooter's cell with the shooter's facing, the given damage and range
      counter 0, and no other owner's count changes. */
  lemma FiredKeepsLimit(bs: seq<Bullet>, p: Player, speed: int, damage: int, clock: nat)
    requires forall owner :: CountOwned(bs, owner) <= MaxBulletsPerOwner
    ensures var r := Fired(bs, p, speed, damage, clock);
      && (forall owner :: CountOwned(r, owner) <= MaxBulletsPerOwner)
      && (forall owner :: owner != p.id ==> CountOwned(r, owner) == CountOwned(bs, owner))
      && (CountOwned(bs, p.id) == MaxBulletsPerOwner <==> r == bs)
      && (r != bs ==>
            && |r| == |bs| + 1 && r[..|bs|] == bs
            && var b := r[|bs|];
               b.x == p.x && b.y == p.y && b.direction == p.direction && b.ownerId == p.id
               && b.damage == damage && b.rangeCounter == 0)
  {
    FiredCounts(bs, p, speed, damage, clock);
    if CountOwned(bs, p.id) < MaxBulletsPerOwner {
      var r := Fired(bs, p, speed, damage, clock);
      assert r[..|bs|] == bs;
    }
  }

  /** An accepted shot adds one to the shooter's count and to no other. */
  lemma FiredCounts(bs: seq<Bullet>, p: Player, speed: int, damage: int, clock: nat)
    ensures forall owner ::
      CountOwned(Fired(bs, p, speed, damage, clock), owner) ==
        CountOwned(bs, owner) + (if owner == p.id && CountOwned(bs, p.id) < MaxBulletsPerOwner then 1 else 0)
  {
    if CountOwned(bs, p.id) < MaxBulletsPerOwner {
      var b := Bullet(BulletId(p.id, clock), p.x, p.y, p.direction, speed, p.id, damage, 0);
      forall owner ensures CountOwned(bs + [b], owner) == CountOwned(bs, owner) + (if owner == p.id then 1 else 0) {
        CountOwnedAppend(bs, b, owner);
      }
    }
  }

  /** The inner bullet-against-bullet scan: the first other bullet of another
      owner on bullet i's cell. */
  method FirstCollision(bs: seq<Bullet>, i: nat) returns (r: Option<nat>)
    requires i < |bs|
    ensures r == CollisionFrom(bs, i, 0)
  {
    var j := 0;
    while j < |bs|
      invariant 0 <= j <= |bs|
      invariant CollisionFrom(bs, i, j) == CollisionFrom(bs, i, 0)
    {
      if j != i && bs[j].ownerId != bs[i].ownerId && bs[j].x == bs[i].x && bs[j].y == bs[i].y {
        return Some(j);
      }
      j := j + 1;
    }
    return None;
  }

  /** The inner bullet-against-player scan: the first living non-owner player
      on the bullet's cell, in roster order. */
  method FirstHit(ps: seq<Player>, b: Bullet) returns (r: Option<nat>)
    ensures r == HitFrom(ps, b, 0)
  {
    var k := 0;
    while k < |ps|
      invariant 0 <= k <= |ps|
      invariant HitFrom(ps, b, k) == HitFrom(ps, b, 0)
    {
      if ps[k].isAlive && ps[k].x == b.x && ps[k].y == b.y && ps[k].id != b.ownerId {
        return Some(k);
      }
      k := k + 1;
    }
    return None;
  }

  /** One turn of the outer loop of the bullet update, for bullet i. */
  method BulletTurn(grid: Grid, w: int, h: int, bs: seq<Bullet>, ps: seq<Player>,
                    marked: seq<bool>, pushed: seq<bool>, i: nat)
    returns (bs': seq<Bullet>, ps': seq<Player>, marked': seq<bool>, pushed': seq<bool>)
    requires Shaped(grid, w, h) && |marked| == |bs| && |pushed| == |bs| && i < |bs|
    ensures Pass(bs', ps', marked', pushed') == ProcessBullet(grid, w, h, Pass(bs, ps, marked, pushed), i)
  {
    ps', marked', pushed' := ps, marked, pushed;
    // advance and count range
    var b := Advance(bs[i]);
    bs' := bs[i := b];
    // out of range, out of the map, or into a wall
    if b.rangeCounter >= MaxDistance || !InMap(w, h, b.x, b.y) || grid[b.y][b.x] == Wall {
      return;
    }
    var other := FirstCollision(bs', i);
    if other.Some? {
      marked' := marked[other.value := true];
      return;
    }
    var victim := FirstHit(ps, b);
    if victim.Some? {
      ps' := ps[victim.value := Damage(ps[victim.value], b.damage)];
    } else {
      pushed' := pushed[i := true];
    }
  }

  /** The final filter of the bullet update. */
  method DropFlagged(bs: seq<Bullet>, pushed: seq<bool>, marked: seq<bool>) returns (kept: seq<Bullet>)
    requires |pushed| == |bs| && |marked| == |bs|
    ensures kept == Kept(bs, pushed, marked)
  {
    kept := [];
    var m := 0;
    while m < |bs|
      invariant 0 <= m <= |bs|
      invariant kept == Kept(bs[..m], pushed[..m], marked[..m])
    {
      assert bs[..m + 1][..m] == bs[..m] && pushed[..m + 1][..m] == pushed[..m] && marked[..m + 1][..m] == marked[..m];
      if pushed[m] && !marked[m] {
        kept := kept + [bs[m]];
      }
      m := m + 1;
    }
    assert bs[..m] == bs && pushed[..m] == pushed && marked[..m] == marked;
  }


  /** The serialisable copy of a room. In the model every component is a
      value, so a snapshot can never be changed by later updates of the room. */
  datatype Snapshot = Snapshot(
    id: string,
    status: Status,
    players: seq<Player>,
    grid: Grid,
    bullets: seq<Bullet>,
    tickCount: nat,
    maxPlayers: nat)

  class GameEngine {
    const id: string
    const config: Config
    const grid: Grid
    /** How many of the random draws the map generator consumed. */
    ghost const drawsUsed: nat
    var status: Status
    /** The roster in insertion order. */
    var players: seq<Player>
    var bullets: seq<Bullet>
    var tickCount: nat
    /** Whether the tick timer is set. */
    var loopActive: bool

    function W(): int { config.mapWidth }
    function H(): int { config.mapHeight }

    /** The room invariant: a generated map, at most maxPlayers players with
        distinct ids standing on floor cells, alive exactly while their health
        is positive; bullets on floor cells with range counter below 3, at most
        3 per owner; and a running loop only while playing. */
    ghost predicate Valid()
      reads this
    {
      && ValidConfig(config)
      && GeneratedShape(grid, W(), H())
      && |players| <= config.maxPlayers
      && RosterOk(grid, W(), H(), players)
      && ArsenalOk(grid, W(), H(), bullets)
      && (loopActive ==> status == Playing)
    }

    /** A new room: an empty roster, no bullets, status waiting, and a map made
        by the generator from the random draws `draws`. */
    constructor (id: string, config: Config, draws: seq<Cell>)
      requires ValidConfig(config)
      requires CandidatesInRange(config.mapWidth, config.mapHeight, draws)
      ensures Valid()
      ensures this.id == id && this.config == config
      ensures status == Waiting && players == [] && bullets == [] && tickCount == 0 && !loopActive
      ensures |InteriorWalls(grid, config.mapWidth, config.mapHeight)| <= Attempts(config.randomWallCount)
      ensures drawsUsed <= |draws|
      ensures forall c :: c in InteriorWalls(grid, config.mapWidth, config.mapHeight) ==>
        c in draws[..drawsUsed] && !NearSpawn(config.mapWidth, config.mapHeight, c.x, c.y)
      ensures forall k :: 0 <= k < drawsUsed && !NearSpawn(config.mapWidth, config.mapHeight, draws[k].x, draws[k].y) ==>
        draws[k] in InteriorWalls(grid, config.mapWidth, config.mapHeight)
      ensures |InteriorWalls(grid, config.mapWidth, config.mapHeight)| < Attempts(config.randomWallCount) ==> drawsUsed == |draws|
    {
      this.id := id;
      this.config := config;
      var generated, _, used := GenerateMap(config.mapWidth, config.mapHeight, config.randomWallCount, draws);
      grid := generated;
      drawsUsed := used;
      status := Waiting;
      players := [];
      bullets := [];
      tickCount := 0;
      loopActive := false;
    }

    /** A join. A full roster refuses it and nothing changes: the roster never
        exceeds maxPlayers. Otherwise the new player gets spawn slot
        (roster size before the join) mod 4, health 100, score 0, direction 0,
        alive, no last action, and is stored under its id (replacing an entry
        with the same id in place). A waiting room then starts playing; a
        finished room is not refused and stays finished. */
    method AddPlayer(playerId: string, name: string, colorRoll: nat) returns (joined: Option<Player>)
      requires Valid() && colorRoll < |Palette|
      modifies this
      ensures Valid()
      ensures bullets == old(bullets) && tickCount == old(tickCount)
      ensures joined.None? <==> old(|players|) >= config.maxPlayers
      ensures old(CanAcceptPlayers()) ==> joined.Some?
      ensures joined.None? ==> players == old(players) && status == old(status) && loopActive == old(loopActive)
      ensures joined.Some? ==>
        var spawn := SpawnPoints(W(), H())[old(|players|) % 4];
        joined.value == Player(playerId, name, spawn.x, spawn.y, Up, StartHealth, 0, Palette[colorRoll], true, None)
      ensures joined.Some? && old(IndexOf(players, playerId)).None? ==> players == old(players) + [joined.value]
      ensures joined.Some? && old(IndexOf(players, playerId)).Some? ==>
        players == old(players)[old(IndexOf(players, playerId)).value := joined.value]
      ensures joined.Some? && old(status) == Waiting ==> status == Playing && loopActive
      ensures joined.Some? && old(status) != Waiting ==> status == old(status) && loopActive == old(loopActive)
    {
      if |players| >= config.maxPlayers {
        return None;
      }
      var slot := |players| % 4;
      var spawn := SpawnPoints(W(), H())[slot];
      SpawnIsFloor(grid, W(), H(), slot);
      var player := Player(playerId, name, spawn.x, spawn.y, Up, StartHealth, 0, Palette[colorRoll], true, None);
      assert PlayerOn(grid, W(), H(), player);
      match IndexOf(players, playerId) {
        case Some(k) =>
          ReplaceKeepsRoster(grid, W(), H(), players, k, player);
          players := players[k := player];
        case None =>
          AppendKeepsRoster(grid, W(), H(), players, player);
          players := players + [player];
      }
      if |players| >= 1 && status == Waiting {
        StartGame();
      }
      joined := Some(player);
    }

    /** A leave: the entry goes; when the roster becomes empty the room stops. */
    method RemovePlayer(playerId: string)
      requires Valid()
      modifies this
      ensures Valid()
      ensures players == RemoveId(old(players), playerId)
      ensures bullets == old(bullets) && tickCount == old(tickCount)
      ensures players == [] ==> status == Finished && !loopActive
      ensures players != [] ==> status == old(status) && loopActive == old(loopActive)
    {
      players := RemoveId(players, playerId);
      forall k | 0 <= k < |players| ensures PlayerOn(grid, W(), H(), players[k]) {
        assert players[k] in old(players);
      }
      if |players| == 0 {
        StopGame();
      }
    }

    /** Whether the lobby may route a join here: room in the roster and the
        room not finished. */
    function CanAcceptPlayers(): (r: bool)
      reads this
      ensures r <==> |players| < config.maxPlayers && status != Finished
    {
      |players| < config.maxPlayers && status != Finished
    }

    /** Starting a running room does nothing; otherwise the room plays with the
        loop running, whatever its status was. */
    method StartGame()
      requires Valid()
      modifies this
      ensures Valid()
      ensures status == Playing && loopActive
      ensures old(loopActive) ==> status == old(status)
      ensures players == old(players) && bullets == old(bullets) && tickCount == old(tickCount)
    {
      if loopActive {
        return;
      }
      status := Playing;
      loopActive := true;
    }

    /** Always leaves the loop stopped and the room finished; a second call
        changes nothing. */
    method StopGame()
      requires Valid()
      modifies this
      ensures Valid()
      ensures status == Finished && !loopActive
      ensures players == old(players) && bullets == old(bullets) && tickCount == old(tickCount)
    {
      if loopActive {
        loopActive := false;
      }
      status := Finished;
    }

    /** One timer tick: count it, then update the bullets. */
    method Tick()
      requires Valid()
      modifies this
      ensures Valid()
      ensures tickCount == old(tickCount) + 1
      ensures bullets == StepBullets(grid, W(), H(), old(bullets), old(players)).0
      ensures players == StepBullets(grid, W(), H(), old(bullets), old(players)).1
      ensures status == old(status) && loopActive == old(loopActive)
    {
      tickCount := tickCount + 1;
      UpdateBullets();
    }

    /** The bullet update, as the single in-place pass it is. */
    method UpdateBullets()
      requires Valid()
      modifies this
      ensures Valid()
      ensures bullets == StepBullets(grid, W(), H(), old(bullets), old(players)).0
      ensures players == StepBullets(grid, W(), H(), old(bullets), old(players)).1
      ensures status == old(status) && loopActive == old(loopActive) && tickCount == old(tickCount)
    {
      var w, h := W(), H();
      ghost var start := InitialPass(bullets, players);
      var bs, ps := bullets, players;
      var marked := seq(|bs|, _ => false);
      var pushed := seq(|bs|, _ => false);
      var i := 0;
      while i < |bs|
        invariant 0 <= i <= |bs| && |marked| == |bs| && |pushed| == |bs|
        invariant RunPass(grid, w, h, Pass(bs, ps, marked, pushed), i) == RunPass(grid, w, h, start, 0)
        invariant unchanged(this)
      {
        bs, ps, marked, pushed := BulletTurn(grid, w, h, bs, ps, marked, pushed, i);
        i := i + 1;
      }
      assert Pass(bs, ps, marked, pushed) == RunPass(grid, w, h, start, 0);
      var kept := DropFlagged(bs, pushed, marked);
      StepKeepsRoom(grid, w, h, bullets, players);
      bullets := kept;
      players := ps;
    }

    /** An action of an absent or dead player changes nothing. Otherwise the
        action is recorded on the player and then: a move with a direction
        moves as movePlayer does, a rotate with a direction sets the facing to
        it, a shot fires as spawnBullet does, and anything else changes
        nothing more. */
    method HandlePlayerAction(playerId: string, action: PlayerAction, clock: nat)
      requires Valid()
      modifies this
      ensures Valid()
      ensures status == old(status) && loopActive == old(loopActive) && tickCount == old(tickCount)
      ensures old(Actor(players, playerId)).None? ==> players == old(players) && bullets == old(bullets)
      ensures old(Actor(players, playerId)).Some? ==>
        var k := old(Actor(players, playerId)).value;
        var p := old(players[k]).(lastAction := Some(action));
        && |players| == old(|players|)
        && (forall j :: 0 <= j < |players| && j != k ==> players[j] == old(players[j]))
        && match action
           case Move(Some(d)) => players[k] == Moved(grid, W(), H(), p, d) && bullets == old(bullets)
           case Rotate(Some(d)) => players[k] == p.(direction := d) && bullets == old(bullets)
           case Shoot => players[k] == p && bullets == Fired(old(bullets), p, config.bulletSpeed, config.bulletDamage, clock)
           case _ => players[k] == p && bullets == old(bullets)
    {
      var found := Actor(players, playerId);
      if found.None? {
        return;
      }
      var k := found.value;
      ReplaceKeepsRoster(grid, W(), H(), players, k, players[k].(lastAction := Some(action)));
      players := players[k := players[k].(lastAction := Some(action))];
      match action
      case Move(d) =>
        if d.Some? {
          MovePlayer(k, d.value);
        }
      case Rotate(d) =>
        if d.Some? {
          ReplaceKeepsRoster(grid, W(), H(), players, k, players[k].(direction := d.value));
          players := players[k := players[k].(direction := d.value)];
        }
      case Shoot =>
        SpawnBullet(k, clock);
      case Idle =>
    }

    method MovePlayer(k: nat, direction: int)
      requires Valid() && k < |players|
      modifies this
      ensures Valid()
      ensures |players| == old(|players|) && players[k] == Moved(grid, W(), H(), old(players[k]), direction)
      ensures forall j :: 0 <= j < |players| && j != k ==> players[j] == old(players[j])
      ensures status == old(status) && loopActive == old(loopActive) && tickCount == old(tickCount)
      ensures bullets == old(bullets)
    {
      var nx, ny := players[k].x, players[k].y;
      if direction == Up { ny := ny - 1; }
      else if direction == Right { nx := nx + 1; }
      else if direction == Down { ny := ny + 1; }
      else if direction == Left { nx := nx - 1; }
      if nx >= 0 && ny >= 0 && nx < W() && ny < H() && grid[ny][nx] != Wall {
        ReplaceKeepsRoster(grid, W(), H(), players, k, players[k].(x := nx, y := ny, direction := direction));
        players := players[k := players[k].(x := nx, y := ny, direction := direction)];
      }
    }

    method SpawnBullet(k: nat, clock: nat)
      requires Valid() && k < |players|
      modifies this
      ensures Valid()
      ensures players == old(players)
      ensures bullets == Fired(old(bullets), players[k], config.bulletSpeed, config.bulletDamage, clock)
      ensures status == old(status) && loopActive == old(loopActive) && tickCount == old(tickCount)
    {
      var p := players[k];
      if CountOwned(bullets, p.id) >= MaxBulletsPerOwner {
        return;
      }
      var b := Bullet(BulletId(p.id, clock), p.x, p.y, p.direction, config.bulletSpeed, p.id, config.bulletDamage, 0);
      FiredKeepsLimit(bullets, p, config.bulletSpeed, config.bulletDamage, clock);
      assert BulletOn(grid, W(), H(), b);
      bullets := bullets + [b];
    }

    /** The copy handed to clients: it carries the room's invariants, so a
        consumer sees a generated map and players and bullets on its floor. */
    function GetSerializableState(): (s: Snapshot)
      reads this
      requires Valid()
      ensures s.id == id && s.status == status && s.tickCount == tickCount
      ensures s.players == players && s.bullets == bullets && s.grid == grid && s.maxPlayers == config.maxPlayers
      ensures GeneratedShape(s.grid, W(), H())
      ensures |s.players| <= s.maxPlayers && DistinctIds(s.players)
      ensures forall k :: 0 <= k < |s.players| ==> IsFloor(s.grid, W(), H(), s.players[k].x, s.players[k].y)
      ensures forall k :: 0 <= k < |s.bullets| ==> IsFloor(s.grid, W(), H(), s.bullets[k].x, s.bullets[k].y)
      ensures forall owner :: CountOwned(s.bullets, owner) <= MaxBulletsPerOwner
    {
      Snapshot(id, status, players, grid, bullets, tickCount, config.maxPlayers)
    }
  }
}
