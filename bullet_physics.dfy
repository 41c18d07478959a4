/** The per-tick bullet update of the room engine, as pure functions over the
    bullet list and the roster. The update is one pass over the bullet list in
    index order that moves each bullet in place: when bullet i is checked
    against the others, entries before i already hold their moved positions
    (even when they expired) and entries after i still hold their old ones.
    A bullet that meets another is dropped at once; its partner is only
    flagged and is removed by the final filter, so it still runs its own
    checks, including the player hit, when its turn comes. */
module BulletPhysics {
  import opened GameTypes

  /** A bullet travels at most this many cells. */
  const MaxDistance := 3

  /** Bullets in the list shot by `owner`. */
  function CountOwned(bs: seq<Bullet>, owner: string): nat {
    if |bs| == 0 then 0
    else CountOwned(bs[..|bs| - 1], owner) + (if bs[|bs| - 1].ownerId == owner then 1 else 0)
  }

  lemma {:induction false} CountOwnedAppend(bs: seq<Bullet>, b: Bullet, owner: string)
    ensures CountOwned(bs + [b], owner) == CountOwned(bs, owner) + (if b.ownerId == owner then 1 else 0)
  {
    assert (bs + [b])[..|bs|] == bs;
  }

  /** Count one more cell of range and move one cell in the bullet's direction. */
  function Advance(b: Bullet): (r: Bullet)
    ensures r.rangeCounter == b.rangeCounter + 1
    ensures Cell(r.x, r.y) == Step(b.x, b.y, b.direction)
    ensures r.(x := b.x, y := b.y, rangeCounter := b.rangeCounter) == b
  {
    var c := Step(b.x, b.y, b.direction);
    b.(x := c.x, y := c.y, rangeCounter := b.rangeCounter + 1)
  }

  /** The three reasons a moved bullet vanishes without further checks: its
      range is used up, it left the map, or it entered a wall. */
  predicate Expired(grid: Grid, w: int, h: int, b: Bullet)
    requires Shaped(grid, w, h)
  {
    b.rangeCounter >= MaxDistance || !InMap(w, h, b.x, b.y) || grid[b.y][b.x] == Wall
  }

  /** Entry j is another bullet, of another owner, on the cell of entry i. */
  predicate Collides(bs: seq<Bullet>, i: nat, j: nat)
    requires i < |bs| && j < |bs|
  {
    j != i && bs[j].ownerId != bs[i].ownerId && bs[j].x == bs[i].x && bs[j].y == bs[i].y
  }

  /** The first entry at index j or later that collides with entry i. */
  function CollisionFrom(bs: seq<Bullet>, i: nat, j: nat): (r: Option<nat>)
    requires i < |bs| && j <= |bs|
    decreases |bs| - j
    ensures r.Some? ==> j <= r.value < |bs| && Collides(bs, i, r.value)
    ensures r.Some? ==> forall l :: j <= l < r.value ==> !Collides(bs, i, l)
    ensures r.None? <==> forall l :: j <= l < |bs| ==> !Collides(bs, i, l)
  {
    if j == |bs| then None
    else if Collides(bs, i, j) then Some(j)
    else CollisionFrom(bs, i, j + 1)
  }

  /** The bullet strikes this player: a living player, other than its owner,
      on the bullet's cell. */
  predicate Hits(p: Player, b: Bullet) {
    p.isAlive && p.x == b.x && p.y == b.y && p.id != b.ownerId
  }

  /** The first player, in roster order from index k, that the bullet strikes. */
  function HitFrom(ps: seq<Player>, b: Bullet, k: nat): (r: Option<nat>)
    requires k <= |ps|
    decreases |ps| - k
    ensures r.Some? ==> k <= r.value < |ps| && Hits(ps[r.value], b)
    ensures r.Some? ==> forall l :: k <= l < r.value ==> !Hits(ps[l], b)
    ensures r.None? <==> forall l :: k <= l < |ps| ==> !Hits(ps[l], b)
  {
    if k == |ps| then None
    else if Hits(ps[k], b) then Some(k)
    else HitFrom(ps, b, k + 1)
  }

  /** The struck player loses the damage and dies at 0 or below. */
  function Damage(p: Player, amount: int): (r: Player)
    ensures r.health == p.health - amount
    ensures r.isAlive == (p.isAlive && r.health > 0)
    ensures r.(health := p.health, isAlive := p.isAlive) == p
  {
    var hp := p.health - amount;
    p.(health := hp, isAlive := if hp <= 0 then false else p.isAlive)
  }

  /** The state of one pass: the bullet list as it is moved in place, the
      roster, the collision flags and, per index, whether the bullet was
      pushed onto the list of survivors. */
  datatype Pass = Pass(bullets: seq<Bullet>, players: seq<Player>, marked: seq<bool>, pushed: seq<bool>)

  predicate PassShape(p: Pass) {
    |p.marked| == |p.bullets| && |p.pushed| == |p.bullets|
  }

  /** The body of the outer loop for bullet i. */
  function ProcessBullet(grid: Grid, w: int, h: int, p: Pass, i: nat): (r: Pass)
    requires Shaped(grid, w, h) && PassShape(p) && i < |p.bullets|
    ensures PassShape(r) && |r.bullets| == |p.bullets| && |r.players| == |p.players|
  {
    var b := Advance(p.bullets[i]);
    var bs := p.bullets[i := b];
    if Expired(grid, w, h, b) then p.(bullets := bs)
    else match CollisionFrom(bs, i, 0)
      case Some(j) => p.(bullets := bs, marked := p.marked[j := true])
      case None =>
        match HitFrom(p.players, b, 0)
        case Some(k) => p.(bullets := bs, players := p.players[k := Damage(p.players[k], b.damage)])
        case None => p.(bullets := bs, pushed := p.pushed[i := true])
  }

  /** The outer loop from bullet i on. */
  function RunPass(grid: Grid, w: int, h: int, p: Pass, i: nat): (r: Pass)
    requires Shaped(grid, w, h) && PassShape(p) && i <= |p.bullets|
    decreases |p.bullets| - i
    ensures PassShape(r) && |r.bullets| == |p.bullets| && |r.players| == |p.players|
  {
    if i == |p.bullets| then p
    else RunPass(grid, w, h, ProcessBullet(grid, w, h, p, i), i + 1)
  }

  /** The final filter: the pushed bullets that were not flagged, in order. */
  function Kept(bs: seq<Bullet>, pushed: seq<bool>, marked: seq<bool>): (r: seq<Bullet>)
    requires |pushed| == |bs| && |marked| == |bs|
    ensures |r| <= |bs|
  {
    if |bs| == 0 then []
    else
      var n := |bs| - 1;
      Kept(bs[..n], pushed[..n], marked[..n]) + (if pushed[n] && !marked[n] then [bs[n]] else [])
  }

  function InitialPass(bs: seq<Bullet>, ps: seq<Player>): (r: Pass)
    ensures PassShape(r)
  {
    Pass(bs, ps, seq(|bs|, _ => false), seq(|bs|, _ => false))
  }

  /** The whole update: the new bullet list and the new roster. */
  function StepBullets(grid: Grid, w: int, h: int, bs: seq<Bullet>, ps: seq<Player>): (r: (seq<Bullet>, seq<Player>))
    requires Shaped(grid, w, h)
    ensures |r.0| <= |bs| && |r.1| == |ps|
  {
    var p := RunPass(grid, w, h, InitialPass(bs, ps), 0);
    (Kept(p.bullets, p.pushed, p.marked), p.players)
  }

  // ---------------------------------------------------------------------------
  // Properties of the pass

  /** What holds of the pass state before bullet i is processed, relative to
      the bullets `orig` and the roster `ps0` the update started from. */
  ghost predicate PassInv(grid: Grid, w: int, h: int, orig: seq<Bullet>, ps0: seq<Player>, p: Pass, i: nat)
    requires Shaped(grid, w, h)
  {
    && PassShape(p) && |p.bullets| == |orig| && |p.players| == |ps0| && i <= |orig|
    && (forall k :: 0 <= k < i ==> p.bullets[k] == Advance(orig[k]))
    && (forall k :: i <= k < |orig| ==> p.bullets[k] == orig[k])
    && (forall k :: 0 <= k < |orig| && p.pushed[k] ==> k < i && !Expired(grid, w, h, p.bullets[k]))
    && (forall m :: 0 <= m < |ps0| ==> SamePlayerBut(ps0[m], p.players[m]))
  }

  /** `q` is `p` with at most its health and liveness changed: a dead player
      is unchanged, nobody comes back to life, and "alive exactly when health
      is positive" carries over. */
  ghost predicate SamePlayerBut(p: Player, q: Player) {
    && q.(health := p.health, isAlive := p.isAlive) == p
    && (!p.isAlive ==> q == p)
    && (q.isAlive ==> p.isAlive)
    && ((p.isAlive <==> p.health > 0) ==> (q.isAlive <==> q.health > 0))
  }

  /** One bullet's turn keeps the invariant. */
  lemma ProcessBulletKeepsInv(grid: Grid, w: int, h: int, orig: seq<Bullet>, ps0: seq<Player>, p: Pass, i: nat)
    requires Shaped(grid, w, h) && PassInv(grid, w, h, orig, ps0, p, i) && i < |orig|
    ensures PassInv(grid, w, h, orig, ps0, ProcessBullet(grid, w, h, p, i), i + 1)
  {
    var b := Advance(p.bullets[i]);
    var bs := p.bullets[i := b];
    if !Expired(grid, w, h, b) && CollisionFrom(bs, i, 0).None? && HitFrom(p.players, b, 0).Some? {
      var k := HitFrom(p.players, b, 0).value;
      var r := ProcessBullet(grid, w, h, p, i);
      assert r.players == p.players[k := Damage(p.players[k], b.damage)];
      forall m | 0 <= m < |ps0| ensures SamePlayerBut(ps0[m], r.players[m]) {
        assert SamePlayerBut(ps0[m], p.players[m]);
        if m == k {
          assert Hits(p.players[k], b);
        }
      }
    }
  }

  lemma {:induction false} RunPassKeepsInv(grid: Grid, w: int, h: int, orig: seq<Bullet>, ps0: seq<Player>, p: Pass, i: nat)
    requires Shaped(grid, w, h) && PassInv(grid, w, h, orig, ps0, p, i)
    decreases |orig| - i
    ensures PassInv(grid, w, h, orig, ps0, RunPass(grid, w, h, p, i), |orig|)
  {
    if i < |orig| {
      ProcessBulletKeepsInv(grid, w, h, orig, ps0, p, i);
      var next := ProcessBullet(grid, w, h, p, i);
      RunPassKeepsInv(grid, w, h, orig, ps0, next, i + 1);
      assert RunPass(grid, w, h, p, i) == RunPass(grid, w, h, next, i + 1);
    } else {
      assert RunPass(grid, w, h, p, i) == p;
    }
  }

  /** Every kept bullet is one of the pushed entries. */
  lemma {:induction false} KeptFromPushed(bs: seq<Bullet>, pushed: seq<bool>, marked: seq<bool>)
    requires |pushed| == |bs| && |marked| == |bs|
    ensures forall s :: s in Kept(bs, pushed, marked) ==> exists k :: 0 <= k < |bs| && pushed[k] && bs[k] == s
  {
    if |bs| > 0 {
      var n := |bs| - 1;
      KeptFromPushed(bs[..n], pushed[..n], marked[..n]);
      forall s | s in Kept(bs, pushed, marked) ensures exists k :: 0 <= k < |bs| && pushed[k] && bs[k] == s {
        if s in Kept(bs[..n], pushed[..n], marked[..n]) {
          var k :| 0 <= k < n && pushed[..n][k] && bs[..n][k] == s;
          assert pushed[k] && bs[k] == s;
        } else {
          assert pushed[n] && bs[n] == s;
        }
      }
    }
  }

  /** Filtering never raises the number of bullets of an owner. */
  lemma {:induction false} KeptCount(bs: seq<Bullet>, pushed: seq<bool>, marked: seq<bool>, owner: string)
    requires |pushed| == |bs| && |marked| == |bs|
    ensures CountOwned(Kept(bs, pushed, marked), owner) <= CountOwned(bs, owner)
  {
    if |bs| > 0 {
      var n := |bs| - 1;
      KeptCount(bs[..n], pushed[..n], marked[..n], owner);
      var front := Kept(bs[..n], pushed[..n], marked[..n]);
      if pushed[n] && !marked[n] {
        CountOwnedAppend(front, bs[n], owner);
      } else {
        assert front + [] == front;
      }
    }
  }

  /** Two lists whose entries pairwise share their owner count alike. */
  lemma {:induction false} CountOwnedSameOwners(a: seq<Bullet>, b: seq<Bullet>, owner: string)
    requires |a| == |b| && forall k :: 0 <= k < |a| ==> a[k].ownerId == b[k].ownerId
    ensures CountOwned(a, owner) == CountOwned(b, owner)
  {
    if |a| > 0 {
      CountOwnedSameOwners(a[..|a| - 1], b[..|b| - 1], owner);
    }
  }

  /** The bullets the final filter keeps from a completed pass. */
  lemma KeptSurvive(grid: Grid, w: int, h: int, orig: seq<Bullet>, ps0: seq<Player>, p: Pass)
    requires Shaped(grid, w, h) && PassInv(grid, w, h, orig, ps0, p, |orig|)
    ensures forall s :: s in Kept(p.bullets, p.pushed, p.marked) ==>
      && !Expired(grid, w, h, s)
      && exists k :: 0 <= k < |orig| && s == Advance(orig[k])
  {
    KeptFromPushed(p.bullets, p.pushed, p.marked);
    forall s | s in Kept(p.bullets, p.pushed, p.marked)
      ensures !Expired(grid, w, h, s) && exists k :: 0 <= k < |orig| && s == Advance(orig[k])
    {
      var k :| 0 <= k < |p.bullets| && p.pushed[k] && p.bullets[k] == s;
      assert s == Advance(orig[k]);
    }
  }

  /** After an update every surviving bullet is some old bullet moved one cell
      in its direction with one more cell of range counted; it is inside the
      map, on a non-wall cell, and has range counter below 3. The list never
      grows and no owner gains bullets. */
  lemma StepBulletsSurvivors(grid: Grid, w: int, h: int, bs: seq<Bullet>, ps: seq<Player>)
    requires Shaped(grid, w, h)
    ensures |StepBullets(grid, w, h, bs, ps).0| <= |bs|
    ensures forall owner :: CountOwned(StepBullets(grid, w, h, bs, ps).0, owner) <= CountOwned(bs, owner)
    ensures forall s :: s in StepBullets(grid, w, h, bs, ps).0 ==>
      && IsFloor(grid, w, h, s.x, s.y) && s.rangeCounter < MaxDistance
      && exists k :: 0 <= k < |bs| && s == Advance(bs[k])
  {
    var p0 := InitialPass(bs, ps);
    RunPassKeepsInv(grid, w, h, bs, ps, p0, 0);
    var p := RunPass(grid, w, h, p0, 0);
    KeptSurvive(grid, w, h, bs, ps, p);
    forall owner ensures CountOwned(Kept(p.bullets, p.pushed, p.marked), owner) <= CountOwned(bs, owner) {
      KeptCount(p.bullets, p.pushed, p.marked, owner);
      CountOwnedSameOwners(p.bullets, bs, owner);
    }
  }

  /** After an update the roster has the same players in the same order with
      the same everything except health and liveness; a dead player is
      untouched, nobody is revived, and "alive exactly when health is
      positive" is kept. */
  lemma StepBulletsPlayers(grid: Grid, w: int, h: int, bs: seq<Bullet>, ps: seq<Player>)
    requires Shaped(grid, w, h)
    ensures var ps' := StepBullets(grid, w, h, bs, ps).1;
      |ps'| == |ps| && forall m :: 0 <= m < |ps| ==> SamePlayerBut(ps[m], ps'[m])
  {
    RunPassKeepsInv(grid, w, h, bs, ps, InitialPass(bs, ps), 0);
  }

  /** One bullet's turn damages at most one player: either the roster is
      unchanged, or exactly one living non-owner player on the bullet's new
      cell loses exactly the bullet's damage, and then the bullet is not pushed
      onto the survivors. */
  lemma ProcessBulletHitsAtMostOne(grid: Grid, w: int, h: int, p: Pass, i: nat)
    requires Shaped(grid, w, h) && PassShape(p) && i < |p.bullets|
    ensures var r := ProcessBullet(grid, w, h, p, i);
      var b := Advance(p.bullets[i]);
      || r.players == p.players
      || exists k :: 0 <= k < |p.players| && Hits(p.players[k], b)
           && r.players == p.players[k := Damage(p.players[k], b.damage)]
           && r.players[k].health == p.players[k].health - b.damage
           && r.pushed == p.pushed
  {
    var b := Advance(p.bullets[i]);
    var bs := p.bullets[i := b];
    if !Expired(grid, w, h, b) && CollisionFrom(bs, i, 0).None? && HitFrom(p.players, b, 0).Some? {
      var k := HitFrom(p.players, b, 0).value;
      assert Hits(p.players[k], b);
    }
  }

  /** A bullet is dropped for a collision only when a bullet of another owner
      sits on its new cell, and only such a bullet is flagged: bullets of one
      owner never annihilate each other. */
  lemma ProcessBulletFlagsOnlyRivals(grid: Grid, w: int, h: int, p: Pass, i: nat, j: nat)
    requires Shaped(grid, w, h) && PassShape(p) && i < |p.bullets| && j < |p.bullets|
    requires ProcessBullet(grid, w, h, p, i).marked[j] && !p.marked[j]
    ensures var b := Advance(p.bullets[i]);
      j != i && p.bullets[j].ownerId != b.ownerId && p.bullets[j].x == b.x && p.bullets[j].y == b.y
  {
    var b := Advance(p.bullets[i]);
    var bs := p.bullets[i := b];
    assert !Expired(grid, w, h, b) && CollisionFrom(bs, i, 0) == Some(j);
  }

  /** When every bullet has the same owner, no bullet is ever flagged. */
  lemma {:induction false} OneOwnerNeverFlags(grid: Grid, w: int, h: int, p: Pass, i: nat, owner: string)
    requires Shaped(grid, w, h) && PassShape(p) && i <= |p.bullets|
    requires forall k :: 0 <= k < |p.bullets| ==> p.bullets[k].ownerId == owner
    requires forall k :: 0 <= k < |p.marked| ==> !p.marked[k]
    decreases |p.bullets| - i
    ensures forall k :: 0 <= k < |RunPass(grid, w, h, p, i).marked| ==> !RunPass(grid, w, h, p, i).marked[k]
  {
    if i < |p.bullets| {
      var b := Advance(p.bullets[i]);
      var bs := p.bullets[i := b];
      assert b.ownerId == owner;
      assert forall l :: 0 <= l < |bs| ==> bs[l].ownerId == owner;
      assert CollisionFrom(bs, i, 0).None? by {
        assert forall l :: 0 <= l < |bs| ==> !Collides(bs, i, l);
      }
      var next := ProcessBullet(grid, w, h, p, i);
      assert next.bullets == bs && next.marked == p.marked;
      OneOwnerNeverFlags(grid, w, h, next, i + 1, owner);
      assert RunPass(grid, w, h, p, i) == RunPass(grid, w, h, next, i + 1);
    } else {
      assert RunPass(grid, w, h, p, i) == p;
    }
  }

  // ---------------------------------------------------------------------------
  // Order dependence of the single pass

  /** Two turns of the pass over a two-bullet list. */
  lemma RunPassTwo(grid: Grid, w: int, h: int, p: Pass)
    requires Shaped(grid, w, h) && PassShape(p) && |p.bullets| == 2
    ensures RunPass(grid, w, h, p, 0) == ProcessBullet(grid, w, h, ProcessBullet(grid, w, h, p, 0), 1)
  {
    var p1 := ProcessBullet(grid, w, h, p, 0);
    var p2 := ProcessBullet(grid, w, h, p1, 1);
    assert RunPass(grid, w, h, p2, 2) == p2;
    assert RunPass(grid, w, h, p1, 1) == p2;
  }

  /** The final filter over a two-bullet list. */
  lemma KeptTwo(x: Bullet, y: Bullet, px: bool, py: bool, mx: bool, my: bool)
    ensures Kept([x, y], [px, py], [mx, my]) ==
      (if px && !mx then [x] else []) + (if py && !my then [y] else [])
  {
    assert [x, y][..1] == [x] && [px, py][..1] == [px] && [mx, my][..1] == [mx];
    assert Kept([x], [px], [mx]) == Kept([], [], []) + (if px && !mx then [x] else []);
  }

  /** A bullet `a` that runs out of range on the cell where a rival bullet `b`
      arrives still annihilates `b` when `a` comes first in the list: both are
      gone. Listed the other way round, `b` moves first, meets nothing, and
      survives. */
  lemma ExpiredBulletStillAnnihilates(grid: Grid, w: int, h: int, a: Bullet, b: Bullet)
    requires Shaped(grid, w, h)
    requires a.rangeCounter == MaxDistance - 1 && 0 <= a.direction < 4 && a.ownerId != b.ownerId
    requires Cell(Advance(a).x, Advance(a).y) == Cell(Advance(b).x, Advance(b).y)
    requires !Expired(grid, w, h, Advance(b))
    ensures StepBullets(grid, w, h, [a, b], []).0 == []
    ensures StepBullets(grid, w, h, [b, a], []).0 == [Advance(b)]
  {
    var moved := [Advance(a), Advance(b)];
    var p0 := InitialPass([a, b], []);
    var p1 := ProcessBullet(grid, w, h, p0, 0);
    assert p1 == p0.(bullets := [Advance(a), b]);
    assert Collides(moved, 1, 0);
    var p2 := ProcessBullet(grid, w, h, p1, 1);
    assert p2 == p1.(bullets := moved, marked := p1.marked[0 := true]);
    RunPassTwo(grid, w, h, p0);
    assert Kept(moved, p2.pushed, p2.marked) == [];

    var q0 := InitialPass([b, a], []);
    var q1 := ProcessBullet(grid, w, h, q0, 0);
    assert !Collides([Advance(b), a], 0, 1);
    assert CollisionFrom([Advance(b), a], 0, 0).None?;
    assert q1 == q0.(bullets := [Advance(b), a], pushed := q0.pushed[0 := true]);
    var q2 := ProcessBullet(grid, w, h, q1, 1);
    assert q2 == q1.(bullets := [Advance(b), Advance(a)]);
    RunPassTwo(grid, w, h, q0);
    assert q2.pushed == [true, false] && q2.marked == [false, false];
    KeptTwo(Advance(b), Advance(a), true, false, false, false);
  }

  /** A bullet is compared with later bullets before they move. A bullet `a`
      moving onto the cell that a rival bullet `b` is about to leave is dropped
      and `b` is flagged, although after moving the two are on different cells;
      `b`, flagged, is still removed at the end of the pass, but on its own turn
      it still strikes the player `c` it reaches. */
  lemma FlaggedBulletStillStrikes(grid: Grid, w: int, h: int, a: Bullet, b: Bullet, c: Player)
    requires Shaped(grid, w, h)
    requires a.ownerId != b.ownerId && Cell(Advance(a).x, Advance(a).y) == Cell(b.x, b.y)
    requires !Expired(grid, w, h, Advance(a)) && !Expired(grid, w, h, Advance(b))
    requires Cell(Advance(b).x, Advance(b).y) != Cell(b.x, b.y)
    requires Hits(c, Advance(b))
    ensures StepBullets(grid, w, h, [a, b], [c]) == ([], [Damage(c, b.damage)])
  {
    var p0 := InitialPass([a, b], [c]);
    assert Collides([Advance(a), b], 0, 1);
    assert CollisionFrom([Advance(a), b], 0, 0) == Some(1);
    var p1 := ProcessBullet(grid, w, h, p0, 0);
    assert p0.bullets[0 := Advance(a)] == [Advance(a), b];
    assert p1 == p0.(bullets := [Advance(a), b], marked := p0.marked[1 := true]);
    var moved := [Advance(a), Advance(b)];
    assert !Collides(moved, 1, 0);
    assert CollisionFrom(moved, 1, 0).None?;
    assert HitFrom([c], Advance(b), 0) == Some(0);
    var p2 := ProcessBullet(grid, w, h, p1, 1);
    assert p2 == p1.(bullets := moved, players := [Damage(c, b.damage)]);
    RunPassTwo(grid, w, h, p0);
    assert p2.pushed == [false, false] && p2.marked == [false, true];
    KeptTwo(Advance(a), Advance(b), false, false, false, true);
  }
}
