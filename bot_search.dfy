/** The bot's path search: a first-in first-out queue of cells, a cost map and
    a parent map, as in findPathAStar and reconstructPath. The string keys
    "x,y" of the search's maps are cells here; distinct cells always have distinct
    keys. */
module BotSearch {
  import opened GameTypes
  import opened BotGrid

  /** A walk from `start` to `goal` through neighbouring cells, each cell after
      the first one the bot may enter. */
  predicate ValidPath(grid: Grid, start: Cell, goal: Cell, p: seq<Cell>) {
    && |p| >= 1 && p[0] == start && p[|p| - 1] == goal
    && forall i :: 0 <= i < |p| - 1 ==> WalkStep(grid, p, i)
  }

  /** Entry i + 1 of the walk neighbours entry i and may be entered. */
  predicate WalkStep(grid: Grid, p: seq<Cell>, i: nat)
    requires i + 1 < |p|
  {
    Adjacent(p[i], p[i + 1]) && CanMove(grid, p[i + 1].x, p[i + 1].y)
  }

  /** Every cell of the map, by rows. */
  ghost function Cells(grid: Grid): set<Cell> {
    set y, x | 0 <= y < |grid| && 0 <= x < |grid[y]| :: Cell(x, y)
  }

  /** The parent map is a tree rooted at `start`: every other cell with a cost
      has a parent, an enterable neighbour relation to it, and a cost one more
      than the parent's. */
  ghost predicate ParentsOk(grid: Grid, start: Cell, cameFrom: map<Cell, Cell>, g: map<Cell, nat>) {
    && start in g && g[start] == 0 && start !in cameFrom
    && (forall c :: c in g && c != start ==> c in cameFrom)
    && (forall c {:trigger cameFrom[c]} :: c in cameFrom ==>
          && c in g && cameFrom[c] in g && g[c] == g[cameFrom[c]] + 1
          && Adjacent(cameFrom[c], c) && CanMove(grid, c.x, c.y))
  }

  /** The queue holds distinct cells with costs, in non-decreasing cost order,
      all between `level` and `level + 1`; no cost exceeds `level + 1`. */
  ghost predicate QueueOk(open: seq<Cell>, g: map<Cell, nat>, level: nat) {
    && (forall i :: 0 <= i < |open| ==> open[i] in g && level <= g[open[i]] <= level + 1)
    && (forall i, j :: 0 <= i < j < |open| ==> open[i] != open[j] && g[open[i]] <= g[open[j]])
    && (forall c :: c in g ==> g[c] <= level + 1)
  }

  /** Every enterable neighbour of `c` has a cost. */
  ghost predicate Closed(grid: Grid, c: Cell, g: map<Cell, nat>) {
    forall d :: 0 <= d < 4 && CanMove(grid, NextPos(c.x, c.y, d).x, NextPos(c.x, c.y, d).y) ==>
      NextPos(c.x, c.y, d) in g
  }

  ghost predicate SearchInv(grid: Grid, start: Cell, goal: Cell, open: seq<Cell>,
                            cameFrom: map<Cell, Cell>, g: map<Cell, nat>, level: nat) {
    && ParentsOk(grid, start, cameFrom, g)
    && g.Keys <= Cells(grid) + {start}
    && QueueOk(open, g, level)
    && (forall c :: c in g && c !in open ==> Closed(grid, c, g))
    && (goal in g ==> goal in open)
  }

  /** The cells that may still get a cost. */
  ghost function Unvisited(grid: Grid, start: Cell, g: map<Cell, nat>): nat {
    |Cells(grid) + {start} - g.Keys|
  }

  /** Giving a cost to a cell of the map that had none shrinks Unvisited. */
  lemma RecordShrinks(grid: Grid, start: Cell, g: map<Cell, nat>, n: Cell, g': map<Cell, nat>)
    requires CanMove(grid, n.x, n.y) && n !in g && g'.Keys == g.Keys + {n}
    ensures Unvisited(grid, start, g') == Unvisited(grid, start, g) - 1
  {
    var r := Cells(grid) + {start};
    assert n in Cells(grid);
    assert r - (g.Keys + {n}) == (r - g.Keys) - {n};
  }

  /** findPathAStar. A path it returns is a valid walk from start to goal; when
      it returns none, no valid walk from start to goal exists. Each cell is
      queued at most once, since with a first-in first-out queue and unit steps
      a cell's first cost is never improved on. */
  method FindPathAStar(grid: Grid, start: Cell, goal: Cell) returns (path: Option<seq<Cell>>)
    ensures path.Some? ==> ValidPath(grid, start, goal, path.value)
    ensures path.None? ==> forall p :: !ValidPath(grid, start, goal, p)
  {
    var open := [start];
    var cameFrom: map<Cell, Cell> := map[];
    var g: map<Cell, nat> := map[start := 0];
    ghost var level: nat := 0;
    while |open| > 0
      invariant SearchInv(grid, start, goal, open, cameFrom, g, level)
      decreases 2 * Unvisited(grid, start, g) + |open|
    {
      ghost var measure := 2 * Unvisited(grid, start, g) + |open|;
      var current := open[0];
      DequeueKeepsInv(grid, start, goal, open, cameFrom, g, level);
      open := open[1..];
      if current == goal {
        var p := ReconstructPath(cameFrom, current, grid, start, g);
        return Some(p);
      }
      level := g[current];
      open, cameFrom, g := Expand(grid, current, open, cameFrom, g, start, goal, level, measure);
    }
    assert forall c :: c in g ==> Closed(grid, c, g);
    NoPathOutOfClosedSet(grid, start, goal, g);
    return None;
  }

  /** What holds in the inner loop after directions 0 .. d-1 of `current`. */
  ghost predicate ExpandInv(grid: Grid, start: Cell, goal: Cell, current: Cell, open: seq<Cell>,
                            cameFrom: map<Cell, Cell>, g: map<Cell, nat>, level: nat, d: int) {
    && 0 <= d <= 4
    && ParentsOk(grid, start, cameFrom, g) && g.Keys <= Cells(grid) + {start}
    && current in g && g[current] == level && current !in open && current != goal
    && QueueOk(open, g, level)
    && (forall c :: c in g && c !in open && c != current ==> Closed(grid, c, g))
    && (forall e :: 0 <= e < d && CanMove(grid, NextPos(current.x, current.y, e).x, NextPos(current.x, current.y, e).y) ==>
          NextPos(current.x, current.y, e) in g)
    && (goal in g ==> goal in open)
  }

  /** Queuing a neighbour without a cost keeps the inner-loop invariant. */
  lemma PushKeepsInv(grid: Grid, start: Cell, goal: Cell, current: Cell, open: seq<Cell>,
                     cameFrom: map<Cell, Cell>, g: map<Cell, nat>, level: nat, d: int, n: Cell, v: nat,
                     open': seq<Cell>, cameFrom': map<Cell, Cell>, g': map<Cell, nat>)
    requires ExpandInv(grid, start, goal, current, open, cameFrom, g, level, d) && d < 4
    requires n == NextPos(current.x, current.y, d) && CanMove(grid, n.x, n.y) && n !in g
    requires v == level + 1 && open' == open + [n] && cameFrom' == cameFrom[n := current] && g' == g[n := v]
    ensures ExpandInv(grid, start, goal, current, open', cameFrom', g', level, d + 1)
  {
    PushKeepsParents(grid, start, current, cameFrom, g, level, n, v);
    PushKeepsQueue(open, g, level, n, v);
    PushKeepsClosed(grid, current, open, g, n, v);
    PushKeepsDone(grid, current, g, d, n, v);
    assert current in g' && current !in open';
  }

  lemma PushKeepsDone(grid: Grid, current: Cell, g: map<Cell, nat>, d: int, n: Cell, v: nat)
    requires forall e :: 0 <= e < d && CanMove(grid, NextPos(current.x, current.y, e).x, NextPos(current.x, current.y, e).y) ==>
      NextPos(current.x, current.y, e) in g
    requires n == NextPos(current.x, current.y, d)
    ensures forall e :: 0 <= e < d + 1 && CanMove(grid, NextPos(current.x, current.y, e).x, NextPos(current.x, current.y, e).y) ==>
      NextPos(current.x, current.y, e) in g[n := v]
  {
  }

  lemma PushKeepsParents(grid: Grid, start: Cell, current: Cell, cameFrom: map<Cell, Cell>,
                         g: map<Cell, nat>, level: nat, n: Cell, v: nat)
    requires ParentsOk(grid, start, cameFrom, g) && current in g && g[current] == level && v == level + 1
    requires Adjacent(current, n) && CanMove(grid, n.x, n.y) && n !in g
    ensures ParentsOk(grid, start, cameFrom[n := current], g[n := v])
  {
  }

  lemma PushKeepsQueue(open: seq<Cell>, g: map<Cell, nat>, level: nat, n: Cell, v: nat)
    requires QueueOk(open, g, level) && n !in g && v == level + 1
    ensures QueueOk(open + [n], g[n := v], level)
  {
  }

  lemma PushKeepsClosed(grid: Grid, current: Cell, open: seq<Cell>, g: map<Cell, nat>, n: Cell, v: nat)
    requires forall c :: c in g && c !in open && c != current ==> Closed(grid, c, g)
    ensures var g' := g[n := v];
      forall c :: c in g' && c !in open + [n] && c != current ==> Closed(grid, c, g')
  {
    var g' := g[n := v];
    forall c | c in g' && c !in open + [n] && c != current ensures Closed(grid, c, g') {
      assert c in g && c !in open;
    }
  }

  /** Passing over a neighbour that cannot be entered or already has a cost
      keeps the inner-loop invariant; such a neighbour's cost is never above
      the one offered. */
  lemma SkipKeepsInv(grid: Grid, start: Cell, goal: Cell, current: Cell, open: seq<Cell>,
                     cameFrom: map<Cell, Cell>, g: map<Cell, nat>, level: nat, d: int)
    requires ExpandInv(grid, start, goal, current, open, cameFrom, g, level, d) && d < 4
    requires var n := NextPos(current.x, current.y, d); !CanMove(grid, n.x, n.y) || n in g
    ensures var n := NextPos(current.x, current.y, d); n in g ==> g[n] <= level + 1
    ensures ExpandInv(grid, start, goal, current, open, cameFrom, g, level, d + 1)
  {
  }

  /** The inner loop over the four directions. */
  method Expand(grid: Grid, current: Cell, open0: seq<Cell>, cameFrom0: map<Cell, Cell>, g0: map<Cell, nat>,
                ghost start: Cell, ghost goal: Cell, ghost level: nat, ghost measure: int)
    returns (open: seq<Cell>, cameFrom: map<Cell, Cell>, g: map<Cell, nat>)
    requires ExpandInv(grid, start, goal, current, open0, cameFrom0, g0, level, 0)
    requires 2 * Unvisited(grid, start, g0) + |open0| < measure
    ensures SearchInv(grid, start, goal, open, cameFrom, g, level)
    ensures 2 * Unvisited(grid, start, g) + |open| < measure
  {
    open, cameFrom, g := open0, cameFrom0, g0;
    var d := 0;
    while d < 4
      invariant 0 <= d <= 4
      invariant ExpandInv(grid, start, goal, current, open, cameFrom, g, level, d)
      invariant 2 * Unvisited(grid, start, g) + |open| < measure
    {
      var open', cameFrom', g' := Relax(grid, current, d, open, cameFrom, g);
      RelaxKeepsInv(grid, start, goal, current, open, cameFrom, g, level, d, open', cameFrom', g');
      open, cameFrom, g := open', cameFrom', g';
      d := d + 1;
    }
    ExpandDone(grid, start, goal, current, open, cameFrom, g, level);
  }

  /** One direction of the inner loop: an enterable neighbour whose recorded
      cost, if any, is above g[current] + 1 gets that cost, `current` as its
      parent, and a place at the end of the queue. */
  function Relaxed(grid: Grid, current: Cell, d: int, open: seq<Cell>, cameFrom: map<Cell, Cell>, g: map<Cell, nat>)
    : (r: (seq<Cell>, map<Cell, Cell>, map<Cell, nat>))
    requires current in g
  {
    var n := NextPos(current.x, current.y, d);
    if CanMove(grid, n.x, n.y) && (n !in g || g[current] + 1 < g[n])
    then (open + [n], cameFrom[n := current], g[n := g[current] + 1])
    else (open, cameFrom, g)
  }

  /** The statements of one direction of the inner loop. */
  method Relax(grid: Grid, current: Cell, d: int, open0: seq<Cell>, cameFrom0: map<Cell, Cell>, g0: map<Cell, nat>)
    returns (open: seq<Cell>, cameFrom: map<Cell, Cell>, g: map<Cell, nat>)
    requires current in g0
    ensures (open, cameFrom, g) == Relaxed(grid, current, d, open0, cameFrom0, g0)
  {
    open, cameFrom, g := open0, cameFrom0, g0;
    var n := NextPos(current.x, current.y, d);
    if !CanMove(grid, n.x, n.y) {
      return;
    }
    var gScore := g[current] + 1;
    if n !in g || gScore < g[n] {
      cameFrom := cameFrom[n := current];
      g := g[n := gScore];
      open := open + [n];
    }
  }

  /** One direction keeps the inner-loop invariant and never raises the
      termination measure. Only a neighbour without a cost ever qualifies,
      and then one more cell of the map has a cost. */
  lemma RelaxKeepsInv(grid: Grid, start: Cell, goal: Cell, current: Cell, open: seq<Cell>,
                      cameFrom: map<Cell, Cell>, g: map<Cell, nat>, level: nat, d: int,
                      open': seq<Cell>, cameFrom': map<Cell, Cell>, g': map<Cell, nat>)
    requires ExpandInv(grid, start, goal, current, open, cameFrom, g, level, d) && d < 4
    requires (open', cameFrom', g') == Relaxed(grid, current, d, open, cameFrom, g)
    ensures ExpandInv(grid, start, goal, current, open', cameFrom', g', level, d + 1)
    ensures 2 * Unvisited(grid, start, g') + |open'| <= 2 * Unvisited(grid, start, g) + |open|
  {
    var n := NextPos(current.x, current.y, d);
    if CanMove(grid, n.x, n.y) && (n !in g || g[current] + 1 < g[n]) {
      CostsBounded(g, level, n);
      var v := g[current] + 1;
      PushKeepsInv(grid, start, goal, current, open, cameFrom, g, level, d, n, v, open', cameFrom', g');
      RecordShrinks(grid, start, g, n, g');
    } else {
      SkipKeepsInv(grid, start, goal, current, open, cameFrom, g, level, d);
    }
  }

  /** No recorded cost exceeds level + 1, so the cost offered through
      `current` never improves a recorded one. */
  lemma CostsBounded(g: map<Cell, nat>, level: nat, n: Cell)
    requires forall c :: c in g ==> g[c] <= level + 1
    ensures n in g ==> !(level + 1 < g[n])
  {
  }

  /** After all four directions `current` is closed, and off the queue. */
  lemma ExpandDone(grid: Grid, start: Cell, goal: Cell, current: Cell, open: seq<Cell>,
                   cameFrom: map<Cell, Cell>, g: map<Cell, nat>, level: nat)
    requires ExpandInv(grid, start, goal, current, open, cameFrom, g, level, 4)
    ensures SearchInv(grid, start, goal, open, cameFrom, g, level)
  {
    assert Closed(grid, current, g);
  }

  /** Taking the head off the queue: unless it is the goal, the inner loop may
      start on it with its cost as the new level. */
  lemma DequeueKeepsInv(grid: Grid, start: Cell, goal: Cell, open: seq<Cell>,
                        cameFrom: map<Cell, Cell>, g: map<Cell, nat>, level: nat)
    requires SearchInv(grid, start, goal, open, cameFrom, g, level) && |open| > 0
    ensures open[0] in g && open[0] !in open[1..]
    ensures open[0] != goal ==>
      ExpandInv(grid, start, goal, open[0], open[1..], cameFrom, g, g[open[0]], 0)
  {
    var current := open[0];
    assert forall i :: 0 <= i < |open| - 1 ==> open[1..][i] == open[i + 1];
    if current != goal {
      assert QueueOk(open[1..], g, g[current]);
    }
  }

  /** A cost map closed under enterable neighbours that holds `start` but not
      `goal` rules out every walk from start to goal. */
  lemma NoPathOutOfClosedSet(grid: Grid, start: Cell, goal: Cell, g: map<Cell, nat>)
    requires start in g && goal !in g
    requires forall c :: c in g ==> Closed(grid, c, g)
    ensures forall p :: !ValidPath(grid, start, goal, p)
  {
    forall p: seq<Cell> | ValidPath(grid, start, goal, p) ensures false {
      var i := 0;
      while i < |p| - 1
        invariant 0 <= i < |p| && p[i] in g
      {
        assert WalkStep(grid, p, i);
        var d := DirectionTo(p[i].x, p[i].y, p[i + 1].x, p[i + 1].y);
        assert NextPos(p[i].x, p[i].y, d) == p[i + 1];
        i := i + 1;
      }
    }
  }

  /** reconstructPath: follows parents back to the start, prepending each. The
      walk it builds is valid and has one cell more than the recorded cost. */
  method ReconstructPath(cameFrom: map<Cell, Cell>, current: Cell, ghost grid: Grid, ghost start: Cell,
                         ghost g: map<Cell, nat>) returns (path: seq<Cell>)
    requires ParentsOk(grid, start, cameFrom, g) && current in g
    ensures ValidPath(grid, start, current, path)
    ensures |path| == g[current] + 1
  {
    var cur := current;
    path := [cur];
    while cur in cameFrom
      invariant cur in g && |path| + g[cur] == g[current] + 1
      invariant ValidPath(grid, cur, current, path)
      decreases g[cur]
    {
      var parent := cameFrom[cur];
      assert parent in g && g[cur] == g[parent] + 1 && Adjacent(parent, cur) && CanMove(grid, cur.x, cur.y);
      PrependStep(grid, parent, cur, current, path);
      path := [parent] + path;
      cur := parent;
    }
  }

  /** A walk from `cur` extends backwards by a neighbour `cur` may be entered
      from. */
  lemma PrependStep(grid: Grid, parent: Cell, cur: Cell, goal: Cell, path: seq<Cell>)
    requires ValidPath(grid, cur, goal, path)
    requires Adjacent(parent, cur) && CanMove(grid, cur.x, cur.y)
    ensures ValidPath(grid, parent, goal, [parent] + path)
  {
    var p := [parent] + path;
    assert WalkStep(grid, p, 0);
    forall i | 1 <= i < |p| - 1 ensures WalkStep(grid, p, i) {
      assert WalkStep(grid, path, i - 1);
      assert p[i] == path[i - 1] && p[i + 1] == path[i];
    }
  }
}
