/** The bot's memory between decisions, and the stuck detector that updates
    it on every decision. */
module BotState {
  import opened GameTypes

  const StuckLimit := 2

  /** The stuck detector's part of the memory. */
  datatype Tracker = Tracker(lastPos: Option<Cell>, stuckCounter: nat, target: Option<Cell>)

  /** checkIfStuck as a value: the first call only records the position and
      then counts like a call at the same cell; a call at the recorded cell
      counts one more, and a count above 2 drops the target and restarts the
      count; a call elsewhere records the new cell and restarts the count. */
  function StuckStep(t: Tracker, at: Cell): (r: Tracker)
    ensures r.lastPos == Some(at)
  {
    var last := if t.lastPos.None? then at else t.lastPos.value;
    if at == last then
      if t.stuckCounter + 1 > StuckLimit then Tracker(Some(last), 0, None)
      else Tracker(Some(last), t.stuckCounter + 1, t.target)
    else Tracker(Some(at), 0, t.target)
  }

  /** The counter never exceeds 2, a position is always recorded afterwards,
      and the target is either kept or dropped, never replaced. */
  lemma StuckStepBounds(t: Tracker, at: Cell)
    requires t.stuckCounter <= StuckLimit
    ensures var r := StuckStep(t, at);
      && r.stuckCounter <= StuckLimit && r.lastPos == Some(at)
      && (r.target == t.target || r.target.None?)
      && (r.target.None? && t.target.Some? ==> r.stuckCounter == 0)
  {
  }

  /** Four calls in a row at the same cell always drop the target, whatever
      the memory held before. */
  lemma FourCallsDropTarget(t: Tracker, at: Cell)
    requires t.stuckCounter <= StuckLimit
    ensures StuckStep(StuckStep(StuckStep(StuckStep(t, at), at), at), at).target.None?
  {
    var t1 := StuckStep(t, at);
    var t2 := StuckStep(t1, at);
    var t3 := StuckStep(t2, at);
    StuckStepBounds(t, at);
    StuckStepBounds(t1, at);
    StuckStepBounds(t2, at);
  }

  /** A call at a new cell resets the count, so a moving bot keeps its target. */
  lemma MovingKeepsTarget(t: Tracker, at: Cell)
    requires t.lastPos.Some? && t.lastPos.value != at
    ensures StuckStep(t, at) == Tracker(Some(at), 0, t.target)
  {
  }

  /** The memory object of the bot. Only the stuck detector is part of this
      model; the explored set and the safe-mode flag are kept as fields and
      left untouched by it. */
  class BotMemory {
    var explored: set<Cell>
    var lastPos: Option<Cell>
    var stuckCounter: nat
    var target: Option<Cell>
    var safeMode: bool

    ghost predicate Valid()
      reads this
    {
      stuckCounter <= StuckLimit
    }

    function Tracked(): (t: Tracker)
      reads this
      ensures t.lastPos == lastPos && t.stuckCounter == stuckCounter && t.target == target
    {
      Tracker(lastPos, stuckCounter, target)
    }

    constructor ()
      ensures Valid()
      ensures explored == {} && lastPos.None? && stuckCounter == 0 && target.None? && !safeMode
    {
      explored := {};
      lastPos := None;
      stuckCounter := 0;
      target := None;
      safeMode := false;
    }

    /** checkIfStuck: the detector state moves by StuckStep; nothing else
        changes. */
    method CheckIfStuck(x: int, y: int)
      requires Valid()
      modifies this
      ensures Valid()
      ensures Tracked() == StuckStep(old(Tracked()), Cell(x, y))
      ensures explored == old(explored) && safeMode == old(safeMode)
    {
      if lastPos.None? {
        lastPos := Some(Cell(x, y));
      }
      if x == lastPos.value.x && y == lastPos.value.y {
        stuckCounter := stuckCounter + 1;
        if stuckCounter > StuckLimit {
          target := None;
          stuckCounter := 0;
        }
      } else {
        lastPos := Some(Cell(x, y));
        stuckCounter := 0;
      }
    }
  }
}
