# Auto-tank room engine and smart bot, in Dafny

This project models two parts of the auto-tank multiplayer game.

- The room engine of the server, class `GameEngine`. A room has:
  - a status (waiting, playing, finished);
  - a map of walls and floor, generated once;
  - a roster of players in insertion order;
  - the list of live bullets;
  - a tick counter;
  - whether the tick timer is running.

  Players join, leave and send actions (move, rotate, shoot, idle). Every
  tick moves the bullets. A bullet disappears after its third cell, outside
  the map or in a wall. It annihilates with a rival bullet on its cell, or
  damages one living enemy standing there.
- The grid reasoning of the smart bot client:
  - which cells it may enter;
  - where a step leads and which way to turn toward a cell;
  - its breadth-first "A*" path search and path reconstruction;
  - line of sight;
  - nearest enemy;
  - aiming;
  - sidestepping incoming bullets;
  - its stuck detector.

Modules, following the program's structure:

| module | file | what |
|---|---|---|
| `GameTypes` | game_types.dfy | players, bullets, actions, configuration; the one-cell step shared by moves and bullets |
| `MapGen` | map_gen.dfy | map generation as a loop over an oracle of random draws |
| `BulletPhysics` | bullet_physics.dfy | the per-tick bullet pass as pure functions, with lemmas about what it keeps, drops and damages |
| `Engine` | game_engine.dfy | class `GameEngine`, whose methods change the room in place and keep the room invariant `Valid()` |
| `BotGrid` | bot_grid.dfy | `canMove`, `getNextPos`, `getDirectionTo` |
| `BotSearch` | bot_search.dfy | `findPathAStar` and `reconstructPath` as loop methods over a queue, a cost map and a parent map |
| `BotTactics` | bot_tactics.dfy | line of sight, closest enemy, aiming, sidestep, bullet avoidance |
| `BotState` | bot_memory.dfy | the bot memory as a class, and `checkIfStuck` |

Random values, the clock and the choice of colour are parameters:
- `draws` are the wall positions that `Math.random` would give the map generator;
- `colorRoll` picks the palette entry;
- `clock` is the `Date.now` reading put into a bullet id.

Behaviour of the code that the model keeps as written:
- The bullet-against-bullet test is one pass in index order, on the list that is being moved in place.
  - An earlier entry has already moved, even when it just expired.
  - A later entry has not moved yet.
  - Only the partner bullet is flagged. It still runs its own turn, and it can still hit a player.
  - `BulletPhysics.ExpiredBulletStillAnnihilates` and `BulletPhysics.FlaggedBulletStillStrikes` show that the outcome depends on the order of the list.
- `startGame` ignores the status. It restarts a finished room whose timer is stopped.
- `addPlayer` does not refuse a finished room. Only `canAcceptPlayers` looks at the status.
- A move whose direction is outside 0..3 leaves the player in place but still sets its facing to that value.
- There is no win condition. `bulletSpeed` is copied into bullets and never read.
- The escape test inside map generation (`placed > attempts * 5`) can never hold, because the loop runs only while `placed < attempts`.
  - The loop leaves only once `placed` reaches the requested count. It never ends whenever more walls are requested than there are empty interior cells away from the spawn points.
  - On a map at most 6 x 6 there are no such cells: every interior cell is next to a spawn point, so no wall can ever be placed (`MapGen.FreeCellNeedsRoom`), and any request for walls hangs the generator.
  - The model consumes a finite list of draws and stops when it runs out.
  - It shows that on a map at most 6 x 6 no wall is ever placed, and that every draw away from the spawn points ends up as a wall.
- Status never goes back to waiting. Only the constructor sets it.

## Model

| member | source | states |
|---|---|---|
| GameTypes.Step | auto-tank-game-server/src/core/GameEngine.ts:160-165 | a direction 0..3 moves exactly one cell and any other value stays; which neighbour each direction reaches (up y-1, right x+1, down y+1, left x-1) is stated by `BotTactics.RayClosedForm` at k = 1 |
| MapGen.GenerateMap | auto-tank-game-server/src/core/GameEngine.ts:30-66 | the map is w x h of 0/1; the whole border is wall; no wall within one cell of the four spawn points; exactly `placed` interior walls, each one of the draws; every used draw away from the spawn points is a wall, so the interior walls are exactly those draws; fewer than requested only when the draws ran out; none at all on maps at most 6 x 6 |
| MapGen.SpawnPoints | auto-tank-game-server/src/core/GameEngine.ts:46-51 | the four spawn points, in slot order |
| MapGen.NearSpawn | auto-tank-game-server/src/core/GameEngine.ts:55 | the cell is within one row and one column of some spawn point |
| MapGen.AwayDrawsPlaced | auto-tank-game-server/src/core/GameEngine.ts:52-58 | once the newest draw away from the spawn points is a wall, every used draw away from the spawn points is one |
| MapGen.WallIsInterior | auto-tank-game-server/src/core/GameEngine.ts:56 | a draw rejected because its cell already holds a wall is already an interior wall |
| MapGen.BorderedGrid | auto-tank-game-server/src/core/GameEngine.ts:31-41 | every border cell is 1 and every other cell 0 |
| MapGen.BorderedGridShape | auto-tank-game-server/src/core/GameEngine.ts:31-41 | the bordered grid already has the generated-map shape and no interior walls |
| MapGen.PlaceWall | auto-tank-game-server/src/core/GameEngine.ts:55-57 | an accepted draw keeps the map shape, was not a wall before, becomes the one new interior wall, and can only happen on a map wider or taller than 6 |
| MapGen.DrawnSoFar | auto-tank-game-server/src/core/GameEngine.ts:52-58 | every wall placed so far, with the draw just taken, is among the draws used so far |
| MapGen.PlaceWallKeepsShape | auto-tank-game-server/src/core/GameEngine.ts:55-57 | a wall on an interior cell away from the spawn points keeps the map shape |
| MapGen.InteriorWallsAdd | auto-tank-game-server/src/core/GameEngine.ts:55-58 | placing a wall on an empty interior cell adds exactly that cell to the interior walls, so `placed` counts walls |
| MapGen.FreeCellNeedsRoom | auto-tank-game-server/src/core/GameEngine.ts:52-63 | an interior cell away from every spawn point exists only when the map is wider or taller than 6 |
| MapGen.SpawnIsFloor | auto-tank-game-server/src/core/GameEngine.ts:73-80 | each of the four spawn slots is a floor cell of a generated map |
| BulletPhysics.CountOwned | auto-tank-game-server/src/core/GameEngine.ts:260 | the number of bullets in the list shot by the owner |
| BulletPhysics.Expired | auto-tank-game-server/src/core/GameEngine.ts:167-178 | a moved bullet vanishes when its range is used up, it left the map, or it entered a wall |
| BulletPhysics.StepBullets | auto-tank-game-server/src/core/GameEngine.ts:147-220 | the whole update: the pass over the bullets, then the filter; the bullet list never grows and the roster keeps its length |
| BulletPhysics.CountOwnedAppend | auto-tank-game-server/src/core/GameEngine.ts:260 | appending a bullet raises its owner's count by one and no other owner's |
| BulletPhysics.Advance | auto-tank-game-server/src/core/GameEngine.ts:156-165 | the range counter goes up by one, the cell moves one step in the bullet's direction, nothing else changes |
| BulletPhysics.CollisionFrom | auto-tank-game-server/src/core/GameEngine.ts:182-193 | the first other entry, of another owner, on the bullet's cell; none exactly when no entry qualifies |
| BulletPhysics.Collides | auto-tank-game-server/src/core/GameEngine.ts:183-188 | entry j is another entry, of another owner, on entry i's cell |
| BulletPhysics.HitFrom | auto-tank-game-server/src/core/GameEngine.ts:198-213 | the first living non-owner player on the bullet's cell, in roster order; none exactly when nobody qualifies |
| BulletPhysics.Hits | auto-tank-game-server/src/core/GameEngine.ts:199-204 | the player is alive, stands on the bullet's cell and is not its owner |
| BulletPhysics.Damage | auto-tank-game-server/src/core/GameEngine.ts:205-209 | health drops by exactly the damage, the player is alive afterwards only if it was and health stays positive, nothing else changes |
| BulletPhysics.ProcessBullet | auto-tank-game-server/src/core/GameEngine.ts:151-216 | one bullet's turn keeps the lengths of the bullet list, the roster and the flag lists |
| BulletPhysics.RunPass | auto-tank-game-server/src/core/GameEngine.ts:151-216 | the rest of the pass keeps those lengths too |
| BulletPhysics.Kept | auto-tank-game-server/src/core/GameEngine.ts:219 | the final filter never adds a bullet |
| BulletPhysics.ProcessBulletKeepsInv | auto-tank-game-server/src/core/GameEngine.ts:151-216 | after each turn the handled entries are moved old bullets, the pushed ones not expired, and players changed only in health and liveness, the dead unchanged |
| BulletPhysics.RunPassKeepsInv | auto-tank-game-server/src/core/GameEngine.ts:151-216 | that invariant holds at the end of the pass |
| BulletPhysics.KeptFromPushed | auto-tank-game-server/src/core/GameEngine.ts:215-219 | every kept bullet is a pushed entry |
| BulletPhysics.KeptCount | auto-tank-game-server/src/core/GameEngine.ts:219 | filtering never raises an owner's bullet count |
| BulletPhysics.KeptSurvive | auto-tank-game-server/src/core/GameEngine.ts:215-219 | each kept bullet is an old bullet moved one cell and not expired |
| BulletPhysics.StepBulletsSurvivors | auto-tank-game-server/src/core/GameEngine.ts:147-220 | the list never grows, no owner gains bullets, and every survivor is an old bullet moved one cell, in the map, on floor, with range counter below 3 |
| BulletPhysics.StepBulletsPlayers | auto-tank-game-server/src/core/GameEngine.ts:197-213 | the same players in the same order; only health and liveness change; the dead stay unchanged and nobody comes back to life |
| BulletPhysics.ProcessBulletHitsAtMostOne | auto-tank-game-server/src/core/GameEngine.ts:197-215 | a turn leaves the roster as it was, or damages exactly one living non-owner player on the bullet's cell by the bullet's damage, and then the bullet is not pushed |
| BulletPhysics.ProcessBulletFlagsOnlyRivals | auto-tank-game-server/src/core/GameEngine.ts:182-192 | a turn flags only another entry, of another owner, on the moving bullet's new cell |
| BulletPhysics.OneOwnerNeverFlags | auto-tank-game-server/src/core/GameEngine.ts:185 | when all bullets share one owner the pass flags none |
| BulletPhysics.RunPassTwo | auto-tank-game-server/src/core/GameEngine.ts:151 | the pass over two bullets is the turn of the first, then the turn of the second |
| BulletPhysics.KeptTwo | auto-tank-game-server/src/core/GameEngine.ts:219 | the filter over two bullets keeps each exactly when it was pushed and not flagged |
| BulletPhysics.ExpiredBulletStillAnnihilates | auto-tank-game-server/src/core/GameEngine.ts:167-194 | a bullet that runs out of range on a rival's target cell destroys the rival when listed first, and does not when listed second |
| BulletPhysics.FlaggedBulletStillStrikes | auto-tank-game-server/src/core/GameEngine.ts:180-219 | a bullet flagged by an earlier rival still damages the player it reaches and is still dropped |
| Engine.ReplaceKeepsRoster | auto-tank-game-server/src/core/GameEngine.ts:95 | overwriting the entry with the same id by a player on floor keeps ids distinct and every player on floor, alive exactly while health is positive |
| Engine.AppendKeepsRoster | auto-tank-game-server/src/core/GameEngine.ts:95 | appending a player on floor under a new id keeps the roster sound |
| Engine.StepKeepsRoom | auto-tank-game-server/src/core/GameEngine.ts:147-220 | the bullet update keeps the roster's length and soundness, keeps every bullet on floor within its range, and keeps at most 3 bullets per owner |
| Engine.IndexOf | auto-tank-game-server/src/core/GameEngine.ts:224 | the position of the roster entry with the id; none exactly when no entry has it |
| Engine.RemoveId | auto-tank-game-server/src/core/GameEngine.ts:106 | exactly the entries with other ids remain; ids stay distinct; an absent id changes nothing; with distinct ids the one entry with the id is cut out and the others keep their order |
| Engine.RemoveIdCons | auto-tank-game-server/src/core/GameEngine.ts:106 | one step of the removal carries membership, distinct ids, the absent-id case and the kept order from the rest of the roster to the whole roster |
| Engine.RemoveIdConsOrder | auto-tank-game-server/src/core/GameEngine.ts:106 | one step of the removal cuts out the entry with the id and keeps the order of the others |
| Engine.TailDistinct | auto-tank-game-server/src/core/GameEngine.ts:95 | the rest of a roster with distinct ids has distinct ids, none of them the first entry's |
| Engine.Actor | auto-tank-game-server/src/core/GameEngine.ts:224-225 | the entry of a present and living player; none when the player is absent or dead |
| Engine.Moved | auto-tank-game-server/src/core/GameEngine.ts:244-257 | movePlayer as a value: only the position and the facing can change |
| Engine.MovedIsStepOrStay | auto-tank-game-server/src/core/GameEngine.ts:244-257 | for 0..3 a move shifts one cell toward the direction and turns to it, or changes nothing; another value keeps the cell and sets the facing; a player on floor stays on floor |
| Engine.Digits | auto-tank-game-server/src/core/GameEngine.ts:264 | at least one character, all decimal digits |
| Engine.BulletId | auto-tank-game-server/src/core/GameEngine.ts:264 | the id starts with the owner's id and `_`, followed by the clock reading in decimal |
| Engine.FiredKeepsLimit | auto-tank-game-server/src/core/GameEngine.ts:259-276 | no owner ever exceeds 3 bullets; a shot is refused exactly when the shooter has 3, leaving the list unchanged; otherwise one bullet is appended at the shooter's cell and facing, with the configured damage and range counter 0; other owners' counts are unchanged |
| Engine.Fired | auto-tank-game-server/src/core/GameEngine.ts:259-276 | spawnBullet as a value: the list is unchanged or gains exactly one bullet at its end |
| Engine.FiredCounts | auto-tank-game-server/src/core/GameEngine.ts:259-276 | an accepted shot adds one to the shooter's count and to no other owner's; a refused one changes no count |
| Engine.FirstCollision | auto-tank-game-server/src/core/GameEngine.ts:182-193 | the inner scan finds the same entry as `CollisionFrom` |
| Engine.FirstHit | auto-tank-game-server/src/core/GameEngine.ts:198-213 | the inner scan finds the same player as `HitFrom` |
| Engine.BulletTurn | auto-tank-game-server/src/core/GameEngine.ts:152-215 | one outer-loop turn computes `ProcessBullet` |
| Engine.DropFlagged | auto-tank-game-server/src/core/GameEngine.ts:219 | the filter loop computes `Kept` |
| Engine.GameEngine.constructor | auto-tank-game-server/src/core/GameEngine.ts:11-27 | a waiting room with no players and no bullets, tick 0, timer stopped, a generated map, and the room invariant; every interior wall is a used draw away from the spawn points, every used draw away from them is a wall, and fewer walls than requested only when the draws ran out |
| Engine.GameEngine.AddPlayer | auto-tank-game-server/src/core/GameEngine.ts:69-103 | refused and nothing changed exactly when the roster holds maxPlayers; otherwise the player gets spawn slot size % 4, health 100, score 0, facing 0, alive, no last action, and is appended or replaces its id in place; a waiting room starts with the timer running; a finished room stays finished |
| Engine.GameEngine.RemovePlayer | auto-tank-game-server/src/core/GameEngine.ts:105-110 | the entries with the id go and nothing else changes; an empty roster ends finished with the timer stopped |
| Engine.GameEngine.CanAcceptPlayers | auto-tank-game-server/src/core/GameEngine.ts:112-114 | true exactly when the roster has room and the room is not finished |
| Engine.GameEngine.StartGame | auto-tank-game-server/src/core/GameEngine.ts:121-127 | afterwards playing with the timer running; with the timer already running nothing changes |
| Engine.GameEngine.StopGame | auto-tank-game-server/src/core/GameEngine.ts:129-136 | afterwards finished with the timer stopped, so a second call changes nothing |
| Engine.GameEngine.Tick | auto-tank-game-server/src/core/GameEngine.ts:138-144 | the tick counter goes up by one and bullets and roster become the bullet update of the old ones |
| Engine.GameEngine.UpdateBullets | auto-tank-game-server/src/core/GameEngine.ts:147-220 | the new bullets and roster are `StepBullets` of the old ones, and the room invariant is kept (floor cells, at most 3 bullets per owner, alive exactly while health is positive) |
| Engine.GameEngine.HandlePlayerAction | auto-tank-game-server/src/core/GameEngine.ts:223-242 | absent or dead player: nothing changes; otherwise the action is recorded, and a move moves as `Moved`, a rotate sets the facing, a shot fires as `Fired`, anything else changes nothing more; other players and the status are untouched |
| Engine.GameEngine.MovePlayer | auto-tank-game-server/src/core/GameEngine.ts:244-257 | the player becomes `Moved` of itself, so it remains on floor; no one else changes |
| Engine.GameEngine.SpawnBullet | auto-tank-game-server/src/core/GameEngine.ts:259-279 | the bullets become `Fired` of the old list, so no owner exceeds 3 |
| Engine.GameEngine.GetSerializableState | auto-tank-game-server/src/core/GameEngine.ts:283-294 | the snapshot carries the room's id, status, tick, map, players in roster order, bullets and maxPlayers; hence a generated map, distinct players within capacity on floor cells, bullets on floor, at most 3 per owner |
| BotGrid.CanMove | auto-tank-game-client/smart-bot.js:174-183 | the cell is in a row of the map, in a column of its first row, and empty |
| BotGrid.CanMoveIsServerFloor | auto-tank-game-client/smart-bot.js:174-183 | on a generated map the bot may enter exactly the cells the server lets a player stand on |
| BotGrid.NextPos | auto-tank-game-client/smart-bot.js:185-198 | the same step as the server's: one cell for 0..3, none otherwise |
| BotGrid.DirectionTo | auto-tank-game-client/smart-bot.js:200-205 | the horizontal axis first; a step that way is one cell closer to a different cell; a 4-neighbour is reached exactly; the same cell gives up |
| BotGrid.NeighbourByDirection | auto-tank-game-client/smart-bot.js:185-205 | every 4-neighbour is the next cell of some direction 0..3 |
| BotSearch.FindPathAStar | auto-tank-game-client/smart-bot.js:210-236 | the loop terminates; a returned path starts at start, ends at goal, steps between 4-neighbours and enters only movable cells; none is returned only when no such path exists |
| BotSearch.Expand | auto-tank-game-client/smart-bot.js:223-233 | expanding one cell keeps the search invariant and decreases the termination measure |
| BotSearch.Relaxed | auto-tank-game-client/smart-bot.js:224-232 | one direction as a value: an enterable neighbour whose cost is missing or above g[current] + 1 gets that cost, `current` as parent and a place at the back of the queue |
| BotSearch.Relax | auto-tank-game-client/smart-bot.js:224-232 | the statements for one direction: an enterable neighbour whose cost is missing or above g[current] + 1 gets that cost, `current` as parent and a place at the back of the queue; otherwise the queue and both maps are unchanged |
| BotSearch.RelaxKeepsInv | auto-tank-game-client/smart-bot.js:224-232 | one direction keeps the expansion invariant and never raises the termination measure |
| BotSearch.RecordShrinks | auto-tank-game-client/smart-bot.js:228-231 | recording a cost for a new enterable cell lowers the number of unvisited cells by one |
| BotSearch.PushKeepsInv | auto-tank-game-client/smart-bot.js:228-232 | enqueuing a newly reached neighbour with cost one more keeps the expansion invariant |
| BotSearch.SkipKeepsInv | auto-tank-game-client/smart-bot.js:225-228 | skipping a blocked or already costed neighbour keeps the invariant, and that neighbour's cost is at most one more |
| BotSearch.CostsBounded | auto-tank-game-client/smart-bot.js:228 | a cell already costed at most one level further never passes the strict-decrease test |
| BotSearch.ExpandDone | auto-tank-game-client/smart-bot.js:223-233 | after the four directions the expanded cell is closed |
| BotSearch.DequeueKeepsInv | auto-tank-game-client/smart-bot.js:219-221 | the dequeued cell has a cost and is no longer queued; unless it is the goal, the invariant holds with it expanded |
| BotSearch.NoPathOutOfClosedSet | auto-tank-game-client/smart-bot.js:218-235 | when the queue empties without reaching the goal, no walk from start to goal exists |
| BotSearch.ReconstructPath | auto-tank-game-client/smart-bot.js:238-245 | the loop terminates at start; the path is a walk from start to the cell, one longer than the cell's cost |
| BotSearch.PrependStep | auto-tank-game-client/smart-bot.js:241-243 | prepending a parent that neighbours the walk's first cell, which may be entered, gives a walk from the parent |
| BotTactics.LineOfSightSymmetric | auto-tank-game-client/smart-bot.js:134-146 | sight is symmetric and needs a shared row or column |
| BotTactics.CanSeeEnemy | auto-tank-game-client/smart-bot.js:134-146 | true exactly when the two share a column or a row and no cell strictly between them is a wall |
| BotTactics.ClosestIsUnique | auto-tank-game-client/smart-bot.js:120-132 | at most one entry is the closest enemy |
| BotTactics.GetClosestEnemy | auto-tank-game-client/smart-bot.js:120-132 | none exactly when no other living player exists; otherwise a living other player at minimum Manhattan distance, the earliest on ties |
| BotTactics.AimDirection | auto-tank-game-client/smart-bot.js:149-154 | a direction 0..3, horizontal exactly when the horizontal distance is larger |
| BotTactics.AimApproaches | auto-tank-game-client/smart-bot.js:148-154 | one step in the aimed direction is one cell closer to the target |
| BotTactics.AimAndShoot | auto-tank-game-client/smart-bot.js:148-159 | shoot exactly when already facing the aimed direction, else rotate to it |
| BotTactics.FirstMovable | auto-tank-game-client/smart-bot.js:110-112 | the first listed direction whose next cell is movable; none exactly when no listed one is |
| BotTactics.Movable | auto-tank-game-client/smart-bot.js:110-111 | the bot may enter the next cell in that direction |
| BotTactics.Sidestep | auto-tank-game-client/smart-bot.js:109-118 | trySidestep as a value: a move or a turn toward some listed direction the bot may enter, or none |
| BotTactics.Toward | auto-tank-game-client/smart-bot.js:113-115 | a move in the direction when the bot already faces it, otherwise a turn to it |
| BotTactics.TrySidestep | auto-tank-game-client/smart-bot.js:109-118 | the loop computes `Sidestep` |
| BotTactics.SidestepChoice | auto-tank-game-client/smart-bot.js:109-118 | none exactly when no listed direction is movable; otherwise the first movable one, move if already facing it and rotate otherwise |
| BotTactics.RayClosedForm | auto-tank-game-client/smart-bot.js:87-103 | k steps in a direction shift the cell by k along its axis |
| BotTactics.Threatens | auto-tank-game-client/smart-bot.js:82-104 | a bullet of someone else heading at the player along its row or column from at most 3 cells away |
| BotTactics.DodgeDirs | auto-tank-game-client/smart-bot.js:90-102 | two different directions across the bullet's line: left and right for a vertical bullet, up and down otherwise |
| BotTactics.ThreatMeansIncoming | auto-tank-game-client/smart-bot.js:82-104 | a bullet is a threat exactly when it is someone else's and, moving as the server moves it, reaches the player's cell in 1 to 3 steps |
| BotTactics.FirstThreat | auto-tank-game-client/smart-bot.js:83-105 | the first threatening bullet in list order; none exactly when no bullet threatens |
| BotTactics.AvoidBullets | auto-tank-game-client/smart-bot.js:82-107 | nothing when no bullet threatens; otherwise the first threat alone decides, by a sidestep across its line |
| BotTactics.DodgeIsSideways | auto-tank-game-client/smart-bot.js:87-103 | a dodge move is into a movable cell, at right angles to the bullet's line |
| BotState.StuckStep | auto-tank-game-client/smart-bot.js:67-80 | checkIfStuck as a value: the position is always recorded afterwards |
| BotState.StuckStepBounds | auto-tank-game-client/smart-bot.js:67-80 | the counter stays at most 2, the position is recorded, and the target is kept or dropped, never replaced |
| BotState.FourCallsDropTarget | auto-tank-game-client/smart-bot.js:67-80 | four calls at the same cell always drop the target |
| BotState.MovingKeepsTarget | auto-tank-game-client/smart-bot.js:76-79 | a call at a new cell records it, restarts the count and keeps the target |
| BotState.BotMemory.constructor | auto-tank-game-client/smart-bot.js:14-20 | the initial memory: nothing explored, no position, count 0, no target, safe mode off |
| BotState.BotMemory.CheckIfStuck | auto-tank-game-client/smart-bot.js:67-80 | the position, count and target move by `StuckStep`; the explored set and safe mode are untouched |

## Left out

- Sockets and broadcasting are network I/O, so they are not modelled: `broadcastState`, the lobby of `auto-tank-game-server/src/app.ts`, and the socket handlers of the bot.
- The tick timer is a concurrency concern. `setInterval` and `clearInterval` become the boolean `loopActive` plus the explicit `Tick` method.
- `gameTime` is not modelled, because it is floating point: `update` adds `1000 / tickRate` to it on every tick and the snapshot copies it.
- Engine.GameEngine.GetSerializableState: the snapshot has no `gameTime` field, since the model has no `gameTime`.
- The action `timestamp` is not modelled. `handlePlayerAction` stores the whole action as `lastAction`; the model stores its type and direction only.
- Console output is not modelled.
- The colour draw is `colorRoll`. The UI, `client.js` and `simple-bot.js` only display state.
- `getPlayerCount` and `getGameState` become plain reads of `|players|` and `GetSerializableState`. They are one-line aliases.
- `smartBotAI`, `getNewTarget` and `reachedTarget` are the bot's decision glue; only `smartBotAI` and `getNewTarget` draw random numbers. The helpers they call are modelled.
- The `explored` set and `safeMode` flag are fields of `BotMemory` but are not updated: `checkIfStuck` never touches them.
- The snapshot's copying has no counterpart in the model: every component is a value, so no aliasing can arise between a snapshot and the room.
- The engine's shared player records are not modelled either. A joined player is returned by value, so later changes in the room are not visible through it.
- Bullet ids are built from the owner id and the clock reading. Nothing makes them unique, as in the source.
- An action's direction is an integer. The source accepts any JavaScript value.
- An unknown action type is `Idle`, which the source treats the same way.
- MapGen.GenerateMap: the source keeps drawing until every requested wall is placed. The model stops when its finite list of draws runs out and states what was placed by then. The source does not terminate when more walls are requested than there are empty interior cells away from the spawn points, which on maps at most 6 x 6 means whenever walls are requested.
- Engine.GameEngine.constructor: requires a map of at least 3 x 3 (`ValidConfig`). On smaller maps the source puts the spawn points on the border or outside the map.
- BotSearch.FindPathAStar: does not state that the path is shortest. The source does not promise it.
- BotTactics.CanSeeEnemy: requires a rectangular map with both players on it. The server's map always is, and on other inputs the source reads outside the rows.
