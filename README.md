# Terminal-C1 lane-defence engine, modelled in Dafny

This project models the core of the `tc1` simulator for a Terminal-C1 style
game, as Python code. It covers three modules:

- the game state (`tc1/state.py`): healths, cores, bits and the two unit lists;
  placing units with their border checks; pruning dead units.
- the movement engine (`tc1/mapgraph.py`): the padded 30×30 grid; the four
  frontier edges; the breadth-first distance maps; one turn of unit movement
  with scoring; the direction tie-break rules; the "deepest position" choice.
- the damage engine (`tc1/damage.py`): the distance matrix; the per-attacker
  target scan with the five-rule priority comparator; applying the shots.

A turn as `tc1/engine.py` runs it is modelled too: move, then damage, then
remove dead units, then serialize.

Modules, one per file:

| file | module | what it holds |
|---|---|---|
| `wrappers.dfy` | `Wrappers` | `Option`, `Result`, `Outcome` and the `Error` enumeration: one constructor per exception the source raises |
| `state.dfy` | `State` | the `Unit` record, the border lists, placement rules, `PruneAsWritten`, the `GameState` class |
| `grid.dfy` | `Grid` | the carved grid templates (`MakeGrid`), `FrontierNodes` |
| `field.dfy` | `Field` | value views of the grids, the breadth-first search loop and its "distance field" characterisation |
| `movement.dfy` | `Movement` | `get_direction` and `_move_one` as functions on value views; the deepest-position selection |
| `mapgraph.dfy` | `MapGraph` | the `MapGraph` class: array grids, distance maps, and the methods that mirror `update_state`, `get_dijkstra`, `recompute_distance_maps`, `__call__` |
| `damage.dfy` | `Damage` | `l1dist`, the comparator, the scan, the volleys, `DamageEngineCall` |
| `engine.dfy` | `Engine` | one turn (`Tick`) and the loop of `simulate_and_show` (`Run`) |

Exceptions are modelled as errors that are returned. `Result` carries a value
or an `Error`; `Outcome` is `Pass` or `Fail(Error)`. The constructors are:

- `WrongBorderId`: the `ValueError` of `get_frontier_nodes`.
- `OccupiedTarget`: a distance map requested to an occupied cell.
- `UnboundDeltas`: the `UnboundLocalError` when every neighbour is blocked or
  unreachable.
- `VerticalAssertion`: the `AssertionError` of case 1.
- `GiveUp`: the final `ValueError` of `get_direction`.
- `ReachabilityWalk`: the `TypeError` from `q.not_empty()` in
  `find_deepest_position`.
- `MissingTarget`: the `KeyError` when a structure attacker reaches rule 4.
- `OffensivePlacement` and `DefensivePlacement`: the two placement
  `ValueError`s.

Where the model follows the code rather than the documented rules:

- Rules 1 and 2 of `_targeting_priority` are one-sided.
  - Rule 1 only promotes a mobile candidate over a structure; it never demotes
    one (`StructureCanDisplaceMobile`).
  - The second test of rule 2 repeats the first, so a nearer candidate never
    wins on distance alone. It falls through to the stability rule
    (`CloserStrongerCandidateLoses`).
- Targets are chosen lazily: the generator of `_find_targets` is consumed while
  damage is applied. Each attacker therefore scans the opposing list as the
  earlier shots left it. A unit killed earlier in the same turn is skipped
  (`KilledTargetIsNotChosenLater`). The enemy side scans the friendly list
  after all friendly shots have landed.
- `remove_dead_units` deletes from a list while enumerating it, so the element
  that follows a removed one is never examined (`PruneSkipsAfterRemoved`).
- In `find_deepest_position`, the preferred-direction table maps target 5 to
  `(1, 1)`, not `(1, -1)`. `PreferredDirectionMissesEdgeFive` shows the
  consequence: a unit heading for edge 5 keeps a non-edge cell over an edge
  cell.

Two methods compute their results before writing the state, where the source
writes as it goes. The final state is the same:

- `PlayMoves` moves both sides before it stores the lists and healths. Neither
  side's moves read the healths or the other side's list.
- `DamageEngineCall` runs both volleys before it stores the lists. The enemy
  volley reads the friendly volley's result either way.

## Model

| member | source | states |
|---|---|---|
| `State.GameState.constructor` | tc1/state.py:5-25 | health 30, cores 5, bits 6 on both sides, and two empty unit lists |
| `State.FriendlyBorderCells` | tc1/state.py:10-11 | a cell is on the friendly border list exactly when 1 ≤ y ≤ 14 and x = 15−y or x = 14+y |
| `State.EnnemyBorderCells` | tc1/state.py:12-13 | a cell is on the enemy border list exactly when 15 ≤ y ≤ 28 and x = y−14 or x = 43−y |
| `State.GameState.SerializeState` | tc1/state.py:27-40 | the snapshot holds every counter and both unit lists, as values that later turns cannot alter |
| `State.TargetEdge` | tc1/state.py:64-76 | friendly mobile units target edge 2 when x < 15 and 3 otherwise; enemy ones edge 5 when x < 15 and 4 otherwise |
| `State.PlacementRules` | tc1/state.py:57-83 | `PlacementError`, the placement checks of add_unit: placement succeeds exactly when a mobile unit is on its own border list, or a structure is on its own half (y ≤ 14 friendly, y ≥ 15 enemy); otherwise the matching placement error |
| `State.NewUnit` | tc1/state.py:53-92 | the record copies the catalogue stats and the position, has no previous move and a zero counter, and has a target exactly when it is mobile, which is then the target edge of its side and position |
| `State.PlacementExamplesFromTests` | tests/test_state.py:1-38 | the accepted and refused placements of the state tests, as placement results |
| `State.GameState.AddUnit` | tc1/state.py:42-97 | an accepted unit is appended to its team's list; a refused one leaves both lists unchanged and returns its error; counters never change |
| `State.Alive` | tc1/state.py:99-102 | the units with positive stability, and nothing else |
| `State.PruneIsSubsequence` | tc1/state.py:103-108 | the pruned list `PruneAsWritten(s)` (the remove_dead_units pass as written) is a subsequence of the original (order kept) |
| `State.PruneKeepsEveryLiveUnit` | tc1/state.py:103-108 | `PruneAsWritten` never drops a live unit: the live units before and after are the same |
| `State.PruneRemovesOnlyDead` | tc1/state.py:103-108 | every unit `PruneAsWritten` removes had stability ≤ 0 |
| `State.PruneSkipsAfterRemoved` | tc1/state.py:103-105 | two dead units in a row: the second one survives the pass |
| `State.GameState.RemoveDeadUnits` | tc1/state.py:99-108 | both lists become their as-written pruning; counters unchanged |
| `State.DeleteDeadWhileEnumerating` | tc1/state.py:103-105 | the index loop that deletes in place yields exactly `PruneAsWritten` |
| `Grid.MakeGrid` | tc1/mapgraph.py:10-30 | both templates are 30×30; carved cells are 0 (grid) and 901 (distances), every other cell is −1 |
| `Grid.PlayableNeighboursInBox` | tc1/mapgraph.py:25-30 | a carved cell lies in 1..28 on both axes, so its four neighbours are inside the array |
| `Grid.FrontierNodes` | tc1/mapgraph.py:32-49 | ids 2..5 give 14 distinct carved cells on that edge; any other id is the wrong-border-id error |
| `Grid.BorderListsAreFrontiers` | tc1/state.py:10-13 | the friendly border list is edges 4 then 5 and the enemy list is edges 3 then 2 |
| `Grid.TargetEdgeIsOpposite` | tc1/state.py:64-76 | a unit's target edge is on the opposing half, on the opposite side in x from where it stands |
| `Field.PathLengthBound` | tc1/mapgraph.py:76-86 | along any open path from a seed, the distance at the end is at most the path length |
| `Field.PathFromSeed` | tc1/mapgraph.py:76-86 | every reached cell has an open path from a seed whose length is its distance |
| `Field.FieldIsShortestDistance` | tc1/mapgraph.py:51-87 | the distance map holds the length of a shortest open path from a seed; a cell reachable within 900 steps is never left at 901 |
| `Field.PlayableSetCard` | tc1/mapgraph.py:76-86 | any set of playable cells has at most 420 elements, so at most 420 cells ever enter the queue and the loop ends |
| `Field.QueueBound` | tc1/mapgraph.py:76-86 | every queued cell is playable and queued once, so the queue never holds more than 420 cells |
| `Field.RelaxNeighbour` | tc1/mapgraph.py:80-86 | one neighbour step: an open neighbour whose distance is more than c+1 gets c+1 and joins the queue |
| `Field.ExpandEntry` | tc1/mapgraph.py:78-86 | dequeuing one cell and relaxing its four neighbours keeps the search invariant |
| `Field.Expand` | tc1/mapgraph.py:77-86 | when the queue empties, the distance array is the shortest-distance field of its seeds |
| `MapGraph.MapGraph.constructor` | tc1/mapgraph.py:6-30 | the templates are built, the grid starts as the carved template and no distance map is cached |
| `MapGraph.PaintedCell` | tc1/mapgraph.py:89-102 | `Painted` (friendly then enemy `PaintPrefix`): each cell holds the id of the last friendly structure on it, or 6+id of the last enemy structure (the enemy list is written last and wins), or else the template value |
| `MapGraph.PaintedGridOk` | tc1/mapgraph.py:89-102 | painting structures keeps the grid well formed and blocks every structure's cell |
| `MapGraph.PaintUnits` | tc1/mapgraph.py:93-102 | the painting loop writes `PaintPrefix` of the list, so update_state yields `Painted` |
| `MapGraph.MapGraph.UpdateState` | tc1/mapgraph.py:89-102 | the new grid is the template with both teams' structures painted on it |
| `MapGraph.SeedBorder` | tc1/mapgraph.py:62-69 | the seeds are exactly the unoccupied cells of the edge, at distance 0, queued once each |
| `MapGraph.SeededIsBfsStart` | tc1/mapgraph.py:59-75 | the seeded queue and distance copy satisfy the search invariant |
| `MapGraph.MapGraph.GetDijkstra` | tc1/mapgraph.py:51-87 | fails exactly for an occupied custom cell (or a wrong border id); otherwise a fresh array holding the shortest-distance field of the seeds |
| `MapGraph.MapGraph.BorderField` | tc1/mapgraph.py:62-69 | for edges 2..5, the distance map to the unoccupied cells of that edge |
| `MapGraph.MapGraph.AddBorderMap` | tc1/mapgraph.py:109 | stores the field of edge t and keeps the maps of the edges already done |
| `MapGraph.MapGraph.RecomputeDistanceMaps` | tc1/mapgraph.py:104-109 | afterwards, maps 2, 3, 4 and 5 are each the shortest-distance field to their edge on the current grid |
| `MapGraph.ScanNeighbours` | tc1/mapgraph.py:216-224 | the neighbour loop computes `Candidates`, the deltas of the scan `ScanPrefix` |
| `MapGraph.BreakTie` | tc1/mapgraph.py:226-269 | the tie-break code computes `TieBreak` |
| `MapGraph.MapGraph.GetDirection` | tc1/mapgraph.py:198-269 | the delta returned, or the error raised, is the one `Direction` gives for this unit on the current grid and map |
| `MapGraph.MapGraph.MoveOne` | tc1/mapgraph.py:135-164 | moving one unit gives the result of the move function on the current grid and maps |
| `MapGraph.MapGraph.MoveUnits` | tc1/mapgraph.py:121-122 | moving a list in order gives `MoveAll`, which stops at the first error |
| `MapGraph.ErrorStopsMoves` | tc1/mapgraph.py:121-122 | once one unit's move raises, the list result stays that error |
| `MapGraph.PlayKeepsPlacement` | tc1/mapgraph.py:111-132 | a completed `Play` keeps list lengths, placement and structures in place; each side loses at most one health point per opposing unit |
| `MapGraph.LoseHealth` | tc1/mapgraph.py:123-132 | one health point per score event, taken from the opposing side only |
| `MapGraph.MapGraph.PlayMoves` | tc1/mapgraph.py:120-132 | the new lists and healths are those of `Play`: friendly moves and scores first, then enemy ones |
| `MapGraph.MapGraph.Call` | tc1/mapgraph.py:111-132 | paints the grid, recomputes the four maps, then plays the turn on them; cores and bits unchanged |
| `Movement.FirstOpen` | tc1/mapgraph.py:217-224 | the first open neighbour in scan order, or none when every neighbour is blocked |
| `Movement.MinValue` | tc1/mapgraph.py:216-224 | the smallest distance among the open neighbours |
| `Movement.AtValue` | tc1/mapgraph.py:220-224 | the deltas, in scan order, of the open neighbours at a given distance |
| `Movement.ScanPrefixMeaning` | tc1/mapgraph.py:216-224 | `ScanPrefix` ends with the minimum and its deltas; every neighbour blocked leaves nothing; a first open neighbour at 901 is the unbound-list error |
| `Movement.CandidatesAreClosest` | tc1/mapgraph.py:216-224 | `Candidates` are exactly the open neighbours at the smallest distance; there is at least one, or else the unbound-list error |
| `Movement.Vertical` | tc1/mapgraph.py:236 | the vertical candidates, and only those |
| `Movement.OtherAxis` | tc1/mapgraph.py:246-247 | the candidates on the other axis from the previous move |
| `Movement.FirstPreferred` | tc1/mapgraph.py:261-268 | the first preferred delta that is also a candidate, or none when no preferred delta is |
| `Movement.TieBreakChoosesCandidate` | tc1/mapgraph.py:226-269 | `TieBreak`: a single candidate is taken; a new unit takes its one vertical candidate or fails the assertion; otherwise a sole candidate on the other axis is taken, or else the first candidate in the order of the preferred locations, or else the move gives up |
| `Movement.TieBreakPicksCandidate` | tc1/mapgraph.py:226-269 | the delta `TieBreak` chooses is always a candidate; the only errors are the assertion and the give-up |
| `Movement.DirectionDescends` | tc1/mapgraph.py:198-269 | on a distance field, the step `Direction` chooses goes to an open cell exactly one closer to the target; the only errors are the assertion and the give-up |
| `Movement.DirectionIsOpen` | tc1/mapgraph.py:217-230 | the step `Direction` chooses is to an open adjacent cell |
| `Movement.NewUnitIsWellPlaced` | tc1/state.py:57-92 | a unit accepted by the placement rules is on a carved cell with a target edge, or is a structure |
| `Movement.MoveOne` | tc1/mapgraph.py:135-164 | structures stay unchanged; a unit not yet due only counts one more waiting turn; a due unit's counter restarts at 0; moving changes only position, counter, previous move and stability; a scoring unit's stability drops to 0 |
| `Movement.MoveOneKeepsPlacement` | tc1/mapgraph.py:135-164 | a moved unit is still on a carved cell |
| `Movement.MoveOneOnField` | tc1/mapgraph.py:135-164 | a unit due to act scores exactly when it stands on its edge; an unreachable edge is the walk error; otherwise it steps to an adjacent open cell one closer and remembers the delta |
| `Movement.MoveAllMeaning` | tc1/mapgraph.py:120-132 | a completed `MoveAll` is each unit's own move, in order; the score events are one per scoring unit |
| `Movement.ScoreCountBound` | tc1/mapgraph.py:123-132 | there are no more score events than units |
| `Movement.DeeperIsTotal` | tc1/mapgraph.py:190-195 | of two distinct cells exactly one is deeper: y first, then x, each signed by the preferred direction |
| `Movement.DeepestIsUnique` | tc1/mapgraph.py:184-196 | the deepest cell of a set is unique |
| `Movement.SelectStepKeeps` | tc1/mapgraph.py:190-195 | one step of the selection loop (`SelectStep`) keeps the best cell the deepest one seen |
| `Movement.SelectDeepest` | tc1/mapgraph.py:177-196 | the selection loop returns the deepest of the visited cells and the start |
| `Movement.EdgeIsDeepest` | tc1/mapgraph.py:185-189 | for targets 2, 3 and 4, any cell of the target edge is deeper than any cell of the other half, and the table agrees with the preferred locations |
| `Movement.PreferredDirectionMissesEdgeFive` | tc1/mapgraph.py:187 | for target 5 the table prefers a large y, so a non-edge cell is kept over an edge-5 cell, against the preferred locations of edge 5 |
| `Damage.L1Dist` | tc1/damage.py:3-5 | the Manhattan distance is non-negative and zero exactly for equal cells |
| `Damage.L1DistSymmetric` | tc1/damage.py:3-5 | the distance is symmetric |
| `Damage.DistanceMatrix` | tc1/damage.py:58-70 | entry (i, j) is the distance from friendly unit i to enemy unit j |
| `Damage.EdgeGap` | tc1/damage.py:118 | the smaller of x and 30−x |
| `Damage.TargetingPriority` | tc1/damage.py:72-120 | a dead candidate never wins; any live one beats no target; a mobile candidate beats a structure; the only error is a structure attacker reaching rule 4 |
| `Damage.ComparatorRules` | tc1/damage.py:90-120 | the rule-by-rule outcome: distance (one-sided), then stability, then row by the attacker's side, then edge distance |
| `Damage.StructureCanDisplaceMobile` | tc1/damage.py:91-92 | rule 1 is one-sided: a closer structure can replace a mobile target |
| `Damage.CloserStrongerCandidateLoses` | tc1/damage.py:96-104 | rule 2 is one-sided: a nearer candidate with more stability does not replace a farther one |
| `Damage.Scan` | tc1/damage.py:39-46 | the target, if any, is live, in range and an earlier index; the only error is the missing-target one, for an attacker without a target edge |
| `Damage.ScanNoneIff` | tc1/damage.py:39-46 | no target exactly when no in-range candidate is alive |
| `Damage.ScanKeepsChoice` | tc1/damage.py:39-46 | the chosen unit won when it was met, and no later in-range candidate beat it |
| `Damage.MobileScanNeverRaises` | tc1/damage.py:105-115 | an attacker with a target edge never raises |
| `Damage.FindTarget` | tc1/damage.py:39-56 | the scan over one row of the matrix computes the scan function |
| `Damage.Hit` | tc1/damage.py:27-30 | a shot lowers the target's stability by the attacker's damage unless a scrambler hits a structure; nothing else changes |
| `Damage.Fired` | tc1/damage.py:24-30 | one attacker's pair: its target, if any, is live and in range on the list as the earlier shots left it; only stabilities change; a stopped volley stays stopped |
| `Damage.Volley` | tc1/damage.py:24-30 | attackers shoot in order; only stabilities change; each chosen target is in range |
| `Damage.VolleyDamage` | tc1/damage.py:24-30 | each target loses exactly the damage of the attackers that chose it |
| `Damage.VolleyUnchosen` | tc1/damage.py:25-26 | a target no attacker chose is unchanged |
| `Damage.ChosenWasAlive` | tc1/damage.py:84-86 | each target was alive when it was chosen |
| `Damage.FiredNeverHeals` | tc1/damage.py:27-30 | a shot of non-negative damage never raises a stability |
| `Damage.DeadStaysDead` | tc1/damage.py:24-30 | a target at stability 0 or below after some attackers have fired stays so for the rest of the volley |
| `Damage.DeadIsNotChosen` | tc1/damage.py:39-46 | an attacker never chooses a target whose stability is 0 or below |
| `Damage.KilledTargetIsNotChosenLater` | tc1/damage.py:24-46 | for every volley: a target killed by the first k attackers is chosen by none of the attackers after them |
| `Damage.KilledTargetIsNotChosenAgain` | tc1/damage.py:24-46 | a worked example: two attackers, one target with stability 1; the first kills it, and the second chooses nothing |
| `Damage.VolleyOfMobileNeverFails` | tc1/damage.py:105-115 | a volley of mobile attackers never raises |
| `Damage.Combat` | tc1/damage.py:15-30 | the friendly volley then the enemy volley; list lengths, positions and everything except stability stay the same |
| `Damage.CombatDamage` | tc1/damage.py:15-56 | the stabilities after a turn of shots, as the damage of each side's volley |
| `Damage.Shoot` | tc1/damage.py:24-30 | the loop over one side's attackers computes the volley, and stops at the first error |
| `Damage.ShootOne` | tc1/damage.py:24-30 | one yielded pair: the attacker's scan on the list as it stands, then its shot, is one more step of the volley |
| `Damage.ShootAt` | tc1/damage.py:25-30 | one shot: no target leaves the list as it is; otherwise the hit target is replaced |
| `Damage.DamageEngineCall` | tc1/damage.py:15-30 | the new lists are those of the combat; it fails exactly when the combat raises; healths, cores and bits are unchanged |
| `Engine.DamageAndPruneKeepReady` | tc1/engine.py:25-26 | damage and pruning keep the lists ready for the next turn |
| `Engine.MovesKeepReady` | tc1/engine.py:24 | a completed move phase keeps the lists ready and the healths within one point per opposing unit |
| `Engine.TickIsTurn` | tc1/engine.py:23-27 | what `Tick` promises makes its result `TurnFrom` the state before it: moves on the painted template and its border fields, then combat and pruning |
| `Engine.TurnIsDetermined` | tc1/engine.py:23-27 | a turn's outcome is determined by the template and the state it starts from |
| `Engine.BorderMapsAreUnique` | tc1/mapgraph.py:104-109 | the four border fields recomputed on a grid can take only one value |
| `Engine.TracedAppend` | tc1/engine.py:22-27 | appending the snapshot of the next turn keeps every snapshot the turn from the one before |
| `Field.FieldIsUnique` | tc1/mapgraph.py:51-87 | two distance fields of one grid from one seed set are equal |
| `Engine.Resolve` | tc1/engine.py:25-27 | damage, pruning and serializing: the snapshot holds the pruned lists after combat, or the combat's error |
| `Engine.Tick` | tc1/engine.py:23-27 | one turn: the moves are played on the grid with the structures painted (`Painted`) and on the four recomputed border fields; the snapshot is the one after moves, combat and pruning, or the first error; health drops by at most one point per opposing unit |
| `Engine.Run` | tc1/engine.py:21-27 | at most n snapshots, n unless an error stops the run; snapshot k is the turn (`TurnFrom`) played from snapshot k−1, the first from the initial state; an error is the one the next turn raises; after a full run the state is the last snapshot; cores and bits are the same in every snapshot; health never rises |

## Left out

- Display and animation are not modelled: `tc1/display.py`, `debug_print` and
  `animate_logs`. They only draw.
- `main.py`, `setup.py` and the test harness are not modelled. The placement
  examples of `tests/test_state.py` are restated as `PlacementExamplesFromTests`.
- The unit catalogue `tc1/unit_desc.py` is not part of this model. Its row for
  a unit kind is a `UnitStats` parameter.
- The reachability walk of `find_deepest_position` is left out. It calls
  `q.not_empty()`, which raises `TypeError`, so the model returns the
  `ReachabilityWalk` error whenever a unit's edge is unreachable. The selection
  step after it (`SelectDeepest`) is modelled over a given set of visited cells.
- `MapGraph.MapGraph.constructor`: the source's `__init__` creates neither
  the grid nor the distance-map cache; both appear only in `update_state`, and
  a map used before it raises `AttributeError`. The model starts with the
  carved template as the grid and an empty cache instead.
- `Damage.KilledTargetIsNotChosenLater` and `Damage.DeadStaysDead` require
  every attacker's damage to be non-negative. The catalogue that supplies it
  is not part of this model, so damage is a parameter.
- Partial state after a raise is not modelled.
  - `MapGraph.MapGraph.Call`: the unit lists and healths after a raise are left
    unspecified. The source has updated the units moved before the one that
    raised.
  - `Damage.DamageEngineCall`: the shots fired before the raise stay applied,
    as in the source.
- `MapGraph.MapGraph.UpdateState`: requires every structure to lie inside the
  30×30 array. The numpy behaviour for positions outside it is not modelled:
  negative indices wrap around, and large ones raise `IndexError`.
- Unit identity is not modelled. Units are records held by value in the lists.
  The source mutates dicts in place, but no two list entries share a dict, so
  replacing an entry by index has the same effect.
- Numbers are modelled as integers. The numpy grids and distance maps hold
  floats, but every value written to them is a small integer.
- The queue of the breadth-first search is a sequence with a read index.
